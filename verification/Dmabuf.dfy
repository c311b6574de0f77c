/** DMA-BUF metadata and the frame-to-buffer ownership relation both peers keep. */
module Dmabuf {
  import opened Base

  datatype Format = Format(fourcc: u32, modifier: u64)

  datatype Plane = Plane(index: u32, offset: u32, stride: u32)

  datatype Buffer = Buffer(id: u64, width: u32, height: u32, format: Format, planes: seq<Plane>) {
    predicate Valid() {
      && 0 < width <= 16384
      && 0 < height <= 16384
      && 1 <= |planes| <= 4
      && forall i :: 0 <= i < |planes| ==> planes[i].index == i && planes[i].stride != 0
    }
  }

  datatype Rect = Rect(x: u32, y: u32, width: u32, height: u32) {
    /** Non-empty and inside a `w` by `h` buffer, with both corner sums computed in 32 bits. */
    predicate Fits(w: u32, h: u32) {
      width > 0 && height > 0 && x + width <= w && y + height <= h
    }
  }

  /** Pixel (`x`, `y`) lies in the rectangle. */
  predicate InRect(r: Rect, x: int, y: int) { r.x <= x < r.x + r.width && r.y <= y < r.y + r.height }

  predicate Damages(damage: seq<Rect>, x: int, y: int) { exists i :: 0 <= i < |damage| && InRect(damage[i], x, y) }

  /** No rectangle is empty and no damaged pixel lies outside a `width` by `height` buffer. */
  ghost predicate DamageInside(damage: seq<Rect>, width: u32, height: u32) {
    && (forall i :: 0 <= i < |damage| ==> damage[i].width > 0 && damage[i].height > 0)
    && (forall x, y :: Damages(damage, x, y) ==> 0 <= x < width && 0 <= y < height)
  }

  lemma InsideMeansFits(damage: seq<Rect>, width: u32, height: u32)
    ensures DamageInside(damage, width, height) <==> forall i :: 0 <= i < |damage| ==> damage[i].Fits(width, height)
  {
    if DamageInside(damage, width, height) {
      forall i | 0 <= i < |damage| ensures damage[i].Fits(width, height) {
        var r := damage[i];
        assert InRect(r, r.x + r.width - 1, r.y + r.height - 1);
        assert Damages(damage, r.x + r.width - 1, r.y + r.height - 1);
      }
    }
  }

  /** Every in-flight frame holds its own buffer, and `busy` is exactly what they hold. */
  ghost predicate Holds(inFlight: map<u64, u64>, busy: set<u64>) {
    && busy == inFlight.Values
    && forall f, g :: f in inFlight && g in inFlight && inFlight[f] == inFlight[g] ==> f == g
  }

  lemma HoldsAdd(inFlight: map<u64, u64>, busy: set<u64>, frame: u64, buffer: u64)
    requires Holds(inFlight, busy) && frame !in inFlight && buffer !in busy
    ensures Holds(inFlight[frame := buffer], busy + {buffer})
  {
    var after := inFlight[frame := buffer];
    forall b | b in busy + {buffer} ensures b in after.Values {
      var f := if b == buffer then frame else var g :| g in inFlight && inFlight[g] == b; g;
      assert f in after && after[f] == b;
    }
    forall f | f in inFlight ensures inFlight[f] != buffer {
      assert inFlight[f] in inFlight.Values;
    }
  }

  lemma HoldsRemove(inFlight: map<u64, u64>, busy: set<u64>, frame: u64)
    requires Holds(inFlight, busy) && frame in inFlight
    ensures Holds(inFlight - {frame}, busy - {inFlight[frame]})
  {
    var after := inFlight - {frame};
    forall b | b in busy - {inFlight[frame]} ensures b in after.Values {
      var f :| f in inFlight && inFlight[f] == b;
      assert f in after && after[f] == b;
    }
  }
}
