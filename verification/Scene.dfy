/** Whole-scene validation of task layers. */
module Scene {
  import opened Base

  const MAX_LAYERS := 64

  type i32 = x: int | -0x8000_0000 <= x <= I32_MAX

  datatype Area<T> = Area(x: T, y: T, w: T, h: T)

  datatype Layer = Layer(
    id: u64,
    buffer: u64,
    ticket: u64,
    destination: Area<i32>,
    source: Area<u32>,
    transform: u32,
    alpha: u32,
    isOpaque: bool,
    color: u32)
  {
    predicate InTask(width: u32, height: u32) {
      && id != 0
      && destination.x >= 0 && destination.y >= 0 && destination.w > 0 && destination.h > 0
      && transform <= 7
      && destination.x + destination.w <= width && destination.y + destination.h <= height
    }

    /** Odd transforms turn the buffer by a quarter: 1, 3, 5 and 7. */
    function Turned(b: SceneBuffer): (u32, u32) {
      if transform in {1, 3, 5, 7} then (b.height, b.width) else (b.width, b.height)
    }

    /** The source rectangle is non-empty and inside the turned buffer, in 24.8 units; a
        corner sum that leaves 32 bits is refused. */
    predicate InBuffer(b: SceneBuffer) {
      var (bw, bh) := Turned(b);
      && source.w > 0 && source.h > 0
      && source.x + source.w < U32_LIMIT && source.x + source.w <= bw * 256
      && source.y + source.h < U32_LIMIT && source.y + source.h <= bh * 256
    }

    predicate Validate(width: u32, height: u32, allocation: Option<SceneBuffer>) {
      && InTask(width, height)
      && if buffer == 0 then ticket == 0 && allocation.None?
         else allocation.Some? && ticket != 0 && allocation.value.id == buffer && InBuffer(allocation.value)
    }
  }

  datatype SceneBuffer = SceneBuffer(id: u64, width: u32, height: u32)

  // ------------------------------------------------------------------------------------
  // What a layer shows, point by point

  /** The point of the untransformed buffer, in 24.8 units, that Wayland buffer transform
      `transform` shows at (`x`, `y`): a rotation by its two low bits, mirrored from 4 on. */
  function TurnedBack(transform: u32, b: SceneBuffer, x: int, y: int): (int, int) {
    var (w, h) := (b.width * 256, b.height * 256);
    match transform
    case 0 => (x, y)
    case 1 => (y, h - 1 - x)
    case 2 => (w - 1 - x, h - 1 - y)
    case 3 => (w - 1 - y, x)
    case 4 => (w - 1 - x, y)
    case 5 => (y, x)
    case 6 => (x, h - 1 - y)
    case _ => (w - 1 - y, h - 1 - x)
  }

  predicate Inside(x: int, y: int, left: int, top: int, w: int, h: int) { left <= x < left + w && top <= y < top + h }

  /** Every point of the layer's source shows a point of the buffer. */
  ghost predicate ShowsBuffer(l: Layer, b: SceneBuffer) {
    forall x, y :: Inside(x, y, l.source.x, l.source.y, l.source.w, l.source.h) ==>
      var p := TurnedBack(l.transform, b, x, y);
      Inside(p.0, p.1, 0, 0, b.width * 256, b.height * 256)
  }

  /** Every pixel of the layer's destination is a pixel of the task. */
  ghost predicate StaysInTask(l: Layer, width: u32, height: u32) {
    forall x, y :: Inside(x, y, l.destination.x, l.destination.y, l.destination.w, l.destination.h) ==> Inside(x, y, 0, 0, width, height)
  }

  lemma TaskPixels(l: Layer, width: u32, height: u32)
    ensures l.InTask(width, height) <==>
      l.id != 0 && l.transform <= 7 && l.destination.w > 0 && l.destination.h > 0 && StaysInTask(l, width, height)
  {
    var d := l.destination;
    if d.w > 0 && d.h > 0 && StaysInTask(l, width, height) {
      assert Inside(d.x, d.y, d.x, d.y, d.w, d.h);
      assert Inside(d.x + d.w - 1, d.y + d.h - 1, d.x, d.y, d.w, d.h);
    }
  }

  lemma BufferPoints(l: Layer, b: SceneBuffer)
    requires l.transform <= 7
    ensures l.InBuffer(b) <==>
      && l.source.w > 0 && l.source.h > 0
      && l.source.x + l.source.w < U32_LIMIT && l.source.y + l.source.h < U32_LIMIT
      && ShowsBuffer(l, b)
  {
    var s := l.source;
    if s.w > 0 && s.h > 0 && ShowsBuffer(l, b) {
      assert Inside(s.x, s.y, s.x, s.y, s.w, s.h);
      assert Inside(s.x + s.w - 1, s.y + s.h - 1, s.x, s.y, s.w, s.h);
    }
  }

  /** A layer validates exactly when it has an identity, its destination is non-empty and lies
      in the task pixel by pixel, and it is solid without ticket and allocation, or has a
      ticket and its own allocation, every point of its non-empty source, turned back, lies in
      that allocation, and no corner leaves 32 bits. */
  lemma ValidatesExactly(l: Layer, width: u32, height: u32, allocation: Option<SceneBuffer>)
    ensures l.Validate(width, height, allocation) <==>
      && l.id != 0 && l.transform <= 7 && l.destination.w > 0 && l.destination.h > 0 && StaysInTask(l, width, height)
      && match allocation
         case None => l.buffer == 0 && l.ticket == 0
         case Some(b) =>
           && l.buffer != 0 && l.ticket != 0 && b.id == l.buffer
           && l.source.w > 0 && l.source.h > 0
           && l.source.x + l.source.w < U32_LIMIT && l.source.y + l.source.h < U32_LIMIT
           && ShowsBuffer(l, b)
  {
    hide StaysInTask, ShowsBuffer, Layer.InTask, Layer.InBuffer;
    TaskPixels(l, width, height);
    if allocation.Some? && l.transform <= 7 { BufferPoints(l, allocation.value); }
  }

  datatype SourceState = SourceState(buffer: SceneBuffer, imported: bool, ticket: Option<u64>, spareTimeline: bool)

  /** The cached allocations and the view each layer identity currently shows. */
  type Sources = map<u64, SourceState>
  type Views = map<u64, (u64, u64)>

  datatype Staged = Staged(layer: Layer, acquire: bool)

  datatype SceneStatus = Ready | Busy | Invalid

  datatype Request = Request(layers: seq<Staged>, count: u32, width: u32, height: u32, lastTicket: u64)

  function Allocation(sources: Sources, b: u64): Option<SceneBuffer> {
    if b in sources then Some(sources[b].buffer) else None
  }

  /** The layer keeps showing the read its allocation already holds. */
  predicate Reuses(l: Layer, sources: Sources) {
    l.buffer != 0 && l.buffer in sources && sources[l.buffer].ticket == Some(l.ticket)
  }

  predicate Fresh(l: Layer, sources: Sources) {
    l.buffer != 0 && l.buffer in sources && sources[l.buffer].ticket != Some(l.ticket)
  }

  predicate Shows(views: Views, id: u64, buffer: u64, ticket: u64) {
    id in views && views[id] == (buffer, ticket)
  }

  /** What a layer must satisfy on its own. */
  predicate LayerValid(r: Request, s: Staged, sources: Sources, views: Views) {
    var l := s.layer;
    && l.Validate(r.width, r.height, Allocation(sources, l.buffer))
    && if l.buffer == 0 then !s.acquire
       else
         && l.buffer in sources && sources[l.buffer].imported
         && if Reuses(l, sources) then !s.acquire && Shows(views, l.id, l.buffer, l.ticket)
            else l.ticket > r.lastTicket
  }

  /** A new read that has to wait for the read its allocation still holds. */
  predicate Waits(l: Layer, sources: Sources, views: Views) {
    && Fresh(l, sources)
    && var b := sources[l.buffer];
       !b.spareTimeline && b.ticket.Some? && !Shows(views, l.id, l.buffer, b.ticket.value)
  }

  predicate Clash(a: Layer, b: Layer, sources: Sources) {
    || a.id == b.id
    || (a.buffer != 0 && a.buffer == b.buffer)
    || (Fresh(a, sources) && Fresh(b, sources) && a.ticket == b.ticket)
  }

  ghost predicate SceneValid(r: Request, sources: Sources, views: Views) {
    && 0 < r.count == |r.layers| <= MAX_LAYERS
    && (forall i :: 0 <= i < |r.layers| ==> LayerValid(r, r.layers[i], sources, views))
    && (forall i, j :: 0 <= i < j < |r.layers| ==> !Clash(r.layers[i].layer, r.layers[j].layer, sources))
  }

  ghost predicate SceneWaits(r: Request, sources: Sources, views: Views) {
    exists i :: 0 <= i < |r.layers| && Waits(r.layers[i].layer, sources, views)
  }

  ghost function Verdict(r: Request, sources: Sources, views: Views): SceneStatus {
    if !SceneValid(r, sources, views) then Invalid
    else if SceneWaits(r, sources, views) then Busy else Ready
  }

  // ------------------------------------------------------------------------------------
  // The first `n` layers

  ghost predicate PrefixValid(r: Request, n: nat, sources: Sources, views: Views)
    requires n <= |r.layers|
  {
    && (forall i :: 0 <= i < n ==> LayerValid(r, r.layers[i], sources, views))
    && (forall i, j :: 0 <= i < j < n ==> !Clash(r.layers[i].layer, r.layers[j].layer, sources))
  }

  ghost predicate PrefixWaits(r: Request, n: nat, sources: Sources, views: Views)
    requires n <= |r.layers|
  {
    exists i :: 0 <= i < n && Waits(r.layers[i].layer, sources, views)
  }

  ghost function Ids(layers: seq<Staged>, n: nat): set<u64>
    requires n <= |layers|
  {
    set i | 0 <= i < n :: layers[i].layer.id
  }

  ghost function Buffers(layers: seq<Staged>, n: nat): set<u64>
    requires n <= |layers|
  {
    set i | 0 <= i < n && layers[i].layer.buffer != 0 :: layers[i].layer.buffer
  }

  ghost function Tickets(layers: seq<Staged>, n: nat, sources: Sources): set<u64>
    requires n <= |layers|
  {
    set i | 0 <= i < n && Fresh(layers[i].layer, sources) :: layers[i].layer.ticket
  }

  lemma PrefixStep(r: Request, n: nat, sources: Sources, views: Views)
    requires n < |r.layers|
    ensures var l := r.layers[n].layer;
      PrefixValid(r, n + 1, sources, views) <==>
        && PrefixValid(r, n, sources, views) && LayerValid(r, r.layers[n], sources, views)
        && l.id !in Ids(r.layers, n)
        && (l.buffer != 0 ==> l.buffer !in Buffers(r.layers, n))
        && (Fresh(l, sources) ==> l.ticket !in Tickets(r.layers, n, sources))
    ensures PrefixWaits(r, n + 1, sources, views) <==> PrefixWaits(r, n, sources, views) || Waits(r.layers[n].layer, sources, views)
  {
    hide LayerValid, Waits, Fresh;
    var l := r.layers[n].layer;
    if PrefixValid(r, n + 1, sources, views) {
      forall i | 0 <= i < n ensures !Clash(r.layers[i].layer, l, sources) {}
    }
  }

  lemma SetsStep(r: Request, n: nat, sources: Sources)
    requires n < |r.layers|
    ensures var l := r.layers[n].layer;
      && Ids(r.layers, n + 1) == Ids(r.layers, n) + {l.id}
      && Buffers(r.layers, n + 1) == Buffers(r.layers, n) + (if l.buffer != 0 then {l.buffer} else {})
      && Tickets(r.layers, n + 1, sources) == Tickets(r.layers, n, sources) + (if Fresh(l, sources) then {l.ticket} else {})
  {
    hide Fresh;
  }

  lemma PrefixBreaks(r: Request, n: nat, sources: Sources, views: Views)
    requires n <= |r.layers| && !PrefixValid(r, n, sources, views)
    ensures Verdict(r, sources, views) == Invalid
  {
    hide LayerValid, Clash, SceneWaits;
  }

  lemma PrefixIsScene(r: Request, sources: Sources, views: Views)
    requires 0 < r.count == |r.layers| <= MAX_LAYERS && PrefixValid(r, |r.layers|, sources, views)
    ensures Verdict(r, sources, views) == if PrefixWaits(r, |r.layers|, sources, views) then Busy else Ready
  {
    hide LayerValid, Clash, Waits;
  }

  /** One pass over the layers, with three sets, early returns and a flag. */
  method AssessScene(r: Request, sources: Sources, views: Views) returns (status: SceneStatus)
    ensures status == Verdict(r, sources, views)
  {
    hide Layer.Validate, PrefixValid, PrefixWaits, Ids, Buffers, Tickets;
    if r.count == 0 || r.count != |r.layers| || |r.layers| > MAX_LAYERS {
      return Invalid;
    }
    var ids: set<u64>, buffers: set<u64>, tickets: set<u64> := {}, {}, {};
    var busy := false;
    var i := 0;
    EmptyPrefix(r, sources, views);
    hide Verdict;
    while i < |r.layers|
      invariant 0 <= i <= |r.layers|
      invariant PrefixValid(r, i, sources, views)
      invariant ids == Ids(r.layers, i) && buffers == Buffers(r.layers, i) && tickets == Tickets(r.layers, i, sources)
      invariant busy <==> PrefixWaits(r, i, sources, views)
    {
      PrefixStep(r, i, sources, views);
      SetsStep(r, i, sources);
      if !PrefixValid(r, i + 1, sources, views) { PrefixBreaks(r, i + 1, sources, views); }
      var l, acquire := r.layers[i].layer, r.layers[i].acquire;
      if l.id in ids || !l.Validate(r.width, r.height, Allocation(sources, l.buffer)) {
        return Invalid;
      }
      ids := ids + {l.id};
      if l.buffer == 0 {
        if acquire {
          return Invalid;
        }
      } else {
        if l.buffer !in sources {
          return Invalid;
        }
        var b := sources[l.buffer];
        if !b.imported || l.buffer in buffers {
          return Invalid;
        }
        buffers := buffers + {l.buffer};
        if b.ticket == Some(l.ticket) {
          if acquire || !Shows(views, l.id, l.buffer, l.ticket) {
            return Invalid;
          }
        } else {
          if l.ticket <= r.lastTicket || l.ticket in tickets {
            return Invalid;
          }
          tickets := tickets + {l.ticket};
          busy := busy || (!b.spareTimeline && b.ticket.Some? && !Shows(views, l.id, l.buffer, b.ticket.value));
        }
      }
      i := i + 1;
    }
    PrefixIsScene(r, sources, views);
    status := if busy then Busy else Ready;
  }

  lemma EmptyPrefix(r: Request, sources: Sources, views: Views)
    ensures PrefixValid(r, 0, sources, views) && !PrefixWaits(r, 0, sources, views)
    ensures Ids(r.layers, 0) == {} && Buffers(r.layers, 0) == {} && Tickets(r.layers, 0, sources) == {}
  {
  }

  // ------------------------------------------------------------------------------------
  // What a verdict means

  /** The view of layer `l` shows its buffer under `ticket`. */
  predicate ShowsRead(l: Layer, views: Views, ticket: u64) { l.id in views && views[l.id] == (l.buffer, ticket) }

  /** A layer may be shown: it lies in its task and its buffer; a solid one carries no fence; a
      buffered one reads an imported allocation, either by going on with the very read its own
      view shows, without a new fence, or by a new read above every earlier ticket. */
  predicate Showable(r: Request, s: Staged, sources: Sources, views: Views) {
    var l := s.layer;
    && l.Validate(r.width, r.height, if l.buffer in sources then Some(sources[l.buffer].buffer) else None)
    && (l.buffer == 0 ==> !s.acquire)
    && (l.buffer != 0 ==>
          && l.buffer in sources && sources[l.buffer].imported
          && if sources[l.buffer].ticket == Some(l.ticket) then !s.acquire && ShowsRead(l, views, l.ticket) else l.ticket > r.lastTicket)
  }

  /** Its read can start at once: it goes on with one, its allocation is free or has a timeline
      to spare, or the read in progress is the one its own view shows and replaces. */
  predicate StartsNow(l: Layer, sources: Sources, views: Views) {
    l.buffer == 0 || l.buffer !in sources
    || match sources[l.buffer].ticket
       case None => true
       case Some(held) => held == l.ticket || sources[l.buffer].spareTimeline || ShowsRead(l, views, held)
  }

  /** No two layers share an identity, an allocation or a new ticket. */
  ghost predicate Apart(layers: seq<Staged>, sources: Sources) {
    forall i, j :: 0 <= i < j < |layers| ==>
      var a, b := layers[i].layer, layers[j].layer;
      && a.id != b.id && (a.buffer != 0 ==> a.buffer != b.buffer)
      && (a.buffer in sources && b.buffer in sources && a.buffer != 0 && b.buffer != 0 && a.ticket == b.ticket ==>
            sources[a.buffer].ticket == Some(a.ticket) || sources[b.buffer].ticket == Some(b.ticket))
  }

  /** The verdict on a scene: shown or waiting exactly if it is complete, of 1 to 64 layers that
      are each showable and stay apart; and then shown exactly if every read can start now. */
  lemma VerdictExactly(r: Request, sources: Sources, views: Views)
    ensures Verdict(r, sources, views) != Invalid <==>
      && 0 < |r.layers| <= 64 && r.count == |r.layers|
      && (forall i :: 0 <= i < |r.layers| ==> Showable(r, r.layers[i], sources, views))
      && Apart(r.layers, sources)
    ensures Verdict(r, sources, views) != Invalid ==>
      (Verdict(r, sources, views) == Ready <==> forall i :: 0 <= i < |r.layers| ==> StartsNow(r.layers[i].layer, sources, views))
  {
    hide Layer.Validate;
    assert forall i :: 0 <= i < |r.layers| ==> (Showable(r, r.layers[i], sources, views) <==> LayerValid(r, r.layers[i], sources, views));
    assert forall i :: 0 <= i < |r.layers| ==> (StartsNow(r.layers[i].layer, sources, views) <==> !Waits(r.layers[i].layer, sources, views));
    ApartMeansNoClash(r.layers, sources);
    hide Showable, LayerValid, StartsNow, Waits, Apart, Clash;
  }

  lemma ApartMeansNoClash(layers: seq<Staged>, sources: Sources)
    ensures Apart(layers, sources) <==> forall i, j :: 0 <= i < j < |layers| ==> !Clash(layers[i].layer, layers[j].layer, sources)
  {
  }

  // ------------------------------------------------------------------------------------
  // Order of layers

  lemma {:induction false} Twice<T>(s: seq<T>, x: T) returns (i: nat, j: nat)
    requires multiset(s)[x] >= 2
    ensures i < j < |s| && s[i] == s[j] == x
  {
    var n := |s| - 1;
    assert s == s[..n] + [s[n]];
    if s[n] == x {
      j := n;
      assert x in multiset(s[..n]);
      i :| 0 <= i < n && s[..n][i] == x;
    } else {
      i, j := Twice(s[..n], x);
    }
  }

  lemma CountsTwo<T>(s: seq<T>, i: nat, j: nat)
    requires i < j < |s| && s[i] == s[j]
    ensures multiset(s)[s[i]] >= 2
  {
    assert s == s[..j] + [s[j]] + s[j + 1..];
    assert s[..j][i] == s[j];
    assert s[i] in multiset(s[..j]);
  }

  lemma SameMembers<T>(a: seq<T>, b: seq<T>, i: nat) returns (j: nat)
    requires multiset(a) == multiset(b) && i < |b|
    ensures j < |a| && a[j] == b[i]
  {
    assert b[i] in multiset(b);
    assert b[i] in multiset(a);
    j :| 0 <= j < |a| && a[j] == b[i];
  }

  /** A clash in one order is a clash in every order. */
  lemma ClashMoves(a: seq<Staged>, b: seq<Staged>, sources: Sources, i: nat, j: nat)
    requires multiset(a) == multiset(b) && i < j < |b| && Clash(b[i].layer, b[j].layer, sources)
    ensures exists k, m :: 0 <= k < m < |a| && Clash(a[k].layer, a[m].layer, sources)
  {
    hide Fresh;
    if b[i] == b[j] {
      CountsTwo(b, i, j);
      var k, m := Twice(a, b[i]);
      assert Clash(a[k].layer, a[m].layer, sources);
    } else {
      var k := SameMembers(a, b, i);
      var m := SameMembers(a, b, j);
      assert Clash(a[k].layer, a[m].layer, sources) && Clash(a[m].layer, a[k].layer, sources);
    }
  }

  lemma OrderKeepsValid(r: Request, q: Request, sources: Sources, views: Views)
    requires SceneValid(r, sources, views) && q == r.(layers := q.layers) && multiset(q.layers) == multiset(r.layers)
    ensures SceneValid(q, sources, views)
  {
    hide LayerValid, Clash;
    assert |q.layers| == |multiset(q.layers)| == |r.layers|;
    forall i | 0 <= i < |q.layers| ensures LayerValid(q, q.layers[i], sources, views) {
      var k := SameMembers(r.layers, q.layers, i);
      assert LayerValid(r, r.layers[k], sources, views);
      SameBounds(r, q, q.layers[i], sources, views);
    }
    forall i, j | 0 <= i < j < |q.layers| ensures !Clash(q.layers[i].layer, q.layers[j].layer, sources) {
      if Clash(q.layers[i].layer, q.layers[j].layer, sources) {
        ClashMoves(r.layers, q.layers, sources, i, j);
        assert false;
      }
    }
  }

  lemma SameBounds(r: Request, q: Request, s: Staged, sources: Sources, views: Views)
    requires q == r.(layers := q.layers) && LayerValid(r, s, sources, views)
    ensures LayerValid(q, s, sources, views)
  {
    hide Layer.Validate, Reuses, Shows;
  }

  lemma OrderKeepsWaits(r: Request, q: Request, sources: Sources, views: Views)
    requires SceneWaits(r, sources, views) && multiset(q.layers) == multiset(r.layers)
    ensures SceneWaits(q, sources, views)
  {
    hide Waits;
    var i :| 0 <= i < |r.layers| && Waits(r.layers[i].layer, sources, views);
    var k := SameMembers(q.layers, r.layers, i);
  }

  /** The verdict on a scene does not depend on the order of its layers, although the
      single pass stops at whichever fault it meets first. */
  lemma VerdictIgnoresOrder(r: Request, q: Request, sources: Sources, views: Views)
    requires q == r.(layers := q.layers) && multiset(q.layers) == multiset(r.layers)
    ensures Verdict(q, sources, views) == Verdict(r, sources, views)
  {
    hide SceneValid, SceneWaits;
    assert r == q.(layers := r.layers);
    if SceneValid(r, sources, views) { OrderKeepsValid(r, q, sources, views); }
    if SceneValid(q, sources, views) { OrderKeepsValid(q, r, sources, views); }
    if SceneWaits(r, sources, views) { OrderKeepsWaits(r, q, sources, views); }
    if SceneWaits(q, sources, views) { OrderKeepsWaits(q, r, sources, views); }
  }

  // ------------------------------------------------------------------------------------
  // Waiting scenes

  ghost function FreshBuffers(r: Request, sources: Sources): set<u64> {
    set i | 0 <= i < |r.layers| && Fresh(r.layers[i].layer, sources) :: r.layers[i].layer.buffer
  }

  ghost function WaitingBuffers(r: Request, sources: Sources, views: Views): set<u64> {
    set i | 0 <= i < |r.layers| && Waits(r.layers[i].layer, sources, views) :: r.layers[i].layer.buffer
  }

  /** The reads of `done` completed; the allocations in `widened` gained a timeline. */
  function Progressed(sources: Sources, done: set<u64>, widened: set<u64>): Sources {
    map b | b in sources ::
      sources[b].(ticket := if b in done then None else sources[b].ticket,
                  spareTimeline := b in widened || sources[b].spareTimeline)
  }

  lemma ProgressKeepsKinds(l: Layer, sources: Sources, done: set<u64>, widened: set<u64>)
    requires Reuses(l, sources) ==> l.buffer !in done
    ensures var after := Progressed(sources, done, widened);
      && (Fresh(l, after) <==> Fresh(l, sources))
      && (Reuses(l, after) <==> Reuses(l, sources))
      && Allocation(after, l.buffer) == Allocation(sources, l.buffer)
  {
  }

  lemma ProgressKeepsLayer(r: Request, s: Staged, sources: Sources, views: Views, done: set<u64>, widened: set<u64>)
    requires Reuses(s.layer, sources) ==> s.layer.buffer !in done
    ensures LayerValid(r, s, Progressed(sources, done, widened), views) <==> LayerValid(r, s, sources, views)
  {
    ProgressKeepsKinds(s.layer, sources, done, widened);
    hide Layer.Validate, Reuses, Shows;
  }

  lemma ProgressKeepsWaits(l: Layer, sources: Sources, views: Views, done: set<u64>, widened: set<u64>)
    requires Reuses(l, sources) ==> l.buffer !in done
    ensures Waits(l, Progressed(sources, done, widened), views) <==> Waits(l, sources, views) && l.buffer !in done + widened
  {
    ProgressKeepsKinds(l, sources, done, widened);
    hide Reuses, Shows;
  }

  /** A layer that keeps a read never shares its allocation with a new read. */
  lemma ReusedIsNotFresh(r: Request, sources: Sources, views: Views, i: nat)
    requires SceneValid(r, sources, views) && i < |r.layers| && Reuses(r.layers[i].layer, sources)
    ensures r.layers[i].layer.buffer !in FreshBuffers(r, sources)
  {
    hide LayerValid;
    forall j | 0 <= j < |r.layers| && Fresh(r.layers[j].layer, sources)
      ensures r.layers[j].layer.buffer != r.layers[i].layer.buffer
    {
      if i < j { assert !Clash(r.layers[i].layer, r.layers[j].layer, sources); }
      if j < i { assert !Clash(r.layers[j].layer, r.layers[i].layer, sources); }
    }
  }

  lemma ProgressKeepsValid(r: Request, sources: Sources, views: Views, done: set<u64>, widened: set<u64>)
    requires SceneValid(r, sources, views) && done <= FreshBuffers(r, sources)
    ensures SceneValid(r, Progressed(sources, done, widened), views)
    ensures forall i :: 0 <= i < |r.layers| && Reuses(r.layers[i].layer, sources) ==> r.layers[i].layer.buffer !in done
  {
    hide LayerValid, Reuses, Fresh, FreshBuffers, Progressed;
    forall i | 0 <= i < |r.layers| && Reuses(r.layers[i].layer, sources) ensures r.layers[i].layer.buffer !in done {
      ReusedIsNotFresh(r, sources, views, i);
    }
    forall i | 0 <= i < |r.layers| ensures LayerValid(r, r.layers[i], Progressed(sources, done, widened), views) {
      ProgressKeepsLayer(r, r.layers[i], sources, views, done, widened);
    }
    forall i, j | 0 <= i < j < |r.layers| ensures !Clash(r.layers[i].layer, r.layers[j].layer, Progressed(sources, done, widened)) {
      ProgressKeepsKinds(r.layers[i].layer, sources, done, widened);
      ProgressKeepsKinds(r.layers[j].layer, sources, done, widened);
      assert !Clash(r.layers[i].layer, r.layers[j].layer, sources);
    }
  }

  /** A waiting scene has passed everything else: when reads of allocations that get a new
      ticket complete, or such allocations gain a timeline, it is never found invalid, and
      it becomes ready exactly when that covered every allocation it waited for. */
  lemma WaitingScenesBecomeReady(r: Request, sources: Sources, views: Views, done: set<u64>, widened: set<u64>)
    requires Verdict(r, sources, views) != Invalid && done <= FreshBuffers(r, sources)
    ensures Verdict(r, Progressed(sources, done, widened), views)
         == if WaitingBuffers(r, sources, views) <= done + widened then Ready else Busy
  {
    hide SceneValid, Waits, FreshBuffers, Progressed, Reuses;
    ProgressKeepsValid(r, sources, views, done, widened);
    forall i | 0 <= i < |r.layers|
      ensures Waits(r.layers[i].layer, Progressed(sources, done, widened), views)
         <==> Waits(r.layers[i].layer, sources, views) && r.layers[i].layer.buffer !in done + widened
    {
      ProgressKeepsWaits(r.layers[i].layer, sources, views, done, widened);
    }
  }

  lemma WaitingIsFresh(r: Request, sources: Sources, views: Views)
    ensures WaitingBuffers(r, sources, views) <= FreshBuffers(r, sources)
    ensures Verdict(r, sources, views) == Busy ==> WaitingBuffers(r, sources, views) != {}
  {
    hide SceneValid;
    if Verdict(r, sources, views) == Busy {
      var i :| 0 <= i < |r.layers| && Waits(r.layers[i].layer, sources, views);
      assert r.layers[i].layer.buffer in WaitingBuffers(r, sources, views);
    }
  }

  // ------------------------------------------------------------------------------------
  // Tickets over a whole stream of scenes

  /** Held reads name tickets already seen, and no two allocations hold the same one. */
  ghost predicate HeldOnce(sources: Sources, last: u64) {
    && (forall b :: b in sources && sources[b].ticket.Some? ==> sources[b].ticket.value <= last)
    && (forall b, c :: b in sources && c in sources && sources[b].ticket.Some? && sources[b].ticket == sources[c].ticket ==> b == c)
  }

  /** Every source ticket of an accepted scene is distinct, whether new or kept. */
  lemma TicketsAreDistinct(r: Request, sources: Sources, views: Views, i: nat, j: nat)
    requires SceneValid(r, sources, views) && HeldOnce(sources, r.lastTicket)
    requires i < j < |r.layers| && r.layers[i].layer.buffer != 0 && r.layers[j].layer.buffer != 0
    ensures r.layers[i].layer.ticket != r.layers[j].layer.ticket
  {
    hide Layer.Validate;
    assert LayerValid(r, r.layers[i], sources, views) && LayerValid(r, r.layers[j], sources, views);
    assert !Clash(r.layers[i].layer, r.layers[j].layer, sources);
    hide SceneValid;
  }

  /** If a kept read ends before the scene is shown, its ticket is stale and the scene invalid. */
  lemma KeptReadMustLast(r: Request, sources: Sources, views: Views, i: nat)
    requires HeldOnce(sources, r.lastTicket) && i < |r.layers| && Reuses(r.layers[i].layer, sources)
    ensures Verdict(r, Progressed(sources, {r.layers[i].layer.buffer}, {}), views) == Invalid
  {
    var after := Progressed(sources, {r.layers[i].layer.buffer}, {});
    assert !LayerValid(r, r.layers[i], after, views);
    hide LayerValid, Clash;
  }

  function Attached(sources: Sources, l: Layer): Sources {
    if Fresh(l, sources) then sources[l.buffer := sources[l.buffer].(ticket := Some(l.ticket))] else sources
  }

  /** The presenter walks an accepted scene and gives each new read its allocation. */
  function Committed(sources: Sources, layers: seq<Staged>): Sources
    decreases |layers|
  {
    if layers == [] then sources else Attached(Committed(sources, layers[..|layers| - 1]), layers[|layers| - 1].layer)
  }

  function LastTicket(last: u64, sources: Sources, layers: seq<Staged>): u64
    decreases |layers|
  {
    if layers == [] then last
    else
      var before := LastTicket(last, sources, layers[..|layers| - 1]);
      var l := layers[|layers| - 1].layer;
      if Fresh(l, sources) && l.ticket > before then l.ticket else before
  }

  /** After the walk each allocation of the scene holds exactly the ticket its layer asked
      for, and every other allocation holds what it held. */
  lemma {:induction false} CommitHolds(r: Request, sources: Sources, views: Views, n: nat, b: u64)
    requires SceneValid(r, sources, views) && n <= |r.layers|
    ensures var after := Committed(sources, r.layers[..n]);
      && after.Keys == sources.Keys
      && (b in sources ==>
            && after[b] == sources[b].(ticket := after[b].ticket)
            && ((forall i :: 0 <= i < n ==> r.layers[i].layer.buffer != b) ==> after[b] == sources[b])
            && (b != 0 ==> forall i :: 0 <= i < n && r.layers[i].layer.buffer == b ==> after[b].ticket == Some(r.layers[i].layer.ticket)))
    decreases n
  {
    if n > 0 {
      var prefix := r.layers[..n];
      assert prefix[..n - 1] == r.layers[..n - 1];
      CommitHolds(r, sources, views, n - 1, b);
      var l := r.layers[n - 1].layer;
      if l.buffer == b && b != 0 {
        hide LayerValid;
        forall i | 0 <= i < n - 1 ensures r.layers[i].layer.buffer != b {
          assert !Clash(r.layers[i].layer, l, sources);
        }
      }
      hide SceneValid;
    }
  }

  lemma {:induction false} LastTicketBounds(last: u64, sources: Sources, layers: seq<Staged>, i: nat)
    ensures last <= LastTicket(last, sources, layers)
    ensures i < |layers| && Fresh(layers[i].layer, sources) ==> layers[i].layer.ticket <= LastTicket(last, sources, layers)
    decreases |layers|
  {
    if layers != [] {
      var rest := layers[..|layers| - 1];
      if i < |rest| { assert rest[i] == layers[i]; }
      LastTicketBounds(last, sources, rest, i);
    }
  }

  datatype StreamStep =
    | Show(request: Request, views: Views)
    | Complete(buffer: u64, ticket: u64)
    | Register(allocation: SceneBuffer)
    | Unregister(id: u64)
    | Import(id: u64)
    | Lanes(id: u64, spare: bool)

  /** `used` is every ticket any accepted scene started a read with. */
  datatype Stream = Stream(sources: Sources, last: u64, used: set<u64>)

  ghost function NewTickets(r: Request, sources: Sources): set<u64> { Tickets(r.layers, |r.layers|, sources) }

  ghost function Step(s: Stream, step: StreamStep): Stream {
    match step
    case Show(r, views) =>
      if r.lastTicket == s.last && Verdict(r, s.sources, views) == Ready
      then Stream(Committed(s.sources, r.layers), LastTicket(s.last, s.sources, r.layers), s.used + NewTickets(r, s.sources))
      else s
    case Complete(b, ticket) =>
      if b in s.sources && s.sources[b].ticket == Some(ticket)
      then s.(sources := s.sources[b := s.sources[b].(ticket := None)]) else s
    case Register(b) =>
      if b.id in s.sources then s else s.(sources := s.sources[b.id := SourceState(b, false, None, true)])
    case Unregister(id) => s.(sources := s.sources - {id})
    case Import(id) => if id in s.sources then s.(sources := s.sources[id := s.sources[id].(imported := true)]) else s
    case Lanes(id, spare) => if id in s.sources then s.(sources := s.sources[id := s.sources[id].(spareTimeline := spare)]) else s
  }

  ghost predicate StreamValid(s: Stream) {
    && HeldOnce(s.sources, s.last)
    && (forall t :: t in s.used ==> t <= s.last)
  }

  lemma ShownTicket(r: Request, sources: Sources, views: Views, b: u64) returns (i: nat)
    requires SceneValid(r, sources, views) && b in sources
    ensures b in Committed(sources, r.layers) && i <= |r.layers|
    ensures i < |r.layers| ==> b != 0 && r.layers[i].layer.buffer == b && Committed(sources, r.layers)[b].ticket == Some(r.layers[i].layer.ticket)
    ensures i == |r.layers| ==> Committed(sources, r.layers)[b] == sources[b] && forall j :: 0 <= j < |r.layers| ==> r.layers[j].layer.buffer != b
  {
    CommitHolds(r, sources, views, |r.layers|, b);
    assert r.layers[..|r.layers|] == r.layers;
    if k :| 0 <= k < |r.layers| && r.layers[k].layer.buffer == b {
      i := k;
      assert LayerValid(r, r.layers[k], sources, views);
    } else {
      i := |r.layers|;
    }
  }

  /** What a ticket of an accepted scene is to the stream: new, or kept by its own allocation. */
  lemma SceneTicket(r: Request, sources: Sources, views: Views, i: nat)
    requires SceneValid(r, sources, views) && i < |r.layers| && r.layers[i].layer.buffer != 0
    ensures var l := r.layers[i].layer;
      l.buffer in sources && (if Fresh(l, sources) then l.ticket > r.lastTicket else sources[l.buffer].ticket == Some(l.ticket))
  {
    hide Layer.Validate;
    assert LayerValid(r, r.layers[i], sources, views);
    hide SceneValid;
  }

  lemma ShownIsHeldOnce(r: Request, sources: Sources, views: Views)
    requires SceneValid(r, sources, views) && HeldOnce(sources, r.lastTicket)
    ensures HeldOnce(Committed(sources, r.layers), LastTicket(r.lastTicket, sources, r.layers))
  {
    hide SceneValid, Fresh;
    var after, last := Committed(sources, r.layers), LastTicket(r.lastTicket, sources, r.layers);
    CommitHolds(r, sources, views, |r.layers|, 0);
    assert r.layers[..|r.layers|] == r.layers;
    forall b | b in after && after[b].ticket.Some? ensures after[b].ticket.value <= last {
      var i := ShownTicket(r, sources, views, b);
      LastTicketBounds(r.lastTicket, sources, r.layers, i);
      if i < |r.layers| { SceneTicket(r, sources, views, i); }
    }
    forall b, c | b in after && c in after && after[b].ticket.Some? && after[b].ticket == after[c].ticket ensures b == c {
      HeldByOne(r, sources, views, b, c);
    }
  }

  lemma HeldByOne(r: Request, sources: Sources, views: Views, b: u64, c: u64)
    requires SceneValid(r, sources, views) && HeldOnce(sources, r.lastTicket) && b in sources && c in sources
    requires var after := Committed(sources, r.layers); b in after && c in after && after[b].ticket.Some? && after[b].ticket == after[c].ticket
    ensures b == c
  {
    hide SceneValid, Committed;
    var i := ShownTicket(r, sources, views, b);
    var j := ShownTicket(r, sources, views, c);
    if i < |r.layers| { SceneTicket(r, sources, views, i); }
    if j < |r.layers| { SceneTicket(r, sources, views, j); }
    if i < j < |r.layers| { TicketsAreDistinct(r, sources, views, i, j); }
    if j < i < |r.layers| { TicketsAreDistinct(r, sources, views, j, i); }
  }

  lemma StepKeepsStream(s: Stream, step: StreamStep)
    requires StreamValid(s)
    ensures StreamValid(Step(s, step))
  {
    if step.Show? {
      var r := step.request;
      hide SceneValid, Committed, LastTicket, Fresh;
      if r.lastTicket == s.last && Verdict(r, s.sources, step.views) == Ready {
        ShownIsHeldOnce(r, s.sources, step.views);
        LastTicketBounds(s.last, s.sources, r.layers, 0);
        forall t | t in NewTickets(r, s.sources) ensures t <= LastTicket(s.last, s.sources, r.layers) {
          var i :| 0 <= i < |r.layers| && Fresh(r.layers[i].layer, s.sources) && r.layers[i].layer.ticket == t;
          LastTicketBounds(s.last, s.sources, r.layers, i);
        }
      }
    }
  }

  ghost function StreamAfter(steps: seq<StreamStep>): Stream
    decreases |steps|
  {
    if steps == [] then Stream(map[], 0, {}) else Step(StreamAfter(steps[..|steps| - 1]), steps[|steps| - 1])
  }

  /** Over every history of a stream no read identity is ever used twice: an accepted scene
      starts reads only under tickets above every earlier one, all its source tickets are
      pairwise distinct, and each held read belongs to one allocation. */
  lemma {:induction false} TicketsNeverRepeat(steps: seq<StreamStep>, r: Request, views: Views)
    ensures StreamValid(StreamAfter(steps))
    ensures var s := StreamAfter(steps);
      r.lastTicket == s.last && Verdict(r, s.sources, views) == Ready ==>
        && NewTickets(r, s.sources) !! s.used
        && forall i, j :: 0 <= i < j < |r.layers| && r.layers[i].layer.buffer != 0 && r.layers[j].layer.buffer != 0 ==>
             r.layers[i].layer.ticket != r.layers[j].layer.ticket
    decreases |steps|
  {
    hide SceneValid, Step;
    var s := StreamAfter(steps);
    if steps != [] {
      TicketsNeverRepeat(steps[..|steps| - 1], r, views);
      StepKeepsStream(StreamAfter(steps[..|steps| - 1]), steps[|steps| - 1]);
    }
    if r.lastTicket == s.last && Verdict(r, s.sources, views) == Ready {
      forall i | 0 <= i < |r.layers| && Fresh(r.layers[i].layer, s.sources) ensures r.layers[i].layer.ticket !in s.used {
        SceneTicket(r, s.sources, views, i);
      }
      forall i, j | 0 <= i < j < |r.layers| && r.layers[i].layer.buffer != 0 && r.layers[j].layer.buffer != 0
        ensures r.layers[i].layer.ticket != r.layers[j].layer.ticket
      {
        TicketsAreDistinct(r, s.sources, views, i, j);
      }
    }
  }
}
