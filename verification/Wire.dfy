/** Little-endian fields and the byte strings they make. Both codecs are built from these. */
module Wire {
  import opened Base

  type Bytes = seq<u8>

  /** One unsigned field: its width in bytes and its value. */
  datatype Field = Field(width: nat, value: nat) {
    predicate Fits() { value < Pow256(width) }
  }

  function U8(v: nat): Field { Field(1, v) }
  function U16(v: nat): Field { Field(2, v) }
  function U32(v: nat): Field { Field(4, v) }
  function U64(v: nat): Field { Field(8, v) }

  function Pow256(n: nat): (p: nat)
    ensures p > 0
  {
    if n == 0 then 1 else 256 * Pow256(n - 1)
  }

  lemma Widths()
    ensures Pow256(1) == 0x100 && Pow256(2) == U16_LIMIT && Pow256(4) == U32_LIMIT && Pow256(8) == U64_LIMIT
  {
    assert Pow256(3) == 0x100_0000 && Pow256(5) == 0x100_0000_0000 && Pow256(6) == 0x1_0000_0000_0000 && Pow256(7) == 0x100_0000_0000_0000;
  }

  function Le(width: nat, value: nat): (bs: Bytes)
    ensures |bs| == width
  {
    if width == 0 then [] else [value % 256] + Le(width - 1, value / 256)
  }

  function Un(bs: Bytes): nat {
    if bs == [] then 0 else bs[0] + 256 * Un(bs[1..])
  }

  lemma {:induction false} UnOfLe(width: nat, value: nat)
    requires value < Pow256(width)
    ensures Un(Le(width, value)) == value
  {
    if width > 0 {
      UnOfLe(width - 1, value / 256);
      assert Le(width, value)[1..] == Le(width - 1, value / 256);
    }
  }

  lemma {:induction false} LeOfUn(bs: Bytes)
    ensures Un(bs) < Pow256(|bs|) && Le(|bs|, Un(bs)) == bs
  {
    if bs != [] {
      LeOfUn(bs[1..]);
      assert Un(bs) % 256 == bs[0] && Un(bs) / 256 == Un(bs[1..]);
      assert bs == [bs[0]] + bs[1..];
    }
  }

  function Put(fs: seq<Field>): Bytes {
    if fs == [] then [] else Le(fs[0].width, fs[0].value) + Put(fs[1..])
  }

  function WidthsOf(fs: seq<Field>): (ws: seq<nat>)
    ensures |ws| == |fs|
  {
    seq(|fs|, i requires 0 <= i < |fs| => fs[i].width)
  }

  ghost predicate AllFit(fs: seq<Field>) { forall i :: 0 <= i < |fs| ==> fs[i].Fits() }

  function Sum(ws: seq<nat>): nat {
    if ws == [] then 0 else ws[0] + Sum(ws[1..])
  }

  /** Read one field of each width from the front; `None` when the bytes run out. */
  function Read(ws: seq<nat>, bs: Bytes): Option<(seq<Field>, Bytes)> {
    if ws == [] then Some(([], bs))
    else if |bs| < ws[0] then None
    else
      var rest := Read(ws[1..], bs[ws[0]..]);
      if rest.None? then None
      else Some(([Field(ws[0], Un(bs[..ws[0]]))] + rest.value.0, rest.value.1))
  }

  /** Reading succeeds on exactly the byte strings that writing produces. */
  lemma {:induction false} ReadIsPut(ws: seq<nat>, bs: Bytes)
    ensures var r := Read(ws, bs);
      r.Some? ==> WidthsOf(r.value.0) == ws && AllFit(r.value.0) && bs == Put(r.value.0) + r.value.1
  {
    if ws != [] && |bs| >= ws[0] {
      var w := ws[0];
      ReadIsPut(ws[1..], bs[w..]);
      LeOfUn(bs[..w]);
      hide Un, Le;
      var rest := Read(ws[1..], bs[w..]);
      if rest.Some? {
        var fs := [Field(w, Un(bs[..w]))] + rest.value.0;
        assert fs[1..] == rest.value.0;
        assert Put(fs) == bs[..w] + Put(rest.value.0);
        hide Put;
        assert WidthsOf(fs) == ws;
        assert bs == bs[..w] + bs[w..];
      }
    }
  }

  lemma {:induction false} PutIsRead(fs: seq<Field>, rest: Bytes)
    requires AllFit(fs)
    ensures Read(WidthsOf(fs), Put(fs) + rest) == Some((fs, rest))
  {
    if fs == [] {
      assert Put(fs) + rest == rest;
      assert WidthsOf(fs) == [];
    } else {
      PutIsRead(fs[1..], rest);
      PutFirst(fs, rest);
      var w := fs[0].width;
      hide Put, Un, Le;
      assert WidthsOf(fs)[1..] == WidthsOf(fs[1..]);
      assert fs == [Field(w, fs[0].value)] + fs[1..];
    }
  }

  lemma PutFirst(fs: seq<Field>, rest: Bytes)
    requires fs != [] && fs[0].Fits()
    ensures var bs, w := Put(fs) + rest, fs[0].width;
      |bs| >= w && Un(bs[..w]) == fs[0].value && bs[w..] == Put(fs[1..]) + rest
  {
    var bs, w := Put(fs) + rest, fs[0].width;
    UnOfLe(w, fs[0].value);
    assert Put(fs) == Le(w, fs[0].value) + Put(fs[1..]);
    hide Un, Le, Put;
    assert bs[..w] == Le(w, fs[0].value);
    assert bs[w..] == Put(fs[1..]) + rest;
  }

  lemma {:induction false} PutLength(fs: seq<Field>)
    ensures |Put(fs)| == Sum(WidthsOf(fs))
  {
    if fs != [] {
      PutLength(fs[1..]);
      assert WidthsOf(fs)[1..] == WidthsOf(fs[1..]);
    }
  }

  lemma {:induction false} SumBound(ws: seq<nat>)
    requires forall i :: 0 <= i < |ws| ==> ws[i] <= 8
    ensures Sum(ws) <= 8 * |ws|
  {
    if ws != [] { SumBound(ws[1..]); }
  }

  lemma {:induction false} PutConcat(a: seq<Field>, b: seq<Field>)
    ensures Put(a + b) == Put(a) + Put(b)
  {
    if a == [] {
      assert a + b == b;
    } else {
      PutConcat(a[1..], b);
      assert (a + b)[1..] == a[1..] + b;
    }
  }

  lemma {:induction false} SumConcat(a: seq<nat>, b: seq<nat>)
    ensures Sum(a + b) == Sum(a) + Sum(b)
  {
    if a == [] {
      assert a + b == b;
    } else {
      SumConcat(a[1..], b);
      assert (a + b)[1..] == a[1..] + b;
    }
  }

  /** `n` copies of a record layout. */
  function Repeat(ws: seq<nat>, n: nat): seq<nat> {
    if n == 0 then [] else ws + Repeat(ws, n - 1)
  }

  lemma {:induction false} SumRepeat(ws: seq<nat>, n: nat)
    ensures Sum(Repeat(ws, n)) == n * Sum(ws) && |Repeat(ws, n)| == n * |ws|
  {
    if n > 0 {
      SumRepeat(ws, n - 1);
      SumConcat(ws, Repeat(ws, n - 1));
      assert Repeat(ws, n) == ws + Repeat(ws, n - 1);
      assert n * Sum(ws) == Sum(ws) + (n - 1) * Sum(ws) && n * |ws| == |ws| + (n - 1) * |ws|;
      hide Sum, Repeat;
    }
  }

  // ------------------------------------------------------------------------------------
  // Payloads: a head of fixed layout, then a tail whose layout the head decides

  /** The layout of one message: `tail` is `None` when the head announces no known tail. */
  datatype Layout = Layout(head: seq<nat>, tail: seq<Field> -> Option<seq<nat>>)

  ghost predicate Shaped(layout: Layout, fs: seq<Field>) {
    var h := |layout.head|;
    && h <= |fs| && AllFit(fs)
    && WidthsOf(fs[..h]) == layout.head
    && layout.tail(fs[..h]) == Some(WidthsOf(fs[h..]))
  }

  /** Read a whole payload; bytes left over are an error. */
  function Parse(layout: Layout, bs: Bytes): Option<seq<Field>> {
    var head := Read(layout.head, bs);
    if head.None? then None
    else
      var ws := layout.tail(head.value.0);
      if ws.None? then None
      else
        var tail := Read(ws.value, head.value.1);
        if tail.None? || tail.value.1 != [] then None else Some(head.value.0 + tail.value.0)
  }

  /** A payload parses to `fs` exactly when `fs` has the layout and writes those bytes. */
  lemma ParseIsPut(layout: Layout, bs: Bytes, fs: seq<Field>)
    ensures Parse(layout, bs) == Some(fs) <==> Shaped(layout, fs) && bs == Put(fs)
  {
    if Parse(layout, bs) == Some(fs) {
      ParsedIsShaped(layout, bs);
    }
    if Shaped(layout, fs) && bs == Put(fs) {
      ShapedIsParsed(layout, fs);
    }
  }

  lemma ParsedIsShaped(layout: Layout, bs: Bytes)
    requires Parse(layout, bs).Some?
    ensures Shaped(layout, Parse(layout, bs).value) && bs == Put(Parse(layout, bs).value)
  {
    hide Read, Put, WidthsOf;
    var head := Read(layout.head, bs).value;
    ReadIsPut(layout.head, bs);
    var ws := layout.tail(head.0).value;
    var tail := Read(ws, head.1).value;
    ReadIsPut(ws, head.1);
    var fs := head.0 + tail.0;
    assert |head.0| == |layout.head|;
    assert fs[..|layout.head|] == head.0 && fs[|layout.head|..] == tail.0;
    PutConcat(head.0, tail.0);
    assert Put(tail.0) + [] == Put(tail.0);
  }

  lemma ShapedIsParsed(layout: Layout, fs: seq<Field>)
    requires Shaped(layout, fs)
    ensures Parse(layout, Put(fs)) == Some(fs)
  {
    hide Read, Put, WidthsOf;
    var h := |layout.head|;
    var a, b := fs[..h], fs[h..];
    assert fs == a + b;
    PutConcat(a, b);
    PutIsRead(a, Put(b));
    PutIsRead(b, []);
    assert Put(b) + [] == Put(b);
  }

  // ------------------------------------------------------------------------------------
  // Counted lists of fixed-size records

  function Flat<T>(write: T -> seq<Field>, xs: seq<T>): seq<Field> {
    if xs == [] then [] else write(xs[0]) + Flat(write, xs[1..])
  }

  function Group<T>(read: seq<Field> -> T, k: nat, fs: seq<Field>): seq<T>
    requires k > 0
    decreases |fs|
  {
    if |fs| < k then [] else [read(fs[..k])] + Group(read, k, fs[k..])
  }

  /** `write` and `read` are inverse on records of layout `ws`. */
  ghost predicate Coded<T(!new)>(write: T -> seq<Field>, read: seq<Field> -> T, ws: seq<nat>) {
    && (forall x :: WidthsOf(write(x)) == ws && AllFit(write(x)) && read(write(x)) == x)
    && (forall fs :: WidthsOf(fs) == ws && AllFit(fs) ==> write(read(fs)) == fs)
  }

  lemma {:induction false} GroupOfFlat<T(!new)>(write: T -> seq<Field>, read: seq<Field> -> T, ws: seq<nat>, xs: seq<T>)
    requires Coded(write, read, ws) && ws != []
    ensures WidthsOf(Flat(write, xs)) == Repeat(ws, |xs|) && AllFit(Flat(write, xs))
    ensures Group(read, |ws|, Flat(write, xs)) == xs
  {
    if xs != [] {
      var first, rest := write(xs[0]), Flat(write, xs[1..]);
      GroupOfFlat(write, read, ws, xs[1..]);
      assert |first| == |ws|;
      assert (first + rest)[..|ws|] == first && (first + rest)[|ws|..] == rest;
      assert WidthsOf(first + rest) == WidthsOf(first) + WidthsOf(rest);
    }
  }

  lemma {:induction false} FlatOfGroup<T(!new)>(write: T -> seq<Field>, read: seq<Field> -> T, ws: seq<nat>, fs: seq<Field>, n: nat)
    requires Coded(write, read, ws) && ws != [] && WidthsOf(fs) == Repeat(ws, n) && AllFit(fs)
    ensures |Group(read, |ws|, fs)| == n && Flat(write, Group(read, |ws|, fs)) == fs
    decreases n
  {
    if n == 0 {
      assert fs == [];
    } else {
      var k := |ws|;
      FirstRecord(ws, fs, n);
      FlatOfGroup(write, read, ws, fs[k..], n - 1);
      var rest := Group(read, k, fs[k..]);
      var all := Group(read, k, fs);
      assert all == [read(fs[..k])] + rest;
      assert write(read(fs[..k])) == fs[..k];
      hide Repeat, WidthsOf, AllFit, Coded, Group;
      assert all[0] == read(fs[..k]) && all[1..] == rest;
      assert fs == fs[..k] + fs[k..];
    }
  }

  /** A list of records starts with one record, and the rest is a list again. */
  lemma FirstRecord(ws: seq<nat>, fs: seq<Field>, n: nat)
    requires n > 0 && WidthsOf(fs) == Repeat(ws, n) && AllFit(fs)
    ensures |fs| >= |ws| && WidthsOf(fs[..|ws|]) == ws && AllFit(fs[..|ws|])
    ensures WidthsOf(fs[|ws|..]) == Repeat(ws, n - 1) && AllFit(fs[|ws|..])
  {
    var k := |ws|;
    assert Repeat(ws, n) == ws + Repeat(ws, n - 1);
    hide Repeat;
    assert WidthsOf(fs[..k]) == WidthsOf(fs)[..k] == ws;
    assert WidthsOf(fs[k..]) == WidthsOf(fs)[k..] == Repeat(ws, n - 1);
  }
}
