/** The byte writer and reader the codecs run on, with their buffer and cursor updated in place. */
module Cursors {
  import opened Base
  import opened Dmabuf
  import opened Wire
  import opened Packet
  import A = AndroidCodec

  class Writer {
    var bytes: Bytes

    constructor ()
      ensures bytes == []
    {
      bytes := [];
    }

    method Append(f: Field)
      modifies this
      ensures bytes == old(bytes) + Le(f.width, f.value)
    {
      bytes := bytes + Le(f.width, f.value);
    }

    /** Fields written one after another are the payload of those fields. */
    method AppendAll(fs: seq<Field>)
      modifies this
      ensures bytes == old(bytes) + Put(fs)
    {
      var i := 0;
      while i < |fs|
        invariant 0 <= i <= |fs| && bytes == old(bytes) + Put(fs[..i])
      {
        assert fs[..i + 1] == fs[..i] + [fs[i]];
        PutConcat(fs[..i], [fs[i]]);
        assert Put([fs[i]]) == Le(fs[i].width, fs[i].value);
        Append(fs[i]);
        i := i + 1;
      }
      assert fs[..i] == fs;
    }
  }

  /** What is left to read once `done` was read and the rest gives `later`. */
  function After(done: seq<Field>, later: Option<(seq<Field>, Bytes)>): Option<(seq<Field>, Bytes)> {
    if later.None? then None else Some((done + later.value.0, later.value.1))
  }

  lemma AfterNothing(x: Option<(seq<Field>, Bytes)>)
    ensures After([], x) == x
  {
    if x.Some? { assert [] + x.value.0 == x.value.0; }
  }

  lemma AfterAfter(a: seq<Field>, b: seq<Field>, x: Option<(seq<Field>, Bytes)>)
    ensures After(a, After(b, x)) == After(a + b, x)
  {
    if x.Some? { assert a + (b + x.value.0) == a + b + x.value.0; }
  }

  lemma ReadFirst(ws: seq<nat>, bs: Bytes)
    requires ws != [] && |bs| >= ws[0]
    ensures Read(ws, bs) == After([Field(ws[0], Un(bs[..ws[0]]))], Read(ws[1..], bs[ws[0]..]))
  {
  }

  class Reader {
    var remaining: Bytes

    constructor (bytes: Bytes)
      ensures remaining == bytes
    {
      remaining := bytes;
    }

    /** The next `width` bytes as one little-endian field, or nothing consumed. */
    method Take(width: nat) returns (f: Option<Field>)
      modifies this
      ensures |old(remaining)| < width ==> f.None? && remaining == old(remaining)
      ensures |old(remaining)| >= width ==>
        f == Some(Field(width, Un(old(remaining)[..width]))) && remaining == old(remaining)[width..]
    {
      if |remaining| < width {
        return None;
      }
      f := Some(Field(width, Un(remaining[..width])));
      remaining := remaining[width..];
    }

    method TakeAll(ws: seq<nat>) returns (r: Option<seq<Field>>)
      modifies this
      ensures match Read(ws, old(remaining))
              case None => r.None?
              case Some((fs, rest)) => r == Some(fs) && remaining == rest
    {
      var fs := [];
      var i := 0;
      assert ws[0..] == ws;
      AfterNothing(Read(ws, remaining));
      while i < |ws|
        invariant 0 <= i <= |ws|
        invariant Read(ws, old(remaining)) == After(fs, Read(ws[i..], remaining))
      {
        ghost var before := remaining;
        var f := Take(ws[i]);
        if f.None? {
          return None;
        }
        ReadFirst(ws[i..], before);
        assert ws[i..][1..] == ws[i + 1..];
        AfterAfter(fs, [f.value], Read(ws[i + 1..], remaining));
        fs := fs + [f.value];
        i := i + 1;
      }
      assert fs + [] == fs;
      return Some(fs);
    }

    /** The damage list of a frame: `count` rectangles, each checked as it is read. */
    method TakeDamage(count: nat) returns (r: Option<seq<Rect>>)
      modifies this
      ensures match Read(Repeat(A.RECT, count), old(remaining))
              case None => r.None?
              case Some((fs, rest)) =>
                var rects := Group(A.ReadRect, 4, fs);
                && |rects| == count
                && (if forall k :: 0 <= k < count ==> A.ValidDamage(rects[k]) then r == Some(rects) && remaining == rest else r.None?)
    {
      var rects: seq<Rect> := [];
      ghost var read: seq<Field> := [];
      var i := 0;
      hide Read, Repeat, Group;
      AfterNothing(Read(Repeat(A.RECT, count), remaining));
      GroupLength([], 0);
      while i < count
        invariant 0 <= i <= count && |rects| == i
        invariant Read(Repeat(A.RECT, count), old(remaining)) == After(read, Read(Repeat(A.RECT, count - i), remaining))
        invariant |read| == 4 * i && Group(A.ReadRect, 4, read) == rects
        invariant forall k :: 0 <= k < i ==> A.ValidDamage(rects[k])
      {
        ReadRecord(count - i, remaining);
        ghost var before := remaining;
        var fs := TakeAll(A.RECT);
        if fs.None? {
          return None;
        }
        ReadIsPut(A.RECT, before);
        var rect := A.ReadRect(fs.value);
        GroupAppend(read, fs.value);
        AfterAfter(read, fs.value, Read(Repeat(A.RECT, count - i - 1), remaining));
        if !A.ValidDamage(rect) {
          Doomed(count, old(remaining), read + fs.value, count - i - 1, remaining, i);
          return None;
        }
        rects := rects + [rect];
        read := read + fs.value;
        i := i + 1;
      }
      ReadNothing(remaining);
      assert read + [] == read;
      return Some(rects);
    }

    method Finish() returns (ok: bool)
      ensures ok <==> remaining == []
    {
      ok := remaining == [];
    }
  }

  lemma {:induction false} ReadConcat(a: seq<nat>, b: seq<nat>, bs: Bytes)
    ensures Read(a + b, bs) == (var first := Read(a, bs); if first.None? then None else After(first.value.0, Read(b, first.value.1)))
  {
    if a == [] {
      assert a + b == b;
      AfterNothing(Read(b, bs));
    } else if |bs| >= a[0] {
      ReadConcat(a[1..], b, bs[a[0]..]);
      assert (a + b)[1..] == a[1..] + b;
      ReadFirst(a + b, bs);
      ReadFirst(a, bs);
      var first, rest := [Field(a[0], Un(bs[..a[0]]))], Read(a[1..], bs[a[0]..]);
      if rest.Some? { AfterAfter(first, rest.value.0, Read(b, rest.value.1)); }
      hide Un, Read;
    }
  }

  /** One record of the list, then the rest of the list. */
  lemma ReadRecord(n: nat, bs: Bytes)
    requires n > 0
    ensures var first := Read(A.RECT, bs);
      Read(Repeat(A.RECT, n), bs) == if first.None? then None else After(first.value.0, Read(Repeat(A.RECT, n - 1), first.value.1))
  {
    ReadConcat(A.RECT, Repeat(A.RECT, n - 1), bs);
  }

  lemma ReadNothing(bs: Bytes)
    ensures Read(Repeat(A.RECT, 0), bs) == Some(([], bs))
  {
  }

  lemma {:induction false} GroupAppend(fs: seq<Field>, more: seq<Field>)
    requires |fs| % 4 == 0 && |more| == 4
    ensures Group(A.ReadRect, 4, fs + more) == Group(A.ReadRect, 4, fs) + [A.ReadRect(more)]
    decreases |fs|
  {
    if fs == [] {
      assert fs + more == more;
      assert more[..4] == more && more[4..] == [];
    } else {
      GroupAppend(fs[4..], more);
      assert (fs + more)[..4] == fs[..4] && (fs + more)[4..] == fs[4..] + more;
    }
  }

  lemma {:induction false} GroupLength(fs: seq<Field>, n: nat)
    requires |fs| == 4 * n
    ensures |Group(A.ReadRect, 4, fs)| == n
  {
    if n > 0 { GroupLength(fs[4..], n - 1); }
  }

  lemma {:induction false} GroupPrefix(fs: seq<Field>, more: seq<Field>, n: nat, k: nat)
    requires |fs| == 4 * n && k < n && |more| % 4 == 0
    ensures |Group(A.ReadRect, 4, fs)| == n && k < |Group(A.ReadRect, 4, fs + more)|
    ensures Group(A.ReadRect, 4, fs + more)[k] == Group(A.ReadRect, 4, fs)[k]
    decreases n
  {
    GroupLength(fs, n);
    GroupLength(fs + more, n + |more| / 4);
    assert (fs + more)[..4] == fs[..4] && (fs + more)[4..] == fs[4..] + more;
    if k > 0 { GroupPrefix(fs[4..], more, n - 1, k - 1); }
  }

  /** A bad rectangle already read spoils the whole list, whatever follows. */
  lemma Doomed(count: nat, all: Bytes, read: seq<Field>, left: nat, rest: Bytes, i: nat)
    requires Read(Repeat(A.RECT, count), all) == After(read, Read(Repeat(A.RECT, left), rest))
    requires count == i + 1 + left && |read| == 4 * (i + 1)
    requires |Group(A.ReadRect, 4, read)| == i + 1 && !A.ValidDamage(Group(A.ReadRect, 4, read)[i])
    ensures match Read(Repeat(A.RECT, count), all)
            case None => true
            case Some((fs, _)) => |Group(A.ReadRect, 4, fs)| == count && !A.ValidDamage(Group(A.ReadRect, 4, fs)[i])
  {
    var later := Read(Repeat(A.RECT, left), rest);
    if later.Some? {
      ReadIsPut(Repeat(A.RECT, left), rest);
      SumRepeat(A.RECT, left);
      hide Read, Repeat;
      GroupPrefix(read, later.value.0, i + 1, i);
      GroupLength(read + later.value.0, count);
    }
  }
}
