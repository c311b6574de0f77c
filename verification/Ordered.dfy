/** The ascending order in which the source's ordered maps are walked. */
module Ordered {
  import opened Base

  lemma LeastExists(s: set<u64>) returns (b: u64)
    requires s != {}
    ensures b in s && forall x :: x in s ==> b <= x
    decreases s
  {
    b :| b in s;
    var rest := s - {b};
    if rest != {} {
      var c := LeastExists(rest);
      assert forall x :: x in s ==> x == b || x in rest;
      if c < b { b := c; }
    } else {
      assert s == {b};
    }
  }

  function Least(s: set<u64>): (b: u64)
    requires s != {}
    ensures b in s && forall x :: x in s ==> b <= x
  {
    assert exists c :: c in s && forall x :: x in s ==> c <= x by { var c := LeastExists(s); }
    var b :| b in s && forall x :: x in s ==> b <= x;
    b
  }

  function Ascending(s: set<u64>): (r: seq<u64>)
    ensures forall x :: x in r <==> x in s
    decreases |s|
  {
    if s == {} then [] else [Least(s)] + Ascending(s - {Least(s)})
  }

  predicate Strict(r: seq<u64>) { forall i, j :: 0 <= i < j < |r| ==> r[i] < r[j] }

  lemma StrictAppend(r: seq<u64>, x: u64)
    requires Strict(r) && forall y :: y in r ==> y < x
    ensures Strict(r + [x])
  {
    forall i, j | 0 <= i < j < |r| + 1 ensures (r + [x])[i] < (r + [x])[j] { assert r[i] in r; }
  }

  lemma {:induction false} AscendingIsStrict(s: set<u64>)
    ensures Strict(Ascending(s))
    decreases |s|
  {
    if s != {} {
      var rest := s - {Least(s)};
      AscendingIsStrict(rest);
      var tail := Ascending(rest);
      forall i | 0 <= i < |tail| ensures Least(s) < tail[i] { assert tail[i] in rest; }
    }
  }

  /** There is only one ascending list of a set. */
  lemma {:induction false} AscendingIsUnique(r: seq<u64>, s: set<u64>)
    requires Strict(r) && forall x :: x in r <==> x in s
    ensures r == Ascending(s)
    decreases |r|
  {
    if r != [] {
      assert r[0] in r && r[0] in s;
      var b := Least(s);
      assert b in r;
      assert r[0] == b;
      forall x ensures x in r[1..] <==> x in s - {b} {
        if x in r[1..] {
          var i :| 0 <= i < |r| - 1 && r[1..][i] == x;
          assert r[i + 1] == x && r[0] < r[i + 1];
        }
        if x in s - {b} {
          var i :| 0 <= i < |r| && r[i] == x;
          assert r[1..][i - 1] == x;
        }
      }
      AscendingIsUnique(r[1..], s - {b});
      assert r == [r[0]] + r[1..];
    } else {
      assert s == {};
    }
  }
}
