/** Wrapping 32-bit configure serials: the comparison of section 3.2 of RFC 1982. */
module Serial {
  import opened Base

  const HALF: int := 0x8000_0000

  function WrappingSub(a: u32, b: u32): (r: u32)
  {
    (a - b) % U32_LIMIT
  }

  /** True when `actual` names a configure that `expected` superseded. */
  predicate SerialPrecedes(actual: u32, expected: u32) {
    actual != expected && WrappingSub(expected, actual) < HALF
  }

  /** The serial a host puts on the wire for its `generation`-th configure. */
  function Wire(generation: nat): (serial: u32) {
    generation % U32_LIMIT
  }

  /** RFC 1982 defines the order by cases on plain integers and leaves a distance of
      exactly 2^31 undefined; the subtraction agrees on the defined part and answers
      "no" both ways on the rest. */
  lemma PrecedesIsRfc1982(a: u32, b: u32)
    ensures SerialPrecedes(a, b) <==> (a < b && b - a < HALF) || (a > b && a - b > HALF)
    ensures !SerialPrecedes(a, b) && !SerialPrecedes(b, a) <==> a == b || a - b == HALF || b - a == HALF
  {
    if a <= b {
      assert (b - a) % U32_LIMIT == b - a;
      assert a < b ==> (a - b) % U32_LIMIT == a - b + U32_LIMIT;
    } else {
      assert (b - a) % U32_LIMIT == b - a + U32_LIMIT;
      assert (a - b) % U32_LIMIT == a - b;
    }
  }

  lemma PrecedesIsAsymmetric(a: u32, b: u32)
    requires SerialPrecedes(a, b)
    ensures !SerialPrecedes(b, a)
  {
    PrecedesIsRfc1982(a, b);
    PrecedesIsRfc1982(b, a);
  }

  lemma WireDistance(g: nat, h: nat)
    ensures WrappingSub(Wire(h), Wire(g)) == (h - g) % U32_LIMIT
  {
    var qg, qh := g / U32_LIMIT, h / U32_LIMIT;
    var d := Wire(h) - Wire(g);
    assert h - g == (qh - qg) * U32_LIMIT + d;
    if d >= 0 {
      assert (h - g) % U32_LIMIT == d % U32_LIMIT by { ModShift(d, qh - qg); }
    } else {
      ModShift(d, qh - qg);
    }
  }

  lemma ModShift(d: int, q: int)
    ensures (q * U32_LIMIT + d) % U32_LIMIT == d % U32_LIMIT
  {
  }

  /** On the wire a later generation is recognised as later exactly when the unbounded
      distance between the two, reduced modulo 2^32, lies strictly between 0 and 2^31. */
  lemma WireOrder(g: nat, h: nat)
    ensures SerialPrecedes(Wire(g), Wire(h)) <==> 0 < (h - g) % U32_LIMIT < HALF
  {
    WireDistance(g, h);
  }

  /** While fewer than 2^31 generations are outstanding the wrapped comparison is the
      order of the unbounded counter, across any number of wraps. */
  lemma WindowOrder(g: nat, h: nat)
    requires -HALF < h - g < HALF
    ensures SerialPrecedes(Wire(g), Wire(h)) <==> g < h
  {
    WireOrder(g, h);
    if h < g {
      assert (h - g) % U32_LIMIT == h - g + U32_LIMIT;
    }
  }

  /** The window is tight: one generation more and a superseded serial no longer
      precedes the current one. */
  lemma WindowIsTight(g: nat)
    ensures !SerialPrecedes(Wire(g), Wire(g + HALF))
    ensures SerialPrecedes(Wire(g), Wire(g + HALF - 1))
  {
    WireOrder(g, g + HALF);
    WireOrder(g, g + HALF - 1);
  }
}
