/** Text carried by the codecs, as bytes. */
module Text {
  import opened Base
  import opened Wire

  function WriteByte(b: u8): seq<Field> { [U8(b)] }

  function ReadByte(fs: seq<Field>): u8 { if |fs| == 1 && fs[0].value < 256 then fs[0].value else 0 }

  lemma BytesCoded()
    ensures Coded(WriteByte, ReadByte, [1])
  {
    Wire.Widths();
    hide Pow256;
    forall b: u8 | true ensures WidthsOf(WriteByte(b)) == [1] && AllFit(WriteByte(b)) && ReadByte(WriteByte(b)) == b {
      assert WidthsOf(WriteByte(b)) == [1];
    }
    forall fs: seq<Field> | WidthsOf(fs) == [1] && AllFit(fs) ensures WriteByte(ReadByte(fs)) == fs {
      assert fs[0].width == WidthsOf(fs)[0];
    }
  }

  predicate NameByte(b: u8) {
    0x30 <= b <= 0x39 || 0x41 <= b <= 0x5A || 0x61 <= b <= 0x7A || b == 0x5F
  }

  /** Parts separated by dots, none empty, of ASCII letters, digits and underscores. */
  predicate ValidPackage(p: Bytes) {
    && 0 < |p| <= 255
    && (forall i :: 0 <= i < |p| ==> NameByte(p[i]) || p[i] == 0x2E)
    && p[0] != 0x2E && p[|p| - 1] != 0x2E
    && forall i :: 0 <= i < |p| - 1 ==> !(p[i] == 0x2E && p[i + 1] == 0x2E)
  }

  predicate Follows(s: Bytes, i: nat) { i < |s| && 0x80 <= s[i] <= 0xBF }

  /** How many bytes the first character takes, by the syntax of section 4 of RFC 3629; 0
      when the bytes do not start with a character. */
  function CharLength(s: Bytes): (n: nat)
    ensures n <= |s|
  {
    if s == [] then 0
    else if s[0] <= 0x7F then 1
    else if 0xC2 <= s[0] <= 0xDF && Follows(s, 1) then 2
    else if 0xE0 <= s[0] <= 0xEF && Follows(s, 1) && Follows(s, 2)
      && (s[0] == 0xE0 ==> s[1] >= 0xA0) && (s[0] == 0xED ==> s[1] <= 0x9F) then 3
    else if 0xF0 <= s[0] <= 0xF4 && Follows(s, 1) && Follows(s, 2) && Follows(s, 3)
      && (s[0] == 0xF0 ==> s[1] >= 0x90) && (s[0] == 0xF4 ==> s[1] <= 0x8F) then 4
    else 0
  }

  predicate Utf8(s: Bytes)
    decreases |s|
  {
    s == [] || (CharLength(s) > 0 && Utf8(s[CharLength(s)..]))
  }

  lemma {:induction false} AsciiIsUtf8(s: Bytes)
    requires forall i :: 0 <= i < |s| ==> s[i] <= 0x7F
    ensures Utf8(s)
  {
    if s != [] { AsciiIsUtf8(s[1..]); }
  }

  /** A package name is always text, so the decoder's text check never rejects one. */
  lemma PackageIsText(p: Bytes)
    requires ValidPackage(p)
    ensures Utf8(p)
  {
    forall i | 0 <= i < |p| ensures p[i] <= 0x7F { assert NameByte(p[i]) || p[i] == 0x2E; }
    AsciiIsUtf8(p);
  }

  // ------------------------------------------------------------------------------------
  // What the two kinds of text are

  predicate Letter(c: char) { 'a' <= c <= 'z' || 'A' <= c <= 'Z' || '0' <= c <= '9' || c == '_' }

  lemma NameBytesAreLetters(b: u8)
    ensures NameByte(b) <==> Letter(b as char)
  {
  }

  predicate Name(part: Bytes) { part != [] && forall i :: 0 <= i < |part| ==> Letter(part[i] as char) }

  function Joined(parts: seq<Bytes>): Bytes
    requires parts != []
  {
    if |parts| == 1 then parts[0] else parts[0] + [0x2E] + Joined(parts[1..])
  }

  ghost predicate Names(parts: seq<Bytes>) { parts != [] && forall i :: 0 <= i < |parts| ==> Name(parts[i]) }

  /** Dots separate, and neither start, end nor meet. */
  predicate Dotted(p: Bytes) {
    && p != [] && (forall i :: 0 <= i < |p| ==> Letter(p[i] as char) || p[i] == 0x2E)
    && p[0] != 0x2E && p[|p| - 1] != 0x2E
    && forall i :: 0 <= i < |p| - 1 ==> !(p[i] == 0x2E && p[i + 1] == 0x2E)
  }

  lemma {:induction false} DottedSplits(p: Bytes, n: nat) returns (parts: seq<Bytes>)
    requires Dotted(p) && n < |p| && forall i :: 0 <= i < n ==> Letter(p[i] as char)
    ensures Names(parts) && Joined(parts) == p
    decreases |p|, |p| - n
  {
    if p[n] == 0x2E {
      var rest := DottedSplits(p[n + 1..], 0);
      parts := [p[..n]] + rest;
      assert parts[1..] == rest;
      assert p == p[..n] + [0x2E] + p[n + 1..];
    } else if n + 1 < |p| {
      parts := DottedSplits(p, n + 1);
    } else {
      parts := [p];
    }
  }

  lemma {:induction false} JoinedIsDotted(parts: seq<Bytes>)
    requires Names(parts)
    ensures Dotted(Joined(parts))
  {
    if |parts| > 1 {
      assert Names(parts[1..]);
      JoinedIsDotted(parts[1..]);
      assert Name(parts[0]);
    } else {
      assert Name(parts[0]);
    }
  }

  /** A package name is up to 255 bytes of non-empty names of letters, digits and underscores
      joined by dots. */
  lemma PackagesAreNames(p: Bytes)
    ensures ValidPackage(p) <==> |p| <= 255 && exists parts :: Names(parts) && Joined(parts) == p
  {
    forall b: u8 | true ensures NameByte(b) <==> Letter(b as char) { NameBytesAreLetters(b); }
    hide NameByte, Letter;
    if ValidPackage(p) {
      var parts := DottedSplits(p, 0);
    }
    if |p| <= 255 && exists parts :: Names(parts) && Joined(parts) == p {
      var parts :| Names(parts) && Joined(parts) == p;
      JoinedIsDotted(parts);
    }
  }

  /** The code points text is made of: surrogates are none. */
  predicate Scalar(c: int) { 0 <= c < 0xD800 || 0xE000 <= c < 0x11_0000 }

  /** Section 3 of RFC 3629. */
  function Utf8Of(c: int): (bs: Bytes)
    requires Scalar(c)
    ensures bs != []
  {
    if c < 0x80 then [c]
    else if c < 0x800 then [0xC0 + c / 64, 0x80 + c % 64]
    else if c < 0x1_0000 then [0xE0 + c / 4096, 0x80 + c / 64 % 64, 0x80 + c % 64]
    else [0xF0 + c / 262_144, 0x80 + c / 4096 % 64, 0x80 + c / 64 % 64, 0x80 + c % 64]
  }

  function CharOf(s: Bytes): int
    requires CharLength(s) > 0
  {
    var a, n: int := s[0], CharLength(s);
    if n == 1 then a
    else
      var b: int := s[1];
      if n == 2 then (a - 0xC0) * 64 + (b - 0x80)
      else
        var c: int := s[2];
        if n == 3 then (a - 0xE0) * 4096 + (b - 0x80) * 64 + (c - 0x80)
        else var d: int := s[3]; (a - 0xF0) * 262_144 + (b - 0x80) * 4096 + (c - 0x80) * 64 + (d - 0x80)
  }

  lemma Quotient(q: int, r: int)
    ensures 0 <= r < 64 ==> (q * 64 + r) / 64 == q && (q * 64 + r) % 64 == r
    ensures 0 <= r < 4096 ==> (q * 4096 + r) / 4096 == q
    ensures 0 <= r < 262_144 ==> (q * 262_144 + r) / 262_144 == q
  {
  }

  lemma Digits(a: int, b: int, c: int, d: int)
    requires 0 <= b < 64 && 0 <= c < 64 && 0 <= d < 64
    ensures var v := a * 262_144 + b * 4096 + c * 64 + d;
      v / 262_144 == a && v / 4096 % 64 == b && v / 64 % 64 == c && v % 64 == d && v / 64 == a * 4096 + b * 64 + c && v / 4096 == a * 64 + b
  {
    var v := a * 262_144 + b * 4096 + c * 64 + d;
    Quotient(a * 4096 + b * 64 + c, d);
    assert v == (a * 4096 + b * 64 + c) * 64 + d;
    Quotient(a * 64 + b, c * 64 + d);
    assert v == (a * 64 + b) * 4096 + (c * 64 + d);
    Quotient(a, b * 4096 + c * 64 + d);
    Quotient(a * 64 + b, c);
    assert a * 4096 + b * 64 + c == (a * 64 + b) * 64 + c;
    Quotient(a, b);
  }

  lemma CharIsScalar(s: Bytes)
    requires CharLength(s) > 0
    ensures Scalar(CharOf(s)) && Utf8Of(CharOf(s)) == s[..CharLength(s)]
  {
    var n := CharLength(s);
    var a: int := s[0];
    if n == 1 {
    } else if n == 2 {
      var b: int := s[1];
      Digits(0, 0, a - 0xC0, b - 0x80);
    } else if n == 3 {
      var b: int, c: int := s[1], s[2];
      Digits(0, a - 0xE0, b - 0x80, c - 0x80);
    } else {
      var b: int, c: int, d: int := s[1], s[2], s[3];
      Digits(a - 0xF0, b - 0x80, c - 0x80, d - 0x80);
    }
  }

  lemma ScalarIsChar(c: int, rest: Bytes)
    requires Scalar(c)
    ensures CharLength(Utf8Of(c) + rest) == |Utf8Of(c)|
  {
  }

  ghost predicate Scalars(cs: seq<int>) { forall i :: 0 <= i < |cs| ==> Scalar(cs[i]) }

  function Spelling(cs: seq<int>): Bytes
    requires Scalars(cs)
  {
    if cs == [] then [] else Utf8Of(cs[0]) + Spelling(cs[1..])
  }

  lemma {:induction false} TextSpells(s: Bytes) returns (cs: seq<int>)
    requires Utf8(s)
    ensures Scalars(cs) && Spelling(cs) == s
    decreases |s|
  {
    if s == [] {
      cs := [];
    } else {
      var n := CharLength(s);
      CharIsScalar(s);
      var rest := TextSpells(s[n..]);
      cs := [CharOf(s)] + rest;
      assert cs[1..] == rest;
      assert s == s[..n] + s[n..];
    }
  }

  lemma {:induction false} SpellingIsText(cs: seq<int>)
    requires Scalars(cs)
    ensures Utf8(Spelling(cs))
  {
    if cs != [] {
      SpellingIsText(cs[1..]);
      var s, rest := Spelling(cs), Spelling(cs[1..]);
      ScalarIsChar(cs[0], rest);
      assert s[CharLength(s)..] == rest;
    }
  }

  /** The decoder's text check passes exactly the spellings of code points. */
  lemma TextIsSpelled(s: Bytes)
    ensures Utf8(s) <==> exists cs :: Scalars(cs) && Spelling(cs) == s
  {
    if Utf8(s) { var cs := TextSpells(s); }
    if exists cs :: Scalars(cs) && Spelling(cs) == s {
      var cs :| Scalars(cs) && Spelling(cs) == s;
      SpellingIsText(cs);
    }
  }
}
