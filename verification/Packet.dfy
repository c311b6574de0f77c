/** The 32-byte header of the Denial protocol and records in either direction. */
module Packet {
  import opened Base
  import opened Wire

  const MAGIC: Bytes := [0x44, 0x4C, 0x4F, 0x4D]
  const PROTOCOL_MAJOR := 1
  const PROTOCOL_MINOR := 9
  const HEADER_BYTES := 32
  const MAX_PACKET_BYTES := 65_536
  const HEADER_WIDTHS: seq<nat> := [2, 2, 2, 2, 4, 8, 4, 4]

  datatype WireError =
    | ShortHeader
    | PacketTooLarge
    | InvalidMagic
    | UnsupportedVersion(major: u16, minor: u16)
    | UnsupportedHeaderBits
    | LengthMismatch
    | DescriptorCount(expected: nat, actual: nat)
    | UnknownOpcode(opcode: u16)
    | Malformed

  datatype DescriptorKind = InputChannel | DmabufPlane | LayerStream | AcquireTimeline | ReleaseTimeline

  datatype Encoded = Encoded(bytes: Bytes, descriptors: seq<DescriptorKind>)

  datatype Decoded<T> = Decoded(message: T, descriptors: seq<DescriptorKind>)

  datatype Header = Header(opcode: u16, fdCount: u16, objectId: u64, payload: Bytes)

  /** Only a newly negotiated opcode raises the minor version of its header. */
  function Minor(opcode: u16): (minor: u16)
    ensures minor <= PROTOCOL_MINOR
  {
    if opcode == 0x000e then 4
    else if opcode == 0x800e then 5
    else if opcode in {0x000f, 0x0010, 0x800f} then 6
    else if opcode == 0x0011 then 7
    else if opcode == 0x8010 then 8
    else if opcode == 0x8011 then 9
    else 3
  }

  function HeaderFields(minor: nat, h: Header): seq<Field> {
    [U16(PROTOCOL_MAJOR), U16(minor), U16(h.opcode), U16(h.fdCount), U32(0), U64(h.objectId), U32(|h.payload|), U32(0)]
  }

  function Assemble(minor: nat, h: Header): Bytes {
    MAGIC + Put(HeaderFields(minor, h)) + h.payload
  }

  function FinishPacket(opcode: u16, objectId: u64, payload: Bytes, descriptors: seq<DescriptorKind>): Result<Encoded, WireError> {
    if HEADER_BYTES + |payload| > MAX_PACKET_BYTES then Err(PacketTooLarge)
    else if |descriptors| >= U16_LIMIT then Err(Malformed)
    else Ok(Encoded(Assemble(Minor(opcode), Header(opcode, |descriptors|, objectId, payload)), descriptors))
  }

  function V16(f: Field): u16 { if f.value < U16_LIMIT then f.value else 0 }
  function V32(f: Field): u32 { if f.value < U32_LIMIT then f.value else 0 }
  function V64(f: Field): u64 { if f.value < U64_LIMIT then f.value else 0 }

  function ParseHeader(packet: Bytes, received: nat): Result<Header, WireError> {
    if |packet| < HEADER_BYTES then Err(ShortHeader)
    else if |packet| > MAX_PACKET_BYTES then Err(PacketTooLarge)
    else if packet[..4] != MAGIC then Err(InvalidMagic)
    else
      var read := Read(HEADER_WIDTHS, packet[4..HEADER_BYTES]);
      if read.None? || |read.value.0| != 8 then Err(Malformed)
      else
        var f := read.value.0;
        if f[0].value != PROTOCOL_MAJOR || f[1].value > PROTOCOL_MINOR then Err(UnsupportedVersion(V16(f[0]), V16(f[1])))
        else if f[4].value != 0 || f[7].value != 0 then Err(UnsupportedHeaderBits)
        else if |packet| != HEADER_BYTES + f[6].value then Err(LengthMismatch)
        else if f[3].value != received then Err(DescriptorCount(f[3].value, received))
        else Ok(Header(V16(f[2]), V16(f[3]), V64(f[5]), packet[HEADER_BYTES..]))
  }

  lemma HeaderFieldsFit(minor: nat, h: Header)
    requires minor <= PROTOCOL_MINOR && |h.payload| <= MAX_PACKET_BYTES
    ensures AllFit(HeaderFields(minor, h)) && WidthsOf(HeaderFields(minor, h)) == HEADER_WIDTHS
    ensures |Put(HeaderFields(minor, h))| == 28
  {
    Wire.Widths();
    PutLength(HeaderFields(minor, h));
    HeaderSum();
    hide Pow256, Put, Sum;
    assert WidthsOf(HeaderFields(minor, h)) == HEADER_WIDTHS;
  }

  lemma HeaderSum()
    ensures Sum(HEADER_WIDTHS) == 28
  {
    assert HEADER_WIDTHS == [2, 2, 2, 2] + [4, 8, 4, 4];
    SumConcat([2, 2, 2, 2], [4, 8, 4, 4]);
    SumConcat([2, 2], [2, 2]);
    assert [2, 2] + [2, 2] == [2, 2, 2, 2];
    SumConcat([4, 8], [4, 4]);
    assert [4, 8] + [4, 4] == [4, 8, 4, 4];
    assert Sum([2, 2]) == 4 && Sum([4, 8]) == 12 && Sum([4, 4]) == 8;
  }

  /** Every assembled packet parses back to its header, for any supported minor version. */
  lemma AssembledParses(minor: nat, h: Header)
    requires minor <= PROTOCOL_MINOR && HEADER_BYTES + |h.payload| <= MAX_PACKET_BYTES
    ensures |Assemble(minor, h)| == HEADER_BYTES + |h.payload|
    ensures ParseHeader(Assemble(minor, h), h.fdCount) == Ok(h)
  {
    var fs, p := HeaderFields(minor, h), Assemble(minor, h);
    HeaderFieldsFit(minor, h);
    PutIsRead(fs, []);
    hide Put, Read, WidthsOf;
    assert p[..4] == MAGIC;
    assert p[4..HEADER_BYTES] == Put(fs) == Put(fs) + [];
    assert p[HEADER_BYTES..] == h.payload;
  }

  /** Every packet that parses was assembled from its header and some supported minor. */
  lemma ParsedIsAssembled(p: Bytes, received: nat) returns (minor: nat)
    requires ParseHeader(p, received).Ok?
    ensures minor <= PROTOCOL_MINOR
    ensures var h := ParseHeader(p, received).value;
      h.fdCount == received && HEADER_BYTES + |h.payload| <= MAX_PACKET_BYTES && p == Assemble(minor, h)
  {
    Wire.Widths();
    ReadIsPut(HEADER_WIDTHS, p[4..HEADER_BYTES]);
    var h := ParseHeader(p, received).value;
    var (fs, rest) := Read(HEADER_WIDTHS, p[4..HEADER_BYTES]).value;
    minor := fs[1].value;
    PutLength(fs);
    HeaderSum();
    assert rest == [];
    FieldsAreTyped(fs, HEADER_WIDTHS);
    hide Read, Put, Pow256, Sum;
    assert fs == HeaderFields(minor, h);
    assert p == p[..4] + p[4..HEADER_BYTES] + p[HEADER_BYTES..];
    assert Put(fs) + [] == Put(fs);
  }

  /** Reading fixes each field's width and bounds its value. */
  lemma FieldsAreTyped(fs: seq<Field>, ws: seq<nat>)
    requires WidthsOf(fs) == ws && AllFit(fs)
    ensures |fs| == |ws|
    ensures forall i :: 0 <= i < |fs| ==> fs[i].width == ws[i] && fs[i].value < Pow256(ws[i])
  {
    forall i | 0 <= i < |fs| ensures fs[i].width == ws[i] {
      assert WidthsOf(fs)[i] == fs[i].width;
    }
  }

  /** Packets that differ at most in the two minor-version bytes. */
  predicate SameButMinor(p: Bytes, q: Bytes) {
    |p| == |q| && forall i :: 0 <= i < |p| && i != 6 && i != 7 ==> p[i] == q[i]
  }

  lemma MinorIsTwoBytes(a: nat, b: nat, h: Header)
    ensures SameButMinor(Assemble(a, h), Assemble(b, h))
  {
    var rest := HeaderFields(a, h)[2..];
    assert rest == HeaderFields(b, h)[2..];
    forall m: nat | true ensures Assemble(m, h) == MAGIC + Le(2, PROTOCOL_MAJOR) + Le(2, m) + Put(rest) + h.payload {
      var fs := HeaderFields(m, h);
      assert fs == [U16(PROTOCOL_MAJOR)] + ([U16(m)] + rest);
      assert fs[1..] == [U16(m)] + rest;
      assert fs[1..][1..] == rest;
      assert Put(fs) == Le(2, PROTOCOL_MAJOR) + (Le(2, m) + Put(rest));
    }
    hide Assemble, Put, Le;
    assert Assemble(a, h) == MAGIC + Le(2, PROTOCOL_MAJOR) + Le(2, a) + Put(rest) + h.payload;
    assert Assemble(b, h) == MAGIC + Le(2, PROTOCOL_MAJOR) + Le(2, b) + Put(rest) + h.payload;
  }

  // ------------------------------------------------------------------------------------
  // Records: a header whose payload is parsed by the layout of its opcode

  datatype Record = Record(opcode: u16, objectId: u64, fields: seq<Field>)

  /** The opcodes one direction knows. */
  type Table = u16 -> Option<Layout>

  function EncodeRecord(r: Record, descriptors: seq<DescriptorKind>): Result<Encoded, WireError> {
    FinishPacket(r.opcode, r.objectId, Put(r.fields), descriptors)
  }

  function DecodeRecord(table: Table, packet: Bytes, received: nat): Result<Record, WireError> {
    var header := ParseHeader(packet, received);
    if header.Err? then Err(header.error)
    else
      var h := header.value;
      var layout := table(h.opcode);
      if layout.None? then Err(UnknownOpcode(h.opcode))
      else
        var fields := Parse(layout.value, h.payload);
        if fields.None? then Err(Malformed) else Ok(Record(h.opcode, h.objectId, fields.value))
  }

  lemma RecordRoundTrip(table: Table, other: Table, r: Record, descriptors: seq<DescriptorKind>)
    requires table(r.opcode).Some? && Shaped(table(r.opcode).value, r.fields) && other(r.opcode).None?
    requires EncodeRecord(r, descriptors).Ok?
    ensures var e := EncodeRecord(r, descriptors).value;
      && |e.bytes| <= MAX_PACKET_BYTES && e.descriptors == descriptors
      && DecodeRecord(table, e.bytes, |descriptors|) == Ok(r)
      && DecodeRecord(other, e.bytes, |descriptors|) == Err(UnknownOpcode(r.opcode))
  {
    hide ParseHeader, Assemble, Put, Parse, Shaped;
    AssembledParses(Minor(r.opcode), Header(r.opcode, |descriptors|, r.objectId, Put(r.fields)));
    ParseIsPut(table(r.opcode).value, Put(r.fields), r.fields);
  }

  lemma RecordIsCanonical(table: Table, p: Bytes, received: nat, descriptors: seq<DescriptorKind>)
    requires DecodeRecord(table, p, received).Ok? && |descriptors| == received
    ensures var r := DecodeRecord(table, p, received).value;
      && table(r.opcode).Some? && Shaped(table(r.opcode).value, r.fields)
      && EncodeRecord(r, descriptors).Ok? && SameButMinor(EncodeRecord(r, descriptors).value.bytes, p)
  {
    hide ParseHeader, Assemble, Put, Parse, Shaped, SameButMinor;
    var r, h := DecodeRecord(table, p, received).value, ParseHeader(p, received).value;
    var minor := ParsedIsAssembled(p, received);
    ParseIsPut(table(r.opcode).value, h.payload, r.fields);
    MinorIsTwoBytes(Minor(r.opcode), minor, h);
  }

  // ------------------------------------------------------------------------------------
  // The two shapes of payload

  function Fixed(head: seq<nat>): Layout { Layout(head, fs => Some([])) }

  /** The count in head field `at` announces that many records, within `lo` and `hi`. */
  function Counted(head: seq<nat>, at: nat, ws: seq<nat>, lo: nat, hi: nat): Layout {
    Layout(head, (fs: seq<Field>) => if at < |fs| && lo <= fs[at].value <= hi then Some(Repeat(ws, fs[at].value)) else None)
  }

  lemma FixedShape(head: seq<nat>, fs: seq<Field>)
    ensures Shaped(Fixed(head), fs) <==> WidthsOf(fs) == head && AllFit(fs)
  {
    if Shaped(Fixed(head), fs) {
      assert |fs[|head|..]| == 0;
      assert fs[..|head|] == fs;
    }
    if WidthsOf(fs) == head {
      assert fs[..|head|] == fs;
      assert WidthsOf(fs[|head|..]) == [];
    }
  }

  lemma CountedShape(head: seq<nat>, at: nat, ws: seq<nat>, lo: nat, hi: nat, front: seq<Field>, tail: seq<Field>)
    requires |front| == |head| && at < |head|
    ensures Shaped(Counted(head, at, ws, lo, hi), front + tail) <==>
              && WidthsOf(front) == head && AllFit(front) && AllFit(tail)
              && lo <= front[at].value <= hi && WidthsOf(tail) == Repeat(ws, front[at].value)
  {
    var fs := front + tail;
    assert fs[..|head|] == front && fs[|head|..] == tail;
    if AllFit(fs) {
      forall i | 0 <= i < |front| ensures front[i].Fits() { assert fs[i] == front[i]; }
      forall i | 0 <= i < |tail| ensures tail[i].Fits() { assert fs[|front| + i] == tail[i]; }
    }
  }

  /** Writing a counted list after a head that announces its length. */
  lemma CountedWrites<T(!new)>(head: seq<nat>, at: nat, ws: seq<nat>, lo: nat, hi: nat,
                               write: T -> seq<Field>, read: seq<Field> -> T, front: seq<Field>, xs: seq<T>)
    requires Coded(write, read, ws) && ws != [] && at < |head|
    requires WidthsOf(front) == head && AllFit(front) && front[at].value == |xs| && lo <= |xs| <= hi
    ensures var fs := front + Flat(write, xs);
      && Shaped(Counted(head, at, ws, lo, hi), fs)
      && fs[..|head|] == front && fs[|head|..] == Flat(write, xs) && Group(read, |ws|, fs[|head|..]) == xs
  {
    hide Coded, Flat, Group, Shaped, Counted;
    GroupOfFlat(write, read, ws, xs);
    CountedShape(head, at, ws, lo, hi, front, Flat(write, xs));
    var fs := front + Flat(write, xs);
    assert fs[..|head|] == front && fs[|head|..] == Flat(write, xs);
  }

  /** Reading it back yields a list that writes the same fields. */
  lemma CountedReads<T(!new)>(head: seq<nat>, at: nat, ws: seq<nat>, lo: nat, hi: nat,
                              write: T -> seq<Field>, read: seq<Field> -> T, fs: seq<Field>)
    requires Coded(write, read, ws) && ws != [] && at < |head| && Shaped(Counted(head, at, ws, lo, hi), fs)
    ensures |fs| >= |head|
    ensures var front, xs := fs[..|head|], Group(read, |ws|, fs[|head|..]);
      && WidthsOf(front) == head && AllFit(front) && front[at].value == |xs|
      && fs == front + Flat(write, xs)
  {
    assert |fs| >= |head|;
    hide Coded, Flat, Group, Shaped, Counted;
    var front, tail := fs[..|head|], fs[|head|..];
    assert fs == front + tail;
    CountedShape(head, at, ws, lo, hi, front, tail);
    FlatOfGroup(write, read, ws, tail, front[at].value);
  }

  lemma FixedLength(head: seq<nat>, fs: seq<Field>)
    requires Shaped(Fixed(head), fs) && forall i :: 0 <= i < |head| ==> head[i] <= 8
    ensures |Put(fs)| <= 8 * |head|
  {
    hide Put, Sum, Shaped;
    FixedShape(head, fs);
    PutLength(fs);
    SumBound(head);
  }

  lemma CountedLength(head: seq<nat>, at: nat, ws: seq<nat>, lo: nat, hi: nat, fs: seq<Field>)
    requires Shaped(Counted(head, at, ws, lo, hi), fs) && at < |head|
    requires (forall i :: 0 <= i < |head| ==> head[i] <= 8) && forall i :: 0 <= i < |ws| ==> ws[i] <= 8
    ensures |Put(fs)| <= 8 * |head| + hi * (8 * |ws|)
  {
    var front, tail := fs[..|head|], fs[|head|..];
    assert fs == front + tail;
    hide Put, Sum, Shaped, Repeat, WidthsOf;
    CountedShape(head, at, ws, lo, hi, front, tail);
    PutConcat(front, tail);
    PutLength(front);
    PutLength(tail);
    SumBound(head);
    SumBound(ws);
    var n := front[at].value;
    SumRepeat(ws, n);
    TimesGrow(n, hi, Sum(ws), 8 * |ws|);
  }

  lemma TimesGrow(n: nat, m: nat, a: nat, b: nat)
    requires n <= m && a <= b
    ensures n * a <= m * b
  {
    assert n * a <= n * b <= m * b;
  }
}
