/** Android-to-Denial messages: encoder, decoder, and their exact agreement. */
module AndroidCodec {
  import opened Base
  import opened Dmabuf
  import opened Wire
  import opened Packet
  import opened Text

  const MAX_PACKAGE_BYTES := 255
  const MAX_DAMAGE_RECTS := 256
  const MAX_MODIFIER := 0xFFFF_FFFF_FFFF_FFFF

  datatype AndroidMessage =
    | RequestRenderTargets(objectId: u64, serial: u32)
    | BindInputChannel(generation: u64, wire: u16)
    | BindInputRoute(objectId: u64, route: u32, incarnation: u64)
    | ClientHello(minMajor: u16, maxMajor: u16, capabilities: u64)
    | CreateTask(objectId: u64, display: u64, package: Bytes)
    | BindTask(objectId: u64, task: u64)
    | DestroyTask(objectId: u64)
    | BindTimelines(objectId: u64)
    | AckConfigure(objectId: u64, serial: u32)
    | RegisterBuffer(objectId: u64, buffer: Buffer)
    | UnregisterBuffer(objectId: u64, bufferId: u64)
    | Present(objectId: u64, frame: u64, bufferId: u64, serial: u32, acquirePoint: u64, releasePoint: u64, damage: seq<Rect>)
    | BindLayerStream(objectId: u64)
    | SetContentState(objectId: u64, flags: u32)
    | SetFrameRate(objectId: u64, millihz: u32)
    | RequestActivation(objectId: u64)
    | Pong(cookie: u64)

  predicate ValidDamage(r: Rect) {
    r.width != 0 && r.height != 0 && r.x + r.width < U32_LIMIT && r.y + r.height < U32_LIMIT
  }

  predicate ValidBuffer(b: Buffer) { b.Valid() && b.id != 0 && b.format.modifier != MAX_MODIFIER }

  /** What the encoder demands of a message. */
  predicate Valid(m: AndroidMessage) {
    match m
    case RequestRenderTargets(o, serial) => o != 0 && serial != 0
    case BindInputChannel(generation, wire) => generation != 0 && wire != 0
    case BindInputRoute(o, display, incarnation) => o != 0 && display <= I32_MAX && 0 < incarnation <= I64_MAX
    case ClientHello(lo, hi, _) => 0 < lo <= hi
    case CreateTask(o, display, package) => o != 0 && display != 0 && ValidPackage(package)
    case BindTask(o, task) => o != 0 && task != 0
    case DestroyTask(o) => o != 0
    case BindTimelines(o) => o != 0
    case AckConfigure(o, serial) => o != 0 && serial != 0
    case RegisterBuffer(o, b) => o != 0 && ValidBuffer(b)
    case UnregisterBuffer(o, b) => o != 0 && b != 0
    case Present(o, frame, b, serial, acquire, release, damage) =>
      && o != 0 && frame != 0 && b != 0 && serial != 0 && acquire != 0 && release != 0
      && |damage| <= MAX_DAMAGE_RECTS && forall i :: 0 <= i < |damage| ==> ValidDamage(damage[i])
    case BindLayerStream(o) => o != 0
    case SetContentState(o, flags) => o != 0 && flags <= 7
    case SetFrameRate(o, millihz) => o != 0 && millihz <= 1_000_000
    case RequestActivation(o) => o != 0
    case Pong(_) => true
  }

  function Opcode(m: AndroidMessage): u16 {
    match m
    case ClientHello(_, _, _) => 0x01
    case CreateTask(_, _, _) => 0x02
    case DestroyTask(_) => 0x03
    case BindTimelines(_) => 0x04
    case AckConfigure(_, _) => 0x05
    case RegisterBuffer(_, _) => 0x06
    case UnregisterBuffer(_, _) => 0x07
    case Present(_, _, _, _, _, _, _) => 0x08
    case SetContentState(_, _) => 0x09
    case SetFrameRate(_, _) => 0x0a
    case Pong(_) => 0x0b
    case BindTask(_, _) => 0x0c
    case BindLayerStream(_) => 0x0d
    case RequestActivation(_) => 0x0e
    case BindInputChannel(_, _) => 0x0f
    case BindInputRoute(_, _, _) => 0x10
    case RequestRenderTargets(_, _) => 0x11
  }

  function ObjectOf(m: AndroidMessage): u64 {
    if m.ClientHello? || m.BindInputChannel? || m.Pong? then 0 else m.objectId
  }

  function Kinds(m: AndroidMessage): seq<DescriptorKind> {
    match m
    case BindInputChannel(_, _) => [InputChannel]
    case BindTimelines(_) => [AcquireTimeline, ReleaseTimeline]
    case BindLayerStream(_) => [LayerStream, LayerStream]
    case RegisterBuffer(_, b) => seq(|b.planes|, i => DmabufPlane)
    case _ => []
  }

  function WriteRect(r: Rect): seq<Field> { [U32(r.x), U32(r.y), U32(r.width), U32(r.height)] }

  function ReadRect(fs: seq<Field>): Rect {
    if |fs| == 4 then Rect(V32(fs[0]), V32(fs[1]), V32(fs[2]), V32(fs[3])) else Rect(0, 0, 0, 0)
  }

  function WritePlane(p: Plane): seq<Field> { [U32(p.index), U32(p.offset), U32(p.stride)] }

  function ReadPlane(fs: seq<Field>): Plane {
    if |fs| == 3 then Plane(V32(fs[0]), V32(fs[1]), V32(fs[2])) else Plane(0, 0, 0)
  }

  const RECT: seq<nat> := [4, 4, 4, 4]
  const PLANE: seq<nat> := [4, 4, 4]
  const BUFFER: seq<nat> := [8, 4, 4, 4, 8, 1]

  function WriteBuffer(b: Buffer): seq<Field> {
    [U64(b.id), U32(b.width), U32(b.height), U32(b.format.fourcc), U64(b.format.modifier), U8(|b.planes|)] + Flat(WritePlane, b.planes)
  }

  /** The buffer record starting at field `at`. */
  function ReadBuffer(fs: seq<Field>): Buffer {
    if |fs| < 6 then Buffer(0, 0, 0, Format(0, 0), [])
    else Buffer(V64(fs[0]), V32(fs[1]), V32(fs[2]), Format(V32(fs[3]), V64(fs[4])), Group(ReadPlane, 3, fs[6..]))
  }

  function Fields(m: AndroidMessage): seq<Field> {
    match m
    case RequestRenderTargets(_, serial) => [U32(serial)]
    case BindInputChannel(generation, wire) => [U64(generation), U16(wire)]
    case BindInputRoute(_, display, incarnation) => [U32(display), U64(incarnation)]
    case ClientHello(lo, hi, capabilities) => [U16(lo), U16(hi), U64(capabilities)]
    case CreateTask(_, display, package) => [U64(display), U16(|package|)] + Flat(WriteByte, package)
    case BindTask(_, task) => [U64(task)]
    case AckConfigure(_, serial) => [U32(serial)]
    case RegisterBuffer(_, b) => WriteBuffer(b)
    case UnregisterBuffer(_, b) => [U64(b)]
    case Present(_, frame, b, serial, acquire, release, damage) =>
      [U64(frame), U64(b), U32(serial), U64(acquire), U64(release), U16(|damage|)] + Flat(WriteRect, damage)
    case SetContentState(_, flags) => [U32(flags)]
    case SetFrameRate(_, millihz) => [U32(millihz)]
    case Pong(cookie) => [U64(cookie)]
    case _ => []
  }

  function LayoutOf(opcode: u16): Option<Layout> {
    match opcode
    case 0x01 => Some(Fixed([2, 2, 8]))
    case 0x02 => Some(Counted([8, 2], 1, [1], 0, MAX_PACKAGE_BYTES))
    case 0x03 => Some(Fixed([]))
    case 0x04 => Some(Fixed([]))
    case 0x05 => Some(Fixed([4]))
    case 0x06 => Some(Counted(BUFFER, 5, PLANE, 1, 4))
    case 0x07 => Some(Fixed([8]))
    case 0x08 => Some(Counted(PRESENT, 5, RECT, 0, MAX_DAMAGE_RECTS))
    case 0x09 => Some(Fixed([4]))
    case 0x0a => Some(Fixed([4]))
    case 0x0b => Some(Fixed([8]))
    case 0x0c => Some(Fixed([8]))
    case 0x0d => Some(Fixed([]))
    case 0x0e => Some(Fixed([]))
    case 0x0f => Some(Fixed([8, 2]))
    case 0x10 => Some(Fixed([4, 8]))
    case 0x11 => Some(Fixed([4]))
    case _ => None
  }

  /** The message a parsed record spells, before its typed checks. */
  function Spelled(r: Record): AndroidMessage
    requires LayoutOf(r.opcode).Some? && |LayoutOf(r.opcode).value.head| <= |r.fields|
  {
    var o, f := r.objectId, r.fields;
    match r.opcode
    case 0x01 => ClientHello(V16(f[0]), V16(f[1]), V64(f[2]))
    case 0x02 => CreateTask(o, V64(f[0]), Group(ReadByte, 1, f[2..]))
    case 0x03 => DestroyTask(o)
    case 0x04 => BindTimelines(o)
    case 0x05 => AckConfigure(o, V32(f[0]))
    case 0x06 => RegisterBuffer(o, ReadBuffer(f))
    case 0x07 => UnregisterBuffer(o, V64(f[0]))
    case 0x08 => Present(o, V64(f[0]), V64(f[1]), V32(f[2]), V64(f[3]), V64(f[4]), Group(ReadRect, 4, f[6..]))
    case 0x09 => SetContentState(o, V32(f[0]))
    case 0x0a => SetFrameRate(o, V32(f[0]))
    case 0x0b => Pong(V64(f[0]))
    case 0x0c => BindTask(o, V64(f[0]))
    case 0x0d => BindLayerStream(o)
    case 0x0e => RequestActivation(o)
    case 0x0f => BindInputChannel(V64(f[0]), V16(f[1]))
    case 0x10 => BindInputRoute(o, V32(f[0]), V64(f[1]))
    case 0x11 => RequestRenderTargets(o, V32(f[0]))
  }

  function Encode(m: AndroidMessage): Result<Encoded, WireError> {
    if !Valid(m) then Err(Malformed)
    else EncodeRecord(Record(Opcode(m), ObjectOf(m), Fields(m)), Kinds(m))
  }

  function Decode(packet: Bytes, received: nat): Result<Decoded<AndroidMessage>, WireError> {
    var record := DecodeRecord(LayoutOf, packet, received);
    if record.Err? then Err(record.error)
    else if LayoutOf(record.value.opcode).None? || |LayoutOf(record.value.opcode).value.head| > |record.value.fields| then Err(Malformed)
    else
      var m := Spelled(record.value);
      if !Valid(m) || ObjectOf(m) != record.value.objectId then Err(Malformed)
      else if |Kinds(m)| != received then Err(DescriptorCount(|Kinds(m)|, received))
      else Ok(Decoded(m, Kinds(m)))
  }

  // ------------------------------------------------------------------------------------
  // Messages and records

  lemma RectsCoded()
    ensures Coded(WriteRect, ReadRect, RECT)
  {
    Wire.Widths();
    hide Pow256;
    forall r: Rect | true ensures WidthsOf(WriteRect(r)) == RECT && AllFit(WriteRect(r)) && ReadRect(WriteRect(r)) == r {
      assert WidthsOf(WriteRect(r)) == RECT;
    }
    forall fs: seq<Field> | WidthsOf(fs) == RECT && AllFit(fs) ensures WriteRect(ReadRect(fs)) == fs {
      FieldsAreTyped(fs, RECT);
    }
  }

  lemma PlanesCoded()
    ensures Coded(WritePlane, ReadPlane, PLANE)
  {
    Wire.Widths();
    hide Pow256;
    forall p: Plane | true ensures WidthsOf(WritePlane(p)) == PLANE && AllFit(WritePlane(p)) && ReadPlane(WritePlane(p)) == p {
      assert WidthsOf(WritePlane(p)) == PLANE;
    }
    forall fs: seq<Field> | WidthsOf(fs) == PLANE && AllFit(fs) ensures WritePlane(ReadPlane(fs)) == fs {
      FieldsAreTyped(fs, PLANE);
    }
  }

  predicate IsCounted(opcode: u16) { opcode in {0x02, 0x06, 0x08} }

  function RecordOf(m: AndroidMessage): Record { Record(Opcode(m), ObjectOf(m), Fields(m)) }

  lemma FixedWrites(m: AndroidMessage)
    requires !IsCounted(Opcode(m))
    ensures LayoutOf(Opcode(m)).Some? && Shaped(LayoutOf(Opcode(m)).value, Fields(m))
    ensures Spelled(RecordOf(m)) == m && |Fields(m)| <= 10
  {
    Wire.Widths();
    var head := LayoutOf(Opcode(m)).value.head;
    FixedShape(head, Fields(m));
    hide Pow256, Shaped;
    assert WidthsOf(Fields(m)) == head;
  }

  lemma FixedReads(r: Record)
    requires LayoutOf(r.opcode).Some? && !IsCounted(r.opcode) && Shaped(LayoutOf(r.opcode).value, r.fields)
    ensures var m := Spelled(r); Opcode(m) == r.opcode && Fields(m) == r.fields
  {
    Wire.Widths();
    var head := LayoutOf(r.opcode).value.head;
    FixedShape(head, r.fields);
    FieldsAreTyped(r.fields, head);
    hide Pow256, Shaped, WidthsOf;
  }

  lemma PackageWrites(m: AndroidMessage)
    requires m.CreateTask? && Valid(m)
    ensures Shaped(Counted([8, 2], 1, [1], 0, MAX_PACKAGE_BYTES), Fields(m)) && Group(ReadByte, 1, Fields(m)[2..]) == m.package
  {
    Wire.Widths();
    BytesCoded();
    var front := [U64(m.display), U16(|m.package|)];
    hide Pow256, Shaped, Flat, Group, Coded, Counted;
    assert WidthsOf(front) == [8, 2];
    CountedWrites([8, 2], 1, [1], 0, MAX_PACKAGE_BYTES, WriteByte, ReadByte, front, m.package);
  }

  lemma PackageReads(f: seq<Field>)
    requires Shaped(Counted([8, 2], 1, [1], 0, MAX_PACKAGE_BYTES), f)
    ensures |f| >= 2 && var package := Group(ReadByte, 1, f[2..]); f == [U64(V64(f[0])), U16(|package|)] + Flat(WriteByte, package)
  {
    BytesCoded();
    Wire.Widths();
    hide Pow256, Shaped, Flat, Group, Coded, Counted, WidthsOf;
    CountedReads([8, 2], 1, [1], 0, MAX_PACKAGE_BYTES, WriteByte, ReadByte, f);
    FieldsAreTyped(f[..2], [8, 2]);
    assert f[..2] == [U64(V64(f[0])), U16(f[1].value)];
  }

  lemma BufferWrites(b: Buffer)
    requires ValidBuffer(b)
    ensures Shaped(Counted(BUFFER, 5, PLANE, 1, 4), WriteBuffer(b)) && ReadBuffer(WriteBuffer(b)) == b
  {
    PlanesCoded();
    Wire.Widths();
    var front := [U64(b.id), U32(b.width), U32(b.height), U32(b.format.fourcc), U64(b.format.modifier), U8(|b.planes|)];
    hide Pow256, Shaped, Flat, Group, Coded, Counted;
    assert WidthsOf(front) == BUFFER;
    CountedWrites(BUFFER, 5, PLANE, 1, 4, WritePlane, ReadPlane, front, b.planes);
  }

  lemma BufferReads(f: seq<Field>)
    requires Shaped(Counted(BUFFER, 5, PLANE, 1, 4), f)
    ensures |f| >= 6 && WriteBuffer(ReadBuffer(f)) == f
  {
    PlanesCoded();
    Wire.Widths();
    hide Pow256, Shaped, Flat, Group, Coded, Counted, WidthsOf;
    CountedReads(BUFFER, 5, PLANE, 1, 4, WritePlane, ReadPlane, f);
    FieldsAreTyped(f[..6], BUFFER);
    assert f[..6] == [U64(V64(f[0])), U32(V32(f[1])), U32(V32(f[2])), U32(V32(f[3])), U64(V64(f[4])), U8(f[5].value)];
  }

  const PRESENT: seq<nat> := [8, 8, 4, 8, 8, 2]

  lemma PresentWrites(m: AndroidMessage)
    requires m.Present? && Valid(m)
    ensures Shaped(Counted(PRESENT, 5, RECT, 0, MAX_DAMAGE_RECTS), Fields(m)) && Group(ReadRect, 4, Fields(m)[6..]) == m.damage
  {
    RectsCoded();
    Wire.Widths();
    var front := [U64(m.frame), U64(m.bufferId), U32(m.serial), U64(m.acquirePoint), U64(m.releasePoint), U16(|m.damage|)];
    hide Pow256, Shaped, Flat, Group, Coded, Counted, ValidDamage;
    assert WidthsOf(front) == PRESENT;
    CountedWrites(PRESENT, 5, RECT, 0, MAX_DAMAGE_RECTS, WriteRect, ReadRect, front, m.damage);
  }

  lemma PresentReads(f: seq<Field>)
    requires Shaped(Counted(PRESENT, 5, RECT, 0, MAX_DAMAGE_RECTS), f)
    ensures |f| >= 6
    ensures var damage := Group(ReadRect, 4, f[6..]);
      f == [U64(V64(f[0])), U64(V64(f[1])), U32(V32(f[2])), U64(V64(f[3])), U64(V64(f[4])), U16(|damage|)] + Flat(WriteRect, damage)
  {
    RectsCoded();
    Wire.Widths();
    hide Pow256, Shaped, Flat, Group, Coded, Counted, WidthsOf;
    CountedReads(PRESENT, 5, RECT, 0, MAX_DAMAGE_RECTS, WriteRect, ReadRect, f);
    FieldsAreTyped(f[..6], PRESENT);
    assert f[..6] == [U64(V64(f[0])), U64(V64(f[1])), U32(V32(f[2])), U64(V64(f[3])), U64(V64(f[4])), U16(f[5].value)];
  }

  /** A valid message has the layout of its opcode and is spelled back by it. */
  lemma Writes(m: AndroidMessage)
    requires Valid(m)
    ensures LayoutOf(Opcode(m)).Some? && Shaped(LayoutOf(Opcode(m)).value, Fields(m)) && Spelled(RecordOf(m)) == m
  {
    hide Shaped, ValidBuffer, ValidPackage, Flat, Group, Counted, ReadBuffer, WriteBuffer;
    match m
    case CreateTask(_, _, _) => PackageWrites(m);
    case RegisterBuffer(_, b) => BufferWrites(b);
    case Present(_, _, _, _, _, _, _) => PresentWrites(m);
    case _ => FixedWrites(m);
  }

  /** Whatever a record of a known layout spells writes that record again. */
  lemma Reads(r: Record)
    requires LayoutOf(r.opcode).Some? && Shaped(LayoutOf(r.opcode).value, r.fields)
    ensures var m := Spelled(r); Opcode(m) == r.opcode && Fields(m) == r.fields
  {
    hide Shaped, Flat, Group, Counted, ReadBuffer, WriteBuffer;
    if r.opcode == 0x02 { PackageReads(r.fields); }
    else if r.opcode == 0x06 { BufferReads(r.fields); }
    else if r.opcode == 0x08 { PresentReads(r.fields); }
    else { FixedReads(r); }
  }

  /** Every record of a known layout is far below the packet bound. */
  lemma RecordsAreSmall(opcode: u16, fs: seq<Field>)
    requires LayoutOf(opcode).Some? && Shaped(LayoutOf(opcode).value, fs)
    ensures |Put(fs)| <= 10_000
  {
    hide Put, Shaped;
    if opcode == 0x02 { CountedLength([8, 2], 1, [1], 0, MAX_PACKAGE_BYTES, fs); }
    else if opcode == 0x06 { CountedLength(BUFFER, 5, PLANE, 1, 4, fs); }
    else if opcode == 0x08 { CountedLength(PRESENT, 5, RECT, 0, MAX_DAMAGE_RECTS, fs); }
    else { FixedLength(LayoutOf(opcode).value.head, fs); }
  }

  lemma FewDescriptors(m: AndroidMessage)
    requires Valid(m)
    ensures |Kinds(m)| <= 4
  {
  }

  /** Every valid message encodes into one bounded packet, and only valid ones do. The
      packet decodes to the same message with the same descriptor roles, and a decoder
      that does not know its opcode, such as the one for the other direction, says so. */
  lemma RoundTrip(m: AndroidMessage, other: Table)
    requires other(Opcode(m)).None?
    ensures Encode(m).Ok? <==> Valid(m)
    ensures Encode(m).Ok? ==>
      var e := Encode(m).value;
      && |e.bytes| <= MAX_PACKET_BYTES && e.descriptors == Kinds(m)
      && Decode(e.bytes, |e.descriptors|) == Ok(Decoded(m, e.descriptors))
      && DecodeRecord(other, e.bytes, |e.descriptors|) == Err(UnknownOpcode(Opcode(m)))
  {
    if Valid(m) {
      Writes(m);
      RecordsAreSmall(Opcode(m), Fields(m));
      FewDescriptors(m);
      HeadFits(RecordOf(m));
      hide Shaped, Put, Fields, Kinds, Valid, Spelled, LayoutOf, DecodeRecord, Assemble, Opcode;
      RecordRoundTrip(LayoutOf, other, RecordOf(m), Kinds(m));
    }
  }

  lemma HeadFits(r: Record)
    requires LayoutOf(r.opcode).Some? && Shaped(LayoutOf(r.opcode).value, r.fields)
    ensures |LayoutOf(r.opcode).value.head| <= |r.fields|
  {
    hide LayoutOf;
  }

  /** A packet that decodes is the encoding of what it decodes to, except for the two bytes
      of the minor version: the decoder is injective up to that version. */
  lemma Canonical(packet: Bytes, received: nat)
    requires Decode(packet, received).Ok?
    ensures var d := Decode(packet, received).value;
      && Encode(d.message).Ok? && Encode(d.message).value.descriptors == d.descriptors && |d.descriptors| == received
      && SameButMinor(Encode(d.message).value.bytes, packet)
  {
    var r, m := DecodeRecord(LayoutOf, packet, received).value, Decode(packet, received).value.message;
    hide Shaped, Put, Fields, Kinds, Valid, LayoutOf, DecodeRecord, EncodeRecord, Opcode, SameButMinor;
    RecordIsCanonical(LayoutOf, packet, received, Kinds(m));
    Reads(r);
    assert RecordOf(m) == r;
  }

  /** Two packets that decode to the same message differ only in their minor version. */
  lemma DecodeIsInjective(p: Bytes, q: Bytes, n: nat)
    requires Decode(p, n).Ok? && Decode(q, n) == Decode(p, n)
    ensures SameButMinor(p, q)
  {
    hide Decode, Encode;
    Canonical(p, n);
    Canonical(q, n);
  }
}
