/** Denial-to-Android messages: encoder, decoder, and their exact agreement. Enumerations
    and booleans are carried as their discriminants. */
module DenialCodec {
  import opened Base
  import opened Dmabuf
  import opened Wire
  import opened Packet
  import opened Text
  import A = AndroidCodec
  import HostTask

  const MAX_ERROR_BYTES := 1024
  const MAX_FORMATS := 256
  const MAX_TASK_OBJECTS := 4096
  const MAX_BUFFERS_PER_TASK := 256
  const MAX_DAMAGE_RECTS := 256

  type i32 = x: int | -0x8000_0000 <= x <= I32_MAX

  datatype InputEvent =
    | Touch(action: u8, pointer: u32, x: i32, y: i32, pressure: u16)
    | Key(action: u8, keycode: u32, repeated: u16)
    | Navigation(action: u8)

  datatype DenialMessage =
    | RequestInputChannel(generation: u64)
    | ServerHello(major: u16, minor: u16, capabilities: u64, taskObjects: u32, buffersPerTask: u32, damageRects: u32)
    | DisplayPower(powered: u8)
    | FormatFeedback(objectId: u64, feedback: u32, formats: seq<Format>)
    | RegisterRenderTarget(objectId: u64, serial: u32, buffer: Buffer)
    | UnregisterRenderTarget(objectId: u64, bufferId: u64)
    | Configure(objectId: u64, serial: u32, width: u32, height: u32, scaleNumerator: u32, scaleDenominator: u32,
                transform: u8, refreshMillihz: u32)
    | Insets(objectId: u64, left: u32, top: u32, right: u32, bottom: u32)
    | Visibility(objectId: u64, visibility: u8, focused: u8)
    | Close(objectId: u64)
    | BufferReleased(objectId: u64, frame: u64, bufferId: u64, releasePoint: u64)
    | Presented(objectId: u64, frame: u64, timestamp: u64, period: u64, sequence: u64, flags: u32)
    | ScenePresented(objectId: u64, scene: u64, timestamp: u64, period: u64, sequence: u64)
    | Input(objectId: u64, inputSerial: u64, timestamp: u64, event: InputEvent)
    | Error(about: Option<u64>, code: u16, offending: u16, text: Bytes)
    | Ping(cookie: u64)
    | FrameGrant(latch: u64, target: u64, period: u64)

  predicate Bit(word: u64, bit: nat) { (word / Power2(bit)) % 2 == 1 }

  function Power2(n: nat): (p: nat)
    ensures p > 0
  {
    if n == 0 then 1 else 2 * Power2(n - 1)
  }

  /** The capabilities every version 1 peer must have: bits 0 to 4, 6, 7 and 9. */
  predicate RequiredCapabilities(word: u64) {
    Bit(word, 0) && Bit(word, 1) && Bit(word, 2) && Bit(word, 3) && Bit(word, 4) && Bit(word, 6) && Bit(word, 7) && Bit(word, 9)
  }

  predicate ValidEvent(e: InputEvent) {
    match e
    case Touch(action, _, _, _, _) => action <= 3
    case Key(action, _, _) => action <= 1
    case Navigation(action) => action <= 2
  }

  predicate ValidFormats(formats: seq<Format>) {
    0 < |formats| <= MAX_FORMATS && forall i :: 0 <= i < |formats| ==> formats[i].modifier != A.MAX_MODIFIER
  }

  /** What the encoder demands of a message. */
  predicate Valid(m: DenialMessage) {
    match m
    case RequestInputChannel(generation) => generation != 0
    case ServerHello(major, minor, capabilities, objects, buffers, rects) =>
      && major == PROTOCOL_MAJOR && minor <= PROTOCOL_MINOR && RequiredCapabilities(capabilities)
      && 0 < objects <= MAX_TASK_OBJECTS && 0 < buffers <= MAX_BUFFERS_PER_TASK && 0 < rects <= MAX_DAMAGE_RECTS
    case DisplayPower(powered) => powered <= 1
    case FormatFeedback(o, generation, formats) => o != 0 && generation != 0 && ValidFormats(formats)
    case RegisterRenderTarget(o, serial, b) => o != 0 && serial != 0 && A.ValidBuffer(b)
    case UnregisterRenderTarget(o, b) => o != 0 && b != 0
    case Configure(o, serial, width, height, numerator, denominator, transform, refresh) =>
      o != 0 && HostTask.ConfigureBounds(serial, width, height, refresh) && numerator != 0 && denominator != 0 && transform <= 3
    case Insets(o, _, _, _, _) => o != 0
    case Visibility(o, visibility, focused) => o != 0 && visibility <= 2 && focused <= 1
    case Close(o) => o != 0
    case BufferReleased(o, frame, b, point) => o != 0 && frame != 0 && b != 0 && point != 0
    case Presented(o, frame, _, period, _, flags) => o != 0 && frame != 0 && period != 0 && flags <= 7
    case ScenePresented(o, scene, timestamp, period, _) => o != 0 && scene != 0 && timestamp != 0 && period != 0
    case Input(o, serial, _, event) => o != 0 && serial != 0 && ValidEvent(event)
    case Error(about, code, _, text) => about != Some(0) && 1 <= code <= 8 && |text| <= MAX_ERROR_BYTES && Utf8(text)
    case Ping(_) => true
    case FrameGrant(latch, target, period) => latch != 0 && period != 0 && target > latch
  }

  function Opcode(m: DenialMessage): u16 {
    match m
    case ServerHello(_, _, _, _, _, _) => 0x8001
    case FormatFeedback(_, _, _) => 0x8002
    case Configure(_, _, _, _, _, _, _, _) => 0x8003
    case Insets(_, _, _, _, _) => 0x8004
    case Visibility(_, _, _) => 0x8005
    case Close(_) => 0x8006
    case BufferReleased(_, _, _, _) => 0x8007
    case Presented(_, _, _, _, _, _) => 0x8008
    case Input(_, _, _, _) => 0x8009
    case Error(_, _, _, _) => 0x800a
    case Ping(_) => 0x800b
    case RegisterRenderTarget(_, _, _) => 0x800c
    case UnregisterRenderTarget(_, _) => 0x800d
    case DisplayPower(_) => 0x800e
    case RequestInputChannel(_) => 0x800f
    case ScenePresented(_, _, _, _, _) => 0x8010
    case FrameGrant(_, _, _) => 0x8011
  }

  function ObjectOf(m: DenialMessage): u64 {
    match m
    case RequestInputChannel(_) => 0
    case ServerHello(_, _, _, _, _, _) => 0
    case DisplayPower(_) => 0
    case Ping(_) => 0
    case FrameGrant(_, _, _) => 0
    case Error(about, _, _, _) => if about.Some? then about.value else 0
    case _ => m.objectId
  }

  function Kinds(m: DenialMessage): seq<DescriptorKind> {
    if m.RegisterRenderTarget? then seq(|m.buffer.planes|, i => DmabufPlane) else []
  }

  function WriteFormat(f: Format): seq<Field> { [U32(f.fourcc), U64(f.modifier)] }

  function ReadFormat(fs: seq<Field>): Format {
    if |fs| == 2 then Format(V32(fs[0]), V64(fs[1])) else Format(0, 0)
  }

  /** Two's complement in 32 bits. */
  function Unsigned(x: i32): u32 { if x < 0 then x + U32_LIMIT else x }

  function Signed(x: u32): i32 { if x > I32_MAX then x - U32_LIMIT else x }

  function V8(f: Field): u8 { if f.value < 256 then f.value else 0 }

  function WriteEvent(e: InputEvent): seq<Field> {
    match e
    case Touch(action, pointer, x, y, pressure) => [U8(0), U8(action), U32(pointer), U32(Unsigned(x)), U32(Unsigned(y)), U16(pressure)]
    case Key(action, keycode, repeated) => [U8(1), U8(action), U32(keycode), U16(repeated)]
    case Navigation(action) => [U8(2), U8(action)]
  }

  function EventTail(tag: nat): Option<seq<nat>> {
    if tag == 0 then Some([1, 4, 4, 4, 2]) else if tag == 1 then Some([1, 4, 2]) else if tag == 2 then Some([1]) else None
  }

  function ReadEvent(fs: seq<Field>): InputEvent {
    if |fs| == 6 then Touch(V8(fs[1]), V32(fs[2]), Signed(V32(fs[3])), Signed(V32(fs[4])), V16(fs[5]))
    else if |fs| == 4 then Key(V8(fs[1]), V32(fs[2]), V16(fs[3]))
    else if |fs| == 2 then Navigation(V8(fs[1]))
    else Navigation(0)
  }

  function Fields(m: DenialMessage): seq<Field> {
    match m
    case RequestInputChannel(generation) => [U64(generation)]
    case ServerHello(major, minor, capabilities, objects, buffers, rects) =>
      [U16(major), U16(minor), U64(capabilities), U32(objects), U32(buffers), U32(rects)]
    case DisplayPower(powered) => [U8(powered)]
    case FormatFeedback(_, generation, formats) => [U32(generation), U16(|formats|)] + Flat(WriteFormat, formats)
    case RegisterRenderTarget(_, serial, b) => [U32(serial)] + A.WriteBuffer(b)
    case UnregisterRenderTarget(_, b) => [U64(b)]
    case Configure(_, serial, width, height, numerator, denominator, transform, refresh) =>
      [U32(serial), U32(width), U32(height), U32(numerator), U32(denominator), U8(transform), U32(refresh)]
    case Insets(_, left, top, right, bottom) => [U32(left), U32(top), U32(right), U32(bottom)]
    case Visibility(_, visibility, focused) => [U8(visibility), U8(focused)]
    case Close(_) => []
    case BufferReleased(_, frame, b, point) => [U64(frame), U64(b), U64(point)]
    case Presented(_, frame, timestamp, period, sequence, flags) => [U64(frame), U64(timestamp), U64(period), U64(sequence), U32(flags)]
    case ScenePresented(_, scene, timestamp, period, sequence) => [U64(scene), U64(timestamp), U64(period), U64(sequence)]
    case Input(_, serial, timestamp, event) => [U64(serial), U64(timestamp)] + WriteEvent(event)
    case Error(_, code, offending, text) => [U16(code), U16(offending), U16(|text|)] + Flat(WriteByte, text)
    case Ping(cookie) => [U64(cookie)]
    case FrameGrant(latch, target, period) => [U64(latch), U64(target), U64(period)]
  }

  const FORMAT: seq<nat> := [4, 8]
  const TARGET: seq<nat> := [4, 8, 4, 4, 4, 8, 1]

  function InputLayout(): Layout {
    Layout([8, 8, 1], (fs: seq<Field>) => if |fs| == 3 then EventTail(fs[2].value) else None)
  }

  function LayoutOf(opcode: u16): Option<Layout> {
    match opcode
    case 0x8001 => Some(Fixed([2, 2, 8, 4, 4, 4]))
    case 0x8002 => Some(Counted([4, 2], 1, FORMAT, 1, MAX_FORMATS))
    case 0x8003 => Some(Fixed([4, 4, 4, 4, 4, 1, 4]))
    case 0x8004 => Some(Fixed([4, 4, 4, 4]))
    case 0x8005 => Some(Fixed([1, 1]))
    case 0x8006 => Some(Fixed([]))
    case 0x8007 => Some(Fixed([8, 8, 8]))
    case 0x8008 => Some(Fixed([8, 8, 8, 8, 4]))
    case 0x8009 => Some(InputLayout())
    case 0x800a => Some(Counted([2, 2, 2], 2, [1], 0, MAX_ERROR_BYTES))
    case 0x800b => Some(Fixed([8]))
    case 0x800c => Some(Counted(TARGET, 6, A.PLANE, 1, 4))
    case 0x800d => Some(Fixed([8]))
    case 0x800e => Some(Fixed([1]))
    case 0x800f => Some(Fixed([8]))
    case 0x8010 => Some(Fixed([8, 8, 8, 8]))
    case 0x8011 => Some(Fixed([8, 8, 8]))
    case _ => None
  }

  /** The message a parsed record spells, before its typed checks. */
  function Spelled(r: Record): DenialMessage
    requires LayoutOf(r.opcode).Some? && |LayoutOf(r.opcode).value.head| <= |r.fields|
  {
    var o, f := r.objectId, r.fields;
    match r.opcode
    case 0x8001 => ServerHello(V16(f[0]), V16(f[1]), V64(f[2]), V32(f[3]), V32(f[4]), V32(f[5]))
    case 0x8002 => FormatFeedback(o, V32(f[0]), Group(ReadFormat, 2, f[2..]))
    case 0x8003 => Configure(o, V32(f[0]), V32(f[1]), V32(f[2]), V32(f[3]), V32(f[4]), V8(f[5]), V32(f[6]))
    case 0x8004 => Insets(o, V32(f[0]), V32(f[1]), V32(f[2]), V32(f[3]))
    case 0x8005 => Visibility(o, V8(f[0]), V8(f[1]))
    case 0x8006 => Close(o)
    case 0x8007 => BufferReleased(o, V64(f[0]), V64(f[1]), V64(f[2]))
    case 0x8008 => Presented(o, V64(f[0]), V64(f[1]), V64(f[2]), V64(f[3]), V32(f[4]))
    case 0x8009 => Input(o, V64(f[0]), V64(f[1]), ReadEvent(f[2..]))
    case 0x800a => Error(if o == 0 then None else Some(o), V16(f[0]), V16(f[1]), Group(ReadByte, 1, f[3..]))
    case 0x800b => Ping(V64(f[0]))
    case 0x800c => RegisterRenderTarget(o, V32(f[0]), A.ReadBuffer(f[1..]))
    case 0x800d => UnregisterRenderTarget(o, V64(f[0]))
    case 0x800e => DisplayPower(V8(f[0]))
    case 0x800f => RequestInputChannel(V64(f[0]))
    case 0x8010 => ScenePresented(o, V64(f[0]), V64(f[1]), V64(f[2]), V64(f[3]))
    case 0x8011 => FrameGrant(V64(f[0]), V64(f[1]), V64(f[2]))
  }

  function Encode(m: DenialMessage): Result<Encoded, WireError> {
    if !Valid(m) then Err(Malformed)
    else EncodeRecord(Record(Opcode(m), ObjectOf(m), Fields(m)), Kinds(m))
  }

  function Decode(packet: Bytes, received: nat): Result<Decoded<DenialMessage>, WireError> {
    var record := DecodeRecord(LayoutOf, packet, received);
    if record.Err? then Err(record.error)
    else if LayoutOf(record.value.opcode).None? || |LayoutOf(record.value.opcode).value.head| > |record.value.fields| then Err(Malformed)
    else
      var m := Spelled(record.value);
      if !Valid(m) || ObjectOf(m) != record.value.objectId then Err(Malformed)
      else if |Kinds(m)| != received then Err(DescriptorCount(|Kinds(m)|, received))
      else Ok(Decoded(m, Kinds(m)))
  }

  // ------------------------------------------------------------------------------------
  // Messages and records

  lemma FormatsCoded()
    ensures Coded(WriteFormat, ReadFormat, FORMAT)
  {
    Wire.Widths();
    hide Pow256;
    forall f: Format | true ensures WidthsOf(WriteFormat(f)) == FORMAT && AllFit(WriteFormat(f)) && ReadFormat(WriteFormat(f)) == f {
      assert WidthsOf(WriteFormat(f)) == FORMAT;
    }
    forall fs: seq<Field> | WidthsOf(fs) == FORMAT && AllFit(fs) ensures WriteFormat(ReadFormat(fs)) == fs {
      FieldsAreTyped(fs, FORMAT);
    }
  }

  predicate IsFixed(opcode: u16) { opcode !in {0x8002, 0x8009, 0x800a, 0x800c} }

  function RecordOf(m: DenialMessage): Record { Record(Opcode(m), ObjectOf(m), Fields(m)) }

  lemma FixedFields(m: DenialMessage)
    requires IsFixed(Opcode(m))
    ensures LayoutOf(Opcode(m)).Some? && WidthsOf(Fields(m)) == LayoutOf(Opcode(m)).value.head && AllFit(Fields(m))
  {
    Wire.Widths();
    hide Pow256;
    assert WidthsOf(Fields(m)) == LayoutOf(Opcode(m)).value.head;
  }

  lemma FixedSpells(m: DenialMessage)
    requires IsFixed(Opcode(m)) && LayoutOf(Opcode(m)).Some? && |LayoutOf(Opcode(m)).value.head| <= |Fields(m)|
    ensures Spelled(RecordOf(m)) == m
  {
  }

  lemma FixedWrites(m: DenialMessage)
    requires IsFixed(Opcode(m))
    ensures LayoutOf(Opcode(m)).Some? && Shaped(LayoutOf(Opcode(m)).value, Fields(m))
    ensures Spelled(RecordOf(m)) == m
  {
    FixedFields(m);
    FixedSpells(m);
    var head := LayoutOf(Opcode(m)).value.head;
    FixedShape(head, Fields(m));
    hide Shaped, Fields, WidthsOf, Spelled;
  }

  lemma FixedReads(r: Record)
    requires LayoutOf(r.opcode).Some? && IsFixed(r.opcode) && Shaped(LayoutOf(r.opcode).value, r.fields)
    ensures var m := Spelled(r); Opcode(m) == r.opcode && Fields(m) == r.fields
  {
    Wire.Widths();
    var head := LayoutOf(r.opcode).value.head;
    FixedShape(head, r.fields);
    FieldsAreTyped(r.fields, head);
    hide Pow256, Shaped, WidthsOf;
  }

  lemma FormatsWrite(m: DenialMessage)
    requires m.FormatFeedback? && Valid(m)
    ensures Shaped(Counted([4, 2], 1, FORMAT, 1, MAX_FORMATS), Fields(m)) && Group(ReadFormat, 2, Fields(m)[2..]) == m.formats
  {
    Wire.Widths();
    FormatsCoded();
    var front := [U32(m.feedback), U16(|m.formats|)];
    hide Pow256, Shaped, Flat, Group, Coded, Counted;
    assert WidthsOf(front) == [4, 2];
    CountedWrites([4, 2], 1, FORMAT, 1, MAX_FORMATS, WriteFormat, ReadFormat, front, m.formats);
  }

  lemma FormatsRead(f: seq<Field>)
    requires Shaped(Counted([4, 2], 1, FORMAT, 1, MAX_FORMATS), f)
    ensures |f| >= 2 && var formats := Group(ReadFormat, 2, f[2..]); f == [U32(V32(f[0])), U16(|formats|)] + Flat(WriteFormat, formats)
  {
    FormatsCoded();
    Wire.Widths();
    hide Pow256, Shaped, Flat, Group, Coded, Counted, WidthsOf;
    CountedReads([4, 2], 1, FORMAT, 1, MAX_FORMATS, WriteFormat, ReadFormat, f);
    FieldsAreTyped(f[..2], [4, 2]);
    assert f[..2] == [U32(V32(f[0])), U16(f[1].value)];
  }

  lemma TextWrites(m: DenialMessage)
    requires m.Error? && |m.text| <= MAX_ERROR_BYTES
    ensures Shaped(Counted([2, 2, 2], 2, [1], 0, MAX_ERROR_BYTES), Fields(m)) && Group(ReadByte, 1, Fields(m)[3..]) == m.text
  {
    Wire.Widths();
    BytesCoded();
    var front := [U16(m.code), U16(m.offending), U16(|m.text|)];
    hide Pow256, Shaped, Flat, Group, Coded, Counted, Utf8;
    assert WidthsOf(front) == [2, 2, 2];
    CountedWrites([2, 2, 2], 2, [1], 0, MAX_ERROR_BYTES, WriteByte, ReadByte, front, m.text);
  }

  lemma TextReads(f: seq<Field>)
    requires Shaped(Counted([2, 2, 2], 2, [1], 0, MAX_ERROR_BYTES), f)
    ensures |f| >= 3
    ensures var text := Group(ReadByte, 1, f[3..]); f == [U16(V16(f[0])), U16(V16(f[1])), U16(|text|)] + Flat(WriteByte, text)
  {
    BytesCoded();
    Wire.Widths();
    hide Pow256, Shaped, Flat, Group, Coded, Counted, WidthsOf;
    CountedReads([2, 2, 2], 2, [1], 0, MAX_ERROR_BYTES, WriteByte, ReadByte, f);
    FieldsAreTyped(f[..3], [2, 2, 2]);
    assert f[..3] == [U16(V16(f[0])), U16(V16(f[1])), U16(f[2].value)];
  }

  function TargetFront(serial: u32, b: Buffer): seq<Field> {
    [U32(serial), U64(b.id), U32(b.width), U32(b.height), U32(b.format.fourcc), U64(b.format.modifier), U8(|b.planes|)]
  }

  lemma TargetHead(serial: u32, b: Buffer)
    requires A.ValidBuffer(b)
    ensures WidthsOf(TargetFront(serial, b)) == TARGET && AllFit(TargetFront(serial, b))
    ensures [U32(serial)] + A.WriteBuffer(b) == TargetFront(serial, b) + Flat(A.WritePlane, b.planes)
  {
    Wire.Widths();
    hide Pow256, Flat;
    assert WidthsOf(TargetFront(serial, b)) == TARGET;
  }

  lemma TargetWrites(serial: u32, b: Buffer)
    requires A.ValidBuffer(b)
    ensures var f := [U32(serial)] + A.WriteBuffer(b);
      Shaped(Counted(TARGET, 6, A.PLANE, 1, 4), f) && A.ReadBuffer(f[1..]) == b
  {
    hide Pow256, Shaped, Flat, Group, Coded, Counted, A.ReadBuffer, A.WriteBuffer, WidthsOf, AllFit;
    A.PlanesCoded();
    A.BufferWrites(b);
    TargetHead(serial, b);
    var f := [U32(serial)] + A.WriteBuffer(b);
    CountedWrites(TARGET, 6, A.PLANE, 1, 4, A.WritePlane, A.ReadPlane, TargetFront(serial, b), b.planes);
    assert f[1..] == A.WriteBuffer(b);
  }

  lemma TargetReads(f: seq<Field>)
    requires Shaped(Counted(TARGET, 6, A.PLANE, 1, 4), f)
    ensures |f| >= 7 && f == [U32(V32(f[0]))] + A.WriteBuffer(A.ReadBuffer(f[1..]))
  {
    A.PlanesCoded();
    Wire.Widths();
    hide Pow256, Shaped, Flat, Group, Coded, Counted, WidthsOf;
    CountedReads(TARGET, 6, A.PLANE, 1, 4, A.WritePlane, A.ReadPlane, f);
    FieldsAreTyped(f[..7], TARGET);
    var g := f[1..];
    assert g[6..] == f[7..];
    assert f[..7] == [U32(V32(f[0])), U64(V64(g[0])), U32(V32(g[1])), U32(V32(g[2])), U32(V32(g[3])), U64(V64(g[4])), U8(f[6].value)];
  }

  lemma EventShape(front: seq<Field>, tail: seq<Field>)
    requires |front| == 3
    ensures Shaped(InputLayout(), front + tail) <==>
              WidthsOf(front) == [8, 8, 1] && AllFit(front) && AllFit(tail) && EventTail(front[2].value) == Some(WidthsOf(tail))
  {
    var fs := front + tail;
    assert fs[..3] == front && fs[3..] == tail;
    if AllFit(fs) {
      forall i | 0 <= i < |front| ensures front[i].Fits() { assert fs[i] == front[i]; }
      forall i | 0 <= i < |tail| ensures tail[i].Fits() { assert fs[3 + i] == tail[i]; }
    }
  }

  lemma EventWrites(serial: u64, timestamp: u64, e: InputEvent)
    ensures var f := [U64(serial), U64(timestamp)] + WriteEvent(e);
      Shaped(InputLayout(), f) && |f| >= 3 && ReadEvent(f[2..]) == e
  {
    Wire.Widths();
    var w := WriteEvent(e);
    var front, tail := [U64(serial), U64(timestamp), w[0]], w[1..];
    EventShape(front, tail);
    hide Pow256, Shaped, InputLayout;
    assert WidthsOf(front) == [8, 8, 1];
    match e {
      case Touch(_, _, _, _, _) => assert WidthsOf(tail) == [1, 4, 4, 4, 2];
      case Key(_, _, _) => assert WidthsOf(tail) == [1, 4, 2];
      case Navigation(_) => assert WidthsOf(tail) == [1];
    }
    var f := [U64(serial), U64(timestamp)] + w;
    assert f == front + tail && f[2..] == w;
  }

  lemma EventReads(f: seq<Field>)
    requires Shaped(InputLayout(), f)
    ensures |f| >= 3 && f == [U64(V64(f[0])), U64(V64(f[1]))] + WriteEvent(ReadEvent(f[2..]))
  {
    var front, tail := f[..3], f[3..];
    assert f == front + tail;
    EventShape(front, tail);
    FieldsAreTyped(front, [8, 8, 1]);
    FieldsAreTyped(tail, EventTail(front[2].value).value);
    Wire.Widths();
    hide Pow256, Shaped, WidthsOf, InputLayout;
    assert f[2..] == [f[2]] + tail;
  }

  /** A valid message has the layout of its opcode and is spelled back by it. */
  lemma Writes(m: DenialMessage)
    requires Valid(m)
    ensures LayoutOf(Opcode(m)).Some? && Shaped(LayoutOf(Opcode(m)).value, Fields(m)) && Spelled(RecordOf(m)) == m
  {
    hide Shaped, A.ValidBuffer, ValidFormats, Utf8, RequiredCapabilities, Flat, Group, Counted, A.ReadBuffer, A.WriteBuffer, InputLayout, ReadEvent, WriteEvent;
    match m
    case FormatFeedback(_, _, _) => FormatsWrite(m);
    case RegisterRenderTarget(_, serial, b) => TargetWrites(serial, b);
    case Input(_, serial, timestamp, event) => EventWrites(serial, timestamp, event);
    case Error(_, _, _, _) => TextWrites(m);
    case _ => FixedWrites(m);
  }

  /** Whatever a record of a known layout spells writes that record again. */
  lemma Reads(r: Record)
    requires LayoutOf(r.opcode).Some? && Shaped(LayoutOf(r.opcode).value, r.fields)
    ensures var m := Spelled(r); Opcode(m) == r.opcode && Fields(m) == r.fields
  {
    hide Shaped, Flat, Group, Counted, A.ReadBuffer, A.WriteBuffer, InputLayout, ReadEvent, WriteEvent;
    if r.opcode == 0x8002 { FormatsRead(r.fields); }
    else if r.opcode == 0x8009 { EventReads(r.fields); }
    else if r.opcode == 0x800a { TextReads(r.fields); }
    else if r.opcode == 0x800c { TargetReads(r.fields); }
    else { FixedReads(r); }
  }

  lemma InputIsSmall(fs: seq<Field>)
    requires Shaped(InputLayout(), fs)
    ensures |Put(fs)| <= 10_000
  {
    var front, tail := fs[..3], fs[3..];
    assert fs == front + tail;
    EventShape(front, tail);
    hide Put, Sum, Shaped, WidthsOf, InputLayout;
    PutConcat(front, tail);
    PutLength(front);
    PutLength(tail);
    SumBound([8, 8, 1]);
    SumBound(EventTail(front[2].value).value);
  }

  /** Every record of a known layout is far below the packet bound. */
  lemma RecordsAreSmall(opcode: u16, fs: seq<Field>)
    requires LayoutOf(opcode).Some? && Shaped(LayoutOf(opcode).value, fs)
    ensures |Put(fs)| <= 10_000
  {
    hide Put, Shaped, InputLayout;
    if opcode == 0x8002 { CountedLength([4, 2], 1, FORMAT, 1, MAX_FORMATS, fs); }
    else if opcode == 0x8009 { InputIsSmall(fs); }
    else if opcode == 0x800a { CountedLength([2, 2, 2], 2, [1], 0, MAX_ERROR_BYTES, fs); }
    else if opcode == 0x800c { CountedLength(TARGET, 6, A.PLANE, 1, 4, fs); }
    else { FixedLength(LayoutOf(opcode).value.head, fs); }
  }

  lemma FewDescriptors(m: DenialMessage)
    requires Valid(m)
    ensures |Kinds(m)| <= 4
  {
  }

  lemma HeadFits(r: Record)
    requires LayoutOf(r.opcode).Some? && Shaped(LayoutOf(r.opcode).value, r.fields)
    ensures |LayoutOf(r.opcode).value.head| <= |r.fields|
  {
    hide LayoutOf;
  }

  lemma ForeignOpcode(m: DenialMessage)
    ensures A.LayoutOf(Opcode(m)).None?
  {
  }

  lemma ForeignToAndroid(m: A.AndroidMessage)
    ensures LayoutOf(A.Opcode(m)).None?
  {
  }

  lemma RoundTrip(m: DenialMessage)
    ensures Encode(m).Ok? <==> Valid(m)
    ensures Encode(m).Ok? ==>
      var e := Encode(m).value;
      && |e.bytes| <= MAX_PACKET_BYTES && e.descriptors == Kinds(m)
      && Decode(e.bytes, |e.descriptors|) == Ok(Decoded(m, e.descriptors))
      && A.Decode(e.bytes, |e.descriptors|) == Err(UnknownOpcode(Opcode(m)))
  {
    ForeignOpcode(m);
    hide A.Opcode, A.Fields, A.Valid;
    if Valid(m) {
      Writes(m);
      RecordsAreSmall(Opcode(m), Fields(m));
      FewDescriptors(m);
      HeadFits(RecordOf(m));
      hide Shaped, Put, Fields, Kinds, Valid, Spelled, LayoutOf, DecodeRecord, Assemble, Opcode, A.LayoutOf, A.Spelled, A.Valid, A.Kinds;
      RecordRoundTrip(LayoutOf, A.LayoutOf, RecordOf(m), Kinds(m));
    }
  }

  lemma Canonical(packet: Bytes, received: nat)
    requires Decode(packet, received).Ok?
    ensures var d := Decode(packet, received).value;
      && Encode(d.message).Ok? && Encode(d.message).value.descriptors == d.descriptors && |d.descriptors| == received
      && SameButMinor(Encode(d.message).value.bytes, packet)
  {
    var r, m := DecodeRecord(LayoutOf, packet, received).value, Decode(packet, received).value.message;
    hide Shaped, Put, Fields, Kinds, Valid, LayoutOf, DecodeRecord, EncodeRecord, Opcode, SameButMinor;
    RecordIsCanonical(LayoutOf, packet, received, Kinds(m));
    Reads(r);
    assert RecordOf(m) == r;
  }

  /** The wrong direction is always recognised: an Android packet never decodes here. */
  lemma AndroidIsForeign(m: A.AndroidMessage)
    requires A.Encode(m).Ok?
    ensures Decode(A.Encode(m).value.bytes, |A.Encode(m).value.descriptors|) == Err(UnknownOpcode(A.Opcode(m)))
  {
    ForeignToAndroid(m);
    hide A.Encode, A.Decode, LayoutOf, DecodeRecord, A.Opcode;
    A.RoundTrip(m, LayoutOf);
  }

  /** Two packets that decode to the same message differ only in their minor version. */
  lemma DecodeIsInjective(p: Bytes, q: Bytes, n: nat)
    requires Decode(p, n).Ok? && Decode(q, n) == Decode(p, n)
    ensures SameButMinor(p, q)
  {
    hide Decode, Encode;
    Canonical(p, n);
    Canonical(q, n);
  }
}
