/** What can be put on the wire at all, message by message, and where the bytes of a frame lie. */
module CodecBounds {
  import opened Base
  import opened Dmabuf
  import opened Wire
  import opened Packet
  import Text
  import A = AndroidCodec
  import D = DenialCodec
  import C = ControlCodec

  /** An allocation both sides can name and import: planes in order, each with a stride. */
  predicate Importable(b: Buffer) {
    && b.id != 0 && b.format.modifier != 0xFFFF_FFFF_FFFF_FFFF
    && b.width != 0 && b.width <= 16384 && b.height != 0 && b.height <= 16384
    && 0 < |b.planes| && |b.planes| <= 4 && forall i :: 0 <= i < |b.planes| ==> b.planes[i].index == i && b.planes[i].stride > 0
  }

  // ------------------------------------------------------------------------------------
  // Android to Denial

  /** The identities, serials, generations and points a message names. */
  function Named(m: A.AndroidMessage): seq<nat> {
    match m
    case RequestRenderTargets(o, serial) => [o, serial]
    case BindInputChannel(generation, wire) => [generation, wire]
    case BindInputRoute(o, _, incarnation) => [o, incarnation]
    case ClientHello(lo, hi, _) => [lo, hi]
    case CreateTask(o, display, _) => [o, display]
    case BindTask(o, task) => [o, task]
    case AckConfigure(o, serial) => [o, serial]
    case RegisterBuffer(o, b) => [o, b.id]
    case UnregisterBuffer(o, b) => [o, b]
    case Present(o, frame, b, serial, acquire, release, _) => [o, frame, b, serial, acquire, release]
    case Pong(_) => []
    case _ => [m.objectId]
  }

  /** What else a message may say. */
  predicate Says(m: A.AndroidMessage) {
    && (m.BindInputRoute? ==> m.route <= I32_MAX && m.incarnation <= I64_MAX)
    && (m.ClientHello? ==> m.minMajor <= m.maxMajor)
    && (m.CreateTask? ==> Text.ValidPackage(m.package))
    && (m.RegisterBuffer? ==> Importable(m.buffer))
    && (m.Present? ==> |m.damage| <= 256 && forall i :: 0 <= i < |m.damage| ==>
          m.damage[i].width > 0 && m.damage[i].height > 0
          && m.damage[i].x + m.damage[i].width <= 0xFFFF_FFFF && m.damage[i].y + m.damage[i].height <= 0xFFFF_FFFF)
    && (m.SetContentState? ==> m.flags < 8)
    && (m.SetFrameRate? ==> m.millihz <= 1_000_000)
  }

  /** A message can be sent exactly if nothing it names is zero and what it says is in bounds. It
      then carries: one descriptor per plane, the acquire timeline before the release timeline,
      the two ends of a layer stream, an input channel, or nothing. */
  lemma AndroidSendsExactly(m: A.AndroidMessage)
    ensures A.Encode(m).Ok? <==> 0 !in Named(m) && Says(m)
    ensures A.Encode(m).Ok? ==>
      var kinds := A.Encode(m).value.descriptors;
      match m
      case RegisterBuffer(_, b) => |kinds| == |b.planes| && forall i :: 0 <= i < |kinds| ==> kinds[i] == DmabufPlane
      case BindTimelines(_) => |kinds| == 2 && kinds[0] == AcquireTimeline && kinds[1] == ReleaseTimeline
      case BindLayerStream(_) => |kinds| == 2 && kinds[0] == LayerStream == kinds[1]
      case BindInputChannel(_, _) => |kinds| == 1 && kinds[0] == InputChannel
      case _ => kinds == []
  {
    A.RoundTrip(m, NoTable);
    AndroidValid(m);
    hide A.Encode, A.Valid, Says, Text.ValidPackage;
  }

  function NoTable(opcode: u16): Option<Layout> { None }

  lemma AndroidValid(m: A.AndroidMessage)
    ensures A.Valid(m) <==> 0 !in Named(m) && Says(m)
  {
    hide Text.ValidPackage;
  }

  // ------------------------------------------------------------------------------------
  // Denial to Android

  function NamedBack(m: D.DenialMessage): seq<nat> {
    match m
    case RequestInputChannel(generation) => [generation]
    case ServerHello(_, _, _, objects, buffers, rects) => [objects, buffers, rects]
    case DisplayPower(_) => []
    case FormatFeedback(o, generation, _) => [o, generation]
    case RegisterRenderTarget(o, serial, b) => [o, serial, b.id]
    case UnregisterRenderTarget(o, b) => [o, b]
    case Configure(o, serial, width, height, numerator, denominator, _, refresh) => [o, serial, width, height, numerator, denominator, refresh]
    case BufferReleased(o, frame, b, point) => [o, frame, b, point]
    case Presented(o, frame, _, period, _, _) => [o, frame, period]
    case ScenePresented(o, scene, timestamp, period, _) => [o, scene, timestamp, period]
    case Input(o, serial, _, _) => [o, serial]
    case Error(about, _, _, _) => if about.Some? then [about.value] else []
    case Ping(_) => []
    case FrameGrant(latch, _, period) => [latch, period]
    case _ => [m.objectId]
  }

  predicate SaysBack(m: D.DenialMessage) {
    && (m.ServerHello? ==>
          && m.major == 1 && m.minor <= 9 && D.RequiredCapabilities(m.capabilities)
          && m.taskObjects <= 4096 && m.buffersPerTask <= 256 && m.damageRects <= 256)
    && (m.DisplayPower? ==> m.powered in {0, 1})
    && (m.FormatFeedback? ==> 0 < |m.formats| <= 256 && forall i :: 0 <= i < |m.formats| ==> m.formats[i].modifier != 0xFFFF_FFFF_FFFF_FFFF)
    && (m.RegisterRenderTarget? ==> Importable(m.buffer))
    && (m.Configure? ==> m.width <= 16384 && m.height <= 16384 && m.transform < 4 && m.refreshMillihz <= 1_000_000)
    && (m.Visibility? ==> m.visibility < 3 && m.focused in {0, 1})
    && (m.Presented? ==> m.flags < 8)
    && (m.Input? ==> match m.event case Touch(a, _, _, _, _) => a < 4 case Key(a, _, _) => a < 2 case Navigation(a) => a < 3)
    && (m.Error? ==> 0 < m.code < 9 && |m.text| <= 1024 && Text.Utf8(m.text))
    && (m.FrameGrant? ==> m.latch < m.target)
  }

  lemma DenialSendsExactly(m: D.DenialMessage)
    ensures D.Encode(m).Ok? <==> 0 !in NamedBack(m) && SaysBack(m)
    ensures D.Encode(m).Ok? ==>
      var kinds := D.Encode(m).value.descriptors;
      if m.RegisterRenderTarget? then |kinds| == |m.buffer.planes| && forall i :: 0 <= i < |kinds| ==> kinds[i] == DmabufPlane else kinds == []
  {
    D.RoundTrip(m);
    DenialValid(m);
    hide D.Encode, D.Valid, SaysBack, Text.Utf8;
  }

  lemma DenialValid(m: D.DenialMessage)
    ensures D.Valid(m) <==> 0 !in NamedBack(m) && SaysBack(m)
  {
    hide Text.Utf8, D.RequiredCapabilities;
  }

  /** The least word with every required capability has exactly bits 0 to 4, 6, 7 and 9. */
  lemma LeastCapabilities(word: u64)
    ensures D.RequiredCapabilities(0x2DF)
    ensures D.RequiredCapabilities(word) ==> word >= 0x2DF
  {
    assert D.Power2(0) == 1 && D.Power2(1) == 2 && D.Power2(2) == 4 && D.Power2(3) == 8 && D.Power2(4) == 16;
    assert D.Power2(5) == 32 && D.Power2(6) == 64 && D.Power2(7) == 128 && D.Power2(8) == 256 && D.Power2(9) == 512;
    hide D.Power2;
  }

  // ------------------------------------------------------------------------------------
  // Task control

  function NamedRequest(m: C.ControlRequest): seq<nat> {
    match m
    case Hello(lo, hi) => [lo, hi]
    case Reserve(id, _) => [id]
    case Bind(id, o, task, _) => [id, o, task]
    case Remove(id, o) => [id, o]
    case RegisterDirect(id, _, task, _) => [id, task]
    case PublishDirect(id, _, task, _, _) => [id, task]
    case Subscribe(id) => [id]
    case Acknowledge(id) => [id]
    case PublishFramework(id, _, task, _, incarnation, _) => [id, task, incarnation]
  }

  predicate SaysRequest(m: C.ControlRequest) {
    && (m.Hello? ==> m.minMajor <= m.maxMajor)
    && (m.Reserve? || m.RegisterDirect? || m.PublishDirect? || m.PublishFramework? ==> Text.ValidPackage(m.package))
    && (m.PublishDirect? || m.PublishFramework? ==> m.activate in {0, 1})
    && (m.PublishFramework? ==> m.incarnation <= I64_MAX)
  }

  lemma RequestsExactly(m: C.ControlRequest)
    ensures C.EncodeRequest(m).Ok? <==> 0 !in NamedRequest(m) && SaysRequest(m)
  {
    C.RequestRoundTrip(m);
    RequestValid(m);
    hide C.EncodeRequest, C.ValidRequest, SaysRequest;
  }

  lemma RequestValid(m: C.ControlRequest)
    ensures C.ValidRequest(m) <==> 0 !in NamedRequest(m) && SaysRequest(m)
  {
    hide Text.ValidPackage;
  }

  function NamedResponse(m: C.ControlResponse): seq<nat> {
    match m
    case ServerHello(major, _) => [major]
    case Reserved(id, o, display) => [id, o, display]
    case Bound(id, o, task, display, _) => [id, o, task, display]
    case Removed(id, o) => [id, o]
    case Subscribed(id) => [id]
    case TaskCommand(id, c) => [id, c.objectId, c.task, c.incarnation]
    case Failure(_, code, _) => [code]
  }

  predicate SaysResponse(m: C.ControlResponse) {
    && (m.TaskCommand? ==>
          var c := m.command;
          && m.requestId <= I64_MAX && c.objectId <= I64_MAX && c.incarnation <= I64_MAX && c.task <= I32_MAX && c.display == 0
          && (c.action.Resize? ==> 0 != c.action.width <= 16384 && 0 != c.action.height <= 16384))
    && (m.Failure? ==> m.code < 7 && 1 <= |m.text| <= 1024 && Text.Utf8(m.text))
  }

  lemma RespondsExactly(m: C.ControlResponse)
    ensures C.EncodeResponse(m).Ok? <==> 0 !in NamedResponse(m) && SaysResponse(m)
  {
    C.ResponseRoundTrip(m);
    ResponseValid(m);
    hide C.EncodeResponse, C.ValidResponse, SaysResponse;
  }

  lemma ResponseValid(m: C.ControlResponse)
    ensures C.ValidResponse(m) <==> 0 !in NamedResponse(m) && SaysResponse(m)
  {
    hide Text.Utf8;
  }

  // ------------------------------------------------------------------------------------
  // Where the bytes of a packet lie

  lemma FieldAt(fs: seq<Field>, k: nat)
    requires AllFit(fs) && k < |fs|
    ensures var at := |Put(fs[..k])|;
      at + fs[k].width <= |Put(fs)| && Un(Put(fs)[at..at + fs[k].width]) == fs[k].value && |Put(fs[..k + 1])| == at + fs[k].width
  {
    PutConcat(fs[..k], fs[k..]);
    assert fs == fs[..k] + fs[k..];
    PutConcat(fs[..k], [fs[k]]);
    assert fs[..k + 1] == fs[..k] + [fs[k]];
    assert Put([fs[k]]) == Le(fs[k].width, fs[k].value) + [];
    UnOfLe(fs[k].width, fs[k].value);
    assert fs[k..][0] == fs[k];
    var front, back := Put(fs[..k]), Put(fs[k..][1..]);
    hide Un, Le;
    assert Put(fs) == front + (Le(fs[k].width, fs[k].value) + back);
    hide Put;
    assert Put(fs)[|front|..|front| + fs[k].width] == Le(fs[k].width, fs[k].value);
  }

  function Number(bs: Bytes, at: nat, width: nat): nat
    requires at + width <= |bs|
  {
    Un(bs[at..at + width])
  }

  lemma Shifted(front: Bytes, bs: Bytes, back: Bytes, at: nat, width: nat)
    requires at + width <= |bs|
    ensures Number(front + bs + back, |front| + at, width) == Number(bs, at, width)
  {
    hide Un;
    assert (front + bs + back)[|front| + at..|front| + at + width] == bs[at..at + width];
  }

  /** The header of every packet: version 1 and the minor the opcode needs, the opcode, the
      descriptor count, the object, and the payload length. */
  lemma HeaderOnTheWire(minor: nat, h: Header)
    requires minor <= PROTOCOL_MINOR && |h.payload| <= MAX_PACKET_BYTES
    ensures var p := Assemble(minor, h);
      && |p| == 32 + |h.payload| && p[..4] == MAGIC && p[32..] == h.payload
      && Number(p, 4, 2) == 1 && Number(p, 6, 2) == minor && Number(p, 8, 2) == h.opcode && Number(p, 10, 2) == h.fdCount
      && Number(p, 12, 4) == 0 && Number(p, 16, 8) == h.objectId && Number(p, 24, 4) == |h.payload| && Number(p, 28, 4) == 0
  {
    var bs, p := Put(HeaderFields(minor, h)), Assemble(minor, h);
    HeaderNumbers(minor, h);
    hide Put, Un, Number;
    assert p == MAGIC + bs + h.payload;
    assert p[..4] == MAGIC && p[32..] == h.payload;
    Shifted(MAGIC, bs, h.payload, 0, 2);
    Shifted(MAGIC, bs, h.payload, 2, 2);
    Shifted(MAGIC, bs, h.payload, 4, 2);
    Shifted(MAGIC, bs, h.payload, 6, 2);
    Shifted(MAGIC, bs, h.payload, 8, 4);
    Shifted(MAGIC, bs, h.payload, 12, 8);
    Shifted(MAGIC, bs, h.payload, 20, 4);
    Shifted(MAGIC, bs, h.payload, 24, 4);
  }

  lemma HeaderNumbers(minor: nat, h: Header)
    requires minor <= PROTOCOL_MINOR && |h.payload| <= MAX_PACKET_BYTES
    ensures var bs := Put(HeaderFields(minor, h));
      && |bs| == 28
      && Number(bs, 0, 2) == 1 && Number(bs, 2, 2) == minor && Number(bs, 4, 2) == h.opcode && Number(bs, 6, 2) == h.fdCount
      && Number(bs, 8, 4) == 0 && Number(bs, 12, 8) == h.objectId && Number(bs, 20, 4) == |h.payload| && Number(bs, 24, 4) == 0
  {
    var fs := HeaderFields(minor, h);
    HeaderFieldsFit(minor, h);
    assert |Put(fs[..0])| == 0;
    forall k: nat | k < 8 ensures FieldLies(fs, k) { FieldAt(fs, k); }
    hide Put, Un, Number;
    assert FieldLies(fs, 0) && FieldLies(fs, 1) && FieldLies(fs, 2) && FieldLies(fs, 3);
    assert FieldLies(fs, 4) && FieldLies(fs, 5) && FieldLies(fs, 6) && FieldLies(fs, 7);
  }

  ghost predicate FieldLies(fs: seq<Field>, k: nat) {
    && k < |fs|
    && var at := |Put(fs[..k])|;
       at + fs[k].width <= |Put(fs)| && Number(Put(fs), at, fs[k].width) == fs[k].value && |Put(fs[..k + 1])| == at + fs[k].width
  }

  /** Only what newer peers added raises the minor version of its packet. */
  lemma AndroidStamp(m: A.AndroidMessage)
    requires A.Encode(m).Ok?
    ensures var p := A.Encode(m).value.bytes;
      && |p| >= 32
      && Number(p, 6, 2) == (if m.RequestActivation? then 4 else if m.BindInputChannel? || m.BindInputRoute? then 6 else if m.RequestRenderTargets? then 7 else 3)
      && Number(p, 10, 2) == |A.Kinds(m)|
      && Number(p, 16, 8) == (if m.ClientHello? || m.BindInputChannel? || m.Pong? then 0 else m.objectId)
  {
    HeaderOnTheWire(Minor(A.Opcode(m)), Header(A.Opcode(m), |A.Kinds(m)|, A.ObjectOf(m), Put(A.Fields(m))));
    hide Assemble, Put, A.Valid, A.Fields, A.Kinds, Number;
  }

  lemma DenialStamp(m: D.DenialMessage)
    requires D.Encode(m).Ok?
    ensures var p := D.Encode(m).value.bytes;
      && |p| >= 32
      && Number(p, 6, 2) == (if m.DisplayPower? then 5 else if m.RequestInputChannel? then 6 else if m.ScenePresented? then 8 else if m.FrameGrant? then 9 else 3)
      && Number(p, 10, 2) == |D.Kinds(m)|
  {
    DenialMinor(m);
    hide Assemble, Put, D.Valid, D.Fields, D.Kinds, Number, D.Opcode, D.ObjectOf, Minor;
    HeaderOnTheWire(Minor(D.Opcode(m)), Header(D.Opcode(m), |D.Kinds(m)|, D.ObjectOf(m), Put(D.Fields(m))));
  }

  lemma DenialMinor(m: D.DenialMessage)
    ensures Minor(D.Opcode(m)) == if m.DisplayPower? then 5 else if m.RequestInputChannel? then 6 else if m.ScenePresented? then 8 else if m.FrameGrant? then 9 else 3
  {
  }

  /** A frame on the wire: its object in the header, then frame, buffer, serial, acquire point,
      release point and the number of rectangles at fixed places. */
  lemma PresentOnTheWire(m: A.AndroidMessage)
    requires m.Present? && A.Encode(m).Ok?
    ensures var p := A.Encode(m).value.bytes;
      && |p| >= 70 && Number(p, 8, 2) == 8 && Number(p, 16, 8) == m.objectId
      && Number(p, 32, 8) == m.frame && Number(p, 40, 8) == m.bufferId && Number(p, 48, 4) == m.serial
      && Number(p, 52, 8) == m.acquirePoint && Number(p, 60, 8) == m.releasePoint && Number(p, 68, 2) == |m.damage|
  {
    var fs, p := A.Fields(m), A.Encode(m).value.bytes;
    var front := [U64(m.frame), U64(m.bufferId), U32(m.serial), U64(m.acquirePoint), U64(m.releasePoint), U16(|m.damage|)];
    var rest := Flat(A.WriteRect, m.damage);
    assert fs == front + rest;
    PutConcat(front, rest);
    HeaderOnTheWire(Minor(8), Header(8, 0, m.objectId, Put(fs)));
    FrontFields(m, front);
    assert |m.damage| <= 256;
    var bs, back := Put(front), Put(rest);
    hide Put, Flat, A.Valid, A.Fields, Number, Assemble;
    assert p == p[..32] + bs + back by { assert p[32..] == bs + back; }
    Shifted(p[..32], bs, back, 0, 8);
    Shifted(p[..32], bs, back, 8, 8);
    Shifted(p[..32], bs, back, 16, 4);
    Shifted(p[..32], bs, back, 20, 8);
    Shifted(p[..32], bs, back, 28, 8);
    Shifted(p[..32], bs, back, 36, 2);
  }

  lemma FrontFields(m: A.AndroidMessage, fs: seq<Field>)
    requires m.Present? && |m.damage| <= 256
    requires fs == [U64(m.frame), U64(m.bufferId), U32(m.serial), U64(m.acquirePoint), U64(m.releasePoint), U16(|m.damage|)]
    ensures |Put(fs)| == 38
    ensures Number(Put(fs), 0, 8) == m.frame && Number(Put(fs), 8, 8) == m.bufferId && Number(Put(fs), 16, 4) == m.serial
    ensures Number(Put(fs), 20, 8) == m.acquirePoint && Number(Put(fs), 28, 8) == m.releasePoint && Number(Put(fs), 36, 2) == |m.damage|
  {
    Wire.Widths();
    hide Pow256;
    assert |Put(fs[..0])| == 0;
    forall k: nat | k < 6 ensures FieldLies(fs, k) { FieldAt(fs, k); }
    hide Put, Un;
    assert FieldLies(fs, 0) && FieldLies(fs, 1) && FieldLies(fs, 2) && FieldLies(fs, 3) && FieldLies(fs, 4) && FieldLies(fs, 5);
    assert fs[..6] == fs;
  }
}
