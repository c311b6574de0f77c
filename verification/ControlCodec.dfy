/** The task-control codec: requests, responses, and the exact agreement of both decoders. */
module ControlCodec {
  import opened Base
  import opened Wire
  import opened Text
  import Packet
  import Commands

  const MAGIC: Bytes := [0x44, 0x4C, 0x54, 0x43]
  const PROTOCOL_MAJOR := 3
  const PROTOCOL_MINOR := 2
  const HEADER_BYTES := 24
  const MAX_RECORD_BYTES := 4096
  const MAX_PACKAGE_BYTES := 255
  const MAX_ERROR_BYTES := 1024
  const HEADER_WIDTHS: seq<nat> := [2, 2, 2, 2, 4, 8]

  datatype CodecError = Truncated | InvalidMagic | UnsupportedMajor(major: nat) | UnknownOpcode(opcode: u16) | InvalidHeader | Malformed

  // ------------------------------------------------------------------------------------
  // Records

  datatype Header = Header(opcode: u16, requestId: u64, payload: Bytes)

  function HeaderFields(minor: nat, h: Header): seq<Field> {
    [U16(PROTOCOL_MAJOR), U16(minor), U16(h.opcode), U16(0), U32(|h.payload|), U64(h.requestId)]
  }

  function Assemble(minor: nat, h: Header): Bytes { MAGIC + Put(HeaderFields(minor, h)) + h.payload }

  /** The minor version is not looked at: any value is accepted. */
  function ParseHeader(record: Bytes): Result<Header, CodecError> {
    if |record| < HEADER_BYTES || |record| > MAX_RECORD_BYTES then Err(Truncated)
    else if record[..4] != MAGIC then Err(InvalidMagic)
    else
      var read := Read(HEADER_WIDTHS, record[4..HEADER_BYTES]);
      if read.None? || |read.value.0| != 6 then Err(Truncated)
      else
        var f := read.value.0;
        if f[0].value != PROTOCOL_MAJOR then Err(UnsupportedMajor(f[0].value))
        else if f[3].value != 0 || HEADER_BYTES + f[4].value != |record| then Err(InvalidHeader)
        else Ok(Header(Packet.V16(f[2]), Packet.V64(f[5]), record[HEADER_BYTES..]))
  }

  lemma HeaderSum()
    ensures Sum(HEADER_WIDTHS) == 20
  {
    assert HEADER_WIDTHS == [2, 2, 2] + [2, 4, 8];
    SumConcat([2, 2, 2], [2, 4, 8]);
    assert Sum([2, 2, 2]) == 6 && Sum([2, 4, 8]) == 14;
  }

  lemma HeaderFieldsFit(minor: nat, h: Header)
    requires minor < U16_LIMIT && |h.payload| <= MAX_RECORD_BYTES
    ensures AllFit(HeaderFields(minor, h)) && WidthsOf(HeaderFields(minor, h)) == HEADER_WIDTHS
    ensures |Put(HeaderFields(minor, h))| == 20
  {
    Wire.Widths();
    PutLength(HeaderFields(minor, h));
    HeaderSum();
    hide Pow256, Put, Sum;
    assert WidthsOf(HeaderFields(minor, h)) == HEADER_WIDTHS;
  }

  lemma AssembledParses(minor: nat, h: Header)
    requires minor < U16_LIMIT && HEADER_BYTES + |h.payload| <= MAX_RECORD_BYTES
    ensures |Assemble(minor, h)| == HEADER_BYTES + |h.payload|
    ensures ParseHeader(Assemble(minor, h)) == Ok(h)
  {
    var fs, p := HeaderFields(minor, h), Assemble(minor, h);
    HeaderFieldsFit(minor, h);
    PutIsRead(fs, []);
    hide Put, Read, WidthsOf;
    assert p[..4] == MAGIC;
    assert p[4..HEADER_BYTES] == Put(fs) == Put(fs) + [];
    assert p[HEADER_BYTES..] == h.payload;
  }

  lemma ParsedIsAssembled(p: Bytes) returns (minor: nat)
    requires ParseHeader(p).Ok?
    ensures var h := ParseHeader(p).value; HEADER_BYTES + |h.payload| <= MAX_RECORD_BYTES && p == Assemble(minor, h)
  {
    Wire.Widths();
    ReadIsPut(HEADER_WIDTHS, p[4..HEADER_BYTES]);
    var h := ParseHeader(p).value;
    var (fs, rest) := Read(HEADER_WIDTHS, p[4..HEADER_BYTES]).value;
    minor := fs[1].value;
    PutLength(fs);
    HeaderSum();
    assert rest == [];
    Packet.FieldsAreTyped(fs, HEADER_WIDTHS);
    hide Read, Put, Pow256, Sum;
    assert fs == HeaderFields(minor, h);
    assert p == p[..4] + p[4..HEADER_BYTES] + p[HEADER_BYTES..];
    assert Put(fs) + [] == Put(fs);
  }

  lemma MinorIsTwoBytes(a: nat, b: nat, h: Header)
    ensures Packet.SameButMinor(Assemble(a, h), Assemble(b, h))
  {
    var rest := HeaderFields(a, h)[2..];
    assert rest == HeaderFields(b, h)[2..];
    forall m: nat | true ensures Assemble(m, h) == MAGIC + Le(2, PROTOCOL_MAJOR) + Le(2, m) + Put(rest) + h.payload {
      var fs := HeaderFields(m, h);
      assert fs == [U16(PROTOCOL_MAJOR)] + ([U16(m)] + rest);
      assert fs[1..] == [U16(m)] + rest;
      assert fs[1..][1..] == rest;
      assert Put(fs) == Le(2, PROTOCOL_MAJOR) + (Le(2, m) + Put(rest));
    }
    hide Assemble, Put, Le;
    assert Assemble(a, h) == MAGIC + Le(2, PROTOCOL_MAJOR) + Le(2, a) + Put(rest) + h.payload;
    assert Assemble(b, h) == MAGIC + Le(2, PROTOCOL_MAJOR) + Le(2, b) + Put(rest) + h.payload;
  }

  function EncodeRecord(r: Packet.Record): Result<Bytes, CodecError> {
    if HEADER_BYTES + |Put(r.fields)| > MAX_RECORD_BYTES then Err(InvalidHeader)
    else Ok(Assemble(PROTOCOL_MINOR, Header(r.opcode, r.objectId, Put(r.fields))))
  }

  function DecodeRecord(table: Packet.Table, record: Bytes): Result<Packet.Record, CodecError> {
    var header := ParseHeader(record);
    if header.Err? then Err(header.error)
    else
      var h := header.value;
      var layout := table(h.opcode);
      if layout.None? then Err(UnknownOpcode(h.opcode))
      else
        var fields := Parse(layout.value, h.payload);
        if fields.None? then Err(Malformed) else Ok(Packet.Record(h.opcode, h.requestId, fields.value))
  }

  lemma RecordRoundTrip(table: Packet.Table, other: Packet.Table, r: Packet.Record)
    requires table(r.opcode).Some? && Shaped(table(r.opcode).value, r.fields) && other(r.opcode).None? && EncodeRecord(r).Ok?
    ensures |EncodeRecord(r).value| <= MAX_RECORD_BYTES
    ensures DecodeRecord(table, EncodeRecord(r).value) == Ok(r)
    ensures DecodeRecord(other, EncodeRecord(r).value) == Err(UnknownOpcode(r.opcode))
  {
    hide ParseHeader, Assemble, Put, Parse, Shaped;
    AssembledParses(PROTOCOL_MINOR, Header(r.opcode, r.objectId, Put(r.fields)));
    ParseIsPut(table(r.opcode).value, Put(r.fields), r.fields);
  }

  lemma RecordIsCanonical(table: Packet.Table, p: Bytes)
    requires DecodeRecord(table, p).Ok?
    ensures var r := DecodeRecord(table, p).value;
      && table(r.opcode).Some? && Shaped(table(r.opcode).value, r.fields)
      && EncodeRecord(r).Ok? && Packet.SameButMinor(EncodeRecord(r).value, p)
  {
    hide ParseHeader, Assemble, Put, Parse, Shaped, Packet.SameButMinor;
    var r, h := DecodeRecord(table, p).value, ParseHeader(p).value;
    var minor := ParsedIsAssembled(p);
    ParseIsPut(table(r.opcode).value, h.payload, r.fields);
    MinorIsTwoBytes(PROTOCOL_MINOR, minor, h);
  }

  // ------------------------------------------------------------------------------------
  // A text followed by fixed fields

  function Named(suffix: seq<nat>): Layout {
    Layout([2], (fs: seq<Field>) => if |fs| == 1 && 1 <= fs[0].value <= MAX_PACKAGE_BYTES then Some(Repeat([1], fs[0].value) + suffix) else None)
  }

  function WriteNamed(package: Bytes, rest: seq<Field>): seq<Field> { [U16(|package|)] + Flat(WriteByte, package) + rest }

  /** The text, and the fields after it. */
  function NameOf(fs: seq<Field>): Bytes {
    if |fs| == 0 || 1 + fs[0].value > |fs| then [] else Group(ReadByte, 1, fs[1..1 + fs[0].value])
  }

  function RestOf(fs: seq<Field>): seq<Field> {
    if |fs| == 0 || 1 + fs[0].value > |fs| then [] else fs[1 + fs[0].value..]
  }

  lemma OnesLength(n: nat)
    ensures |Repeat([1], n)| == n
  {
    SumRepeat([1], n);
  }

  lemma NamedWrites(package: Bytes, rest: seq<Field>, suffix: seq<nat>)
    requires 1 <= |package| <= MAX_PACKAGE_BYTES && WidthsOf(rest) == suffix && AllFit(rest)
    ensures var fs := WriteNamed(package, rest);
      Shaped(Named(suffix), fs) && NameOf(fs) == package && RestOf(fs) == rest
  {
    Wire.Widths();
    BytesCoded();
    GroupOfFlat(WriteByte, ReadByte, [1], package);
    OnesLength(|package|);
    var fs, text := WriteNamed(package, rest), Flat(WriteByte, package);
    hide Pow256, Flat, Group, Coded, Repeat;
    assert |text| == |WidthsOf(text)| == |package|;
    assert fs[..1] == [U16(|package|)];
    assert fs[1..] == text + rest;
    assert WidthsOf(fs[..1]) == [2];
    assert WidthsOf(fs[1..]) == WidthsOf(text) + WidthsOf(rest);
    assert fs[1..1 + |package|] == text && fs[1 + |package|..] == rest;
    forall i | 0 <= i < |fs| ensures fs[i].Fits() {
      if 1 <= i < 1 + |text| { assert fs[i] == text[i - 1]; }
      if i >= 1 + |text| { assert fs[i] == rest[i - 1 - |text|]; }
    }
  }

  lemma NamedParts(fs: seq<Field>, suffix: seq<nat>)
    requires Shaped(Named(suffix), fs)
    ensures |fs| >= 1 && fs[0].width == 2 && 1 <= fs[0].value <= MAX_PACKAGE_BYTES && |fs| == 1 + fs[0].value + |suffix|
    ensures var text, rest := fs[1..1 + fs[0].value], fs[1 + fs[0].value..];
      && WidthsOf(text) == Repeat([1], fs[0].value) && AllFit(text) && WidthsOf(rest) == suffix && AllFit(rest)
  {
    var n := fs[0].value;
    var front, tail := fs[..1], fs[1..];
    assert front[0] == fs[0];
    assert front[0].width == WidthsOf(front)[0];
    OnesLength(n);
    hide Repeat;
    assert WidthsOf(tail) == Repeat([1], n) + suffix;
    assert |tail| == n + |suffix|;
    var text, rest := fs[1..1 + n], fs[1 + n..];
    assert text == tail[..n] && rest == tail[n..];
    assert WidthsOf(text) == WidthsOf(tail)[..n] == Repeat([1], n);
    assert WidthsOf(rest) == WidthsOf(tail)[n..] == suffix;
  }

  lemma NamedReads(fs: seq<Field>, suffix: seq<nat>)
    requires Shaped(Named(suffix), fs)
    ensures 1 <= |NameOf(fs)| <= MAX_PACKAGE_BYTES && WidthsOf(RestOf(fs)) == suffix && AllFit(RestOf(fs))
    ensures WriteNamed(NameOf(fs), RestOf(fs)) == fs
  {
    hide Flat, Group, Coded, Repeat, Shaped, Named, WidthsOf, AllFit;
    BytesCoded();
    NamedParts(fs, suffix);
    var n := fs[0].value;
    var text, rest := fs[1..1 + n], fs[1 + n..];
    FlatOfGroup(WriteByte, ReadByte, [1], text, n);
    assert fs == [U16(n)] + text + rest;
  }

  lemma NamedLength(fs: seq<Field>, suffix: seq<nat>)
    requires Shaped(Named(suffix), fs) && |suffix| <= 4 && forall i :: 0 <= i < |suffix| ==> suffix[i] <= 8
    ensures |Put(fs)| <= 2100
  {
    var ws := WidthsOf(fs);
    PutLength(fs);
    OnesLength(fs[0].value);
    assert fs == fs[..1] + fs[1..];
    assert ws == [2] + (Repeat([1], fs[0].value) + suffix) by { assert ws == WidthsOf(fs[..1]) + WidthsOf(fs[1..]); }
    hide Put, WidthsOf, Shaped, Named;
    SumRepeat([1], fs[0].value);
    assert Sum([1]) == 1 && Sum([2]) == 2;
    SumBound(suffix);
    SumConcat(Repeat([1], fs[0].value), suffix);
    SumConcat([2], Repeat([1], fs[0].value) + suffix);
  }

  // ------------------------------------------------------------------------------------
  // Requests

  datatype ControlRequest =
    | Hello(minMajor: u16, maxMajor: u16)
    | Reserve(requestId: u64, package: Bytes)
    | Bind(requestId: u64, objectId: u64, task: u64, display: u32)
    | Remove(requestId: u64, objectId: u64)
    | RegisterDirect(requestId: u64, package: Bytes, task: u64, display: u32)
    | PublishDirect(requestId: u64, package: Bytes, task: u64, display: u32, activate: u32)
    | Subscribe(requestId: u64)
    | Acknowledge(requestId: u64)
    | PublishFramework(requestId: u64, package: Bytes, task: u64, display: u32, incarnation: u64, activate: u32)

  /** What the encoder demands of a request; `activate` is a boolean as 0 or 1. */
  predicate ValidRequest(m: ControlRequest) {
    match m
    case Hello(lo, hi) => 0 < lo <= hi
    case Reserve(id, package) => id != 0 && ValidPackage(package)
    case Bind(id, o, task, _) => id != 0 && o != 0 && task != 0
    case Remove(id, o) => id != 0 && o != 0
    case RegisterDirect(id, package, task, _) => id != 0 && task != 0 && ValidPackage(package)
    case PublishDirect(id, package, task, _, activate) => id != 0 && task != 0 && ValidPackage(package) && activate <= 1
    case Subscribe(id) => id != 0
    case Acknowledge(id) => id != 0
    case PublishFramework(id, package, task, _, incarnation, activate) =>
      id != 0 && task != 0 && 0 < incarnation <= I64_MAX && ValidPackage(package) && activate <= 1
  }

  function RequestOpcode(m: ControlRequest): u16 {
    match m
    case Hello(_, _) => 0x01
    case Reserve(_, _) => 0x02
    case Bind(_, _, _, _) => 0x03
    case Remove(_, _) => 0x04
    case RegisterDirect(_, _, _, _) => 0x05
    case PublishDirect(_, _, _, _, _) => 0x06
    case Subscribe(_) => 0x07
    case Acknowledge(_) => 0x08
    case PublishFramework(_, _, _, _, _, _) => 0x09
  }

  function RequestFields(m: ControlRequest): seq<Field> {
    match m
    case Hello(lo, hi) => [U16(lo), U16(hi)]
    case Reserve(_, package) => WriteNamed(package, [])
    case Bind(_, o, task, display) => [U64(o), U64(task), U32(display)]
    case Remove(_, o) => [U64(o)]
    case RegisterDirect(_, package, task, display) => WriteNamed(package, [U64(task), U32(display)])
    case PublishDirect(_, package, task, display, activate) => WriteNamed(package, [U64(task), U32(display), U32(activate)])
    case Subscribe(_) => []
    case Acknowledge(_) => []
    case PublishFramework(_, package, task, display, incarnation, activate) =>
      WriteNamed(package, [U64(task), U32(display), U64(incarnation), U32(activate)])
  }

  function RequestRecord(m: ControlRequest): Packet.Record {
    Packet.Record(RequestOpcode(m), if m.Hello? then 0 else m.requestId, RequestFields(m))
  }

  function Suffix(opcode: u16): seq<nat> {
    if opcode == 0x05 then [8, 4] else if opcode == 0x06 then [8, 4, 4] else if opcode == 0x09 then [8, 4, 8, 4] else []
  }

  predicate IsNamed(opcode: u16) { opcode in {0x02, 0x05, 0x06, 0x09} }

  function RequestLayout(opcode: u16): Option<Layout> {
    if IsNamed(opcode) then Some(Named(Suffix(opcode)))
    else if opcode == 0x01 then Some(Packet.Fixed([2, 2]))
    else if opcode == 0x03 then Some(Packet.Fixed([8, 8, 4]))
    else if opcode == 0x04 then Some(Packet.Fixed([8]))
    else if opcode == 0x07 || opcode == 0x08 then Some(Packet.Fixed([]))
    else None
  }

  /** The request a parsed record spells, before its typed checks. */
  function SpelledRequest(r: Packet.Record): Option<ControlRequest> {
    var id, f := r.objectId, r.fields;
    var name, rest := NameOf(f), RestOf(f);
    if r.opcode == 0x01 && |f| == 2 then Some(Hello(Packet.V16(f[0]), Packet.V16(f[1])))
    else if r.opcode == 0x02 then Some(Reserve(id, name))
    else if r.opcode == 0x03 && |f| == 3 then Some(Bind(id, Packet.V64(f[0]), Packet.V64(f[1]), Packet.V32(f[2])))
    else if r.opcode == 0x04 && |f| == 1 then Some(Remove(id, Packet.V64(f[0])))
    else if r.opcode == 0x05 && |rest| == 2 then Some(RegisterDirect(id, name, Packet.V64(rest[0]), Packet.V32(rest[1])))
    else if r.opcode == 0x06 && |rest| == 3 then Some(PublishDirect(id, name, Packet.V64(rest[0]), Packet.V32(rest[1]), Packet.V32(rest[2])))
    else if r.opcode == 0x07 then Some(Subscribe(id))
    else if r.opcode == 0x08 then Some(Acknowledge(id))
    else if r.opcode == 0x09 && |rest| == 4
      then Some(PublishFramework(id, name, Packet.V64(rest[0]), Packet.V32(rest[1]), Packet.V64(rest[2]), Packet.V32(rest[3])))
    else None
  }

  function EncodeRequest(m: ControlRequest): Result<Bytes, CodecError> {
    if !ValidRequest(m) then Err(Malformed) else EncodeRecord(RequestRecord(m))
  }

  function DecodeRequest(record: Bytes): Result<ControlRequest, CodecError> {
    var r := DecodeRecord(RequestLayout, record);
    if r.Err? then Err(r.error)
    else
      var m := SpelledRequest(r.value);
      if m.None? || !ValidRequest(m.value) || RequestRecord(m.value).objectId != r.value.objectId then Err(Malformed) else Ok(m.value)
  }

  /** The fields after the package name. */
  function RequestRest(m: ControlRequest): seq<Field> {
    match m
    case RegisterDirect(_, _, task, display) => [U64(task), U32(display)]
    case PublishDirect(_, _, task, display, activate) => [U64(task), U32(display), U32(activate)]
    case PublishFramework(_, _, task, display, incarnation, activate) => [U64(task), U32(display), U64(incarnation), U32(activate)]
    case _ => []
  }

  lemma RequestRestFits(m: ControlRequest)
    requires IsNamed(RequestOpcode(m))
    ensures WidthsOf(RequestRest(m)) == Suffix(RequestOpcode(m)) && AllFit(RequestRest(m))
    ensures RequestFields(m) == WriteNamed(m.package, RequestRest(m))
  {
    Wire.Widths();
    hide Pow256, WriteNamed;
    assert WidthsOf(RequestRest(m)) == Suffix(RequestOpcode(m));
  }

  lemma NamedRequestSpells(m: ControlRequest)
    requires IsNamed(RequestOpcode(m)) && NameOf(RequestFields(m)) == m.package && RestOf(RequestFields(m)) == RequestRest(m)
    ensures SpelledRequest(RequestRecord(m)) == Some(m)
  {
    hide NameOf, RestOf, WriteNamed;
  }

  lemma NamedRequestWrites(m: ControlRequest)
    requires ValidRequest(m) && IsNamed(RequestOpcode(m))
    ensures Shaped(Named(Suffix(RequestOpcode(m))), RequestFields(m)) && SpelledRequest(RequestRecord(m)) == Some(m)
  {
    hide Shaped, Named, WriteNamed, NameOf, RestOf, WidthsOf, RequestFields, RequestRest, SpelledRequest, AllFit;
    RequestRestFits(m);
    NamedWrites(m.package, RequestRest(m), Suffix(RequestOpcode(m)));
    NamedRequestSpells(m);
  }

  lemma NamedRequestReads(r: Packet.Record)
    requires IsNamed(r.opcode) && Shaped(Named(Suffix(r.opcode)), r.fields)
    ensures SpelledRequest(r).Some? && RequestOpcode(SpelledRequest(r).value) == r.opcode && RequestFields(SpelledRequest(r).value) == r.fields
  {
    Wire.Widths();
    hide Pow256, Shaped, Named, WriteNamed, NameOf, RestOf, WidthsOf;
    NamedReads(r.fields, Suffix(r.opcode));
    Packet.FieldsAreTyped(RestOf(r.fields), Suffix(r.opcode));
    var m, rest := SpelledRequest(r).value, RestOf(r.fields);
    assert RequestFields(m) == WriteNamed(NameOf(r.fields), rest) by {
      match m
      case RegisterDirect(_, _, task, display) => assert rest == [U64(task), U32(display)];
      case PublishDirect(_, _, task, display, activate) => assert rest == [U64(task), U32(display), U32(activate)];
      case PublishFramework(_, _, task, display, incarnation, activate) => assert rest == [U64(task), U32(display), U64(incarnation), U32(activate)];
      case Reserve(_, _) => assert rest == [];
      case _ =>
    }
  }

  lemma FixedRequestWrites(m: ControlRequest)
    requires !IsNamed(RequestOpcode(m))
    ensures RequestLayout(RequestOpcode(m)).Some? && Shaped(RequestLayout(RequestOpcode(m)).value, RequestFields(m))
    ensures SpelledRequest(RequestRecord(m)) == Some(m)
  {
    Wire.Widths();
    hide Pow256, Shaped, NameOf, RestOf;
    var head := RequestLayout(RequestOpcode(m)).value.head;
    Packet.FixedShape(head, RequestFields(m));
    assert WidthsOf(RequestFields(m)) == head;
  }

  lemma FixedRequestReads(r: Packet.Record)
    requires !IsNamed(r.opcode) && RequestLayout(r.opcode).Some? && Shaped(RequestLayout(r.opcode).value, r.fields)
    ensures SpelledRequest(r).Some? && RequestOpcode(SpelledRequest(r).value) == r.opcode && RequestFields(SpelledRequest(r).value) == r.fields
  {
    Wire.Widths();
    hide Pow256, Shaped, NameOf, RestOf, WidthsOf;
    var head := RequestLayout(r.opcode).value.head;
    Packet.FixedShape(head, r.fields);
    Packet.FieldsAreTyped(r.fields, head);
  }

  lemma RequestIsSmall(r: Packet.Record)
    requires RequestLayout(r.opcode).Some? && Shaped(RequestLayout(r.opcode).value, r.fields)
    ensures |Put(r.fields)| <= 2100
  {
    hide Put, Shaped;
    if IsNamed(r.opcode) { NamedLength(r.fields, Suffix(r.opcode)); } else { Packet.FixedLength(RequestLayout(r.opcode).value.head, r.fields); }
  }

  // ------------------------------------------------------------------------------------
  // Responses

  datatype ControlResponse =
    | ServerHello(major: u16, minor: u16)
    | Reserved(requestId: u64, objectId: u64, display: u64)
    | Bound(requestId: u64, objectId: u64, task: u64, display: u64, androidDisplay: u32)
    | Removed(requestId: u64, objectId: u64)
    | Subscribed(requestId: u64)
    | TaskCommand(requestId: u64, command: Commands.TaskCommand)
    | Failure(requestId: u64, code: u16, text: Bytes)

  predicate ValidResponse(m: ControlResponse) {
    match m
    case ServerHello(major, _) => major != 0
    case Reserved(id, o, display) => id != 0 && o != 0 && display != 0
    case Bound(id, o, task, display, _) => id != 0 && o != 0 && task != 0 && display != 0
    case Removed(id, o) => id != 0 && o != 0
    case Subscribed(id) => id != 0
    case TaskCommand(id, command) => 0 < id <= I64_MAX && command.Valid()
    case Failure(_, code, text) => 1 <= code <= 6 && 1 <= |text| <= MAX_ERROR_BYTES && Utf8(text)
  }

  function ResponseOpcode(m: ControlResponse): u16 {
    match m
    case ServerHello(_, _) => 0x8001
    case Reserved(_, _, _) => 0x8002
    case Bound(_, _, _, _, _) => 0x8003
    case Removed(_, _) => 0x8004
    case Subscribed(_) => 0x8005
    case TaskCommand(_, _) => 0x8006
    case Failure(_, _, _) => 0x80ff
  }

  function WriteAction(a: Commands.TaskAction): seq<Field> {
    match a
    case Focus => [U32(1), U32(0), U32(0)]
    case Resize(width, height) => [U32(2), U32(width), U32(height)]
    case Close => [U32(3), U32(0), U32(0)]
  }

  function ReadAction(kind: u32, width: u32, height: u32): Option<Commands.TaskAction> {
    if kind == 1 && width == 0 && height == 0 then Some(Commands.Focus)
    else if kind == 2 then Some(Commands.Resize(width, height))
    else if kind == 3 && width == 0 && height == 0 then Some(Commands.Close)
    else None
  }

  function ResponseFields(m: ControlResponse): seq<Field> {
    match m
    case ServerHello(major, minor) => [U16(major), U16(minor)]
    case Reserved(_, o, display) => [U64(o), U64(display)]
    case Bound(_, o, task, display, androidDisplay) => [U64(o), U64(task), U64(display), U32(androidDisplay)]
    case Removed(_, o) => [U64(o)]
    case Subscribed(_) => []
    case TaskCommand(_, c) => [U64(c.objectId), U64(c.task), U64(c.incarnation), U32(c.display)] + WriteAction(c.action)
    case Failure(_, code, text) => [U16(code), U16(|text|)] + Flat(WriteByte, text)
  }

  function ResponseRecord(m: ControlResponse): Packet.Record {
    Packet.Record(ResponseOpcode(m), if m.ServerHello? then 0 else m.requestId, ResponseFields(m))
  }

  const COMMAND: seq<nat> := [8, 8, 8, 4, 4, 4, 4]

  function ResponseLayout(opcode: u16): Option<Layout> {
    if opcode == 0x8001 then Some(Packet.Fixed([2, 2]))
    else if opcode == 0x8002 then Some(Packet.Fixed([8, 8]))
    else if opcode == 0x8003 then Some(Packet.Fixed([8, 8, 8, 4]))
    else if opcode == 0x8004 then Some(Packet.Fixed([8]))
    else if opcode == 0x8005 then Some(Packet.Fixed([]))
    else if opcode == 0x8006 then Some(Packet.Fixed(COMMAND))
    else if opcode == 0x80ff then Some(Packet.Counted([2, 2], 1, [1], 1, MAX_ERROR_BYTES))
    else None
  }

  function SpelledResponse(r: Packet.Record): Option<ControlResponse> {
    var id, f := r.objectId, r.fields;
    if r.opcode == 0x8001 && |f| == 2 then Some(ServerHello(Packet.V16(f[0]), Packet.V16(f[1])))
    else if r.opcode == 0x8002 && |f| == 2 then Some(Reserved(id, Packet.V64(f[0]), Packet.V64(f[1])))
    else if r.opcode == 0x8003 && |f| == 4 then Some(Bound(id, Packet.V64(f[0]), Packet.V64(f[1]), Packet.V64(f[2]), Packet.V32(f[3])))
    else if r.opcode == 0x8004 && |f| == 1 then Some(Removed(id, Packet.V64(f[0])))
    else if r.opcode == 0x8005 then Some(Subscribed(id))
    else if r.opcode == 0x8006 && |f| == 7 then
      var action := ReadAction(Packet.V32(f[4]), Packet.V32(f[5]), Packet.V32(f[6]));
      if action.None? then None
      else Some(TaskCommand(id, Commands.TaskCommand(Packet.V64(f[0]), Packet.V64(f[1]), Packet.V64(f[2]), Packet.V32(f[3]), action.value)))
    else if r.opcode == 0x80ff && |f| >= 2 then Some(Failure(id, Packet.V16(f[0]), Group(ReadByte, 1, f[2..])))
    else None
  }

  function EncodeResponse(m: ControlResponse): Result<Bytes, CodecError> {
    if !ValidResponse(m) then Err(Malformed) else EncodeRecord(ResponseRecord(m))
  }

  function DecodeResponse(record: Bytes): Result<ControlResponse, CodecError> {
    var r := DecodeRecord(ResponseLayout, record);
    if r.Err? then Err(r.error)
    else
      var m := SpelledResponse(r.value);
      if m.None? || !ValidResponse(m.value) || ResponseRecord(m.value).objectId != r.value.objectId then Err(Malformed) else Ok(m.value)
  }

  lemma FailureWrites(m: ControlResponse)
    requires m.Failure? && 1 <= |m.text| <= MAX_ERROR_BYTES
    ensures Shaped(Packet.Counted([2, 2], 1, [1], 1, MAX_ERROR_BYTES), ResponseFields(m)) && SpelledResponse(ResponseRecord(m)) == Some(m)
  {
    Wire.Widths();
    BytesCoded();
    var front := [U16(m.code), U16(|m.text|)];
    hide Pow256, Shaped, Flat, Group, Coded, Packet.Counted;
    assert WidthsOf(front) == [2, 2];
    Packet.CountedWrites([2, 2], 1, [1], 1, MAX_ERROR_BYTES, WriteByte, ReadByte, front, m.text);
  }

  lemma FailureReads(r: Packet.Record)
    requires r.opcode == 0x80ff && Shaped(Packet.Counted([2, 2], 1, [1], 1, MAX_ERROR_BYTES), r.fields)
    ensures SpelledResponse(r).Some? && SpelledResponse(r).value.Failure? && ResponseFields(SpelledResponse(r).value) == r.fields
  {
    BytesCoded();
    Wire.Widths();
    hide Pow256, Shaped, Flat, Group, Coded, Packet.Counted, WidthsOf;
    var f := r.fields;
    Packet.CountedReads([2, 2], 1, [1], 1, MAX_ERROR_BYTES, WriteByte, ReadByte, f);
    Packet.FieldsAreTyped(f[..2], [2, 2]);
    assert f[..2] == [U16(Packet.V16(f[0])), U16(f[1].value)];
  }

  lemma FixedResponseWrites(m: ControlResponse)
    requires !m.Failure?
    ensures ResponseLayout(ResponseOpcode(m)).Some? && Shaped(ResponseLayout(ResponseOpcode(m)).value, ResponseFields(m))
    ensures SpelledResponse(ResponseRecord(m)) == Some(m)
  {
    Wire.Widths();
    hide Pow256, Shaped;
    var head := ResponseLayout(ResponseOpcode(m)).value.head;
    Packet.FixedShape(head, ResponseFields(m));
    assert WidthsOf(ResponseFields(m)) == head;
  }

  lemma FixedResponseReads(r: Packet.Record)
    requires r.opcode != 0x80ff && ResponseLayout(r.opcode).Some? && Shaped(ResponseLayout(r.opcode).value, r.fields) && SpelledResponse(r).Some?
    ensures ResponseOpcode(SpelledResponse(r).value) == r.opcode && ResponseFields(SpelledResponse(r).value) == r.fields
  {
    Wire.Widths();
    hide Pow256, Shaped, WidthsOf;
    var head := ResponseLayout(r.opcode).value.head;
    Packet.FixedShape(head, r.fields);
    Packet.FieldsAreTyped(r.fields, head);
  }

  lemma ResponseIsSmall(r: Packet.Record)
    requires ResponseLayout(r.opcode).Some? && Shaped(ResponseLayout(r.opcode).value, r.fields)
    ensures r.opcode != 0x80ff ==> |Put(r.fields)| <= 100
    ensures r.opcode == 0x80ff ==> |Put(r.fields)| <= 1100
  {
    hide Shaped;
    if r.opcode == 0x80ff {
      TextLength(r.fields);
    } else {
      hide Put;
      Packet.FixedLength(ResponseLayout(r.opcode).value.head, r.fields);
    }
  }

  lemma TextLength(fs: seq<Field>)
    requires Shaped(Packet.Counted([2, 2], 1, [1], 1, MAX_ERROR_BYTES), fs)
    ensures |Put(fs)| <= 1100
  {
    var front, tail := fs[..2], fs[2..];
    assert fs == front + tail;
    hide Put, Sum, Shaped, Repeat, WidthsOf;
    Packet.CountedShape([2, 2], 1, [1], 1, MAX_ERROR_BYTES, front, tail);
    PutConcat(front, tail);
    PutLength(front);
    PutLength(tail);
    SumBound([2, 2]);
    SumRepeat([1], front[1].value);
    OneIsOne();
  }

  lemma OneIsOne()
    ensures Sum([1]) == 1
  {
  }

  // ------------------------------------------------------------------------------------
  // Agreement

  lemma ForeignOpcodes(q: ControlRequest, r: ControlResponse)
    ensures ResponseLayout(RequestOpcode(q)).None? && RequestLayout(ResponseOpcode(r)).None?
  {
  }

  lemma RequestWrites(m: ControlRequest)
    requires ValidRequest(m)
    ensures var r := RequestRecord(m); RequestLayout(r.opcode).Some? && Shaped(RequestLayout(r.opcode).value, r.fields) && SpelledRequest(r) == Some(m)
  {
    hide Shaped, Named, RequestFields, SpelledRequest;
    if IsNamed(RequestOpcode(m)) { NamedRequestWrites(m); } else { FixedRequestWrites(m); }
  }

  lemma ResponseWrites(m: ControlResponse)
    requires ValidResponse(m)
    ensures var r := ResponseRecord(m); ResponseLayout(r.opcode).Some? && Shaped(ResponseLayout(r.opcode).value, r.fields) && SpelledResponse(r) == Some(m)
  {
    hide Shaped, ResponseFields, SpelledResponse, Utf8;
    if m.Failure? { FailureWrites(m); } else { FixedResponseWrites(m); }
  }

  /** Every valid request encodes within the record bound and decodes to itself, and the
      response decoder recognises it as foreign. */
  lemma RequestRoundTrip(m: ControlRequest)
    ensures EncodeRequest(m).Ok? <==> ValidRequest(m)
    ensures ValidRequest(m) ==>
      && |EncodeRequest(m).value| <= MAX_RECORD_BYTES && DecodeRequest(EncodeRequest(m).value) == Ok(m)
      && DecodeResponse(EncodeRequest(m).value) == Err(UnknownOpcode(RequestOpcode(m)))
  {
    if ValidRequest(m) {
      ForeignOpcodes(m, ServerHello(0, 0));
      RequestWrites(m);
      RequestIsSmall(RequestRecord(m));
      hide Shaped, Put, RequestFields, ValidRequest, SpelledRequest, RequestLayout, ResponseLayout, DecodeRecord, Assemble, RequestOpcode;
      RecordRoundTrip(RequestLayout, ResponseLayout, RequestRecord(m));
    }
  }

  lemma ResponseRoundTrip(m: ControlResponse)
    ensures EncodeResponse(m).Ok? <==> ValidResponse(m)
    ensures ValidResponse(m) ==>
      && |EncodeResponse(m).value| <= MAX_RECORD_BYTES && DecodeResponse(EncodeResponse(m).value) == Ok(m)
      && DecodeRequest(EncodeResponse(m).value) == Err(UnknownOpcode(ResponseOpcode(m)))
  {
    if ValidResponse(m) {
      ForeignOpcodes(Hello(0, 0), m);
      ResponseWrites(m);
      ResponseIsSmall(ResponseRecord(m));
      hide Shaped, Put, ResponseFields, ValidResponse, SpelledResponse, RequestLayout, ResponseLayout, DecodeRecord, Assemble, ResponseOpcode;
      RecordRoundTrip(ResponseLayout, RequestLayout, ResponseRecord(m));
    }
  }

  /** A record that decodes re-encodes to itself, but for the two minor-version bytes. */
  lemma RequestIsCanonical(p: Bytes)
    requires DecodeRequest(p).Ok?
    ensures EncodeRequest(DecodeRequest(p).value).Ok? && Packet.SameButMinor(EncodeRequest(DecodeRequest(p).value).value, p)
  {
    hide Shaped, Put, RequestFields, ValidRequest, SpelledRequest, RequestOpcode, DecodeRecord, EncodeRecord, Packet.SameButMinor, Named;
    var r := DecodeRecord(RequestLayout, p).value;
    RecordIsCanonical(RequestLayout, p);
    if IsNamed(r.opcode) { NamedRequestReads(r); } else { FixedRequestReads(r); }
    assert RequestRecord(DecodeRequest(p).value) == r;
  }

  lemma ResponseIsCanonical(p: Bytes)
    requires DecodeResponse(p).Ok?
    ensures EncodeResponse(DecodeResponse(p).value).Ok? && Packet.SameButMinor(EncodeResponse(DecodeResponse(p).value).value, p)
  {
    hide Shaped, Put, ResponseFields, ValidResponse, SpelledResponse, DecodeRecord, EncodeRecord, Packet.SameButMinor;
    var r := DecodeRecord(ResponseLayout, p).value;
    RecordIsCanonical(ResponseLayout, p);
    if r.opcode == 0x80ff { FailureReads(r); } else { FixedResponseReads(r); }
    assert ResponseRecord(DecodeResponse(p).value) == r;
  }

  /** Two packets that decode to the same request differ only in their minor version. */
  lemma RequestIsInjective(p: Bytes, q: Bytes)
    requires DecodeRequest(p).Ok? && DecodeRequest(q) == DecodeRequest(p)
    ensures Packet.SameButMinor(p, q)
  {
    hide DecodeRequest, EncodeRequest;
    RequestIsCanonical(p);
    RequestIsCanonical(q);
  }

  /** Two packets that decode to the same response differ only in their minor version. */
  lemma ResponseIsInjective(p: Bytes, q: Bytes)
    requires DecodeResponse(p).Ok? && DecodeResponse(q) == DecodeResponse(p)
    ensures Packet.SameButMinor(p, q)
  {
    hide DecodeResponse, EncodeResponse;
    ResponseIsCanonical(p);
    ResponseIsCanonical(q);
  }
}
