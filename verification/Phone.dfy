/** Android side of one task: the protocol binding, the pool of render targets the host
    lends it, and the Composer stream both feed. */
module Phone {
  import opened Base
  import opened Dmabuf
  import opened Transport
  import HostTask
  import O = Ordered
  import M = Messages

  datatype SinkError =
    | WrongObject
    | UnexpectedMessage
    | ReleaseMismatch
    | TimelineExhausted
    | DuplicateRenderTarget(id: u64)
    | UnknownRenderTarget(id: u64)
    | BufferMetadataMismatch(id: u64)
    | NoRenderTarget
    | DisplayOff
    | Ipc
    | Syncobj
    | Graphics
    | NoWindow
    | FramesInFlight
    | Composer(error: TransportError)

  datatype Binding = Binding(
    oid: u64,
    acked: Option<u32>,
    nextPoint: u64,
    pending: map<u64, u64>,
    destroyRequested: bool)
  {
    function PrepareError(frame: u64): Option<SinkError> {
      if destroyRequested || acked.None? then Some(UnexpectedMessage)
      else if nextPoint + 1 == U64_LIMIT then Some(TimelineExhausted)
      else if frame in pending then Some(UnexpectedMessage)
      else None
    }

    function Prepared(frame: u64): Binding
      requires nextPoint + 1 < U64_LIMIT
    {
      this.(nextPoint := nextPoint + 1, pending := pending[frame := nextPoint + 1])
    }
  }

  /** One allocation request per geometry generation. */
  datatype Demand = Demand(serial: Option<u32>, requested: Option<u32>) {
    function Configured(s: u32): Demand {
      if serial == Some(s) then this else Demand(Some(s), None)
    }

    function Request(enabled: bool, hasPool: bool): Option<u32> {
      if serial.Some? && enabled && !hasPool && requested != serial then serial else None
    }

    function Sent(s: u32): Demand {
      if serial == Some(s) then this.(requested := Some(s)) else this
    }
  }

  datatype Target = Target(serial: u32, metadata: Buffer, reserved: bool, busy: bool, revoked: bool) {
    predicate Idle(newest: u32) { serial == newest && !reserved && !busy && !revoked }
  }

  datatype Channel = Channel(
    binding: Binding,
    targets: map<u64, Target>,
    frameTargets: map<u64, u64>,
    opacity: Option<bool>,
    demand: Demand)

  /** One task's channel, the Composer stream of its window, and whether that window still
      exists: removing it needs an idle stream. */
  datatype Phone = Phone(channel: Channel, stream: Presentation, powered: bool, window: bool) {
    /** A target is idle, reserved or busy, never two of these; it is busy exactly when one
        frame of the stream holds it; a revoked one survives only while reserved or busy. */
    ghost predicate PoolValid() {
      && (forall b :: b in channel.targets ==>
            var t := channel.targets[b];
            && t.metadata.id == b
            && !(t.reserved && t.busy)
            && (t.revoked ==> t.reserved || t.busy)
            && (t.busy <==> b in stream.busy))
      && stream.busy <= channel.targets.Keys
    }

    /** The three frame tables name the same frames, and agree on the buffer of each. */
    ghost predicate FramesAgree() {
      && channel.binding.pending.Keys == stream.inFlight.Keys
      && channel.frameTargets == stream.inFlight
    }

    ghost predicate PointsValid() {
      var p := channel.binding.pending;
      && (forall f :: f in p ==> 0 < p[f] <= channel.binding.nextPoint)
      && (forall f, g :: f in p && g in p && p[f] == p[g] ==> f == g)
    }

    ghost predicate AckValid() {
      && (channel.binding.acked.Some? ==> stream.latest.Some? && channel.binding.acked == stream.acked)
      && channel.demand.serial == (if stream.latest.Some? then Some(stream.latest.value.serial) else None)
    }

    ghost predicate Valid() {
      && stream.Valid() && PoolValid() && FramesAgree() && PointsValid() && AckValid()
      && (!window ==> stream.inFlight == map[])
    }
  }

  function NewPhone(oid: u64): Phone {
    Phone(Channel(Binding(oid, None, 0, map[], false), map[], map[], None, Demand(None, None)), IDLE, false, true)
  }

  datatype Outcome = Outcome(phone: Phone, error: Option<SinkError>, sent: seq<M.PhoneMsg>, target: Option<u64>)

  function Fail(p: Phone, error: SinkError, sent: seq<M.PhoneMsg> := []): Outcome { Outcome(p, Some(error), sent, None) }

  function Done(p: Phone, sent: seq<M.PhoneMsg> := []): Outcome { Outcome(p, None, sent, None) }

  function WithTarget(p: Phone, b: u64, t: Target): Phone {
    p.(channel := p.channel.(targets := p.channel.targets[b := t]))
  }

  function WithoutTarget(p: Phone, b: u64): Phone {
    p.(channel := p.channel.(targets := p.channel.targets - {b}))
  }

  function RegisterTarget(p: Phone, serial: u32, b: Buffer): Outcome {
    if b.id in p.channel.targets then Fail(p, DuplicateRenderTarget(b.id))
    else Done(WithTarget(p, b.id, Target(serial, b, false, false, false)))
  }

  function RevokeTarget(p: Phone, b: u64): Outcome {
    if b !in p.channel.targets then Fail(p, UnknownRenderTarget(b))
    else
      var t := p.channel.targets[b];
      if t.reserved || t.busy then Done(WithTarget(p, b, t.(revoked := true))) else Done(WithoutTarget(p, b))
  }

  ghost function IdleTargets(c: Channel, newest: u32): set<u64> {
    set b | b in c.targets && c.targets[b].Idle(newest)
  }

  ghost predicate IsLeast(b: u64, s: set<u64>) {
    b in s && forall c :: c in s ==> b <= c
  }

  /** Ask for a missing pool once per generation; a failed send stays retryable. */
  function Ensure(p: Phone, lazy: bool, send: bool): Outcome {
    var c := p.channel;
    var hasPool := exists b :: b in c.targets && !c.targets[b].revoked && c.demand.serial == Some(c.targets[b].serial);
    var request := c.demand.Request(lazy, hasPool);
    if request.None? then Done(p)
    else if !send then Fail(p, Ipc)
    else Done(p.(channel := c.(demand := c.demand.Sent(request.value))), [M.RequestRenderTargets(c.binding.oid, request.value)])
  }

  ghost function Acquire(p: Phone, lazy: bool, send: bool, cloned: bool): Outcome {
    if p.channel.binding.destroyRequested then Fail(p, NoRenderTarget)
    else
      var asked := Ensure(p, lazy, send);
      var q := asked.phone;
      if asked.error.Some? then asked
      else if q.channel.demand.serial.None? then Fail(q, NoRenderTarget, asked.sent)
      else
        var idle := IdleTargets(q.channel, q.channel.demand.serial.value);
        if idle == {} then Fail(q, NoRenderTarget, asked.sent)
        else if !cloned then Fail(q, Graphics, asked.sent)
        else
          var b := O.Least(idle);
          Outcome(WithTarget(q, b, q.channel.targets[b].(reserved := true)), None, asked.sent, Some(b))
  }

  /** Returning an unsubmitted reservation; a revoked target leaves the cache here. */
  function Cancel(p: Phone, b: u64): Phone {
    if b !in p.channel.targets || p.channel.targets[b].busy then p
    else if p.channel.targets[b].revoked then WithoutTarget(p, b)
    else WithTarget(p, b, p.channel.targets[b].(reserved := false))
  }

  function SubmitDamage(b: Buffer, damage: Option<Rect>): seq<Rect> {
    var rect := if damage.Some? then damage.value else Rect(0, 0, b.width, b.height);
    if rect.width == 0 && rect.height == 0 then [] else [rect]
  }

  /** The answers of the kernel and the socket while one frame is sent. */
  datatype SendPlan = SendPlan(imported: bool, exported: bool, sendState: bool, sendPresent: bool)

  predicate Submittable(c: Channel, b: Buffer) {
    && b.id in c.targets
    && c.targets[b.id].reserved && !c.targets[b.id].busy && !c.targets[b.id].revoked
    && c.targets[b.id].metadata == b
  }

  function ContentState(c: Channel, opaque_: bool): seq<M.PhoneMsg> {
    if c.opacity == Some(opaque_) then []
    else [M.SetContentState(c.binding.oid, if opaque_ then M.OPAQUE else 0)]
  }

  /** `send_surfaceflinger_frame`: the channel after the attempt and the records that left. */
  function SendFrame(c: Channel, frame: u64, b: Buffer, damage: seq<Rect>, opaque_: bool, plan: SendPlan)
    : (r: (Channel, Option<SinkError>, seq<M.PhoneMsg>))
  {
    if c.binding.destroyRequested then (c, Some(UnexpectedMessage), [])
    else if b.id !in c.targets then (c, Some(UnknownRenderTarget(b.id)), [])
    else if !Submittable(c, b) then (c, Some(BufferMetadataMismatch(b.id)), [])
    else
      var state := ContentState(c, opaque_);
      if state != [] && !plan.sendState then (c, Some(Ipc), [])
      else
        var told := c.(opacity := Some(opaque_));
        var refused := c.binding.PrepareError(frame);
        if refused.Some? then (told, refused, state)
        else
          var point := c.binding.nextPoint + 1;
          var spent := told.(binding := c.binding.(nextPoint := point));
          if !plan.imported || !plan.exported then (spent, Some(Syncobj), state)
          else if !plan.sendPresent then (spent, Some(Ipc), state)
          else
            (told.(binding := c.binding.Prepared(frame),
                   targets := c.targets[b.id := c.targets[b.id].(reserved := false, busy := true)],
                   frameTargets := c.frameTargets[frame := b.id]),
             None,
             state + [M.Present(c.binding.oid, HostTask.Frame(frame, b.id, point, point, damage), c.binding.acked.value)])
  }

  /** `submit_surfaceflinger_target`: a failure rolls the stream back and returns the
      reservation, except that a missing window is reported with the target still reserved. */
  function Submit(p: Phone, b: Buffer, damage: Option<Rect>, opaque_: bool, plan: SendPlan): Outcome {
    var rects := SubmitDamage(b, damage);
    if !p.window then Fail(p, Graphics)
    else if !p.powered then Fail(Cancel(p, b.id), DisplayOff)
    else if p.stream.SubmitError(b, rects, true).Some? then
      Fail(Cancel(p, b.id), Composer(p.stream.SubmitError(b, rects, true).value))
    else
      var frame := p.stream.nextFrame + 1;
      var (after, error, sent) := SendFrame(p.channel, frame, b, rects, opaque_, plan);
      if error.Some? then
        Fail(Cancel(p.(channel := after, stream := p.stream.(nextFrame := frame)), b.id), error.value, sent)
      else Done(p.(channel := after, stream := p.stream.Submitted(b)), sent)
  }

  /** The binding records the acknowledgement before the record is handed to the socket. */
  function Ack(p: Phone, serial: u32, send: bool): Outcome {
    if !p.window then Fail(p, NoWindow)
    else if !p.stream.Acknowledges(serial) then Fail(p, Composer(InvalidSerial(serial)))
    else
      var q := p.(stream := p.stream.(acked := Some(serial)),
                  channel := p.channel.(binding := p.channel.binding.(acked := Some(serial))));
      if send then Done(q, [M.AckConfigure(p.channel.binding.oid, serial)]) else Fail(q, Ipc)
  }

  function ApplyConfigure(p: Phone, c: Configure): Phone {
    p.(stream := p.stream.Configured(c),
       channel := p.channel.(binding := p.channel.binding.(acked := None), demand := p.channel.demand.Configured(c.serial)))
  }

  function Retire(p: Phone, frame: u64, b: u64): Phone
    requires frame in p.stream.inFlight && b in p.channel.targets
  {
    var c := p.channel;
    var freed := p.(stream := p.stream.Retired(frame),
                    channel := c.(binding := c.binding.(pending := c.binding.pending - {frame}),
                                  frameTargets := c.frameTargets - {frame}));
    if c.targets[b].revoked then WithoutTarget(freed, b) else WithTarget(freed, b, c.targets[b].(busy := false))
  }

  function ApplyRelease(p: Phone, frame: u64, b: u64, point: u64): Outcome {
    var c := p.channel;
    if frame !in c.binding.pending || c.binding.pending[frame] != point then Fail(p, ReleaseMismatch)
    else if !p.window then Fail(p, NoWindow)
    else if frame !in p.stream.inFlight || p.stream.inFlight[frame] != b then Fail(p, ReleaseMismatch)
    else
      var retired := p.(stream := p.stream.Retired(frame),
                        channel := c.(binding := c.binding.(pending := c.binding.pending - {frame})));
      if frame !in c.frameTargets then Fail(retired, UnknownRenderTarget(b))
      else if c.frameTargets[frame] != b then Fail(retired, BufferMetadataMismatch(b))
      else if b !in c.targets then Fail(retired, UnknownRenderTarget(b))
      else Done(Retire(p, frame, b))
  }

  /** Records that update the Composer window itself. */
  predicate NeedsWindow(m: M.HostMsg) { m.FormatFeedback? || m.Configure? || m.Presented? }

  /** One record from the host, dispatched as the event pump does. */
  function Hear(p: Phone, m: M.HostMsg): Outcome {
    if m.oid != p.channel.binding.oid then Fail(p, WrongObject)
    else if !p.window && NeedsWindow(m) then Fail(p, NoWindow)
    else
      match m
      case FormatFeedback(_, _, formats) => Done(p.(stream := p.stream.(feedback := set f | f in formats)))
      case RegisterRenderTarget(_, serial, b) => RegisterTarget(p, serial, b)
      case UnregisterRenderTarget(_, b) => RevokeTarget(p, b)
      case Configure(_, c) => Done(ApplyConfigure(p, c))
      case BufferReleased(_, frame, b, point) => ApplyRelease(p, frame, b, point)
      case Presented(_, _) => Done(p)
      case Notice(_) => Done(p)
  }

  function Destroy(p: Phone, send: bool): Outcome {
    if p.channel.binding.destroyRequested then Done(p)
    else if !send then Fail(p, Ipc)
    else Done(p.(channel := p.channel.(binding := p.channel.binding.(destroyRequested := true))),
              [M.DestroyTask(p.channel.binding.oid)])
  }

  /** Removing the Composer window, which frames in flight forbid. */
  function RemoveWindow(p: Phone): Outcome {
    if !p.window then Fail(p, NoWindow)
    else if p.stream.inFlight != map[] then Fail(p, FramesInFlight)
    else Done(p.(window := false))
  }

  lemma WithTargetKeepsValid(p: Phone, b: u64, t: Target)
    requires p.Valid()
    requires t.metadata.id == b && !(t.reserved && t.busy) && (t.revoked ==> t.reserved || t.busy)
    requires t.busy <==> b in p.stream.busy
    ensures WithTarget(p, b, t).Valid()
  {
    hide Presentation.Valid;
  }

  lemma WithoutTargetKeepsValid(p: Phone, b: u64)
    requires p.Valid() && b !in p.stream.busy
    ensures WithoutTarget(p, b).Valid()
  {
    hide Presentation.Valid;
  }

  lemma CancelKeepsValid(p: Phone, b: u64)
    requires p.Valid()
    ensures Cancel(p, b).Valid()
  {
    if b in p.channel.targets && !p.channel.targets[b].busy {
      if p.channel.targets[b].revoked {
        WithoutTargetKeepsValid(p, b);
      } else {
        WithTargetKeepsValid(p, b, p.channel.targets[b].(reserved := false));
      }
    }
    hide Phone.Valid;
  }

  lemma RevokeKeepsValid(p: Phone, b: u64)
    requires p.Valid()
    ensures RevokeTarget(p, b).phone.Valid()
  {
    if b in p.channel.targets {
      var t := p.channel.targets[b];
      if t.reserved || t.busy { WithTargetKeepsValid(p, b, t.(revoked := true)); } else { WithoutTargetKeepsValid(p, b); }
    }
    hide Phone.Valid;
  }

  /** What neither the pool nor the stream depends on. */
  lemma NotesKeepValid(p: Phone, d: Demand, opacity: Option<bool>, point: u64, frame: u64, powered: bool, destroyed: bool)
    requires p.Valid() && d.serial == p.channel.demand.serial
    requires p.channel.binding.nextPoint <= point && p.stream.nextFrame <= frame
    ensures Phone(p.channel.(demand := d, opacity := opacity,
                             binding := p.channel.binding.(nextPoint := point, destroyRequested := destroyed)),
                  p.stream.(nextFrame := frame), powered, p.window).Valid()
  {
    hide Holds;
  }

  lemma EnsureKeepsValid(p: Phone, lazy: bool, send: bool)
    requires p.Valid()
    ensures var q := Ensure(p, lazy, send).phone;
            q.Valid() && q == p.(channel := p.channel.(demand := q.channel.demand))
  {
    hide Phone.Valid;
    var q, b := Ensure(p, lazy, send).phone, p.channel.binding;
    NotesKeepValid(p, q.channel.demand, p.channel.opacity, b.nextPoint, p.stream.nextFrame, p.powered, b.destroyRequested);
  }

  lemma AcquireKeepsValid(p: Phone, lazy: bool, send: bool, cloned: bool)
    requires p.Valid()
    ensures Acquire(p, lazy, send, cloned).phone.Valid()
  {
    EnsureKeepsValid(p, lazy, send);
    var r, q := Acquire(p, lazy, send, cloned), Ensure(p, lazy, send).phone;
    if r.target.Some? {
      WithTargetKeepsValid(q, r.target.value, q.channel.targets[r.target.value].(reserved := true));
    }
    hide Phone.Valid;
  }

  lemma RetireKeepsPool(p: Phone, frame: u64, b: u64)
    requires p.Valid() && frame in p.stream.inFlight && p.stream.inFlight[frame] == b
    ensures b in p.stream.busy && b in p.channel.targets && Retire(p, frame, b).PoolValid()
  {
    assert b in p.stream.inFlight.Values;
    hide Presentation.Valid, Phone.FramesAgree, Phone.PointsValid, Phone.AckValid;
  }

  lemma RetireKeepsValid(p: Phone, frame: u64, b: u64)
    requires p.Valid() && frame in p.stream.inFlight && p.stream.inFlight[frame] == b
    ensures b in p.channel.targets && Retire(p, frame, b).Valid()
  {
    RetireKeepsPool(p, frame, b);
    p.stream.RetiredKeepsValid(frame);
    hide Presentation.Valid, Phone.PoolValid;
  }

  lemma PresentKeepsPool(p: Phone, b: Buffer)
    requires p.Valid() && Submittable(p.channel, b) && b.id !in p.stream.busy && p.stream.nextFrame + 1 < U64_LIMIT
    ensures Phone(p.channel.(targets := p.channel.targets[b.id := p.channel.targets[b.id].(reserved := false, busy := true)]),
                  p.stream.Submitted(b), p.powered, p.window).PoolValid()
  {
    hide Presentation.Valid;
  }

  /** A frame that reached the wire: its target turns from reserved to busy, and the three
      frame tables gain the same fresh frame. */
  lemma SentFrameKeepsValid(p: Phone, b: Buffer, opacity: Option<bool>)
    requires p.Valid() && p.window && Submittable(p.channel, b) && b.id !in p.stream.busy
    requires p.stream.nextFrame + 1 < U64_LIMIT && p.channel.binding.nextPoint + 1 < U64_LIMIT
    ensures var frame := p.stream.nextFrame + 1;
            Phone(p.channel.(binding := p.channel.binding.Prepared(frame),
                             targets := p.channel.targets[b.id := p.channel.targets[b.id].(reserved := false, busy := true)],
                             frameTargets := p.channel.frameTargets[frame := b.id], opacity := opacity),
                  p.stream.Submitted(b), p.powered, p.window).Valid()
  {
    PresentKeepsPool(p, b);
    p.stream.SubmittedKeepsValid(b);
    hide Presentation.Valid, Phone.PoolValid;
    assert p.stream.nextFrame + 1 !in p.channel.binding.pending;
  }

  lemma SubmitKeepsValid(p: Phone, b: Buffer, damage: Option<Rect>, opaque_: bool, plan: SendPlan)
    requires p.Valid()
    ensures Submit(p, b, damage, opaque_, plan).phone.Valid()
  {
    hide Phone.Valid, Presentation.SubmitError;
    var rects := SubmitDamage(b, damage);
    CancelKeepsValid(p, b.id);
    if p.window && p.powered && p.stream.SubmitError(b, rects, true).None? {
      SubmitFacts(p.stream, b, rects);
      var frame, c := p.stream.nextFrame + 1, p.channel;
      var (after, error, sent) := SendFrame(c, frame, b, rects, opaque_, plan);
      if error.None? {
        SentFrameKeepsValid(p, b, Some(opaque_));
      } else {
        NotesKeepValid(p, c.demand, after.opacity, after.binding.nextPoint, frame, p.powered, c.binding.destroyRequested);
        CancelKeepsValid(p.(channel := after, stream := p.stream.(nextFrame := frame)), b.id);
      }
    }
  }

  lemma SubmitFacts(s: Presentation, b: Buffer, damage: seq<Rect>)
    requires s.SubmitError(b, damage, true).None?
    ensures s.nextFrame + 1 < U64_LIMIT && b.id !in s.busy && b.Valid() && b.format in s.feedback
    ensures s.latest.Some? && s.acked == Some(s.latest.value.serial)
    ensures b.width == s.latest.value.width && b.height == s.latest.value.height
    ensures forall i :: 0 <= i < |damage| ==> damage[i].Fits(b.width, b.height)
  {
  }

  lemma StreamStepsKeepValid(p: Phone, c: Configure, formats: set<Format>, serial: u32)
    requires p.Valid()
    ensures ApplyConfigure(p, c).Valid()
    ensures p.(stream := p.stream.(feedback := formats)).Valid()
    ensures p.stream.Acknowledges(serial) ==>
      p.(stream := p.stream.(acked := Some(serial)),
         channel := p.channel.(binding := p.channel.binding.(acked := Some(serial)))).Valid()
  {
    hide Holds;
  }

  lemma HearKeepsValid(p: Phone, m: M.HostMsg)
    requires p.Valid()
    ensures Hear(p, m).phone.Valid() || Hear(p, m).error.Some?
    ensures Hear(p, m).error.Some? ==> Hear(p, m).phone == p
  {
    if m.BufferReleased? && m.frameId in p.stream.inFlight && p.stream.inFlight[m.frameId] == m.bufferId {
      RetireKeepsValid(p, m.frameId, m.bufferId);
      assert m.frameId in p.channel.frameTargets && p.channel.frameTargets[m.frameId] == m.bufferId;
    }
    if m.UnregisterRenderTarget? { RevokeKeepsValid(p, m.bufferId); }
    if m.RegisterRenderTarget? && m.buffer.id !in p.channel.targets {
      assert m.buffer.id !in p.stream.busy;
      WithTargetKeepsValid(p, m.buffer.id, Target(m.serial, m.buffer, false, false, false));
    }
    if m.Configure? { StreamStepsKeepValid(p, m.configure, {}, 0); }
    if m.FormatFeedback? { StreamStepsKeepValid(p, Configure(0, 0, 0, 0), set f | f in m.formats, 0); }
    hide Phone.Valid;
  }
}
