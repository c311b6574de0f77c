/** The two peers of one task object and the ordered channel between them.

    `sent` and `back` are every record ever handed to the socket in each direction; the
    cursors `taken` and `heard` separate what the other side has consumed from what is
    still queued. Every kernel call and every send may fail, and the two sides may be
    interleaved in any order. */
module Protocol {
  import opened Base
  import opened Serial
  import opened Dmabuf
  import opened HostTask
  import opened Phone
  import opened PhoneRuns
  import E = Endpoint
  import M = Messages

  /** How far the event pump is with the record at its cursor: nothing looked at; looked at
      before any removal; its channel found; applied and to be acknowledged, with the session
      still locked; acknowledged; known to be registered; about to be announced, to a display
      that was or was not connected. */
  datatype Stage = Waiting | Looked | Found | Acking(serial: u32) | Connecting | Dispatching | Announcing(connected: bool)

  /** What the Android service knows about the object besides its window: whether it is a
      direct task, which is never announced as a display; whether its display is connected;
      and the last two steps of its removal. */
  datatype Service = Service(direct: bool, stage: Stage, connected: bool, forgotten: bool, retired: bool) {
    function At(next: Stage): Service { this.(stage := next) }

    /** An acknowledgement moves the pump on; removing the window disconnects the display. */
    function Moved(move: PhoneStep): Service {
      if move.Acked? then At(Connecting) else if move.WindowRemoved? then this.(connected := false) else this
    }
  }

  datatype Sys = Sys(
    oid: u64,
    phone: Phone,
    host: E.Table,
    sent: seq<M.PhoneMsg>,
    taken: nat,
    back: seq<M.HostMsg>,
    heard: nat,
    // What happened so far, kept to state properties: releases the endpoint consumed
    // locally, every buffer ever lent, whether an acknowledgement of the host's current
    // serial was handed to the socket, whether one was lost, whether the host has taken
    // the `DestroyTask`.
    swallowed: set<u64>,
    issued: map<u64, Buffer>,
    told: bool,
    lost: bool,
    ended: bool,
    // The event pump runs until its first error; the connection until the host's.
    pump: bool,
    open: bool,
    // Android has begun to remove the task.
    removing: bool,
    service: Service)
  {
    predicate Live() { oid in host }

    function H(): Task requires Live() { host[oid].state }

    function B(): Binding { phone.channel.binding }

    /** The host's current configure serial. */
    predicate Current(serial: u32) { Live() && H().configure.Some? && H().configure.value.serial == serial }
  }

  datatype Step =
    | PhoneMoves(move: PhoneStep)
    | PumpLooks
    | PumpFinds
    | PumpApplies
    | PumpConnects
    | PumpDispatches
    | PumpAnnounces(told: bool)
    | RemovalBegins
    | Disconnects
    | ChannelForgotten
    | RemovalEnds
    | HostTakes(fence: bool, signal: bool, send: bool)
    | HostActs(action: E.Action)

  ghost predicate Init(s: Sys) {
    && s.oid != 0
    && s.phone == NewPhone(s.oid)
    && E.Valid(s.host) && s.oid !in s.host
    && (exists d :: s.sent == [M.CreateTask(s.oid, d), M.BindTimelines(s.oid)])
    && s.taken == 0 && s.back == [] && s.heard == 0
    && s.swallowed == {} && s.issued == map[]
    && !s.told && !s.lost && !s.ended && s.pump && s.open && !s.removing
    && s.service == Service(s.service.direct, Waiting, false, false, false)
  }

  // ------------------------------------------------------------------------------------
  // Transitions

  ghost function MovePhone(s: Sys, move: PhoneStep): Sys {
    var r := Apply(s.phone, move);
    s.(phone := r.phone,
       sent := s.sent + r.sent,
       told := s.told || (move.Acked? && r.error.None? && s.Current(move.serial)),
       lost := s.lost || (move.Acked? && r.error == Some(Ipc)),
       pump := s.pump && !(move.Acked? && r.error.Some?))
  }

  // The event pump handles one record at a time, in several steps that the removal of the
  // task, on another thread, can fall between.

  predicate Targets(m: M.HostMsg) { m.RegisterRenderTarget? || m.UnregisterRenderTarget? }

  /** The record at the cursor is applied to the task's channel and window. A lent or revoked
      target that could not be applied is forgiven when a second look shows a removal. The look
      is part of this step: it may come later, but what it looks for never goes away again. */
  ghost function HearNext(s: Sys): Sys
    requires s.heard < |s.back|
  {
    var r := Hear(s.phone, s.back[s.heard]);
    s.(phone := r.phone, heard := s.heard + 1, pump := r.error.None? || (s.removing && Targets(s.back[s.heard])))
  }

  /** The outcome of one step of the pump: whether it is done with the record, whether it goes
      on, and what the service knows then. */
  datatype Turn = Turn(done: bool, pump: bool, service: Service)

  function Turned(s: Sys, p: Phone, turn: Turn): Sys {
    s.(phone := p, heard := if turn.done then s.heard + 1 else s.heard, pump := turn.pump, service := turn.service)
  }

  /** Records of a task being removed are passed over, but for releases; those of a retired
      one are passed over all. */
  function Look(s: Sys): Turn
    requires s.heard < |s.back|
  {
    if s.service.retired || (s.removing && !s.back[s.heard].BufferReleased?) then Turn(true, true, s.service)
    else Turn(false, true, s.service.At(Looked))
  }

  /** A missing channel is forgiven when a second look, folded into this step for the same
      reason, shows the object retired. */
  function Find(v: Service): Turn {
    if !v.forgotten then Turn(false, true, v.At(Found))
    else if v.retired then Turn(true, true, v.At(Waiting))
    else Turn(false, false, v.At(Waiting))
  }

  /** Android has no use for the record: a configure without extent, or a presentation before
      a refresh rate is known. */
  predicate Unfit(p: Phone, m: M.HostMsg) {
    || (m.Configure? && (m.configure.width == 0 || m.configure.height == 0))
    || (m.Presented? && (p.stream.latest.None? || p.stream.latest.value.refreshMillihz == 0))
  }

  ghost predicate Applies(s: Sys)
    requires s.heard < |s.back|
  {
    var m := s.back[s.heard];
    if s.service.forgotten then Targets(m) else HearNext(s).pump && !Unfit(s.phone, m)
  }

  ghost function Settle(s: Sys): Turn
    requires s.heard < |s.back|
  {
    var m := s.back[s.heard];
    Turn(true, Applies(s), s.service.At(if Applies(s) && m.Configure? then Acking(m.configure.serial) else Waiting))
  }

  ghost function Settled(s: Sys): Phone
    requires s.heard < |s.back|
  {
    if s.service.forgotten then s.phone else Hear(s.phone, s.back[s.heard]).phone
  }

  function Connect(v: Service): Turn { if v.retired then Turn(false, false, v.At(Waiting)) else Turn(false, true, v.At(Dispatching)) }

  /** A direct task only queues a resize. After its retirement it no longer counts as direct. */
  function Dispatch(v: Service): Turn {
    Turn(false, true, v.At(if v.direct && !v.retired then Waiting else Announcing(v.connected)))
  }

  /** A display seen connected is refreshed, another one is connected; `told` is the answer of
      the callback. */
  function Announce(v: Service, p: Phone, told: bool): Turn
    requires v.stage.Announcing?
  {
    if v.connected != v.stage.connected || !p.window || p.stream.latest.None? || p.stream.latest.value.refreshMillihz == 0
    then Turn(false, false, v.At(Waiting))
    else Turn(false, told, v.(stage := Waiting, connected := true))
  }

  function Receive(t: E.Table, m: M.PhoneMsg, fence: bool, signal: bool, send: bool): E.Effect {
    match m
    case CreateTask(o, display) => E.DoCreate(t, o, display)
    case BindTimelines(o) => E.DoBindTimelines(t, o, fence)
    case AckConfigure(o, serial) => E.DoAck(t, o, serial)
    case Present(o, frame, serial) => E.DoPresent(t, o, frame, serial, fence, signal, send)
    case DestroyTask(o) => E.DoDestroy(t, o)
    case _ => if m.oid in t then E.Effect(t, None, None) else E.Fail(t, E.UnknownObject(m.oid))
  }

  function TakeNext(s: Sys, fence: bool, signal: bool, send: bool): Sys
    requires s.taken < |s.sent|
  {
    var m := s.sent[s.taken];
    var x := Receive(s.host, m, fence, signal, send);
    s.(host := x.table, back := s.back + E.Records(x.record), taken := s.taken + 1,
       ended := s.ended || m.DestroyTask?, open := x.error.None?)
  }

  function ActHost(s: Sys, a: E.Action): Sys {
    var x := E.Apply(s.host, a);
    if a.oid != s.oid then s.(host := x.table, open := x.error.None?)
    else
      s.(host := x.table, back := s.back + E.Records(x.record), open := x.error.None?,
         told := if a.SendConfigure? && !s.Current(a.configure.serial) then false else s.told,
         issued := if a.Lend? && x.error.None? then s.issued[a.buffer.id := a.buffer] else s.issued,
         swallowed := if (a.FinishRelease? || a.DiscardFrame?) && s.Live() && s.host[s.oid].retiring
                      then s.swallowed + {a.frameId} else s.swallowed)
  }

  predicate Older(r: u32, serial: u32) { r != serial && SerialPrecedes(r, serial) }

  /** A new configure serial comes after every serial still outstanding between the peers. */
  ghost predicate Advances(s: Sys, serial: u32) {
    && (s.Live() && s.H().configure.Some? ==> Older(s.H().configure.value.serial, serial))
    && (forall i :: s.taken <= i < |s.sent| && s.sent[i].AckConfigure? ==> Older(s.sent[i].serial, serial))
    && (forall i :: s.taken <= i < |s.sent| && s.sent[i].Present? ==> Older(s.sent[i].serial, serial))
    && (forall i :: s.heard <= i < |s.back| && s.back[i].Configure? ==> Older(s.back[i].configure.serial, serial))
    && (s.phone.stream.latest.Some? ==> Older(s.phone.stream.latest.value.serial, serial))
  }

  /** The host's decisions are free, except that it numbers configures and buffers as it
      promises: a repeated serial keeps its dimensions, a new one advances, and a buffer
      identity is never lent twice. */
  ghost predicate Allowed(s: Sys, a: E.Action) {
    a.oid != s.oid || (
      match a
      case SendConfigure(_, c, _) =>
        if s.Current(c.serial)
        then c.width == s.H().configure.value.width && c.height == s.H().configure.value.height
        else Advances(s, c.serial)
      case Lend(_, _, b, _) => b.id !in s.issued
      case SendFeedback(_, _, _, _) => true
      case Revoke(_, _, _) => true
      case FinishRelease(_, _, _) => true
      case DiscardFrame(_, _, _) => true
      case Track(_, _) => true
      case Forget(_, _) => true
      case SendPresented(_, _, _) => true
      case SendNotice(_, _) => true
      case BindTask(_, _) => true
      case _ => false)
  }

  ghost predicate Enabled(s: Sys, step: Step) {
    s.open && match step
      case PhoneMoves(move) =>
        && !move.Heard? && !s.service.forgotten
        && (move.Acked? ==> s.pump && s.service.stage == Acking(move.serial))
        && (NeedsSession(move) ==> !s.service.stage.Acking?)
        && (move.Destroyed? ==> s.removing) && (move.WindowRemoved? ==> s.B().destroyRequested)
      case PumpLooks => s.pump && s.service.stage == Waiting && s.heard < |s.back|
      case PumpFinds => s.pump && s.service.stage == Looked && s.heard < |s.back| && !Targets(s.back[s.heard])
      case PumpApplies => s.pump && s.heard < |s.back| && s.service.stage == if Targets(s.back[s.heard]) then Looked else Found
      case PumpConnects => s.pump && s.service.stage == Connecting
      case PumpDispatches => s.pump && s.service.stage == Dispatching
      case PumpAnnounces(_) => s.pump && s.service.stage.Announcing?
      case RemovalBegins => true
      case Disconnects => s.B().destroyRequested
      case ChannelForgotten => s.B().destroyRequested && !s.phone.window
      case RemovalEnds => s.service.forgotten
      case HostTakes(_, _, _) => s.taken < |s.sent|
      case HostActs(a) => Allowed(s, a)
  }

  /** Moves that wait for the session lock, which the pump holds from applying a configure
      until it has acknowledged it. */
  predicate NeedsSession(move: PhoneStep) { move.Submitted? || move.Powered? || move.WindowRemoved? }

  ghost function Next(s: Sys, step: Step): Sys
    requires Enabled(s, step)
  {
    match step
    case PhoneMoves(move) => MovePhone(s, move).(service := s.service.Moved(move))
    case PumpLooks => Turned(s, s.phone, Look(s))
    case PumpFinds => Turned(s, s.phone, Find(s.service))
    case PumpApplies => Turned(s, Settled(s), Settle(s))
    case PumpConnects => Turned(s, s.phone, Connect(s.service))
    case PumpDispatches => Turned(s, s.phone, Dispatch(s.service))
    case PumpAnnounces(told) => Turned(s, s.phone, Announce(s.service, s.phone, told))
    case RemovalBegins => s.(removing := true)
    case Disconnects => s.(service := s.service.(connected := false))
    case ChannelForgotten => s.(service := s.service.(forgotten := true))
    case RemovalEnds => s.(service := s.service.(retired := true))
    case HostTakes(fence, signal, send) => TakeNext(s, fence, signal, send)
    case HostActs(a) => ActHost(s, a)
  }

  // ------------------------------------------------------------------------------------
  // Invariant

  ghost predicate Structure(s: Sys) {
    && s.oid != 0
    && s.taken <= |s.sent| && s.heard <= |s.back| && 2 <= |s.sent|
    && s.B().oid == s.oid
    && (forall i :: 0 <= i < |s.sent| ==> s.sent[i].oid == s.oid)
    && (forall i :: 0 <= i < |s.back| ==> s.back[i].oid == s.oid)
    && s.sent[0].CreateTask? && s.sent[1].BindTimelines?
    && (forall i :: 2 <= i < |s.sent| ==> !s.sent[i].CreateTask? && !s.sent[i].BindTimelines?)
    && s.phone.Valid()
    && E.Valid(s.host)
  }

  ghost predicate Lifecycle(s: Sys) {
    && (forall i :: 0 <= i < |s.sent| && s.sent[i].DestroyTask? ==> s.B().destroyRequested)
    && (forall i, j :: 0 <= i < j < |s.sent| && s.sent[i].DestroyTask? ==> s.sent[j].AckConfigure?)
    && (s.ended ==> s.B().destroyRequested && 2 <= s.taken
                    && forall i :: s.taken <= i < |s.sent| ==> s.sent[i].AckConfigure?)
    && (if s.ended then s.Live() ==> s.host[s.oid].retiring
        else if s.taken == 0 then !s.Live() && s.back == []
        else s.Live() && !s.host[s.oid].retiring && (s.taken >= 2 <==> s.H().timelinesBound))
  }

  /** A serial still in use was issued by the host and is current or superseded. */
  ghost predicate Issued(s: Sys, r: u32) {
    (s.ended && !s.Live()) || (s.Live() && s.H().configure.Some?
                && (r == s.H().configure.value.serial || SerialPrecedes(r, s.H().configure.value.serial)))
  }

  ghost predicate Serials(s: Sys) {
    && (forall i :: s.taken <= i < |s.sent| && s.sent[i].AckConfigure? ==> Issued(s, s.sent[i].serial))
    && (forall i :: s.taken <= i < |s.sent| && s.sent[i].Present? ==> Issued(s, s.sent[i].serial))
    && (forall i :: s.heard <= i < |s.back| && s.back[i].Configure? ==> Issued(s, s.back[i].configure.serial))
    && (s.phone.stream.latest.Some? ==> Issued(s, s.phone.stream.latest.value.serial))
  }

  /** The host will have acknowledged its current serial by the time it takes record `i`. */
  ghost predicate AckedBy(s: Sys, i: nat) {
    s.Live() && s.H().configure.Some?
    && (s.H().acked == Some(s.H().configure.value.serial)
        || exists k :: s.taken <= k < i && k < |s.sent| && s.sent[k] == M.AckConfigure(s.oid, s.H().configure.value.serial))
  }

  ghost predicate Acks(s: Sys) {
    && (s.lost ==> !s.pump)
    && (forall i :: s.taken <= i < |s.sent| && s.sent[i].Present? && s.Current(s.sent[i].serial) ==>
          if s.told then AckedBy(s, i) else s.lost)
    && (s.B().acked.Some? && s.Current(s.B().acked.value) ==> s.told || s.lost)
    && (s.Live() && s.H().configure.Some? ==> (s.told <==> AckedBy(s, |s.sent|)))
    && (!s.Live() && !s.ended ==> !s.told)
  }

  ghost predicate Points(s: Sys) {
    && (forall i :: s.taken <= i < |s.sent| && s.sent[i].Present? ==>
          var f := s.sent[i].frame;
          && 0 < f.acquirePoint == f.releasePoint <= s.B().nextPoint
          && (s.Live() ==> s.H().lastAcquire < f.acquirePoint && s.H().lastRelease < f.releasePoint))
    && (forall i, j :: s.taken <= i < j < |s.sent| && s.sent[i].Present? && s.sent[j].Present? ==>
          s.sent[i].frame.releasePoint < s.sent[j].frame.releasePoint)
    && (s.Live() ==> s.H().lastAcquire <= s.B().nextPoint && s.H().lastRelease <= s.B().nextPoint)
  }

  /** Android waits for exactly this release. */
  predicate Owed(s: Sys, frame: u64, buffer: u64, point: u64) {
    && frame in s.B().pending && s.B().pending[frame] == point
    && frame in s.phone.stream.inFlight && s.phone.stream.inFlight[frame] == buffer
  }

  predicate Queued(s: Sys, frame: u64) {
    exists i :: s.taken <= i < |s.sent| && s.sent[i].Present? && s.sent[i].frame.frame == frame
  }

  predicate Returning(s: Sys, frame: u64) {
    exists i :: s.heard <= i < |s.back| && s.back[i].BufferReleased? && s.back[i].frameId == frame
  }

  predicate OnHost(s: Sys, frame: u64) { s.Live() && frame in s.H().inFlight }

  ghost predicate Tokens(s: Sys) {
    && (forall i :: s.taken <= i < |s.sent| && s.sent[i].Present? ==>
          Owed(s, s.sent[i].frame.frame, s.sent[i].frame.buffer, s.sent[i].frame.releasePoint))
    && (s.Live() ==> forall f :: f in s.H().inFlight ==> Owed(s, f, s.H().inFlight[f].buffer, s.H().inFlight[f].releasePoint))
    && (forall i :: s.heard <= i < |s.back| && s.back[i].BufferReleased? ==>
          && Owed(s, s.back[i].frameId, s.back[i].bufferId, s.back[i].point)
          && !OnHost(s, s.back[i].frameId) && s.back[i].frameId !in s.swallowed
          && (s.Live() ==> s.back[i].point <= s.H().lastRelease))
    && (forall i, j :: s.heard <= i < j < |s.back| && s.back[i].BufferReleased? && s.back[j].BufferReleased? ==>
          s.back[i].frameId != s.back[j].frameId)
    && (forall f :: f in s.swallowed ==> s.ended && f in s.B().pending && !OnHost(s, f))
  }

  /** Every frame Android waits for is somewhere. */
  ghost predicate Covered(s: Sys) {
    forall f :: f in s.B().pending ==> Queued(s, f) || OnHost(s, f) || Returning(s, f) || f in s.swallowed
  }

  ghost predicate Lent(s: Sys, b: Buffer) { b.id in s.issued && s.issued[b.id] == b }

  ghost predicate Metadata(s: Sys) {
    && (forall b :: b in s.phone.channel.targets ==> Lent(s, s.phone.channel.targets[b].metadata))
    && (forall i :: s.heard <= i < |s.back| && s.back[i].RegisterRenderTarget? ==> Lent(s, s.back[i].buffer))
    && (s.Live() ==> forall b :: b in s.H().buffers ==> Lent(s, s.H().buffers[b]))
    && (forall b :: b in s.issued ==> s.issued[b].id == b)
  }

  predicate SameSize(s: Sys, serial: u32, width: u32, height: u32) {
    s.Current(serial) ==> s.H().configure.value.width == width && s.H().configure.value.height == height
  }

  ghost predicate Sizes(s: Sys) {
    && (forall i :: s.heard <= i < |s.back| && s.back[i].Configure? ==>
          SameSize(s, s.back[i].configure.serial, s.back[i].configure.width, s.back[i].configure.height))
    && (s.phone.stream.latest.Some? ==>
          SameSize(s, s.phone.stream.latest.value.serial, s.phone.stream.latest.value.width, s.phone.stream.latest.value.height))
    && (forall i :: s.taken <= i < |s.sent| && s.sent[i].Present? ==>
          var f := s.sent[i].frame;
          && f.buffer in s.issued
          && SameSize(s, s.sent[i].serial, s.issued[f.buffer].width, s.issued[f.buffer].height)
          && |f.damage| <= 1
          && forall k :: 0 <= k < |f.damage| ==> f.damage[k].Fits(s.issued[f.buffer].width, s.issued[f.buffer].height))
  }

  ghost predicate Inv(s: Sys) {
    && Structure(s) && Lifecycle(s) && Serials(s) && Acks(s) && Points(s)
    && Tokens(s) && Covered(s) && Metadata(s) && Sizes(s)
  }
}
