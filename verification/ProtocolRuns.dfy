/** What holds in every run of the two peers, however their steps interleave and whatever
    sends and kernel calls fail. */
module ProtocolRuns {
  import opened Base
  import opened Serial
  import opened Dmabuf
  import opened HostTask
  import opened Phone
  import opened PhoneRuns
  import opened Protocol
  import opened ProtocolFrames
  import opened ProtocolSteps
  import opened ProtocolHears
  import opened ProtocolHost
  import opened ProtocolPump
  import opened ProtocolPool
  import E = Endpoint
  import M = Messages

  ghost predicate IsRun(states: seq<Sys>, steps: seq<Step>) {
    && |states| == |steps| + 1
    && Init(states[0])
    && forall i :: 0 <= i < |steps| ==> Enabled(states[i], steps[i]) && states[i + 1] == Next(states[i], steps[i])
  }

  lemma StepKeepsInv(s: Sys, step: Step)
    requires Inv(s) && Lending(s) && Enabled(s, step)
    ensures Next(s, step).open ==> Inv(Next(s, step)) && Lending(Next(s, step))
  {
    hide Inv, Lending, MovePhone, TakeNext, ActHost, Allowed, Look, Find, Settle, Settled, Connect, Dispatch, Announce;
    match step {
      case PhoneMoves(move) =>
        PhoneStepKeepsInv(s, move);
        var t := MovePhone(s, move);
        ServiceKeepsInv(t, t.removing, s.service.Moved(move), t.pump);
      case HostTakes(fence, signal, send) => TakeStepKeepsInv(s, fence, signal, send);
      case HostActs(a) => ActStepKeepsInv(s, a);
      case _ =>
        LendingIsOrdered(s);
        PumpStepKeepsInv(s, step);
    }
    if Next(s, step).open { PoolKept(s, step); }
  }

  lemma LendingIsOrdered(s: Sys)
    requires Lending(s)
    ensures (s.service.forgotten ==> !s.phone.window) && (s.service.retired ==> !s.phone.window)
  {
    hide Pool, Reliable, Fit;
  }

  lemma {:induction false} RunHolds(states: seq<Sys>, steps: seq<Step>, i: nat)
    requires IsRun(states, steps) && i < |states|
    ensures states[i].open ==> Inv(states[i]) && Lending(states[i])
  {
    hide Inv, Lending, Next, Enabled;
    if i == 0 {
      InitHolds(states[0]);
      PoolInit(states[0]);
    } else {
      RunHolds(states, steps, i - 1);
      assert Enabled(states[i - 1], steps[i - 1]);
      EnabledIsOpen(states[i - 1], steps[i - 1]);
      StepKeepsInv(states[i - 1], steps[i - 1]);
    }
  }

  lemma PoolInit(s: Sys)
    requires Init(s)
    ensures Lending(s)
  {
    InitIsStaged(s);
    hide E.Valid, Staged;
  }

  lemma EnabledIsOpen(s: Sys, step: Step)
    requires Enabled(s, step)
    ensures s.open
  {
    hide Allowed;
  }

  // ------------------------------------------------------------------------------------
  // Frames

  function QueuedFrames(s: Sys): set<u64> {
    set i | s.taken <= i < |s.sent| && s.sent[i].Present? :: s.sent[i].frame.frame
  }

  function ReturningFrames(s: Sys): set<u64> {
    set i | s.heard <= i < |s.back| && s.back[i].BufferReleased? :: s.back[i].frameId
  }

  function HostFrames(s: Sys): set<u64> { if s.Live() then s.H().inFlight.Keys else {} }

  /** Each frame of a run is in exactly one place. */
  ghost predicate Conserved(s: Sys) {
    && s.B().pending.Keys == s.phone.stream.inFlight.Keys
    && s.B().pending.Keys == QueuedFrames(s) + HostFrames(s) + ReturningFrames(s) + s.swallowed
    && QueuedFrames(s) !! HostFrames(s) && QueuedFrames(s) !! ReturningFrames(s) && QueuedFrames(s) !! s.swallowed
    && HostFrames(s) !! ReturningFrames(s) && HostFrames(s) !! s.swallowed && ReturningFrames(s) !! s.swallowed
    && (forall i, j :: s.taken <= i < j < |s.sent| && s.sent[i].Present? && s.sent[j].Present? ==>
          s.sent[i].frame.frame != s.sent[j].frame.frame)
    && (forall i, j :: s.heard <= i < j < |s.back| && s.back[i].BufferReleased? && s.back[j].BufferReleased? ==>
          s.back[i].frameId != s.back[j].frameId)
  }

  lemma QueuedIsNotElsewhere(s: Sys, i: nat)
    requires Lifecycle(s) && Tokens(s) && Points(s) && s.taken <= i < |s.sent| && s.sent[i].Present?
    requires s.Live() ==> s.H().PointsOrdered()
    ensures !OnHost(s, s.sent[i].frame.frame) && s.sent[i].frame.frame !in s.swallowed
  {
  }

  lemma QueuedIsNotReturning(s: Sys, i: nat, j: nat)
    requires Lifecycle(s) && Tokens(s) && Points(s)
    requires s.taken <= i < |s.sent| && s.sent[i].Present? && s.heard <= j < |s.back| && s.back[j].BufferReleased?
    ensures s.sent[i].frame.frame != s.back[j].frameId
  {
  }

  lemma QueuedAreDistinct(s: Sys, i: nat, j: nat)
    requires Tokens(s) && Points(s) && s.taken <= i < j < |s.sent| && s.sent[i].Present? && s.sent[j].Present?
    ensures s.sent[i].frame.frame != s.sent[j].frame.frame
  {
    assert Owed(s, s.sent[i].frame.frame, s.sent[i].frame.buffer, s.sent[i].frame.releasePoint);
    assert Owed(s, s.sent[j].frame.frame, s.sent[j].frame.buffer, s.sent[j].frame.releasePoint);
  }

  /** The places of a frame exclude each other. */
  lemma PlacesAreDisjoint(s: Sys)
    requires Lifecycle(s) && Tokens(s) && Points(s) && (s.Live() ==> s.H().PointsOrdered())
    ensures QueuedFrames(s) !! HostFrames(s) && QueuedFrames(s) !! ReturningFrames(s) && QueuedFrames(s) !! s.swallowed
    ensures HostFrames(s) !! ReturningFrames(s) && HostFrames(s) !! s.swallowed && ReturningFrames(s) !! s.swallowed
  {
    forall i | s.taken <= i < |s.sent| && s.sent[i].Present?
      ensures s.sent[i].frame.frame !in HostFrames(s) && s.sent[i].frame.frame !in s.swallowed
    {
      QueuedIsNotElsewhere(s, i);
    }
    forall i, j | s.taken <= i < |s.sent| && s.sent[i].Present? && s.heard <= j < |s.back| && s.back[j].BufferReleased?
      ensures s.sent[i].frame.frame != s.back[j].frameId
    {
      QueuedIsNotReturning(s, i, j);
    }
    hide Lifecycle, Points;
    forall j | s.heard <= j < |s.back| && s.back[j].BufferReleased? ensures !OnHost(s, s.back[j].frameId) {}
  }

  lemma PlacesAreAll(s: Sys)
    requires Tokens(s) && Covered(s)
    ensures s.B().pending.Keys == QueuedFrames(s) + HostFrames(s) + ReturningFrames(s) + s.swallowed
  {
    forall f | f in s.B().pending ensures f in QueuedFrames(s) + HostFrames(s) + ReturningFrames(s) + s.swallowed {
      assert Queued(s, f) || OnHost(s, f) || Returning(s, f) || f in s.swallowed;
    }
    forall f | f in QueuedFrames(s) + HostFrames(s) + ReturningFrames(s) + s.swallowed ensures f in s.B().pending {
      if f in HostFrames(s) {
        assert Owed(s, f, s.H().inFlight[f].buffer, s.H().inFlight[f].releasePoint);
      }
    }
  }

  lemma HostPointsOrdered(s: Sys)
    requires Structure(s) && s.Live()
    ensures s.H().PointsOrdered() && s.H().Valid()
  {
    E.EntryStateIsValid(s.host, s.oid);
    hide Phone.Valid, E.Valid, E.Entry.Valid;
  }

  lemma FramesOfPhone(p: Phone)
    requires p.Valid()
    ensures p.channel.binding.pending.Keys == p.stream.inFlight.Keys
  {
  }

  lemma InvConserves(s: Sys)
    requires Inv(s)
    ensures Conserved(s)
  {
    hide Structure, Lifecycle, Serials, Acks, Points, Tokens, Covered, Metadata, Sizes, Phone.Valid, E.Valid;
    hide QueuedFrames, HostFrames, ReturningFrames;
    Bounds(s);
    if s.Live() { HostPointsOrdered(s); }
    FramesOfPhone(s.phone);
    PlacesAreDisjoint(s);
    PlacesAreAll(s);
    forall i, j | s.taken <= i < j < |s.sent| && s.sent[i].Present? && s.sent[j].Present?
      ensures s.sent[i].frame.frame != s.sent[j].frame.frame
    {
      QueuedAreDistinct(s, i, j);
    }
    ReturningAreDistinct(s);
  }

  lemma ReturningAreDistinct(s: Sys)
    requires Tokens(s)
    ensures forall i, j :: s.heard <= i < j < |s.back| && s.back[i].BufferReleased? && s.back[j].BufferReleased? ==>
              s.back[i].frameId != s.back[j].frameId
  {
  }

  /** Over every run, every frame Android has sent and not yet got back is in exactly one
      place: in the socket, held by the host, on its way back, or consumed by the host
      after the task was destroyed. Hence a release always answers a frame Android waits
      for, in any order of completion. */
  lemma FramesAreConserved(states: seq<Sys>, steps: seq<Step>, i: nat)
    requires IsRun(states, steps) && i < |states| && states[i].open
    ensures Conserved(states[i])
    ensures !states[i].ended ==> states[i].swallowed == {}
  {
    hide Inv, Lending, Conserved, IsRun;
    RunHolds(states, steps, i);
    InvConserves(states[i]);
    SwallowedOnlyAfterEnd(states[i]);
  }

  lemma SwallowedOnlyAfterEnd(s: Sys)
    requires Inv(s)
    ensures !s.ended ==> s.swallowed == {}
    ensures s.swallowed <= s.B().pending.Keys
  {
    hide Structure, Lifecycle, Serials, Acks, Points, Covered, Metadata, Sizes;
  }

  // ------------------------------------------------------------------------------------
  // The event pump

  /** What ends the pump at each of its steps: the channel gone and the object not yet
      retired; the channel or the needed window gone; an acknowledgement that did not leave;
      the object retired; a display that was removed since the pump looked, or a callback. */
  ghost predicate Stops(s: Sys, step: Step)
    requires Enabled(s, step)
  {
    match step
    case PumpFinds => s.service.forgotten && !s.service.retired
    case PumpApplies => !Targets(s.back[s.heard]) && (s.service.forgotten || TooLate(s))
    case PhoneMoves(move) => move.Acked? && !move.send
    case PumpConnects => s.service.retired
    case PumpAnnounces(told) => !s.phone.window || (s.service.stage.connected && !s.service.connected) || !told
    case _ => false
  }

  lemma SettleStops(s: Sys)
    requires Inv(s) && Lending(s) && Enabled(s, PumpApplies)
    ensures Settle(s).pump <==> !Stops(s, PumpApplies)
  {
    hide Inv, Pool, Reliable, HearNext, Fit, Unfit;
    RecordsApply(s);
    QueuedIsSound(s);
  }

  /** The acknowledgement is for the serial just applied, under a window that cannot go. */
  lemma AckStops(s: Sys, serial: u32, send: bool)
    requires Inv(s) && Staged(s) && Enabled(s, PhoneMoves(Acked(serial, send)))
    ensures Ack(s.phone, serial, send).error.None? <==> send
  {
    hide Inv, Fit;
  }

  lemma AnnounceStops(s: Sys, told: bool)
    requires Staged(s) && Enabled(s, PumpAnnounces(told))
    ensures Announce(s.service, s.phone, told).pump <==> !Stops(s, PumpAnnounces(told))
    ensures s.service.direct ==> !Announce(s.service, s.phone, told).pump
  {
  }

  lemma StepStops(s: Sys, step: Step)
    requires Inv(s) && Lending(s) && s.pump && Enabled(s, step)
    ensures Next(s, step).pump <==> !Stops(s, step)
  {
    hide Structure, Lifecycle, Serials, Acks, Points, Tokens, Covered, Metadata, Sizes, Pool, Staged, Settle, Settled, Announce, Ack, Allowed, Receive, E.Apply, Submit, Acquire, Cancel;
    match step
    case PumpApplies => SettleStops(s);
    case PumpAnnounces(told) => AnnounceStops(s, told);
    case PhoneMoves(move) => if move.Acked? { AckStops(s, move.serial, move.send); }
    case _ =>
  }

  /** Only the task's removal, a failed send or a failed callback ends the pump. */
  lemma StopsNeedRemoval(s: Sys, step: Step)
    requires Ordered(s) && Reliable(s) && Enabled(s, step) && Stops(s, step)
    ensures s.removing || (step.PhoneMoves? && step.move.Acked? && !step.move.send) || (step.PumpAnnounces? && !step.told)
  {
    hide Allowed;
  }

  /** In every run the event pump stops exactly at the steps described by `Stops`. Before a
      removal only a failed send or a failed callback stops it, and no release, lent or
      revoked target ever does. */
  lemma PumpStopsExactly(states: seq<Sys>, steps: seq<Step>, i: nat)
    requires IsRun(states, steps) && i < |steps| && states[i].pump
    ensures states[i + 1].pump <==> !Stops(states[i], steps[i])
    ensures var s, step := states[i], steps[i];
      Stops(s, step) ==> s.removing || (step.PhoneMoves? && step.move.Acked? && !step.move.send) || (step.PumpAnnounces? && !step.told)
    ensures var s, step := states[i], steps[i];
      (step.PumpLooks? || step.PumpFinds? || step.PumpApplies?) && (Targets(s.back[s.heard]) || s.back[s.heard].BufferReleased?) ==>
        !Stops(s, step)
  {
    hide Inv, Pool, Reliable, Fit, Stops, Next, Enabled, Init;
    var s, step := states[i], steps[i];
    assert Enabled(s, step) && states[i + 1] == Next(s, step);
    EnabledIsOpen(s, step);
    RunHolds(states, steps, i);
    StepStops(s, step);
    if Stops(s, step) { StopsNeedRemoval(s, step); }
    ReleasesPass(s, step);
  }

  lemma ReleasesPass(s: Sys, step: Step)
    requires Inv(s) && Ordered(s) && Enabled(s, step)
    ensures (step.PumpLooks? || step.PumpFinds? || step.PumpApplies?) && (Targets(s.back[s.heard]) || s.back[s.heard].BufferReleased?) ==>
              !Stops(s, step)
  {
    hide Inv, Allowed;
    if s.heard < |s.back| && !s.phone.window { NoReleaseWithoutWindow(s); }
  }

  /** A direct task reaches the announcement only once it is retired, and that always stops the
      pump, whatever the callback answers. */
  lemma DirectTasksAreNotAnnounced(states: seq<Sys>, steps: seq<Step>, i: nat)
    requires IsRun(states, steps) && i < |steps| && states[i].pump && states[i].service.direct && steps[i].PumpAnnounces?
    ensures states[i].service.retired && !states[i + 1].pump
  {
    hide Inv, Pool, Fit, Next, Enabled, Init;
    var s, step := states[i], steps[i];
    assert Enabled(s, step) && states[i + 1] == Next(s, step);
    EnabledIsOpen(s, step);
    RunHolds(states, steps, i);
    DirectStops(s, step);
  }

  lemma DirectStops(s: Sys, step: Step)
    requires Staged(s) && s.pump && s.service.direct && Enabled(s, step) && step.PumpAnnounces?
    ensures s.service.retired && !Next(s, step).pump
  {
    hide Fit;
    AnnounceStops(s, step.told);
  }

  // ------------------------------------------------------------------------------------
  // Verdicts of the host

  /** The host's verdict on the frame at the head of the queue. Nothing but a lost
      acknowledgement, or the host's own revocation or format change, can refuse it. */
  ghost predicate ExactVerdict(s: Sys, f: Frame, serial: u32) {
    && s.Live() && s.H().configure.Some?
    && (s.Current(serial) ==>
          s.H().PresentError(s.oid, f, serial) ==
            if !s.told then Some(UnacknowledgedConfigure)
            else if f.buffer !in s.H().buffers then Some(UnknownBuffer(f.buffer))
            else if s.H().buffers[f.buffer].format !in s.H().feedback then Some(UnsupportedFormat)
            else None)
    && (!s.Current(serial) ==> s.H().DiscardError(s.oid, f, serial).None?)
    && (!s.told && s.Current(serial) ==> s.lost)
  }

  /** The frame at the head of the queue, as the invariant describes it. */
  ghost predicate HeadFrame(s: Sys, f: Frame, serial: u32) {
    && s.Live() && s.H().configure.Some? && s.H().objectId == s.oid && s.H().timelinesBound
    && (serial == s.H().configure.value.serial || SerialPrecedes(serial, s.H().configure.value.serial))
    && s.H().lastAcquire < f.acquirePoint && s.H().lastRelease < f.releasePoint
    && f.frame !in s.H().inFlight && f.buffer !in s.H().busy
    && |f.damage| <= 1
    && (s.Current(serial) ==>
          && (s.told <==> s.H().acked == Some(serial)) && (!s.told ==> s.lost)
          && (f.buffer in s.H().buffers ==>
                && s.H().buffers[f.buffer].width == s.H().configure.value.width
                && s.H().buffers[f.buffer].height == s.H().configure.value.height)
          && forall k :: 0 <= k < |f.damage| ==> f.damage[k].Fits(s.H().configure.value.width, s.H().configure.value.height))
  }

  lemma HeadVerdict(s: Sys, f: Frame, serial: u32)
    requires HeadFrame(s, f, serial)
    ensures ExactVerdict(s, f, serial)
  {
  }

  /** The host never owns the buffer of a frame it has yet to take. */
  lemma HeadBufferIsFree(s: Sys)
    requires Tokens(s) && s.Live() && s.H().Valid() && s.phone.Valid()
    requires s.taken < |s.sent| && s.sent[s.taken].Present? && !OnHost(s, s.sent[s.taken].frame.frame)
    ensures s.sent[s.taken].frame.buffer !in s.H().busy
  {
    var f := s.sent[s.taken].frame;
    if f.buffer in s.H().busy {
      var g := BusyOwner(s.H(), f.buffer);
      assert Owed(s, g, s.H().inFlight[g].buffer, s.H().inFlight[g].releasePoint);
      assert Owed(s, f.frame, f.buffer, f.releasePoint);
      OneFramePerBuffer(s.phone, g, f.frame);
      assert false;
    }
  }

  lemma BusyOwner(t: Task, b: u64) returns (g: u64)
    requires t.Valid() && b in t.busy
    ensures g in t.inFlight && t.inFlight[g].buffer == b
  {
    assert Holds(Owners(t.inFlight), t.busy);
    g :| g in Owners(t.inFlight) && Owners(t.inFlight)[g] == b;
  }

  lemma OneFramePerBuffer(p: Phone, f: u64, g: u64)
    requires p.Valid() && f in p.stream.inFlight && g in p.stream.inFlight && p.stream.inFlight[f] == p.stream.inFlight[g]
    ensures f == g
  {
  }

  lemma HeadSerial(s: Sys)
    requires Serials(s) && Acks(s) && !s.ended && s.taken < |s.sent| && s.sent[s.taken].Present?
    ensures s.Live() && s.H().configure.Some?
    ensures var r := s.sent[s.taken].serial; r == s.H().configure.value.serial || SerialPrecedes(r, s.H().configure.value.serial)
    ensures s.Current(s.sent[s.taken].serial) ==>
              (s.told ==> s.H().acked == Some(s.sent[s.taken].serial)) && (!s.told ==> s.lost)
    ensures s.H().acked == Some(s.H().configure.value.serial) ==> s.told
  {
    assert Issued(s, s.sent[s.taken].serial);
    if s.Current(s.sent[s.taken].serial) && s.told {
      assert AckedBy(s, s.taken);
    }
  }

  lemma HeadSize(s: Sys)
    requires Sizes(s) && Metadata(s) && s.Live() && s.H().Valid() && s.taken < |s.sent| && s.sent[s.taken].Present?
    ensures |s.sent[s.taken].frame.damage| <= 1
    ensures var f := s.sent[s.taken].frame;
      s.Current(s.sent[s.taken].serial) ==>
        && (f.buffer in s.H().buffers ==>
              && s.H().buffers[f.buffer].width == s.H().configure.value.width
              && s.H().buffers[f.buffer].height == s.H().configure.value.height)
        && forall k :: 0 <= k < |f.damage| ==> f.damage[k].Fits(s.H().configure.value.width, s.H().configure.value.height)
  {
    var f := s.sent[s.taken].frame;
    if f.buffer in s.H().buffers {
      assert Lent(s, s.H().buffers[f.buffer]);
      assert s.issued[f.buffer].id == f.buffer;
    }
  }

  lemma InvGivesVerdict(s: Sys)
    requires Inv(s) && 2 <= s.taken < |s.sent| && s.sent[s.taken].Present?
    ensures ExactVerdict(s, s.sent[s.taken].frame, s.sent[s.taken].serial)
  {
    hide Structure, Lifecycle, Serials, Acks, Points, Tokens, Covered, Metadata, Sizes, Phone.Valid, E.Valid, Task.Valid, ExactVerdict;
    Bounds(s);
    PresentFacts(s);
    HostPointsOrdered(s);
    E.EntryStateIsValid(s.host, s.oid);
    HeadSerial(s);
    HeadPoints(s);
    HeadSize(s);
    QueuedIsNotElsewhere(s, s.taken);
    HeadBufferIsFree(s);
    HeadVerdict(s, s.sent[s.taken].frame, s.sent[s.taken].serial);
  }

  /** Why the host closes the connection over a record it takes. */
  ghost predicate Fatal(s: Sys, m: M.PhoneMsg, fence: bool, signal: bool, send: bool) {
    match m
    case CreateTask(_, display) => |s.host| >= E.MAX_TASK_OBJECTS || exists p :: p in s.host && s.host[p].display == display
    case BindTimelines(_) => !fence
    case AckConfigure(_, _) => s.ended && !s.Live()
    case Present(_, f, serial) =>
      s.Live() &&
      if s.Current(serial) then !s.told || f.buffer !in s.H().buffers || s.H().buffers[f.buffer].format !in s.H().feedback || !fence
      else !fence || !signal || !send
    case _ => false
  }

  /** The endpoint's answer to a frame, in terms of the state machine's verdicts. */
  lemma PresentAnswer(t: E.Table, o: u64, f: Frame, serial: u32, fence: bool, signal: bool, send: bool)
    requires o in t && t[o].timelines && t[o].state.objectId == o && t[o].state.timelinesBound && t[o].state.configure.Some?
    requires t[o].state.configure.value.serial != serial ==> t[o].state.DiscardError(o, f, serial).None?
    ensures E.DoPresent(t, o, f, serial, fence, signal, send).error.None? <==>
              if t[o].state.configure.value.serial == serial then t[o].state.PresentError(o, f, serial).None? && fence
              else fence && signal && send
  {
    StaleIsDiscard(t[o].state, f, serial);
    hide Task.PresentError, Task.DiscardError;
  }

  lemma TimelinesHeld(s: Sys)
    requires Structure(s) && s.Live()
    ensures s.host[s.oid].timelines == s.H().timelinesBound && s.H().objectId == s.oid
  {
    E.EntryStateIsValid(s.host, s.oid);
    hide Phone.Valid, E.Valid, Task.Valid;
  }

  lemma PresentFatal(s: Sys, fence: bool, signal: bool, send: bool)
    requires Structure(s) && Lifecycle(s) && 2 <= s.taken < |s.sent| && s.sent[s.taken].Present?
    requires ExactVerdict(s, s.sent[s.taken].frame, s.sent[s.taken].serial)
    ensures TakeNext(s, fence, signal, send).open <==> !Fatal(s, s.sent[s.taken], fence, signal, send)
  {
    hide Structure, Lifecycle, Task.PresentError, Task.DiscardError, E.DoPresent, E.Valid, Phone.Valid;
    var m := s.sent[s.taken];
    Bounds(s);
    PresentFacts(s);
    TimelinesHeld(s);
    PresentAnswer(s.host, s.oid, m.frame, m.serial, fence, signal, send);
  }

  lemma StaleIsDiscard(t: Task, f: Frame, serial: u32)
    ensures t.timelinesBound && t.configure.Some? && t.configure.value.serial != serial ==>
              t.PresentError(t.objectId, f, serial) == Some(StaleConfigure(t.configure.value.serial, serial))
    ensures t.PresentError(t.objectId, f, serial).Some? && t.PresentError(t.objectId, f, serial).value.StaleConfigure? ==>
              t.configure.Some? && t.configure.value.serial != serial
  {
  }

  lemma AckFatal(s: Sys, fence: bool, signal: bool, send: bool)
    requires Structure(s) && Lifecycle(s) && Serials(s) && 2 <= s.taken < |s.sent| && s.sent[s.taken].AckConfigure?
    ensures TakeNext(s, fence, signal, send).open <==> !Fatal(s, s.sent[s.taken], fence, signal, send)
  {
    assert Issued(s, s.sent[s.taken].serial);
    hide Phone.Valid, E.Valid;
  }

  lemma CreateAnswer(t: E.Table, o: u64, display: u64)
    requires o != 0 && o !in t
    ensures E.DoCreate(t, o, display).error.None? <==>
              !(|t| >= E.MAX_TASK_OBJECTS || exists p :: p in t && t[p].display == display)
  {
  }

  lemma StartFatal(s: Sys, fence: bool, signal: bool, send: bool)
    requires Structure(s) && Lifecycle(s) && s.taken < 2
    ensures TakeNext(s, fence, signal, send).open <==> !Fatal(s, s.sent[s.taken], fence, signal, send)
  {
    hide Structure, Lifecycle, Phone.Valid, E.Valid, E.DoCreate, E.DoAck, E.DoPresent, E.DoDestroy;
    Bounds(s);
    StartingFacts(s);
    if s.taken == 0 { CreateAnswer(s.host, s.oid, s.sent[0].display); }
  }

  lemma OtherFatal(s: Sys, fence: bool, signal: bool, send: bool)
    requires Structure(s) && Lifecycle(s) && 2 <= s.taken < |s.sent| && !s.sent[s.taken].AckConfigure? && !s.sent[s.taken].Present?
    ensures TakeNext(s, fence, signal, send).open && !Fatal(s, s.sent[s.taken], fence, signal, send)
  {
    Bounds(s);
    NeutralFacts(s);
    hide Structure, Lifecycle, Phone.Valid, E.Valid;
  }

  lemma NeutralFacts(s: Sys)
    requires Structure(s) && Lifecycle(s) && 2 <= s.taken < |s.sent| && !s.sent[s.taken].AckConfigure?
    ensures s.Live() && !s.sent[s.taken].CreateTask? && !s.sent[s.taken].BindTimelines?
  {
    hide Phone.Valid, E.Valid;
  }

  /** In every run, the host closes the connection over a record exactly in these cases.
      In particular a content state, a target request and a destroy are always accepted,
      an acknowledgement is refused exactly when the task was destroyed and dropped, and a
      frame is never refused for its points, its identity, its size, its damage or an owned
      buffer. */
  lemma HostRefusesExactly(states: seq<Sys>, steps: seq<Step>, i: nat)
    requires IsRun(states, steps) && i < |steps| && steps[i].HostTakes?
    ensures var s, step := states[i], steps[i];
            states[i + 1].open <==> !Fatal(s, s.sent[s.taken], step.fence, step.signal, step.send)
  {
    hide Structure, Lifecycle, Serials, Acks, Points, Tokens, Covered, Metadata, Sizes, Lending, ExactVerdict, Fatal;
    var s, step := states[i], steps[i];
    RunHolds(states, steps, i);
    assert Enabled(s, step) && states[i + 1] == Next(s, step);
    EnabledIsOpen(s, step);
    hide TakeNext;
    var m := s.sent[s.taken];
    if m.AckConfigure? || m.Present? {
      EarlyRecords(s);
      if m.Present? {
        InvGivesVerdict(s);
        PresentFatal(s, step.fence, step.signal, step.send);
      } else {
        AckFatal(s, step.fence, step.signal, step.send);
      }
    } else {
      if s.taken < 2 {
        StartFatal(s, step.fence, step.signal, step.send);
      } else {
        OtherFatal(s, step.fence, step.signal, step.send);
      }
    }
  }

  lemma EarlyRecords(s: Sys)
    requires Structure(s) && s.taken < |s.sent| && (s.sent[s.taken].AckConfigure? || s.sent[s.taken].Present?)
    ensures 2 <= s.taken
  {
  }

  /** The verdict on a frame, in every run: a frame under the host's current serial is
      judged unacknowledged exactly when no acknowledgement of that serial was handed to
      the socket, which takes a failed send; a frame under an older serial is always
      discarded, never an error. */
  lemma PresentVerdict(states: seq<Sys>, steps: seq<Step>, i: nat)
    requires IsRun(states, steps) && i < |states| && states[i].open && states[i].taken < |states[i].sent|
    requires states[i].sent[states[i].taken].Present?
    ensures ExactVerdict(states[i], states[i].sent[states[i].taken].frame, states[i].sent[states[i].taken].serial)
  {
    hide Structure, Lifecycle, Serials, Acks, Points, Tokens, Covered, Metadata, Sizes, Lending, ExactVerdict, IsRun;
    RunHolds(states, steps, i);
    EarlyRecords(states[i]);
    InvGivesVerdict(states[i]);
  }

  /** A release the host consumed on its own never reaches Android: the frame and its
      target stay in use on Android for the rest of the run. */
  lemma {:induction false} SwallowedIsPinned(states: seq<Sys>, steps: seq<Step>, i: nat, j: nat, f: u64)
    requires IsRun(states, steps) && i <= j < |states| && states[j].open && f in states[i].swallowed
    ensures f in states[j].swallowed && f in states[j].B().pending && f in states[j].phone.stream.inFlight
  {
    hide Inv, Lending, Conserved;
    SwallowedGrows(states, steps, i, j);
    FramesAreConserved(states, steps, j);
    RunHolds(states, steps, j);
    SwallowedOnlyAfterEnd(states[j]);
    assert states[j].B().pending.Keys == states[j].phone.stream.inFlight.Keys by { InvConserves(states[j]); ConservedKeys(states[j]); }
  }

  lemma ConservedKeys(s: Sys)
    requires Conserved(s)
    ensures s.B().pending.Keys == s.phone.stream.inFlight.Keys
  {
  }

  lemma StepSwallows(s: Sys, step: Step)
    requires Enabled(s, step)
    ensures s.swallowed <= Next(s, step).swallowed
  {
    hide Apply, Receive, E.Apply, Allowed, Look, Find, Settle, Settled, Connect, Dispatch, Announce;
  }

  lemma {:induction false} SwallowedGrows(states: seq<Sys>, steps: seq<Step>, i: nat, j: nat)
    requires IsRun(states, steps) && i <= j < |states|
    ensures states[i].swallowed <= states[j].swallowed
  {
    hide Next, Enabled, Init;
    if i < j {
      SwallowedGrows(states, steps, i, j - 1);
      assert states[j] == Next(states[j - 1], steps[j - 1]);
      StepSwallows(states[j - 1], steps[j - 1]);
    }
  }

  /** The host numbers its configures with a counter. Its promise that a new serial advances
      holds as long as fewer than 2^31 generations are outstanding, also across a wrap:
      `generation` names the unbounded generation behind every serial still in use. The
      presenter's counter fails at the end of 32 bits and is the case without a wrap. */
  lemma CounterAdvances(s: Sys, generation: map<u32, nat>, next: nat)
    requires forall r :: r in generation ==> Serial.Wire(generation[r]) == r && generation[r] < next < generation[r] + HALF
    requires s.Live() && s.H().configure.Some? ==> s.H().configure.value.serial in generation
    requires forall i :: s.taken <= i < |s.sent| && s.sent[i].AckConfigure? ==> s.sent[i].serial in generation
    requires forall i :: s.taken <= i < |s.sent| && s.sent[i].Present? ==> s.sent[i].serial in generation
    requires forall i :: s.heard <= i < |s.back| && s.back[i].Configure? ==> s.back[i].configure.serial in generation
    requires s.phone.stream.latest.Some? ==> s.phone.stream.latest.value.serial in generation
    ensures Advances(s, Serial.Wire(next))
  {
    forall r | r in generation ensures Older(r, Serial.Wire(next)) {
      WindowOrder(generation[r], next);
    }
    hide Serial.Wire, SerialPrecedes, Older;
  }
}
