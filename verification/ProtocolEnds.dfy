/** What becomes of the frames of a destroyed task. */
module ProtocolEnds {
  import opened Base
  import opened HostTask
  import opened Phone
  import opened PhoneRuns
  import opened Protocol
  import opened ProtocolSteps
  import opened ProtocolHost
  import opened ProtocolPool
  import opened ProtocolRuns
  import E = Endpoint

  /** Frames the host holds, or held until it consumed their release. */
  function Kept(s: Sys): set<u64> { HostFrames(s) + s.swallowed }

  lemma QuietActionKeeps(t: E.Table, a: E.Action)
    requires E.Apply(t, a).error.None? && (Calm(a) || a.SendConfigure? || a.Lend?)
    ensures var x := E.Apply(t, a);
      (a.oid in x.table <==> a.oid in t) && (a.oid in t ==> x.table[a.oid].state.inFlight == t[a.oid].state.inFlight)
  {
    hide Task.PresentError, Task.DiscardError, Task.ReleaseError, Task.RegisterError, Task.UnregisterError, Task.FeedbackError, Task.AckError;
  }

  lemma FinishKeeps(s: Sys, a: E.Action)
    requires Inv(s) && s.ended && a.oid == s.oid && (a.FinishRelease? || a.DiscardFrame?) && ActHost(s, a).open
    ensures Kept(ActHost(s, a)) == Kept(s) && ActHost(s, a).ended
  {
    hide Structure, Lifecycle, Serials, Acks, Points, Tokens, Covered, Metadata, Sizes, E.DoFinish;
    var t, f := ActHost(s, a), a.frameId;
    FinishEffect(s.host, s.oid, f, a.send);
    RetiringIsEnded(s);
    var before := s.H().inFlight;
    assert (before - {f}).Keys == before.Keys - {f};
    assert HostFrames(t) == before.Keys - {f};
    assert t.swallowed == s.swallowed + {f};
  }

  lemma AckMovesNoFrame(t: E.Table, o: u64, serial: u32)
    requires E.DoAck(t, o, serial).error.None?
    ensures var x := E.DoAck(t, o, serial); o in t && o in x.table && x.table[o].state.inFlight == t[o].state.inFlight
  {
  }

  lemma ActKeeps(s: Sys, a: E.Action)
    requires Inv(s) && s.ended && Allowed(s, a) && ActHost(s, a).open
    ensures Kept(ActHost(s, a)) == Kept(s) && ActHost(s, a).ended
  {
    hide Structure, Lifecycle, Serials, Acks, Points, Tokens, Covered, Metadata, Sizes, Advances, E.DoFinish;
    if a.oid != s.oid {
      E.OtherObjectsUntouched(s.host, a, s.oid);
      hide E.Apply;
    } else if a.FinishRelease? || a.DiscardFrame? {
      FinishKeeps(s, a);
    } else {
      QuietActionKeeps(s.host, a);
      hide E.Apply;
    }
  }

  /** After the destroy only acknowledgements are left to take, and they move no frame. */
  lemma TakeKeeps(s: Sys, fence: bool, signal: bool, send: bool)
    requires Inv(s) && s.ended && s.taken < |s.sent| && TakeNext(s, fence, signal, send).open
    ensures Kept(TakeNext(s, fence, signal, send)) == Kept(s) && TakeNext(s, fence, signal, send).ended
  {
    hide Structure, Serials, Acks, Points, Tokens, Covered, Metadata, Sizes, E.DoAck, E.DoCreate, E.DoPresent, E.DoDestroy, E.DoBindTimelines;
    Bounds(s);
    assert s.sent[s.taken].AckConfigure?;
    hide Lifecycle;
    AckMovesNoFrame(s.host, s.oid, s.sent[s.taken].serial);
  }

  lemma StepKeeps(s: Sys, step: Step)
    requires Inv(s) && s.ended && Enabled(s, step) && Next(s, step).open
    ensures Kept(Next(s, step)) == Kept(s) && Next(s, step).ended
  {
    hide Inv, TakeNext, ActHost, Allowed, Apply, Look, Find, Settle, Settled, Connect, Dispatch, Announce;
    match step
    case HostTakes(fence, signal, send) => TakeKeeps(s, fence, signal, send);
    case HostActs(a) => ActKeeps(s, a);
    case _ =>
  }

  lemma DestroyKeeps(s: Sys, fence: bool, signal: bool, send: bool)
    requires Inv(s) && s.taken < |s.sent| && s.sent[s.taken].DestroyTask?
    ensures var t := TakeNext(s, fence, signal, send); t.ended && t.open && Kept(t) == HostFrames(s)
  {
    hide Serials, Acks, Points, Tokens, Covered, Metadata, Sizes, Phone.Valid, E.Valid;
    Bounds(s);
    DestroyFacts(s);
    SwallowedOnlyAfterEnd(s);
    hide Structure, Lifecycle;
  }

  /** Step `i` of the run is the host taking the destroy record. */
  ghost predicate DestroyedAt(states: seq<Sys>, steps: seq<Step>, i: nat) {
    && IsRun(states, steps) && i < |steps| && steps[i].HostTakes?
    && states[i].sent[states[i].taken].DestroyTask?
  }

  lemma {:induction false} KeptSinceDestroy(states: seq<Sys>, steps: seq<Step>, i: nat, j: nat)
    requires DestroyedAt(states, steps, i) && i < j < |states| && states[j].open
    ensures states[j].ended && Kept(states[j]) == HostFrames(states[i])
    decreases j
  {
    hide Inv, Lending, Next, Kept, HostFrames, Init;
    assert Enabled(states[j - 1], steps[j - 1]);
    EnabledIsOpen(states[j - 1], steps[j - 1]);
    hide Enabled;
    RunHolds(states, steps, j - 1);
    if j == i + 1 {
      DestroyTaken(states[i], steps[i]);
    } else {
      KeptSinceDestroy(states, steps, i, j - 1);
      StepKeeps(states[j - 1], steps[j - 1]);
    }
  }

  lemma DestroyTaken(s: Sys, step: Step)
    requires step.HostTakes? && s.taken < |s.sent| && s.sent[s.taken].DestroyTask? && Enabled(s, step) && Inv(s)
    ensures Next(s, step).ended && Kept(Next(s, step)) == HostFrames(s)
  {
    hide Inv, TakeNext, Kept, HostFrames;
    DestroyKeeps(s, step.fence, step.signal, step.send);
  }

  lemma NothingQueuedAfterEnd(s: Sys)
    requires Lifecycle(s) && s.ended
    ensures QueuedFrames(s) == {}
  {
  }

  /** A frame is lost if and only if the host still holds it when it takes the destroy: in
      every later state Android waits for exactly those frames and for the ones already on
      their way back, and the former are never among the latter. */
  lemma FramesLostExactly(states: seq<Sys>, steps: seq<Step>, i: nat, j: nat)
    requires DestroyedAt(states, steps, i) && i < j < |states| && states[j].open
    ensures states[j].B().pending.Keys == HostFrames(states[i]) + ReturningFrames(states[j])
    ensures HostFrames(states[i]) !! ReturningFrames(states[j])
  {
    hide Structure, Serials, Acks, Points, Tokens, Covered, Metadata, Sizes, Lending, IsRun, HostFrames, QueuedFrames, ReturningFrames;
    KeptSinceDestroy(states, steps, i, j);
    RunHolds(states, steps, j);
    NothingQueuedAfterEnd(states[j]);
    InvConserves(states[j]);
  }

  /** Before the destroy nothing is lost: every frame Android waits for is queued, held by the
      host or on its way back. */
  lemma NothingLostBefore(states: seq<Sys>, steps: seq<Step>, j: nat)
    requires IsRun(states, steps) && j < |states| && states[j].open && !states[j].ended
    ensures states[j].B().pending.Keys == QueuedFrames(states[j]) + HostFrames(states[j]) + ReturningFrames(states[j])
  {
    hide Inv, Lending, IsRun, HostFrames, QueuedFrames, ReturningFrames;
    FramesAreConserved(states, steps, j);
  }

  /** So the window of a destroyed task can be removed, once everything on its way has been
      heard, exactly when the host held none of its frames at the destroy. */
  lemma RemovableExactly(states: seq<Sys>, steps: seq<Step>, i: nat, j: nat)
    requires DestroyedAt(states, steps, i) && i < j < |states| && states[j].open && states[j].heard == |states[j].back|
    requires states[j].phone.window
    ensures RemoveWindow(states[j].phone).error.None? <==> HostFrames(states[i]) == {}
  {
    hide Inv, Lending, IsRun, HostFrames;
    FramesLostExactly(states, steps, i, j);
    RunHolds(states, steps, j);
    PhoneIsValid(states[j]);
    FramesOfPhone(states[j].phone);
    hide Phone.Valid;
    assert ReturningFrames(states[j]) == {};
    assert states[j].phone.stream.inFlight == map[] <==> states[j].phone.stream.inFlight.Keys == {};
  }
}
