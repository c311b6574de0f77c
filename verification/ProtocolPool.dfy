/** The two views of the lent render targets stay consistent through every interleaving,
    so Android never meets a duplicate or an unknown target. */
module ProtocolPool {
  import opened Base
  import opened Dmabuf
  import opened HostTask
  import opened Phone
  import opened PhoneRuns
  import opened Protocol
  import opened ProtocolFrames
  import opened ProtocolSteps
  import opened ProtocolHears
  import opened ProtocolHost
  import opened ProtocolPump
  import E = Endpoint
  import Transport
  import M = Messages

  predicate Usable(p: Phone, b: u64) { b in p.channel.targets && !p.channel.targets[b].revoked }

  predicate LentAt(s: Sys, b: u64, i: nat) {
    s.heard <= i < |s.back| && s.back[i].RegisterRenderTarget? && s.back[i].buffer.id == b
  }

  predicate RevokedAt(s: Sys, b: u64, i: nat) {
    s.heard <= i < |s.back| && s.back[i].UnregisterRenderTarget? && s.back[i].bufferId == b
  }

  /** A target of the host is usable by Android, or will be once the queue is heard. */
  ghost predicate Pool(s: Sys) {
    && (s.Live() ==> forall b :: b in s.H().buffers ==> Usable(s.phone, b) || exists i :: LentAt(s, b, i))
    && (s.Live() ==> forall b, i :: b in s.H().buffers ==> !RevokedAt(s, b, i))
    && (forall b, i :: LentAt(s, b, i) ==> b !in s.phone.channel.targets)
    && (forall b, i, j :: LentAt(s, b, i) && LentAt(s, b, j) ==> i == j)
    && (forall b, i :: RevokedAt(s, b, i) ==> Usable(s.phone, b) || exists k :: k < i && LentAt(s, b, k))
    && (forall b, i, j :: RevokedAt(s, b, i) && RevokedAt(s, b, j) ==> i == j)
  }

  /** Android neither gains targets nor loses usable ones. */
  ghost predicate PoolQuiet(p: Phone, q: Phone) {
    && (forall b :: b in q.channel.targets ==> b in p.channel.targets)
    && (forall b :: Usable(p, b) ==> Usable(q, b))
  }

  /** Nothing about targets was said or forgotten. */
  lemma PoolFrame(s: Sys, t: Sys)
    requires Pool(s) && t.oid == s.oid && s.heard <= |s.back| <= |t.back| && PoolQuiet(s.phone, t.phone)
    requires t.heard == s.heard || (t.heard == s.heard + 1 <= |s.back| && !s.back[s.heard].RegisterRenderTarget? && !s.back[s.heard].UnregisterRenderTarget?)
    requires forall i :: 0 <= i < |s.back| ==> t.back[i] == s.back[i]
    requires forall i :: |s.back| <= i < |t.back| ==> !t.back[i].RegisterRenderTarget? && !t.back[i].UnregisterRenderTarget?
    requires t.Live() ==> if s.Live() then t.H().buffers == s.H().buffers else t.H().buffers == map[]
    ensures Pool(t)
  {
    hide Usable;
    assert forall b, i :: LentAt(t, b, i) <==> LentAt(s, b, i);
    assert forall b, i :: RevokedAt(t, b, i) <==> RevokedAt(s, b, i);
  }

  lemma FreshTarget(s: Sys, b: u64)
    requires Metadata(s) && s.phone.Valid() && b !in s.issued
    ensures b !in s.phone.channel.targets && forall i :: !LentAt(s, b, i)
  {
  }

  lemma PoolLent(s: Sys, t: Sys, b: Buffer)
    requires Pool(s) && s.heard <= |s.back| && b.id !in s.phone.channel.targets && forall i :: !LentAt(s, b.id, i)
    requires t.phone == s.phone && t.oid == s.oid && t.heard == s.heard && s.Live() && t.Live()
    requires |t.back| == |s.back| + 1 && t.back[..|s.back|] == s.back
    requires t.back[|s.back|].RegisterRenderTarget? && t.back[|s.back|].buffer == b
    requires t.H().buffers == s.H().buffers[b.id := b]
    ensures Pool(t)
  {
    assert forall i :: 0 <= i < |s.back| ==> t.back[i] == t.back[..|s.back|][i];
    assert forall c, i :: LentAt(t, c, i) <==> LentAt(s, c, i) || (c == b.id && i == |s.back|);
    assert forall c, i :: RevokedAt(t, c, i) <==> RevokedAt(s, c, i);
    assert forall i :: !RevokedAt(s, b.id, i);
    assert LentAt(t, b.id, |s.back|);
  }

  lemma PoolRevoked(s: Sys, t: Sys, b: u64)
    requires Pool(s) && s.heard <= |s.back| && s.Live() && t.Live() && b in s.H().buffers
    requires t.phone == s.phone && t.oid == s.oid && t.heard == s.heard
    requires |t.back| == |s.back| + 1 && t.back[..|s.back|] == s.back && t.back[|s.back|] == M.UnregisterRenderTarget(s.oid, b)
    requires t.H().buffers == s.H().buffers - {b}
    ensures Pool(t)
  {
    assert forall i :: 0 <= i < |s.back| ==> t.back[i] == t.back[..|s.back|][i];
    assert forall c, i :: LentAt(t, c, i) <==> LentAt(s, c, i);
    assert forall c, i :: RevokedAt(t, c, i) <==> RevokedAt(s, c, i) || (c == b && i == |s.back|);
  }

  lemma PoolRegistered(s: Sys, t: Sys)
    requires Pool(s) && s.heard < |s.back| && s.back[s.heard].RegisterRenderTarget?
    requires t == s.(phone := t.phone, heard := s.heard + 1, pump := t.pump)
    requires var m := s.back[s.heard];
             t.phone == WithTarget(s.phone, m.buffer.id, Target(m.serial, m.buffer, false, false, false))
    ensures Pool(t)
  {
    var b := s.back[s.heard].buffer.id;
    assert LentAt(s, b, s.heard);
    assert forall c, i :: LentAt(t, c, i) <==> LentAt(s, c, i) && i != s.heard;
    assert forall c, i :: RevokedAt(t, c, i) <==> RevokedAt(s, c, i);
    assert forall c :: c != b && LentAt(s, c, s.heard) ==> false;
    if t.Live() {
      forall c | c in t.H().buffers ensures Usable(t.phone, c) || exists i :: LentAt(t, c, i) {
        if c != b && !Usable(s.phone, c) {
          var i :| LentAt(s, c, i);
          assert LentAt(t, c, i);
        }
      }
    }
  }

  lemma PoolUnregistered(s: Sys, t: Sys)
    requires Pool(s) && s.heard < |s.back| && s.back[s.heard].UnregisterRenderTarget?
    requires s.back[s.heard].bufferId in s.phone.channel.targets
    requires t == s.(phone := RevokeTarget(s.phone, s.back[s.heard].bufferId).phone, heard := s.heard + 1, pump := t.pump)
    ensures Pool(t)
  {
    var b := s.back[s.heard].bufferId;
    assert RevokedAt(s, b, s.heard);
    assert forall c, i :: LentAt(t, c, i) <==> LentAt(s, c, i);
    assert forall c, i :: RevokedAt(t, c, i) <==> RevokedAt(s, c, i) && i != s.heard;
  }

  /** Until a removal begins the two views of the targets agree. */
  ghost predicate Lending(s: Sys) { Staged(s) && (!s.removing ==> Pool(s)) }

  /** The record at the cursor updates a window that is gone. */
  ghost predicate TooLate(s: Sys)
    requires s.heard < |s.back|
  {
    !s.phone.window && NeedsWindow(s.back[s.heard])
  }

  lemma TargetApplies(s: Sys)
    requires Pool(s) && s.heard < |s.back| && s.back[s.heard].oid == s.B().oid
    requires s.back[s.heard].RegisterRenderTarget? || s.back[s.heard].UnregisterRenderTarget?
    ensures Hear(s.phone, s.back[s.heard]).error.None?
  {
    var m := s.back[s.heard];
    if m.RegisterRenderTarget? {
      assert LentAt(s, m.buffer.id, s.heard);
    } else {
      assert RevokedAt(s, m.bufferId, s.heard);
    }
  }

  lemma HearNeedsWindow(p: Phone, m: M.HostMsg)
    requires m.oid == p.channel.binding.oid && !m.BufferReleased? && !m.RegisterRenderTarget? && !m.UnregisterRenderTarget?
    ensures Hear(p, m).error.None? <==> p.window || !NeedsWindow(m)
  {
  }

  /** A release is one Android waits for, a lent target is new, a revoked one is known: a
      record fails to apply exactly when it comes too late for the window. */
  lemma RecordsApply(s: Sys)
    requires Inv(s) && Lending(s) && s.pump && s.heard < |s.back|
    ensures HearNext(s).pump <==> !TooLate(s)
  {
    hide Pool, Hear, Structure, Lifecycle, Serials, Acks, Points, Tokens, Covered, Metadata, Sizes, Phone.Valid, E.Valid, Staged;
    Bounds(s);
    var m := s.back[s.heard];
    if m.BufferReleased? {
      ReleaseStep(s);
    } else if Targets(m) {
      if !s.removing { TargetApplies(s); }
    } else {
      HearNeedsWindow(s.phone, m);
    }
  }

  /** While the task stays, every record applies. */
  lemma HeardApplies(s: Sys)
    requires Inv(s) && Lending(s) && s.pump && s.heard < |s.back| && !s.removing
    ensures Hear(s.phone, s.back[s.heard]).error.None?
    ensures HearNext(s) == s.(phone := Hear(s.phone, s.back[s.heard]).phone, heard := s.heard + 1, pump := true)
  {
    hide Inv, Pool, Hear, Reliable, Fit;
    RecordsApply(s);
  }

  lemma HeardPool(s: Sys)
    requires Inv(s) && Lending(s) && s.pump && s.heard < |s.back| && !s.removing
    ensures Pool(HearNext(s))
  {
    hide Inv, Pool, Staged, Hear, HearNext, PoolQuiet, RevokeTarget, WithTarget;
    HeardApplies(s);
    var m := s.back[s.heard];
    if m.RegisterRenderTarget? {
      RegisterApplies(s.phone, m);
      PoolRegistered(s, HearNext(s));
    } else if m.UnregisterRenderTarget? {
      UnregisterApplies(s.phone, m);
      PoolUnregistered(s, HearNext(s));
    } else {
      HearIsQuiet(s.phone, m);
      PoolFrame(s, HearNext(s));
    }
  }

  /** The stages of the pump say nothing about targets. */
  lemma PoolOfService(s: Sys, service: Service, pump: bool)
    requires Pool(s) && s.heard <= |s.back|
    ensures Pool(s.(service := service, pump := pump))
  {
    hide Pool;
    PoolFrame(s, s.(service := service, pump := pump));
  }

  /** Without a removal nothing is passed over and every channel is there. */
  lemma PumpPool(s: Sys, step: Step)
    requires Inv(s) && Lending(s) && !s.removing && Enabled(s, step) && !step.RemovalBegins?
    requires !step.PhoneMoves? && !step.HostTakes? && !step.HostActs?
    ensures Pool(Next(s, step))
  {
    hide Inv, Pool, Reliable, Fit, Hear, Applies;
    var t := Next(s, step);
    if step.PumpApplies? {
      HeardPool(s);
      PoolOfService(HearNext(s), t.service, t.pump);
    } else {
      BoundOfHeard(s);
      PoolOfService(s, t.service, t.pump);
    }
  }

  lemma BoundOfHeard(s: Sys)
    requires Inv(s)
    ensures s.heard <= |s.back|
  {
    hide Lifecycle, Serials, Acks, Points, Tokens, Covered, Metadata, Sizes;
  }

  lemma RegisterApplies(p: Phone, m: M.HostMsg)
    requires m.RegisterRenderTarget? && Hear(p, m).error.None?
    ensures Hear(p, m).phone == WithTarget(p, m.buffer.id, Target(m.serial, m.buffer, false, false, false))
  {
  }

  lemma UnregisterApplies(p: Phone, m: M.HostMsg)
    requires m.UnregisterRenderTarget? && Hear(p, m).error.None?
    ensures m.bufferId in p.channel.targets && Hear(p, m).phone == RevokeTarget(p, m.bufferId).phone
  {
  }

  lemma HearIsQuiet(p: Phone, m: M.HostMsg)
    requires !m.RegisterRenderTarget? && !m.UnregisterRenderTarget?
    ensures PoolQuiet(p, Hear(p, m).phone)
  {
  }

  lemma CancelIsQuiet(p: Phone, b: u64)
    ensures PoolQuiet(p, Cancel(p, b))
  {
  }

  lemma SendIsQuiet(p: Phone, frame: u64, b: Buffer, damage: seq<Rect>, isOpaque: bool, plan: SendPlan)
    ensures PoolQuiet(p, p.(channel := SendFrame(p.channel, frame, b, damage, isOpaque, plan).0))
  {
    hide ContentState;
  }

  lemma SubmitIsQuiet(p: Phone, b: Buffer, damage: Option<Rect>, isOpaque: bool, plan: SendPlan)
    ensures PoolQuiet(p, Submit(p, b, damage, isOpaque, plan).phone)
  {
    hide SendFrame, Cancel, Transport.Presentation.SubmitError;
    CancelIsQuiet(p, b.id);
    if p.window && p.powered && p.stream.SubmitError(b, SubmitDamage(b, damage), true).None? {
      SubmitFacts(p.stream, b, SubmitDamage(b, damage));
      var frame := p.stream.nextFrame + 1;
      SendIsQuiet(p, frame, b, SubmitDamage(b, damage), isOpaque, plan);
      var after := SendFrame(p.channel, frame, b, SubmitDamage(b, damage), isOpaque, plan).0;
      CancelIsQuiet(p.(channel := after, stream := p.stream.(nextFrame := frame)), b.id);
    }
  }

  lemma AcquireIsQuiet(p: Phone, lazy: bool, send: bool, cloned: bool)
    ensures PoolQuiet(p, Acquire(p, lazy, send, cloned).phone)
  {
    EnsureIsNeutral(p, lazy, send);
    hide Ensure;
  }

  lemma MoveIsQuiet(p: Phone, move: PhoneStep)
    requires !move.Heard?
    ensures PoolQuiet(p, Apply(p, move).phone)
  {
    hide Submit, Cancel, Acquire;
    match move
    case Submitted(b, damage, isOpaque, plan) => SubmitIsQuiet(p, b, damage, isOpaque, plan);
    case Acquired(lazy, send, cloned) => AcquireIsQuiet(p, lazy, send, cloned);
    case Cancelled(b) => CancelIsQuiet(p, b);
    case _ =>
  }

  /** Which host actions speak about targets. */
  lemma ActionBuffers(t: E.Table, a: E.Action)
    requires E.Apply(t, a).error.None? && (Calm(a) || a.SendConfigure? || a.FinishRelease? || a.DiscardFrame?) && !a.Revoke?
    ensures var x := E.Apply(t, a);
      && (a.oid in x.table ==> a.oid in t && x.table[a.oid].state.buffers == t[a.oid].state.buffers)
      && (x.record.Some? ==> !x.record.value.RegisterRenderTarget? && !x.record.value.UnregisterRenderTarget?)
  {
  }

  /** The records of a host step: what was there, and at most one more. */
  lemma ActBack(s: Sys, a: E.Action)
    ensures var t := ActHost(s, a); |s.back| <= |t.back| <= |s.back| + 1 && t.back[..|s.back|] == s.back
    ensures forall i :: 0 <= i < |s.back| ==> ActHost(s, a).back[i] == s.back[i]
  {
    hide E.Apply;
    var t, rs := ActHost(s, a), E.Records(E.Apply(s.host, a).record);
    assert |rs| <= 1;
    assert t.back == s.back || t.back == s.back + rs;
    hide E.Records, ActHost;
    assert t.back[..|s.back|] == s.back;
    assert forall i :: 0 <= i < |s.back| ==> t.back[i] == t.back[..|s.back|][i];
  }

  lemma LendPool(s: Sys, a: E.Action)
    requires Pool(s) && Metadata(s) && s.phone.Valid() && s.heard <= |s.back| && a.oid == s.oid && a.Lend? && a.buffer.id !in s.issued && ActHost(s, a).open
    ensures Pool(ActHost(s, a))
  {
    hide Pool, Metadata, Phone.Valid, E.Apply, LentAt;
    ActBack(s, a);
    LendEffect(s.host, a);
    FreshTarget(s, a.buffer.id);
    PoolLent(s, ActHost(s, a), a.buffer);
  }

  lemma RevokePool(s: Sys, a: E.Action)
    requires Pool(s) && s.heard <= |s.back| && a.oid == s.oid && a.Revoke? && ActHost(s, a).open
    ensures Pool(ActHost(s, a))
  {
    hide Pool, E.Apply;
    ActBack(s, a);
    RevokeEffect(s.host, a);
    PoolRevoked(s, ActHost(s, a), a.bufferId);
  }

  lemma OtherPool(s: Sys, a: E.Action)
    requires Pool(s) && s.heard <= |s.back| && ActHost(s, a).open
    requires a.oid != s.oid || ((Calm(a) || a.SendConfigure? || a.FinishRelease? || a.DiscardFrame?) && !a.Revoke?)
    ensures Pool(ActHost(s, a))
  {
    hide Pool, E.Apply;
    ActBack(s, a);
    if a.oid != s.oid {
      E.OtherObjectsUntouched(s.host, a, s.oid);
    } else {
      ActionBuffers(s.host, a);
    }
    PoolFrame(s, ActHost(s, a));
  }

  lemma ActPool(s: Sys, a: E.Action)
    requires Inv(s) && Pool(s) && s.open && Allowed(s, a) && ActHost(s, a).open
    ensures Pool(ActHost(s, a))
  {
    hide Structure, Lifecycle, Serials, Acks, Points, Tokens, Covered, Metadata, Sizes, Phone.Valid, E.Valid, Pool, Advances, ActHost;
    Bounds(s);
    if a.oid == s.oid && a.Lend? { LendPool(s, a); }
    else if a.oid == s.oid && a.Revoke? { RevokePool(s, a); }
    else { OtherPool(s, a); }
  }

  lemma LendEffect(t: E.Table, a: E.Action)
    requires a.Lend? && E.Apply(t, a).error.None?
    ensures var x := E.Apply(t, a);
      && a.oid in t && a.oid in x.table && x.table[a.oid].state.buffers == t[a.oid].state.buffers[a.buffer.id := a.buffer]
      && x.record == Some(M.RegisterRenderTarget(a.oid, a.serial, a.buffer))
  {
  }

  lemma RevokeEffect(t: E.Table, a: E.Action)
    requires a.Revoke? && E.Apply(t, a).error.None?
    ensures var x := E.Apply(t, a);
      && a.oid in t && a.oid in x.table && a.bufferId in t[a.oid].state.buffers
      && x.table[a.oid].state.buffers == t[a.oid].state.buffers - {a.bufferId}
      && x.record == Some(M.UnregisterRenderTarget(a.oid, a.bufferId))
  {
  }

  lemma PresentBuffers(t: E.Table, o: u64, f: Frame, serial: u32, fence: bool, signal: bool, send: bool)
    requires o in t
    ensures var x := E.DoPresent(t, o, f, serial, fence, signal, send);
      && o in x.table && x.table[o].state.buffers == t[o].state.buffers
      && (x.record.Some? ==> x.record.value.BufferReleased?)
  {
    hide Task.PresentError, Task.DiscardError;
  }

  lemma TakeBuffers(t: E.Table, m: M.PhoneMsg, fence: bool, signal: bool, send: bool)
    ensures var x := Receive(t, m, fence, signal, send);
      && (m.oid in x.table ==> x.table[m.oid].state.buffers == if m.oid in t then t[m.oid].state.buffers else map[])
      && (x.record.Some? ==> x.record.value.BufferReleased?)
  {
    hide Task.AckError, E.DoPresent;
    if m.Present? && m.oid in t {
      PresentBuffers(t, m.oid, m.frame, m.serial, fence, signal, send);
    } else if m.Present? {
      assert E.DoPresent(t, m.oid, m.frame, m.serial, fence, signal, send) == E.Fail(t, E.UnknownObject(m.oid)) by { UnknownPresent(t, m.oid, m.frame, m.serial, fence, signal, send); }
    }
  }

  lemma UnknownPresent(t: E.Table, o: u64, f: Frame, serial: u32, fence: bool, signal: bool, send: bool)
    requires o !in t
    ensures E.DoPresent(t, o, f, serial, fence, signal, send) == E.Fail(t, E.UnknownObject(o))
  {
  }

  lemma PoolStep(s: Sys, step: Step)
    requires Inv(s) && Lending(s) && !s.removing && Enabled(s, step) && !step.RemovalBegins? && Next(s, step).open
    ensures Pool(Next(s, step))
  {
    hide Structure, Lifecycle, Serials, Acks, Points, Tokens, Covered, Metadata, Sizes, Phone.Valid, E.Valid, Pool, Staged, Advances;
    hide ActHost, Apply, TakeNext, Look, Find, Settle, Settled, Connect, Dispatch, Announce;
    Bounds(s);
    match step
    case PhoneMoves(move) =>
      MoveIsQuiet(s.phone, move);
      PoolFrame(s, Next(s, step));
    case HostTakes(fence, signal, send) => TakePool(s, fence, signal, send);
    case HostActs(a) => ActPool(s, a);
    case _ => PumpPool(s, step);
  }

  lemma PoolKept(s: Sys, step: Step)
    requires Inv(s) && Lending(s) && Enabled(s, step) && Next(s, step).open
    ensures Lending(Next(s, step))
  {
    hide Inv, Pool, Staged, Next, Enabled;
    StepKeepsStaged(s, step);
    RemovalIsMarked(s, step);
    if !s.removing && !step.RemovalBegins? { PoolStep(s, step); }
  }

  lemma RemovalIsMarked(s: Sys, step: Step)
    requires Enabled(s, step)
    ensures Next(s, step).removing <==> s.removing || step.RemovalBegins?
  {
    hide Apply, Receive, E.Apply, Allowed, Look, Find, Settle, Settled, Connect, Dispatch, Announce;
  }

  lemma TakePool(s: Sys, fence: bool, signal: bool, send: bool)
    requires Inv(s) && Pool(s) && s.taken < |s.sent|
    ensures Pool(TakeNext(s, fence, signal, send))
  {
    hide Structure, Lifecycle, Serials, Acks, Points, Tokens, Covered, Metadata, Sizes, Phone.Valid, E.Valid, Pool, Receive;
    Bounds(s);
    TakeBuffers(s.host, s.sent[s.taken], fence, signal, send);
    var t := TakeNext(s, fence, signal, send);
    assert PoolQuiet(s.phone, t.phone);
    PoolFrame(s, t);
  }
}
