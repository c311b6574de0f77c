/** How the stages of Android's event pump and of a task's removal relate, whatever the order
    in which their steps fall, and that every record the pump meets is fit to apply. */
module ProtocolPump {
  import opened Base
  import opened Dmabuf
  import opened HostTask
  import opened Phone
  import opened PhoneRuns
  import opened Protocol
  import opened ProtocolSteps
  import E = Endpoint
  import Transport
  import M = Messages

  /** The removal goes through its steps in order: begun, destroy requested, window gone,
      channel forgotten, retired. */
  predicate Ordered(s: Sys) {
    && (s.B().destroyRequested ==> s.removing) && (!s.phone.window ==> s.B().destroyRequested)
    && (s.service.forgotten ==> !s.phone.window) && (s.service.retired ==> s.service.forgotten)
    && (s.service.connected ==> s.phone.window)
  }

  predicate Configured(p: Phone) { p.stream.latest.Some? }

  /** What a running pump may rely on at each stage. */
  predicate Reliable(s: Sys) {
    match s.service.stage
    case Acking(r) => s.phone.window && Configured(s.phone) && s.phone.stream.latest.value.serial == r
    case Connecting => Configured(s.phone)
    case Dispatching => Configured(s.phone)
    case Announcing(seen) =>
      && Configured(s.phone) && (s.service.direct ==> s.service.retired)
      && (s.service.connected ==> seen) && (seen && !s.service.connected ==> s.removing)
    case _ => true
  }

  predicate Sound(c: Transport.Configure) { c.serial != 0 && c.width != 0 && c.height != 0 && c.refreshMillihz != 0 }

  /** Configures are sound, and frames come after the first one. */
  ghost predicate Fit(s: Sys) {
    && (forall i :: 0 <= i < |s.back| && s.back[i].Configure? ==> Sound(s.back[i].configure))
    && (Configured(s.phone) ==> Sound(s.phone.stream.latest.value))
    && (forall i :: 0 <= i < |s.sent| && s.sent[i].Present? ==> Configured(s.phone))
    && (forall i :: 0 <= i < |s.back| && s.back[i].Presented? ==> Configured(s.phone))
    && (s.Live() && (s.host[s.oid].pending != map[] || s.host[s.oid].tracked != {}) ==> Configured(s.phone))
  }

  ghost predicate Staged(s: Sys) { Ordered(s) && (s.pump ==> Reliable(s)) && Fit(s) }

  lemma InitIsStaged(s: Sys)
    requires Init(s)
    ensures Staged(s)
  {
    hide E.Valid;
  }

  // ------------------------------------------------------------------------------------
  // Android's moves

  lemma HearKeepsWindow(p: Phone, m: M.HostMsg)
    ensures Hear(p, m).phone.window == p.window && Hear(p, m).phone.channel.binding.destroyRequested == p.channel.binding.destroyRequested
    ensures var q := Hear(p, m).phone;
      q.stream.latest == (if m.Configure? && Hear(p, m).error.None? then Some(m.configure) else p.stream.latest)
  {
  }

  lemma CancelKeepsWindow(p: Phone, b: u64)
    ensures var q := Cancel(p, b); q.window == p.window && q.channel.binding == p.channel.binding && q.stream == p.stream
  {
  }

  lemma AcquireKeepsWindow(p: Phone, lazy: bool, send: bool, cloned: bool)
    ensures var r := Acquire(p, lazy, send, cloned);
      && r.phone.window == p.window && r.phone.channel.binding == p.channel.binding && r.phone.stream == p.stream
      && NeutralRecords(p.channel.binding.oid, r.sent)
  {
    EnsureIsNeutral(p, lazy, send);
    hide Ensure;
  }

  lemma SubmitKeepsWindow(p: Phone, b: Buffer, damage: Option<Rect>, isOpaque: bool, plan: SendPlan)
    ensures var q := Submit(p, b, damage, isOpaque, plan).phone;
      && q.window == p.window && q.channel.binding.destroyRequested == p.channel.binding.destroyRequested
      && q.stream.latest == p.stream.latest
  {
    SubmitKeepsDestroyed(p, b, damage, isOpaque, plan);
    hide SendFrame, Cancel, Transport.Presentation.SubmitError;
    CancelKeepsWindow(p, b.id);
    if p.window && p.powered && p.stream.SubmitError(b, SubmitDamage(b, damage), true).None? {
      SubmitFacts(p.stream, b, SubmitDamage(b, damage));
      var frame := p.stream.nextFrame + 1;
      var after := SendFrame(p.channel, frame, b, SubmitDamage(b, damage), isOpaque, plan).0;
      CancelKeepsWindow(p.(channel := after, stream := p.stream.(nextFrame := frame)), b.id);
    }
  }

  /** A frame is only sent under a configure. */
  lemma FramesNeedConfigure(p: Phone, move: PhoneStep)
    requires p.Valid() && !move.Heard?
    ensures forall i :: 0 <= i < |Apply(p, move).sent| && Apply(p, move).sent[i].Present? ==> Configured(p)
  {
    hide Submit, Cancel, Acquire, Phone.Valid;
    match move
    case Submitted(b, damage, isOpaque, plan) =>
      SubmitWire(p, b, damage, isOpaque, plan);
      SubmitOutcome(p, b, damage, isOpaque, plan);
      AckedIsConfigured(p);
    case Acquired(lazy, send, cloned) => AcquireKeepsWindow(p, lazy, send, cloned);
    case _ =>
  }

  lemma AckedIsConfigured(p: Phone)
    requires p.Valid()
    ensures p.channel.binding.acked.Some? ==> Configured(p)
  {
  }

  lemma MoveKeepsWindow(p: Phone, move: PhoneStep)
    requires !move.Heard?
    ensures !move.WindowRemoved? ==> Apply(p, move).phone.window == p.window
    ensures !move.Destroyed? ==> Apply(p, move).phone.channel.binding.destroyRequested == p.channel.binding.destroyRequested
    ensures p.channel.binding.destroyRequested ==> Apply(p, move).phone.channel.binding.destroyRequested
    ensures Apply(p, move).phone.stream.latest == p.stream.latest
  {
    hide Submit, Cancel, Acquire;
    match move
    case Submitted(b, damage, isOpaque, plan) => SubmitKeepsWindow(p, b, damage, isOpaque, plan);
    case Acquired(lazy, send, cloned) => AcquireKeepsWindow(p, lazy, send, cloned);
    case Cancelled(b) => CancelKeepsWindow(p, b);
    case _ =>
  }

  lemma MoveKeepsStaged(s: Sys, move: PhoneStep)
    requires Inv(s) && Staged(s) && Enabled(s, PhoneMoves(move))
    ensures Staged(Next(s, PhoneMoves(move)))
  {
    hide Inv, Apply, Sound;
    PhoneIsValid(s);
    MoveKeepsWindow(s.phone, move);
    FramesNeedConfigure(s.phone, move);
    var t := Next(s, PhoneMoves(move));
    assert forall i :: 0 <= i < |t.sent| ==> t.sent[i] == if i < |s.sent| then s.sent[i] else Apply(s.phone, move).sent[i - |s.sent|];
  }

  // ------------------------------------------------------------------------------------
  // The pump

  /** A record learned or not, the window keeps or gains a sound configure. */
  lemma FitFrame(s: Sys, t: Sys)
    requires Fit(s) && t.back == s.back && t.sent == s.sent && t.host == s.host && t.oid == s.oid
    requires t.phone.stream.latest == s.phone.stream.latest || (Configured(t.phone) && Sound(t.phone.stream.latest.value))
    ensures Fit(t)
  {
  }

  lemma QueuedIsSound(s: Sys)
    requires Fit(s) && s.heard < |s.back|
    ensures s.back[s.heard].Configure? ==> Sound(s.back[s.heard].configure)
    ensures !Unfit(s.phone, s.back[s.heard])
  {
  }

  lemma ConfigureNeedsWindow(p: Phone, m: M.HostMsg)
    ensures m.Configure? && Hear(p, m).error.None? ==> p.window
  {
  }

  /** Applying a configure under its window sets exactly its serial, to be acknowledged. */
  lemma SettledPhone(s: Sys)
    requires s.heard < |s.back|
    ensures var p, m := Settled(s), s.back[s.heard];
      && p.window == s.phone.window && p.channel.binding.destroyRequested == s.B().destroyRequested
      && (p.stream.latest == s.phone.stream.latest || (m.Configure? && p.stream.latest == Some(m.configure)))
      && (Settle(s).service.stage.Acking? ==> s.phone.window && m.Configure? && p.stream.latest == Some(m.configure)
                                               && Settle(s).service.stage.serial == m.configure.serial)
  {
    hide Hear, Unfit;
    HearKeepsWindow(s.phone, s.back[s.heard]);
    ConfigureNeedsWindow(s.phone, s.back[s.heard]);
  }

  lemma SettleKeepsStaged(s: Sys)
    requires Staged(s) && s.pump && s.heard < |s.back|
    ensures Staged(Turned(s, Settled(s), Settle(s)))
  {
    hide Settled, Applies, Sound, Fit;
    SettledPhone(s);
    QueuedIsSound(s);
    FitFrame(s, Turned(s, Settled(s), Settle(s)));
  }

  lemma PumpKeepsStaged(s: Sys, step: Step)
    requires Staged(s) && Enabled(s, step) && !step.PhoneMoves? && !step.HostTakes? && !step.HostActs?
    ensures Staged(Next(s, step))
  {
    hide Fit, Settle, Settled;
    if step.PumpApplies? { SettleKeepsStaged(s); } else { FitFrame(s, Next(s, step)); }
  }

  // ------------------------------------------------------------------------------------
  // The host

  predicate Shown(t: E.Table, o: u64) { o in t && (t[o].pending != map[] || t[o].tracked != {}) }

  /** A presentation is only reported of a frame the host took. */
  lemma ActionFits(t: E.Table, a: E.Action)
    requires !a.Present?
    ensures var x := E.Apply(t, a);
      && (Shown(x.table, a.oid) ==> Shown(t, a.oid))
      && (x.record.Some? && x.record.value.Configure? ==> Sound(x.record.value.configure))
      && (x.record.Some? && x.record.value.Presented? ==> Shown(t, a.oid))
  {
  }

  lemma ReceiptFits(t: E.Table, m: M.PhoneMsg, fence: bool, signal: bool, send: bool)
    ensures var x := Receive(t, m, fence, signal, send);
      && (Shown(x.table, m.oid) ==> Shown(t, m.oid) || m.Present?)
      && (x.record.Some? ==> x.record.value.BufferReleased?)
  {
    hide Task.AckError, Task.PresentError, Task.DiscardError;
  }

  lemma ActKeepsStaged(s: Sys, a: E.Action)
    requires Staged(s) && Allowed(s, a)
    ensures Staged(ActHost(s, a))
  {
    hide E.Apply, Sound;
    if a.oid != s.oid { E.OtherObjectsUntouched(s.host, a, s.oid); } else { ActionFits(s.host, a); }
    hide Allowed;
  }

  lemma TakeKeepsStaged(s: Sys, fence: bool, signal: bool, send: bool)
    requires Structure(s) && Staged(s) && s.taken < |s.sent|
    ensures Staged(TakeNext(s, fence, signal, send))
  {
    hide Structure, Receive, Sound;
    Bounds(s);
    var t := TakeNext(s, fence, signal, send);
    ReceiptFits(s.host, s.sent[s.taken], fence, signal, send);
    assert s.back <= t.back;
    FitGrows(s, t);
    hide Fit;
  }

  lemma FitGrows(s: Sys, t: Sys)
    requires Fit(s) && t.phone == s.phone && t.sent == s.sent && t.oid == s.oid && s.back <= t.back
    requires forall i :: |s.back| <= i < |t.back| ==> !t.back[i].Configure? && !t.back[i].Presented?
    requires Shown(t.host, t.oid) ==> Shown(s.host, s.oid) || Configured(s.phone)
    ensures Fit(t)
  {
  }

  lemma StepKeepsStaged(s: Sys, step: Step)
    requires Inv(s) && Staged(s) && Enabled(s, step)
    ensures Staged(Next(s, step))
  {
    hide Structure, Lifecycle, Serials, Acks, Points, Tokens, Covered, Metadata, Sizes, Staged, TakeNext, ActHost, Allowed;
    match step
    case PhoneMoves(move) => MoveKeepsStaged(s, move);
    case HostTakes(fence, signal, send) => TakeKeepsStaged(s, fence, signal, send);
    case HostActs(a) => ActKeepsStaged(s, a);
    case _ => PumpKeepsStaged(s, step);
  }
}
