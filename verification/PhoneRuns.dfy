/** Everything one Android task can put on the wire, over every interleaving of host
    records, acknowledgements, acquisitions, cancellations, submissions and destruction. */
module PhoneRuns {
  import opened Base
  import opened Dmabuf
  import opened Phone
  import Transport
  import M = Messages

  datatype PhoneStep =
    | Heard(m: M.HostMsg)
    | Acked(serial: u32, send: bool)
    | Acquired(lazy: bool, send: bool, cloned: bool)
    | Cancelled(id: u64)
    | Submitted(buffer: Buffer, damage: Option<Rect>, isOpaque: bool, plan: SendPlan)
    | Destroyed(send: bool)
    | Powered(on: bool)
    | WindowRemoved

  ghost function Apply(p: Phone, s: PhoneStep): Outcome {
    match s
    case Heard(m) => Hear(p, m)
    case Acked(serial, send) => Ack(p, serial, send)
    case Acquired(lazy, send, cloned) => Acquire(p, lazy, send, cloned)
    case Cancelled(id) => Done(Cancel(p, id))
    case Submitted(b, damage, isOpaque, plan) => Submit(p, b, damage, isOpaque, plan)
    case Destroyed(send) => Destroy(p, send)
    case Powered(on) => Done(p.(powered := on))
    case WindowRemoved => RemoveWindow(p)
  }

  lemma RemovalKeepsValid(p: Phone)
    requires p.Valid()
    ensures RemoveWindow(p).phone.Valid()
  {
  }

  lemma ApplyKeepsValid(p: Phone, s: PhoneStep)
    requires p.Valid()
    ensures Apply(p, s).phone.Valid()
  {
    hide Phone.Valid;
    var b := p.channel.binding;
    match s
    case Heard(m) => HearKeepsValid(p, m);
    case Acked(serial, _) => StreamStepsKeepValid(p, Transport.Configure(0, 0, 0, 0), {}, serial);
    case Acquired(lazy, send, cloned) => AcquireKeepsValid(p, lazy, send, cloned);
    case Cancelled(id) => CancelKeepsValid(p, id);
    case Submitted(buffer, damage, isOpaque, plan) => SubmitKeepsValid(p, buffer, damage, isOpaque, plan);
    case Destroyed(_) => NotesKeepValid(p, p.channel.demand, p.channel.opacity, b.nextPoint, p.stream.nextFrame, p.powered, true);
    case Powered(on) => NotesKeepValid(p, p.channel.demand, p.channel.opacity, b.nextPoint, p.stream.nextFrame, on, b.destroyRequested);
    case WindowRemoved => RemovalKeepsValid(p);
  }

  /** A run, with every record that reached the wire and the opacity each accepted
      submission asked for, by frame. */
  datatype Trace = Trace(phone: Phone, log: seq<M.PhoneMsg>, intents: map<u64, bool>)

  ghost function Advance(t: Trace, s: PhoneStep): Trace {
    var r := Apply(t.phone, s);
    Trace(r.phone, t.log + r.sent,
          if s.Submitted? && r.error.None? then t.intents[r.phone.stream.nextFrame := s.isOpaque] else t.intents)
  }

  ghost function Run(oid: u64, steps: seq<PhoneStep>): Trace
    decreases |steps|
  {
    if steps == [] then Trace(NewPhone(oid), [], map[])
    else Advance(Run(oid, steps[..|steps| - 1]), steps[|steps| - 1])
  }

  /** The content state the host holds after folding the records sent so far. */
  function ContentAfter(log: seq<M.PhoneMsg>): Option<u32>
    decreases |log|
  {
    if log == [] then None
    else
      var last := log[|log| - 1];
      if last.SetContentState? then Some(last.flags) else ContentAfter(log[..|log| - 1])
  }

  function Flags(isOpaque: bool): u32 { if isOpaque then M.OPAQUE else 0 }

  ghost predicate OpacityExact(t: Trace) {
    && ContentAfter(t.log) == (if t.phone.channel.opacity.Some? then Some(Flags(t.phone.channel.opacity.value)) else None)
    && forall i :: 0 <= i < |t.log| && t.log[i].Present? ==>
         var f := t.log[i].frame.frame;
         f in t.intents && f <= t.phone.stream.nextFrame && ContentAfter(t.log[..i]) == Some(Flags(t.intents[f]))
  }

  /** Of the records modelled here only acknowledgements can still leave after a `DestroyTask`.
      Task bindings, input routes and activation requests are not modelled; the source does
      not check them against a requested destroy. */
  ghost predicate SilentAfterDestroy(t: Trace) {
    && (forall i :: 0 <= i < |t.log| && t.log[i].DestroyTask? ==> t.phone.channel.binding.destroyRequested)
    && (forall i, j :: 0 <= i < j < |t.log| && t.log[i].DestroyTask? ==> t.log[j].AckConfigure?)
  }

  lemma ContentAppend(log: seq<M.PhoneMsg>, m: M.PhoneMsg)
    ensures ContentAfter(log + [m]) == (if m.SetContentState? then Some(m.flags) else ContentAfter(log))
  {
    assert (log + [m])[..|log|] == log;
  }

  /** What a submission can put on the wire: nothing, a changed content state, or that
      followed by the frame itself. */
  ghost predicate SubmitShape(p: Phone, r: Outcome, isOpaque: bool) {
    var state := ContentState(p.channel, isOpaque);
    if r.error.None? then
      && !p.channel.binding.destroyRequested
      && r.phone.channel.opacity == Some(isOpaque)
      && r.phone.stream.nextFrame == p.stream.nextFrame + 1
      && |r.sent| == |state| + 1 && r.sent[..|state|] == state
      && r.sent[|state|].Present? && r.sent[|state|].frame.frame == r.phone.stream.nextFrame
    else
      && p.stream.nextFrame <= r.phone.stream.nextFrame
      && (if r.sent == [] && r.phone.channel.opacity == p.channel.opacity then true
          else r.sent == state && r.phone.channel.opacity == Some(isOpaque) && !p.channel.binding.destroyRequested)
  }

  lemma SubmitWire(p: Phone, b: Buffer, damage: Option<Rect>, isOpaque: bool, plan: SendPlan)
    ensures SubmitShape(p, Submit(p, b, damage, isOpaque, plan), isOpaque)
  {
    hide Transport.Presentation.SubmitError;
    if p.window && p.powered && p.stream.SubmitError(b, SubmitDamage(b, damage), true).None? {
      SubmitFacts(p.stream, b, SubmitDamage(b, damage));
    }
  }

  /** A frame on the wire damages exactly the pixels its submitter named, all of the buffer if
      it named none, and has no rectangle at all for an empty one. Its buffer, serial and
      identity are the target's, the acknowledged configure's and the stream's next. */
  lemma PresentSaysWhatWasSubmitted(p: Phone, b: Buffer, damage: Option<Rect>, isOpaque: bool, plan: SendPlan)
    requires Submit(p, b, damage, isOpaque, plan).error.None?
    ensures var r := Submit(p, b, damage, isOpaque, plan);
      && r.sent != [] && r.sent[|r.sent| - 1].Present?
      && var m := r.sent[|r.sent| - 1];
         && (forall x: nat, y: nat :: Damages(m.frame.damage, x, y) <==>
               if damage.Some? then InRect(damage.value, x, y) else x < b.width && y < b.height)
         && (damage.Some? && (damage.value.width == 0 || damage.value.height == 0) ==> m.frame.damage == [])
         && m.oid == p.channel.binding.oid && m.frame.buffer == b.id && Some(m.serial) == p.channel.binding.acked
         && m.frame.frame == p.stream.nextFrame + 1
  {
    SubmitFacts(p.stream, b, SubmitDamage(b, damage));
    hide ContentState, Cancel;
    var m := Submit(p, b, damage, isOpaque, plan).sent[|Submit(p, b, damage, isOpaque, plan).sent| - 1];
    assert m.frame.damage == SubmitDamage(b, damage);
    if SubmitDamage(b, damage) != [] {
      var rect := SubmitDamage(b, damage)[0];
      assert rect.Fits(b.width, b.height);
      assert forall x, y :: Damages([rect], x, y) <==> InRect(rect, x, y) by {
        forall x, y | InRect(rect, x, y) ensures Damages([rect], x, y) { assert InRect([rect][0], x, y); }
      }
    }
  }

  /** Steps other than a submission leave the content state alone. */
  lemma QuietWire(p: Phone, s: PhoneStep)
    requires !s.Submitted?
    ensures var r := Apply(p, s);
            && r.phone.channel.opacity == p.channel.opacity && r.phone.stream.nextFrame == p.stream.nextFrame
            && (r.sent == [] || |r.sent| == 1)
            && (r.sent != [] ==>
                  || r.sent[0].AckConfigure?
                  || (!p.channel.binding.destroyRequested && (r.sent[0].RequestRenderTargets? || r.sent[0].DestroyTask?)))
            && (r.phone.channel.binding.destroyRequested <==>
                  p.channel.binding.destroyRequested || (r.sent != [] && r.sent[0].DestroyTask?))
  {
    if s.Heard? { HearIsSilent(p, s.m); }
    if s.Acquired? { AcquireWire(p, s.lazy, s.send, s.cloned); }
    hide Hear, Acquire, Submit;
  }

  lemma AcquireWire(p: Phone, lazy: bool, send: bool, cloned: bool)
    ensures var r := Acquire(p, lazy, send, cloned);
            && r.phone.channel.opacity == p.channel.opacity && r.phone.stream == p.stream
            && r.phone.channel.binding == p.channel.binding
            && (r.sent == [] || (|r.sent| == 1 && !p.channel.binding.destroyRequested && r.sent[0].RequestRenderTargets?))
  {
    EnsureWire(p, lazy, send);
    hide Ensure;
  }

  lemma EnsureWire(p: Phone, lazy: bool, send: bool)
    ensures var r := Ensure(p, lazy, send);
            && r.phone == p.(channel := p.channel.(demand := r.phone.channel.demand))
            && (r.sent == [] || (|r.sent| == 1 && r.sent[0].RequestRenderTargets?))
  {
  }

  lemma HearIsSilent(p: Phone, m: M.HostMsg)
    ensures var r := Hear(p, m);
            && r.sent == [] && r.phone.channel.opacity == p.channel.opacity && r.phone.stream.nextFrame == p.stream.nextFrame
            && r.phone.channel.binding == p.channel.binding.(acked := r.phone.channel.binding.acked, pending := r.phone.channel.binding.pending)
  {
  }

  lemma AppendQuiet(t: Trace, p: Phone, m: M.PhoneMsg)
    requires OpacityExact(t) && !m.Present? && !m.SetContentState?
    requires p.channel.opacity == t.phone.channel.opacity && t.phone.stream.nextFrame <= p.stream.nextFrame
    ensures OpacityExact(Trace(p, t.log + [m], t.intents))
  {
    ContentAppend(t.log, m);
    PrefixesKept(t.log, m);
  }

  lemma PrefixesKept(log: seq<M.PhoneMsg>, m: M.PhoneMsg)
    ensures forall i :: 0 <= i <= |log| ==> (log + [m])[..i] == log[..i]
  {
  }

  lemma AppendState(t: Trace, p: Phone, m: M.PhoneMsg)
    requires OpacityExact(t) && m.SetContentState? && p.channel.opacity.Some? && m.flags == Flags(p.channel.opacity.value)
    requires t.phone.stream.nextFrame <= p.stream.nextFrame
    ensures OpacityExact(Trace(p, t.log + [m], t.intents))
  {
    ContentAppend(t.log, m);
    PrefixesKept(t.log, m);
  }

  lemma AppendPresent(t: Trace, p: Phone, m: M.PhoneMsg, isOpaque: bool)
    requires OpacityExact(t) && m.Present? && t.phone.channel.opacity == p.channel.opacity == Some(isOpaque)
    requires m.frame.frame == p.stream.nextFrame > t.phone.stream.nextFrame
    ensures OpacityExact(Trace(p, t.log + [m], t.intents[m.frame.frame := isOpaque]))
  {
    ContentAppend(t.log, m);
    PrefixesKept(t.log, m);
  }

  lemma OpacityStep(t: Trace, s: PhoneStep)
    requires OpacityExact(t)
    ensures OpacityExact(Advance(t, s))
  {
    var r := Apply(t.phone, s);
    if !s.Submitted? {
      QuietWire(t.phone, s);
      if r.sent == [] { assert t.log + r.sent == t.log; } else { AppendQuiet(t, r.phone, r.sent[0]); assert r.sent == [r.sent[0]]; }
    } else {
      SubmitWire(t.phone, s.buffer, s.damage, s.isOpaque, s.plan);
      SubmitOpacity(t, r, s.isOpaque);
    }
  }

  lemma SubmitOpacity(t: Trace, r: Outcome, isOpaque: bool)
    requires OpacityExact(t) && SubmitShape(t.phone, r, isOpaque)
    ensures OpacityExact(Trace(r.phone, t.log + r.sent,
              if r.error.None? then t.intents[r.phone.stream.nextFrame := isOpaque] else t.intents))
  {
    var state := ContentState(t.phone.channel, isOpaque);
    var told := t.phone.(channel := t.phone.channel.(opacity := Some(isOpaque)));
    var mid := Trace(told, t.log + state, t.intents);
    if state == [] { assert mid.log == t.log; } else { AppendState(t, told, state[0]); }
    assert OpacityExact(mid);
    if r.error.None? {
      AppendPresent(mid, r.phone, r.sent[|state|], isOpaque);
      assert r.sent == state + [r.sent[|state|]];
      assert t.log + r.sent == mid.log + [r.sent[|state|]];
    } else if r.sent == [] {
      assert t.log + r.sent == t.log;
    }
  }

  lemma SilenceStep(t: Trace, s: PhoneStep)
    requires SilentAfterDestroy(t)
    ensures SilentAfterDestroy(Advance(t, s))
  {
    if !s.Submitted? {
      QuietWire(t.phone, s);
    } else {
      SubmitWire(t.phone, s.buffer, s.damage, s.isOpaque, s.plan);
      SubmitKeepsDestroyed(t.phone, s.buffer, s.damage, s.isOpaque, s.plan);
    }
  }

  lemma SubmitKeepsDestroyed(p: Phone, b: Buffer, damage: Option<Rect>, isOpaque: bool, plan: SendPlan)
    ensures Submit(p, b, damage, isOpaque, plan).phone.channel.binding.destroyRequested == p.channel.binding.destroyRequested
    ensures forall m :: m in Submit(p, b, damage, isOpaque, plan).sent ==> !m.DestroyTask?
  {
    hide Transport.Presentation.SubmitError;
  }

  /** Over every run: the pool invariant holds; folding the `SetContentState` records sent
      before any `Present` gives exactly the opacity that frame was submitted with; and no
      `Present` or `SetContentState` follows the `DestroyTask`. */
  lemma {:induction false} EveryRun(oid: u64, steps: seq<PhoneStep>)
    ensures Run(oid, steps).phone.Valid()
    ensures OpacityExact(Run(oid, steps))
    ensures SilentAfterDestroy(Run(oid, steps))
    decreases |steps|
  {
    if steps == [] {
      assert NewPhone(oid).Valid();
    } else {
      var before, s := Run(oid, steps[..|steps| - 1]), steps[|steps| - 1];
      EveryRun(oid, steps[..|steps| - 1]);
      ApplyKeepsValid(before.phone, s);
      OpacityStep(before, s);
      SilenceStep(before, s);
    }
  }

  /** A target handed to SurfaceFlinger was idle, unrevoked, of the newest generation and the
      lowest such identity; it is reserved afterwards and nothing else in the pool changed. */
  lemma AcquireSelects(p: Phone, lazy: bool, send: bool, cloned: bool)
    requires Acquire(p, lazy, send, cloned).target.Some?
    ensures var r := Acquire(p, lazy, send, cloned); var b := r.target.value;
            && b in p.channel.targets && p.channel.demand.serial.Some?
            && p.channel.targets[b].Idle(p.channel.demand.serial.value)
            && r.phone.channel.targets == p.channel.targets[b := p.channel.targets[b].(reserved := true)]
            && forall c :: c in p.channel.targets && p.channel.targets[c].Idle(p.channel.demand.serial.value) ==> b <= c
  {
    var q := Ensure(p, lazy, send).phone;
    assert q.channel.targets == p.channel.targets && q.channel.demand.serial == p.channel.demand.serial;
    var idle, b := IdleTargets(q.channel, q.channel.demand.serial.value), Acquire(p, lazy, send, cloned).target.value;
    assert IsLeast(b, idle);
    forall c | c in p.channel.targets && p.channel.targets[c].Idle(p.channel.demand.serial.value) ensures b <= c {
      assert c in idle;
    }
  }

  /** The newest geometry has no target that could still be used, and none was asked for yet. */
  ghost predicate NeedsPool(p: Phone) {
    var d := p.channel.demand;
    && d.serial.Some? && d.requested != d.serial
    && forall b :: b in p.channel.targets ==> p.channel.targets[b].revoked || p.channel.targets[b].serial != d.serial.value
  }

  /** A pool is asked for exactly when one is needed, for the newest geometry. */
  lemma AsksExactly(p: Phone, lazy: bool, send: bool)
    ensures var r := Ensure(p, lazy, send);
      && r.sent == (if lazy && send && NeedsPool(p) then [M.RequestRenderTargets(p.channel.binding.oid, p.channel.demand.serial.value)] else [])
      && (r.error.Some? <==> lazy && !send && NeedsPool(p))
  {
  }

  /** A target is handed out exactly while the task stays, a pool that had to be asked for could
      be asked for, an idle target of the newest geometry exists and its planes can be cloned. */
  lemma AcquiresExactly(p: Phone, lazy: bool, send: bool, cloned: bool)
    ensures Acquire(p, lazy, send, cloned).target.Some? <==>
      && !p.channel.binding.destroyRequested && !(lazy && !send && NeedsPool(p)) && cloned
      && p.channel.demand.serial.Some?
      && exists b :: b in p.channel.targets && p.channel.targets[b].Idle(p.channel.demand.serial.value)
  {
    AsksExactly(p, lazy, send);
    var q := Ensure(p, lazy, send).phone;
    assert q.channel.targets == p.channel.targets && q.channel.demand.serial == p.channel.demand.serial;
    hide NeedsPool;
    if p.channel.demand.serial.Some? {
      var idle := IdleTargets(q.channel, q.channel.demand.serial.value);
      if b :| b in p.channel.targets && p.channel.targets[b].Idle(p.channel.demand.serial.value) { assert b in idle; }
      if b :| b in idle { assert p.channel.targets[b].Idle(p.channel.demand.serial.value); }
    }
    hide Ensure;
  }

  /** A submission succeeds exactly when the window is there and on, the stream takes the frame,
      the task stays, the target is the reserved one, a point is left, the configure is
      acknowledged, and the kernel and the socket answer. */
  lemma SubmissionSucceedsExactly(p: Phone, b: Buffer, damage: Option<Rect>, isOpaque: bool, plan: SendPlan)
    requires p.Valid()
    ensures Submit(p, b, damage, isOpaque, plan).error.None? <==>
      && p.window && p.powered && p.stream.SubmitError(b, SubmitDamage(b, damage), true).None?
      && var c := p.channel;
         && !c.binding.destroyRequested && c.binding.acked.Some? && c.binding.nextPoint + 1 < U64_LIMIT
         && b.id in c.targets && c.targets[b.id].reserved && !c.targets[b.id].busy && !c.targets[b.id].revoked
         && c.targets[b.id].metadata == b
         && (c.opacity == Some(isOpaque) || plan.sendState) && plan.imported && plan.exported && plan.sendPresent
  {
    hide Transport.Presentation.SubmitError, Cancel;
    if p.stream.SubmitError(b, SubmitDamage(b, damage), true).None? {
      SubmitFacts(p.stream, b, SubmitDamage(b, damage));
      NextFrameIsNew(p);
    }
    hide Phone.Valid;
  }

  lemma NextFrameIsNew(p: Phone)
    requires p.Valid()
    ensures p.stream.nextFrame + 1 !in p.channel.binding.pending
  {
  }

  /** Only a reserved, unrevoked target the host lent with this very metadata reaches the wire. */
  lemma PresentNeedsReservation(p: Phone, b: Buffer, damage: Option<Rect>, isOpaque: bool, plan: SendPlan)
    requires exists m :: m in Submit(p, b, damage, isOpaque, plan).sent && m.Present?
    ensures Submittable(p.channel, b) && Submit(p, b, damage, isOpaque, plan).error.None?
  {
    hide Transport.Presentation.SubmitError;
  }

  // ------------------------------------------------------------------------------------
  // Releases and revocations

  /** A release is taken exactly if it answers a frame Android waits for, under its own buffer
      and point; it frees exactly that frame's target, or drops it if it was revoked. */
  lemma ReleasesExactly(p: Phone, frame: u64, b: u64, point: u64)
    requires p.Valid()
    ensures var r := ApplyRelease(p, frame, b, point);
      && (r.error.None? <==> frame in p.stream.inFlight && p.stream.inFlight[frame] == b
                             && frame in p.channel.binding.pending && p.channel.binding.pending[frame] == point)
      && (r.error.Some? ==> r.phone == p)
      && (r.error.None? ==>
            && r.phone.stream.inFlight == p.stream.inFlight - {frame} && r.phone.channel.binding.pending == p.channel.binding.pending - {frame}
            && b in p.channel.targets
            && r.phone.channel.targets == if p.channel.targets[b].revoked then p.channel.targets - {b}
                                          else p.channel.targets[b := p.channel.targets[b].(busy := false)])
  {
    ReleaseFacts(p, frame, b);
    hide Phone.Valid;
  }

  lemma ReleaseFacts(p: Phone, frame: u64, b: u64)
    requires p.Valid()
    ensures frame in p.stream.inFlight ==> p.window && frame in p.channel.frameTargets && p.channel.frameTargets[frame] == p.stream.inFlight[frame]
    ensures frame in p.stream.inFlight && p.stream.inFlight[frame] == b ==> b in p.channel.targets
    ensures frame in p.stream.inFlight <==> frame in p.channel.binding.pending
  {
    if frame in p.stream.inFlight { assert p.stream.inFlight[frame] in p.stream.inFlight.Values; }
  }

  /** A revoked target that is in use stays, marked, until it is returned or released; one that
      is not goes at once; no other target changes. */
  lemma RevocationsWait(p: Phone, b: u64)
    ensures var r := RevokeTarget(p, b);
      && (r.error.None? <==> b in p.channel.targets)
      && (r.error.None? ==>
            && (b in r.phone.channel.targets <==> p.channel.targets[b].reserved || p.channel.targets[b].busy)
            && (b in r.phone.channel.targets ==> r.phone.channel.targets[b] == p.channel.targets[b].(revoked := true))
            && r.phone.channel.targets - {b} == p.channel.targets - {b}
            && r.phone == p.(channel := p.channel.(targets := r.phone.channel.targets)))
  {
  }

  /** Every target of Android is as some record of the host lent it: serial and metadata. */
  lemma {:induction false} TargetsAreAsLent(oid: u64, steps: seq<PhoneStep>, n: nat, b: u64)
    requires n <= |steps| && b in Run(oid, steps[..n]).phone.channel.targets
    ensures var t := Run(oid, steps[..n]).phone.channel.targets[b];
      exists i :: 0 <= i < n && steps[i] == Heard(M.RegisterRenderTarget(oid, t.serial, t.metadata))
  {
    if n == 0 {
      NoTargets(oid, steps);
    } else {
      RunAt(oid, steps, n - 1);
      RunObject(oid, steps, n - 1);
      hide Run, Apply;
      var p := Run(oid, steps[..n - 1]).phone;
      TargetStep(p, steps[n - 1], b);
      var t := Run(oid, steps[..n]).phone.channel.targets[b];
      if steps[n - 1] != Heard(M.RegisterRenderTarget(oid, t.serial, t.metadata)) { TargetsAreAsLent(oid, steps, n - 1, b); }
    }
  }

  lemma NoTargets(oid: u64, steps: seq<PhoneStep>)
    ensures Run(oid, steps[..0]).phone.channel.targets == map[]
  {
    assert steps[..0] == [];
  }

  lemma {:induction false} RunObject(oid: u64, steps: seq<PhoneStep>, n: nat)
    requires n <= |steps|
    ensures Run(oid, steps[..n]).phone.channel.binding.oid == oid
  {
    if n == 0 {
      assert steps[..0] == [];
    } else {
      RunObject(oid, steps, n - 1);
      RunAt(oid, steps, n - 1);
      ObjectStep(Run(oid, steps[..n - 1]).phone, steps[n - 1]);
      hide Run, Apply;
    }
  }

  lemma ObjectStep(p: Phone, s: PhoneStep)
    ensures Apply(p, s).phone.channel.binding.oid == p.channel.binding.oid
  {
    hide Submit, Acquire, Hear, Cancel;
    match s
    case Submitted(b, damage, isOpaque, plan) => SubmitKeepsObject(p, b, damage, isOpaque, plan);
    case Acquired(lazy, send, cloned) => AcquireKeepsAck(p, lazy, send, cloned);
    case Cancelled(b) => CancelKeepsAck(p, b);
    case Heard(m) => HearKeepsObject(p, m);
    case _ =>
  }

  lemma SubmitKeepsObject(p: Phone, b: Buffer, damage: Option<Rect>, isOpaque: bool, plan: SendPlan)
    ensures Submit(p, b, damage, isOpaque, plan).phone.channel.binding.oid == p.channel.binding.oid
  {
    hide Transport.Presentation.SubmitError;
  }

  lemma HearKeepsObject(p: Phone, m: M.HostMsg)
    ensures Hear(p, m).phone.channel.binding.oid == p.channel.binding.oid
  {
  }

  /** What is known of `b` afterwards was known before. */
  predicate KeepsTarget(p: Phone, q: Phone, b: u64) {
    b in q.channel.targets ==> b in p.channel.targets && q.channel.targets[b].serial == p.channel.targets[b].serial
                               && q.channel.targets[b].metadata == p.channel.targets[b].metadata
  }

  lemma CancelKeepsTargets(p: Phone, id: u64, b: u64)
    ensures KeepsTarget(p, Cancel(p, id), b)
  {
  }

  lemma SendKeepsTargets(p: Phone, frame: u64, buffer: Buffer, damage: seq<Rect>, isOpaque: bool, plan: SendPlan, b: u64)
    ensures KeepsTarget(p, p.(channel := SendFrame(p.channel, frame, buffer, damage, isOpaque, plan).0), b)
  {
    hide ContentState;
  }

  lemma SubmitKeepsTargets(p: Phone, buffer: Buffer, damage: Option<Rect>, isOpaque: bool, plan: SendPlan, b: u64)
    ensures KeepsTarget(p, Submit(p, buffer, damage, isOpaque, plan).phone, b)
  {
    hide Transport.Presentation.SubmitError, Cancel, SendFrame, SubmitDamage;
    CancelKeepsTargets(p, buffer.id, b);
    var rects := SubmitDamage(buffer, damage);
    if p.window && p.powered && p.stream.SubmitError(buffer, rects, true).None? {
      SubmitFacts(p.stream, buffer, rects);
      var frame := p.stream.nextFrame + 1;
      SendKeepsTargets(p, frame, buffer, rects, isOpaque, plan, b);
      var after := SendFrame(p.channel, frame, buffer, rects, isOpaque, plan).0;
      CancelKeepsTargets(p.(channel := after, stream := p.stream.(nextFrame := frame)), buffer.id, b);
    }
  }

  lemma AcquireKeepsTargets(p: Phone, lazy: bool, send: bool, cloned: bool, b: u64)
    ensures var q := Acquire(p, lazy, send, cloned).phone;
      b in q.channel.targets ==> b in p.channel.targets && q.channel.targets[b].serial == p.channel.targets[b].serial
                                 && q.channel.targets[b].metadata == p.channel.targets[b].metadata
  {
    var r := Acquire(p, lazy, send, cloned);
    EnsureKeepsTargets(p, lazy, send);
    hide Ensure;
    if r.target.None? { assert r.phone.channel.targets == p.channel.targets; } else { AcquireSelects(p, lazy, send, cloned); }
    hide Acquire;
  }

  lemma EnsureKeepsTargets(p: Phone, lazy: bool, send: bool)
    ensures Ensure(p, lazy, send).phone.channel.targets == p.channel.targets
  {
  }

  lemma TargetStep(p: Phone, s: PhoneStep, b: u64)
    ensures var q := Apply(p, s).phone;
      b in q.channel.targets ==>
        || (b in p.channel.targets && q.channel.targets[b].serial == p.channel.targets[b].serial
            && q.channel.targets[b].metadata == p.channel.targets[b].metadata)
        || s == Heard(M.RegisterRenderTarget(p.channel.binding.oid, q.channel.targets[b].serial, q.channel.targets[b].metadata))
  {
    hide Submit, Acquire;
    match s
    case Submitted(buffer, damage, isOpaque, plan) => SubmitKeepsTargets(p, buffer, damage, isOpaque, plan, b);
    case Acquired(lazy, send, cloned) => AcquireKeepsTargets(p, lazy, send, cloned, b);
    case _ =>
  }

  // ------------------------------------------------------------------------------------
  // Acknowledgements

  /** The step applies a configure to the window. */
  ghost predicate Configures(p: Phone, s: PhoneStep) { s.Heard? && s.m.Configure? && Hear(p, s.m).error.None? }

  lemma SubmitKeepsAck(p: Phone, b: Buffer, damage: Option<Rect>, isOpaque: bool, plan: SendPlan)
    ensures Submit(p, b, damage, isOpaque, plan).phone.channel.binding.acked == p.channel.binding.acked
  {
    hide Transport.Presentation.SubmitError;
  }

  lemma AckStepKind(p: Phone, s: PhoneStep)
    ensures var acked := Apply(p, s).phone.channel.binding.acked;
      acked.Some? ==> (s.Acked? && acked == Some(s.serial)) || (acked == p.channel.binding.acked && !Configures(p, s))
  {
    hide Submit, Acquire, RevokeTarget, RegisterTarget, Cancel;
    match s
    case Submitted(b, damage, isOpaque, plan) => SubmitKeepsAck(p, b, damage, isOpaque, plan);
    case Acquired(lazy, send, cloned) => AcquireKeepsAck(p, lazy, send, cloned);
    case Cancelled(b) => CancelKeepsAck(p, b);
    case Heard(m) => HeardAck(p, m);
    case _ =>
  }

  lemma AcquireKeepsAck(p: Phone, lazy: bool, send: bool, cloned: bool)
    ensures Acquire(p, lazy, send, cloned).phone.channel.binding == p.channel.binding
  {
  }

  lemma CancelKeepsAck(p: Phone, b: u64)
    ensures Cancel(p, b).channel.binding == p.channel.binding
  {
  }

  lemma HeardAck(p: Phone, m: M.HostMsg)
    ensures var r := Hear(p, m);
      r.phone.channel.binding.acked == if m.Configure? && r.error.None? then None else p.channel.binding.acked
  {
  }

  /** Step `a` acknowledges `serial`, and no configure was applied from then until step `n`. */
  ghost predicate AckedSince(oid: u64, steps: seq<PhoneStep>, a: nat, n: nat, serial: u32) {
    && a < n <= |steps| && steps[a].Acked? && steps[a].serial == serial
    && forall k :: a < k < n ==> !Configures(Run(oid, steps[..k]).phone, steps[k])
  }

  ghost predicate FreshlyAcked(oid: u64, steps: seq<PhoneStep>, n: nat, serial: u32) { exists a: nat :: AckedSince(oid, steps, a, n, serial) }

  lemma {:induction false} AcksAreFresh(oid: u64, steps: seq<PhoneStep>, n: nat)
    requires n <= |steps|
    ensures var acked := Run(oid, steps[..n]).phone.channel.binding.acked; acked.Some? ==> FreshlyAcked(oid, steps, n, acked.value)
  {
    hide Run, Apply, Configures, AckedSince, FreshlyAcked;
    if n == 0 {
      NothingAcked(oid, steps);
    } else {
      AcksAreFresh(oid, steps, n - 1);
      RunAt(oid, steps, n - 1);
      var p, acked := Run(oid, steps[..n - 1]).phone, Run(oid, steps[..n]).phone.channel.binding.acked;
      AckStepKind(p, steps[n - 1]);
      if acked.Some? {
        if steps[n - 1].Acked? && acked == Some(steps[n - 1].serial) {
          JustAcked(oid, steps, n);
        } else {
          StillAcked(oid, steps, n, acked.value);
        }
      }
    }
  }

  lemma NothingAcked(oid: u64, steps: seq<PhoneStep>)
    ensures Run(oid, steps[..0]).phone.channel.binding.acked.None?
  {
    assert steps[..0] == [];
  }

  lemma JustAcked(oid: u64, steps: seq<PhoneStep>, n: nat)
    requires 0 < n <= |steps| && steps[n - 1].Acked?
    ensures FreshlyAcked(oid, steps, n, steps[n - 1].serial)
  {
    hide Run, Configures;
    assert AckedSince(oid, steps, n - 1, n, steps[n - 1].serial);
  }

  lemma StillAcked(oid: u64, steps: seq<PhoneStep>, n: nat, serial: u32)
    requires 0 < n <= |steps| && FreshlyAcked(oid, steps, n - 1, serial) && !Configures(Run(oid, steps[..n - 1]).phone, steps[n - 1])
    ensures FreshlyAcked(oid, steps, n, serial)
  {
    hide Run, Configures;
    var a: nat :| AckedSince(oid, steps, a, n - 1, serial);
    assert AckedSince(oid, steps, a, n, serial);
  }

  /** Over every run a frame leaves only under a serial that was acknowledged after the last
      configure was applied, even if that configure only repeated the serial. */
  lemma FramesFollowAcks(oid: u64, steps: seq<PhoneStep>, n: nat)
    requires n < |steps| && steps[n].Submitted?
    requires Apply(Run(oid, steps[..n]).phone, steps[n]).error.None?
    ensures var sent := Apply(Run(oid, steps[..n]).phone, steps[n]).sent;
      sent != [] && sent[|sent| - 1].Present? && FreshlyAcked(oid, steps, n, sent[|sent| - 1].serial)
  {
    hide Run, FreshlyAcked, Submit;
    AcksAreFresh(oid, steps, n);
    PresentSaysWhatWasSubmitted(Run(oid, steps[..n]).phone, steps[n].buffer, steps[n].damage, steps[n].isOpaque, steps[n].plan);
  }

  // ------------------------------------------------------------------------------------
  // Demand for render targets

  predicate AsksIn(sent: seq<M.PhoneMsg>) { exists i :: 0 <= i < |sent| && sent[i].RequestRenderTargets? }

  lemma EnsureDemand(p: Phone, lazy: bool, send: bool)
    ensures var r, d := Ensure(p, lazy, send), p.channel.demand;
      && r.phone.channel.demand.serial == d.serial
      && (if AsksIn(r.sent) then d.serial.Some? && d.requested != d.serial && r.phone.channel.demand.requested == d.serial
          else r.phone.channel.demand == d)
  {
    var sent := Ensure(p, lazy, send).sent;
    assert sent == [] || sent[0].RequestRenderTargets?;
  }

  lemma AcquireDemand(p: Phone, lazy: bool, send: bool, cloned: bool)
    ensures var r, d := Acquire(p, lazy, send, cloned), p.channel.demand;
      && r.phone.channel.demand.serial == d.serial
      && (if AsksIn(r.sent) then d.serial.Some? && d.requested != d.serial && r.phone.channel.demand.requested == d.serial
          else r.phone.channel.demand == d)
  {
    EnsureDemand(p, lazy, send);
    hide Ensure;
  }

  lemma SubmitDemand(p: Phone, b: Buffer, damage: Option<Rect>, isOpaque: bool, plan: SendPlan)
    ensures var r := Submit(p, b, damage, isOpaque, plan); r.phone.channel.demand == p.channel.demand && !AsksIn(r.sent)
  {
    hide Transport.Presentation.SubmitError;
  }

  /** A request is made only if none was made since the serial last changed, and one that was
      made is remembered until it changes. */
  lemma DemandStep(p: Phone, s: PhoneStep)
    ensures var r, d := Apply(p, s), p.channel.demand;
      var after := r.phone.channel.demand;
      && (AsksIn(r.sent) ==> d.serial.Some? && d.requested != d.serial && after.serial == after.requested == d.serial)
      && (d.requested == d.serial && after.serial == d.serial ==> after.requested == d.requested)
  {
    hide Submit, Acquire, ApplyRelease, RevokeTarget, RegisterTarget, Cancel;
    match s
    case Acquired(lazy, send, cloned) => AcquireDemand(p, lazy, send, cloned);
    case Submitted(b, damage, isOpaque, plan) => SubmitDemand(p, b, damage, isOpaque, plan);
    case Heard(m) => HeardDemand(p, m);
    case Cancelled(b) => CancelDemand(p, b);
    case _ =>
  }

  lemma CancelDemand(p: Phone, b: u64)
    ensures Cancel(p, b).channel.demand == p.channel.demand
  {
  }

  lemma HeardDemand(p: Phone, m: M.HostMsg)
    ensures var r := Hear(p, m);
      r.sent == [] && (r.phone.channel.demand == p.channel.demand || (m.Configure? && r.phone.channel.demand == p.channel.demand.Configured(m.configure.serial)))
  {
  }

  /** The geometry generation before step `k` of the run. */
  ghost function GenerationAt(oid: u64, steps: seq<PhoneStep>, k: nat): Option<u32>
    requires k <= |steps|
  {
    Run(oid, steps[..k]).phone.channel.demand.serial
  }

  ghost predicate AsksAt(oid: u64, steps: seq<PhoneStep>, i: nat) {
    i < |steps| && AsksIn(Apply(Run(oid, steps[..i]).phone, steps[i]).sent)
  }

  lemma RunAt(oid: u64, steps: seq<PhoneStep>, i: nat)
    requires i < |steps|
    ensures Run(oid, steps[..i + 1]).phone == Apply(Run(oid, steps[..i]).phone, steps[i]).phone
  {
    assert steps[..i + 1][..i] == steps[..i];
  }

  /** While the generation stays the same, a request that was made stays remembered. */
  lemma {:induction false} RequestRemembered(oid: u64, steps: seq<PhoneStep>, i: nat, k: nat)
    requires i < k <= |steps| && AsksAt(oid, steps, i)
    requires forall n :: i < n <= k ==> GenerationAt(oid, steps, n) == GenerationAt(oid, steps, i)
    ensures Run(oid, steps[..k]).phone.channel.demand.requested == GenerationAt(oid, steps, k)
    decreases k
  {
    hide Run, Apply, AsksIn;
    RunAt(oid, steps, k - 1);
    DemandStep(Run(oid, steps[..k - 1]).phone, steps[k - 1]);
    if i + 1 < k { RequestRemembered(oid, steps, i, k - 1); }
    assert GenerationAt(oid, steps, k) == GenerationAt(oid, steps, i);
  }

  /** Over every run a pool is asked for at most once per geometry generation: between two
      requests the serial changed. A request whose send failed was not made and is retried. */
  lemma OneRequestPerGeneration(oid: u64, steps: seq<PhoneStep>, i: nat, j: nat)
    requires i < j && AsksAt(oid, steps, i) && AsksAt(oid, steps, j)
    ensures exists k :: i < k <= j && GenerationAt(oid, steps, k) != GenerationAt(oid, steps, i)
  {
    hide Run, Apply, AsksIn;
    if forall k :: i < k <= j ==> GenerationAt(oid, steps, k) == GenerationAt(oid, steps, i) {
      RequestRemembered(oid, steps, i, j);
      DemandStep(Run(oid, steps[..j]).phone, steps[j]);
      assert false;
    }
  }
}
