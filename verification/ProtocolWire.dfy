/** What Android sends in a run can always be put on the wire. */
module ProtocolWire {
  import opened Base
  import opened Dmabuf
  import opened HostTask
  import opened Phone
  import opened PhoneRuns
  import opened Protocol
  import opened ProtocolSteps
  import opened ProtocolPump
  import opened ProtocolPool
  import opened ProtocolRuns
  import E = Endpoint
  import Transport
  import M = Messages
  import A = AndroidCodec
  import CodecBounds

  /** The message of a record; the package of a new task is not part of the protocol model. */
  function OnWire(m: M.PhoneMsg): A.AndroidMessage
    requires !m.CreateTask?
  {
    match m
    case BindTimelines(o) => A.BindTimelines(o)
    case AckConfigure(o, serial) => A.AckConfigure(o, serial)
    case Present(o, f, serial) => A.Present(o, f.frame, f.buffer, serial, f.acquirePoint, f.releasePoint, f.damage)
    case SetContentState(o, flags) => A.SetContentState(o, flags)
    case RequestRenderTargets(o, serial) => A.RequestRenderTargets(o, serial)
    case DestroyTask(o) => A.DestroyTask(o)
  }

  predicate Wireable(m: M.PhoneMsg) { m.CreateTask? || A.Valid(OnWire(m)) }

  ghost predicate AllWireable(ms: seq<M.PhoneMsg>) { forall i :: 0 <= i < |ms| ==> Wireable(ms[i]) }

  /** No target is called zero, and the configure in use has a serial. */
  ghost predicate Named(p: Phone) {
    && p.channel.binding.oid != 0
    && (forall b :: b in p.channel.targets ==> b != 0)
    && (p.stream.latest.Some? ==> p.stream.latest.value.serial != 0)
  }

  lemma SubmitIsWireable(p: Phone, b: Buffer, damage: Option<Rect>, isOpaque: bool, plan: SendPlan)
    requires p.Valid() && Named(p)
    ensures AllWireable(Submit(p, b, damage, isOpaque, plan).sent)
  {
    hide Transport.Presentation.SubmitError, SubmitDamage;
    var r := Submit(p, b, damage, isOpaque, plan);
    SubmitWire(p, b, damage, isOpaque, plan);
    SubmitOutcome(p, b, damage, isOpaque, plan);
    if r.error.None? {
      SubmitFacts(p.stream, b, SubmitDamage(b, damage));
      AckedSerial(p);
      FrameIsWireable(p, b, damage);
      StateIsWireable(p.channel, isOpaque);
      hide Submit, Wireable, ContentState, SentFrame;
    } else {
      StateIsWireable(p.channel, isOpaque);
      hide Submit, Wireable, ContentState;
    }
  }

  lemma StateIsWireable(c: Channel, isOpaque: bool)
    requires c.binding.oid != 0
    ensures AllWireable(ContentState(c, isOpaque))
  {
  }

  lemma AckedSerial(p: Phone)
    requires p.Valid() && Named(p)
    ensures p.channel.binding.acked.Some? ==> p.channel.binding.acked.value != 0
    ensures p.channel.demand.serial.Some? ==> p.channel.demand.serial.value != 0
  {
  }

  lemma FrameIsWireable(p: Phone, b: Buffer, damage: Option<Rect>)
    requires Named(p) && b.id in p.channel.targets && b.Valid()
    requires p.channel.binding.acked.Some? && p.channel.binding.acked.value != 0
    requires p.channel.binding.nextPoint + 1 < U64_LIMIT && p.stream.nextFrame + 1 < U64_LIMIT
    requires forall i :: 0 <= i < |SubmitDamage(b, damage)| ==> SubmitDamage(b, damage)[i].Fits(b.width, b.height)
    ensures Wireable(SentFrame(p, b, damage))
  {
    assert |SubmitDamage(b, damage)| <= 1;
    hide SubmitDamage;
  }

  lemma MoveIsWireable(p: Phone, move: PhoneStep)
    requires p.Valid() && Named(p) && !move.Heard?
    ensures AllWireable(Apply(p, move).sent)
  {
    hide Phone.Valid, Submit, Acquire, Cancel;
    match move
    case Submitted(b, damage, isOpaque, plan) => SubmitIsWireable(p, b, damage, isOpaque, plan);
    case Acquired(lazy, send, cloned) => AcquireIsWireable(p, lazy, send, cloned);
    case _ =>
  }

  lemma AcquireIsWireable(p: Phone, lazy: bool, send: bool, cloned: bool)
    requires p.Valid() && Named(p)
    ensures AllWireable(Acquire(p, lazy, send, cloned).sent)
  {
    AckedSerial(p);
    AsksExactly(p, lazy, send);
    hide Phone.Valid, NeedsPool;
  }

  // ------------------------------------------------------------------------------------
  // Runs

  /** Every buffer ever lent has an identity. */
  ghost predicate LentNamed(s: Sys) { forall b :: b in s.issued ==> b != 0 }

  lemma LendNames(t: E.Table, a: E.Action)
    requires a.Lend? && E.Apply(t, a).error.None?
    ensures a.buffer.id != 0
  {
  }

  lemma StepNames(s: Sys, step: Step)
    requires Enabled(s, step) && LentNamed(s) && Next(s, step).open
    ensures LentNamed(Next(s, step))
  {
    hide MovePhone, TakeNext, ActHost, E.Apply, Allowed, Look, Find, Settle, Settled, Connect, Dispatch, Announce, LentNamed;
    match step
    case HostActs(a) => ActNames(s, a);
    case _ => SameIssued(s, step);
  }

  lemma ActNames(s: Sys, a: E.Action)
    requires LentNamed(s)
    ensures LentNamed(ActHost(s, a))
  {
    hide E.Apply;
    if a.Lend? && E.Apply(s.host, a).error.None? { LendNames(s.host, a); }
  }

  lemma SameIssued(s: Sys, step: Step)
    requires Enabled(s, step) && !step.HostActs?
    ensures LentNamed(s) ==> LentNamed(Next(s, step))
  {
    hide Apply, Receive, Allowed, Look, Find, Settle, Settled, Connect, Dispatch, Announce;
  }

  lemma PhoneIsNamed(s: Sys)
    requires Inv(s) && Lending(s) && LentNamed(s)
    ensures s.phone.Valid() && Named(s.phone)
  {
    hide Lifecycle, Serials, Acks, Points, Tokens, Covered, Sizes, Pool, Reliable;
    PhoneIsValid(s);
    forall b | b in s.phone.channel.targets ensures b != 0 { TargetHasItsId(s.phone, b); }
    hide Phone.Valid;
  }

  lemma TargetHasItsId(p: Phone, b: u64)
    requires p.Valid() && b in p.channel.targets
    ensures p.channel.targets[b].metadata.id == b
  {
  }

  lemma StepIsWireable(s: Sys, step: Step)
    requires Inv(s) && Lending(s) && LentNamed(s) && Enabled(s, step) && AllWireable(s.sent)
    ensures AllWireable(Next(s, step).sent)
  {
    hide Inv, Lending, LentNamed, Wireable, Apply, Receive, E.Apply, Allowed, Look, Find, Settle, Settled, Connect, Dispatch, Announce;
    if step.PhoneMoves? {
      PhoneIsNamed(s);
      MoveIsWireable(s.phone, step.move);
    }
  }

  lemma {:induction false} RunIsWireable(states: seq<Sys>, steps: seq<Step>, j: nat)
    requires IsRun(states, steps) && j < |states|
    ensures AllWireable(states[j].sent) && (states[j].open ==> LentNamed(states[j]))
  {
    hide Inv, Lending, LentNamed, Next, AllWireable, Enabled, Init;
    if j == 0 {
      FirstIsWireable(states[0]);
    } else {
      var s, step := states[j - 1], steps[j - 1];
      RunIsWireable(states, steps, j - 1);
      assert Enabled(s, step) && states[j] == Next(s, step);
      EnabledIsOpen(s, step);
      RunHolds(states, steps, j - 1);
      StepIsWireable(s, step);
      if states[j].open { StepNames(s, step); }
    }
  }

  lemma FirstIsWireable(s: Sys)
    requires Init(s)
    ensures AllWireable(s.sent) && LentNamed(s)
  {
  }

  /** In every run every record Android sends after creating the task encodes, and decodes on
      the host to the same message: no send fails in the codec, and nothing is lost in it. */
  lemma RecordsTravel(states: seq<Sys>, steps: seq<Step>, j: nat, i: nat)
    requires IsRun(states, steps) && j < |states| && i < |states[j].sent| && !states[j].sent[i].CreateTask?
    ensures var m := OnWire(states[j].sent[i]);
      && A.Encode(m).Ok?
      && var e := A.Encode(m).value; A.Decode(e.bytes, |e.descriptors|).Ok? && A.Decode(e.bytes, |e.descriptors|).value.message == m
  {
    hide IsRun, A.Encode, A.Decode, A.Valid;
    RunIsWireable(states, steps, j);
    assert Wireable(states[j].sent[i]);
    A.RoundTrip(OnWire(states[j].sent[i]), CodecBounds.NoTable);
  }
}
