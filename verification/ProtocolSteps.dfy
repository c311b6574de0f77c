/** Every step of either peer keeps the protocol invariant. */
module ProtocolSteps {
  import opened Base
  import opened Serial
  import opened Dmabuf
  import opened HostTask
  import opened Phone
  import opened PhoneRuns
  import opened Protocol
  import opened ProtocolFrames
  import E = Endpoint
  import Transport
  import M = Messages

  lemma InitHolds(s: Sys)
    requires Init(s)
    ensures Inv(s)
  {
    NewPhoneIsValid(s.oid);
    hide Phone.Valid, E.Valid;
  }

  lemma NewPhoneIsValid(oid: u64)
    ensures NewPhone(oid).Valid()
  {
  }

  // ------------------------------------------------------------------------------------
  // Android steps

  /** A phone that may have spent points or dropped targets, but owes and knows the same. */
  ghost predicate PhoneNeutral(p: Phone, q: Phone) {
    && q.channel.binding == p.channel.binding.(nextPoint := q.channel.binding.nextPoint)
    && p.channel.binding.nextPoint <= q.channel.binding.nextPoint
    && q.stream.inFlight == p.stream.inFlight && q.stream.latest == p.stream.latest
    && forall b :: b in q.channel.targets ==> b in p.channel.targets && q.channel.targets[b].metadata == p.channel.targets[b].metadata
  }

  ghost predicate NeutralRecords(oid: u64, ms: seq<M.PhoneMsg>) {
    forall i :: 0 <= i < |ms| ==> ms[i].oid == oid && (ms[i].SetContentState? || ms[i].RequestRenderTargets?)
  }

  lemma NeutralKeepsInv(s: Sys, q: Phone, ms: seq<M.PhoneMsg>)
    requires Inv(s) && q.Valid() && PhoneNeutral(s.phone, q)
    requires NeutralRecords(s.oid, ms) && (ms != [] ==> !s.B().destroyRequested)
    ensures Inv(s.(phone := q, sent := s.sent + ms))
  {
    hide Structure, Lifecycle, Serials, Acks, Points, Tokens, Covered, Metadata, Sizes, Phone.Valid, E.Valid, Issued, SameSize;
    var t := s.(phone := q, sent := s.sent + ms);
    SameConfigure(s, t);
    Bounds(s);
    StructureStep(s, t);
    LifecycleStep(s, t);
    SerialsStep(s, t);
    AcksFrame(s, t);
    PointsStep(s, t);
    TokensFrame(s, t);
    CoveredFrame(s, t);
    MetadataStep(s, t);
    SizesStep(s, t);
  }

  lemma Bounds(s: Sys)
    requires Structure(s)
    ensures s.taken <= |s.sent| && s.heard <= |s.back| && s.phone.Valid() && E.Valid(s.host) && s.B().oid == s.oid
    ensures forall i :: 0 <= i < |s.sent| ==> s.sent[i].oid == s.oid
    ensures forall i :: 0 <= i < |s.back| ==> s.back[i].oid == s.oid
    ensures 2 <= |s.sent| && s.oid != 0
  {
    hide Phone.Valid, E.Valid;
  }

  lemma CancelIsNeutral(p: Phone, b: u64)
    ensures PhoneNeutral(p, Cancel(p, b))
  {
  }

  /** One attempt to send a frame: a failure may spend a point, a success owns the target. */
  lemma SendOutcome(c: Channel, frame: u64, b: Buffer, damage: seq<Rect>, isOpaque: bool, plan: SendPlan)
    ensures var (after, error, sent) := SendFrame(c, frame, b, damage, isOpaque, plan);
      if error.Some? then
        && after.targets == c.targets && after.binding == c.binding.(nextPoint := after.binding.nextPoint)
        && c.binding.nextPoint <= after.binding.nextPoint
      else
        && Submittable(c, b) && !c.binding.destroyRequested && c.binding.acked.Some? && c.binding.nextPoint + 1 < U64_LIMIT
        && after.binding == c.binding.Prepared(frame)
        && after.targets == c.targets[b.id := c.targets[b.id].(reserved := false, busy := true)]
        && sent == ContentState(c, isOpaque)
             + [M.Present(c.binding.oid, Frame(frame, b.id, c.binding.nextPoint + 1, c.binding.nextPoint + 1, damage), c.binding.acked.value)]
  {
    hide ContentState;
  }

  /** What the phone keeps when a submission fails, and what it sends when one succeeds. */
  lemma SubmitOutcome(p: Phone, b: Buffer, damage: Option<Rect>, isOpaque: bool, plan: SendPlan)
    ensures var r := Submit(p, b, damage, isOpaque, plan);
            r.error.Some? ==> PhoneNeutral(p, r.phone)
    ensures var r := Submit(p, b, damage, isOpaque, plan);
            r.error.None? ==>
              && Submittable(p.channel, b) && !p.channel.binding.destroyRequested && p.channel.binding.acked.Some?
              && p.channel.binding.nextPoint + 1 < U64_LIMIT && p.stream.SubmitError(b, SubmitDamage(b, damage), true).None?
              && p.stream.nextFrame + 1 < U64_LIMIT
              && r.phone.channel.binding == p.channel.binding.Prepared(p.stream.nextFrame + 1)
              && r.phone.channel.targets == p.channel.targets[b.id := p.channel.targets[b.id].(reserved := false, busy := true)]
              && r.phone.stream == p.stream.Submitted(b)
              && r.sent == ContentState(p.channel, isOpaque) + [SentFrame(p, b, damage)]
  {
    hide Transport.Presentation.SubmitError, SendFrame, Cancel, ContentState, Submittable, SubmitDamage;
    CancelIsNeutral(p, b.id);
    if p.window && p.powered && p.stream.SubmitError(b, SubmitDamage(b, damage), true).None? {
      SubmitFacts(p.stream, b, SubmitDamage(b, damage));
      var frame := p.stream.nextFrame + 1;
      SendOutcome(p.channel, frame, b, SubmitDamage(b, damage), isOpaque, plan);
      var after := SendFrame(p.channel, frame, b, SubmitDamage(b, damage), isOpaque, plan).0;
      CancelIsNeutral(p.(channel := after, stream := p.stream.(nextFrame := frame)), b.id);
    }
  }

  function SentFrame(p: Phone, b: Buffer, damage: Option<Rect>): M.PhoneMsg
    requires p.channel.binding.acked.Some? && p.channel.binding.nextPoint + 1 < U64_LIMIT && p.stream.nextFrame + 1 < U64_LIMIT
  {
    var point := p.channel.binding.nextPoint + 1;
    M.Present(p.channel.binding.oid, Frame(p.stream.nextFrame + 1, b.id, point, point, SubmitDamage(b, damage)), p.channel.binding.acked.value)
  }

  /** The facts the phone's own invariant gives about the frame it is about to send. */
  lemma SubmitReady(p: Phone, b: Buffer, damage: Option<Rect>)
    requires p.Valid() && Submittable(p.channel, b) && p.channel.binding.acked.Some?
    requires p.stream.SubmitError(b, SubmitDamage(b, damage), true).None?
    ensures p.stream.nextFrame + 1 < U64_LIMIT
    ensures p.stream.nextFrame + 1 !in p.channel.binding.pending && p.stream.nextFrame + 1 !in p.stream.inFlight
    ensures p.stream.latest.Some? && p.channel.binding.acked.value == p.stream.latest.value.serial
    ensures b.width == p.stream.latest.value.width && b.height == p.stream.latest.value.height
    ensures var rects := SubmitDamage(b, damage);
            |rects| <= 1 && forall k :: 0 <= k < |rects| ==> rects[k].Fits(b.width, b.height)
  {
    SubmitFacts(p.stream, b, SubmitDamage(b, damage));
    hide Transport.Presentation.SubmitError;
  }

  lemma LatestFacts(s: Sys)
    requires Serials(s) && Sizes(s) && s.phone.stream.latest.Some?
    ensures Issued(s, s.phone.stream.latest.value.serial)
    ensures SameSize(s, s.phone.stream.latest.value.serial, s.phone.stream.latest.value.width, s.phone.stream.latest.value.height)
  {
    hide Issued, SameSize;
  }

  lemma TargetIsLent(s: Sys, b: u64)
    requires Metadata(s) && b in s.phone.channel.targets
    ensures Lent(s, s.phone.channel.targets[b].metadata)
  {
  }

  /** The frame itself reaches the wire. */
  lemma PresentKeepsInv(s: Sys, q: Phone, b: Buffer, damage: Option<Rect>)
    requires Inv(s) && q.Valid() && Submittable(s.phone.channel, b) && !s.B().destroyRequested && s.B().acked.Some?
    requires s.B().nextPoint + 1 < U64_LIMIT && s.phone.stream.SubmitError(b, SubmitDamage(b, damage), true).None?
    requires s.phone.stream.nextFrame + 1 < U64_LIMIT
    requires q.channel.binding == s.B().Prepared(s.phone.stream.nextFrame + 1)
    requires q.channel.targets == s.phone.channel.targets[b.id := s.phone.channel.targets[b.id].(reserved := false, busy := true)]
    requires q.stream == s.phone.stream.Submitted(b)
    ensures Inv(s.(phone := q, sent := s.sent + [SentFrame(s.phone, b, damage)]))
  {
    hide Structure, Lifecycle, Serials, Acks, Points, Tokens, Covered, Metadata, Sizes, Phone.Valid, E.Valid;
    hide Transport.Presentation.SubmitError;
    var m := SentFrame(s.phone, b, damage);
    var t := s.(phone := q, sent := s.sent + [m]);
    Bounds(s);
    SubmitReady(s.phone, b, damage);
    LatestFacts(s);
    TargetIsLent(s, b.id);
    SameConfigure(s, t);
    StructureStep(s, t);
    LifecycleStep(s, t);
    SerialsStep(s, t);
    AcksFrame(s, t);
    PointsStep(s, t);
    TokensPresent(s, t, m);
    CoveredPresent(s, t, m);
    MetadataStep(s, t);
    SizesStep(s, t);
  }

  lemma SubmitStep(s: Sys, b: Buffer, damage: Option<Rect>, isOpaque: bool, plan: SendPlan)
    requires Inv(s)
    ensures var r := Submit(s.phone, b, damage, isOpaque, plan); Inv(s.(phone := r.phone, sent := s.sent + r.sent))
  {
    hide Structure, Lifecycle, Serials, Acks, Points, Tokens, Covered, Metadata, Sizes, Phone.Valid, E.Valid, Submit;
    hide Transport.Presentation.SubmitError, SentFrame, PhoneNeutral, NeutralRecords, Submittable;
    var r := Submit(s.phone, b, damage, isOpaque, plan);
    Bounds(s);
    SubmitOutcome(s.phone, b, damage, isOpaque, plan);
    SubmitKeepsValid(s.phone, b, damage, isOpaque, plan);
    SubmitRecords(s.phone, b, damage, isOpaque, plan);
    if r.error.Some? {
      NeutralKeepsInv(s, r.phone, r.sent);
    } else {
      SubmitSucceeds(s, r, b, damage, isOpaque);
    }
  }

  lemma SubmitSucceeds(s: Sys, r: Outcome, b: Buffer, damage: Option<Rect>, isOpaque: bool)
    requires Inv(s) && r.phone.Valid() && Submittable(s.phone.channel, b) && !s.B().destroyRequested && s.B().acked.Some?
    requires s.B().nextPoint + 1 < U64_LIMIT && s.phone.stream.SubmitError(b, SubmitDamage(b, damage), true).None?
    requires s.phone.stream.nextFrame + 1 < U64_LIMIT
    requires r.phone.channel.binding == s.B().Prepared(s.phone.stream.nextFrame + 1)
    requires r.phone.channel.targets == s.phone.channel.targets[b.id := s.phone.channel.targets[b.id].(reserved := false, busy := true)]
    requires r.phone.stream == s.phone.stream.Submitted(b)
    requires r.sent == ContentState(s.phone.channel, isOpaque) + [SentFrame(s.phone, b, damage)]
    requires NeutralRecords(s.oid, ContentState(s.phone.channel, isOpaque))
    ensures Inv(s.(phone := r.phone, sent := s.sent + r.sent))
  {
    hide Inv, Phone.Valid, Transport.Presentation.SubmitError, SentFrame, NeutralRecords, Submittable, ContentState;
    var state, m := ContentState(s.phone.channel, isOpaque), SentFrame(s.phone, b, damage);
    var mid := s.(phone := s.phone, sent := s.sent + state);
    PhoneIsValid(s);
    assert PhoneNeutral(s.phone, s.phone);
    NeutralKeepsInv(s, s.phone, state);
    PresentKeepsInv(mid, r.phone, b, damage);
    assert s.sent + r.sent == mid.sent + [m];
  }

  lemma PhoneIsValid(s: Sys)
    requires Inv(s)
    ensures s.phone.Valid()
  {
    hide Lifecycle, Serials, Acks, Points, Tokens, Covered, Metadata, Sizes, Phone.Valid, E.Valid;
  }

  lemma SubmitRecords(p: Phone, b: Buffer, damage: Option<Rect>, isOpaque: bool, plan: SendPlan)
    ensures var r := Submit(p, b, damage, isOpaque, plan);
            r.error.Some? ==> NeutralRecords(p.channel.binding.oid, r.sent) && (r.sent != [] ==> !p.channel.binding.destroyRequested)
    ensures NeutralRecords(p.channel.binding.oid, ContentState(p.channel, isOpaque))
  {
    SubmitWire(p, b, damage, isOpaque, plan);
    hide Submit;
  }

  lemma AckStep(s: Sys, serial: u32, send: bool)
    requires Inv(s) && s.pump
    ensures Inv(MovePhone(s, Acked(serial, send)))
  {
    hide Structure, Lifecycle, Serials, Acks, Points, Tokens, Covered, Metadata, Sizes, Phone.Valid, E.Valid, Issued, SameSize;
    var r := Ack(s.phone, serial, send);
    var t := MovePhone(s, Acked(serial, send));
    Bounds(s);
    StreamStepsKeepValid(s.phone, Transport.Configure(0, 0, 0, 0), {}, serial);
    SameConfigure(s, t);
    if s.phone.stream.Acknowledges(serial) { LatestFacts(s); }
    StructureStep(s, t);
    LifecycleStep(s, t);
    SerialsStep(s, t);
    PointsStep(s, t);
    TokensFrame(s, t);
    CoveredFrame(s, t);
    MetadataStep(s, t);
    SizesStep(s, t);
    if r.error.None? {
      AcksPush(s, t, serial);
    } else if r.error == Some(Ipc) {
      AcksLost(s, t);
    } else {
      AcksFrame(s, t);
    }
  }

  lemma DestroyStep(s: Sys, send: bool)
    requires Inv(s)
    ensures Inv(MovePhone(s, Destroyed(send)))
  {
    hide Structure, Lifecycle, Serials, Acks, Points, Tokens, Covered, Metadata, Sizes, Phone.Valid, E.Valid, Issued, SameSize;
    var t, c := MovePhone(s, Destroyed(send)), s.phone.channel;
    Bounds(s);
    NotesKeepValid(s.phone, c.demand, c.opacity, c.binding.nextPoint, s.phone.stream.nextFrame, s.phone.powered, true);
    SameConfigure(s, t);
    StructureStep(s, t);
    LifecycleStep(s, t);
    SerialsStep(s, t);
    AcksFrame(s, t);
    PointsStep(s, t);
    TokensFrame(s, t);
    CoveredFrame(s, t);
    MetadataStep(s, t);
    SizesStep(s, t);
  }

  lemma EnsureIsNeutral(p: Phone, lazy: bool, send: bool)
    ensures var r := Ensure(p, lazy, send);
            && r.phone == p.(channel := p.channel.(demand := r.phone.channel.demand))
            && NeutralRecords(p.channel.binding.oid, r.sent) && r.target.None?
  {
  }

  lemma AcquireIsNeutral(p: Phone, lazy: bool, send: bool, cloned: bool)
    ensures var r := Acquire(p, lazy, send, cloned);
            && PhoneNeutral(p, r.phone) && NeutralRecords(p.channel.binding.oid, r.sent)
            && (r.sent != [] ==> !p.channel.binding.destroyRequested)
  {
    EnsureIsNeutral(p, lazy, send);
    hide Ensure;
  }

  /** How far a removal and the pump are is nothing the invariant speaks about, as long as
      the pump does not start again. */
  lemma ServiceKeepsInv(s: Sys, removing: bool, service: Service, pump: bool)
    requires Inv(s) && (pump ==> s.pump)
    ensures Inv(s.(removing := removing, service := service, pump := pump))
  {
    hide Structure, Lifecycle, Serials, Acks, Points, Tokens, Covered, Metadata, Sizes, Phone.Valid, E.Valid, Issued, SameSize;
    var t := s.(removing := removing, service := service, pump := pump);
    SameConfigure(s, t);
    Bounds(s);
    StructureStep(s, t);
    LifecycleStep(s, t);
    SerialsStep(s, t);
    AcksFrame(s, t);
    PointsStep(s, t);
    TokensFrame(s, t);
    CoveredFrame(s, t);
    MetadataStep(s, t);
    SizesStep(s, t);
  }

  lemma PhoneStepKeepsInv(s: Sys, move: PhoneStep)
    requires Inv(s) && !move.Heard? && (move.Acked? ==> s.pump)
    ensures Inv(MovePhone(s, move))
  {
    hide Structure, Lifecycle, Serials, Acks, Points, Tokens, Covered, Metadata, Sizes, Phone.Valid, E.Valid, Submit, Acquire;
    match move
    case Acked(serial, send) => AckStep(s, serial, send);
    case Submitted(b, damage, isOpaque, plan) => SubmitStep(s, b, damage, isOpaque, plan);
    case Destroyed(send) => DestroyStep(s, send);
    case Acquired(lazy, send, cloned) =>
      Bounds(s);
      AcquireIsNeutral(s.phone, lazy, send, cloned);
      AcquireKeepsValid(s.phone, lazy, send, cloned);
      NeutralKeepsInv(s, Acquire(s.phone, lazy, send, cloned).phone, Acquire(s.phone, lazy, send, cloned).sent);
    case Cancelled(id) =>
      Bounds(s);
      CancelKeepsValid(s.phone, id);
      NeutralKeepsInv(s, Cancel(s.phone, id), []);
    case WindowRemoved =>
      Bounds(s);
      RemovalKeepsValid(s.phone);
      NeutralKeepsInv(s, RemoveWindow(s.phone).phone, []);
    case Powered(on) =>
      Bounds(s);
      var c := s.phone.channel;
      NotesKeepValid(s.phone, c.demand, c.opacity, c.binding.nextPoint, s.phone.stream.nextFrame, on, c.binding.destroyRequested);
      NeutralKeepsInv(s, s.phone.(powered := on), []);
  }
}
