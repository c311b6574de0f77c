/** Records travelling from the host to Android keep the protocol invariant, and releases
    are never refused. */
module ProtocolHears {
  import opened Base
  import opened Serial
  import opened Dmabuf
  import opened HostTask
  import opened Phone
  import opened Protocol
  import opened ProtocolFrames
  import opened ProtocolSteps
  import E = Endpoint
  import M = Messages

  /** A phone that learned a configure, a format list or a target, and owes the same frames. */
  ghost predicate Learned(s: Sys, q: Phone) {
    var b := q.channel.binding;
    && b == s.B().(acked := b.acked) && (b.acked == s.B().acked || b.acked.None?)
    && q.stream.inFlight == s.phone.stream.inFlight
    && (q.stream.latest == s.phone.stream.latest
        || (q.stream.latest.Some?
            && Issued(s, q.stream.latest.value.serial)
            && SameSize(s, q.stream.latest.value.serial, q.stream.latest.value.width, q.stream.latest.value.height)))
    && forall t :: t in q.channel.targets ==>
         || (t in s.phone.channel.targets && q.channel.targets[t].metadata == s.phone.channel.targets[t].metadata)
         || Lent(s, q.channel.targets[t].metadata)
  }

  lemma LearnedKeepsInv(s: Sys, q: Phone, pump: bool)
    requires Inv(s) && s.pump && s.heard < |s.back| && !s.back[s.heard].BufferReleased? && q.Valid() && Learned(s, q)
    ensures Inv(s.(phone := q, heard := s.heard + 1, pump := pump))
  {
    hide Structure, Lifecycle, Serials, Acks, Points, Tokens, Covered, Metadata, Sizes, Phone.Valid, E.Valid;
    var t := s.(phone := q, heard := s.heard + 1, pump := pump);
    Bounds(s);
    SameConfigure(s, t);
    StructureStep(s, t);
    LifecycleStep(s, t);
    SerialsStep(s, t);
    AcksFrame(s, t);
    PointsStep(s, t);
    TokensFrame(s, t);
    CoveredFrame(s, t);
    MetadataStep(s, t);
    SizesStep(s, t);
  }

  lemma QueuedConfigure(s: Sys)
    requires Serials(s) && Sizes(s) && s.heard < |s.back| && s.back[s.heard].Configure?
    ensures var c := s.back[s.heard].configure; Issued(s, c.serial) && SameSize(s, c.serial, c.width, c.height)
  {
    hide Issued, SameSize;
  }

  lemma QueuedTarget(s: Sys)
    requires Metadata(s) && s.heard < |s.back| && s.back[s.heard].RegisterRenderTarget?
    ensures Lent(s, s.back[s.heard].buffer)
  {
  }

  lemma QueuedRelease(s: Sys)
    requires Tokens(s) && s.heard < |s.back| && s.back[s.heard].BufferReleased?
    ensures Owed(s, s.back[s.heard].frameId, s.back[s.heard].bufferId, s.back[s.heard].point)
  {
  }

  lemma LearningStep(s: Sys)
    requires Inv(s) && s.heard < |s.back| && !s.back[s.heard].BufferReleased?
    ensures Learned(s, Hear(s.phone, s.back[s.heard]).phone)
  {
    hide Structure, Lifecycle, Serials, Acks, Points, Tokens, Covered, Metadata, Sizes, Phone.Valid, E.Valid, Issued, SameSize;
    var m := s.back[s.heard];
    Bounds(s);
    if m.Configure? { QueuedConfigure(s); }
    if m.RegisterRenderTarget? { QueuedTarget(s); }
  }

  /** A release that Android is waiting for is applied, whatever else happened meanwhile. */
  lemma OwedReleaseApplies(p: Phone, frame: u64, b: u64, point: u64)
    requires p.Valid() && frame in p.channel.binding.pending && p.channel.binding.pending[frame] == point
    requires frame in p.stream.inFlight && p.stream.inFlight[frame] == b
    ensures b in p.channel.targets
    ensures Hear(p, M.BufferReleased(p.channel.binding.oid, frame, b, point)) == Done(Retire(p, frame, b))
    ensures Retire(p, frame, b).Valid()
  {
    RetireKeepsValid(p, frame, b);
    assert p.FramesAgree();
    hide Phone.Valid;
  }

  /** Retiring a frame changes nothing but that frame and its target. */
  lemma RetireShape(p: Phone, frame: u64, b: u64)
    requires frame in p.stream.inFlight && b in p.channel.targets
    ensures var q := Retire(p, frame, b);
      && q.channel.binding == p.channel.binding.(pending := p.channel.binding.pending - {frame})
      && q.stream.inFlight == p.stream.inFlight - {frame} && q.stream.latest == p.stream.latest
      && forall t :: t in q.channel.targets ==> t in p.channel.targets && q.channel.targets[t].metadata == p.channel.targets[t].metadata
  {
  }

  lemma NoFramesAfterEnd(s: Sys)
    requires Lifecycle(s)
    ensures s.ended ==> forall i :: s.taken <= i < |s.sent| ==> !s.sent[i].Present?
    ensures !s.ended && !s.Live() ==> s.back == []
  {
  }

  lemma ReleaseStep(s: Sys)
    requires Inv(s) && s.pump && s.heard < |s.back| && s.back[s.heard].BufferReleased?
    ensures Hear(s.phone, s.back[s.heard]).error.None?
    ensures Inv(HearNext(s)) && HearNext(s).pump
  {
    hide Structure, Lifecycle, Serials, Acks, Points, Tokens, Covered, Metadata, Sizes, Phone.Valid, E.Valid, Hear, Issued, SameSize;
    var m, t := s.back[s.heard], HearNext(s);
    Bounds(s);
    QueuedRelease(s);
    OwedReleaseApplies(s.phone, m.frameId, m.bufferId, m.point);
    assert t.phone == Retire(s.phone, m.frameId, m.bufferId);
    RetireShape(s.phone, m.frameId, m.bufferId);
    NoFramesAfterEnd(s);
    hide Retire;
    SameConfigure(s, t);
    StructureStep(s, t);
    LifecycleStep(s, t);
    SerialsStep(s, t);
    AcksFrame(s, t);
    PointsStep(s, t);
    TokensHeard(s, t, m.frameId);
    CoveredHeard(s, t, m.frameId);
    MetadataStep(s, t);
    SizesStep(s, t);
  }

  lemma HearStepKeepsInv(s: Sys)
    requires Inv(s) && s.pump && s.heard < |s.back|
    ensures Inv(HearNext(s))
  {
    hide Structure, Lifecycle, Serials, Acks, Points, Tokens, Covered, Metadata, Sizes, Phone.Valid, E.Valid, Hear;
    if s.back[s.heard].BufferReleased? {
      ReleaseStep(s);
    } else {
      var r := Hear(s.phone, s.back[s.heard]);
      PhoneIsValid(s);
      HearKeepsValid(s.phone, s.back[s.heard]);
      LearningStep(s);
      LearnedKeepsInv(s, r.phone, HearNext(s).pump);
    }
  }

  /** A record that is not a release may be passed over, and the pump may end. */
  lemma TurnKeepsInv(s: Sys, turn: Turn)
    requires Inv(s) && s.pump && (turn.done ==> s.heard < |s.back| && !s.back[s.heard].BufferReleased?)
    ensures Inv(Turned(s, s.phone, turn))
  {
    hide Inv, Phone.Valid;
    if turn.done {
      PhoneIsValid(s);
      SameIsLearned(s);
      hide Learned;
      LearnedKeepsInv(s, s.phone, turn.pump);
      ServiceKeepsInv(s.(heard := s.heard + 1, pump := turn.pump), s.removing, turn.service, turn.pump);
    } else {
      ServiceKeepsInv(s, s.removing, turn.service, turn.pump);
    }
  }

  lemma SameIsLearned(s: Sys)
    ensures Learned(s, s.phone)
  {
  }

  /** A removed window owes no frame, so no release is on its way. */
  lemma NoReleaseWithoutWindow(s: Sys)
    requires Inv(s) && s.heard < |s.back| && !s.phone.window
    ensures !s.back[s.heard].BufferReleased?
  {
    hide Lifecycle, Serials, Acks, Points, Covered, Metadata, Sizes, E.Valid;
    if s.back[s.heard].BufferReleased? { QueuedRelease(s); }
  }

  lemma SettleKeepsInv(s: Sys)
    requires Inv(s) && s.pump && s.heard < |s.back| && (s.service.forgotten ==> !s.phone.window)
    ensures Inv(Turned(s, Settled(s), Settle(s)))
  {
    hide Inv, Hear, Applies;
    var turn := Settle(s);
    if s.service.forgotten {
      NoReleaseWithoutWindow(s);
      TurnKeepsInv(s, turn);
    } else {
      HearStepKeepsInv(s);
      if turn.pump { AppliesHears(s); }
      ServiceKeepsInv(HearNext(s), s.removing, turn.service, turn.pump);
    }
  }

  lemma AppliesHears(s: Sys)
    requires s.heard < |s.back| && !s.service.forgotten && Applies(s)
    ensures HearNext(s).pump
  {
    hide HearNext;
  }

  /** Every step of the pump, and every step of the removal outside the window. */
  lemma PumpStepKeepsInv(s: Sys, step: Step)
    requires Inv(s) && Enabled(s, step) && !step.PhoneMoves? && !step.HostTakes? && !step.HostActs?
    requires (s.service.forgotten ==> !s.phone.window) && (s.service.retired ==> !s.phone.window)
    ensures Inv(Next(s, step))
  {
    hide Inv, Settle, Settled;
    if step.PumpApplies? {
      SettleKeepsInv(s);
    } else if step.PumpLooks? {
      if s.service.retired { NoReleaseWithoutWindow(s); }
      TurnKeepsInv(s, Look(s));
    } else if step.PumpFinds? {
      if s.service.forgotten { NoReleaseWithoutWindow(s); }
      TurnKeepsInv(s, Find(s.service));
    } else {
      var t := Next(s, step);
      ServiceKeepsInv(s, t.removing, t.service, t.pump);
    }
  }
}
