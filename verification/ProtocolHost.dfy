/** Every step of the host keeps the protocol invariant while the connection is open. */
module ProtocolHost {
  import opened Base
  import opened Serial
  import opened Dmabuf
  import opened HostTask
  import opened Phone
  import opened Protocol
  import opened ProtocolFrames
  import opened ProtocolSteps
  import E = Endpoint
  import M = Messages

  // ------------------------------------------------------------------------------------
  // Steps that leave frames, configures and the lifecycle alone

  /** Entries that agree on everything the protocol depends on, apart from their buffers. */
  ghost predicate SameEntry(e: E.Entry, f: E.Entry) {
    && f.state == e.state.(buffers := f.state.buffers, feedback := f.state.feedback, feedbackGeneration := f.state.feedbackGeneration)
    && f.retiring == e.retiring
  }

  ghost predicate QuietRecord(t: Sys, m: M.HostMsg) {
    && m.oid == t.oid && !m.BufferReleased?
    && (m.Configure? ==> Issued(t, m.configure.serial) && SameSize(t, m.configure.serial, m.configure.width, m.configure.height))
    && (m.RegisterRenderTarget? ==> Lent(t, m.buffer))
  }

  ghost predicate Quiet(s: Sys, t: Sys) {
    && t == s.(host := t.host, back := t.back, issued := t.issued, taken := t.taken)
    && E.Valid(t.host)
    && (t.Live() <==> s.Live()) && (s.Live() ==> SameEntry(s.host[s.oid], t.host[s.oid]))
    && (s.Live() ==> forall b :: b in t.H().buffers ==> (b in s.H().buffers && t.H().buffers[b] == s.H().buffers[b]) || Lent(t, t.H().buffers[b]))
    && (forall b :: b in s.issued ==> b in t.issued && t.issued[b] == s.issued[b])
    && (forall b :: b in t.issued ==> b in s.issued || t.issued[b].id == b)
    && (t.back == s.back || (s.Live() && |t.back| == |s.back| + 1 && t.back[..|s.back|] == s.back && QuietRecord(t, t.back[|s.back|])))
    && (t.taken == s.taken
        || (2 <= s.taken < |s.sent| && t.taken == s.taken + 1
            && (s.sent[s.taken].SetContentState? || s.sent[s.taken].RequestRenderTargets?)))
  }

  lemma QuietKeepsInv(s: Sys, t: Sys)
    requires Inv(s) && Quiet(s, t)
    ensures Inv(t)
  {
    hide Structure, Lifecycle, Serials, Acks, Points, Tokens, Covered, Metadata, Sizes, Phone.Valid, E.Valid, Issued, SameSize;
    Bounds(s);
    assert forall i :: 0 <= i < |s.back| ==> t.back[i] == t.back[..|s.back|][i];
    SameConfigure(s, t);
    StructureStep(s, t);
    LifecycleStep(s, t);
    SerialsStep(s, t);
    AcksFrame(s, t);
    PointsStep(s, t);
    TokensFrame(s, t);
    CoveredFrame(s, t);
    MetadataStep(s, t);
    SizesStep(s, t);
  }

  // ------------------------------------------------------------------------------------
  // The host takes a record

  lemma ReceiveKeepsValid(t: E.Table, m: M.PhoneMsg, fence: bool, signal: bool, send: bool)
    requires E.Valid(t)
    ensures E.Valid(Receive(t, m, fence, signal, send).table)
  {
    hide E.Valid, E.DoCreate, E.DoAck, E.DoPresent, E.DoDestroy;
    match m
    case CreateTask(o, display) => E.CreateKeepsValid(t, o, display);
    case BindTimelines(o) => if o in t { E.BindTimelinesKeepsValid(t, o); }
    case AckConfigure(o, serial) => E.AckKeepsValid(t, o, serial);
    case Present(o, frame, serial) => E.PresentActionKeepsValid(t, o, frame, serial, fence, signal, send);
    case DestroyTask(o) => E.DestroyKeepsValid(t, o);
    case _ =>
  }

  /** The first two records announce the task and its timelines. */
  lemma LifecycleStarted(s: Sys, t: Sys)
    requires Lifecycle(s) && Structure(s) && s.taken < 2 && t.taken == s.taken + 1
    requires t.oid == s.oid && t.sent == s.sent && t.phone == s.phone && !t.ended
    requires t.Live() && !t.host[t.oid].retiring && (s.taken == 1 <==> t.H().timelinesBound)
    ensures Lifecycle(t)
  {
  }

  lemma StartingFacts(s: Sys)
    requires Structure(s) && Lifecycle(s) && s.taken < 2
    ensures !s.ended && (s.taken == 0 ==> !s.Live() && s.back == [] && s.sent[0].CreateTask?)
    ensures s.taken == 1 ==> s.Live() && !s.host[s.oid].retiring && !s.H().timelinesBound && s.sent[1].BindTimelines?
  {
  }

  lemma CreateStep(s: Sys, fence: bool, signal: bool, send: bool)
    requires Inv(s) && s.taken == 0
    ensures var t := TakeNext(s, fence, signal, send); t.open ==> Inv(t)
  {
    hide Structure, Lifecycle, Serials, Acks, Points, Tokens, Covered, Metadata, Sizes, Phone.Valid, E.Valid;
    Bounds(s);
    var t := TakeNext(s, fence, signal, send);
    StartingFacts(s);
    ReceiveKeepsValid(s.host, s.sent[0], fence, signal, send);
    if t.open {
      StructureStep(s, t);
      LifecycleStarted(s, t);
      SerialsStep(s, t);
      AcksCreated(s, t);
      PointsStep(s, t);
      TokensFrame(s, t);
      CoveredFrame(s, t);
      MetadataStep(s, t);
      SizesStep(s, t);
    }
  }

  lemma BindStep(s: Sys, fence: bool, signal: bool, send: bool)
    requires Inv(s) && s.taken == 1
    ensures var t := TakeNext(s, fence, signal, send); t.open ==> Inv(t)
  {
    hide Structure, Lifecycle, Serials, Acks, Points, Tokens, Covered, Metadata, Sizes, Phone.Valid, E.Valid, Issued, SameSize;
    Bounds(s);
    var t := TakeNext(s, fence, signal, send);
    StartingFacts(s);
    ReceiveKeepsValid(s.host, s.sent[1], fence, signal, send);
    if t.open {
      SameConfigure(s, t);
      StructureStep(s, t);
      LifecycleStarted(s, t);
      SerialsStep(s, t);
      AcksFrame(s, t);
      PointsStep(s, t);
      TokensFrame(s, t);
      CoveredFrame(s, t);
      MetadataStep(s, t);
      SizesStep(s, t);
    }
  }

  lemma AckTakeStep(s: Sys, fence: bool, signal: bool, send: bool)
    requires Inv(s) && 2 <= s.taken < |s.sent| && s.sent[s.taken].AckConfigure?
    ensures var t := TakeNext(s, fence, signal, send); t.open ==> Inv(t)
  {
    hide Structure, Lifecycle, Serials, Acks, Points, Tokens, Covered, Metadata, Sizes, Phone.Valid, E.Valid, Issued, SameSize;
    Bounds(s);
    var t := TakeNext(s, fence, signal, send);
    ReceiveKeepsValid(s.host, s.sent[s.taken], fence, signal, send);
    if t.open {
      SameConfigure(s, t);
      StructureStep(s, t);
      LifecycleStep(s, t);
      SerialsStep(s, t);
      AcksTake(s, t, s.sent[s.taken].serial);
      PointsStep(s, t);
      TokensFrame(s, t);
      CoveredFrame(s, t);
      MetadataStep(s, t);
      SizesStep(s, t);
    }
  }

  lemma NeutralTakeStep(s: Sys, fence: bool, signal: bool, send: bool)
    requires Inv(s) && s.open && 2 <= s.taken < |s.sent| && (s.sent[s.taken].SetContentState? || s.sent[s.taken].RequestRenderTargets?)
    ensures var t := TakeNext(s, fence, signal, send); t.open ==> Inv(t)
  {
    hide Structure, Lifecycle, Serials, Acks, Points, Tokens, Covered, Metadata, Sizes, Phone.Valid, E.Valid, QuietRecord;
    Bounds(s);
    var t := TakeNext(s, fence, signal, send);
    if t.open {
      assert t.back == s.back;
      QuietKeepsInv(s, t);
    }
  }

  lemma DestroyFacts(s: Sys)
    requires Structure(s) && Lifecycle(s) && 2 <= s.taken < |s.sent| && s.sent[s.taken].DestroyTask?
    ensures !s.ended && s.Live() && s.B().destroyRequested
    ensures forall i :: s.taken < i < |s.sent| ==> s.sent[i].AckConfigure?
  {
  }

  lemma LifecycleEnded(s: Sys, t: Sys)
    requires Structure(s) && Lifecycle(s) && 2 <= s.taken < |s.sent| && s.sent[s.taken].DestroyTask?
    requires t.oid == s.oid && t.sent == s.sent && t.phone == s.phone && t.ended && t.taken == s.taken + 1
    requires t.Live() ==> t.host[t.oid].retiring
    ensures Lifecycle(t)
  {
  }

  lemma DestroyTakeStep(s: Sys, fence: bool, signal: bool, send: bool)
    requires Inv(s) && 2 <= s.taken < |s.sent| && s.sent[s.taken].DestroyTask?
    ensures Inv(TakeNext(s, fence, signal, send))
  {
    hide Structure, Lifecycle, Serials, Acks, Points, Tokens, Covered, Metadata, Sizes, Phone.Valid, E.Valid, Issued, SameSize;
    Bounds(s);
    var t := TakeNext(s, fence, signal, send);
    DestroyFacts(s);
    ReceiveKeepsValid(s.host, s.sent[s.taken], fence, signal, send);
    SameConfigure(s, t);
    StructureStep(s, t);
    LifecycleEnded(s, t);
    SerialsStep(s, t);
    if t.Live() { AcksFrame(s, t); } else { AcksEnded(s, t); }
    PointsStep(s, t);
    TokensFrame(s, t);
    CoveredFrame(s, t);
    MetadataStep(s, t);
    SizesStep(s, t);
  }

  lemma PresentFacts(s: Sys)
    requires Structure(s) && Lifecycle(s) && 2 <= s.taken < |s.sent| && s.sent[s.taken].Present?
    ensures !s.ended && s.Live() && s.H().timelinesBound && !s.host[s.oid].retiring
  {
  }

  /** What a frame the host did not refuse did to the entry. */
  lemma PresentEffect(t: E.Table, o: u64, f: Frame, serial: u32, fence: bool, signal: bool, send: bool)
    requires E.Valid(t) && o in t
    ensures var x := E.DoPresent(t, o, f, serial, fence, signal, send);
      x.error.None? ==>
        && o in x.table && f.frame !in t[o].state.inFlight
        && ( || (x.record.None? && x.table[o] == t[o].(state := t[o].state.Presented(f), pending := t[o].pending[f.frame := f]))
             || (x.record == Some(M.BufferReleased(o, f.frame, f.buffer, f.releasePoint))
                 && x.table[o] == t[o].(state := t[o].state.Discarded(f))))
  {
    hide E.Valid, Task.Valid, E.Entry.Valid;
  }

  lemma AcceptedStep(s: Sys, t: Sys, f: Frame)
    requires Inv(s) && 2 <= s.taken < |s.sent| && s.sent[s.taken].Present? && s.sent[s.taken].frame == f
    requires t == s.(host := t.host, taken := s.taken + 1) && E.Valid(t.host)
    requires s.Live() && t.Live() && t.host[s.oid] == s.host[s.oid].(state := s.H().Presented(f), pending := s.host[s.oid].pending[f.frame := f])
    ensures Inv(t)
  {
    hide Structure, Lifecycle, Serials, Acks, Points, Tokens, Covered, Metadata, Sizes, Phone.Valid, E.Valid, Issued, SameSize;
    Bounds(s);
    PresentFacts(s);
    SameConfigure(s, t);
    StructureStep(s, t);
    LifecycleStep(s, t);
    SerialsStep(s, t);
    AcksFrame(s, t);
    PointsStep(s, t);
    HeadPoints(s);
    TokensAccepted(s, t, f);
    CoveredAccepted(s, t, f);
    MetadataStep(s, t);
    SizesStep(s, t);
  }

  lemma HeadPoints(s: Sys)
    requires Points(s) && s.Live() && s.taken < |s.sent| && s.sent[s.taken].Present?
    ensures s.H().lastRelease < s.sent[s.taken].frame.releasePoint && s.H().lastAcquire < s.sent[s.taken].frame.acquirePoint
  {
  }

  lemma DiscardedStep(s: Sys, t: Sys, f: Frame)
    requires Inv(s) && 2 <= s.taken < |s.sent| && s.sent[s.taken].Present? && s.sent[s.taken].frame == f
    requires t == s.(host := t.host, taken := s.taken + 1, back := t.back) && E.Valid(t.host)
    requires t.back == s.back + [M.BufferReleased(s.oid, f.frame, f.buffer, f.releasePoint)]
    requires s.Live() && t.Live() && t.host[s.oid] == s.host[s.oid].(state := s.H().Discarded(f)) && f.frame !in s.H().inFlight
    ensures Inv(t)
  {
    hide Structure, Lifecycle, Serials, Acks, Points, Tokens, Covered, Metadata, Sizes, Phone.Valid, E.Valid, Issued, SameSize;
    Bounds(s);
    PresentFacts(s);
    SameConfigure(s, t);
    StructureStep(s, t);
    LifecycleStep(s, t);
    SerialsStep(s, t);
    AcksFrame(s, t);
    PointsStep(s, t);
    HeadPoints(s);
    TokensDiscarded(s, t, f);
    CoveredReturned(s, t, f.frame);
    MetadataStep(s, t);
    SizesStep(s, t);
  }

  lemma PresentTakeStep(s: Sys, fence: bool, signal: bool, send: bool)
    requires Inv(s) && s.open && 2 <= s.taken < |s.sent| && s.sent[s.taken].Present?
    ensures var t := TakeNext(s, fence, signal, send); t.open ==> Inv(t)
  {
    hide Structure, Lifecycle, Serials, Acks, Points, Tokens, Covered, Metadata, Sizes, Phone.Valid, E.Valid, E.DoPresent;
    var m, t := s.sent[s.taken], TakeNext(s, fence, signal, send);
    Bounds(s);
    PresentFacts(s);
    ReceiveKeepsValid(s.host, m, fence, signal, send);
    PresentEffect(s.host, s.oid, m.frame, m.serial, fence, signal, send);
    if t.open {
      if E.DoPresent(s.host, s.oid, m.frame, m.serial, fence, signal, send).record.None? {
        assert t.back == s.back;
        AcceptedStep(s, t, m.frame);
      } else {
        DiscardedStep(s, t, m.frame);
      }
    }
  }

  lemma TakeStepKeepsInv(s: Sys, fence: bool, signal: bool, send: bool)
    requires Inv(s) && s.open && s.taken < |s.sent|
    ensures var t := TakeNext(s, fence, signal, send); t.open ==> Inv(t)
  {
    hide Lifecycle, Serials, Acks, Points, Tokens, Covered, Metadata, Sizes, Phone.Valid, E.Valid, TakeNext;
    if s.taken == 0 { CreateStep(s, fence, signal, send); }
    else if s.taken == 1 { BindStep(s, fence, signal, send); }
    else {
      match s.sent[s.taken]
      case AckConfigure(_, _) => AckTakeStep(s, fence, signal, send);
      case Present(_, _, _) => PresentTakeStep(s, fence, signal, send);
      case DestroyTask(_) => DestroyTakeStep(s, fence, signal, send);
      case SetContentState(_, _) => NeutralTakeStep(s, fence, signal, send);
      case RequestRenderTargets(_, _) => NeutralTakeStep(s, fence, signal, send);
    }
  }

  // ------------------------------------------------------------------------------------
  // The host acts on its own

  /** What a host action that changes no frame and no configure leaves behind. */
  ghost predicate Calm(a: E.Action) {
    a.SendFeedback? || a.Revoke? || a.Track? || a.Forget? || a.SendPresented? || a.SendNotice? || a.BindTask?
  }

  lemma CalmEffect(t: E.Table, a: E.Action)
    requires Calm(a) && E.Apply(t, a).error.None?
    ensures var x := E.Apply(t, a);
      && (a.oid in x.table <==> a.oid in t)
      && (a.oid in t ==>
            && SameEntry(t[a.oid], x.table[a.oid])
            && forall b :: b in x.table[a.oid].state.buffers ==> b in t[a.oid].state.buffers && x.table[a.oid].state.buffers[b] == t[a.oid].state.buffers[b])
      && (x.record.Some? ==>
            && a.oid in t && x.record.value.oid == a.oid
            && (x.record.value.FormatFeedback? || x.record.value.UnregisterRenderTarget? || x.record.value.Presented? || x.record.value.Notice?))
  {
  }

  lemma CalmStep(s: Sys, a: E.Action)
    requires Inv(s) && s.open && a.oid == s.oid && Calm(a)
    ensures var t := ActHost(s, a); t.open ==> Inv(t)
  {
    hide Structure, Lifecycle, Serials, Acks, Points, Tokens, Covered, Metadata, Sizes, Phone.Valid, E.Valid, E.Apply, Issued, SameSize;
    Bounds(s);
    var t := ActHost(s, a);
    if t.open {
      CalmEffect(s.host, a);
      E.ApplyKeepsValid(s.host, a);
      assert t.back[..|s.back|] == s.back;
      QuietKeepsInv(s, t);
    }
  }

  lemma ElsewhereStep(s: Sys, a: E.Action)
    requires Inv(s) && s.open && a.oid != s.oid
    ensures var t := ActHost(s, a); t.open ==> Inv(t)
  {
    hide Structure, Lifecycle, Serials, Acks, Points, Tokens, Covered, Metadata, Sizes, Phone.Valid, E.Valid, E.Apply, QuietRecord;
    Bounds(s);
    E.OtherObjectsUntouched(s.host, a, s.oid);
    E.ApplyKeepsValid(s.host, a);
    if ActHost(s, a).open { QuietKeepsInv(s, ActHost(s, a)); }
  }

  lemma LendStep(s: Sys, a: E.Action)
    requires Inv(s) && s.open && a.oid == s.oid && a.Lend? && a.buffer.id !in s.issued
    ensures var t := ActHost(s, a); t.open ==> Inv(t)
  {
    hide Structure, Lifecycle, Serials, Acks, Points, Tokens, Covered, Metadata, Sizes, Phone.Valid, E.Valid, Issued, SameSize;
    Bounds(s);
    var t := ActHost(s, a);
    if t.open {
      E.ApplyKeepsValid(s.host, a);
      assert t.back[..|s.back|] == s.back;
      QuietKeepsInv(s, t);
    }
  }

  /** The cadence of the current configure is announced again. */
  lemma SameConfigureStep(s: Sys, a: E.Action)
    requires Inv(s) && s.open && a.oid == s.oid && a.SendConfigure? && s.Current(a.configure.serial)
    requires a.configure.width == s.H().configure.value.width && a.configure.height == s.H().configure.value.height
    ensures var t := ActHost(s, a); t.open ==> Inv(t)
  {
    hide Structure, Lifecycle, Serials, Acks, Points, Tokens, Covered, Metadata, Sizes, Phone.Valid, E.Valid;
    Bounds(s);
    var t := ActHost(s, a);
    if t.open {
      E.ApplyKeepsValid(s.host, a);
      assert t.back[..|s.back|] == s.back;
      QuietKeepsInv(s, t);
    }
  }

  /** Everything outstanding is older than the new serial. */
  lemma SerialsFresh(s: Sys, t: Sys)
    requires Structure(s) && t.Live() && t.H().configure.Some? && Advances(s, t.H().configure.value.serial)
    requires t.taken == s.taken && t.heard == s.heard && t.sent == s.sent && t.phone == s.phone
    requires |t.back| == |s.back| + 1 && t.back[..|s.back|] == s.back
    requires t.back[|s.back|].Configure? && t.back[|s.back|].configure.serial == t.H().configure.value.serial
    ensures Serials(t)
  {
    hide Phone.Valid, E.Valid;
    assert forall i :: 0 <= i < |s.back| ==> t.back[i] == t.back[..|s.back|][i];
  }

  lemma SizesFresh(s: Sys, t: Sys)
    requires Structure(s) && Sizes(s) && t.Live() && t.H().configure.Some? && Advances(s, t.H().configure.value.serial)
    requires t.taken == s.taken && t.heard == s.heard && t.sent == s.sent && t.phone == s.phone && t.issued == s.issued
    requires |t.back| == |s.back| + 1 && t.back[..|s.back|] == s.back
    requires t.back[|s.back|].Configure?
    requires var c := t.back[|s.back|].configure; t.H().configure.value == HostConfigure(c.serial, c.width, c.height)
    ensures Sizes(t)
  {
    hide Phone.Valid, E.Valid;
    assert forall i :: 0 <= i < |s.back| ==> t.back[i] == t.back[..|s.back|][i];
  }

  lemma AckedIsLatest(p: Phone)
    requires p.Valid()
    ensures p.channel.binding.acked.Some? ==> p.stream.latest.Some? && p.stream.latest.value.serial == p.channel.binding.acked.value
  {
  }

  lemma NewConfigureStep(s: Sys, a: E.Action)
    requires Inv(s) && s.open && a.oid == s.oid && a.SendConfigure? && !s.Current(a.configure.serial) && Advances(s, a.configure.serial)
    ensures var t := ActHost(s, a); t.open ==> Inv(t)
  {
    hide Structure, Lifecycle, Serials, Acks, Points, Tokens, Covered, Metadata, Sizes, Phone.Valid, E.Valid, Issued, SameSize, Advances;
    Bounds(s);
    var t := ActHost(s, a);
    if t.open {
      E.ApplyKeepsValid(s.host, a);
      AckedIsLatest(s.phone);
      assert t.back[..|s.back|] == s.back;
      StructureStep(s, t);
      LifecycleStep(s, t);
      SerialsFresh(s, t);
      AcksFresh(s, t);
      PointsStep(s, t);
      TokensFrame(s, t);
      CoveredFrame(s, t);
      MetadataStep(s, t);
      SizesFresh(s, t);
    }
  }

  /** What finishing an accepted frame did to the entry. */
  lemma FinishEffect(t: E.Table, o: u64, f: u64, send: bool)
    requires E.DoFinish(t, o, f, send).error.None?
    ensures var x := E.DoFinish(t, o, f, send);
      && o in t && f in t[o].state.inFlight
      && (o in x.table ==>
            && x.table[o].state == t[o].state.Released(f) && x.table[o].retiring == t[o].retiring)
      && (o !in x.table ==> t[o].retiring && t[o].state.inFlight - {f} == map[])
      && x.record == if t[o].retiring then None
                     else Some(M.BufferReleased(o, f, t[o].state.inFlight[f].buffer, t[o].state.inFlight[f].releasePoint))
  {
  }

  lemma RetiringIsEnded(s: Sys)
    requires Structure(s) && Lifecycle(s) && s.Live()
    ensures s.host[s.oid].retiring <==> s.ended
    ensures s.H().PointsOrdered()
  {
    E.EntryStateIsValid(s.host, s.oid);
    hide Phone.Valid, E.Valid, E.Entry.Valid;
  }

  lemma ReleasedStep(s: Sys, t: Sys, f: u64)
    requires Inv(s) && s.Live() && t.Live() && !s.host[s.oid].retiring && f in s.H().inFlight && E.Valid(t.host)
    requires t == s.(host := t.host, back := t.back)
    requires t.back == s.back + [M.BufferReleased(s.oid, f, s.H().inFlight[f].buffer, s.H().inFlight[f].releasePoint)]
    requires t.H() == s.H().Released(f) && !t.host[s.oid].retiring
    ensures Inv(t)
  {
    hide Structure, Lifecycle, Serials, Acks, Points, Tokens, Covered, Metadata, Sizes, Phone.Valid, E.Valid, Issued, SameSize;
    Bounds(s);
    RetiringIsEnded(s);
    SameConfigure(s, t);
    StructureStep(s, t);
    LifecycleStep(s, t);
    SerialsStep(s, t);
    AcksFrame(s, t);
    PointsStep(s, t);
    TokensReleased(s, t, f);
    CoveredReturned(s, t, f);
    MetadataStep(s, t);
    SizesStep(s, t);
  }

  lemma SwallowedStep(s: Sys, t: Sys, f: u64)
    requires Inv(s) && s.Live() && s.host[s.oid].retiring && f in s.H().inFlight && E.Valid(t.host)
    requires t == s.(host := t.host, swallowed := s.swallowed + {f})
    requires t.Live() ==> t.H() == s.H().Released(f) && t.host[s.oid].retiring
    requires !t.Live() ==> s.H().inFlight - {f} == map[]
    ensures Inv(t)
  {
    hide Structure, Lifecycle, Serials, Acks, Points, Tokens, Covered, Metadata, Sizes, Phone.Valid, E.Valid, Issued, SameSize;
    Bounds(s);
    RetiringIsEnded(s);
    SameConfigure(s, t);
    StructureStep(s, t);
    LifecycleStep(s, t);
    SerialsStep(s, t);
    if t.Live() { AcksFrame(s, t); } else { AcksEnded(s, t); }
    PointsStep(s, t);
    TokensSwallowed(s, t, f);
    assert forall g :: g in s.H().inFlight && g != f ==> g in s.H().inFlight - {f};
    CoveredSwallowed(s, t, f);
    MetadataStep(s, t);
    SizesStep(s, t);
  }

  lemma FinishStep(s: Sys, a: E.Action)
    requires Inv(s) && s.open && a.oid == s.oid && (a.FinishRelease? || a.DiscardFrame?)
    ensures var t := ActHost(s, a); t.open ==> Inv(t)
  {
    hide Structure, Lifecycle, Serials, Acks, Points, Tokens, Covered, Metadata, Sizes, Phone.Valid, E.Valid, E.DoFinish;
    Bounds(s);
    var t := ActHost(s, a);
    if t.open {
      E.ApplyKeepsValid(s.host, a);
      FinishEffect(s.host, s.oid, a.frameId, a.send);
      if s.host[s.oid].retiring {
        assert t.back == s.back;
        SwallowedStep(s, t, a.frameId);
      } else {
        ReleasedStep(s, t, a.frameId);
      }
    }
  }

  lemma ActStepKeepsInv(s: Sys, a: E.Action)
    requires Inv(s) && s.open && Allowed(s, a)
    ensures var t := ActHost(s, a); t.open ==> Inv(t)
  {
    hide Structure, Lifecycle, Serials, Acks, Points, Tokens, Covered, Metadata, Sizes, Phone.Valid, E.Valid, ActHost, Advances;
    if a.oid != s.oid { ElsewhereStep(s, a); }
    else {
      match a
      case SendConfigure(_, c, _) => if s.Current(c.serial) { SameConfigureStep(s, a); } else { NewConfigureStep(s, a); }
      case Lend(_, _, _, _) => LendStep(s, a);
      case FinishRelease(_, _, _) => FinishStep(s, a);
      case DiscardFrame(_, _, _) => FinishStep(s, a);
      case _ => CalmStep(s, a);
    }
  }
}
