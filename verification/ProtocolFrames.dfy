/** How each part of the protocol invariant survives a step: one lemma for steps that do
    not concern it, and one for each kind of step that does. */
module ProtocolFrames {
  import opened Base
  import opened Serial
  import opened Dmabuf
  import opened HostTask
  import opened Phone
  import opened Protocol
  import E = Endpoint
  import M = Messages

  /** Logs only grow, and cursors only move forward. */
  ghost predicate Grows(s: Sys, t: Sys) {
    && t.oid == s.oid
    && s.taken <= t.taken <= |t.sent| && s.heard <= t.heard <= |t.back|
    && |s.sent| <= |t.sent| && (forall i :: 0 <= i < |s.sent| ==> t.sent[i] == s.sent[i])
    && |s.back| <= |t.back| && (forall i :: 0 <= i < |s.back| ==> t.back[i] == s.back[i])
  }

  lemma StructureStep(s: Sys, t: Sys)
    requires Structure(s) && Grows(s, t) && t.phone.Valid() && E.Valid(t.host) && t.B().oid == t.oid
    requires forall i :: |s.sent| <= i < |t.sent| ==>
               t.sent[i].oid == t.oid && !t.sent[i].CreateTask? && !t.sent[i].BindTimelines?
    requires forall i :: |s.back| <= i < |t.back| ==> t.back[i].oid == t.oid
    ensures Structure(t)
  {
    hide Phone.Valid, E.Valid;
  }

  /** Steps that leave the host's entry in the same phase of its life. */
  lemma LifecycleStep(s: Sys, t: Sys)
    requires Lifecycle(s) && Structure(s) && Grows(s, t) && t.ended == s.ended
    requires s.B().destroyRequested ==> t.B().destroyRequested
    requires t.Live() ==> s.Live() && t.host[t.oid].retiring == s.host[s.oid].retiring && t.H().timelinesBound == s.H().timelinesBound
    requires s.Live() && !s.ended ==> t.Live()
    requires t.taken == s.taken || (t.taken == s.taken + 1 && 2 <= s.taken)
    requires forall i :: |s.sent| <= i < |t.sent| ==> t.sent[i].AckConfigure? || !s.B().destroyRequested
    requires forall i :: |s.sent| <= i < |t.sent| && t.sent[i].DestroyTask? ==> t.B().destroyRequested && i == |t.sent| - 1
    requires !s.Live() && !s.ended ==> t.back == s.back
    ensures Lifecycle(t)
  {
    hide Phone.Valid, E.Valid;
  }

  lemma SerialsStep(s: Sys, t: Sys)
    requires Serials(s) && Grows(s, t)
    requires forall r :: Issued(s, r) ==> Issued(t, r)
    requires forall i :: |s.sent| <= i < |t.sent| && t.sent[i].AckConfigure? ==> Issued(t, t.sent[i].serial)
    requires forall i :: |s.sent| <= i < |t.sent| && t.sent[i].Present? ==> Issued(t, t.sent[i].serial)
    requires forall i :: |s.back| <= i < |t.back| && t.back[i].Configure? ==> Issued(t, t.back[i].configure.serial)
    requires t.phone.stream.latest == s.phone.stream.latest
      || (t.phone.stream.latest.Some? && Issued(t, t.phone.stream.latest.value.serial))
    ensures Serials(t)
  {
    hide Issued;
  }

  /** The host's watermarks after it took `m` or nothing. */
  ghost predicate PointsMoved(s: Sys, t: Sys) {
    t.Live() ==>
      if s.Live() then
        || (t.H().lastAcquire == s.H().lastAcquire && t.H().lastRelease == s.H().lastRelease)
        || (s.taken < |s.sent| && t.taken == s.taken + 1 && s.sent[s.taken].Present?
            && t.H().lastAcquire == s.sent[s.taken].frame.acquirePoint && t.H().lastRelease == s.sent[s.taken].frame.releasePoint)
      else t.H().lastAcquire == 0 && t.H().lastRelease == 0
  }

  lemma PointsStep(s: Sys, t: Sys)
    requires Points(s) && Grows(s, t) && s.B().nextPoint <= t.B().nextPoint && PointsMoved(s, t)
    requires forall i :: |s.sent| <= i < |t.sent| && t.sent[i].Present? ==>
               i == |t.sent| - 1 && t.sent[i].frame.acquirePoint == t.sent[i].frame.releasePoint == t.B().nextPoint == s.B().nextPoint + 1
    ensures Points(t)
  {
  }

  ghost predicate SameOwed(s: Sys, t: Sys) {
    t.B().pending == s.B().pending && t.phone.stream.inFlight == s.phone.stream.inFlight
  }

  ghost predicate SameHostFrames(s: Sys, t: Sys) {
    && (t.Live() ==> if s.Live() then t.H().inFlight == s.H().inFlight && s.H().lastRelease <= t.H().lastRelease
                     else t.H().inFlight == map[] && s.back == [])
    && (s.Live() && !t.Live() ==> s.H().inFlight == map[])
  }

  /** No record that carries a frame was appended or consumed. */
  ghost predicate NoFrameMoved(s: Sys, t: Sys) {
    && (forall i :: |s.sent| <= i < |t.sent| ==> !t.sent[i].Present?)
    && (forall i :: |s.back| <= i < |t.back| ==> !t.back[i].BufferReleased?)
    && (forall i :: s.taken <= i < t.taken && i < |s.sent| ==> !s.sent[i].Present?)
    && (forall i :: s.heard <= i < t.heard && i < |s.back| ==> !s.back[i].BufferReleased?)
  }

  lemma TokensFrame(s: Sys, t: Sys)
    requires Tokens(s) && Grows(s, t) && SameOwed(s, t) && SameHostFrames(s, t) && NoFrameMoved(s, t)
    requires t.swallowed == s.swallowed && (s.ended ==> t.ended)
    ensures Tokens(t)
  {
  }

  lemma CoveredFrame(s: Sys, t: Sys)
    requires Covered(s) && Grows(s, t) && SameOwed(s, t) && SameHostFrames(s, t) && NoFrameMoved(s, t)
    requires t.swallowed == s.swallowed
    ensures Covered(t)
  {
    forall f | f in t.B().pending ensures Queued(t, f) || OnHost(t, f) || Returning(t, f) || f in t.swallowed {
      if Queued(s, f) {
        var i :| s.taken <= i < |s.sent| && s.sent[i].Present? && s.sent[i].frame.frame == f;
        assert t.sent[i] == s.sent[i];
      } else if Returning(s, f) {
        var i :| s.heard <= i < |s.back| && s.back[i].BufferReleased? && s.back[i].frameId == f;
        assert t.back[i] == s.back[i];
      }
    }
  }

  lemma MetadataStep(s: Sys, t: Sys)
    requires Metadata(s) && Grows(s, t)
    requires forall b :: b in s.issued ==> b in t.issued && t.issued[b] == s.issued[b]
    requires forall b :: b in t.issued ==> b in s.issued || t.issued[b].id == b
    requires forall b :: b in t.phone.channel.targets ==>
               || (b in s.phone.channel.targets && t.phone.channel.targets[b].metadata == s.phone.channel.targets[b].metadata)
               || Lent(t, t.phone.channel.targets[b].metadata)
    requires forall i :: |s.back| <= i < |t.back| && t.back[i].RegisterRenderTarget? ==> Lent(t, t.back[i].buffer)
    requires t.Live() ==> forall b :: b in t.H().buffers ==>
               (s.Live() && b in s.H().buffers && t.H().buffers[b] == s.H().buffers[b]) || Lent(t, t.H().buffers[b])
    ensures Metadata(t)
  {
  }

  /** A size agreed for the current serial stays agreed. */
  ghost predicate SizesKept(s: Sys, t: Sys) {
    forall r, w, h :: SameSize(s, r, w, h) && Issued(s, r) ==> SameSize(t, r, w, h)
  }

  lemma SizesStep(s: Sys, t: Sys)
    requires Sizes(s) && Serials(s) && Grows(s, t) && SizesKept(s, t)
    requires forall b :: b in s.issued ==> b in t.issued && t.issued[b] == s.issued[b]
    requires t.phone.stream.latest == s.phone.stream.latest
      || (t.phone.stream.latest.Some? && SameSize(t, t.phone.stream.latest.value.serial, t.phone.stream.latest.value.width, t.phone.stream.latest.value.height))
    requires forall i :: |s.back| <= i < |t.back| && t.back[i].Configure? ==>
               SameSize(t, t.back[i].configure.serial, t.back[i].configure.width, t.back[i].configure.height)
    requires forall i :: |s.sent| <= i < |t.sent| && t.sent[i].Present? ==>
               var f := t.sent[i].frame;
               && f.buffer in t.issued
               && SameSize(t, t.sent[i].serial, t.issued[f.buffer].width, t.issued[f.buffer].height)
               && |f.damage| <= 1
               && forall k :: 0 <= k < |f.damage| ==> f.damage[k].Fits(t.issued[f.buffer].width, t.issued[f.buffer].height)
    ensures Sizes(t)
  {
    hide SameSize, Issued;
  }

  ghost predicate SameHostConfigure(s: Sys, t: Sys) {
    (t.Live() <==> s.Live()) && (s.Live() ==> t.H().configure == s.H().configure && t.H().acked == s.H().acked)
  }

  /** Steps that neither send nor consume an acknowledgement. */
  lemma AcksFrame(s: Sys, t: Sys)
    requires Acks(s) && Grows(s, t) && SameHostConfigure(s, t)
    requires t.told == s.told && t.lost == s.lost && (t.pump ==> s.pump) && (s.ended ==> t.ended)
    requires t.B().acked == s.B().acked || t.B().acked.None?
    requires t.taken == s.taken || (t.taken == s.taken + 1 && s.taken < |s.sent| && !s.sent[s.taken].AckConfigure?)
    requires forall i :: |s.sent| <= i < |t.sent| ==> !t.sent[i].AckConfigure?
    requires forall i :: |s.sent| <= i < |t.sent| && t.sent[i].Present? ==> s.B().acked == Some(t.sent[i].serial)
    ensures Acks(t)
  {
    forall i | t.taken <= i <= |t.sent| ensures AckedBy(t, i) <==> AckedBy(s, if i <= |s.sent| then i else |s.sent|) {
      AckedFrame(s, t, i);
    }
  }

  lemma AckedFrame(s: Sys, t: Sys, i: nat)
    requires Grows(s, t) && SameHostConfigure(s, t) && t.taken <= i <= |t.sent|
    requires t.taken == s.taken || (t.taken == s.taken + 1 && s.taken < |s.sent| && !s.sent[s.taken].AckConfigure?)
    requires forall k :: |s.sent| <= k < |t.sent| ==> !t.sent[k].AckConfigure?
    ensures AckedBy(t, i) <==> AckedBy(s, if i <= |s.sent| then i else |s.sent|)
  {
    if s.Live() && s.H().configure.Some? {
      var ack := M.AckConfigure(s.oid, s.H().configure.value.serial);
      forall k | s.taken <= k < i && k < |s.sent| && s.sent[k] == ack ensures t.taken <= k && t.sent[k] == ack {}
      forall k | t.taken <= k < i && k < |t.sent| && t.sent[k] == ack ensures k < |s.sent| && s.sent[k] == ack {}
    }
  }

  /** Nothing about the host's current configure changed. */
  lemma SameConfigure(s: Sys, t: Sys)
    requires t.oid == s.oid && (s.ended ==> t.ended) && (t.Live() ==> s.Live() && t.H().configure == s.H().configure)
    requires s.Live() && !t.Live() ==> t.ended
    ensures forall r :: Issued(s, r) ==> Issued(t, r)
    ensures SizesKept(s, t)
  {
  }

  lemma AcksPush(s: Sys, t: Sys, serial: u32)
    requires Acks(s) && Grows(s, t) && s.pump && s.taken <= |s.sent|
    requires t.host == s.host && t.taken == s.taken && t.ended == s.ended && t.lost == s.lost && t.pump == s.pump
    requires t.sent == s.sent + [M.AckConfigure(s.oid, serial)] && t.B().acked == Some(serial)
    requires t.told == (s.told || s.Current(serial))
    ensures Acks(t)
  {
    forall i | t.taken <= i <= |s.sent| ensures AckedBy(t, i) <==> AckedBy(s, i) {
      if s.Live() && s.H().configure.Some? {
        var ack := M.AckConfigure(s.oid, s.H().configure.value.serial);
        forall k | s.taken <= k < i && s.sent[k] == ack ensures t.sent[k] == ack {}
        forall k | s.taken <= k < i && t.sent[k] == ack ensures s.sent[k] == ack {}
      }
    }
    assert t.sent[|s.sent|] == M.AckConfigure(s.oid, serial);
    assert AckedBy(t, |t.sent|) && !AckedBy(t, |s.sent|) ==> s.Current(serial);
    if AckedBy(s, |s.sent|) && s.H().acked != Some(s.H().configure.value.serial) {
      var ack := M.AckConfigure(s.oid, s.H().configure.value.serial);
      var k :| s.taken <= k < |s.sent| && s.sent[k] == ack;
      assert t.sent[k] == ack;
    }
  }

  /** The acknowledgement was recorded locally but never left: the pump stops. */
  lemma AcksLost(s: Sys, t: Sys)
    requires Acks(s) && t.oid == s.oid && t.sent == s.sent && t.host == s.host && t.taken == s.taken
    requires t.ended == s.ended && t.told == s.told && t.lost && !t.pump
    ensures Acks(t)
  {
    assert forall i :: AckedBy(t, i) <==> AckedBy(s, i);
  }

  /** The host takes the acknowledgement of its current serial, or of a superseded one. */
  lemma AcksTake(s: Sys, t: Sys, serial: u32)
    requires Acks(s) && Grows(s, t) && s.taken < |s.sent| && s.sent[s.taken] == M.AckConfigure(s.oid, serial)
    requires s.Live() && t.Live() && s.H().configure.Some? && t.H().configure == s.H().configure
    requires t.H().acked == if serial == s.H().configure.value.serial then Some(serial) else s.H().acked
    requires t.taken == s.taken + 1 && t.sent == s.sent && t.phone == s.phone
    requires t.told == s.told && t.lost == s.lost && t.pump == s.pump && t.ended == s.ended
    ensures Acks(t)
  {
    forall i | t.taken <= i <= |t.sent| ensures AckedBy(t, i) <==> AckedBy(s, i) {
      var ack := M.AckConfigure(s.oid, s.H().configure.value.serial);
      if serial == s.H().configure.value.serial {
        assert s.sent[s.taken] == ack;
      }
    }
  }

  /** A new serial starts unacknowledged, and nothing in flight names it yet. */
  lemma AcksFresh(s: Sys, t: Sys)
    requires Acks(s) && t.oid == s.oid && t.sent == s.sent && t.taken == s.taken && t.phone == s.phone && t.lost == s.lost && t.pump == s.pump
    requires t.Live() && !t.told
    requires t.H().configure.Some? ==> t.H().acked.None? && Advances(s, t.H().configure.value.serial)
    requires s.B().acked.Some? ==> s.phone.stream.latest.Some? && s.phone.stream.latest.value.serial == s.B().acked.value
    ensures Acks(t)
  {
  }

  lemma AcksCreated(s: Sys, t: Sys)
    requires Acks(s) && t.Live() && t.H().configure.None? && t.lost == s.lost && t.pump == s.pump
    ensures Acks(t)
  {
  }

  /** Once the host dropped the task nothing is current any more. */
  lemma AcksEnded(s: Sys, t: Sys)
    requires Acks(s) && !t.Live() && t.ended && t.lost == s.lost && t.pump == s.pump
    ensures Acks(t)
  {
  }

  /** A frame leaves Android: it joins the end of the queue and the frames owed. */
  lemma TokensPresent(s: Sys, t: Sys, m: M.PhoneMsg)
    requires Tokens(s) && m.Present? && t.sent == s.sent + [m] && s.taken <= |s.sent|
    requires t == s.(phone := t.phone, sent := t.sent)
    requires m.frame.frame !in s.B().pending && m.frame.frame !in s.phone.stream.inFlight
    requires t.B().pending == s.B().pending[m.frame.frame := m.frame.releasePoint]
    requires t.phone.stream.inFlight == s.phone.stream.inFlight[m.frame.frame := m.frame.buffer]
    ensures Tokens(t)
  {
    assert forall f, b, p :: Owed(s, f, b, p) ==> Owed(t, f, b, p);
    if s.Live() {
      forall f | f in t.H().inFlight ensures Owed(t, f, t.H().inFlight[f].buffer, t.H().inFlight[f].releasePoint) {
        assert Owed(s, f, s.H().inFlight[f].buffer, s.H().inFlight[f].releasePoint);
      }
    }
  }

  lemma CoveredPresent(s: Sys, t: Sys, m: M.PhoneMsg)
    requires Covered(s) && m.Present? && t.sent == s.sent + [m] && s.taken <= |s.sent|
    requires t == s.(phone := t.phone, sent := t.sent)
    requires t.B().pending == s.B().pending[m.frame.frame := m.frame.releasePoint]
    ensures Covered(t)
  {
    forall f | f in t.B().pending ensures Queued(t, f) || OnHost(t, f) || Returning(t, f) || f in t.swallowed {
      if f == m.frame.frame {
        assert t.sent[|s.sent|] == m;
      } else if Queued(s, f) {
        var i :| s.taken <= i < |s.sent| && s.sent[i].Present? && s.sent[i].frame.frame == f;
        assert t.sent[i] == s.sent[i];
      }
    }
  }

  /** A release reaches Android: exactly that frame stops being owed. */
  lemma TokensHeard(s: Sys, t: Sys, frame: u64)
    requires Tokens(s) && Points(s) && s.heard < |s.back| && s.back[s.heard].BufferReleased? && s.back[s.heard].frameId == frame
    requires t == s.(phone := t.phone, heard := s.heard + 1, pump := t.pump)
    requires t.B().pending == s.B().pending - {frame} && t.phone.stream.inFlight == s.phone.stream.inFlight - {frame}
    requires s.ended ==> forall i :: s.taken <= i < |s.sent| ==> !s.sent[i].Present?
    requires !s.ended && !s.Live() ==> s.back == []
    ensures Tokens(t)
  {
  }

  lemma CoveredHeard(s: Sys, t: Sys, frame: u64)
    requires Covered(s) && s.heard < |s.back| && s.back[s.heard].BufferReleased? && s.back[s.heard].frameId == frame
    requires t == s.(phone := t.phone, heard := s.heard + 1, pump := t.pump)
    requires t.B().pending == s.B().pending - {frame}
    ensures Covered(t)
  {
    forall f | f in t.B().pending ensures Queued(t, f) || OnHost(t, f) || Returning(t, f) || f in t.swallowed {
      if Returning(s, f) {
        var i :| s.heard <= i < |s.back| && s.back[i].BufferReleased? && s.back[i].frameId == f;
        assert i != s.heard;
      } else if Queued(s, f) {
        var i :| s.taken <= i < |s.sent| && s.sent[i].Present? && s.sent[i].frame.frame == f;
        assert t.sent[i].Present?;
      }
    }
  }

  /** The host accepts the frame at the head of the queue. */
  lemma TokensAccepted(s: Sys, t: Sys, f: Frame)
    requires Tokens(s) && Points(s) && s.Live() && t.Live()
    requires s.taken < |s.sent| && s.sent[s.taken].Present? && s.sent[s.taken].frame == f && !s.ended
    requires t == s.(host := t.host, taken := s.taken + 1)
    requires t.H().inFlight == s.H().inFlight[f.frame := Pending(f.buffer, f.releasePoint)]
    requires s.H().lastRelease <= t.H().lastRelease == f.releasePoint
    ensures Tokens(t)
  {
  }

  lemma CoveredAccepted(s: Sys, t: Sys, f: Frame)
    requires Covered(s) && s.Live() && t.Live()
    requires s.taken < |s.sent| && s.sent[s.taken].Present? && s.sent[s.taken].frame == f
    requires t == s.(host := t.host, taken := s.taken + 1)
    requires t.H().inFlight == s.H().inFlight[f.frame := Pending(f.buffer, f.releasePoint)]
    ensures Covered(t)
  {
    forall g | g in t.B().pending ensures Queued(t, g) || OnHost(t, g) || Returning(t, g) || g in t.swallowed {
      if g != f.frame && Queued(s, g) {
        var i :| s.taken <= i < |s.sent| && s.sent[i].Present? && s.sent[i].frame.frame == g;
        assert i != s.taken && t.sent[i].Present?;
      }
    }
  }

  /** The host returns the superseded frame at the head of the queue at once. */
  lemma TokensDiscarded(s: Sys, t: Sys, f: Frame)
    requires Tokens(s) && Points(s) && s.Live() && t.Live() && s.heard <= |s.back|
    requires s.taken < |s.sent| && s.sent[s.taken].Present? && s.sent[s.taken].frame == f && !s.ended
    requires t == s.(host := t.host, taken := s.taken + 1, back := t.back)
    requires t.back == s.back + [M.BufferReleased(s.oid, f.frame, f.buffer, f.releasePoint)]
    requires t.H().inFlight == s.H().inFlight && t.H().lastRelease == f.releasePoint
    requires f.frame !in s.H().inFlight
    ensures Tokens(t)
  {
    forall i | s.heard <= i < |s.back| && s.back[i].BufferReleased? ensures s.back[i].frameId != f.frame {}
  }

  lemma CoveredReturned(s: Sys, t: Sys, f: u64)
    requires Covered(s) && Grows(s, t) && SameOwed(s, t) && t.swallowed == s.swallowed && t.heard == s.heard <= |s.back|
    requires |t.back| == |s.back| + 1 && t.back[|s.back|].BufferReleased? && t.back[|s.back|].frameId == f
    requires forall i :: |s.sent| <= i < |t.sent| ==> !t.sent[i].Present?
    requires forall i :: s.taken <= i < t.taken && i < |s.sent| && s.sent[i].Present? ==> s.sent[i].frame.frame == f
    requires forall g :: OnHost(s, g) && g != f ==> OnHost(t, g)
    ensures Covered(t)
  {
    forall g | g in t.B().pending ensures Queued(t, g) || OnHost(t, g) || Returning(t, g) || g in t.swallowed {
      if g == f {
        assert t.back[|s.back|].frameId == f;
      } else if Queued(s, g) {
        var i :| s.taken <= i < |s.sent| && s.sent[i].Present? && s.sent[i].frame.frame == g;
        assert t.sent[i] == s.sent[i];
      } else if Returning(s, g) {
        var i :| s.heard <= i < |s.back| && s.back[i].BufferReleased? && s.back[i].frameId == g;
        assert t.back[i] == s.back[i];
      }
    }
  }

  /** The compositor is done with an accepted frame of a live task. */
  lemma TokensReleased(s: Sys, t: Sys, f: u64)
    requires Tokens(s) && s.Live() && t.Live() && s.heard <= |s.back| && f in s.H().inFlight && !s.ended
    requires s.H().PointsOrdered()
    requires t == s.(host := t.host, back := t.back)
    requires t.back == s.back + [M.BufferReleased(s.oid, f, s.H().inFlight[f].buffer, s.H().inFlight[f].releasePoint)]
    requires t.H().inFlight == s.H().inFlight - {f} && t.H().lastRelease == s.H().lastRelease
    ensures Tokens(t)
  {
  }

  /** The compositor is done with a frame of a retiring task: the release goes nowhere. */
  lemma TokensSwallowed(s: Sys, t: Sys, f: u64)
    requires Tokens(s) && s.Live() && f in s.H().inFlight && s.ended
    requires t == s.(host := t.host, swallowed := s.swallowed + {f})
    requires t.Live() ==> t.H().inFlight == s.H().inFlight - {f} && t.H().lastRelease == s.H().lastRelease
    ensures Tokens(t)
  {
  }

  lemma CoveredSwallowed(s: Sys, t: Sys, f: u64)
    requires Covered(s) && s.Live()
    requires t == s.(host := t.host, swallowed := s.swallowed + {f})
    requires forall g :: OnHost(s, g) && g != f ==> OnHost(t, g)
    ensures Covered(t)
  {
    forall g | g in t.B().pending ensures Queued(t, g) || OnHost(t, g) || Returning(t, g) || g in t.swallowed {
      if Queued(s, g) {
        var i :| s.taken <= i < |s.sent| && s.sent[i].Present? && s.sent[i].frame.frame == g;
        assert t.sent[i].Present?;
      } else if Returning(s, g) {
        var i :| s.heard <= i < |s.back| && s.back[i].BufferReleased? && s.back[i].frameId == g;
        assert t.back[i].BufferReleased?;
      }
    }
  }
}
