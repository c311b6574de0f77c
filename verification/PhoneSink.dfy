/** Android's binding, demand and target pool with their fields updated in place. */
module PhoneSink {
  import opened Base
  import opened Dmabuf
  import opened Phone
  import P = ProtocolSteps
  import Transport
  import HostTask
  import O = Ordered
  import M = Messages

  class DenialTaskBinding {
    const oid: u64
    var acked: Option<u32>
    var nextPoint: u64
    var pending: map<u64, u64>
    var destroyRequested: bool

    ghost function View(): Binding reads this { Binding(oid, acked, nextPoint, pending, destroyRequested) }

    constructor (oid: u64)
      ensures View() == Binding(oid, None, 0, map[], false)
    {
      this.oid := oid;
      acked, nextPoint, pending, destroyRequested := None, 0, map[], false;
    }

    /** Sent at most once: a failed send leaves the request to be made again. */
    method RequestDestroy(send: bool) returns (sent: seq<M.PhoneMsg>, ok: bool)
      modifies this
      ensures old(destroyRequested) ==> ok && sent == [] && View() == old(View())
      ensures !old(destroyRequested) && send ==> ok && sent == [M.DestroyTask(oid)] && View() == old(View()).(destroyRequested := true)
      ensures !old(destroyRequested) && !send ==> !ok && sent == [] && View() == old(View())
    {
      if destroyRequested {
        return [], true;
      }
      if !send {
        return [], false;
      }
      destroyRequested := true;
      return [M.DestroyTask(oid)], true;
    }

    /** A fresh point for the frame, or nothing changed at all. */
    method PreparePresent(frame: u64, buffer: u64, damage: seq<Rect>) returns (r: Result<M.PhoneMsg, SinkError>)
      modifies this
      ensures match old(View()).PrepareError(frame)
              case Some(error) => r == Err(error) && View() == old(View())
              case None =>
                && View() == old(View()).Prepared(frame) && acked.Some?
                && r == Ok(M.Present(oid, HostTask.Frame(frame, buffer, nextPoint, nextPoint, damage), acked.value))
    {
      if destroyRequested || acked.None? {
        return Err(UnexpectedMessage);
      }
      if nextPoint + 1 == U64_LIMIT {
        return Err(TimelineExhausted);
      }
      if frame in pending {
        return Err(UnexpectedMessage);
      }
      nextPoint := nextPoint + 1;
      pending := pending[frame := nextPoint];
      return Ok(M.Present(oid, HostTask.Frame(frame, buffer, nextPoint, nextPoint, damage), acked.value));
    }

    method CancelUnsubmittedPresent(frame: u64, point: u64) returns (error: Option<SinkError>)
      modifies this
      ensures frame in old(pending) && old(pending)[frame] == point ==>
        error.None? && View() == old(View()).(pending := old(pending) - {frame})
      ensures !(frame in old(pending) && old(pending)[frame] == point) ==> error == Some(ReleaseMismatch) && View() == old(View())
    {
      if frame !in pending || pending[frame] != point {
        return Some(ReleaseMismatch);
      }
      pending := pending - {frame};
      return None;
    }
  }

  /** A prepared present that is cancelled leaves only its point spent. */
  lemma PrepareThenCancel(b: Binding, frame: u64)
    requires b.PrepareError(frame).None?
    ensures var p := b.Prepared(frame);
      p.pending[frame] == b.nextPoint + 1 && p.(pending := p.pending - {frame}) == b.(nextPoint := b.nextPoint + 1)
  {
    assert b.Prepared(frame).pending - {frame} == b.pending;
  }

  class RenderTargetDemand {
    var serial: Option<u32>
    var requested: Option<u32>

    ghost function View(): Demand reads this { Demand(serial, requested) }

    constructor ()
      ensures View() == Demand(None, None)
    {
      serial, requested := None, None;
    }

    /** A missing pool, unless it was already asked for in this generation. */
    function Request(enabled: bool, hasPool: bool): (request: Option<u32>)
      reads this
      ensures request == View().Request(enabled, hasPool)
      ensures request.Some? ==> requested != serial
    {
      if serial.Some? && enabled && !hasPool && requested != serial then serial else None
    }

    method Configure(s: u32)
      modifies this
      ensures View() == old(View()).Configured(s)
    {
      if serial != Some(s) {
        serial, requested := Some(s), None;
      }
    }

    method Sent(s: u32)
      modifies this
      ensures View() == old(View()).Sent(s)
    {
      if serial == Some(s) {
        requested := Some(s);
      }
    }
  }

  lemma LeastIsUnique(s: set<u64>, b: u64)
    requires IsLeast(b, s)
    ensures s != {} && O.Least(s) == b
  {
  }

  /** One task's channel of the sink, with the Composer stream it feeds. `wire` is every
      record handed to the socket; `send`, `cloned` and the plan are what the socket and the
      kernel answer. */
  class TaskChannel {
    const binding: DenialTaskBinding
    const demand: RenderTargetDemand
    var targets: map<u64, Target>
    var frameTargets: map<u64, u64>
    var opacity: Option<bool>
    var stream: Transport.Presentation
    var powered: bool
    var window: bool
    var wire: seq<M.PhoneMsg>

    ghost function View(): Phone reads this, binding, demand {
      Phone(Channel(binding.View(), targets, frameTargets, opacity, demand.View()), stream, powered, window)
    }

    constructor (oid: u64)
      ensures View() == NewPhone(oid) && wire == [] && View().Valid() && fresh(binding) && fresh(demand)
    {
      binding := new DenialTaskBinding(oid);
      demand := new RenderTargetDemand();
      targets, frameTargets, opacity, stream, powered, window, wire := map[], map[], None, Transport.IDLE, false, true, [];
      new;
      P.NewPhoneIsValid(oid);
    }

    method RegisterRenderTarget(serial: u32, b: Buffer) returns (error: Option<SinkError>)
      modifies this`targets
      ensures var r := RegisterTarget(old(View()), serial, b); View() == r.phone && error == r.error
    {
      if b.id in targets {
        return Some(DuplicateRenderTarget(b.id));
      }
      targets := targets[b.id := Target(serial, b, false, false, false)];
      return None;
    }

    method UnregisterRenderTarget(b: u64) returns (error: Option<SinkError>)
      modifies this`targets
      ensures var r := RevokeTarget(old(View()), b); View() == r.phone && error == r.error
    {
      if b !in targets {
        return Some(UnknownRenderTarget(b));
      }
      var t := targets[b];
      if t.reserved || t.busy {
        targets := targets[b := t.(revoked := true)];
        return None;
      }
      targets := targets - {b};
      return None;
    }

    method EnsureRenderTargets(lazy: bool, send: bool) returns (error: Option<SinkError>)
      modifies this`wire, demand
      ensures var r := Ensure(old(View()), lazy, send); View() == r.phone && error == r.error && wire == old(wire) + r.sent
    {
      var hasPool := exists b :: b in targets && !targets[b].revoked && demand.serial == Some(targets[b].serial);
      var request := demand.Request(lazy, hasPool);
      if request.None? {
        return None;
      }
      if !send {
        return Some(Ipc);
      }
      wire := wire + [M.RequestRenderTargets(binding.oid, request.value)];
      demand.Sent(request.value);
      return None;
    }

    /** The idle target of the newest geometry with the lowest identity. */
    method FindIdle(newest: u32) returns (found: Option<u64>)
      ensures found.None? <==> IdleTargets(View().channel, newest) == {}
      ensures found.Some? ==> IsLeast(found.value, IdleTargets(View().channel, newest))
    {
      found := None;
      var todo := targets.Keys;
      while todo != {}
        invariant todo <= targets.Keys
        invariant found.None? ==> forall b :: b in targets && b !in todo ==> !targets[b].Idle(newest)
        invariant found.Some? ==>
          && found.value in targets && targets[found.value].Idle(newest)
          && forall b :: b in targets && b !in todo && targets[b].Idle(newest) ==> found.value <= b
        decreases |todo|
      {
        var b :| b in todo;
        if targets[b].Idle(newest) && (found.None? || b < found.value) {
          found := Some(b);
        }
        todo := todo - {b};
      }
      if found.Some? {
        assert found.value in IdleTargets(View().channel, newest);
      }
    }

    method AcquireTarget(lazy: bool, send: bool, cloned: bool) returns (target: Option<u64>, error: Option<SinkError>)
      requires View().Valid()
      modifies this`targets, this`wire, demand
      ensures var r := Acquire(old(View()), lazy, send, cloned);
        View() == r.phone && error == r.error && target == r.target && wire == old(wire) + r.sent
      ensures View().Valid()
    {
      ghost var p := View();
      AcquireKeepsValid(p, lazy, send, cloned);
      hide Phone.Valid, Ensure;
      P.EnsureIsNeutral(p, lazy, send);
      if binding.destroyRequested {
        return None, Some(NoRenderTarget);
      }
      var refused := EnsureRenderTargets(lazy, send);
      if refused.Some? {
        return None, refused;
      }
      if demand.serial.None? {
        return None, Some(NoRenderTarget);
      }
      var b := FindIdle(demand.serial.value);
      if b.None? {
        return None, Some(NoRenderTarget);
      }
      LeastIsUnique(IdleTargets(View().channel, demand.serial.value), b.value);
      if !cloned {
        return None, Some(Graphics);
      }
      targets := targets[b.value := targets[b.value].(reserved := true)];
      return b, None;
    }

    method CancelReservedTarget(b: u64)
      requires View().Valid()
      modifies this`targets
      ensures View() == Cancel(old(View()), b) && View().Valid()
    {
      CancelKeepsValid(View(), b);
      hide Phone.Valid;
      if b in targets {
        var t := targets[b];
        if !t.busy {
          targets := targets[b := t.(reserved := false)];
          if t.revoked {
            targets := targets - {b};
            assert targets == old(targets) - {b};
          }
        }
      }
    }

    /** Take a point for the frame, then hand it over: a failure after the point was taken
        cancels the prepared present and leaves only the point spent. */
    method SendPrepared(frame: u64, b: Buffer, damage: seq<Rect>, plan: SendPlan) returns (error: Option<SinkError>)
      modifies this`wire, binding
      ensures var c := old(View()).channel.binding;
        match c.PrepareError(frame)
        case Some(e) => error == Some(e) && View() == old(View()) && wire == old(wire)
        case None =>
          var point := c.nextPoint + 1;
          if !plan.imported || !plan.exported then error == Some(Syncobj) && binding.View() == c.(nextPoint := point) && wire == old(wire)
          else if !plan.sendPresent then error == Some(Ipc) && binding.View() == c.(nextPoint := point) && wire == old(wire)
          else
            && error.None? && binding.View() == c.Prepared(frame)
            && wire == old(wire) + [M.Present(c.oid, HostTask.Frame(frame, b.id, point, point, damage), c.acked.value)]
    {
      ghost var c := binding.View();
      var prepared := binding.PreparePresent(frame, b.id, damage);
      if prepared.Err? {
        return Some(prepared.error);
      }
      PrepareThenCancel(c, frame);
      if !plan.imported || !plan.exported {
        var cancelled := binding.CancelUnsubmittedPresent(frame, prepared.value.frame.releasePoint);
        return Some(Syncobj);
      }
      if !plan.sendPresent {
        var cancelled := binding.CancelUnsubmittedPresent(frame, prepared.value.frame.releasePoint);
        return Some(Ipc);
      }
      wire := wire + [prepared.value];
      return None;
    }

    /** The metadata, the frame and the target change hands together, or not at all; only the
        opacity told so far and the spent point survive a failure. */
    method SendSurfaceFlingerFrame(frame: u64, b: Buffer, damage: seq<Rect>, isOpaque: bool, plan: SendPlan) returns (error: Option<SinkError>)
      modifies this, binding
      ensures var r := SendFrame(old(View()).channel, frame, b, damage, isOpaque, plan);
        View() == old(View()).(channel := r.0) && error == r.1 && wire == old(wire) + r.2
    {
      hide Binding.PrepareError, Binding.Prepared;
      if binding.destroyRequested {
        return Some(UnexpectedMessage);
      }
      if b.id !in targets {
        return Some(UnknownRenderTarget(b.id));
      }
      var t := targets[b.id];
      if !t.reserved || t.busy || t.revoked || t.metadata != b {
        return Some(BufferMetadataMismatch(b.id));
      }
      if opacity != Some(isOpaque) {
        if !plan.sendState {
          return Some(Ipc);
        }
        wire := wire + [M.SetContentState(binding.oid, if isOpaque then M.OPAQUE else 0)];
        opacity := Some(isOpaque);
      }
      error := SendPrepared(frame, b, damage, plan);
      if error.None? {
        targets := targets[b.id := t.(reserved := false, busy := true)];
        frameTargets := frameTargets[frame := b.id];
      }
    }

    /** The stream accepted the frame: send it, or roll the stream back and return the reservation. */
    method SendAccepted(b: Buffer, rects: seq<Rect>, isOpaque: bool, plan: SendPlan) returns (error: Option<SinkError>)
      requires View().Valid() && stream.nextFrame + 1 < U64_LIMIT && stream.SubmitError(b, rects, true).None?
      modifies this, binding
      ensures var p := old(View());
        var frame := p.stream.nextFrame + 1;
        var (after, failed, sent) := SendFrame(p.channel, frame, b, rects, isOpaque, plan);
        && error == failed && wire == old(wire) + sent
        && View() == if failed.Some? then Cancel(p.(channel := after, stream := p.stream.(nextFrame := frame)), b.id)
                     else p.(channel := after, stream := p.stream.Submitted(b))
    {
      hide Phone.Valid, SendFrame, Transport.Presentation.SubmitError, Transport.Presentation.Submitted, Transport.Presentation.Retired, Cancel;
      ghost var p := View();
      RollBack(p, b, rects);
      StillValid(p, b, rects, isOpaque, plan);
      stream := stream.Submitted(b);
      error := SendSurfaceFlingerFrame(stream.nextFrame, b, rects, isOpaque, plan);
      if error.Some? {
        stream := stream.Retired(stream.nextFrame);
        CancelReservedTarget(b.id);
      }
    }

    /** Every failure returns the reservation, except that a window already removed is
        reported before anything else is looked at. */
    method SubmitSurfaceFlingerTarget(b: Buffer, damage: Option<Rect>, isOpaque: bool, plan: SendPlan) returns (error: Option<SinkError>)
      requires View().Valid()
      modifies this, binding
      ensures var r := Submit(old(View()), b, damage, isOpaque, plan);
        View() == r.phone && error == r.error && wire == old(wire) + r.sent
      ensures View().Valid()
      ensures !old(window) ==> View() == old(View())
    {
      hide Phone.Valid, SendFrame, Transport.Presentation.SubmitError, Transport.Presentation.Submitted, Cancel, SubmitDamage;
      SubmitKeepsValid(View(), b, damage, isOpaque, plan);
      var rects := SubmitDamage(b, damage);
      if !window {
        return Some(Graphics);
      }
      if !powered {
        CancelReservedTarget(b.id);
        return Some(DisplayOff);
      }
      var refused := stream.SubmitError(b, rects, true);
      if refused.Some? {
        CancelReservedTarget(b.id);
        return Some(Composer(refused.value));
      }
      SubmitFacts(stream, b, rects);
      error := SendAccepted(b, rects, isOpaque, plan);
    }

    method AcknowledgeConfigure(serial: u32, send: bool) returns (error: Option<SinkError>)
      requires View().Valid()
      modifies this`stream, this`wire, binding
      ensures var r := Ack(old(View()), serial, send);
        View() == r.phone && error == r.error && wire == old(wire) + r.sent
      ensures View().Valid()
    {
      StreamStepsKeepValid(View(), Transport.Configure(0, 0, 0, 0), {}, serial);
      hide Phone.Valid;
      if !window {
        return Some(NoWindow);
      }
      if !stream.Acknowledges(serial) {
        return Some(Composer(Transport.InvalidSerial(serial)));
      }
      stream := stream.(acked := Some(serial));
      binding.acked := Some(serial);
      if !send {
        return Some(Ipc);
      }
      wire := wire + [M.AckConfigure(binding.oid, serial)];
      return None;
    }

    method ApplyConfigured(c: Transport.Configure) returns (error: Option<SinkError>)
      requires View().Valid()
      modifies this`stream, binding, demand
      ensures var r := Hear(old(View()), M.Configure(binding.oid, c)); View() == r.phone && error == r.error
      ensures View().Valid()
    {
      StreamStepsKeepValid(View(), c, {}, 0);
      hide Phone.Valid;
      if !window {
        return Some(NoWindow);
      }
      stream := stream.Configured(c);
      binding.acked := None;
      demand.Configure(c.serial);
      return None;
    }

    method ApplyReleased(frame: u64, b: u64, point: u64) returns (error: Option<SinkError>)
      requires View().Valid()
      modifies this`stream, this`frameTargets, this`targets, binding
      ensures var r := ApplyRelease(old(View()), frame, b, point); View() == r.phone && error == r.error
      ensures error.Some? ==> View() == old(View())
      ensures View().Valid()
    {
      HearKeepsValid(View(), M.BufferReleased(binding.oid, frame, b, point));
      hide Phone.Valid;
      if frame !in binding.pending || binding.pending[frame] != point {
        return Some(ReleaseMismatch);
      }
      if !window {
        return Some(NoWindow);
      }
      if frame !in stream.inFlight || stream.inFlight[frame] != b {
        return Some(ReleaseMismatch);
      }
      stream := stream.Retired(frame);
      binding.pending := binding.pending - {frame};
      if frame !in frameTargets {
        return Some(UnknownRenderTarget(b));
      }
      if frameTargets[frame] != b {
        return Some(BufferMetadataMismatch(b));
      }
      if b !in targets {
        return Some(UnknownRenderTarget(b));
      }
      frameTargets := frameTargets - {frame};
      if targets[b].revoked {
        targets := targets - {b};
      } else {
        targets := targets[b := targets[b].(busy := false)];
      }
      return None;
    }

    method RequestTaskRemoval(send: bool) returns (error: Option<SinkError>)
      modifies this`wire, binding
      ensures var r := Destroy(old(View()), send);
        View() == r.phone && error == r.error && wire == old(wire) + r.sent
    {
      var sent, ok := binding.RequestDestroy(send);
      wire := wire + sent;
      error := if ok then None else Some(Ipc);
    }
  }

  /** Cancelling the accepted frame restores the stream but for the frame identity. */
  lemma RollBack(p: Phone, b: Buffer, rects: seq<Rect>)
    requires p.Valid() && p.stream.SubmitError(b, rects, true).None? && p.stream.nextFrame + 1 < U64_LIMIT
    ensures var frame := p.stream.nextFrame + 1;
      p.stream.Submitted(b).nextFrame == frame && frame in p.stream.Submitted(b).inFlight
      && p.stream.Submitted(b).Retired(frame) == p.stream.(nextFrame := frame)
  {
    SubmitFacts(p.stream, b, rects);
    p.stream.RollbackRestores(b);
  }

  /** The state a failed send leaves is valid before the reservation is returned. */
  lemma StillValid(p: Phone, b: Buffer, rects: seq<Rect>, isOpaque: bool, plan: SendPlan)
    requires p.Valid() && p.stream.nextFrame + 1 < U64_LIMIT
    ensures SendFrame(p.channel, p.stream.nextFrame + 1, b, rects, isOpaque, plan).1.Some? ==>
            p.(channel := SendFrame(p.channel, p.stream.nextFrame + 1, b, rects, isOpaque, plan).0,
               stream := p.stream.(nextFrame := p.stream.nextFrame + 1)).Valid()
  {
    hide SendFrame, Phone.Valid;
    var frame := p.stream.nextFrame + 1;
    var after := SendFrame(p.channel, frame, b, rects, isOpaque, plan).0;
    P.SendOutcome(p.channel, frame, b, rects, isOpaque, plan);
    SendKeepsRest(p.channel, frame, b, rects, isOpaque, plan);
    if SendFrame(p.channel, frame, b, rects, isOpaque, plan).1.Some? {
      NotesKeepValid(p, p.channel.demand, after.opacity, after.binding.nextPoint, frame, p.powered, p.channel.binding.destroyRequested);
    }
  }

  lemma SendKeepsRest(c: Channel, frame: u64, b: Buffer, damage: seq<Rect>, isOpaque: bool, plan: SendPlan)
    ensures var r := SendFrame(c, frame, b, damage, isOpaque, plan);
      r.0.demand == c.demand && (r.1.Some? ==> r.0.frameTargets == c.frameTargets)
  {
    hide ContentState;
  }
}
