/** Runs that reach the outcomes the exact conditions leave open, one record at a time. */
module ProtocolWitness {
  import opened Base
  import opened Dmabuf
  import opened HostTask
  import opened Phone
  import opened PhoneRuns
  import opened Protocol
  import opened ProtocolPool
  import opened ProtocolRuns
  import E = Endpoint
  import Transport
  import O = Ordered
  import M = Messages

  const FORMAT := Format(1, 0)
  const BUFFER := Buffer(1, 1, 1, FORMAT, [Plane(0, 0, 4)])
  const CONFIGURE := Transport.Configure(1, 1, 1, 60000)
  const GRANTED := SendPlan(true, true, true, true)
  const FRAME := Frame(1, 1, 1, 1, [Rect(0, 0, 1, 1)])

  ghost predicate Reach(s: Sys) {
    exists states, steps :: IsRun(states, steps) && states[|steps|] == s
  }

  lemma ReachNext(s: Sys, step: Step)
    requires Reach(s) && Enabled(s, step)
    ensures Reach(Next(s, step))
  {
    hide Init, Enabled, Next;
    var states, steps :| IsRun(states, steps) && states[|steps|] == s;
    assert IsRun(states + [Next(s, step)], steps + [step]);
  }

  /** The host takes a record with every kernel call granted. */
  lemma Takes(s: Sys, t: Sys, x: E.Effect)
    requires Reach(s) && s.open && s.taken < |s.sent| && x.error.None?
    requires Receive(s.host, s.sent[s.taken], true, true, true) == x
    requires t == s.(host := x.table, back := s.back + E.Records(x.record), taken := s.taken + 1,
                     ended := s.ended || s.sent[s.taken].DestroyTask?)
    ensures Reach(t)
  {
    hide Receive, Reach, E.Records;
    ReachNext(s, HostTakes(true, true, true));
  }

  lemma Moves(s: Sys, move: PhoneStep, t: Sys)
    requires Reach(s) && Enabled(s, PhoneMoves(move)) && MovePhone(s, move).(service := s.service.Moved(move)) == t
    ensures Reach(t)
  {
    hide MovePhone, Reach, Enabled;
    ReachNext(s, PhoneMoves(move));
  }

  lemma Acts(s: Sys, a: E.Action, t: Sys)
    requires Reach(s) && s.open && Allowed(s, a) && ActHost(s, a) == t
    ensures Reach(t)
  {
    hide ActHost, Reach, Allowed;
    ReachNext(s, HostActs(a));
  }

  /** The pump has looked at the record and found its channel. */
  function At(s: Sys, stage: Stage): Sys { s.(service := s.service.At(stage)) }

  lemma Looks(s: Sys)
    requires Reach(s) && s.open && s.pump && s.service.stage == Waiting && s.heard < |s.back| && !s.removing && !s.service.retired
    ensures Reach(At(s, Looked))
  {
    hide Reach;
    ReachNext(s, PumpLooks);
  }

  lemma Finds(s: Sys)
    requires Reach(s) && s.open && s.pump && s.service.stage == Waiting && s.heard < |s.back| && !s.removing && !s.service.retired
    requires !s.service.forgotten && !Targets(s.back[s.heard])
    ensures Reach(At(s, Found))
  {
    hide Reach;
    Looks(s);
    ReachNext(At(s, Looked), PumpFinds);
  }

  /** One record goes through the pump without a removal. */
  lemma Hears(s: Sys, t: Sys)
    requires Reach(s) && s.open && s.pump && s.service.stage == Waiting && s.heard < |s.back| && !s.removing
    requires !s.service.retired && !s.service.forgotten && HearNext(s).pump && !Unfit(s.phone, s.back[s.heard])
    requires t == At(HearNext(s), if s.back[s.heard].Configure? then Acking(s.back[s.heard].configure.serial) else Waiting)
    ensures Reach(t)
  {
    hide Reach, Hear, Unfit;
    if Targets(s.back[s.heard]) {
      Looks(s);
      Settles(s, Looked);
    } else {
      Finds(s);
      Settles(s, Found);
    }
  }

  lemma Settles(s: Sys, stage: Stage)
    requires s.heard < |s.back| && stage == (if Targets(s.back[s.heard]) then Looked else Found)
    requires Reach(At(s, stage)) && s.open && s.pump && !s.service.forgotten && HearNext(s).pump && !Unfit(s.phone, s.back[s.heard])
    ensures Reach(At(HearNext(s), if s.back[s.heard].Configure? then Acking(s.back[s.heard].configure.serial) else Waiting))
  {
    hide Reach, Hear, Unfit;
    assert HearNext(At(s, stage)).pump;
    assert Settled(At(s, stage)) == HearNext(s).phone;
    ReachNext(At(s, stage), PumpApplies);
  }

  lemma Removes(s: Sys)
    requires Reach(s) && s.open
    ensures Reach(s.(removing := true))
  {
    hide Reach;
    ReachNext(s, RemovalBegins);
  }

  function Entry(t: Task, pending: map<u64, Frame>, retiring: bool): E.Entry {
    E.Entry(None, 7, t, t.timelinesBound, pending, {}, retiring)
  }

  /** The host's task once it is configured and has lent its one target. */
  function Serving(acked: Option<u32>): Task {
    Task(1, true, 1, {FORMAT}, Some(HostConfigure(1, 1, 1)), acked, map[1 := BUFFER], map[], {}, 0, 0)
  }

  /** The first state of a task that is or is not direct. */
  function Opening(direct: bool): Sys {
    Sys(1, NewPhone(1), map[], [M.CreateTask(1, 7), M.BindTimelines(1)], 0, [], 0, {}, map[], false, false, false, true, true, false,
        Service(direct, Waiting, false, false, false))
  }

  lemma OpeningReached(direct: bool)
    ensures Reach(Opening(direct))
  {
    assert Init(Opening(direct)) by { assert Opening(direct).sent == [M.CreateTask(1, 7), M.BindTimelines(1)]; }
    assert IsRun([Opening(direct)], []);
  }

  function Bound(direct: bool): Sys {
    Opening(direct).(host := map[1 := Entry(NewTask(1).(timelinesBound := true), map[], false)], taken := 2)
  }

  lemma BoundReached(direct: bool)
    ensures Reach(Bound(direct))
  {
    hide Reach;
    OpeningReached(direct);
    var created := Opening(direct).(host := map[1 := E.NewEntry(1, 7)], taken := 1);
    Takes(Opening(direct), created, E.Put(map[], 1, E.NewEntry(1, 7)));
    var bound := E.DoBindTimelines(created.host, 1, true);
    assert bound.table == Bound(direct).host;
    Takes(created, Bound(direct), bound);
  }

  const OFFERS := [M.FormatFeedback(1, 1, [FORMAT]), M.RegisterRenderTarget(1, 1, BUFFER), M.Configure(1, CONFIGURE)]

  function Fed(direct: bool): Sys {
    Bound(direct).(host := map[1 := Entry(Serving(None).(configure := None, buffers := map[]), map[], false)], back := OFFERS[..1])
  }

  function Supplied(direct: bool): Sys {
    Fed(direct).(host := map[1 := Entry(Serving(None).(configure := None), map[], false)], back := OFFERS[..2], issued := map[1 := BUFFER])
  }

  function Offered(direct: bool): Sys {
    Supplied(direct).(host := map[1 := Entry(Serving(None), map[], false)], back := OFFERS)
  }

  lemma FedReached(direct: bool)
    ensures Reach(Fed(direct))
  {
    hide Reach;
    BoundReached(direct);
    var a := E.SendFeedback(1, 1, [FORMAT], true);
    assert {FORMAT} == set f | f in [FORMAT];
    assert E.DoFeedback(Bound(direct).host, 1, 1, [FORMAT], true).table == Fed(direct).host;
    Acts(Bound(direct), a, Fed(direct));
  }

  lemma SuppliedReached(direct: bool)
    ensures Reach(Supplied(direct))
  {
    hide Reach;
    FedReached(direct);
    var a := E.Lend(1, 1, BUFFER, true);
    assert E.DoLend(Fed(direct).host, 1, 1, BUFFER, true).table == Supplied(direct).host;
    Acts(Fed(direct), a, Supplied(direct));
  }

  lemma OfferedReached(direct: bool)
    ensures Reach(Offered(direct))
  {
    hide Reach;
    SuppliedReached(direct);
    var a := E.SendConfigure(1, CONFIGURE, true);
    assert E.DoConfigure(Supplied(direct).host, 1, CONFIGURE, true).table == Offered(direct).host;
    Acts(Supplied(direct), a, Offered(direct));
  }

  /** Android's side: configured by serial 1, holding the one target in the given state. */
  function Holder(acked: Option<u32>, powered: bool, reserved: bool): Phone {
    Phone(Channel(Binding(1, acked, 0, map[], false), map[1 := Target(1, BUFFER, reserved, false, false)], map[], None, Demand(Some(1), None)),
          Transport.Presentation({FORMAT}, Some(CONFIGURE), acked, map[], {}, 0), powered, true)
  }

  /** The configure was applied and is about to be acknowledged. */
  function Told(direct: bool): Sys { At(Offered(direct), Acking(1)).(phone := Holder(None, false, false), heard := 3) }

  lemma ToldReached(direct: bool)
    ensures Reach(Told(direct))
  {
    hide Reach;
    OfferedReached(direct);
    var p, s := NewPhone(1), Offered(direct);
    var q := p.(stream := p.stream.(feedback := {FORMAT}));
    var r := WithTarget(q, 1, Target(1, BUFFER, false, false, false));
    assert {FORMAT} == set f | f in [FORMAT];
    assert Hear(p, OFFERS[0]) == Done(q) && Hear(q, OFFERS[1]) == Done(r) && Hear(r, OFFERS[2]) == Done(Holder(None, false, false));
    hide Hear;
    Hears(s, s.(phone := q, heard := 1));
    Hears(s.(phone := q, heard := 1), s.(phone := r, heard := 2));
    Hears(s.(phone := r, heard := 2), Told(direct));
  }

  const ACK := M.AckConfigure(1, 1)

  /** The acknowledgement was handed to the socket, or was not. */
  function Acknowledged(direct: bool, send: bool): Sys {
    At(Told(direct), Connecting).(phone := Holder(Some(1), false, false), sent := Told(direct).sent + (if send then [ACK] else []), told := send, lost := !send, pump := send)
  }

  function Submitting(send: bool): Sys {
    var s := Acknowledged(true, send);
    s.(phone := Phone(Channel(Binding(1, Some(1), 1, map[1 := 1], false), map[1 := Target(1, BUFFER, false, true, false)],
                              map[1 := 1], Some(true), Demand(Some(1), None)),
                      Transport.Presentation({FORMAT}, Some(CONFIGURE), Some(1), map[1 := 1], {1}, 1), true, true),
       sent := s.sent + [M.SetContentState(1, M.OPAQUE), M.Present(1, FRAME, 1)])
  }

  lemma AcquiredHolder()
    ensures Acquire(Holder(Some(1), true, false), false, true, true)
         == Outcome(Holder(Some(1), true, true), None, [], Some(1))
  {
    var p := Holder(Some(1), true, false);
    assert IdleTargets(p.channel, 1) == {1};
    assert O.Least({1}) == 1;
  }

  lemma SubmittedHolder()
    ensures Submit(Holder(Some(1), true, true), BUFFER, None, true, GRANTED)
         == Done(Submitting(true).phone, [M.SetContentState(1, M.OPAQUE), M.Present(1, FRAME, 1)])
  {
    assert SubmitDamage(BUFFER, None) == FRAME.damage;
    assert FRAME.damage[0].Fits(1, 1);
  }

  lemma AcknowledgedReached(direct: bool, send: bool)
    ensures Reach(Acknowledged(direct, send))
  {
    hide Reach;
    ToldReached(direct);
    Moves(Told(direct), Acked(1, send), Acknowledged(direct, send));
  }

  lemma SubmittingReached(send: bool)
    ensures Reach(Submitting(send))
  {
    hide Reach;
    AcknowledgedReached(true, send);
    var a := Acknowledged(true, send);
    var b, c := a.(phone := Holder(Some(1), true, false)), a.(phone := Holder(Some(1), true, true));
    assert a.sent + [] == a.sent;
    AcquiredHolder();
    SubmittedHolder();
    hide Acquire, Submit, Acknowledged;
    Moves(a, Powered(true), b);
    Moves(b, Acquired(false, true, true), c);
    Moves(c, Submitted(BUFFER, None, true, GRANTED), Submitting(send));
  }

  /** An acknowledgement that failed to leave still counts on Android, so the next frame
      names a serial the host never heard acknowledged, and the host refuses it. */
  lemma LostAcknowledgementIsFatal()
    ensures exists s ::
      && Reach(s) && s.open && s.lost && s.taken < |s.sent| && s.sent[s.taken].Present? && s.Current(s.sent[s.taken].serial)
      && s.B().acked == Some(s.sent[s.taken].serial)
      && s.H().PresentError(s.oid, s.sent[s.taken].frame, s.sent[s.taken].serial) == Some(UnacknowledgedConfigure)
  {
    hide Reach;
    SubmittingReached(false);
    var s := Submitting(false);
    assert s.sent[2] == M.SetContentState(1, M.OPAQUE);
    Takes(s, s.(taken := 3), E.Effect(s.host, None, None));
    assert s.sent[3] == M.Present(1, FRAME, 1);
  }

  function Owning(retiring: bool): E.Table {
    map[1 := Entry(Serving(Some(1)).Presented(FRAME), map[1 := FRAME], retiring)]
  }

  lemma AcceptedFrame(t: E.Table)
    requires t == map[1 := Entry(Serving(Some(1)), map[], false)]
    ensures E.DoPresent(t, 1, FRAME, 1, true, true, true) == E.Effect(Owning(false), None, None)
  {
    assert FRAME.damage[0].Fits(1, 1);
    assert E.DoPresent(t, 1, FRAME, 1, true, true, true).table == Owning(false);
  }

  lemma OwnedReached()
    ensures Reach(Submitting(true).(host := Owning(false), taken := 5))
  {
    hide Reach;
    SubmittingReached(true);
    var s := Submitting(true);
    assert s.sent == [M.CreateTask(1, 7), M.BindTimelines(1), ACK, M.SetContentState(1, M.OPAQUE), M.Present(1, FRAME, 1)];
    var acked: E.Table := map[1 := Entry(Serving(Some(1)), map[], false)];
    assert E.DoAck(s.host, 1, 1) == E.Effect(acked, None, None) by { assert E.DoAck(s.host, 1, 1).table == acked; }
    AcceptedFrame(acked);
    hide Submitting, E.DoAck, E.DoPresent;
    Takes(s, s.(host := acked, taken := 3), E.Effect(acked, None, None));
    Takes(s.(host := acked, taken := 3), s.(host := acked, taken := 4), E.Effect(acked, None, None));
    Takes(s.(host := acked, taken := 4), s.(host := Owning(false), taken := 5), E.Effect(Owning(false), None, None));
  }

  lemma RetiringEffects()
    ensures E.DoDestroy(Owning(false), 1) == E.Effect(Owning(true), None, None)
    ensures E.DoFinish(Owning(true), 1, 1, true) == E.Effect(map[], None, None)
  {
    assert 1 in Owning(false)[1].state.inFlight;
    assert E.DoDestroy(Owning(false), 1).table == Owning(true);
    assert E.FinishEntry(Owning(true)[1], 1).state.inFlight == map[];
    assert Owning(true) - {1} == map[];
  }

  function Leaving(): Sys {
    var s := Submitting(true).(host := Owning(false), taken := 5, removing := true);
    s.(phone := s.phone.(channel := s.phone.channel.(binding := s.B().(destroyRequested := true))), sent := s.sent + [M.DestroyTask(1)])
  }

  lemma LeavingReached()
    ensures Reach(Leaving())
  {
    hide Reach, Owning;
    OwnedReached();
    Removes(Submitting(true).(host := Owning(false), taken := 5));
    Moves(Submitting(true).(host := Owning(false), taken := 5, removing := true), Destroyed(true), Leaving());
  }

  function Retired(): Sys { Leaving().(host := Owning(true), taken := 6, ended := true) }

  lemma RetiredReached()
    ensures Reach(Retired())
  {
    hide Reach, E.DoDestroy, Owning;
    LeavingReached();
    RetiringEffects();
    assert Leaving().sent[5] == M.DestroyTask(1);
    Takes(Leaving(), Retired(), E.Effect(Owning(true), None, None));
  }

  /** A task destroyed while the host still shows its frame: the host consumes the release
      and forgets the task, and Android keeps the frame in flight. */
  lemma SwallowedReleaseIsReachable()
    ensures exists s :: Reach(s) && s.open && !s.Live() && s.heard == |s.back| && s.taken == |s.sent| && 1 in s.swallowed && 1 in s.B().pending
  {
    hide Reach, E.DoFinish;
    RetiredReached();
    RetiringEffects();
    var t := Retired().(host := map[], swallowed := {1});
    assert t.swallowed == Retired().swallowed + {1};
    Acts(Retired(), E.FinishRelease(1, 1, true), t);
  }

  /** A task that shows nothing, with its removal begun and its destroy requested. */
  function Leave(s: Sys): Sys {
    s.(removing := true, sent := s.sent + [M.DestroyTask(1)],
       phone := s.phone.(channel := s.phone.channel.(binding := s.B().(destroyRequested := true))))
  }

  lemma Leaves(s: Sys)
    requires Reach(s) && s.open && s.B().oid == 1 && !s.B().destroyRequested && !s.service.forgotten
    ensures Reach(Leave(s))
  {
    hide Reach;
    Removes(s);
    Moves(s.(removing := true), Destroyed(true), Leave(s));
  }

  /** The same once its window is gone, its channel is forgotten, it is retired. */
  function Gone(s: Sys): Sys { var t := Leave(s); t.(phone := t.phone.(window := false), service := t.service.(connected := false)) }

  function Forgotten(s: Sys): Sys { Gone(s).(service := Gone(s).service.(forgotten := true)) }

  function Dismissed(s: Sys): Sys { Forgotten(s).(service := Forgotten(s).service.(retired := true)) }

  lemma Goes(s: Sys)
    requires Reach(s) && s.open && s.B().oid == 1 && !s.B().destroyRequested && !s.service.forgotten && !s.service.stage.Acking?
    requires s.phone.window && s.phone.stream.inFlight == map[]
    ensures Reach(Gone(s)) && Reach(Forgotten(s)) && Reach(Dismissed(s))
  {
    hide Reach;
    Leaves(s);
    assert Leave(s).sent + [] == Leave(s).sent;
    Moves(Leave(s), WindowRemoved, Gone(s));
    ReachNext(Gone(s), ChannelForgotten);
    ReachNext(Forgotten(s), RemovalEnds);
  }

  /** Destruction does not silence acknowledgements: one that follows the destroy record
      names a task the host has already dropped. */
  lemma LateAcknowledgementIsFatal()
    ensures exists s :: Reach(s) && s.open && s.ended && !s.Live() && s.taken < |s.sent| && s.sent[s.taken] == ACK
                        && E.DoAck(s.host, 1, 1).error == Some(E.UnknownObject(1))
  {
    hide Reach;
    ToldReached(true);
    Leaves(Told(true));
    var a := Leave(Told(true));
    var b := MovePhone(a, Acked(1, true)).(service := a.service.At(Connecting));
    Moves(a, Acked(1, true), b);
    assert b.sent == Told(true).sent + [M.DestroyTask(1), ACK];
    var c := b.(host := map[], taken := 3, ended := true);
    assert Told(true).host - {1} == map[];
    Takes(b, c, E.Effect(map[], None, None));
    assert c.sent[3] == ACK;
  }

  // ------------------------------------------------------------------------------------
  // Ends of the event pump

  /** The pump is about to stop although nothing it asked for failed. */
  ghost predicate Ending(s: Sys, step: Step) { Reach(s) && s.pump && Enabled(s, step) && Stops(s, step) }

  /** The pump is done with the configure of a direct task and one more record is queued. */
  function Served(m: M.HostMsg, host: E.Table): Sys {
    At(Acknowledged(true, true), Waiting).(host := host, back := OFFERS + [m])
  }

  lemma ServedReached(m: M.HostMsg, a: E.Action, host: E.Table)
    requires Allowed(At(Acknowledged(true, true), Waiting), a) && a.oid == 1 && !a.SendConfigure? && !a.Lend? && !a.FinishRelease? && !a.DiscardFrame?
    requires E.Apply(Acknowledged(true, true).host, a) == E.Effect(host, None, Some(m))
    ensures Reach(Served(m, host))
  {
    hide Reach, E.Apply, Allowed;
    AcknowledgedReached(true, true);
    var s := Acknowledged(true, true);
    ReachNext(s, PumpConnects);
    ReachNext(At(s, Dispatching), PumpDispatches);
    Acts(At(s, Waiting), a, Served(m, host));
  }

  const NEWS := M.FormatFeedback(1, 2, [FORMAT])

  function Renewed(): E.Table { map[1 := Entry(Serving(None).(feedbackGeneration := 2), map[], false)] }

  lemma NewsReached()
    ensures Reach(Served(NEWS, Renewed()))
  {
    hide Reach;
    assert {FORMAT} == set f | f in [FORMAT];
    assert E.DoFeedback(Acknowledged(true, true).host, 1, 2, [FORMAT], true).table == Renewed();
    ServedReached(NEWS, E.SendFeedback(1, 2, [FORMAT], true), Renewed());
  }

  /** A record the pump looked at before the removal began can find its window gone. */
  lemma LateRecordIsFatal()
    ensures exists s :: Ending(s, PumpApplies) && TooLate(s) && !s.service.forgotten
  {
    hide Reach, Renewed;
    NewsReached();
    var s := Served(NEWS, Renewed());
    Finds(s);
    Goes(At(s, Found));
    assert Ending(Gone(At(s, Found)), PumpApplies);
  }

  /** News that needs no window can find its channel forgotten and the task not yet retired. */
  lemma LateNoticeIsFatal()
    ensures exists s :: Ending(s, PumpFinds) && s.back[s.heard].Notice?
  {
    hide Reach;
    var host := Acknowledged(true, true).host;
    ServedReached(M.Notice(1), E.SendNotice(1, true), host);
    var s := Served(M.Notice(1), host);
    Looks(s);
    Goes(At(s, Looked));
    assert Ending(Forgotten(At(s, Looked)), PumpFinds);
  }

  /** A configure applied and acknowledged under its window can find its task retired, before
      the pump reports it configured or after that. */
  lemma LateConfigureIsFatal()
    ensures exists s :: Ending(s, PumpConnects)
    ensures exists s :: Ending(s, PumpAnnounces(true)) && s.service.direct
  {
    hide Reach;
    AcknowledgedReached(true, true);
    var s := Acknowledged(true, true);
    Goes(s);
    assert Ending(Dismissed(s), PumpConnects);
    ReachNext(s, PumpConnects);
    var d := At(s, Dispatching);
    Goes(d);
    ReachNext(Dismissed(d), PumpDispatches);
    assert Ending(At(Dismissed(d), Announcing(false)), PumpAnnounces(true));
  }

  /** The display of a task that is not direct, announced once. */
  function Announced(): Sys {
    var s := Acknowledged(false, true);
    s.(service := s.service.(stage := Waiting, connected := true))
  }

  lemma AnnouncedReached()
    ensures Reach(Announced())
  {
    hide Reach;
    AcknowledgedReached(false, true);
    var s := Acknowledged(false, true);
    ReachNext(s, PumpConnects);
    ReachNext(At(s, Dispatching), PumpDispatches);
    ReachNext(At(s, Announcing(false)), PumpAnnounces(true));
  }

  /** The host repeats its configure, and the pump has acknowledged it again. */
  function Repeated(): Sys {
    At(Announced(), Connecting).(back := OFFERS + [M.Configure(1, CONFIGURE)], heard := 4, sent := Announced().sent + [ACK])
  }

  lemma RepeatedReached()
    ensures Reach(Repeated())
  {
    hide Reach;
    AnnouncedReached();
    var s, a := Announced(), E.SendConfigure(1, CONFIGURE, true);
    var t := s.(back := OFFERS + [M.Configure(1, CONFIGURE)]);
    assert E.DoConfigure(s.host, 1, CONFIGURE, true).table == s.host;
    Acts(s, a, t);
    var p := ApplyConfigure(s.phone, CONFIGURE);
    Hears(t, At(t, Acking(1)).(phone := p, heard := 4));
    assert Ack(p, 1, true) == Done(s.phone, [ACK]);
    hide Ack;
    Moves(At(t, Acking(1)).(phone := p, heard := 4), Acked(1, true), Repeated());
  }

  /** The display of a task that is not direct can be disconnected between the pump's question
      whether it is connected and its refresh, even if the removal then leaves the window. */
  lemma LateRefreshIsFatal()
    ensures exists s :: Ending(s, PumpAnnounces(true)) && !s.service.direct && s.phone.window
  {
    hide Reach;
    RepeatedReached();
    var s := Repeated();
    ReachNext(s, PumpConnects);
    ReachNext(At(s, Dispatching), PumpDispatches);
    var d := At(s, Announcing(true));
    Leaves(d);
    ReachNext(Leave(d), Disconnects);
    var e := Leave(d).(service := d.service.(connected := false));
    assert Ending(e, PumpAnnounces(true));
  }
}
