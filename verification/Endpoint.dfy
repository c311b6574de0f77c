/** Host-side table of live task objects for one connection. */
module Endpoint {
  import opened Base
  import opened Dmabuf
  import opened HostTask
  import Transport
  import M = Messages

  const MAX_TASK_OBJECTS := 4096
  const MAX_TRACKED := 64

  datatype EndpointError =
    | TaskLimit
    | DuplicateIdentity
    | UnknownObject(oid: u64)
    | UnknownPending(frame: u64)
    | Ipc
    | Syncobj
    | State(error: TaskStateError)

  datatype Entry = Entry(
    task: Option<u64>,
    display: u64,
    state: Task,
    timelines: bool,
    pending: map<u64, Frame>,
    tracked: set<u64>,
    retiring: bool)
  {
    /** The endpoint's record of accepted frames is the state machine's, tuple for tuple. */
    ghost predicate Agrees() {
      && pending.Keys == state.inFlight.Keys
      && forall f :: f in pending ==>
           pending[f].frame == f && state.inFlight[f] == Pending(pending[f].buffer, pending[f].releasePoint)
    }

    ghost predicate Valid() {
      && state.Valid()
      && Agrees()
      && timelines == state.timelinesBound
      && (retiring ==> pending != map[])
      && |tracked| <= MAX_TRACKED
    }
  }

  type Table = map<u64, Entry>

  ghost predicate Valid(t: Table) {
    && |t| <= MAX_TASK_OBJECTS
    && (forall o :: o in t ==> t[o].state.objectId == o && t[o].Valid())
    && DistinctIdentities(t)
  }

  /** No display and no Android task belongs to two live objects. */
  ghost predicate DistinctIdentities(t: Table) {
    && (forall o, p :: o in t && p in t && t[o].display == t[p].display ==> o == p)
    && (forall o, p :: o in t && p in t && t[o].task.Some? && t[o].task == t[p].task ==> o == p)
  }

  datatype PresentOutcome = Accepted | Superseded | Refused(error: TaskStateError) | FenceFailed | SendFailed

  function NewEntry(oid: u64, display: u64): Entry {
    Entry(None, display, NewTask(oid), false, map[], {}, false)
  }

  /** One `Present` record: accept it, or discard it when its configure was superseded.
      `fence`, `signal` and `send` are the outcomes of the kernel calls on that path. */
  function PresentEntry(e: Entry, to: u64, f: Frame, serial: u32, fence: bool, signal: bool, send: bool)
    : (r: (Entry, PresentOutcome))
  {
    var error := e.state.PresentError(to, f, serial);
    if error.None? then
      var owned := e.(state := e.state.Presented(f));
      if !e.timelines then (owned, Refused(TimelinesUnbound))
      else if !fence then (owned.(state := owned.state.Released(f.frame)), FenceFailed)
      else (owned.(pending := e.pending[f.frame := f]), Accepted)
    else if error.value.StaleConfigure? then
      var refused := e.state.DiscardError(to, f, serial);
      var consumed := e.(state := e.state.Discarded(f));
      if refused.Some? then (e, Refused(refused.value))
      else if !e.timelines then (consumed, Refused(TimelinesUnbound))
      else if !fence || !signal then (consumed, FenceFailed)
      else (consumed, if send then Superseded else SendFailed)
    else (e, Refused(error.value))
  }

  function FinishEntry(e: Entry, frame: u64): Entry
    requires frame in e.pending && frame in e.state.inFlight
  {
    e.(state := e.state.Released(frame), pending := e.pending - {frame})
  }

  lemma AcceptKeepsValid(e: Entry, f: Frame)
    requires e.Valid() && e.state.CanOwn(f)
    ensures e.(state := e.state.Presented(f), pending := e.pending[f.frame := f]).Valid()
  {
    e.state.PresentedKeepsValid(f);
    hide Task.Valid;
  }

  lemma DiscardKeepsValid(e: Entry, f: Frame)
    requires e.Valid() && e.state.lastRelease < f.releasePoint
    ensures e.(state := e.state.Discarded(f)).Valid()
  {
  }

  lemma PresentKeepsValid(e: Entry, to: u64, f: Frame, serial: u32, fence: bool, signal: bool, send: bool)
    requires e.Valid()
    ensures var r := PresentEntry(e, to, f, serial, fence, signal, send); r.0.Valid()
    ensures var r := PresentEntry(e, to, f, serial, fence, signal, send);
            r.1 != Accepted ==> r.0.pending == e.pending && r.0.state.inFlight == e.state.inFlight && r.0.state.busy == e.state.busy
  {
    if e.state.PresentError(to, f, serial).None? {
      e.state.AcceptedFrameIsNew(to, f, serial);
      hide Task.PresentError;
      AcceptKeepsValid(e, f);
      DiscardKeepsValid(e, f);
      e.state.PresentThenRelease(f);
      assert e.timelines;
      hide Entry.Valid;
    } else if e.state.DiscardError(to, f, serial).None? {
      DiscardKeepsValid(e, f);
      hide Entry.Valid;
    }
  }

  lemma FinishKeepsValid(e: Entry, frame: u64)
    requires e.Valid() && frame in e.pending
    ensures var r := FinishEntry(e, frame); !e.retiring || r.pending != map[] ==> r.Valid()
    ensures e.state.ReleaseError(frame, e.pending[frame].buffer, e.pending[frame].releasePoint).None?
  {
    e.state.ReleasedKeepsValid(frame);
  }

  /** What the compositor, the socket and the kernel can make the endpoint do. */
  datatype Action =
    | Create(oid: u64, display: u64)
    | BindTask(oid: u64, task: u64)
    | Destroy(oid: u64)
    | BindTimelines(oid: u64, imported: bool)
    | Ack(oid: u64, serial: u32)
    | RegisterBuffer(oid: u64, buffer: Buffer)
    | UnregisterBuffer(oid: u64, bufferId: u64)
    | Present(oid: u64, frame: Frame, serial: u32, fence: bool, signal: bool, send: bool)
    | SendFeedback(oid: u64, generation: u32, formats: seq<Format>, send: bool)
    | SendConfigure(oid: u64, configure: Transport.Configure, send: bool)
    | Lend(oid: u64, serial: u32, buffer: Buffer, send: bool)
    | Revoke(oid: u64, bufferId: u64, send: bool)
    | FinishRelease(oid: u64, frameId: u64, send: bool)
    | DiscardFrame(oid: u64, frameId: u64, send: bool)
    | Track(oid: u64, frameId: u64)
    | Forget(oid: u64, frameId: u64)
    | SendPresented(oid: u64, frameId: u64, send: bool)
    | SendNotice(oid: u64, send: bool)

  datatype Effect = Effect(table: Table, error: Option<EndpointError>, record: Option<M.HostMsg>)

  function Fail(t: Table, error: EndpointError): Effect { Effect(t, Some(error), None) }

  /** A record that leaves once the table has changed: a failed send reports an error
      but keeps the change. */
  function Sent(t: Table, record: M.HostMsg, send: bool): Effect {
    if send then Effect(t, None, Some(record)) else Fail(t, Ipc)
  }

  function Put(t: Table, o: u64, e: Entry): Effect { Effect(t[o := e], None, None) }

  function DoCreate(t: Table, o: u64, display: u64): Effect {
    if |t| >= MAX_TASK_OBJECTS then Fail(t, TaskLimit)
    else if o in t || exists p :: p in t && t[p].display == display then Fail(t, DuplicateIdentity)
    else if o == 0 then Fail(t, State(Wire(ZeroObject)))
    else Put(t, o, NewEntry(o, display))
  }

  function DoBindTask(t: Table, o: u64, task: u64): Effect {
    if exists p :: p in t && t[p].task == Some(task) then Fail(t, DuplicateIdentity)
    else if o !in t then Fail(t, UnknownObject(o))
    else if t[o].task.Some? then Fail(t, DuplicateIdentity)
    else Put(t, o, t[o].(task := Some(task)))
  }

  function DoDestroy(t: Table, o: u64): Effect {
    if o !in t then Fail(t, UnknownObject(o))
    else if t[o].state.inFlight == map[] then Effect(t - {o}, None, None)
    else Put(t, o, t[o].(retiring := true))
  }

  function DoBindTimelines(t: Table, o: u64, imported: bool): Effect {
    if !imported then Fail(t, Syncobj)
    else if o !in t then Fail(t, UnknownObject(o))
    else if t[o].state.timelinesBound then Fail(t, State(TimelinesAlreadyBound))
    else Put(t, o, t[o].(state := t[o].state.(timelinesBound := true), timelines := true))
  }

  function DoAck(t: Table, o: u64, serial: u32): Effect {
    if o !in t then Fail(t, UnknownObject(o))
    else if t[o].state.AckError(serial).Some? then Fail(t, State(t[o].state.AckError(serial).value))
    else Put(t, o, t[o].(state := t[o].state.Acknowledged(serial)))
  }

  function DoRegister(t: Table, o: u64, b: Buffer): Effect {
    if o !in t then Fail(t, UnknownObject(o))
    else if t[o].state.RegisterError(b).Some? then Fail(t, State(t[o].state.RegisterError(b).value))
    else Put(t, o, t[o].(state := t[o].state.Registered(b)))
  }

  function DoUnregister(t: Table, o: u64, b: u64): Effect {
    if o !in t then Fail(t, UnknownObject(o))
    else if t[o].state.UnregisterError(b).Some? then Fail(t, State(t[o].state.UnregisterError(b).value))
    else Put(t, o, t[o].(state := t[o].state.Unregistered(b)))
  }

  function DoPresent(t: Table, o: u64, f: Frame, serial: u32, fence: bool, signal: bool, send: bool): Effect {
    if o !in t then Fail(t, UnknownObject(o))
    else
      var (after, outcome) := PresentEntry(t[o], o, f, serial, fence, signal, send);
      var next := t[o := after];
      match outcome
      case Accepted => Effect(next, None, None)
      case Superseded => Effect(next, None, Some(M.BufferReleased(o, f.frame, f.buffer, f.releasePoint)))
      case Refused(error) => Fail(next, State(error))
      case FenceFailed => Fail(next, Syncobj)
      case SendFailed => Fail(next, Ipc)
  }

  function DoFeedback(t: Table, o: u64, generation: u32, formats: seq<Format>, send: bool): Effect {
    var collected := set f | f in formats;
    if o !in t then Fail(t, UnknownObject(o))
    else if t[o].state.FeedbackError(generation, collected).Some?
      then Fail(t, State(t[o].state.FeedbackError(generation, collected).value))
    else Sent(t[o := t[o].(state := t[o].state.(feedbackGeneration := generation, feedback := collected))],
              M.FormatFeedback(o, generation, formats), send)
  }

  function DoConfigure(t: Table, o: u64, c: Transport.Configure, send: bool): Effect {
    if o !in t then Fail(t, UnknownObject(o))
    else if !ConfigureBounds(c.serial, c.width, c.height, c.refreshMillihz) then Fail(t, State(Wire(BadConfigure)))
    else Sent(t[o := t[o].(state := t[o].state.Configured(c.serial, c.width, c.height))], M.Configure(o, c), send)
  }

  /** Unlike a configure, a target that could not be lent is withdrawn again. */
  function DoLend(t: Table, o: u64, serial: u32, b: Buffer, send: bool): Effect {
    var registered := DoRegister(t, o, b);
    if registered.error.Some? then registered
    else if !send then Fail(t, Ipc)
    else registered.(record := Some(M.RegisterRenderTarget(o, serial, b)))
  }

  /** A target whose revocation could not be sent stays registered. */
  function DoRevoke(t: Table, o: u64, b: u64, send: bool): Effect {
    var unregistered := DoUnregister(t, o, b);
    if unregistered.error.Some? then unregistered
    else if !send then Fail(t, Ipc)
    else unregistered.(record := Some(M.UnregisterRenderTarget(o, b)))
  }

  /** Terminal releases of a retiring task are consumed locally instead of sent. */
  function DoFinish(t: Table, o: u64, f: u64, send: bool): Effect {
    if o !in t then Fail(t, UnknownObject(o))
    else if f !in t[o].pending then Fail(t, UnknownPending(f))
    else
      var e, p := t[o], t[o].pending[f];
      var refused := e.state.ReleaseError(f, p.buffer, p.releasePoint);
      if refused.Some? then Fail(t, State(refused.value))
      else
        var after := FinishEntry(e, f);
        var next := if e.retiring && after.state.inFlight == map[] then t - {o} else t[o := after];
        if e.retiring then Effect(next, None, None)
        else Sent(next, M.BufferReleased(o, f, p.buffer, p.releasePoint), send)
  }

  function DoDiscard(t: Table, o: u64, f: u64, send: bool): Effect {
    if o in t && f in t[o].pending && !t[o].timelines then Fail(t, State(TimelinesUnbound)) else DoFinish(t, o, f, send)
  }

  function DoTrack(t: Table, o: u64, f: u64): Effect {
    if o !in t then Fail(t, UnknownObject(o))
    else if f !in t[o].pending then Fail(t, UnknownPending(f))
    else if |t[o].tracked| >= MAX_TRACKED then Effect(t, None, None)
    else Put(t, o, t[o].(tracked := t[o].tracked + {f}))
  }

  function DoForget(t: Table, o: u64, f: u64): Effect {
    if o in t then Put(t, o, t[o].(tracked := t[o].tracked - {f})) else Effect(t, None, None)
  }

  function DoPresented(t: Table, o: u64, f: u64, send: bool): Effect {
    if o !in t then Fail(t, UnknownObject(o))
    else
      var next := t[o := t[o].(tracked := t[o].tracked - {f})];
      if f !in t[o].tracked && f !in t[o].pending then Fail(next, UnknownPending(f))
      else if t[o].retiring then Effect(next, None, None)
      else Sent(next, M.Presented(o, f), send)
  }

  function DoNotice(t: Table, o: u64, send: bool): Effect {
    if o in t then Sent(t, M.Notice(o), send) else Fail(t, UnknownObject(o))
  }

  function Apply(t: Table, a: Action): Effect {
    match a
    case Create(o, display) => DoCreate(t, o, display)
    case BindTask(o, task) => DoBindTask(t, o, task)
    case Destroy(o) => DoDestroy(t, o)
    case BindTimelines(o, imported) => DoBindTimelines(t, o, imported)
    case Ack(o, serial) => DoAck(t, o, serial)
    case RegisterBuffer(o, b) => DoRegister(t, o, b)
    case UnregisterBuffer(o, b) => DoUnregister(t, o, b)
    case Present(o, f, serial, fence, signal, send) => DoPresent(t, o, f, serial, fence, signal, send)
    case SendFeedback(o, generation, formats, send) => DoFeedback(t, o, generation, formats, send)
    case SendConfigure(o, c, send) => DoConfigure(t, o, c, send)
    case Lend(o, serial, b, send) => DoLend(t, o, serial, b, send)
    case Revoke(o, b, send) => DoRevoke(t, o, b, send)
    case FinishRelease(o, f, send) => DoFinish(t, o, f, send)
    case DiscardFrame(o, f, send) => DoDiscard(t, o, f, send)
    case Track(o, f) => DoTrack(t, o, f)
    case Forget(o, f) => DoForget(t, o, f)
    case SendPresented(o, f, send) => DoPresented(t, o, f, send)
    case SendNotice(o, send) => DoNotice(t, o, send)
  }

  lemma UpdateKeepsIdentities(t: Table, o: u64, e: Entry)
    requires DistinctIdentities(t) && o in t && e.display == t[o].display
    requires e.task == t[o].task || (e.task.Some? && forall p :: p in t ==> t[p].task != e.task)
    ensures DistinctIdentities(t[o := e])
  {
  }

  lemma UpdateKeepsValid(t: Table, o: u64, e: Entry)
    requires Valid(t) && o in t && e.Valid() && e.state.objectId == o && e.display == t[o].display
    requires e.task == t[o].task || (e.task.Some? && forall p :: p in t ==> t[p].task != e.task)
    ensures Valid(t[o := e])
  {
    hide Entry.Valid, DistinctIdentities;
    UpdateKeepsIdentities(t, o, e);
    assert t[o := e].Keys == t.Keys;
  }

  lemma RemoveKeepsValid(t: Table, o: u64)
    requires Valid(t) && o in t
    ensures Valid(t - {o})
  {
    assert (t - {o}).Keys == t.Keys - {o};
  }

  lemma FinishActionKeepsValid(t: Table, o: u64, f: u64, send: bool)
    requires Valid(t)
    ensures Valid(DoFinish(t, o, f, send).table)
  {
    if o in t && f in t[o].pending {
      var e := t[o];
      FinishKeepsValid(e, f);
      if e.retiring && FinishEntry(e, f).state.inFlight == map[] {
        RemoveKeepsValid(t, o);
      } else {
        assert FinishEntry(e, f).pending.Keys == FinishEntry(e, f).state.inFlight.Keys;
        UpdateKeepsValid(t, o, FinishEntry(e, f));
      }
      hide Valid, Entry.Valid;
    }
  }

  lemma NewEntryIsValid(o: u64, display: u64)
    requires o != 0
    ensures NewEntry(o, display).Valid()
  {
  }

  lemma InsertKeepsIdentities(t: Table, o: u64, e: Entry)
    requires DistinctIdentities(t) && o !in t && e.task.None?
    requires forall p :: p in t ==> t[p].display != e.display
    ensures DistinctIdentities(t[o := e])
  {
    var next := t[o := e];
    forall p, q | p in next && q in next && next[p].display == next[q].display ensures p == q {
      assert p == o || next[p] == t[p];
      assert q == o || next[q] == t[q];
    }
  }

  lemma InsertKeepsValid(t: Table, o: u64, e: Entry)
    requires Valid(t) && o !in t && |t| < MAX_TASK_OBJECTS
    requires e.Valid() && e.state.objectId == o && e.task.None?
    requires forall p :: p in t ==> t[p].display != e.display
    ensures Valid(t[o := e])
  {
    hide Entry.Valid, DistinctIdentities;
    InsertKeepsIdentities(t, o, e);
    assert t[o := e].Keys == t.Keys + {o};
  }

  lemma CreateKeepsValid(t: Table, o: u64, display: u64)
    requires Valid(t)
    ensures Valid(DoCreate(t, o, display).table)
  {
    hide Entry.Valid, Valid;
    if DoCreate(t, o, display).error.None? {
      NewEntryIsValid(o, display);
      InsertKeepsValid(t, o, NewEntry(o, display));
    }
  }

  /** An entry whose state machine moved without touching ownership or timelines. */
  lemma StateStepIsValid(e: Entry, s: Task)
    requires e.Valid() && s.Valid()
    requires s.inFlight == e.state.inFlight && s.timelinesBound == e.state.timelinesBound
    ensures e.(state := s).Valid()
  {
    hide Task.Valid;
  }

  lemma StateStepKeepsValid(t: Table, o: u64, s: Task)
    requires Valid(t) && o in t && s.Valid() && s.objectId == o
    requires s.inFlight == t[o].state.inFlight && s.timelinesBound == t[o].state.timelinesBound
    ensures Valid(t[o := t[o].(state := s)])
  {
    hide Entry.Valid;
    StateStepIsValid(t[o], s);
    UpdateKeepsValid(t, o, t[o].(state := s));
  }

  lemma EntryStepsAreValid(e: Entry, tracked: set<u64>)
    requires e.Valid() && |tracked| <= MAX_TRACKED
    ensures e.(tracked := tracked).Valid()
    ensures e.(state := e.state.(timelinesBound := true), timelines := true).Valid()
    ensures forall task :: e.(task := task).Valid()
    ensures e.state.inFlight != map[] ==> e.(retiring := true).Valid()
  {
    e.state.BindingKeepsValid();
    hide Task.Valid;
  }

  lemma BindTimelinesKeepsValid(t: Table, o: u64)
    requires Valid(t) && o in t
    ensures Valid(t[o := t[o].(state := t[o].state.(timelinesBound := true), timelines := true)])
  {
    hide Entry.Valid;
    EntryStepsAreValid(t[o], {});
    UpdateKeepsValid(t, o, t[o].(state := t[o].state.(timelinesBound := true), timelines := true));
  }

  lemma TrackKeepsValid(t: Table, o: u64, tracked: set<u64>)
    requires Valid(t) && o in t && |tracked| <= MAX_TRACKED
    ensures Valid(t[o := t[o].(tracked := tracked)])
  {
    hide Entry.Valid;
    EntryStepsAreValid(t[o], tracked);
    UpdateKeepsValid(t, o, t[o].(tracked := tracked));
  }

  lemma TrackedShrinks(e: Entry, f: u64)
    requires e.Valid()
    ensures |e.tracked - {f}| <= MAX_TRACKED
  {
    assert f in e.tracked ==> e.tracked == e.tracked - {f} + {f};
    assert f !in e.tracked ==> e.tracked == e.tracked - {f};
    hide Task.Valid;
  }

  lemma UntrackKeepsValid(t: Table, o: u64, f: u64)
    requires Valid(t) && o in t
    ensures Valid(t[o := t[o].(tracked := t[o].tracked - {f})])
  {
    hide Entry.Valid;
    TrackedShrinks(t[o], f);
    TrackKeepsValid(t, o, t[o].tracked - {f});
  }

  lemma EntryStateIsValid(t: Table, o: u64)
    requires Valid(t) && o in t
    ensures t[o].Valid() && t[o].state.Valid() && t[o].state.objectId == o
  {
  }

  lemma BuffersKeepValid(t: Table, o: u64, b: Buffer, id: u64)
    requires Valid(t)
    ensures Valid(DoRegister(t, o, b).table)
    ensures Valid(DoUnregister(t, o, id).table)
  {
    hide Valid, Task.Valid;
    if o in t {
      var s := t[o].state;
      EntryStateIsValid(t, o);
      if s.RegisterError(b).None? {
        s.RegisteredKeepsValid(b);
        StateStepKeepsValid(t, o, s.Registered(b));
      }
      if s.UnregisterError(id).None? {
        s.UnregisteredKeepsValid(id);
        StateStepKeepsValid(t, o, s.Unregistered(id));
      }
    }
  }

  lemma AckKeepsValid(t: Table, o: u64, serial: u32)
    requires Valid(t)
    ensures Valid(DoAck(t, o, serial).table)
  {
    hide Valid, Task.Valid;
    if o in t && t[o].state.AckError(serial).None? {
      EntryStateIsValid(t, o);
      t[o].state.AckKeepsValid(serial);
      StateStepKeepsValid(t, o, t[o].state.Acknowledged(serial));
    }
  }

  lemma PublishKeepsValid(t: Table, o: u64, generation: u32, formats: seq<Format>, c: Transport.Configure, send: bool)
    requires Valid(t)
    ensures Valid(DoFeedback(t, o, generation, formats, send).table)
    ensures Valid(DoConfigure(t, o, c, send).table)
  {
    hide Valid, Task.Valid;
    if o in t {
      var s, collected := t[o].state, set f | f in formats;
      EntryStateIsValid(t, o);
      s.PublishingKeepsValid(generation, collected, c.serial, c.width, c.height);
      StateStepKeepsValid(t, o, s.(feedbackGeneration := generation, feedback := collected));
      StateStepKeepsValid(t, o, s.Configured(c.serial, c.width, c.height));
    }
  }

  lemma PresentActionKeepsValid(t: Table, o: u64, f: Frame, serial: u32, fence: bool, signal: bool, send: bool)
    requires Valid(t)
    ensures Valid(DoPresent(t, o, f, serial, fence, signal, send).table)
  {
    hide Entry.Valid, Valid, Task.PresentError, Task.DiscardError;
    if o in t {
      EntryStateIsValid(t, o);
      PresentKeepsValid(t[o], o, f, serial, fence, signal, send);
      var after := PresentEntry(t[o], o, f, serial, fence, signal, send).0;
      assert after.display == t[o].display && after.task == t[o].task && after.state.objectId == o;
      UpdateKeepsValid(t, o, after);
    }
  }

  lemma DestroyKeepsValid(t: Table, o: u64)
    requires Valid(t)
    ensures Valid(DoDestroy(t, o).table)
  {
    hide Entry.Valid;
    if o in t {
      EntryStepsAreValid(t[o], {});
      if t[o].state.inFlight == map[] {
        RemoveKeepsValid(t, o);
      } else {
        UpdateKeepsValid(t, o, t[o].(retiring := true));
      }
    }
  }

  lemma BindTaskKeepsValid(t: Table, o: u64, task: u64)
    requires Valid(t)
    ensures Valid(DoBindTask(t, o, task).table)
  {
    hide Entry.Valid;
    if DoBindTask(t, o, task).error.None? {
      EntryStepsAreValid(t[o], {});
      UpdateKeepsValid(t, o, t[o].(task := Some(task)));
    }
  }

  lemma ApplyKeepsValid(t: Table, a: Action)
    requires Valid(t)
    ensures Valid(Apply(t, a).table)
  {
    hide Valid;
    match a
    case Create(o, display) => CreateKeepsValid(t, o, display);
    case BindTask(o, task) => BindTaskKeepsValid(t, o, task);
    case Destroy(o) => DestroyKeepsValid(t, o);
    case BindTimelines(o, _) => if o in t { BindTimelinesKeepsValid(t, o); }
    case Ack(o, serial) => AckKeepsValid(t, o, serial);
    case RegisterBuffer(o, b) => BuffersKeepValid(t, o, b, 0);
    case Lend(o, _, b, _) => BuffersKeepValid(t, o, b, 0);
    case UnregisterBuffer(o, id) => BuffersKeepValid(t, o, Buffer(0, 0, 0, Format(0, 0), []), id);
    case Revoke(o, id, _) => BuffersKeepValid(t, o, Buffer(0, 0, 0, Format(0, 0), []), id);
    case Present(o, f, serial, fence, signal, send) => PresentActionKeepsValid(t, o, f, serial, fence, signal, send);
    case SendFeedback(o, generation, formats, send) =>
      PublishKeepsValid(t, o, generation, formats, Transport.Configure(0, 0, 0, 0), send);
    case SendConfigure(o, c, send) => PublishKeepsValid(t, o, 0, [], c, send);
    case FinishRelease(o, f, send) => FinishActionKeepsValid(t, o, f, send);
    case DiscardFrame(o, f, send) => FinishActionKeepsValid(t, o, f, send);
    case Track(o, f) =>
      if o in t && |t[o].tracked| < MAX_TRACKED { TrackKeepsValid(t, o, t[o].tracked + {f}); }
    case Forget(o, f) => if o in t { UntrackKeepsValid(t, o, f); }
    case SendPresented(o, f, _) => if o in t { UntrackKeepsValid(t, o, f); }
    case SendNotice(_, _) =>
  }

  function Run(actions: seq<Action>): Table
    decreases |actions|
  {
    if actions == [] then map[]
    else Apply(Run(actions[..|actions| - 1]), actions[|actions| - 1]).table
  }

  /** Over every sequence of actions, whatever sends and fence exports fail on the way:
      busy buffers are exactly those of the in-flight frames, one frame each, and all
      registered; the endpoint's pending frames agree with the state machine's; timelines
      are held exactly when bound; and a retiring object has frames in flight. */
  lemma {:induction false} EveryRunIsValid(actions: seq<Action>)
    ensures Valid(Run(actions))
    decreases |actions|
  {
    if actions != [] {
      EveryRunIsValid(actions[..|actions| - 1]);
      ApplyKeepsValid(Run(actions[..|actions| - 1]), actions[|actions| - 1]);
    }
  }

  /** An action never changes another task object. */
  lemma OtherObjectsUntouched(t: Table, a: Action, other: u64)
    requires other != a.oid
    ensures other in Apply(t, a).table <==> other in t
    ensures other in t ==> Apply(t, a).table[other] == t[other]
  {
    hide Task.PresentError, Task.DiscardError, PresentEntry;
  }

  // ------------------------------------------------------------------------------------
  // How long a destroyed object stays

  /** The action releases the only frame the object still has. */
  predicate LastRelease(t: Table, a: Action, o: u64) {
    o in t && (a.FinishRelease? || a.DiscardFrame?) && a.oid == o && t[o].pending.Keys == {a.frameId}
  }

  lemma FinishDrops(t: Table, o: u64, f: u64, send: bool)
    requires o in t && t[o].Valid() && t[o].retiring
    ensures var next := DoFinish(t, o, f, send).table;
      (o in next <==> t[o].pending.Keys != {f}) && (o in next ==> next[o].retiring)
  {
    var e := t[o];
    if f in e.pending {
      FinishKeepsValid(e, f);
      assert FinishEntry(e, f).state.inFlight.Keys == e.pending.Keys - {f};
      assert e.pending.Keys - {f} == {} <==> e.pending.Keys == {f};
    }
    hide Task.Valid, Task.ReleaseError;
  }

  /** Frames in flight mean bound timelines, so a discard of one is never refused. */
  lemma PendingIsBound(e: Entry)
    requires e.Valid() && e.pending != map[]
    ensures e.timelines
  {
    var f :| f in e.pending;
    assert f in e.state.inFlight;
  }

  lemma RetiringStep(t: Table, a: Action, o: u64)
    requires Valid(t) && o in t && t[o].retiring
    ensures var next := Apply(t, a).table;
      (o in next <==> !LastRelease(t, a, o)) && (o in next ==> next[o].retiring)
  {
    hide Apply, Entry.Valid;
    assert t[o].Valid();
    if a.oid != o {
      OtherObjectsUntouched(t, a, o);
    } else if a.FinishRelease? || a.DiscardFrame? {
      ReleaseDrops(t, a);
    } else {
      RetiringIsBusy(t[o]);
      OthersKeepRetiring(t, a);
    }
  }

  lemma ReleaseDrops(t: Table, a: Action)
    requires a.oid in t && t[a.oid].Valid() && t[a.oid].retiring && (a.FinishRelease? || a.DiscardFrame?)
    ensures var next := Apply(t, a).table;
      (a.oid in next <==> !LastRelease(t, a, a.oid)) && (a.oid in next ==> next[a.oid].retiring)
  {
    FinishDrops(t, a.oid, a.frameId, a.send);
    PendingIsBound(t[a.oid]);
    hide DoFinish, Entry.Valid;
  }

  lemma RetiringIsBusy(e: Entry)
    requires e.Valid() && e.retiring
    ensures e.state.inFlight != map[]
  {
    hide Task.Valid;
    assert e.pending.Keys == e.state.inFlight.Keys;
  }

  lemma OthersKeepRetiring(t: Table, a: Action)
    requires a.oid in t && t[a.oid].retiring && t[a.oid].state.inFlight != map[] && !a.FinishRelease? && !a.DiscardFrame?
    ensures var next := Apply(t, a).table; a.oid in next && next[a.oid].retiring
  {
    hide Task.PresentError, Task.DiscardError, Task.AckError, Task.RegisterError, Task.UnregisterError, Task.FeedbackError;
  }

  /** The object is in the table after each of the actions from `i` to before `j`. */
  ghost predicate Stays(actions: seq<Action>, o: u64, i: nat, j: nat)
    requires j <= |actions|
  {
    forall k :: i < k <= j ==> o in Run(actions[..k])
  }

  /** Over every run a destroyed object stays exactly until its last frame is released: it is
      there as long as it had a frame when it was destroyed and no later action released the
      only frame it had left. */
  lemma {:induction false} DestroyedStaysExactly(actions: seq<Action>, o: u64, i: nat, j: nat)
    requires i < j <= |actions| && actions[i] == Destroy(o) && o in Run(actions[..i])
    ensures Stays(actions, o, i, j) <==>
              Run(actions[..i])[o].pending != map[] && forall k :: i < k < j ==> !LastRelease(Run(actions[..k]), actions[k], o)
    ensures Stays(actions, o, i, j) ==> Run(actions[..j])[o].retiring
    decreases j
  {
    hide LastRelease, Valid, Run, Apply;
    RunStep(actions, j - 1);
    EveryRunIsValid(actions[..j - 1]);
    if j == i + 1 {
      DestroyKeepsBusy(Run(actions[..i]), o);
    } else {
      DestroyedStaysExactly(actions, o, i, j - 1);
      assert Stays(actions, o, i, j) <==> Stays(actions, o, i, j - 1) && o in Run(actions[..j]);
      if Stays(actions, o, i, j - 1) { RetiringStep(Run(actions[..j - 1]), actions[j - 1], o); }
    }
  }

  lemma DestroyKeepsBusy(t: Table, o: u64)
    requires Valid(t) && o in t
    ensures var next := Apply(t, Destroy(o)).table; (o in next <==> t[o].pending != map[]) && (o in next ==> next[o].retiring)
  {
    assert t[o].Valid();
    assert t[o].pending.Keys == t[o].state.inFlight.Keys;
    hide Valid, Task.Valid;
  }

  lemma RunStep(actions: seq<Action>, k: nat)
    requires k < |actions|
    ensures Run(actions[..k + 1]) == Apply(Run(actions[..k]), actions[k]).table
  {
    assert actions[..k + 1][..k] == actions[..k];
  }

  // ------------------------------------------------------------------------------------
  // Sends, bindings and timing

  /** Feedback, configures, releases and timing stand whether or not their record could be
      sent; a target that could not be lent or revoked is as if nothing had been tried. */
  lemma FailedSends(t: Table, a: Action)
    ensures a.SendFeedback? || a.SendConfigure? || a.FinishRelease? || a.DiscardFrame? || a.SendPresented? ==>
              Apply(t, a.(send := false)).table == Apply(t, a.(send := true)).table
    ensures (a.Lend? || a.Revoke?) && Apply(t, a).error.Some? ==> Apply(t, a).table == t
  {
    hide Task.ReleaseError, Task.FeedbackError, Task.RegisterError, Task.UnregisterError;
  }

  /** Timelines are bound once, and only if the kernel imported them. */
  lemma TimelinesBindOnce(t: Table, o: u64, imported: bool)
    requires o in t && t[o].Valid()
    ensures DoBindTimelines(t, o, imported).error.None? <==> imported && !t[o].timelines
    ensures var next := DoBindTimelines(t, o, imported); next.error.None? ==> next.table[o].timelines && DoBindTimelines(next.table, o, true).error.Some?
  {
    hide Task.Valid;
  }

  /** Nothing is told about the frames of a retiring task: no release and no timing leaves. */
  lemma RetiringIsSilent(t: Table, a: Action)
    requires a.oid in t && t[a.oid].retiring && (a.FinishRelease? || a.DiscardFrame? || a.SendPresented?)
    ensures Apply(t, a).record.None?
  {
    hide Task.ReleaseError;
  }

  /** What a live task is told is exactly what was done: the record carries the action. */
  lemma RecordsSayWhatWasDone(t: Table, a: Action)
    requires a.oid in t && !t[a.oid].retiring && Apply(t, a).error.None?
    ensures var r := Apply(t, a).record;
      match a
      case SendFeedback(o, generation, formats, _) => r == Some(M.FormatFeedback(o, generation, formats))
      case SendConfigure(o, c, _) => r == Some(M.Configure(o, c))
      case Lend(o, serial, b, _) => r == Some(M.RegisterRenderTarget(o, serial, b))
      case Revoke(o, b, _) => r == Some(M.UnregisterRenderTarget(o, b))
      case FinishRelease(o, f, _) => f in t[o].pending && r == Some(M.BufferReleased(o, f, t[o].pending[f].buffer, t[o].pending[f].releasePoint))
      case DiscardFrame(o, f, _) => f in t[o].pending && r == Some(M.BufferReleased(o, f, t[o].pending[f].buffer, t[o].pending[f].releasePoint))
      case SendPresented(o, f, _) => r == Some(M.Presented(o, f))
      case SendNotice(o, _) => r == Some(M.Notice(o))
      case Present(o, f, serial, _, _, _) =>
        r == if t[o].state.PresentError(o, f, serial).None? then None else Some(M.BufferReleased(o, f.frame, f.buffer, f.releasePoint))
      case _ => r.None?
  {
    hide Task.PresentError, Task.DiscardError, Task.ReleaseError, Task.RegisterError, Task.UnregisterError, Task.FeedbackError, Task.AckError;
  }

  /** A task identity binds for good: neither the object nor the task can be bound again. */
  lemma BindingIsFinal(t: Table, o: u64, task: u64, p: u64, other: u64)
    requires DoBindTask(t, o, task).error.None?
    ensures var next := DoBindTask(t, o, task).table;
      && next[o].task == Some(task)
      && DoBindTask(next, o, other).error == Some(DuplicateIdentity)
      && DoBindTask(next, p, task).error == Some(DuplicateIdentity)
  {
    var next := DoBindTask(t, o, task).table;
    assert o in next && next[o].task == Some(task);
  }

  /** Timing can be reported once after the frame's release, exactly if it was tracked before
      and not forgotten since. */
  lemma TimingAfterRelease(t: Table, o: u64, f: u64)
    requires o in t && t[o].Valid() && !t[o].retiring && f in t[o].pending && f !in t[o].tracked
    ensures var released := DoFinish(t, o, f, true).table; DoPresented(released, o, f, true).error == Some(UnknownPending(f))
    ensures var released := DoFinish(DoTrack(t, o, f).table, o, f, true).table;
      |t[o].tracked| < MAX_TRACKED ==>
        && DoPresented(released, o, f, true).error.None? && DoPresented(released, o, f, true).record == Some(M.Presented(o, f))
        && DoPresented(DoPresented(released, o, f, true).table, o, f, true).error == Some(UnknownPending(f))
        && DoPresented(DoForget(released, o, f).table, o, f, true).error == Some(UnknownPending(f))
  {
    FinishKeepsValid(t[o], f);
    hide Entry.Valid, Task.ReleaseError, Task.Released;
  }

  function Records(record: Option<M.HostMsg>): seq<M.HostMsg> {
    if record.Some? then [record.value] else []
  }

  /** The connection as the source keeps it: one table updated in place. `wire` is every
      record handed to the socket so far; the `send`, `fence`, `signal` and `imported`
      parameters are what the socket and the sync-object device answer. */
  class DenialEndpoint {
    var tasks: Table
    var wire: seq<M.HostMsg>

    constructor ()
      ensures tasks == map[] && wire == [] && Valid(tasks)
    {
      tasks, wire := map[], [];
    }

    method CreateTask(o: u64, display: u64) returns (error: Option<EndpointError>)
      requires Valid(tasks)
      modifies this`tasks
      ensures Valid(tasks)
      ensures var x := DoCreate(old(tasks), o, display); tasks == x.table && error == x.error
    {
      hide Valid, Entry.Valid, Task.Valid;
      CreateKeepsValid(tasks, o, display);
      if |tasks| >= MAX_TASK_OBJECTS {
        return Some(TaskLimit);
      }
      if o in tasks || exists p :: p in tasks && tasks[p].display == display {
        return Some(DuplicateIdentity);
      }
      if o == 0 {
        return Some(State(Wire(ZeroObject)));
      }
      tasks := tasks[o := NewEntry(o, display)];
      return None;
    }

    method BindTaskIdentity(o: u64, task: u64) returns (error: Option<EndpointError>)
      requires Valid(tasks)
      modifies this`tasks
      ensures Valid(tasks)
      ensures var x := DoBindTask(old(tasks), o, task); tasks == x.table && error == x.error
    {
      hide Valid, Entry.Valid, Task.Valid;
      BindTaskKeepsValid(tasks, o, task);
      if exists p :: p in tasks && tasks[p].task == Some(task) {
        return Some(DuplicateIdentity);
      }
      if o !in tasks {
        return Some(UnknownObject(o));
      }
      if tasks[o].task.Some? {
        return Some(DuplicateIdentity);
      }
      tasks := tasks[o := tasks[o].(task := Some(task))];
      return None;
    }

    method DestroyTask(o: u64) returns (error: Option<EndpointError>)
      requires Valid(tasks)
      modifies this`tasks
      ensures Valid(tasks)
      ensures var x := DoDestroy(old(tasks), o); tasks == x.table && error == x.error
    {
      hide Valid, Entry.Valid, Task.Valid;
      DestroyKeepsValid(tasks, o);
      if o !in tasks {
        return Some(UnknownObject(o));
      }
      tasks := tasks[o := tasks[o].(retiring := true)];
      if tasks[o].state.inFlight == map[] {
        tasks := tasks - {o};
        assert tasks == old(tasks) - {o};
      }
      return None;
    }

    method BindTaskTimelines(o: u64, imported: bool) returns (error: Option<EndpointError>)
      requires Valid(tasks)
      modifies this`tasks
      ensures Valid(tasks)
      ensures var x := DoBindTimelines(old(tasks), o, imported); tasks == x.table && error == x.error
    {
      hide Valid, Entry.Valid, Task.Valid;
      if !imported {
        return Some(Syncobj);
      }
      if o !in tasks {
        return Some(UnknownObject(o));
      }
      BindTimelinesKeepsValid(tasks, o);
      if tasks[o].state.timelinesBound {
        return Some(State(TimelinesAlreadyBound));
      }
      tasks := tasks[o := tasks[o].(state := tasks[o].state.(timelinesBound := true), timelines := true)];
      return None;
    }

    method AcknowledgeConfigure(o: u64, serial: u32) returns (error: Option<EndpointError>)
      requires Valid(tasks)
      modifies this`tasks
      ensures Valid(tasks)
      ensures var x := DoAck(old(tasks), o, serial); tasks == x.table && error == x.error
    {
      hide Valid, Entry.Valid, Task.Valid;
      AckKeepsValid(tasks, o, serial);
      if o !in tasks {
        return Some(UnknownObject(o));
      }
      var refused := tasks[o].state.AckError(serial);
      if refused.Some? {
        return Some(State(refused.value));
      }
      tasks := tasks[o := tasks[o].(state := tasks[o].state.Acknowledged(serial))];
      return None;
    }

    method SendConfigureRecord(o: u64, c: Transport.Configure, send: bool) returns (error: Option<EndpointError>)
      requires Valid(tasks)
      modifies this
      ensures Valid(tasks)
      ensures var x := DoConfigure(old(tasks), o, c, send);
              tasks == x.table && error == x.error && wire == old(wire) + Records(x.record)
    {
      hide Valid, Entry.Valid, Task.Valid;
      PublishKeepsValid(tasks, o, 0, [], c, send);
      if o !in tasks {
        return Some(UnknownObject(o));
      }
      if !ConfigureBounds(c.serial, c.width, c.height, c.refreshMillihz) {
        return Some(State(Wire(BadConfigure)));
      }
      tasks := tasks[o := tasks[o].(state := tasks[o].state.Configured(c.serial, c.width, c.height))];
      if !send {
        return Some(Ipc);
      }
      wire := wire + [M.Configure(o, c)];
      return None;
    }

    /** Register first; a failed send withdraws the registration again. */
    method RegisterRenderTarget(o: u64, serial: u32, b: Buffer, send: bool) returns (error: Option<EndpointError>)
      requires Valid(tasks)
      modifies this
      ensures Valid(tasks)
      ensures var x := DoLend(old(tasks), o, serial, b, send);
              tasks == x.table && error == x.error && wire == old(wire) + Records(x.record)
    {
      hide Valid, Entry.Valid, Task.Valid;
      BuffersKeepValid(tasks, o, b, 0);
      if o !in tasks {
        return Some(UnknownObject(o));
      }
      EntryStateIsValid(tasks, o);
      var task := tasks[o];
      var refused := task.state.RegisterError(b);
      if refused.Some? {
        return Some(State(refused.value));
      }
      tasks := tasks[o := task.(state := task.state.Registered(b))];
      if !send {
        task.state.LendRollback(b);
        tasks := tasks[o := tasks[o].(state := tasks[o].state.Unregistered(b.id))];
        assert tasks == old(tasks);
        return Some(Ipc);
      }
      wire := wire + [M.RegisterRenderTarget(o, serial, b)];
      return None;
    }

    /** Unregister first; a failed send restores the registration. */
    method UnregisterRenderTarget(o: u64, id: u64, send: bool) returns (error: Option<EndpointError>)
      requires Valid(tasks)
      modifies this
      ensures Valid(tasks)
      ensures var x := DoRevoke(old(tasks), o, id, send);
              tasks == x.table && error == x.error && wire == old(wire) + Records(x.record)
    {
      hide Valid, Entry.Valid, Task.Valid;
      BuffersKeepValid(tasks, o, Buffer(0, 0, 0, Format(0, 0), []), id);
      if o !in tasks {
        return Some(UnknownObject(o));
      }
      EntryStateIsValid(tasks, o);
      var task := tasks[o];
      var refused := task.state.UnregisterError(id);
      if refused.Some? {
        return Some(State(refused.value));
      }
      var metadata := task.state.buffers[id];
      tasks := tasks[o := task.(state := task.state.Unregistered(id))];
      if !send {
        task.state.RevokeRollback(id);
        tasks := tasks[o := tasks[o].(state := tasks[o].state.Registered(metadata))];
        assert tasks == old(tasks);
        return Some(Ipc);
      }
      wire := wire + [M.UnregisterRenderTarget(o, id)];
      return None;
    }

    method PresentFrame(o: u64, f: Frame, serial: u32, fence: bool, signal: bool, send: bool)
      returns (error: Option<EndpointError>)
      requires Valid(tasks)
      modifies this
      ensures Valid(tasks)
      ensures var x := DoPresent(old(tasks), o, f, serial, fence, signal, send);
              tasks == x.table && error == x.error && wire == old(wire) + Records(x.record)
    {
      hide Valid, Entry.Valid, Task.Valid, Task.PresentError, Task.DiscardError;
      PresentActionKeepsValid(tasks, o, f, serial, fence, signal, send);
      if o !in tasks {
        return Some(UnknownObject(o));
      }
      var task := tasks[o];
      var refused := task.state.PresentError(o, f, serial);
      if refused.Some? && refused.value.StaleConfigure? {
        var hard := task.state.DiscardError(o, f, serial);
        if hard.Some? {
          assert tasks[o := task] == tasks;
          return Some(State(hard.value));
        }
        tasks := tasks[o := task.(state := task.state.Discarded(f))];
        if !task.timelines {
          return Some(State(TimelinesUnbound));
        }
        if !fence || !signal {
          return Some(Syncobj);
        }
        if !send {
          return Some(Ipc);
        }
        wire := wire + [M.BufferReleased(o, f.frame, f.buffer, f.releasePoint)];
        return None;
      }
      if refused.Some? {
        assert tasks[o := task] == tasks;
        return Some(State(refused.value));
      }
      task := task.(state := task.state.Presented(f));
      tasks := tasks[o := task];
      if !task.timelines {
        return Some(State(TimelinesUnbound));
      }
      if !fence {
        tasks := tasks[o := task.(state := task.state.Released(f.frame))];
        assert tasks == old(tasks)[o := tasks[o]];
        return Some(Syncobj);
      }
      tasks := tasks[o := task.(pending := task.pending[f.frame := f])];
      assert tasks == old(tasks)[o := tasks[o]];
      return None;
    }

    method FinishReleaseOf(o: u64, f: u64, send: bool) returns (error: Option<EndpointError>)
      requires Valid(tasks)
      modifies this
      ensures Valid(tasks)
      ensures var x := DoFinish(old(tasks), o, f, send);
              tasks == x.table && error == x.error && wire == old(wire) + Records(x.record)
    {
      hide Valid, Entry.Valid, Task.Valid;
      FinishActionKeepsValid(tasks, o, f, send);
      if o !in tasks {
        return Some(UnknownObject(o));
      }
      var task := tasks[o];
      if f !in task.pending {
        return Some(UnknownPending(f));
      }
      var pending := task.pending[f];
      var refused := task.state.ReleaseError(f, pending.buffer, pending.releasePoint);
      if refused.Some? {
        return Some(State(refused.value));
      }
      task := task.(state := task.state.Released(f), pending := task.pending - {f});
      tasks := tasks[o := task];
      if task.retiring && task.state.inFlight == map[] {
        tasks := tasks - {o};
        assert tasks == old(tasks) - {o};
      }
      if !task.retiring {
        if !send {
          return Some(Ipc);
        }
        wire := wire + [M.BufferReleased(o, f, pending.buffer, pending.releasePoint)];
      }
      return None;
    }

    method SendFormatFeedback(o: u64, generation: u32, formats: seq<Format>, send: bool) returns (error: Option<EndpointError>)
      requires Valid(tasks)
      modifies this
      ensures Valid(tasks)
      ensures var x := DoFeedback(old(tasks), o, generation, formats, send);
              tasks == x.table && error == x.error && wire == old(wire) + Records(x.record)
    {
      hide Valid, Entry.Valid, Task.Valid, Task.FeedbackError;
      PublishKeepsValid(tasks, o, generation, formats, Transport.Configure(0, 0, 0, 0), send);
      if o !in tasks {
        return Some(UnknownObject(o));
      }
      var collected := set f | f in formats;
      var refused := tasks[o].state.FeedbackError(generation, collected);
      if refused.Some? {
        return Some(State(refused.value));
      }
      tasks := tasks[o := tasks[o].(state := tasks[o].state.(feedbackGeneration := generation, feedback := collected))];
      if !send {
        return Some(Ipc);
      }
      wire := wire + [M.FormatFeedback(o, generation, formats)];
      return None;
    }

    method DiscardFrameOf(o: u64, f: u64, send: bool) returns (error: Option<EndpointError>)
      requires Valid(tasks)
      modifies this
      ensures Valid(tasks)
      ensures var x := DoDiscard(old(tasks), o, f, send);
              tasks == x.table && error == x.error && wire == old(wire) + Records(x.record)
    {
      hide Valid, Entry.Valid, Task.Valid;
      if o !in tasks {
        return Some(UnknownObject(o));
      }
      if f !in tasks[o].pending {
        return Some(UnknownPending(f));
      }
      if !tasks[o].timelines {
        return Some(State(TimelinesUnbound));
      }
      error := FinishReleaseOf(o, f, send);
    }

    /** Timing is optional: a full feedback queue is not an error. */
    method TrackPresentation(o: u64, f: u64) returns (error: Option<EndpointError>)
      requires Valid(tasks)
      modifies this`tasks
      ensures Valid(tasks)
      ensures var x := DoTrack(old(tasks), o, f); tasks == x.table && error == x.error
    {
      hide Valid, Entry.Valid, Task.Valid;
      if o !in tasks {
        return Some(UnknownObject(o));
      }
      if f !in tasks[o].pending {
        return Some(UnknownPending(f));
      }
      if |tasks[o].tracked| >= MAX_TRACKED {
        return None;
      }
      TrackKeepsValid(tasks, o, tasks[o].tracked + {f});
      tasks := tasks[o := tasks[o].(tracked := tasks[o].tracked + {f})];
      return None;
    }

    method SendPresentedOf(o: u64, f: u64, send: bool) returns (error: Option<EndpointError>)
      requires Valid(tasks)
      modifies this
      ensures Valid(tasks)
      ensures var x := DoPresented(old(tasks), o, f, send);
              tasks == x.table && error == x.error && wire == old(wire) + Records(x.record)
    {
      hide Valid, Entry.Valid, Task.Valid;
      if o !in tasks {
        return Some(UnknownObject(o));
      }
      UntrackKeepsValid(tasks, o, f);
      var tracked := f in tasks[o].tracked;
      tasks := tasks[o := tasks[o].(tracked := tasks[o].tracked - {f})];
      if !tracked && f !in tasks[o].pending {
        return Some(UnknownPending(f));
      }
      if tasks[o].retiring {
        return None;
      }
      if !send {
        return Some(Ipc);
      }
      wire := wire + [M.Presented(o, f)];
      return None;
    }
  }
}
