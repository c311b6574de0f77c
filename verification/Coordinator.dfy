/** Registration, binding and removal of task windows, one critical section at a time. */
module Coordinator {
  import opened Base
  import opened Wire
  import opened Registry
  import Text

  /** The framework task behind a directly exported window. */
  datatype Direct = Direct(task: u64, androidDisplay: u32, incarnation: Option<u64>)

  /** The reservation the holder of the operation gate is working on. */
  datatype Pending = Pending(objectId: u64, direct: Option<Direct>, staged: bool)

  type Exports = map<u64, u64>

  predicate Owns(tasks: Exports, t: u64, o: u64) { t in tasks && tasks[t] == o }

  /** The three maps of exported tasks describe the same live objects, one task each. */
  ghost predicate Agree(tasks: Exports, displays: map<u64, u32>, incarnations: map<u64, u64>, live: set<u64>) {
    && (forall t, o :: Owns(tasks, t, o) ==> o in displays)
    && (forall o :: o in displays ==> o in live && exists t :: Owns(tasks, t, o))
    && (forall s, t, o :: Owns(tasks, s, o) && Owns(tasks, t, o) ==> s == t)
    && incarnations.Keys <= displays.Keys
  }

  /** The object being registered is the only owner its task can have. */
  ghost predicate OwnsPending(p: Pending, tasks: Exports, displays: map<u64, u32>) {
    && (p.direct.Some? ==> forall o :: Owns(tasks, p.direct.value.task, o) ==> o == p.objectId)
    && (p.objectId in displays ==> p.direct.Some? && Owns(tasks, p.direct.value.task, p.objectId))
  }

  /** It leaves `Reserved` exactly when staged. */
  predicate PhaseFits(p: Pending, r: Registry) {
    && p.objectId < Above(r.nextObject)
    && (p.objectId in r.registrations ==> (p.staged <==> !r.registrations[p.objectId].phase.Reserved?))
  }

  datatype State = State(
    registry: Registry,
    retired: set<u64>,
    directTasks: Exports,
    directDisplays: map<u64, u32>,
    directIncarnations: map<u64, u64>,
    pending: Option<Pending>)
  {
    ghost predicate RetiredApart() {
      && retired !! registry.registrations.Keys
      && forall o :: o in retired ==> o < Above(registry.nextObject)
    }

    ghost predicate Valid() {
      && registry.Valid()
      && Agree(directTasks, directDisplays, directIncarnations, registry.registrations.Keys)
      && RetiredApart()
      && (pending.Some? ==> OwnsPending(pending.value, directTasks, directDisplays) && PhaseFits(pending.value, registry))
    }

    /** Drop every trace of a direct export of `o`. */
    function Unexported(o: u64): State {
      this.(directTasks := map t | t in directTasks && directTasks[t] != o :: directTasks[t],
            directDisplays := directDisplays - {o},
            directIncarnations := directIncarnations - {o})
    }

    /** The same, by the task the reservation was made for. */
    function Withdrawn(o: u64, direct: Option<Direct>): State {
      if direct.None? then this
      else this.(directTasks := directTasks - {direct.value.task},
                 directDisplays := directDisplays - {o},
                 directIncarnations := directIncarnations - {o})
    }

    function Exported(o: u64, d: Direct): State {
      this.(directTasks := directTasks[d.task := o],
            directDisplays := directDisplays[o := d.androidDisplay],
            directIncarnations := if d.incarnation.Some? then directIncarnations[o := d.incarnation.value] else directIncarnations)
    }
  }

  datatype Step =
    | Reserve(package: Bytes, direct: Option<Direct>)
    | StageFailed
    | MarkStaged
    | RegisterFailed
    | Registered
    | DisplayConnected(o: u64)
    | BindTask(o: u64, task: u64, androidDisplay: u32)
    | BeginRemoval(o: u64)
    | FinishRemoval(o: u64)

  /** Reserving under the operation gate. A task that is already exported gives the new
      reservation back, but its identities stay spent. */
  function DoReserve(s: State, package: Bytes, direct: Option<Direct>): State {
    if s.registry.ReserveError(package).Some? then s
    else
      var o := s.registry.nextObject.value;
      var r := s.(registry := s.registry.WithReservation(package));
      if direct.None? then r.(pending := Some(Pending(o, None, false)))
      else if direct.value.task in s.directTasks then r.(registry := r.registry.Without(o))
      else r.Exported(o, direct.value).(pending := Some(Pending(o, direct, false)))
  }

  function DoStageFailed(s: State): State {
    if s.pending.None? || s.pending.value.staged then s
    else
      var p := s.pending.value;
      s.(registry := Cancelled(s.registry, p.objectId)).Withdrawn(p.objectId, p.direct).(pending := None)
  }

  function Cancelled(r: Registry, o: u64): Registry {
    if r.MoveError(o, Reserved, Reserved).None? then r.Without(o) else r
  }

  function DoMarkStaged(s: State): State {
    if s.pending.None? then s
    else if s.registry.MoveError(s.pending.value.objectId, Reserved, Staged).Some? then s.(pending := None)
    else s.(registry := s.registry.Moved(s.pending.value.objectId, Staged), pending := Some(s.pending.value.(staged := true)))
  }

  /** Both removal transitions in one critical section, then the object counts as retired whatever they answered. */
  function DoRegisterFailed(s: State): State {
    if s.pending.None? || !s.pending.value.staged then s
    else
      var p := s.pending.value;
      s.(registry := Erased(s.registry, p.objectId), retired := s.retired + {p.objectId}).Withdrawn(p.objectId, p.direct).(pending := None)
  }

  function Erased(r: Registry, o: u64): Registry {
    var begun := if r.RemovalError(o).None? then r.Moved(o, Removing) else r;
    if begun.MoveError(o, Removing, Removing).None? then begun.Without(o) else begun
  }

  function DoConnected(s: State, o: u64): State {
    if s.registry.MoveError(o, Staged, Connected).Some? then s else s.(registry := s.registry.Moved(o, Connected))
  }

  function DoBind(s: State, o: u64, task: u64, androidDisplay: u32): State {
    if s.registry.BindError(o, task).Some? then s else s.(registry := s.registry.WithTask(o, task, androidDisplay))
  }

  function DoBeginRemoval(s: State, o: u64): State {
    if o !in s.registry.registrations then s
    else if s.registry.registrations[o].phase.Reserved? then
      s.Unexported(o).(registry := s.registry.Without(o), retired := s.retired + {o})
    else if s.registry.registrations[o].phase.Removing? then s
    else s.(registry := s.registry.Moved(o, Removing))
  }

  function DoFinishRemoval(s: State, o: u64): State {
    if s.registry.MoveError(o, Removing, Removing).Some? then s
    else
      var gone := s.(registry := s.registry.Without(o), retired := s.retired + {o});
      if o in s.directDisplays then gone.Unexported(o) else gone
  }

  function Next(s: State, step: Step): State {
    match step
    case Reserve(package, direct) => if s.pending.Some? then s else DoReserve(s, package, direct)
    case StageFailed => DoStageFailed(s)
    case MarkStaged => DoMarkStaged(s)
    case RegisterFailed => DoRegisterFailed(s)
    case Registered => s.(pending := None)
    case DisplayConnected(o) => DoConnected(s, o)
    case BindTask(o, task, androidDisplay) => DoBind(s, o, task, androidDisplay)
    case BeginRemoval(o) => DoBeginRemoval(s, o)
    case FinishRemoval(o) => DoFinishRemoval(s, o)
  }

  // ------------------------------------------------------------------------------------
  // Every step keeps the state valid

  lemma AgreeAdded(s: State, o: u64, d: Direct, live: set<u64>)
    requires Agree(s.directTasks, s.directDisplays, s.directIncarnations, live) && o !in live && d.task !in s.directTasks
    ensures var r := s.Exported(o, d);
      && Agree(r.directTasks, r.directDisplays, r.directIncarnations, live + {o})
      && OwnsPending(Pending(o, Some(d), false), r.directTasks, r.directDisplays)
  {
    var r := s.Exported(o, d);
    assert Owns(r.directTasks, d.task, o);
    forall t, p | Owns(r.directTasks, t, p) ensures p in r.directDisplays { assert t != d.task ==> Owns(s.directTasks, t, p); }
    forall p | p in r.directDisplays && p != o ensures p in live && exists t :: Owns(r.directTasks, t, p) {
      var t :| Owns(s.directTasks, t, p);
      assert Owns(r.directTasks, t, p);
    }
    forall t, u, p | Owns(r.directTasks, t, p) && Owns(r.directTasks, u, p) ensures t == u {
      assert t != d.task ==> Owns(s.directTasks, t, p);
      assert u != d.task ==> Owns(s.directTasks, u, p);
    }
  }

  /** Live objects may grow: the exports still agree. */
  lemma AgreeGrows(tasks: Exports, displays: map<u64, u32>, incarnations: map<u64, u64>, live: set<u64>, more: set<u64>)
    requires Agree(tasks, displays, incarnations, live) && live <= more
    ensures Agree(tasks, displays, incarnations, more)
  {
  }

  /** A reservation adds one live object above all earlier ones. */
  lemma GrownIsValid(s: State, r: State, package: Bytes)
    requires s.Valid() && s.registry.ReserveError(package).None? && r.registry == s.registry.WithReservation(package)
    requires r.retired == s.retired
    requires Agree(r.directTasks, r.directDisplays, r.directIncarnations, s.registry.registrations.Keys + {s.registry.nextObject.value})
    requires r.pending.Some? ==>
      r.pending.value.objectId == s.registry.nextObject.value && !r.pending.value.staged && OwnsPending(r.pending.value, r.directTasks, r.directDisplays)
    ensures r.Valid()
  {
    s.registry.ReserveKeepsValid(package);
    hide Registry.Valid, Agree, OwnsPending, Text.ValidPackage;
    assert r.registry.registrations.Keys == s.registry.registrations.Keys + {s.registry.nextObject.value};
  }

  /** Giving the reservation back leaves only the counters moved. */
  lemma GivenBackIsValid(s: State, package: Bytes)
    requires s.Valid() && s.pending.None? && s.registry.ReserveError(package).None?
    ensures s.(registry := s.registry.WithReservation(package).Without(s.registry.nextObject.value)).Valid()
  {
    var o := s.registry.nextObject.value;
    s.registry.ReserveKeepsValid(package);
    s.registry.WithReservation(package).RemoveKeepsValid(o);
    hide Registry.Valid, Agree, Text.ValidPackage;
    assert s.registry.WithReservation(package).Without(o).registrations.Keys == s.registry.registrations.Keys;
  }

  lemma FreshObject(s: State, package: Bytes)
    requires s.Valid() && s.registry.ReserveError(package).None?
    ensures s.registry.nextObject.value !in s.registry.registrations
  {
    s.registry.ReserveKeepsValid(package);
    hide Registry.Valid;
  }

  lemma ReserveKeepsValid(s: State, package: Bytes, direct: Option<Direct>)
    requires s.Valid() && s.pending.None?
    ensures DoReserve(s, package, direct).Valid()
  {
    if s.registry.ReserveError(package).None? {
      FreshObject(s, package);
      GivenBackIsValid(s, package);
      hide Registry.Valid, Agree, OwnsPending, Owns, Text.ValidPackage, State.Valid;
      ReserveCases(s, package, direct);
    }
  }

  lemma ReserveCases(s: State, package: Bytes, direct: Option<Direct>)
    requires s.Valid() && s.pending.None? && s.registry.ReserveError(package).None? && s.registry.nextObject.value !in s.registry.registrations
    ensures direct.None? || direct.value.task !in s.directTasks ==> DoReserve(s, package, direct).Valid()
  {
    hide Registry.Valid, Agree, OwnsPending, Owns, Registry.WithReservation, Text.ValidPackage, State.RetiredApart;
    var o, live := s.registry.nextObject.value, s.registry.registrations.Keys;
    if direct.None? {
      AgreeGrows(s.directTasks, s.directDisplays, s.directIncarnations, live, live + {o});
      NotExported(s, o);
      GrownIsValid(s, DoReserve(s, package, direct), package);
    } else if direct.value.task !in s.directTasks {
      AgreeAdded(s, o, direct.value, live);
      GrownIsValid(s, DoReserve(s, package, direct), package);
    }
  }

  lemma NotExported(s: State, o: u64)
    requires Agree(s.directTasks, s.directDisplays, s.directIncarnations, s.registry.registrations.Keys) && o !in s.registry.registrations
    ensures OwnsPending(Pending(o, None, false), s.directTasks, s.directDisplays)
  {
  }

  /** Exactly the exports of `o` are gone. */
  ghost predicate Lost(s: State, r: State, o: u64) {
    && r.directDisplays == s.directDisplays - {o} && r.directIncarnations == s.directIncarnations - {o}
    && forall t, p :: Owns(r.directTasks, t, p) <==> Owns(s.directTasks, t, p) && p != o
  }

  lemma AgreeLost(s: State, r: State, o: u64, live: set<u64>)
    requires Agree(s.directTasks, s.directDisplays, s.directIncarnations, live) && Lost(s, r, o)
    ensures Agree(r.directTasks, r.directDisplays, r.directIncarnations, live)
    ensures Agree(r.directTasks, r.directDisplays, r.directIncarnations, live - {o})
    ensures forall p: Pending :: OwnsPending(p, s.directTasks, s.directDisplays) ==> OwnsPending(p, r.directTasks, r.directDisplays)
  {
    forall p | p in r.directDisplays ensures p in live - {o} && exists t :: Owns(r.directTasks, t, p) {
      var t :| Owns(s.directTasks, t, p);
      assert Owns(r.directTasks, t, p);
    }
  }

  lemma WithdrawnIsLost(s: State)
    requires s.Valid() && s.pending.Some?
    ensures Lost(s, s.Withdrawn(s.pending.value.objectId, s.pending.value.direct), s.pending.value.objectId)
  {
    hide Registry.Valid;
    var o, direct := s.pending.value.objectId, s.pending.value.direct;
    var r := s.Withdrawn(o, direct);
    forall t, p ensures Owns(r.directTasks, t, p) <==> Owns(s.directTasks, t, p) && p != o {
      assert Owns(s.directTasks, t, o) ==> o in s.directDisplays;
    }
  }

  lemma UnexportedIsLost(s: State, o: u64)
    ensures Lost(s, s.Unexported(o), o)
  {
  }

  /** The object is gone from the registry, with all its exports. */
  lemma GoneIsValid(s: State, r: State, o: u64)
    requires s.Valid() && r.registry.Valid() && Lost(s, r, o)
    requires r.registry.registrations.Keys == s.registry.registrations.Keys - {o}
    requires forall p :: p in r.registry.registrations ==> r.registry.registrations[p].phase == s.registry.registrations[p].phase
    requires r.registry.nextObject == s.registry.nextObject && r.retired <= s.retired + {o} && o < Above(s.registry.nextObject)
    requires r.pending == s.pending || r.pending.None?
    ensures r.Valid()
  {
    hide Registry.Valid, Agree, OwnsPending, Lost;
    AgreeLost(s, r, o, s.registry.registrations.Keys);
  }

  lemma ObjectsAreIssued(r: Registry, o: u64)
    requires r.Valid() && o in r.registrations
    ensures o < Above(r.nextObject)
  {
    assert r.InRange(o);
  }

  lemma UnboundPhase(r: Registry, o: u64)
    requires r.Valid() && o in r.registrations && r.registrations[o].phase !in {Bound, Removing}
    ensures r.registrations[o].task.None?
  {
    assert r.PhaseFits(o);
  }

  /** A reservation is cancelled, if it is still there. */
  lemma CancelledIsGone(r: Registry, o: u64)
    requires r.Valid()
    ensures var e := Cancelled(r, o);
      (o in r.registrations ==> r.registrations[o].phase.Reserved?) ==>
        && e.Valid() && e.nextObject == r.nextObject && e.registrations.Keys == r.registrations.Keys - {o}
        && forall p :: p in e.registrations ==> e.registrations[p] == r.registrations[p]
  {
    hide Registry.Valid;
    if o in r.registrations {
      r.RemoveKeepsValid(o);
    } else {
      assert r.registrations.Keys - {o} == r.registrations.Keys;
    }
  }

  lemma StageFailedKeepsValid(s: State)
    requires s.Valid()
    ensures DoStageFailed(s).Valid()
  {
    hide Registry.Valid, Agree, OwnsPending, Owns, Cancelled;
    if s.pending.Some? && !s.pending.value.staged {
      var o := s.pending.value.objectId;
      WithdrawnIsLost(s);
      CancelledIsGone(s.registry, o);
      GoneIsValid(s, DoStageFailed(s), o);
    }
  }

  /** A registration that only changed its phase or its task. */
  lemma SameObjectsIsValid(s: State, r: State)
    requires s.Valid() && r.registry.Valid() && r == s.(registry := r.registry, pending := r.pending)
    requires r.registry.registrations.Keys == s.registry.registrations.Keys && r.registry.nextObject == s.registry.nextObject
    requires r.pending.Some? ==> s.pending.Some? && r.pending.value == s.pending.value.(staged := r.pending.value.staged) && PhaseFits(r.pending.value, r.registry)
    ensures r.Valid()
  {
    hide Registry.Valid, Agree;
  }

  lemma MarkStagedKeepsValid(s: State)
    requires s.Valid()
    ensures DoMarkStaged(s).Valid()
  {
    hide Registry.Valid, Agree, OwnsPending, Owns;
    if s.pending.Some? {
      var o := s.pending.value.objectId;
      if s.registry.MoveError(o, Reserved, Staged).None? {
        UnboundPhase(s.registry, o);
        s.registry.MoveKeepsValid(o, Staged);
      }
      SameObjectsIsValid(s, DoMarkStaged(s));
    }
  }

  /** Whatever phase a staged object is in, it is erased. */
  lemma ErasedIsGone(r: Registry, o: u64)
    requires r.Valid()
    ensures var e := Erased(r, o);
      (o in r.registrations ==> !r.registrations[o].phase.Reserved?) ==>
        && e.Valid() && e.nextObject == r.nextObject && e.registrations.Keys == r.registrations.Keys - {o}
        && forall p :: p in e.registrations ==> e.registrations[p] == r.registrations[p]
  {
    hide Registry.Valid;
    if o in r.registrations && !r.registrations[o].phase.Reserved? {
      r.MoveKeepsValid(o, Removing);
      r.RemoveKeepsValid(o);
      r.Moved(o, Removing).RemoveKeepsValid(o);
    } else if o !in r.registrations {
      assert r.registrations.Keys - {o} == r.registrations.Keys;
    }
  }

  lemma RegisterFailedKeepsValid(s: State)
    requires s.Valid()
    ensures DoRegisterFailed(s).Valid()
  {
    hide Registry.Valid, Agree, OwnsPending, Owns, Erased;
    if s.pending.Some? && s.pending.value.staged {
      var o := s.pending.value.objectId;
      WithdrawnIsLost(s);
      ErasedIsGone(s.registry, o);
      GoneIsValid(s, DoRegisterFailed(s), o);
    }
  }

  lemma ConnectedKeepsValid(s: State, o: u64)
    requires s.Valid()
    ensures DoConnected(s, o).Valid()
  {
    hide Registry.Valid, Agree, OwnsPending, Owns;
    if s.registry.MoveError(o, Staged, Connected).None? {
      UnboundPhase(s.registry, o);
      s.registry.MoveKeepsValid(o, Connected);
      SameObjectsIsValid(s, DoConnected(s, o));
    }
  }

  lemma BindKeepsValid(s: State, o: u64, task: u64, androidDisplay: u32)
    requires s.Valid()
    ensures DoBind(s, o, task, androidDisplay).Valid()
  {
    hide Registry.Valid, Agree, OwnsPending, Owns;
    if s.registry.BindError(o, task).None? {
      s.registry.BindKeepsValid(o, task, androidDisplay);
      SameObjectsIsValid(s, DoBind(s, o, task, androidDisplay));
    }
  }

  lemma BeginRemovalKeepsValid(s: State, o: u64)
    requires s.Valid()
    ensures DoBeginRemoval(s, o).Valid()
  {
    hide Registry.Valid, Agree, OwnsPending, Owns;
    if o in s.registry.registrations {
      ObjectsAreIssued(s.registry, o);
      s.registry.RemoveKeepsValid(o);
      s.registry.MoveKeepsValid(o, Removing);
      UnexportedIsLost(s, o);
      if s.registry.registrations[o].phase.Reserved? {
        GoneIsValid(s, DoBeginRemoval(s, o), o);
      } else {
        SameObjectsIsValid(s, DoBeginRemoval(s, o));
      }
    }
  }

  lemma FinishRemovalKeepsValid(s: State, o: u64)
    requires s.Valid()
    ensures DoFinishRemoval(s, o).Valid()
  {
    hide Registry.Valid, Agree, OwnsPending, Owns;
    if s.registry.MoveError(o, Removing, Removing).None? {
      ObjectsAreIssued(s.registry, o);
      s.registry.RemoveKeepsValid(o);
      UnexportedIsLost(s, o);
      NothingToLose(s, o);
      GoneIsValid(s, DoFinishRemoval(s, o), o);
    }
  }

  lemma NothingToLose(s: State, o: u64)
    requires s.Valid()
    ensures o !in s.directDisplays ==> Lost(s, s, o)
  {
    hide Registry.Valid;
    if o !in s.directDisplays {
      assert s.directDisplays - {o} == s.directDisplays && s.directIncarnations - {o} == s.directIncarnations;
    }
  }

  lemma NextKeepsValid(s: State, step: Step)
    requires s.Valid()
    ensures Next(s, step).Valid()
  {
    hide State.Valid;
    match step
    case Reserve(package, direct) => if s.pending.None? { ReserveKeepsValid(s, package, direct); }
    case StageFailed => StageFailedKeepsValid(s);
    case MarkStaged => MarkStagedKeepsValid(s);
    case RegisterFailed => RegisterFailedKeepsValid(s);
    case Registered => ReleasedIsValid(s);
    case DisplayConnected(o) => ConnectedKeepsValid(s, o);
    case BindTask(o, task, androidDisplay) => BindKeepsValid(s, o, task, androidDisplay);
    case BeginRemoval(o) => BeginRemovalKeepsValid(s, o);
    case FinishRemoval(o) => FinishRemovalKeepsValid(s, o);
  }

  lemma ReleasedIsValid(s: State)
    requires s.Valid()
    ensures s.(pending := None).Valid()
  {
    hide Registry.Valid;
    SameObjectsIsValid(s, s.(pending := None));
  }

  // ------------------------------------------------------------------------------------
  // Runs

  function NewState(firstDisplay: u64, firstObject: u64): State {
    State(Registry(map[], map[], Some(firstDisplay), Some(firstObject)), {}, map[], map[], map[], None)
  }

  ghost predicate IsRun(states: seq<State>, steps: seq<Step>) {
    && |states| == |steps| + 1
    && (exists d, o :: 1 <= d <= MAX_EXTERNAL_ID && 1 <= o <= MAX_EXTERNAL_ID && states[0] == NewState(d, o))
    && forall i :: 0 <= i < |steps| ==> states[i + 1] == Next(states[i], steps[i])
  }

  /** In every run, whatever registrations fail halfway and removals interleave: the task
      index is the inverse of the bindings, retired and live objects are disjoint, and the
      three maps of exported tasks agree. */
  lemma {:induction false} RunIsValid(states: seq<State>, steps: seq<Step>, i: nat)
    requires IsRun(states, steps) && i < |states|
    ensures states[i].Valid()
  {
    hide Next, State.Valid;
    if i > 0 {
      RunIsValid(states, steps, i - 1);
      NextKeepsValid(states[i - 1], steps[i - 1]);
    } else {
      var d, o :| 1 <= d <= MAX_EXTERNAL_ID && 1 <= o <= MAX_EXTERNAL_ID && states[0] == NewState(d, o);
      NewIsValid(d, o);
    }
  }

  lemma NewIsValid(firstDisplay: u64, firstObject: u64)
    requires 1 <= firstDisplay <= MAX_EXTERNAL_ID && 1 <= firstObject <= MAX_EXTERNAL_ID
    ensures NewState(firstDisplay, firstObject).Valid()
  {
  }

  /** Same counters, and no new or renumbered objects. */
  ghost predicate Narrows(r: Registry, q: Registry) {
    && q.nextObject == r.nextObject && q.nextDisplay == r.nextDisplay
    && forall o, d :: q.Shows(o, d) ==> r.Shows(o, d)
  }

  lemma RegistrySteps(r: Registry, o: u64, to: Phase, task: u64, androidDisplay: u32)
    requires o in r.registrations
    ensures Narrows(r, r.Moved(o, to)) && Narrows(r, r.WithTask(o, task, androidDisplay)) && Narrows(r, r.Without(o))
  {
  }

  lemma ErasedNarrows(r: Registry, o: u64)
    ensures Narrows(r, Erased(r, o))
  {
    hide Registry.Shows, Registry.Without;
    if o in r.registrations {
      RegistrySteps(r, o, Removing, 0, 0);
      RegistrySteps(r.Moved(o, Removing), o, Removing, 0, 0);
    }
  }

  /** Only a reservation moves the counters or adds an object. */
  lemma OtherSteps(s: State, step: Step)
    requires !step.Reserve?
    ensures Narrows(s.registry, Next(s, step).registry)
  {
    assert Narrows(s.registry, s.registry);
    var p := if s.pending.Some? then s.pending.value.objectId else 0;
    if p in s.registry.registrations { RegistrySteps(s.registry, p, Staged, 0, 0); }
    ErasedNarrows(s.registry, p);
    assert Narrows(s.registry, Cancelled(s.registry, p));
    match step
    case DisplayConnected(o) => if o in s.registry.registrations { RegistrySteps(s.registry, o, Connected, 0, 0); }
    case BindTask(o, task, a) => if o in s.registry.registrations { RegistrySteps(s.registry, o, Bound, task, a); }
    case BeginRemoval(o) => if o in s.registry.registrations { RegistrySteps(s.registry, o, Removing, 0, 0); }
    case FinishRemoval(o) => if o in s.registry.registrations { RegistrySteps(s.registry, o, Removing, 0, 0); }
    case _ =>
    hide Narrows, Erased, Cancelled, Registry.Moved, Registry.Without, Registry.WithTask;
  }

  lemma ReserveStep(s: State, package: Bytes, direct: Option<Direct>, o: u64)
    requires s.registry.Valid() && s.registry.ReserveError(package).None?
    ensures var t, r := DoReserve(s, package, direct), s.registry;
      && Above(r.nextObject) < Above(t.registry.nextObject) && Above(r.nextDisplay) < Above(t.registry.nextDisplay)
      && (o in t.registry.registrations ==>
            if o in r.registrations then t.registry.registrations[o].display == r.registrations[o].display
            else o == Above(r.nextObject) && t.registry.registrations[o].display == Above(r.nextDisplay))
  {
    s.registry.ReserveKeepsValid(package);
    hide Registry.Valid, Registry.ReserveError;
  }

  /** Identity counters never go back, and a registration keeps its display for life. */
  lemma StepIsMonotone(s: State, step: Step, o: u64)
    requires s.Valid()
    ensures var t := Next(s, step);
      && Above(s.registry.nextObject) <= Above(t.registry.nextObject)
      && Above(s.registry.nextDisplay) <= Above(t.registry.nextDisplay)
      && (o in t.registry.registrations ==>
            if o in s.registry.registrations then t.registry.registrations[o].display == s.registry.registrations[o].display
            else t.registry.registrations[o].display == Above(s.registry.nextDisplay))
  {
    hide State.RetiredApart, Agree, OwnsPending, Registry.Valid;
    if step.Reserve? {
      if s.registry.ReserveError(step.package).None? { ReserveStep(s, step.package, step.direct, o); }
      hide DoReserve;
      if s.pending.Some? || s.registry.ReserveError(step.package).Some? { RefusedReserve(s, step); }
    } else {
      OtherSteps(s, step);
      hide Next;
      var t := Next(s, step);
      if o in t.registry.registrations { assert t.registry.Shows(o, t.registry.registrations[o].display); }
    }
    hide Next;
  }

  lemma RefusedReserve(s: State, step: Step)
    requires step.Reserve? && (s.pending.Some? || s.registry.ReserveError(step.package).Some?)
    ensures Next(s, step) == s
  {
  }

  lemma {:induction false} CountersGrow(states: seq<State>, steps: seq<Step>, i: nat, j: nat)
    requires IsRun(states, steps) && i <= j < |states|
    ensures Above(states[i].registry.nextObject) <= Above(states[j].registry.nextObject)
    ensures Above(states[i].registry.nextDisplay) <= Above(states[j].registry.nextDisplay)
  {
    hide Next, State.Valid;
    if i < j {
      CountersGrow(states, steps, i, j - 1);
      RunIsValid(states, steps, j - 1);
      StepIsMonotone(states[j - 1], steps[j - 1], 0);
    }
  }

  /** The identities a step allocates. */
  ghost predicate Allocates(s: State, step: Step, o: u64, d: u64) {
    && step.Reserve? && s.pending.None? && s.registry.ReserveError(step.package).None?
    && s.registry.nextObject == Some(o) && s.registry.nextDisplay == Some(d)
  }

  lemma AllocationAdvances(s: State, step: Step, o: u64, d: u64)
    requires s.Valid() && Allocates(s, step, o, d)
    ensures var t := Next(s, step); o < Above(t.registry.nextObject) && d < Above(t.registry.nextDisplay)
    ensures 1 <= o <= MAX_EXTERNAL_ID && 1 <= d <= MAX_EXTERNAL_ID
  {
    assert s.registry.Numbered();
    ReserveStep(s, step.package, step.direct, 0);
    hide Registry.Valid, Registry.ReserveError, DoReserve;
  }

  /** No identity is ever handed out twice: later allocations are strictly larger, and all
      stay within the signed 64-bit range. */
  lemma IdentitiesAreFresh(states: seq<State>, steps: seq<Step>, i: nat, j: nat, o: u64, d: u64, p: u64, e: u64)
    requires IsRun(states, steps) && i < j < |steps|
    requires Allocates(states[i], steps[i], o, d) && Allocates(states[j], steps[j], p, e)
    ensures 1 <= o < p <= MAX_EXTERNAL_ID && 1 <= d < e <= MAX_EXTERNAL_ID
  {
    hide Next, State.Valid;
    RunIsValid(states, steps, i);
    RunIsValid(states, steps, j);
    AllocationAdvances(states[i], steps[i], o, d);
    AllocationAdvances(states[j], steps[j], p, e);
    CountersGrow(states, steps, i + 1, j);
  }

  /** A display identity names one object for the whole run. */
  lemma {:induction false} DisplayNamesOneObject(states: seq<State>, steps: seq<Step>, i: nat, j: nat, o: u64, p: u64)
    requires IsRun(states, steps) && i <= j < |states|
    requires o in states[i].registry.registrations && p in states[j].registry.registrations
    requires states[i].registry.registrations[o].display == states[j].registry.registrations[p].display
    ensures o == p
    decreases j
  {
    hide Next, State.Valid;
    RunIsValid(states, steps, i);
    DisplayIsIssued(states[i], o, p);
    if i < j {
      RunIsValid(states, steps, j - 1);
      StepIsMonotone(states[j - 1], steps[j - 1], p);
      CountersGrow(states, steps, i, j - 1);
      if p in states[j - 1].registry.registrations {
        DisplayNamesOneObject(states, steps, i, j - 1, o, p);
      }
    }
  }

  lemma DisplayIsIssued(s: State, o: u64, p: u64)
    requires s.Valid() && o in s.registry.registrations
    ensures s.registry.registrations[o].display < Above(s.registry.nextDisplay)
    ensures p in s.registry.registrations && s.registry.registrations[p].display == s.registry.registrations[o].display ==> p == o
  {
    assert s.registry.InRange(o);
    assert s.registry.Shows(o, s.registry.registrations[o].display);
    assert p in s.registry.registrations ==> s.registry.Shows(p, s.registry.registrations[p].display);
  }

  /** The display a connection for `task` gets, and the object a retire request resolves to. */
  function SelectedDisplay(s: State, task: u64): Option<u64> {
    if task in s.directTasks && s.directTasks[task] in s.registry.registrations
      && s.registry.registrations[s.directTasks[task]].phase.Bound?
    then Some(s.registry.registrations[s.directTasks[task]].display) else None
  }

  function RetireTarget(s: State, task: u64, expected: u64): Option<u64> {
    if task in s.directTasks && s.directTasks[task] in s.registry.registrations
      && s.registry.registrations[s.directTasks[task]].display == expected
    then Some(s.directTasks[task]) else None
  }

  /** A connection opened on one registration of a task can retire only that registration:
      once the numeric task is registered again, the old connection's request does nothing. */
  lemma StaleRetireIsHarmless(states: seq<State>, steps: seq<Step>, i: nat, j: nat, task: u64)
    requires IsRun(states, steps) && i <= j < |states| && SelectedDisplay(states[i], task).Some?
    ensures var target := RetireTarget(states[j], task, SelectedDisplay(states[i], task).value);
      target.None? || target == Some(states[i].directTasks[task])
  {
    hide Next, State.Valid;
    var target := RetireTarget(states[j], task, SelectedDisplay(states[i], task).value);
    if target.Some? {
      DisplayNamesOneObject(states, steps, i, j, states[i].directTasks[task], target.value);
    }
  }

  /** Once an object is retired it is never live again. */
  lemma {:induction false} RetiredStaysRetired(states: seq<State>, steps: seq<Step>, i: nat, j: nat, o: u64)
    requires IsRun(states, steps) && i <= j < |states| && o in states[i].retired
    ensures o in states[j].retired && o !in states[j].registry.registrations
  {
    hide Next, State.Valid;
    RunIsValid(states, steps, j);
    if i < j {
      RetiredStaysRetired(states, steps, i, j - 1, o);
      RetiredGrows(states[j - 1], steps[j - 1]);
    }
    RetiredIsNotLive(states[j], o);
  }

  lemma RetiredGrows(s: State, step: Step)
    ensures s.retired <= Next(s, step).retired
  {
    hide Registry.ReserveError, Registry.MoveError;
  }

  lemma RetiredIsNotLive(s: State, o: u64)
    requires s.Valid()
    ensures o in s.retired ==> o !in s.registry.registrations
  {
  }

  /** No trace of `o` in the registry or among the exports. */
  ghost predicate Absent(s: State, o: u64) {
    && o !in s.registry.registrations
    && o !in s.directDisplays && o !in s.directIncarnations && forall t :: !Owns(s.directTasks, t, o)
  }

  /** A registration that fails, at either point, leaves nothing behind, and only a failure
      after the object was announced to the host retires its identity. */
  lemma FailedRegistrationLeavesNothing(s: State)
    requires s.Valid() && s.pending.Some?
    ensures var o := s.pending.value.objectId;
      if s.pending.value.staged then Absent(DoRegisterFailed(s), o) && o in DoRegisterFailed(s).retired && DoRegisterFailed(s).pending.None?
      else Absent(DoStageFailed(s), o) && DoStageFailed(s).retired == s.retired && DoStageFailed(s).pending.None?
  {
    hide Registry.Valid, Erased, Cancelled, Agree, OwnsPending;
    var o := s.pending.value.objectId;
    WithdrawnIsLost(s);
    ErasedIsGone(s.registry, o);
    CancelledIsGone(s.registry, o);
  }

  // ------------------------------------------------------------------------------------
  // The coordinator's own state, updated in place under its lock

  class TaskCoordinator {
    var registry: Registry
    var retired: set<u64>
    var directTasks: Exports
    var directDisplays: map<u64, u32>
    var directIncarnations: map<u64, u64>
    var pending: Option<Pending>

    ghost function View(): State reads this {
      State(registry, retired, directTasks, directDisplays, directIncarnations, pending)
    }

    constructor (firstObject: u64)
      requires 1 <= firstObject <= MAX_EXTERNAL_ID
      ensures View() == NewState(1, firstObject) && View().Valid()
    {
      registry := Registry(map[], map[], Some(1), Some(firstObject));
      retired, directTasks, directDisplays, directIncarnations, pending := {}, map[], map[], map[], None;
      new;
      NewIsValid(1, firstObject);
    }

    /** A task that already has a direct channel gives the reservation back. */
    method ReserveWithKind(package: Bytes, direct: Option<Direct>) returns (r: Result<Registration, RegistryError>)
      requires View().Valid() && pending.None?
      modifies this
      ensures View() == DoReserve(old(View()), package, direct) && View().Valid()
      ensures r.Ok? <==> old(View()).registry.ReserveError(package).None? && (direct.None? || direct.value.task !in old(directTasks))
      ensures r.Ok? ==> r.value.objectId in registry.registrations && registry.registrations[r.value.objectId] == r.value
    {
      hide State.Valid, Registry.Valid, Text.ValidPackage;
      ReserveKeepsValid(View(), package, direct);
      var refused := registry.ReserveError(package);
      if refused.Some? {
        return Err(refused.value);
      }
      var registration := registry.New(package);
      registry := registry.WithReservation(package);
      var o := registration.objectId;
      if direct.Some? {
        if direct.value.task in directTasks {
          registry := registry.Without(o);
          return Err(DuplicateTask(direct.value.task));
        }
        directTasks := directTasks[direct.value.task := o];
        directDisplays := directDisplays[o := direct.value.androidDisplay];
        if direct.value.incarnation.Some? {
          directIncarnations := directIncarnations[o := direct.value.incarnation.value];
        }
      }
      pending := Some(Pending(o, direct, false));
      return Ok(registration);
    }

    /** The first critical section of a removal. */
    method BeginRemoval(o: u64)
      requires View().Valid()
      modifies this
      ensures View() == DoBeginRemoval(old(View()), o) && View().Valid()
    {
      hide State.Valid, Registry.Valid;
      BeginRemovalKeepsValid(View(), o);
      if o !in registry.registrations {
        return;
      }
      if registry.registrations[o].phase.Reserved? {
        registry := registry.Without(o);
        directDisplays := directDisplays - {o};
        directIncarnations := directIncarnations - {o};
        directTasks := map t | t in directTasks && directTasks[t] != o :: directTasks[t];
        retired := retired + {o};
        return;
      }
      if !registry.registrations[o].phase.Removing? {
        registry := registry.Moved(o, Removing);
      }
    }

    /** The last critical section of a removal. */
    method FinishRemoval(o: u64) returns (error: Option<RegistryError>)
      requires View().Valid()
      modifies this
      ensures error == old(View()).registry.MoveError(o, Removing, Removing)
      ensures View() == DoFinishRemoval(old(View()), o) && View().Valid()
      ensures error.None? ==> o in retired && o !in registry.registrations && o !in directDisplays
    {
      hide State.Valid, Registry.Valid;
      FinishRemovalKeepsValid(View(), o);
      error := registry.MoveError(o, Removing, Removing);
      if error.Some? {
        return;
      }
      registry := registry.Without(o);
      if o in directDisplays {
        directDisplays := directDisplays - {o};
        directIncarnations := directIncarnations - {o};
        directTasks := map t | t in directTasks && directTasks[t] != o :: directTasks[t];
      }
      retired := retired + {o};
    }

    /** Resolve a retire request: only the registration the connection was opened on. */
    method ResolveRetire(task: u64, expected: u64) returns (o: Option<u64>)
      requires View().Valid()
      ensures o == RetireTarget(View(), task, expected)
      ensures o.Some? ==> o.value in directDisplays
    {
      DirectIsLive(View(), task);
      hide State.Valid, Registry.Valid;
      if task !in directTasks {
        return None;
      }
      if registry.registrations[directTasks[task]].display != expected {
        return None;
      }
      return Some(directTasks[task]);
    }
  }

  lemma DirectIsLive(s: State, task: u64)
    requires s.Valid()
    ensures task in s.directTasks ==> s.directTasks[task] in s.directDisplays && s.directTasks[task] in s.registry.registrations
  {
    hide Registry.Valid;
    assert task in s.directTasks ==> Owns(s.directTasks, task, s.directTasks[task]);
  }
}
