/** The life of one task window, as a small automaton that the coordinator's maps refine. */
module Lives {
  import opened Base
  import opened Wire
  import opened Registry
  import opened Coordinator
  import Text

  /** A live window: its registration, and the framework task it exports, if any. */
  datatype Window = Window(registration: Registration, exported: Option<Direct>) {
    function Phase(): Phase { registration.phase }

    function In(phase: Phase): Window { this.(registration := registration.(phase := phase)) }
  }

  /** The three maps say exactly this about the export of `o`. */
  ghost predicate Exports(s: State, o: u64, d: Option<Direct>) {
    match d
    case None => o !in s.directDisplays && o !in s.directIncarnations && forall t :: !Owns(s.directTasks, t, o)
    case Some(d) =>
      && (forall t :: Owns(s.directTasks, t, o) <==> t == d.task)
      && o in s.directDisplays && s.directDisplays[o] == d.androidDisplay
      && d.incarnation == (if o in s.directIncarnations then Some(s.directIncarnations[o]) else None)
  }

  /** The state holds exactly this window under `o`, or none. */
  ghost predicate Holds(s: State, o: u64, w: Option<Window>) {
    match w
    case None => o !in s.registry.registrations && Exports(s, o, None)
    case Some(w) => o in s.registry.registrations && s.registry.registrations[o] == w.registration && Exports(s, o, w.exported)
  }

  /** The operation gate is held for `o`. */
  predicate Registering(s: State, o: u64, staged: bool) {
    s.pending.Some? && s.pending.value.objectId == o && s.pending.value.staged == staged
  }

  /** The step reserves `o`: the gate is free, the reservation is granted, `o` is next, and a
      direct task has no window yet. */
  ghost predicate Reserves(s: State, step: Step, o: u64) {
    && step.Reserve? && s.pending.None? && s.registry.ReserveError(step.package).None? && s.registry.nextObject == Some(o)
    && (step.direct.Some? ==> forall p :: !Owns(s.directTasks, step.direct.value.task, p))
  }

  /** What becomes of the window under `o`. */
  ghost function After(s: State, step: Step, o: u64, w: Option<Window>): Option<Window> {
    match step
    case Reserve(package, direct) =>
      if Reserves(s, step, o)
      then Some(Window(Registration(o, s.registry.nextDisplay.value, package, None, None, Phase.Reserved), direct)) else w
    case StageFailed => if Registering(s, o, false) then None else w
    case MarkStaged =>
      if s.pending.Some? && s.pending.value.objectId == o && w.Some? && w.value.Phase().Reserved? then Some(w.value.In(Staged)) else w
    case RegisterFailed => if Registering(s, o, true) then None else w
    case Registered => w
    case DisplayConnected(p) => if p == o && w.Some? && w.value.Phase().Staged? then Some(w.value.In(Connected)) else w
    case BindTask(p, t, a) =>
      if p == o && w.Some? && w.value.Phase().Connected? && t != 0 && forall q :: !s.registry.BoundTo(q, t)
      then Some(w.value.(registration := w.value.registration.(task := Some(t), androidDisplay := Some(a), phase := Bound))) else w
    case BeginRemoval(p) =>
      if p != o || w.None? then w else if w.value.Phase().Reserved? then None else Some(w.value.In(Removing))
    case FinishRemoval(p) => if p == o && w.Some? && w.value.Phase().Removing? then None else w
  }

  /** The step ends the life of `o` after the host may have heard of it, or on request. */
  predicate Retires(s: State, step: Step, o: u64, w: Option<Window>) {
    || (step.RegisterFailed? && Registering(s, o, true))
    || (step == BeginRemoval(o) && w.Some? && w.value.Phase().Reserved?)
    || (step == FinishRemoval(o) && w.Some? && w.value.Phase().Removing?)
  }

  // ------------------------------------------------------------------------------------
  // One step

  lemma LostExports(s: State, r: State, o: u64, p: u64, d: Option<Direct>)
    requires Lost(s, r, p) && Exports(s, o, d)
    ensures Exports(r, o, if o == p then None else d)
  {
  }

  lemma SameExports(s: State, r: State, o: u64, d: Option<Direct>)
    requires Exports(s, o, d) && r == s.(registry := r.registry, retired := r.retired, pending := r.pending)
    ensures Exports(r, o, d)
  {
  }

  lemma ReserveHolds(s: State, package: Bytes, direct: Option<Direct>, o: u64, w: Option<Window>)
    requires s.Valid() && s.pending.None? && s.registry.ReserveError(package).None? && Holds(s, o, w)
    ensures Holds(DoReserve(s, package, direct), o, After(s, Reserve(package, direct), o, w))
    ensures DoReserve(s, package, direct).retired == s.retired
  {
    FreshObject(s, package);
    hide State.Valid, Registry.ReserveError;
    if direct.Some? && direct.value.task in s.directTasks {
      assert Owns(s.directTasks, direct.value.task, s.directTasks[direct.value.task]);
      var t := DoReserve(s, package, direct);
      assert t.registry.registrations == s.registry.registrations;
      SameExports(s, t, o, if w.Some? then w.value.exported else None);
    } else {
      assert Reserves(s, Reserve(package, direct), s.registry.nextObject.value);
      GrantedHolds(s, package, direct, o, w);
    }
  }

  lemma GrantedHolds(s: State, package: Bytes, direct: Option<Direct>, o: u64, w: Option<Window>)
    requires s.registry.ReserveError(package).None? && Holds(s, o, w)
    requires s.registry.nextObject.value !in s.registry.registrations && (direct.Some? ==> direct.value.task !in s.directTasks)
    ensures var n := s.registry.nextObject.value;
      Holds(DoReserve(s, package, direct), o,
            if o == n then Some(Window(Registration(o, s.registry.nextDisplay.value, package, None, None, Phase.Reserved), direct)) else w)
  {
    var n := s.registry.nextObject.value;
    hide Registry.ReserveError;
    ExportedExports(s, n, direct, o, if w.Some? then w.value.exported else None);
    hide Exports;
  }

  lemma ExportedExports(s: State, n: u64, direct: Option<Direct>, o: u64, d: Option<Direct>)
    requires Exports(s, o, d) && (direct.Some? ==> direct.value.task !in s.directTasks) && (o == n ==> d.None?)
    ensures var r := if direct.Some? then s.Exported(n, direct.value) else s; Exports(r, o, if o == n then direct else d)
    ensures forall r: State :: r.directTasks == s.directTasks && r.directDisplays == s.directDisplays && r.directIncarnations == s.directIncarnations ==> Exports(r, o, d)
  {
    if direct.Some? {
      var r := s.Exported(n, direct.value);
      assert forall t :: Owns(r.directTasks, t, o) <==> if t == direct.value.task then o == n else Owns(s.directTasks, t, o);
      if d.Some? { assert Owns(s.directTasks, d.value.task, o); }
    }
  }

  lemma GoneHolds(s: State, r: State, o: u64, p: u64, w: Option<Window>)
    requires Holds(s, o, w) && Lost(s, r, p)
    requires r.registry.registrations.Keys == s.registry.registrations.Keys - {p}
    requires forall q :: q in r.registry.registrations ==> r.registry.registrations[q] == s.registry.registrations[q]
    ensures Holds(r, o, if o == p then None else w)
  {
    LostExports(s, r, o, p, if w.Some? then w.value.exported else None);
    hide Lost, Exports;
  }

  lemma PendingPhase(s: State)
    requires s.Valid() && s.pending.Some? && s.pending.value.objectId in s.registry.registrations
    ensures s.pending.value.staged <==> !s.registry.registrations[s.pending.value.objectId].phase.Reserved?
  {
    hide Registry.Valid, Agree, OwnsPending;
  }

  lemma StageFailedHolds(s: State, o: u64, w: Option<Window>)
    requires s.Valid() && Holds(s, o, w)
    ensures Holds(DoStageFailed(s), o, After(s, StageFailed, o, w)) && DoStageFailed(s).retired == s.retired
  {
    hide State.Valid, Registry.Valid, Lost, Cancelled, Exports, Holds, State.Withdrawn;
    if s.pending.Some? && !s.pending.value.staged {
      var p := s.pending.value.objectId;
      RegistryOf(s);
      WithdrawnIsLost(s);
      CancelledIsGone(s.registry, p);
      if p in s.registry.registrations { PendingPhase(s); }
      var r := DoStageFailed(s);
      WithdrawnIs(s, p, s.pending.value.direct, Cancelled(s.registry, p), s.retired);
      GoneHolds(s, r, o, p, w);
    }
  }

  lemma RegisterFailedHolds(s: State, o: u64, w: Option<Window>)
    requires s.Valid() && Holds(s, o, w)
    ensures Holds(DoRegisterFailed(s), o, After(s, RegisterFailed, o, w))
    ensures o in DoRegisterFailed(s).retired <==> o in s.retired || Retires(s, RegisterFailed, o, w)
  {
    hide State.Valid, Registry.Valid, Lost, Erased, Exports, Holds, State.Withdrawn;
    if s.pending.Some? && s.pending.value.staged {
      var p := s.pending.value.objectId;
      RegistryOf(s);
      WithdrawnIsLost(s);
      ErasedIsGone(s.registry, p);
      if p in s.registry.registrations { PendingPhase(s); }
      var r := DoRegisterFailed(s);
      WithdrawnIs(s, p, s.pending.value.direct, Erased(s.registry, p), s.retired + {p});
      GoneHolds(s, r, o, p, w);
    }
  }

  lemma RegistryOf(s: State)
    requires s.Valid()
    ensures s.registry.Valid()
  {
  }

  /** Withdrawing touches the exports only, so it may come before or after the registry. */
  lemma WithdrawnIs(s: State, p: u64, direct: Option<Direct>, registry: Registry, retired: set<u64>)
    ensures var r := s.(registry := registry, retired := retired).Withdrawn(p, direct).(pending := None);
      && r.registry == registry && r.retired == retired
      && (Lost(s, s.Withdrawn(p, direct), p) ==> Lost(s, r, p))
  {
  }

  lemma BeginHolds(s: State, p: u64, o: u64, w: Option<Window>)
    requires s.Valid() && Holds(s, o, w)
    ensures Holds(DoBeginRemoval(s, p), o, After(s, BeginRemoval(p), o, w))
    ensures o in DoBeginRemoval(s, p).retired <==> o in s.retired || Retires(s, BeginRemoval(p), o, w)
  {
    hide State.Valid, Exports;
    if p in s.registry.registrations {
      if s.registry.registrations[p].phase.Reserved? {
        UnexportedIsLost(s, p);
        hide Lost, State.Unexported;
        GoneHolds(s, DoBeginRemoval(s, p), o, p, w);
      } else {
        hide State.Unexported;
        SameExports(s, DoBeginRemoval(s, p), o, if w.Some? then w.value.exported else None);
      }
    }
  }

  lemma FinishHolds(s: State, p: u64, o: u64, w: Option<Window>)
    requires s.Valid() && Holds(s, o, w)
    ensures Holds(DoFinishRemoval(s, p), o, After(s, FinishRemoval(p), o, w))
    ensures o in DoFinishRemoval(s, p).retired <==> o in s.retired || Retires(s, FinishRemoval(p), o, w)
  {
    hide State.Valid, Exports;
    if p in s.registry.registrations && s.registry.registrations[p].phase.Removing? { FinishedHolds(s, p, o, w); }
  }

  lemma FinishedHolds(s: State, p: u64, o: u64, w: Option<Window>)
    requires s.Valid() && Holds(s, o, w) && p in s.registry.registrations && s.registry.registrations[p].phase.Removing?
    ensures Holds(DoFinishRemoval(s, p), o, if o == p then None else w)
  {
    UnexportedIsLost(s, p);
    NothingToLose(s, p);
    var gone := s.(registry := s.registry.Without(p), retired := s.retired + {p});
    UnexportedIsLost(gone, p);
    assert Lost(s, DoFinishRemoval(s, p), p);
    hide State.Valid, Lost, Exports, Holds, State.Unexported;
    GoneHolds(s, DoFinishRemoval(s, p), o, p, w);
  }

  lemma MovedHolds(s: State, r: State, p: u64, moved: Registration, o: u64, w: Option<Window>)
    requires Holds(s, o, w) && r == s.(registry := r.registry, pending := r.pending)
    requires p in s.registry.registrations && r.registry.registrations == s.registry.registrations[p := moved]
    ensures Holds(r, o, if o == p then Some(w.value.(registration := moved)) else w)
  {
    SameExports(s, r, o, if w.Some? then w.value.exported else None);
    hide Exports;
  }

  lemma MarkHolds(s: State, o: u64, w: Option<Window>)
    requires Holds(s, o, w)
    ensures Holds(DoMarkStaged(s), o, After(s, MarkStaged, o, w)) && DoMarkStaged(s).retired == s.retired
  {
    hide Exports;
    SameExports(s, s.(pending := None), o, if w.Some? then w.value.exported else None);
    if s.pending.Some? && s.registry.MoveError(s.pending.value.objectId, Phase.Reserved, Staged).None? {
      var p := s.pending.value.objectId;
      MovedHolds(s, DoMarkStaged(s), p, s.registry.registrations[p].(phase := Staged), o, w);
    }
  }

  lemma ConnectHolds(s: State, p: u64, o: u64, w: Option<Window>)
    requires Holds(s, o, w)
    ensures Holds(DoConnected(s, p), o, After(s, DisplayConnected(p), o, w)) && DoConnected(s, p).retired == s.retired
  {
    hide Exports;
    if s.registry.MoveError(p, Staged, Connected).None? {
      MovedHolds(s, DoConnected(s, p), p, s.registry.registrations[p].(phase := Connected), o, w);
    }
  }

  lemma BindHolds(s: State, p: u64, t: u64, a: u32, o: u64, w: Option<Window>)
    requires s.Valid() && Holds(s, o, w)
    ensures Holds(DoBind(s, p, t, a), o, After(s, BindTask(p, t, a), o, w)) && DoBind(s, p, t, a).retired == s.retired
  {
    TaskIsFree(s.registry, t);
    hide State.Valid, Registry.Valid, Exports;
    if s.registry.BindError(p, t).None? {
      MovedHolds(s, DoBind(s, p, t, a), p, s.registry.registrations[p].(task := Some(t), androidDisplay := Some(a), phase := Bound), o, w);
    }
  }

  lemma TaskIsFree(r: Registry, t: u64)
    requires r.Valid()
    ensures t !in r.tasks <==> forall q :: !r.BoundTo(q, t)
  {
    if t in r.tasks {
      assert r.Indexes(t, r.tasks[t]);
    } else {
      forall q ensures !r.BoundTo(q, t) { assert r.Indexes(t, q) <==> r.BoundTo(q, t); }
    }
  }

  /** Every critical section moves every window exactly as its automaton does, and retires
      exactly the objects whose life it ends after staging or on request. */
  lemma StepLives(s: State, step: Step, o: u64, w: Option<Window>)
    requires s.Valid() && Holds(s, o, w)
    ensures Holds(Next(s, step), o, After(s, step, o, w))
    ensures o in Next(s, step).retired <==> o in s.retired || Retires(s, step, o, w)
  {
    hide State.Valid, Holds, Registry.ReserveError;
    match step
    case Reserve(package, direct) =>
      if s.pending.None? && s.registry.ReserveError(package).None? { ReserveHolds(s, package, direct, o, w); }
    case StageFailed => StageFailedHolds(s, o, w);
    case RegisterFailed => RegisterFailedHolds(s, o, w);
    case MarkStaged => MarkHolds(s, o, w);
    case DisplayConnected(p) => ConnectHolds(s, p, o, w);
    case BindTask(p, t, a) => BindHolds(s, p, t, a, o, w);
    case BeginRemoval(p) => BeginHolds(s, p, o, w);
    case FinishRemoval(p) => FinishHolds(s, p, o, w);
    case Registered => ReleasedHolds(s, o, w);
  }

  lemma ReleasedHolds(s: State, o: u64, w: Option<Window>)
    requires Holds(s, o, w)
    ensures Holds(s.(pending := None), o, w)
  {
  }

  // ------------------------------------------------------------------------------------
  // Runs

  /** The window under `o` after the first `n` steps, by the automaton alone. */
  ghost function Life(states: seq<State>, steps: seq<Step>, o: u64, n: nat): Option<Window>
    requires |states| == |steps| + 1 && n <= |steps|
  {
    if n == 0 then None else After(states[n - 1], steps[n - 1], o, Life(states, steps, o, n - 1))
  }

  lemma NewHolds(d: u64, o: u64, p: u64)
    ensures Holds(NewState(d, o), p, None)
  {
  }

  /** In every run the registry and the three export maps hold, of every object, exactly the
      window its automaton reached. */
  lemma {:induction false} MapsAreLives(states: seq<State>, steps: seq<Step>, o: u64, n: nat)
    requires IsRun(states, steps) && n < |states|
    ensures Holds(states[n], o, Life(states, steps, o, n))
  {
    hide Next, State.Valid, Holds, After;
    if n == 0 {
      var d, p :| 1 <= d <= MAX_EXTERNAL_ID && 1 <= p <= MAX_EXTERNAL_ID && states[0] == NewState(d, p);
      NewHolds(d, p, o);
    } else {
      MapsAreLives(states, steps, o, n - 1);
      RunIsValid(states, steps, n - 1);
      StepLives(states[n - 1], steps[n - 1], o, Life(states, steps, o, n - 1));
    }
  }

  /** An object is retired exactly if some step ended its life after staging or on request. */
  lemma {:induction false} RetiredIsHistory(states: seq<State>, steps: seq<Step>, o: u64, n: nat)
    requires IsRun(states, steps) && n < |states|
    ensures o in states[n].retired <==> exists i :: 0 <= i < n && Retires(states[i], steps[i], o, Life(states, steps, o, i))
  {
    hide Next, State.Valid, Holds, After, Retires, Life;
    if n == 0 {
      NothingRetired(states, steps);
    } else {
      RetiredIsHistory(states, steps, o, n - 1);
      MapsAreLives(states, steps, o, n - 1);
      RunIsValid(states, steps, n - 1);
      StepLives(states[n - 1], steps[n - 1], o, Life(states, steps, o, n - 1));
    }
  }

  lemma NothingRetired(states: seq<State>, steps: seq<Step>)
    requires IsRun(states, steps)
    ensures states[0].retired == {}
  {
  }

  function Rank(p: Phase): nat {
    match p
    case Reserved => 0
    case Staged => 1
    case Connected => 2
    case Bound => 3
    case Removing => 4
  }

  /** What a window is for life: its identities, its package, its export. */
  predicate SameWindow(v: Window, w: Window) {
    && v.registration.objectId == w.registration.objectId && v.registration.display == w.registration.display
    && v.registration.package == w.registration.package && v.exported == w.exported
  }

  /** Step `i` reserved the window that is live after step `n`, for this package and task. */
  ghost predicate ReservedAt(states: seq<State>, steps: seq<Step>, o: u64, i: nat, n: nat, w: Window)
    requires |states| == |steps| + 1
  {
    && i < n <= |steps| && Reserves(states[i], steps[i], o)
    && w.registration.objectId == o && w.registration.package == steps[i].package && w.exported == steps[i].direct
    && Some(w.registration.display) == states[i].registry.nextDisplay
  }

  /** Between its reservation and its end a window changes nothing but its phase, which only
      advances, and its task. */
  lemma WindowsAdvance(s: State, step: Step, o: u64, w: Option<Window>)
    requires w.Some? && After(s, step, o, w).Some? && !Reserves(s, step, o)
    ensures var v := After(s, step, o, w).value; SameWindow(w.value, v) && Rank(w.value.Phase()) <= Rank(v.Phase())
  {
    hide Reserves;
  }

  lemma OnlyReservedIsBorn(s: State, step: Step, o: u64)
    requires After(s, step, o, None).Some?
    ensures Reserves(s, step, o)
  {
    hide Reserves;
  }

  /** A live window is for good what its reservation asked for: package, display and task. */
  lemma {:induction false} WindowsKeepTheirReservation(states: seq<State>, steps: seq<Step>, o: u64, n: nat)
    requires IsRun(states, steps) && n < |states| && Life(states, steps, o, n).Some?
    ensures exists i: nat :: ReservedAt(states, steps, o, i, n, Life(states, steps, o, n).value)
  {
    var s, step, v, w := states[n - 1], steps[n - 1], Life(states, steps, o, n - 1), Life(states, steps, o, n).value;
    if Reserves(s, step, o) {
      ReservationIsGranted(s, step.package);
      hide Registry.ReserveError, Next, Life;
      assert ReservedAt(states, steps, o, n - 1, n, w);
    } else {
      hide Reserves, Next;
      if v.None? { OnlyReservedIsBorn(s, step, o); }
      WindowsAdvance(s, step, o, v);
      hide After;
      WindowsKeepTheirReservation(states, steps, o, n - 1);
      var i: nat :| ReservedAt(states, steps, o, i, n - 1, v.value);
      assert ReservedAt(states, steps, o, i, n, w);
    }
  }

  lemma ReservationIsGranted(s: State, package: Bytes)
    requires s.registry.ReserveError(package).None?
    ensures s.registry.nextDisplay.Some?
  {
    hide Text.ValidPackage;
  }

  /** A window is granted exactly while fewer than 4,096 are live, both identities are left and
      the package name is well formed. */
  lemma ReservesExactly(r: Registry, package: Bytes)
    requires r.Valid()
    ensures r.ReserveError(package).None? <==>
      |r.registrations| < 4096 && r.nextDisplay.Some? && r.nextObject.Some? && Text.ValidPackage(package)
  {
    hide Text.ValidPackage;
  }

  /** A connection is given a display exactly if the task's window is bound and not being
      removed, and it is that window's. */
  lemma SelectsExactly(states: seq<State>, steps: seq<Step>, n: nat, task: u64, d: u64)
    requires IsRun(states, steps) && n < |states|
    ensures SelectedDisplay(states[n], task) == Some(d) <==>
      exists o :: Serves(Life(states, steps, o, n), task, d)
  {
    hide Next, State.Valid, Life;
    var s := states[n];
    if SelectedDisplay(s, task) == Some(d) {
      var o := s.directTasks[task];
      MapsAreLives(states, steps, o, n);
      assert Owns(s.directTasks, task, o);
      assert Serves(Life(states, steps, o, n), task, d);
    }
    if o: u64 :| Serves(Life(states, steps, o, n), task, d) {
      MapsAreLives(states, steps, o, n);
      assert Owns(s.directTasks, task, o);
    }
  }

  predicate Serves(w: Option<Window>, task: u64, d: u64) {
    w.Some? && w.value.Phase().Bound? && w.value.exported.Some? && w.value.exported.value.task == task && w.value.registration.display == d
  }
}
