/** Identities of task windows: allocation, lifecycle phases and the task index. */
module Registry {
  import opened Base
  import opened Wire
  import opened Text

  const MAX_TASK_WINDOWS := 4096
  const MAX_EXTERNAL_ID: u64 := I64_MAX

  datatype Phase = Reserved | Staged | Connected | Bound | Removing

  datatype Registration = Registration(
    objectId: u64, display: u64, package: Bytes, task: Option<u64>, androidDisplay: Option<u32>, phase: Phase)

  datatype RegistryError =
    | TaskLimit
    | IdentifierExhausted
    | InvalidPackage
    | InvalidTask
    | DuplicateTask(task: u64)
    | UnknownObject(objectId: u64)
    | InvalidPhase(actual: Phase, requested: Phase)

  function NextExternalId(current: u64): (next: Option<u64>)
    ensures next.Some? ==> next.value == current + 1 && next.value <= MAX_EXTERNAL_ID
    ensures next.None? <==> current + 1 > MAX_EXTERNAL_ID
  {
    if current + 1 <= MAX_EXTERNAL_ID then Some(current + 1) else None
  }

  /** Every identity handed out so far is below this. */
  function Above(next: Option<u64>): u64 {
    if next.Some? then next.value else MAX_EXTERNAL_ID + 1
  }

  datatype Registry = Registry(
    registrations: map<u64, Registration>,
    tasks: map<u64, u64>,
    nextDisplay: Option<u64>,
    nextObject: Option<u64>)
  {
    function ReserveError(package: Bytes): Option<RegistryError> {
      if |registrations| >= MAX_TASK_WINDOWS then Some(TaskLimit)
      else if nextDisplay.None? || nextObject.None? then Some(IdentifierExhausted)
      else if nextDisplay.value == 0 || !ValidPackage(package) then Some(InvalidPackage)
      else None
    }

    function New(package: Bytes): Registration
      requires ReserveError(package).None?
    {
      Registration(nextObject.value, nextDisplay.value, package, None, None, Reserved)
    }

    function WithReservation(package: Bytes): Registry
      requires ReserveError(package).None?
    {
      Registry(registrations[nextObject.value := New(package)], tasks, NextExternalId(nextDisplay.value), NextExternalId(nextObject.value))
    }

    function MoveError(o: u64, from: Phase, to: Phase): Option<RegistryError> {
      if o !in registrations then Some(UnknownObject(o))
      else if registrations[o].phase != from then Some(InvalidPhase(registrations[o].phase, to))
      else None
    }

    function Moved(o: u64, to: Phase): Registry
      requires o in registrations
    {
      this.(registrations := registrations[o := registrations[o].(phase := to)])
    }

    function BindError(o: u64, task: u64): Option<RegistryError> {
      if task == 0 then Some(InvalidTask)
      else if task in tasks then Some(DuplicateTask(task))
      else MoveError(o, Connected, Bound)
    }

    function WithTask(o: u64, task: u64, androidDisplay: u32): Registry
      requires o in registrations
    {
      this.(registrations := registrations[o := registrations[o].(task := Some(task), androidDisplay := Some(androidDisplay), phase := Bound)],
            tasks := tasks[task := o])
    }

    function RemovalError(o: u64): Option<RegistryError> {
      if o !in registrations then Some(UnknownObject(o))
      else if registrations[o].phase.Reserved? || registrations[o].phase.Removing?
        then Some(InvalidPhase(registrations[o].phase, Removing))
      else None
    }

    function Without(o: u64): Registry
      requires o in registrations
    {
      this.(registrations := registrations - {o},
            tasks := if registrations[o].task.Some? then tasks - {registrations[o].task.value} else tasks)
    }

    predicate BoundTo(o: u64, t: u64) { o in registrations && registrations[o].task == Some(t) }

    predicate Indexes(t: u64, o: u64) { t in tasks && tasks[t] == o }

    /** The task index is the exact inverse of the bound registrations. */
    ghost predicate Indexed() { forall t, o :: Indexes(t, o) <==> BoundTo(o, t) }

    predicate InRange(o: u64) {
      && o in registrations && registrations[o].objectId == o
      && 1 <= o < Above(nextObject) && 1 <= registrations[o].display < Above(nextDisplay)
    }

    predicate Shows(o: u64, display: u64) { o in registrations && registrations[o].display == display }

    ghost predicate Numbered() {
      && (nextDisplay.Some? ==> 1 <= nextDisplay.value <= MAX_EXTERNAL_ID)
      && (nextObject.Some? ==> 1 <= nextObject.value <= MAX_EXTERNAL_ID)
      && (forall o :: o in registrations ==> InRange(o))
      && (forall o, p, d :: Shows(o, d) && Shows(p, d) ==> o == p)
    }

    predicate PhaseFits(o: u64) {
      o in registrations ==> (registrations[o].task.Some? ==> registrations[o].phase in {Bound, Removing})
    }

    ghost predicate Valid() {
      && Indexed() && Numbered()
      && |registrations| <= MAX_TASK_WINDOWS
      && (forall o :: PhaseFits(o))
    }

    lemma ReserveKeepsValid(package: Bytes)
      requires Valid() && ReserveError(package).None?
      ensures WithReservation(package).Valid()
      ensures nextObject.value !in registrations
      ensures Above(nextObject) == nextObject.value < Above(WithReservation(package).nextObject)
      ensures Above(nextDisplay) == nextDisplay.value < Above(WithReservation(package).nextDisplay)
    {
      hide ValidPackage;
      var r, n := WithReservation(package), nextObject.value;
      assert n !in registrations by { assert n in registrations ==> InRange(n); }
      assert r.registrations.Keys == registrations.Keys + {n};
      forall t, o ensures r.Indexes(t, o) <==> r.BoundTo(o, t) { assert Indexes(t, o) <==> BoundTo(o, t); }
      forall o | o in r.registrations ensures r.InRange(o) { if o != n { assert InRange(o); } }
      forall o, p, d | r.Shows(o, d) && r.Shows(p, d) ensures o == p {
        assert o != n ==> InRange(o) && Shows(o, d);
        assert p != n ==> InRange(p) && Shows(p, d);
      }
      forall o ensures r.PhaseFits(o) { assert PhaseFits(o); }
    }

    lemma MoveKeepsValid(o: u64, to: Phase)
      requires Valid() && o in registrations && (registrations[o].task.Some? ==> to in {Bound, Removing})
      ensures Moved(o, to).Valid()
    {
      var r := Moved(o, to);
      assert r.registrations.Keys == registrations.Keys;
      forall t, p ensures r.Indexes(t, p) <==> r.BoundTo(p, t) { assert Indexes(t, p) <==> BoundTo(p, t); }
      forall p | p in r.registrations ensures r.InRange(p) { assert InRange(p); }
      forall p, q, d | r.Shows(p, d) && r.Shows(q, d) ensures p == q { assert Shows(p, d) && Shows(q, d); }
      forall p ensures r.PhaseFits(p) { assert PhaseFits(p); }
    }

    lemma BindKeepsValid(o: u64, task: u64, androidDisplay: u32)
      requires Valid() && BindError(o, task).None?
      ensures WithTask(o, task, androidDisplay).Valid()
    {
      var r := WithTask(o, task, androidDisplay);
      assert r.registrations.Keys == registrations.Keys;
      assert PhaseFits(o);
      forall t, p ensures r.Indexes(t, p) <==> r.BoundTo(p, t) { assert Indexes(t, p) <==> BoundTo(p, t); }
      forall p | p in r.registrations ensures r.InRange(p) { assert InRange(p); }
      forall p, q, d | r.Shows(p, d) && r.Shows(q, d) ensures p == q { assert Shows(p, d) && Shows(q, d); }
      forall p ensures r.PhaseFits(p) { assert PhaseFits(p); }
    }

    lemma RemoveKeepsValid(o: u64)
      requires Valid() && o in registrations
      ensures Without(o).Valid()
    {
      var r := Without(o);
      assert r.registrations.Keys == registrations.Keys - {o};
      forall t, p ensures r.Indexes(t, p) <==> r.BoundTo(p, t) { assert Indexes(t, p) <==> BoundTo(p, t); assert Indexes(t, o) <==> BoundTo(o, t); }
      forall p | p in r.registrations ensures r.InRange(p) { assert InRange(p); }
      forall p, q, d | r.Shows(p, d) && r.Shows(q, d) ensures p == q { assert Shows(p, d) && Shows(q, d); }
      forall p ensures r.PhaseFits(p) { assert PhaseFits(p); }
    }
  }

  /** The registry with its fields updated in place. */
  class TaskControlRegistry {
    var registrations: map<u64, Registration>
    var tasks: map<u64, u64>
    var nextDisplay: Option<u64>
    var nextObject: Option<u64>

    ghost function View(): Registry reads this { Registry(registrations, tasks, nextDisplay, nextObject) }

    constructor (firstDisplay: u64, firstObject: u64)
      requires 1 <= firstDisplay <= MAX_EXTERNAL_ID && 1 <= firstObject <= MAX_EXTERNAL_ID
      ensures View() == Registry(map[], map[], Some(firstDisplay), Some(firstObject)) && View().Valid()
    {
      registrations, tasks, nextDisplay, nextObject := map[], map[], Some(firstDisplay), Some(firstObject);
    }

    method Reserve(package: Bytes) returns (r: Result<Registration, RegistryError>)
      requires View().Valid()
      modifies this
      ensures View().Valid()
      ensures match old(View()).ReserveError(package)
              case Some(error) => r == Err(error) && View() == old(View())
              case None => r == Ok(old(View()).New(package)) && View() == old(View()).WithReservation(package)
    {
      if View().ReserveError(package).None? { View().ReserveKeepsValid(package); }
      hide Registry.Valid, ValidPackage;
      if |registrations| >= MAX_TASK_WINDOWS {
        return Err(TaskLimit);
      }
      if nextDisplay.None? || nextObject.None? {
        return Err(IdentifierExhausted);
      }
      var display, o := nextDisplay.value, nextObject.value;
      if display == 0 || !ValidPackage(package) {
        return Err(InvalidPackage);
      }
      nextDisplay := NextExternalId(display);
      nextObject := NextExternalId(o);
      var registration := Registration(o, display, package, None, None, Reserved);
      registrations := registrations[o := registration];
      return Ok(registration);
    }

    method BindTask(o: u64, task: u64, androidDisplay: u32) returns (error: Option<RegistryError>)
      requires View().Valid()
      modifies this
      ensures View().Valid() && error == old(View()).BindError(o, task)
      ensures View() == if error.None? then old(View()).WithTask(o, task, androidDisplay) else old(View())
    {
      if View().BindError(o, task).None? { View().BindKeepsValid(o, task, androidDisplay); }
      hide Registry.Valid;
      if task == 0 {
        return Some(InvalidTask);
      }
      if task in tasks {
        return Some(DuplicateTask(task));
      }
      if o !in registrations {
        return Some(UnknownObject(o));
      }
      if !registrations[o].phase.Connected? {
        return Some(InvalidPhase(registrations[o].phase, Bound));
      }
      registrations := registrations[o := registrations[o].(task := Some(task), androidDisplay := Some(androidDisplay), phase := Bound)];
      tasks := tasks[task := o];
      return None;
    }

    method RemoveInPhase(o: u64, expected: Phase) returns (error: Option<RegistryError>)
      requires View().Valid()
      modifies this
      ensures View().Valid() && error == old(View()).MoveError(o, expected, expected)
      ensures View() == if error.None? then old(View()).Without(o) else old(View())
    {
      if o in registrations { View().RemoveKeepsValid(o); }
      hide Registry.Valid;
      if o !in registrations {
        return Some(UnknownObject(o));
      }
      if registrations[o].phase != expected {
        return Some(InvalidPhase(registrations[o].phase, expected));
      }
      var task := registrations[o].task;
      registrations := registrations - {o};
      if task.Some? {
        tasks := tasks - {task.value};
      }
      return None;
    }
  }
}
