/** The bounded, coalescing backlog of host-window commands. */
module Commands {
  import opened Base

  const MAX_PENDING := 256
  // 80 milliseconds, in nanoseconds.
  const RESIZE_DEBOUNCE: nat := 80_000_000

  datatype TaskAction = Focus | Resize(width: u32, height: u32) | Close

  datatype TaskCommand = TaskCommand(objectId: u64, task: u64, incarnation: u64, display: u32, action: TaskAction) {
    predicate Identified() {
      && 0 < incarnation <= I64_MAX
      && 0 < objectId <= I64_MAX
      && 0 < task <= I32_MAX
      && display == 0
    }

    predicate Bounded() {
      action.Resize? ==> 0 < action.width <= 16384 && 0 < action.height <= 16384
    }

    predicate Valid() { Identified() && Bounded() }
  }

  datatype CommandError = BadIdentity | BadBounds | SerialExhausted | Backlog

  datatype Pending = Pending(command: TaskCommand, ready: nat)

  /** A new command makes an older pending one pointless. */
  predicate Supersedes(newer: TaskCommand, older: TaskCommand) {
    match newer.action
    case Close => older.objectId == newer.objectId
    case Focus => older.action.Focus?
    case Resize(_, _) => older.objectId == newer.objectId && older.action.Resize?
  }

  datatype Queue = Queue(pending: map<u64, Pending>, closed: set<u64>, resized: set<u64>, next: u64) {
    function Retained(c: TaskCommand): map<u64, Pending> {
      map s | s in pending && !Supersedes(c, pending[s].command) :: pending[s]
    }

    function PushError(c: TaskCommand): Option<CommandError> {
      if !c.Identified() then Some(BadIdentity)
      else if !c.Bounded() then Some(BadBounds)
      else if c.objectId in closed then None
      else if next + 1 > I64_MAX then Some(SerialExhausted)
      else if |Retained(c)| >= MAX_PENDING then Some(Backlog)
      else None
    }

    /** The push enqueues something, rather than being refused or ignored. */
    predicate Accepts(c: TaskCommand) {
      PushError(c).None? && c.objectId !in closed
    }

    function ReadyAt(c: TaskCommand, now: nat): nat {
      if c.action.Resize? && c.objectId in resized then now + RESIZE_DEBOUNCE else now
    }

    /** Coalescing runs before the backlog is checked, so it has happened on that refusal too. */
    function Pushed(c: TaskCommand, now: nat): Queue {
      if PushError(c) == Some(Backlog) then this.(pending := Retained(c))
      else if !Accepts(c) then this
      else
        Queue(Retained(c)[next + 1 := Pending(c, ReadyAt(c, now))],
              if c.action.Close? then closed + {c.objectId} else closed,
              if c.action.Resize? then resized + {c.objectId} else resized,
              next + 1)
    }

    function Acknowledged(serial: u64): Queue { this.(pending := pending - {serial}) }

    function Discarded(o: u64): Queue {
      Queue(map s | s in pending && pending[s].command.objectId != o :: pending[s], closed - {o}, resized - {o}, next)
    }

    ghost predicate Bounded() {
      && |pending| <= MAX_PENDING
      && next <= I64_MAX
      && forall s :: s in pending ==> 0 < s <= next
    }

    /** A refused push changes nothing: when the backlog is full after coalescing, nothing
        was coalesced. */
    lemma RefusedPushChangesNothing(c: TaskCommand, now: nat)
      requires Bounded() && PushError(c).Some?
      ensures Pushed(c, now) == this
    {
      if PushError(c) == Some(Backlog) {
        SubmapOfSameSize(Retained(c), pending);
      }
    }

    lemma PushedIsBounded(c: TaskCommand, now: nat)
      requires Bounded()
      ensures Pushed(c, now).Bounded()
    {
      var kept := Retained(c);
      SubmapSize(kept, pending);
      if Accepts(c) {
        assert kept[next + 1 := Pending(c, ReadyAt(c, now))].Keys == kept.Keys + {next + 1};
      }
    }

    lemma RemovalsAreBounded(serial: u64, o: u64)
      requires Bounded()
      ensures Acknowledged(serial).Bounded() && Discarded(o).Bounded()
    {
      SubmapSize(Acknowledged(serial).pending, pending);
      SubmapSize(Discarded(o).pending, pending);
    }
  }

  const EMPTY := Queue(map[], {}, {}, 0)

  lemma {:induction false} SubsetSize<T>(a: set<T>, b: set<T>)
    requires a <= b
    ensures |a| <= |b| && (|a| == |b| ==> a == b)
    decreases a
  {
    if a != {} {
      var x :| x in a;
      SubsetSize(a - {x}, b - {x});
      assert a == (a - {x}) + {x} && b == (b - {x}) + {x};
    }
  }

  lemma SubmapSize(a: map<u64, Pending>, b: map<u64, Pending>)
    requires forall s :: s in a ==> s in b && a[s] == b[s]
    ensures |a| <= |b|
  {
    SubsetSize(a.Keys, b.Keys);
    assert |a| == |a.Keys| && |b| == |b.Keys|;
  }

  lemma SubmapOfSameSize(a: map<u64, Pending>, b: map<u64, Pending>)
    requires (forall s :: s in a ==> s in b && a[s] == b[s]) && |a| >= |b|
    ensures a == b
  {
    assert a.Keys <= b.Keys;
    SubsetSize(a.Keys, b.Keys);
    assert |a| == |a.Keys| && |b| == |b.Keys|;
  }

  // ------------------------------------------------------------------------------------
  // The specification: what the history of the queue says

  datatype Op = Push(command: TaskCommand, now: nat) | Acknowledge(serial: u64) | Discard(objectId: u64)

  datatype Event =
    | Accepted(serial: u64, command: TaskCommand, ready: nat)
    | Acked(serial: u64)
    | Dropped(objectId: u64)
    | Nothing

  function Step(q: Queue, op: Op): Queue {
    match op
    case Push(c, now) => q.Pushed(c, now)
    case Acknowledge(serial) => q.Acknowledged(serial)
    case Discard(o) => q.Discarded(o)
  }

  function EventOf(q: Queue, op: Op): Event {
    match op
    case Push(c, now) => if q.Accepts(c) then Accepted(q.next + 1, c, q.ReadyAt(c, now)) else Nothing
    case Acknowledge(serial) => Acked(serial)
    case Discard(o) => Dropped(o)
  }

  function Run(ops: seq<Op>): Queue
    decreases |ops|
  {
    if ops == [] then EMPTY else Step(Run(ops[..|ops| - 1]), ops[|ops| - 1])
  }

  function Log(ops: seq<Op>): (log: seq<Event>)
    ensures |log| == |ops|
    decreases |ops|
  {
    if ops == [] then [] else Log(ops[..|ops| - 1]) + [EventOf(Run(ops[..|ops| - 1]), ops[|ops| - 1])]
  }

  /** The later event `e` ends the pending command of the accepted event `a`. */
  predicate Ends(e: Event, a: Event)
    requires a.Accepted?
  {
    match e
    case Accepted(_, c, _) => Supersedes(c, a.command)
    case Acked(serial) => serial == a.serial
    case Dropped(o) => o == a.command.objectId
    case Nothing => false
  }

  /** The command accepted at `i` was neither superseded, acknowledged nor discarded since. */
  ghost predicate Alive(log: seq<Event>, i: int) {
    0 <= i < |log| && log[i].Accepted? && forall j :: i < j < |log| ==> !Ends(log[j], log[i])
  }

  /** A command of `o` for which `kind` holds was accepted since `o` was last discarded. */
  ghost predicate Since(log: seq<Event>, o: u64, close: bool) {
    exists i :: 0 <= i < |log| && log[i].Accepted? && log[i].command.objectId == o
      && (if close then log[i].command.action.Close? else log[i].command.action.Resize?)
      && forall j :: i < j < |log| ==> log[j] != Dropped(o)
  }

  /** The command pending under `s` is the one accepted at `i`. */
  ghost predicate From(q: Queue, log: seq<Event>, s: u64, i: int) {
    s in q.pending && Alive(log, i) && log[i].serial == s && q.pending[s] == Pending(log[i].command, log[i].ready)
  }

  ghost predicate Numbered(q: Queue, log: seq<Event>) {
    && (forall i :: 0 <= i < |log| && log[i].Accepted? ==> 0 < log[i].serial <= q.next)
    && (forall i, j :: 0 <= i < j < |log| && log[i].Accepted? && log[j].Accepted? ==> log[i].serial < log[j].serial)
  }

  ghost predicate PendingIsAlive(q: Queue, log: seq<Event>)
  {
    && (forall s :: s in q.pending ==> exists i :: From(q, log, s, i))
    && (forall i :: Alive(log, i) ==> log[i].serial in q.pending)
  }

  ghost predicate Flagged(q: Queue, log: seq<Event>) {
    && (forall o :: o in q.closed <==> Since(log, o, true))
    && (forall o :: o in q.resized <==> Since(log, o, false))
  }

  ghost predicate Describes(q: Queue, log: seq<Event>) {
    q.Bounded() && Numbered(q, log) && PendingIsAlive(q, log) && Flagged(q, log)
  }

  lemma AliveAppend(log: seq<Event>, e: Event, i: int)
    ensures Alive(log + [e], i) <==> (Alive(log, i) && !Ends(e, log[i])) || (i == |log| && e.Accepted?)
  {
    var l := log + [e];
    if 0 <= i < |log| && log[i].Accepted? {
      assert l[i] == log[i] && l[|log|] == e;
      if Alive(log, i) && !Ends(e, log[i]) {
        forall j | i < j < |l| ensures !Ends(l[j], l[i]) {
          if j < |log| { assert l[j] == log[j]; }
        }
      }
      if Alive(l, i) {
        assert !Ends(l[|log|], l[i]);
        forall j | i < j < |log| ensures !Ends(log[j], log[i]) { assert l[j] == log[j]; }
      }
    }
  }

  lemma SinceAppend(log: seq<Event>, e: Event, o: u64, close: bool)
    ensures Since(log + [e], o, close) <==>
      || (Since(log, o, close) && e != Dropped(o))
      || (e.Accepted? && e.command.objectId == o && (if close then e.command.action.Close? else e.command.action.Resize?))
  {
    var l := log + [e];
    if Since(l, o, close) && e != Dropped(o) {
      var i :| 0 <= i < |l| && l[i].Accepted? && l[i].command.objectId == o
        && (if close then l[i].command.action.Close? else l[i].command.action.Resize?)
        && forall j :: i < j < |l| ==> l[j] != Dropped(o);
      if i < |log| {
        assert log[i] == l[i];
        forall j | i < j < |log| ensures log[j] != Dropped(o) { assert l[j] == log[j]; }
      }
    }
    if Since(log, o, close) && e != Dropped(o) {
      var i :| 0 <= i < |log| && log[i].Accepted? && log[i].command.objectId == o
        && (if close then log[i].command.action.Close? else log[i].command.action.Resize?)
        && forall j :: i < j < |log| ==> log[j] != Dropped(o);
      assert l[i] == log[i];
      forall j | i < j < |l| ensures l[j] != Dropped(o) { if j < |log| { assert l[j] == log[j]; } }
    }
    assert l[|log|] == e;
    if e == Dropped(o) {
      forall i | 0 <= i < |l| && l[i].Accepted? ensures exists j :: i < j < |l| && l[j] == Dropped(o) {
        assert l[|log|] == Dropped(o);
      }
    }
  }

  /** What one step does to the pending map, in the words of its event. */
  lemma StepPending(q: Queue, op: Op)
    requires q.Bounded()
    ensures var e, r := EventOf(q, op), Step(q, op);
      && (forall s :: s in r.pending <==>
            || (e.Accepted? && s == e.serial)
            || (s in q.pending && match e
                  case Accepted(_, c, _) => !Supersedes(c, q.pending[s].command)
                  case Acked(serial) => s != serial
                  case Dropped(o) => q.pending[s].command.objectId != o
                  case Nothing => true))
      && (forall s :: s in r.pending ==>
            r.pending[s] == if e.Accepted? && s == e.serial then Pending(e.command, e.ready) else q.pending[s])
      && (e.Accepted? ==> e.serial == q.next + 1)
      && r.next == if e.Accepted? then e.serial else q.next
  {
    if op.Push? && q.PushError(op.command).Some? {
      q.RefusedPushChangesNothing(op.command, op.now);
    }
  }

  lemma StepFlags(q: Queue, op: Op)
    requires q.Bounded()
    ensures var e, r := EventOf(q, op), Step(q, op);
      && r.closed == (match e
           case Accepted(_, c, _) => if c.action.Close? then q.closed + {c.objectId} else q.closed
           case Dropped(o) => q.closed - {o}
           case _ => q.closed)
      && r.resized == (match e
           case Accepted(_, c, _) => if c.action.Resize? then q.resized + {c.objectId} else q.resized
           case Dropped(o) => q.resized - {o}
           case _ => q.resized)
  {
  }

  lemma NumberedStep(q: Queue, log: seq<Event>, op: Op)
    requires q.Bounded() && Numbered(q, log)
    ensures Numbered(Step(q, op), log + [EventOf(q, op)])
  {
    StepPending(q, op);
    hide Step;
  }

  lemma PendingStep(q: Queue, log: seq<Event>, op: Op)
    requires q.Bounded() && Numbered(q, log) && PendingIsAlive(q, log)
    ensures PendingIsAlive(Step(q, op), log + [EventOf(q, op)])
  {
    var e, r := EventOf(q, op), Step(q, op);
    var l := log + [e];
    hide Step, EventOf, Alive, From;
    forall s | s in r.pending ensures exists i :: From(r, l, s, i) {
      var i := PendingHasEvent(q, log, op, s);
    }
    forall i | Alive(l, i) ensures 0 <= i < |l| && l[i].Accepted? && l[i].serial in r.pending {
      AliveIsPending(q, log, op, i);
    }
  }

  lemma PendingHasEvent(q: Queue, log: seq<Event>, op: Op, s: u64) returns (i: int)
    requires q.Bounded() && PendingIsAlive(q, log) && s in Step(q, op).pending
    ensures From(Step(q, op), log + [EventOf(q, op)], s, i)
  {
    var e := EventOf(q, op);
    StepPending(q, op);
    hide Step, EventOf, Alive, Supersedes;
    if e.Accepted? && s == e.serial {
      i := |log|;
    } else {
      i :| From(q, log, s, i);
      AliveIsAccepted(log, i);
      assert (log + [e])[i] == log[i];
    }
    AliveAppend(log, e, i);
  }

  lemma AliveIsPending(q: Queue, log: seq<Event>, op: Op, i: int)
    requires q.Bounded() && Numbered(q, log) && PendingIsAlive(q, log) && Alive(log + [EventOf(q, op)], i)
    ensures 0 <= i <= |log| && (log + [EventOf(q, op)])[i].Accepted?
    ensures (log + [EventOf(q, op)])[i].serial in Step(q, op).pending
  {
    var e := EventOf(q, op);
    StepPending(q, op);
    AliveAppend(log, e, i);
    AliveIsAccepted(log + [e], i);
    if i < |log| {
      assert (log + [e])[i] == log[i];
      PendingIsThatEvent(q, log, i);
    }
    hide Step, EventOf, Alive, Supersedes, PendingIsAlive, Numbered;
  }

  /** Serials identify events, so a pending serial is the event that got it. */
  lemma PendingIsThatEvent(q: Queue, log: seq<Event>, i: nat)
    requires Numbered(q, log) && PendingIsAlive(q, log) && i < |log| && log[i].Accepted? && log[i].serial in q.pending
    ensures From(q, log, log[i].serial, i)
  {
    var k :| From(q, log, log[i].serial, k);
    assert !(k < i) && !(i < k);
  }

  lemma AliveIsAccepted(log: seq<Event>, i: int)
    requires Alive(log, i)
    ensures 0 <= i < |log| && log[i].Accepted?
  {
  }

  lemma FlagsStep(q: Queue, log: seq<Event>, op: Op)
    requires q.Bounded() && Flagged(q, log)
    ensures Flagged(Step(q, op), log + [EventOf(q, op)])
  {
    var e := EventOf(q, op);
    StepFlags(q, op);
    hide Step, EventOf, Since;
    forall o: u64 | true ensures o in Step(q, op).closed <==> Since(log + [e], o, true) { SinceAppend(log, e, o, true); }
    forall o: u64 | true ensures o in Step(q, op).resized <==> Since(log + [e], o, false) { SinceAppend(log, e, o, false); }
  }

  lemma StepBounded(q: Queue, op: Op)
    requires q.Bounded()
    ensures Step(q, op).Bounded()
  {
    match op
    case Push(c, now) => q.PushedIsBounded(c, now);
    case Acknowledge(serial) => q.RemovalsAreBounded(serial, 0);
    case Discard(o) => q.RemovalsAreBounded(0, o);
  }

  /** For every history the queue is what the history says: pending are exactly the
      accepted commands that were neither superseded, acknowledged nor discarded, each with
      its own serial and deadline; serials strictly increase; the backlog is bounded. */
  lemma {:induction false} QueueIsHistory(ops: seq<Op>)
    ensures Describes(Run(ops), Log(ops))
    decreases |ops|
  {
    if ops != [] {
      var rest := ops[..|ops| - 1];
      var q, log, op := Run(rest), Log(rest), ops[|ops| - 1];
      QueueIsHistory(rest);
      hide Step, EventOf, Queue.Bounded, Numbered, PendingIsAlive, Flagged;
      NumberedStep(q, log, op);
      PendingStep(q, log, op);
      FlagsStep(q, log, op);
      StepBounded(q, op);
    } else {
      assert Log(ops) == [];
      assert forall i :: !Alive([], i);
    }
  }

  // ------------------------------------------------------------------------------------
  // What the specification implies

  /** After a close was accepted nothing of that object is accepted until it is discarded. */
  ghost predicate CloseIsFinal(log: seq<Event>) {
    forall i, j :: 0 <= i < j < |log| && Closes(log[i]) && SameObject(log[i], log[j]) ==>
      exists k :: i < k < j && log[k] == Dropped(log[i].command.objectId)
  }

  predicate Closes(e: Event) { e.Accepted? && e.command.action.Close? }

  predicate SameObject(a: Event, b: Event) { a.Accepted? && b.Accepted? && a.command.objectId == b.command.objectId }

  lemma {:induction false} ClosesAreFinal(ops: seq<Op>)
    ensures CloseIsFinal(Log(ops))
    decreases |ops|
  {
    if ops != [] {
      var rest := ops[..|ops| - 1];
      var q, log, op := Run(rest), Log(rest), ops[|ops| - 1];
      var e := EventOf(q, op);
      ClosesAreFinal(rest);
      QueueIsHistory(rest);
      hide Queue.Bounded, Numbered, PendingIsAlive;
      var l := Log(ops);
      assert l == log + [e];
      forall i, j | 0 <= i < j < |l| && Closes(l[i]) && SameObject(l[i], l[j])
        ensures exists k :: i < k < j && l[k] == Dropped(l[i].command.objectId)
      {
        assert l[i] == log[i];
        if j < |log| {
          assert l[j] == log[j];
          var k :| i < k < j && log[k] == Dropped(log[i].command.objectId);
          assert l[k] == log[k];
        } else {
          OpenIsUnsince(q, log, op, i);
          var k :| i < k < |log| && log[k] == Dropped(log[i].command.objectId);
          assert l[k] == log[k];
        }
      }
    }
  }

  lemma OpenIsUnsince(q: Queue, log: seq<Event>, op: Op, i: nat)
    requires Flagged(q, log) && EventOf(q, op).Accepted? && i < |log| && log[i].Accepted? && log[i].command.action.Close?
    requires EventOf(q, op).command.objectId == log[i].command.objectId
    ensures exists k :: i < k < |log| && log[k] == Dropped(log[i].command.objectId)
  {
    var o := log[i].command.objectId;
    assert o !in q.closed;
    assert !Since(log, o, true);
  }

  /** At most one resize of each object is pending, and it is the last one accepted. */
  lemma OneResizePerObject(ops: seq<Op>, i: nat, j: nat)
    requires var log := Log(ops); Alive(log, i) && log[i].command.action.Resize?
    requires j < |Log(ops)| && SameObject(Log(ops)[i], Log(ops)[j]) && Log(ops)[j].command.action.Resize?
    ensures j <= i
  {
    var log := Log(ops);
    assert Ends(log[j], log[i]);
  }

  /** At most one focus is pending in the whole queue, and it is the last one accepted. */
  lemma OneFocus(ops: seq<Op>, i: nat, j: nat)
    requires var log := Log(ops); Alive(log, i) && log[i].command.action.Focus?
    requires var log := Log(ops); j < |log| && log[j].Accepted? && log[j].command.action.Focus?
    ensures j <= i
  {
    var log := Log(ops);
    assert Ends(log[j], log[i]);
  }

  /** Of a closed object only the close can be pending. */
  lemma OnlyCloseWhenClosed(ops: seq<Op>, i: nat)
    requires Alive(Log(ops), i) && Log(ops)[i].command.objectId in Run(ops).closed
    ensures Log(ops)[i].command.action.Close?
  {
    hide Run, Log, Queue.Bounded, Numbered, PendingIsAlive;
    QueueIsHistory(ops);
    ClosesAreFinal(ops);
    AliveInClosed(Log(ops), i);
  }

  lemma AliveInClosed(log: seq<Event>, i: nat)
    requires Alive(log, i) && CloseIsFinal(log) && Since(log, log[i].command.objectId, true)
    ensures log[i].command.action.Close?
  {
    var o := log[i].command.objectId;
    var c :| 0 <= c < |log| && log[c].Accepted? && log[c].command.objectId == o && log[c].command.action.Close?
      && forall j :: c < j < |log| ==> log[j] != Dropped(o);
    if c > i {
      assert Ends(log[c], log[i]);
    } else if c < i {
      assert Closes(log[c]) && SameObject(log[c], log[i]);
    }
  }

  /** Nothing ended the command accepted at `i` but its own acknowledgement or a discard. */
  ghost predicate Untouched(log: seq<Event>, i: nat)
    requires i < |log| && log[i].Accepted?
  {
    forall j :: i < j < |log| ==> log[j] != Acked(log[i].serial) && log[j] != Dropped(log[i].command.objectId)
  }

  lemma PendingIffUntouched(q: Queue, log: seq<Event>, i: nat)
    requires Numbered(q, log) && PendingIsAlive(q, log) && i < |log| && log[i].Accepted?
    requires Untouched(log, i) ==> forall j :: i < j < |log| && log[j].Accepted? ==> !Supersedes(log[j].command, log[i].command)
    ensures log[i].serial in q.pending <==> Untouched(log, i)
  {
    if Untouched(log, i) {
      assert Alive(log, i);
    }
    if log[i].serial in q.pending {
      PendingIsThatEvent(q, log, i);
      forall j | i < j < |log| ensures log[j] != Acked(log[i].serial) && log[j] != Dropped(log[i].command.objectId) {
        assert !Ends(log[j], log[i]);
      }
    }
  }

  /** A close is never lost: once accepted it stays pending until its own serial is
      acknowledged or its object discarded. Nothing supersedes it. */
  lemma CloseIsNeverLost(ops: seq<Op>, i: nat)
    requires i < |Log(ops)| && Closes(Log(ops)[i])
    ensures Log(ops)[i].serial in Run(ops).pending <==> Untouched(Log(ops), i)
  {
    hide Run, Log, Queue.Bounded, Numbered, PendingIsAlive, Flagged;
    var log := Log(ops);
    QueueIsHistory(ops);
    ClosesAreFinal(ops);
    NothingSupersedesClose(log, i);
    PendingIffUntouched(Run(ops), log, i);
  }

  lemma NothingSupersedesClose(log: seq<Event>, i: nat)
    requires CloseIsFinal(log) && i < |log| && Closes(log[i])
    ensures Untouched(log, i) ==> forall j :: i < j < |log| && log[j].Accepted? ==> !Supersedes(log[j].command, log[i].command)
  {
    assert forall j :: i < j < |log| && log[j].Accepted? && Supersedes(log[j].command, log[i].command) ==> SameObject(log[i], log[j]);
  }

  /** The final resize of an object is never lost either: unless a close followed, it is
      missing only if its own serial was acknowledged or the object was discarded. */
  lemma LastResizeIsNeverLost(ops: seq<Op>, i: nat)
    requires i < |Log(ops)| && Log(ops)[i].Accepted? && Log(ops)[i].command.action.Resize?
    requires forall j :: i < j < |Log(ops)| && SameObject(Log(ops)[i], Log(ops)[j]) ==> Log(ops)[j].command.action.Focus?
    ensures Log(ops)[i].serial in Run(ops).pending <==> Untouched(Log(ops), i)
  {
    hide Run, Log, Queue.Bounded, Numbered, PendingIsAlive, Flagged;
    var log := Log(ops);
    QueueIsHistory(ops);
    forall j | i < j < |log| && log[j].Accepted? ensures !Supersedes(log[j].command, log[i].command) {
      assert SameObject(log[i], log[j]) ==> log[j].command.action.Focus?;
    }
    PendingIffUntouched(Run(ops), log, i);
  }

  predicate Focuses(e: Event) { e.Accepted? && e.command.action.Focus? }

  /** The last focus is never lost: followed by no accepted focus and by no accepted close of
      its own object, it is missing only if its own serial was acknowledged or its object was
      discarded, whatever was resized and whatever other objects were told. */
  lemma LastFocusIsNeverLost(ops: seq<Op>, i: nat)
    requires i < |Log(ops)| && Focuses(Log(ops)[i])
    requires forall j :: i < j < |Log(ops)| ==> !Focuses(Log(ops)[j])
    requires forall j :: i < j < |Log(ops)| && SameObject(Log(ops)[i], Log(ops)[j]) ==> !Closes(Log(ops)[j])
    ensures Log(ops)[i].serial in Run(ops).pending <==> Untouched(Log(ops), i)
  {
    hide Run, Log, Queue.Bounded, Numbered, PendingIsAlive, Flagged;
    var log := Log(ops);
    QueueIsHistory(ops);
    forall j | i < j < |log| && log[j].Accepted? ensures !Supersedes(log[j].command, log[i].command) {
      assert !Focuses(log[j]) && (SameObject(log[i], log[j]) ==> !Closes(log[j]));
    }
    PendingIffUntouched(Run(ops), log, i);
  }

  /** Another command makes an accepted one pointless: a close any of its object, a focus any
      focus, a resize any resize of its object. */
  predicate Outdates(later: Event, e: Event) {
    || (Closes(later) && SameObject(e, later))
    || (Focuses(e) && Focuses(later))
    || (SameObject(e, later) && e.command.action.Resize? && later.command.action.Resize?)
  }

  /** For every history and every accepted command: it is pending if and only if it was neither
      acknowledged nor discarded nor outdated since. */
  lemma PendingExactly(ops: seq<Op>, i: nat)
    requires i < |Log(ops)| && Log(ops)[i].Accepted?
    ensures Log(ops)[i].serial in Run(ops).pending <==>
              Untouched(Log(ops), i) && forall j :: i < j < |Log(ops)| ==> !Outdates(Log(ops)[j], Log(ops)[i])
  {
    hide Run, Log, Queue.Bounded, Flagged;
    var q, log := Run(ops), Log(ops);
    QueueIsHistory(ops);
    AliveMeans(log, i);
    if log[i].serial in q.pending { PendingIsThatEvent(q, log, i); }
    hide Alive, Outdates;
  }

  lemma AliveMeans(log: seq<Event>, i: nat)
    requires i < |log| && log[i].Accepted?
    ensures Alive(log, i) <==> Untouched(log, i) && forall j :: i < j < |log| ==> !Outdates(log[j], log[i])
  {
    forall j | i < j < |log|
      ensures Ends(log[j], log[i]) <==>
        log[j] == Acked(log[i].serial) || log[j] == Dropped(log[i].command.objectId) || Outdates(log[j], log[i])
    {
    }
  }

  /** A command is refused exactly when an identity or a dimension is out of bounds, when its
      object is open and serials have run out, or when 256 other commands wait and it outdates
      none of them. One for a closed object is ignored. */
  lemma PushRefusesExactly(ops: seq<Op>, c: TaskCommand)
    ensures var q := Run(ops);
      q.PushError(c) ==
        if !(0 < c.incarnation <= I64_MAX && 0 < c.objectId <= I64_MAX && 0 < c.task <= I32_MAX && c.display == 0) then Some(BadIdentity)
        else if c.action.Resize? && !(0 < c.action.width <= 16384 && 0 < c.action.height <= 16384) then Some(BadBounds)
        else if c.objectId in q.closed then None
        else if q.next == I64_MAX then Some(SerialExhausted)
        else if |q.pending| == 256 && forall s :: s in q.pending ==> !Outdates(Accepted(0, c, 0), Accepted(s, q.pending[s].command, 0)) then Some(Backlog)
        else None
  {
    hide Run, Log, Numbered, PendingIsAlive, Flagged;
    QueueIsHistory(ops);
    var q := Run(ops);
    assert forall s :: s in q.pending ==>
      (Outdates(Accepted(0, c, 0), Accepted(s, q.pending[s].command, 0)) <==> Supersedes(c, q.pending[s].command));
    hide Outdates, Supersedes;
    SubmapSize(q.Retained(c), q.pending);
    if |q.Retained(c)| >= MAX_PENDING { SubmapOfSameSize(q.Retained(c), q.pending); }
    if forall s :: s in q.pending ==> !Supersedes(c, q.pending[s].command) { assert q.Retained(c) == q.pending; }
  }

  lemma {:induction false} LogAt(ops: seq<Op>, i: nat)
    requires i < |ops|
    ensures Log(ops)[i] == EventOf(Run(ops[..i]), ops[i])
    decreases |ops|
  {
    if i < |ops| - 1 {
      LogAt(ops[..|ops| - 1], i);
      assert ops[..|ops| - 1][..i] == ops[..i];
    }
  }

  /** The first resize of an object since it was last discarded is ready at once, and every
      later one a debounce interval after it was pushed; other commands are never delayed. */
  lemma OnlyLaterResizesWait(ops: seq<Op>, i: nat)
    requires i < |ops| && ops[i].Push? && Log(ops)[i].Accepted?
    ensures var c := ops[i].command;
      && Log(ops)[i].command == c
      && Log(ops)[i].ready == ops[i].now + (if c.action.Resize? && Since(Log(ops[..i]), c.objectId, false) then RESIZE_DEBOUNCE else 0)
  {
    hide Run, Log, Queue.Bounded, Numbered, PendingIsAlive, Queue.PushError;
    LogAt(ops, i);
    QueueIsHistory(ops[..i]);
  }

  // ------------------------------------------------------------------------------------
  // Delivery

  predicate IsReady(q: Queue, s: int, now: nat) { s in q.pending && q.pending[s].ready <= now }

  /** `Ready` answers from `now` on. */
  ghost predicate SomeReady(q: Queue, now: nat) { exists s :: IsReady(q, s, now) }

  /** The queue with its fields updated in place. */
  class CommandQueue {
    var pending: map<u64, Pending>
    var closed: set<u64>
    var resized: set<u64>
    var next: u64

    ghost function View(): Queue reads this { Queue(pending, closed, resized, next) }

    constructor ()
      ensures View() == EMPTY && View().Bounded()
    {
      pending, closed, resized, next := map[], {}, {}, 0;
    }

    method Push(c: TaskCommand, now: nat) returns (error: Option<CommandError>)
      requires View().Bounded()
      modifies this
      ensures error == old(View()).PushError(c)
      ensures View() == old(View()).Pushed(c, now) && View().Bounded()
      ensures error.Some? ==> View() == old(View())
    {
      hide Queue.Bounded, Supersedes;
      View().PushedIsBounded(c, now);
      if View().PushError(c).Some? { View().RefusedPushChangesNothing(c, now); }
      if !c.Identified() {
        return Some(BadIdentity);
      }
      if !c.Bounded() {
        return Some(BadBounds);
      }
      if c.objectId in closed {
        return None;
      }
      if next + 1 > I64_MAX {
        return Some(SerialExhausted);
      }
      hide TaskCommand.Identified, TaskCommand.Bounded;
      pending := map s | s in pending && !Supersedes(c, pending[s].command) :: pending[s];
      assert pending == old(View()).Retained(c);
      hide Queue.Retained;
      if |pending| >= MAX_PENDING {
        return Some(Backlog);
      }
      Enqueue(c, now);
      return None;
    }

    /** The next serial, and the first resize of an object without delay. */
    method Enqueue(c: TaskCommand, now: nat)
      requires next + 1 <= I64_MAX
      modifies this
      ensures next == old(next) + 1 && pending == old(pending)[next := Pending(c, old(View()).ReadyAt(c, now))]
      ensures closed == if c.action.Close? then old(closed) + {c.objectId} else old(closed)
      ensures resized == if c.action.Resize? then old(resized) + {c.objectId} else old(resized)
    {
      next := next + 1;
      if c.action.Close? {
        closed := closed + {c.objectId};
      }
      var ready := now;
      if c.action.Resize? {
        if c.objectId in resized {
          ready := now + RESIZE_DEBOUNCE;
        }
        resized := resized + {c.objectId};
      }
      pending := pending[next := Pending(c, ready)];
    }

    /** The oldest command whose time has come, in serial order. */
    method Ready(now: nat) returns (r: Option<u64>)
      requires View().Bounded()
      ensures r.None? ==> forall s :: !IsReady(View(), s, now)
      ensures r.Some? ==> IsReady(View(), r.value, now) && forall s :: IsReady(View(), s, now) ==> r.value <= s
    {
      var s := 1;
      while s <= next
        invariant 1 <= s <= next + 1
        invariant forall t :: t < s ==> !IsReady(View(), t, now)
      {
        if s in pending && pending[s].ready <= now {
          return Some(s);
        }
        s := s + 1;
      }
      return None;
    }

    /** The earliest time at which `Ready` will answer. */
    method Deadline() returns (r: Option<nat>)
      requires View().Bounded()
      ensures r.None? <==> pending == map[]
      ensures r.Some? ==> forall now :: SomeReady(View(), now) <==> r.value <= now
    {
      r := None;
      var s := 1;
      ghost var at: u64 := 0;
      while s <= next
        invariant 1 <= s <= next + 1
        invariant r.None? ==> forall t :: t in pending ==> t >= s
        invariant r.Some? ==> at in pending && pending[at].ready == r.value && forall t :: t in pending && t < s ==> r.value <= pending[t].ready
      {
        if s in pending && (r.None? || pending[s].ready < r.value) {
          r, at := Some(pending[s].ready), s;
        }
        s := s + 1;
      }
      if r.Some? {
        forall now: nat | true ensures SomeReady(View(), now) <==> r.value <= now {
          if r.value <= now { assert IsReady(View(), at, now); }
        }
      } else {
        assert pending.Keys == {};
      }
    }

    method Acknowledge(serial: u64)
      requires View().Bounded()
      modifies this`pending
      ensures View() == old(View()).Acknowledged(serial) && View().Bounded()
    {
      View().RemovalsAreBounded(serial, 0);
      pending := pending - {serial};
    }

    method Discard(o: u64)
      requires View().Bounded()
      modifies this
      ensures View() == old(View()).Discarded(o) && View().Bounded()
    {
      View().RemovalsAreBounded(0, o);
      pending := map s | s in pending && pending[s].command.objectId != o :: pending[s];
      closed := closed - {o};
      resized := resized - {o};
    }
  }
}
