/** SurfaceFlinger connections and the targets each one holds reserved. */
module Bridge {
  import opened Base
  import opened Dmabuf
  import opened Phone
  import opened PhoneRuns
  import P = ProtocolSteps
  import Transport
  import O = Ordered
  import M = Messages

  const MAX_RESERVATIONS := 3

  type Held = map<u64, Buffer>

  function Reserved(p: Phone): set<u64> { set b | b in p.channel.targets && p.channel.targets[b].reserved }

  // ------------------------------------------------------------------------------------
  // What each sink operation does to the reserved targets

  lemma AcquireReserves(p: Phone, lazy: bool, send: bool, cloned: bool)
    requires p.Valid()
    ensures var r := Acquire(p, lazy, send, cloned);
      && r.phone.Valid() && (r.error.None? <==> r.target.Some?)
      && Reserved(r.phone) == Reserved(p) + (if r.target.Some? then {r.target.value} else {})
      && (r.target.Some? ==> r.target.value !in Reserved(p) && r.target.value in r.phone.channel.targets)
  {
    AcquireKeepsValid(p, lazy, send, cloned);
    P.EnsureIsNeutral(p, lazy, send);
    hide Phone.Valid, Ensure;
  }

  lemma NotBoth(p: Phone, b: u64)
    requires p.Valid() && b in Reserved(p)
    ensures !p.channel.targets[b].busy
  {
  }

  lemma CancelReturns(p: Phone, b: u64)
    requires p.Valid()
    ensures Cancel(p, b).Valid() && Reserved(Cancel(p, b)) == Reserved(p) - {b}
  {
    CancelKeepsValid(p, b);
    if b in Reserved(p) { NotBoth(p, b); }
    hide Phone.Valid;
  }

  /** A submission ends the reservation it used, on success and on failure, if and only if
      the window still exists; a missing window leaves every reservation as it was. */
  lemma SubmitReturns(p: Phone, b: Buffer, damage: Option<Rect>, isOpaque: bool, plan: SendPlan)
    requires p.Valid()
    ensures var r := Submit(p, b, damage, isOpaque, plan);
      r.phone.Valid() && Reserved(r.phone) == if p.window then Reserved(p) - {b.id} else Reserved(p)
  {
    SubmitKeepsValid(p, b, damage, isOpaque, plan);
    SubmitReserved(p, b, damage, isOpaque, plan);
  }

  lemma SendReserved(c: Channel, frame: u64, b: Buffer, damage: seq<Rect>, isOpaque: bool, plan: SendPlan)
    ensures var r := SendFrame(c, frame, b, damage, isOpaque, plan);
      if r.1.Some? then r.0.targets == c.targets
      else b.id in c.targets && r.0.targets == c.targets[b.id := c.targets[b.id].(reserved := false, busy := true)]
  {
    hide ContentState;
  }

  lemma CancelReserved(p: Phone, b: u64)
    requires b in Reserved(p) ==> !p.channel.targets[b].busy
    ensures Reserved(Cancel(p, b)) == Reserved(p) - {b}
  {
  }

  lemma SubmitReserved(p: Phone, b: Buffer, damage: Option<Rect>, isOpaque: bool, plan: SendPlan)
    requires p.Valid()
    ensures Reserved(Submit(p, b, damage, isOpaque, plan).phone) == if p.window then Reserved(p) - {b.id} else Reserved(p)
  {
    hide SendFrame, Transport.Presentation.SubmitError, Transport.Presentation.Submitted, Cancel, SubmitDamage;
    if b.id in Reserved(p) { NotBoth(p, b.id); }
    hide Phone.Valid;
    var rects := SubmitDamage(b, damage);
    CancelReserved(p, b.id);
    if p.window && p.powered && p.stream.SubmitError(b, rects, true).None? {
      SubmitFacts(p.stream, b, rects);
      var frame := p.stream.nextFrame + 1;
      SendReserved(p.channel, frame, b, rects, isOpaque, plan);
      var (after, error, sent) := SendFrame(p.channel, frame, b, rects, isOpaque, plan);
      var q := p.(channel := after, stream := p.stream.(nextFrame := frame));
      if error.Some? {
        assert Reserved(q) == Reserved(p);
        CancelReserved(q, b.id);
      }
    }
  }

  /** Steps of the host and of the rest of Android. */
  predicate IsElsewhere(step: PhoneStep) { step.Heard? || step.Acked? || step.Destroyed? || step.Powered? || step.WindowRemoved? }

  /** The host and the rest of Android leave reservations alone. */
  lemma OthersKeepReservations(p: Phone, step: PhoneStep)
    requires p.Valid() && IsElsewhere(step)
    ensures Apply(p, step).phone.Valid() && Reserved(Apply(p, step).phone) == Reserved(p)
  {
    ApplyKeepsValid(p, step);
    if step.Heard? {
      HeardKeepsReservations(p, step.m);
    }
    hide Phone.Valid, Hear;
  }

  lemma HeardKeepsReservations(p: Phone, m: M.HostMsg)
    requires p.Valid()
    ensures Reserved(Hear(p, m).phone) == Reserved(p)
  {
    if m.BufferReleased? && m.oid == p.channel.binding.oid {
      ReleaseKeepsReservations(p, m.frameId, m.bufferId, m.point);
    }
    hide Phone.Valid, ApplyRelease;
  }

  lemma ReleaseKeepsReservations(p: Phone, frame: u64, b: u64, point: u64)
    requires p.Valid()
    ensures Reserved(ApplyRelease(p, frame, b, point).phone) == Reserved(p)
  {
    if frame in p.stream.inFlight && p.stream.inFlight[frame] == b {
      assert b in p.stream.busy;
      if b in Reserved(p) { NotBoth(p, b); }
    }
  }

  // ------------------------------------------------------------------------------------
  // Connections

  /** `stranded` are the targets presented after the window was removed. */
  datatype State = State(phone: Phone, open: map<nat, Held>, stranded: set<u64>)

  datatype Request =
    | Acquiring(lazy: bool, send: bool, cloned: bool)
    | Presenting(b: u64, damage: Option<Rect>, isOpaque: bool, plan: SendPlan)
    | Cancelling(b: u64)
    | Retiring
    | Other

  /** Any connection may be served next; `reply` tells whether its answer could be sent, and
      `Closes` stands for every way to end: a failed receive, an undecodable or repeated
      request, a wrong display. */
  datatype Step =
    | Opens(c: nat)
    | Serves(c: nat, request: Request, reply: bool)
    | Closes(c: nat)
    | Elsewhere(step: PhoneStep)

  /** The cleanup of a connection: every target it still holds goes back at once. */
  function CancelAll(p: Phone, held: set<u64>): Phone {
    var ts := p.channel.targets;
    p.(channel := p.channel.(targets :=
      map b | b in ts && !(b in held && !ts[b].busy && ts[b].revoked) ::
        if b in held && !ts[b].busy then ts[b].(reserved := false) else ts[b]))
  }

  /** What a request leaves the phone and the connection's reservations at. */
  function Served(p: Phone, held: Held, request: Request, reply: bool, acquired: Outcome, submitted: Outcome): (Phone, Held) {
    match request
    case Acquiring(_, _, _) =>
      if |held| >= MAX_RESERVATIONS then (p, held)
      else if acquired.error.Some? || acquired.target.None? || acquired.target.value !in acquired.phone.channel.targets then (acquired.phone, held)
      else if !reply then (Cancel(acquired.phone, acquired.target.value), held)
      else (acquired.phone, held[acquired.target.value := acquired.phone.channel.targets[acquired.target.value].metadata])
    case Presenting(b, _, _, _) => if b !in held then (p, held) else (submitted.phone, held - {b})
    case Cancelling(b) => if b !in held then (p, held) else (Cancel(p, b), held - {b})
    case Retiring => (CancelAll(p, held.Keys), map[])
    case Other => (p, held)
  }

  ghost function AcquiredBy(p: Phone, request: Request): Outcome {
    if request.Acquiring? then Acquire(p, request.lazy, request.send, request.cloned) else Done(p)
  }

  function SubmittedBy(p: Phone, held: Held, request: Request): Outcome {
    if request.Presenting? && request.b in held then Submit(p, held[request.b], request.damage, request.isOpaque, request.plan) else Done(p)
  }

  ghost function Next(s: State, step: Step): State {
    match step
    case Opens(c) => if c in s.open then s else s.(open := s.open[c := map[]])
    case Closes(c) => if c !in s.open then s else State(CancelAll(s.phone, s.open[c].Keys), s.open - {c}, s.stranded)
    case Elsewhere(step) =>
      if IsElsewhere(step) then s.(phone := Apply(s.phone, step).phone) else s
    case Serves(c, request, reply) =>
      if c !in s.open then s
      else
        var (p, held) := Served(s.phone, s.open[c], request, reply, AcquiredBy(s.phone, request), SubmittedBy(s.phone, s.open[c], request));
        var stranded := s.stranded + (if Strands(s, step) then {request.b} else {});
        if reply && !request.Retiring? then State(p, s.open[c := held], stranded)
        else State(CancelAll(p, held.Keys), s.open - {c}, stranded)
  }

  /** The step presents a target its connection holds although the window is gone. */
  predicate Strands(s: State, step: Step) {
    step.Serves? && step.c in s.open && step.request.Presenting? && step.request.b in s.open[step.c] && !s.phone.window
  }

  predicate Holds(open: map<nat, Held>, c: nat, b: u64) { c in open && b in open[c] }

  /** Reserved targets are exactly those some open connection holds, one connection each, and
      the stranded ones, which nobody holds. */
  ghost predicate Owned(reserved: set<u64>, open: map<nat, Held>, stranded: set<u64>) {
    && (forall b :: b in reserved ==> b in stranded || exists c :: Holds(open, c, b))
    && (forall b, c :: Holds(open, c, b) ==> b in reserved && b !in stranded)
    && (forall b, c, d :: Holds(open, c, b) && Holds(open, d, b) ==> c == d)
    && stranded <= reserved
  }

  ghost predicate Bounded(open: map<nat, Held>) {
    forall c :: c in open ==> |open[c]| <= MAX_RESERVATIONS && forall b :: b in open[c] ==> open[c][b].id == b
  }

  ghost predicate Valid(s: State) { s.phone.Valid() && Owned(Reserved(s.phone), s.open, s.stranded) && Bounded(s.open) }

  lemma CancelAllReturns(p: Phone, held: set<u64>)
    requires p.Valid()
    ensures CancelAll(p, held).Valid() && Reserved(CancelAll(p, held)) == Reserved(p) - held
  {
    CancelAllKeepsValid(p, held);
    forall b | b in Reserved(p) ensures !p.channel.targets[b].busy { NotBoth(p, b); }
    hide Phone.Valid;
  }

  lemma CancelAllKeepsValid(p: Phone, held: set<u64>)
    requires p.Valid()
    ensures CancelAll(p, held).Valid()
  {
    hide Transport.Presentation.Valid;
  }

  /** Dropping a connection together with everything it held. */
  lemma OwnedClosed(reserved: set<u64>, open: map<nat, Held>, stranded: set<u64>, c: nat)
    requires Owned(reserved, open, stranded) && c in open
    ensures Owned(reserved - open[c].Keys, open - {c}, stranded)
  {
    forall b | b in reserved - open[c].Keys && b !in stranded ensures exists d :: Holds(open - {c}, d, b) {
      var d :| Holds(open, d, b);
      assert Holds(open - {c}, d, b);
    }
    forall b, d | Holds(open - {c}, d, b) ensures b in reserved - open[c].Keys && b !in stranded {
      assert Holds(open, d, b);
      assert b in open[c] ==> Holds(open, c, b);
    }
    forall b, d, e | Holds(open - {c}, d, b) && Holds(open - {c}, e, b) ensures d == e { assert Holds(open, d, b) && Holds(open, e, b); }
    forall b | b in stranded ensures b !in open[c] { assert b in open[c] ==> Holds(open, c, b); }
  }

  function With(held: Held, b: u64, m: Buffer): Held { held[b := m] }

  /** A connection gaining an unreserved target. */
  lemma OwnedGained(reserved: set<u64>, open: map<nat, Held>, stranded: set<u64>, c: nat, b: u64, m: Buffer)
    requires Owned(reserved, open, stranded) && c in open && b !in reserved
    ensures Owned(reserved + {b}, open[c := With(open[c], b, m)], stranded)
  {
    var after := open[c := With(open[c], b, m)];
    assert forall d, x :: Holds(after, d, x) <==> Holds(open, d, x) || (d == c && x == b);
    forall x | x in reserved + {b} && x !in stranded ensures exists d :: Holds(after, d, x) {
      if x == b { assert Holds(after, c, b); } else {
        var d :| Holds(open, d, x);
        assert Holds(after, d, x);
      }
    }
  }

  /** A connection giving up one of its targets, which is returned or stranded. */
  lemma OwnedLost(reserved: set<u64>, open: map<nat, Held>, stranded: set<u64>, c: nat, b: u64)
    requires Owned(reserved, open, stranded) && Holds(open, c, b)
    ensures Owned(reserved - {b}, open[c := open[c] - {b}], stranded)
    ensures Owned(reserved, open[c := open[c] - {b}], stranded + {b})
  {
    var after := open[c := open[c] - {b}];
    assert forall d, x :: Holds(after, d, x) <==> Holds(open, d, x) && !(d == c && x == b);
    forall x | x in reserved - {b} && x !in stranded ensures exists d :: Holds(after, d, x) {
      var d :| Holds(open, d, x);
      assert Holds(after, d, x);
    }
  }

  lemma BoundedGained(held: Held, b: u64, m: Buffer)
    requires |held| < MAX_RESERVATIONS
    ensures |held[b := m]| <= MAX_RESERVATIONS
  {
    assert held[b := m].Keys == held.Keys + {b};
  }

  lemma BoundedLost(held: Held, b: u64)
    ensures |held - {b}| <= |held|
  {
    assert (held - {b}).Keys == held.Keys - {b};
    if b in held { assert held.Keys == (held.Keys - {b}) + {b}; }
  }

  lemma GainStep(s: State, c: nat, q: Phone, b: u64)
    requires Valid(s) && c in s.open && |s.open[c]| < MAX_RESERVATIONS && q.Valid() && b in q.channel.targets
    requires b !in Reserved(s.phone) && Reserved(q) == Reserved(s.phone) + {b}
    ensures Valid(State(q, s.open[c := With(s.open[c], b, q.channel.targets[b].metadata)], s.stranded))
  {
    hide Phone.Valid, Owned, Reserved;
    TargetHasItsId(q, b);
    OwnedGained(Reserved(s.phone), s.open, s.stranded, c, b, q.channel.targets[b].metadata);
    BoundedGained(s.open[c], b, q.channel.targets[b].metadata);
  }

  /** Only the phone changed, and not its reservations. */
  lemma SameReservations(s: State, q: Phone, c: nat)
    requires Valid(s) && c in s.open && q.Valid() && Reserved(q) == Reserved(s.phone)
    ensures Valid(State(q, s.open[c := s.open[c]], s.stranded))
  {
    hide Phone.Valid, Owned, Reserved;
    assert s.open[c := s.open[c]] == s.open;
  }

  lemma AcquireStep(s: State, c: nat, request: Request, reply: bool)
    requires Valid(s) && c in s.open && request.Acquiring?
    ensures var r := Served(s.phone, s.open[c], request, reply, AcquiredBy(s.phone, request), Done(s.phone));
      Valid(State(r.0, s.open[c := r.1], s.stranded))
  {
    hide Phone.Valid, Owned, Acquire, Cancel, Reserved, Bounded;
    var held, o := s.open[c], Acquire(s.phone, request.lazy, request.send, request.cloned);
    AcquireReserves(s.phone, request.lazy, request.send, request.cloned);
    SameReservations(s, s.phone, c);
    if o.target.Some? {
      var b := o.target.value;
      CancelReturns(o.phone, b);
      assert Reserved(s.phone) + {b} - {b} == Reserved(s.phone);
      SameReservations(s, Cancel(o.phone, b), c);
      if |held| < MAX_RESERVATIONS { GainStep(s, c, o.phone, b); }
    } else {
      SameReservations(s, o.phone, c);
    }
    hide Valid;
  }

  lemma TargetHasItsId(p: Phone, b: u64)
    requires p.Valid() && b in p.channel.targets
    ensures p.channel.targets[b].metadata.id == b
  {
  }

  function Stranding(s: State, c: nat, request: Request): set<u64> {
    s.stranded + (if Strands(s, Serves(c, request, true)) then {request.b} else {})
  }

  /** Giving up a target: the phone returned the reservation, or the target is stranded. */
  lemma LoseStep(s: State, c: nat, b: u64, q: Phone, kept: bool)
    requires Valid(s) && Holds(s.open, c, b) && q.Valid()
    requires Reserved(q) == if kept then Reserved(s.phone) else Reserved(s.phone) - {b}
    ensures Valid(State(q, s.open[c := s.open[c] - {b}], if kept then s.stranded + {b} else s.stranded))
  {
    hide Phone.Valid, Owned, Reserved;
    OwnedLost(Reserved(s.phone), s.open, s.stranded, c, b);
    BoundedLost(s.open[c], b);
  }

  lemma RetireStep(s: State, c: nat)
    requires Valid(s) && c in s.open
    ensures Valid(State(CancelAll(s.phone, s.open[c].Keys), s.open[c := map[]], s.stranded))
  {
    hide Phone.Valid, Owned, CancelAll, Reserved;
    CancelAllReturns(s.phone, s.open[c].Keys);
    OwnedClosed(Reserved(s.phone), s.open, s.stranded, c);
    EmptyIsClosed(Reserved(s.phone) - s.open[c].Keys, s.open, s.stranded, c);
  }

  lemma ReturnStep(s: State, c: nat, request: Request, reply: bool)
    requires Valid(s) && c in s.open && !request.Acquiring?
    ensures var r := Served(s.phone, s.open[c], request, reply, Done(s.phone), SubmittedBy(s.phone, s.open[c], request));
      Valid(State(r.0, s.open[c := r.1], Stranding(s, c, request)))
  {
    hide Phone.Valid, Owned, Submit, Cancel, CancelAll, Reserved, Bounded;
    var held: Held := s.open[c];
    assert s.open[c := held] == s.open;
    assert s.stranded + {} == s.stranded;
    if request.Retiring? {
      RetireStep(s, c);
    } else if request.Presenting? && request.b in held {
      HeldHasItsId(s, c, request.b);
      SubmitReturns(s.phone, held[request.b], request.damage, request.isOpaque, request.plan);
      LoseStep(s, c, request.b, SubmittedBy(s.phone, held, request).phone, !s.phone.window);
    } else if request.Cancelling? && request.b in held {
      CancelReturns(s.phone, request.b);
      LoseStep(s, c, request.b, Cancel(s.phone, request.b), false);
    }
    hide Valid;
  }

  lemma HeldHasItsId(s: State, c: nat, b: u64)
    requires Valid(s) && c in s.open && b in s.open[c]
    ensures s.open[c][b].id == b
  {
    hide Phone.Valid, Owned;
  }

  lemma EmptyIsClosed(reserved: set<u64>, open: map<nat, Held>, stranded: set<u64>, c: nat)
    requires Owned(reserved, open - {c}, stranded)
    ensures Owned(reserved, open[c := map[]], stranded)
  {
    var after: map<nat, Held> := open[c := map[]];
    assert forall d, x :: Holds(after, d, x) <==> Holds(open - {c}, d, x);
    forall x | x in reserved && x !in stranded ensures exists d :: Holds(after, d, x) {
      var d :| Holds(open - {c}, d, x);
      assert Holds(after, d, x);
    }
  }

  lemma ServeStep(s: State, c: nat, request: Request, reply: bool)
    requires Valid(s) && c in s.open
    ensures var r := Served(s.phone, s.open[c], request, reply, AcquiredBy(s.phone, request), SubmittedBy(s.phone, s.open[c], request));
      Valid(State(r.0, s.open[c := r.1], Stranding(s, c, request)))
  {
    hide Valid;
    if request.Acquiring? { AcquireStep(s, c, request, reply); } else { ReturnStep(s, c, request, reply); }
  }

  lemma CloseStep(s: State, c: nat)
    requires Valid(s) && c in s.open
    ensures Valid(State(CancelAll(s.phone, s.open[c].Keys), s.open - {c}, s.stranded))
  {
    CancelAllReturns(s.phone, s.open[c].Keys);
    OwnedClosed(Reserved(s.phone), s.open, s.stranded, c);
    hide Phone.Valid, Owned, CancelAll, Reserved;
  }

  lemma NextKeepsValid(s: State, step: Step)
    requires Valid(s)
    ensures Valid(Next(s, step))
  {
    match step
    case Opens(c) =>
      if c !in s.open {
        assert s.open - {c} == s.open;
        EmptyIsClosed(Reserved(s.phone), s.open, s.stranded, c);
        hide Phone.Valid, Owned;
      }
    case Closes(c) =>
      hide Valid;
      if c in s.open { CloseStep(s, c); }
    case Elsewhere(step) =>
      if IsElsewhere(step) { OthersKeepReservations(s.phone, step); }
      hide Phone.Valid, Owned, Reserved, Apply;
    case Serves(c, request, reply) =>
      if c in s.open { ServesStep(s, c, request, reply); }
      hide Valid, Served;
  }

  lemma ServesStep(s: State, c: nat, request: Request, reply: bool)
    requires Valid(s) && c in s.open
    ensures Valid(Next(s, Serves(c, request, reply)))
  {
    hide Valid, Served, AcquiredBy, SubmittedBy, CancelAll;
    ServeStep(s, c, request, reply);
    var (p, held) := Served(s.phone, s.open[c], request, reply, AcquiredBy(s.phone, request), SubmittedBy(s.phone, s.open[c], request));
    var mid := State(p, s.open[c := held], Stranding(s, c, request));
    CloseStep(mid, c);
    assert mid.open - {c} == s.open - {c};
  }

  /** A connection gets a target exactly if it holds fewer than three, Android hands one out and
      the answer arrives; then it holds exactly that one more. With three it gets none, and
      nothing is tried. */
  lemma AcquiringIsBounded(s: State, c: nat, lazy: bool, send: bool, cloned: bool, reply: bool)
    requires Valid(s) && c in s.open
    ensures var r, t := Acquire(s.phone, lazy, send, cloned), Next(s, Serves(c, Acquiring(lazy, send, cloned), reply));
      && (reply ==> c in t.open && t.open[c].Keys == s.open[c].Keys + (if |s.open[c]| < 3 && r.target.Some? then {r.target.value} else {}))
      && (!reply ==> c !in t.open)
      && (|s.open[c]| >= 3 && reply ==> t == s)
  {
    hide *;
    var request := Acquiring(lazy, send, cloned);
    var held := s.open[c];
    AcquireAnswers(s.phone, lazy, send, cloned);
    ServedAcquire(s.phone, held, request, reply, Acquire(s.phone, lazy, send, cloned), SubmittedBy(s.phone, held, request));
    AcquiringIs(s, c, lazy, send, cloned, reply);
    assert s.open[c := held] == s.open;
  }

  lemma AcquiringIs(s: State, c: nat, lazy: bool, send: bool, cloned: bool, reply: bool)
    requires c in s.open
    ensures var request, t := Acquiring(lazy, send, cloned), Next(s, Serves(c, Acquiring(lazy, send, cloned), reply));
      var (p, held) := Served(s.phone, s.open[c], request, reply, Acquire(s.phone, lazy, send, cloned), SubmittedBy(s.phone, s.open[c], request));
      if reply then t == State(p, s.open[c := held], s.stranded) else c !in t.open
  {
    hide Served, Acquire, SubmittedBy, CancelAll;
    assert s.stranded + {} == s.stranded;
  }

  lemma ServedAcquire(p: Phone, held: Held, request: Request, reply: bool, acquired: Outcome, submitted: Outcome)
    requires request.Acquiring? && (acquired.target.Some? ==> acquired.target.value in acquired.phone.channel.targets)
    requires acquired.error.None? <==> acquired.target.Some?
    ensures var (q, after) := Served(p, held, request, reply, acquired, submitted);
      && (reply ==> after.Keys == held.Keys + (if |held| < 3 && acquired.target.Some? then {acquired.target.value} else {}))
      && (|held| >= 3 ==> q == p && after == held)
  {
    hide Cancel;
  }

  lemma AcquireAnswers(p: Phone, lazy: bool, send: bool, cloned: bool)
    ensures var r := Acquire(p, lazy, send, cloned);
      (r.error.None? <==> r.target.Some?) && (r.target.Some? ==> r.target.value in r.phone.channel.targets)
  {
  }

  ghost function Run(oid: u64, steps: seq<Step>): State
    decreases |steps|
  {
    if steps == [] then State(NewPhone(oid), map[], {}) else Next(Run(oid, steps[..|steps| - 1]), steps[|steps| - 1])
  }

  /** Over every run, with any number of connections and any failures: a target is reserved
      exactly while one open connection holds it, or for good once it was presented after the
      window was removed; and no connection holds more than three. */
  lemma {:induction false} ReservationsAreOwned(oid: u64, steps: seq<Step>)
    ensures Valid(Run(oid, steps))
    decreases |steps|
  {
    if steps == [] {
      P.NewPhoneIsValid(oid);
      assert Reserved(NewPhone(oid)) == {};
      hide Phone.Valid;
    } else {
      hide Valid;
      ReservationsAreOwned(oid, steps[..|steps| - 1]);
      NextKeepsValid(Run(oid, steps[..|steps| - 1]), steps[|steps| - 1]);
    }
  }

  /** Step `i` of the run presented `b` after the window was removed. */
  ghost predicate StrandedAt(oid: u64, steps: seq<Step>, i: nat, b: u64) {
    i < |steps| && Strands(Run(oid, steps[..i]), steps[i]) && steps[i].request.b == b
  }

  lemma {:induction false} StrandedIsHistory(oid: u64, steps: seq<Step>, b: u64)
    ensures b in Run(oid, steps).stranded <==> exists i: nat :: StrandedAt(oid, steps, i, b)
    decreases |steps|
  {
    if steps != [] {
      var n := |steps| - 1;
      var rest := steps[..n];
      StrandedIsHistory(oid, rest, b);
      StrandedStep(Run(oid, rest), steps[n]);
      forall i: nat | i < n ensures StrandedAt(oid, steps, i, b) <==> StrandedAt(oid, rest, i, b) {
        assert steps[..i] == rest[..i];
      }
      hide Strands, Next;
      if b in Run(oid, rest).stranded {
        var i: nat :| StrandedAt(oid, rest, i, b);
        assert StrandedAt(oid, steps, i, b);
      } else if b in Run(oid, steps).stranded {
        assert StrandedAt(oid, steps, n, b);
      }
    }
  }

  lemma StrandedStep(s: State, step: Step)
    ensures Next(s, step).stranded == s.stranded + (if Strands(s, step) then {step.request.b} else {})
  {
    hide Served, CancelAll, Apply;
  }

  /** The reserved targets nobody holds are exactly those presented after the window went. */
  lemma UnheldExactly(oid: u64, steps: seq<Step>, b: u64)
    ensures var s := Run(oid, steps);
      b in Reserved(s.phone) && (forall c :: !Holds(s.open, c, b)) <==> exists i: nat :: StrandedAt(oid, steps, i, b)
  {
    hide Run, Reserved, Bounded, StrandedAt, Phone.Valid;
    ReservationsAreOwned(oid, steps);
    StrandedIsHistory(oid, steps, b);
  }

  /** Connection `c` ends: it is closed, it asks to retire, or its reply cannot be sent. */
  predicate Ends(step: Step, c: nat) {
    !step.Opens? && !step.Elsewhere? && step.c == c && (step.Serves? ==> !step.reply || step.request.Retiring?)
  }

  lemma EndedIsClosed(s: State, step: Step, c: nat)
    requires Ends(step, c)
    ensures c !in Next(s, step).open && forall d :: d in Next(s, step).open ==> d in s.open && Next(s, step).open[d] == s.open[d]
  {
    hide Served, AcquiredBy, SubmittedBy, CancelAll, Strands;
  }

  /** However a connection ends, what it held stays reserved only if its last request presented
      it after the window went; whatever else is reserved afterwards belongs to the other
      connections or was presented so before. */
  lemma EndingReturnsEverything(oid: u64, steps: seq<Step>, step: Step, c: nat, b: u64)
    requires Ends(step, c) && Holds(Run(oid, steps).open, c, b)
    ensures var s, t := Run(oid, steps), Run(oid, steps + [step]);
      && c !in t.open
      && (b in Reserved(t.phone) <==> Strands(s, step) && step.request.b == b)
      && forall x :: x in Reserved(t.phone) ==>
           (exists d :: d != c && Holds(t.open, d, x)) || exists i: nat :: StrandedAt(oid, steps + [step], i, x)
  {
    var s, t := Run(oid, steps), Run(oid, steps + [step]);
    RunStep(oid, steps, step);
    ReservationsAreOwned(oid, steps);
    ReservationsAreOwned(oid, steps + [step]);
    EndedIsClosed(s, step, c);
    StrandedStep(s, step);
    hide Run, Next, Reserved, Bounded, StrandedAt, Strands, Phone.Valid;
    assert forall d :: Holds(t.open, d, b) ==> Holds(s.open, d, b);
    forall x | x in Reserved(t.phone)
      ensures (exists d :: d != c && Holds(t.open, d, x)) || exists i: nat :: StrandedAt(oid, steps + [step], i, x)
    {
      StrandedIsHistory(oid, steps + [step], x);
    }
  }

  lemma RunStep(oid: u64, steps: seq<Step>, step: Step)
    ensures Run(oid, steps + [step]) == Next(Run(oid, steps), step)
  {
    assert (steps + [step])[..|steps|] == steps;
  }

  // A run that strands a target: it is acquired, the window goes, and it is presented.

  const TARGET := Buffer(1, 1, 1, Format(1, 0), [Plane(0, 0, 4)])
  const SIZE := Transport.Configure(1, 1, 1, 60000)
  const GRANTED := SendPlan(true, true, true, true)

  const PRELUDE := [Opens(0), Elsewhere(Heard(M.Configure(1, SIZE))), Elsewhere(Heard(M.RegisterRenderTarget(1, 1, TARGET))),
                    Serves(0, Acquiring(false, true, true), true)]

  function Waiting(reserved: bool, window: bool): Phone {
    Phone(Channel(Binding(1, None, 0, map[], !window), map[1 := Target(1, TARGET, reserved, false, false)], map[], None, Demand(Some(1), None)),
          Transport.IDLE.(latest := Some(SIZE)), false, window)
  }

  lemma PreludeRun()
    ensures Run(1, PRELUDE) == State(Waiting(true, true), map[0 := map[1 := TARGET]], {})
  {
    var s := State(NewPhone(1), map[0 := map[]], {});
    RunStep(1, [], Opens(0));
    assert [] + [Opens(0)] == PRELUDE[..1];
    assert Run(1, PRELUDE[..1]) == s;
    RunStep(1, PRELUDE[..1], PRELUDE[1]);
    assert PRELUDE[..1] + [PRELUDE[1]] == PRELUDE[..2];
    var sized := ApplyConfigure(NewPhone(1), SIZE);
    assert Run(1, PRELUDE[..2]) == s.(phone := sized);
    RunStep(1, PRELUDE[..2], PRELUDE[2]);
    assert PRELUDE[..2] + [PRELUDE[2]] == PRELUDE[..3];
    assert Run(1, PRELUDE[..3]) == s.(phone := Waiting(false, true));
    RunStep(1, PRELUDE[..3], PRELUDE[3]);
    assert PRELUDE[..3] + [PRELUDE[3]] == PRELUDE;
    hide Run;
    WaitingAcquires();
    hide Acquire;
  }

  lemma WaitingAcquires()
    ensures Acquire(Waiting(false, true), false, true, true) == Outcome(Waiting(true, true), None, [], Some(1))
  {
    assert IdleTargets(Waiting(false, true).channel, 1) == {1};
    assert O.Least({1}) == 1;
  }

  const LEAVING := PRELUDE + [Elsewhere(Destroyed(true))]
  const GONE := LEAVING + [Elsewhere(WindowRemoved)]
  const LATE := Serves(0, Presenting(1, None, true, GRANTED), true)

  lemma GoneRun()
    ensures Run(1, GONE) == State(Waiting(true, false), map[0 := map[1 := TARGET]], {})
  {
    PreludeRun();
    RunStep(1, PRELUDE, Elsewhere(Destroyed(true)));
    RunStep(1, LEAVING, Elsewhere(WindowRemoved));
    hide Run;
  }

  lemma LateStep()
    ensures Next(State(Waiting(true, false), map[0 := map[1 := TARGET]], {}), LATE) == State(Waiting(true, false), map[0 := map[]], {1})
  {
    var held: Held := map[1 := TARGET];
    assert held - {1} == map[];
    hide CancelAll, Acquire;
  }

  /** The window can go between acquisition and present: the target then stays reserved and no
      connection holds it. */
  lemma StrandedIsReachable()
    ensures exists steps :: 1 in Reserved(Run(1, steps).phone) && (forall c :: !Holds(Run(1, steps).open, c, 1))
                            && exists i: nat :: StrandedAt(1, steps, i, 1)
  {
    GoneRun();
    LateStep();
    RunStep(1, GONE, LATE);
    hide Next, Run;
    assert (GONE + [LATE])[..|GONE|] == GONE;
    assert 1 in Reserved(Run(1, GONE + [LATE]).phone);
    assert StrandedAt(1, GONE + [LATE], |GONE|, 1);
  }

  /** The drain loop: returning held targets one at a time, in any order, is the same as
      returning them together. */
  method Drain(p: Phone, held: set<u64>) returns (q: Phone)
    ensures q == CancelAll(p, held)
  {
    q := p;
    var left := held;
    assert CancelAll(p, {}).channel.targets == p.channel.targets;
    assert held - left == {};
    while left != {}
      invariant left <= held && q == CancelAll(p, held - left)
      decreases |left|
    {
      var b :| b in left;
      CancelOneMore(p, held - left, b);
      assert held - (left - {b}) == (held - left) + {b};
      q := Cancel(q, b);
      left := left - {b};
    }
    assert held - left == held;
  }

  lemma CancelOneMore(p: Phone, done: set<u64>, b: u64)
    requires b !in done
    ensures Cancel(CancelAll(p, done), b) == CancelAll(p, done + {b})
  {
    assert Cancel(CancelAll(p, done), b).channel.targets == CancelAll(p, done + {b}).channel.targets;
  }
}
