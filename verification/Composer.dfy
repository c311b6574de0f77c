/** One display's validate, accept and present sequence. */
module Composer {
  import opened Base
  import opened Ordered

  datatype Composition = Client | Device | SolidColor | Cursor | Sideband

  datatype PowerMode = Off | On | Doze | DozeSuspend

  datatype LayerState = LayerState(id: u64, composition: Composition, z: int, protectedContent: bool)

  datatype ClientTarget = ClientTarget(buffer: u64, damageRects: nat, fence: bool)

  datatype ComposerError =
    | UnknownDisplay
    | DuplicateLayer(layer: u64)
    | UnknownLayer(layer: u64)
    | NotValidated
    | ChangesNotAccepted
    | DisplayOff
    | ProtectedContent
    | UnsupportedPowerMode

  type Layers = map<u64, LayerState>

  function AllClient(layers: Layers): Layers {
    map l | l in layers :: layers[l].(composition := Client)
  }

  datatype Composer = Composer(
    display: u64,
    layers: Layers,
    generation: u64,
    validated: Option<u64>,
    accepted: bool,
    target: Option<ClientTarget>,
    power: PowerMode)
  {
    predicate HasProtected() { exists l :: l in layers && layers[l].protectedContent }

    /** The layers whose composition a validation asks SurfaceFlinger to change. */
    function Changes(): set<u64> { set l | l in layers && layers[l].composition != Client }

    /** Every layer change ends the current validation; the counter saturates. */
    function Invalidated(): Composer {
      this.(generation := if generation + 1 < U64_LIMIT then generation + 1 else generation, validated := None, accepted := false)
    }

    function CreateError(d: u64, layer: LayerState): Option<ComposerError> {
      if d != display then Some(UnknownDisplay) else if layer.id in layers then Some(DuplicateLayer(layer.id)) else None
    }

    function Created(layer: LayerState): Composer { this.(layers := layers[layer.id := layer]).Invalidated() }

    function LayerError(d: u64, layer: u64): Option<ComposerError> {
      if d != display then Some(UnknownDisplay) else if layer !in layers then Some(UnknownLayer(layer)) else None
    }

    /** Writing back the same state is not a change. */
    function Updated(layer: LayerState): Composer {
      if layer.id in layers && layers[layer.id] == layer then this
      else this.(layers := layers[layer.id := layer]).Invalidated()
    }

    function Destroyed(layer: u64): Composer { this.(layers := layers - {layer}).Invalidated() }

    function ValidateError(d: u64): Option<ComposerError> {
      if d != display then Some(UnknownDisplay) else if HasProtected() then Some(ProtectedContent) else None
    }

    function Validated(): Composer { this.(validated := Some(generation), accepted := Changes() == {}) }

    function CurrentError(d: u64): Option<ComposerError> {
      if d != display then Some(UnknownDisplay) else if validated != Some(generation) then Some(NotValidated) else None
    }

    function AcceptError(d: u64): Option<ComposerError> {
      if CurrentError(d).Some? then CurrentError(d) else if power != On then Some(DisplayOff) else None
    }

    function Accepted(): Composer { this.(layers := AllClient(layers), accepted := true) }

    function PresentError(d: u64): Option<ComposerError> {
      if CurrentError(d).Some? then CurrentError(d)
      else if !accepted then Some(ChangesNotAccepted)
      else if power != On then Some(DisplayOff)
      else None
    }

    function Presented(): Composer { this.(validated := None, accepted := false) }

    function PowerError(d: u64, mode: PowerMode): Option<ComposerError> {
      if d != display then Some(UnknownDisplay) else if mode.Doze? || mode.DozeSuspend? then Some(UnsupportedPowerMode) else None
    }

    /** A validation still standing was of these very layers. */
    ghost predicate Valid() {
      && (validated.Some? ==> validated.value == generation && !HasProtected())
      && (accepted ==> validated.Some? && Changes() == {})
      && forall l :: l in layers ==> layers[l].id == l
    }
  }

  function NewComposer(display: u64, generation: u64): Composer {
    Composer(display, map[], generation, None, false, None, Off)
  }

  // ------------------------------------------------------------------------------------
  // Runs

  datatype Op =
    | CreateLayer(d: u64, layer: LayerState)
    | UpdateLayer(d: u64, layer: LayerState)
    | DestroyLayer(d: u64, id: u64)
    | Validate(d: u64)
    | Accept(d: u64)
    | SetTarget(d: u64, target: ClientTarget)
    | PresentDirect(d: u64)
    | SetPower(d: u64, mode: PowerMode)

  function ErrorOf(c: Composer, op: Op): Option<ComposerError> {
    match op
    case CreateLayer(d, layer) => c.CreateError(d, layer)
    case UpdateLayer(d, layer) => c.LayerError(d, layer.id)
    case DestroyLayer(d, id) => c.LayerError(d, id)
    case Validate(d) => c.ValidateError(d)
    case Accept(d) => c.AcceptError(d)
    case SetTarget(d, _) => if d != c.display then Some(UnknownDisplay) else None
    case PresentDirect(d) => c.PresentError(d)
    case SetPower(d, mode) => c.PowerError(d, mode)
  }

  function Step(c: Composer, op: Op): Composer {
    if ErrorOf(c, op).Some? then c
    else match op
      case CreateLayer(_, layer) => c.Created(layer)
      case UpdateLayer(_, layer) => c.Updated(layer)
      case DestroyLayer(_, id) => c.Destroyed(id)
      case Validate(_) => c.Validated()
      case Accept(_) => c.Accepted()
      case SetTarget(_, target) => c.(target := Some(target))
      case PresentDirect(_) => c.Presented()
      case SetPower(_, mode) => c.(power := mode)
  }

  ghost predicate IsRun(states: seq<Composer>, ops: seq<Op>) {
    && |states| == |ops| + 1
    && states[0].Valid() && states[0].validated.None?
    && forall i :: 0 <= i < |ops| ==> states[i + 1] == Step(states[i], ops[i])
  }

  predicate Succeeds(c: Composer, op: Op) { ErrorOf(c, op).None? }

  lemma StepKeepsValid(c: Composer, op: Op)
    requires c.Valid()
    ensures Step(c, op).Valid()
  {
  }

  lemma {:induction false} RunIsValid(states: seq<Composer>, ops: seq<Op>, n: nat)
    requires IsRun(states, ops) && n < |states|
    ensures states[n].Valid()
  {
    hide Composer.Valid, Step;
    if n > 0 {
      RunIsValid(states, ops, n - 1);
      StepKeepsValid(states[n - 1], ops[n - 1]);
    }
  }

  /** Step `i` of a run leaves the validation before it standing: it neither creates,
      destroys nor changes a layer, nor validates or presents. */
  ghost predicate Quiet(states: seq<Composer>, ops: seq<Op>, i: nat)
    requires |states| == |ops| + 1 && i < |ops|
  {
    && !(ops[i].PresentDirect? && Succeeds(states[i], ops[i]))
    && !(ops[i].Validate? && Succeeds(states[i], ops[i]))
    && (states[i + 1].layers == states[i].layers || (ops[i].Accept? && states[i + 1].layers == AllClient(states[i].layers)))
  }

  /** Step `v` is the validation in force at step `n`. */
  ghost predicate InForce(states: seq<Composer>, ops: seq<Op>, v: nat, n: nat)
    requires |states| == |ops| + 1
  {
    && v < n <= |ops| && ops[v].Validate? && Succeeds(states[v], ops[v])
    && (forall i :: v < i < n ==> Quiet(states, ops, i))
    && (states[n].layers == states[v].layers || states[n].layers == AllClient(states[v].layers))
  }

  lemma StepKind(c: Composer, op: Op)
    requires Step(c, op).validated.Some?
    ensures (op.Validate? && Succeeds(c, op) && Step(c, op).layers == c.layers)
      || (c.validated.Some?
          && !(op.PresentDirect? && Succeeds(c, op)) && !(op.Validate? && Succeeds(c, op))
          && (Step(c, op).layers == c.layers || (op.Accept? && Step(c, op).layers == AllClient(c.layers))))
  {
  }

  lemma AllClientTwice(layers: Layers)
    ensures AllClient(AllClient(layers)) == AllClient(layers)
  {
  }

  lemma {:induction false} ValidationInForce(states: seq<Composer>, ops: seq<Op>, n: nat) returns (v: nat)
    requires IsRun(states, ops) && n < |states| && states[n].validated.Some?
    ensures InForce(states, ops, v, n)
  {
    hide Step, Composer.Valid;
    var c, op := states[n - 1], ops[n - 1];
    StepKind(c, op);
    if op.Validate? && Succeeds(c, op) {
      v := n - 1;
    } else {
      v := ValidationInForce(states, ops, n - 1);
      AllClientTwice(states[v].layers);
    }
  }

  /** In every run, from any counter value: a present succeeds only under a validation
      after which no layer was created, destroyed or changed other than by acceptance and
      nothing was presented; every layer is then composed by the client and none is
      protected. */
  lemma PresentNeedsValidation(states: seq<Composer>, ops: seq<Op>, n: nat) returns (v: nat)
    requires IsRun(states, ops) && n < |ops| && ops[n].PresentDirect? && Succeeds(states[n], ops[n])
    ensures InForce(states, ops, v, n)
    ensures forall l :: l in states[n].layers ==> states[n].layers[l].composition == Client && !states[n].layers[l].protectedContent
    ensures states[n].power == On
  {
    v := ValidationInForce(states, ops, n);
    RunIsValid(states, ops, n);
    hide IsRun, InForce, Step;
    var c := states[n];
    assert c.Changes() == {} && !c.HasProtected();
    forall l | l in c.layers ensures c.layers[l].composition == Client && !c.layers[l].protectedContent {
      assert l !in c.Changes();
    }
  }

  /** Each validation authorises at most one present. */
  lemma OnePresentPerValidation(states: seq<Composer>, ops: seq<Op>, m: nat, n: nat) returns (v: nat)
    requires IsRun(states, ops) && m < n < |ops|
    requires ops[m].PresentDirect? && Succeeds(states[m], ops[m])
    requires ops[n].PresentDirect? && Succeeds(states[n], ops[n])
    ensures m < v && InForce(states, ops, v, n)
  {
    v := PresentNeedsValidation(states, ops, n);
    assert v < m ==> Quiet(states, ops, m);
  }

  /** A display presents exactly while a validation stands whose changes are accepted, and it is
      on; a validation that asks for no change needs no acceptance. */
  lemma PresentsExactly(c: Composer, d: u64)
    requires c.Valid()
    ensures c.PresentError(d).None? <==> d == c.display && c.validated.Some? && c.accepted && c.power == On
    ensures !c.HasProtected() && c.Changes() == {} && c.power == On ==> Step(Step(c, Validate(c.display)), PresentDirect(c.display)) == c.(validated := None, accepted := false)
  {
  }

  /** Writing back what a layer already is leaves a standing validation alone, and any real
      change ends it. */
  lemma OnlyChangesInvalidate(c: Composer, layer: LayerState)
    requires c.Valid() && layer.id in c.layers
    ensures c.layers[layer.id] == layer ==> Step(c, UpdateLayer(c.display, layer)) == c
    ensures c.layers[layer.id] != layer ==> Step(c, UpdateLayer(c.display, layer)).validated.None?
  {
  }

  /** A display is only ever switched on or off. */
  lemma {:induction false} PowerIsOnOrOff(states: seq<Composer>, ops: seq<Op>, n: nat)
    requires IsRun(states, ops) && n < |states| && states[0].power in {On, Off}
    ensures states[n].power in {On, Off}
  {
    if n > 0 {
      PowerIsOnOrOff(states, ops, n - 1);
      assert states[n] == Step(states[n - 1], ops[n - 1]);
    }
  }

  ghost predicate CreatesAt(states: seq<Composer>, ops: seq<Op>, i: nat, l: u64)
    requires |states| == |ops| + 1
  {
    i < |ops| && ops[i].CreateLayer? && ops[i].layer.id == l && Succeeds(states[i], ops[i])
  }

  ghost predicate DestroysAt(states: seq<Composer>, ops: seq<Op>, i: nat, l: u64)
    requires |states| == |ops| + 1
  {
    i < |ops| && ops[i].DestroyLayer? && ops[i].id == l && Succeeds(states[i], ops[i])
  }

  /** Step `i` created the layer and nothing destroyed it before step `n`. */
  ghost predicate CreatedSince(states: seq<Composer>, ops: seq<Op>, i: nat, n: nat, l: u64)
    requires |states| == |ops| + 1
  {
    i < n && CreatesAt(states, ops, i, l) && forall j :: i < j < n ==> !DestroysAt(states, ops, j, l)
  }

  /** Over every run from an empty display a layer is there exactly if it was created and not
      destroyed since. */
  lemma {:induction false} LayersAreHistory(states: seq<Composer>, ops: seq<Op>, n: nat, l: u64)
    requires IsRun(states, ops) && n < |states| && states[0].layers == map[]
    ensures l in states[n].layers <==> exists i: nat :: CreatedSince(states, ops, i, n, l)
  {
    if n > 0 {
      LayersAreHistory(states, ops, n - 1, l);
      var c, op := states[n - 1], ops[n - 1];
      assert states[n] == Step(c, op);
      LayerStep(c, op, l);
      hide Step, Succeeds, IsRun;
      if l in states[n].layers {
        if CreatesAt(states, ops, n - 1, l) {
          assert CreatedSince(states, ops, n - 1, n, l);
        } else {
          var i: nat :| CreatedSince(states, ops, i, n - 1, l);
          assert CreatedSince(states, ops, i, n, l);
        }
      } else if i: nat :| CreatedSince(states, ops, i, n, l) {
        if i < n - 1 {
          assert !DestroysAt(states, ops, n - 1, l);
          assert CreatedSince(states, ops, i, n - 1, l);
        }
      }
    }
  }

  lemma LayerStep(c: Composer, op: Op, l: u64)
    ensures l in Step(c, op).layers <==>
      || (op.CreateLayer? && op.layer.id == l && Succeeds(c, op))
      || (l in c.layers && !(op.DestroyLayer? && op.id == l && Succeeds(c, op)))
  {
  }

  /** The display with its fields updated in place. */
  class DisplayComposer {
    const display: u64
    var layers: Layers
    var generation: u64
    var validated: Option<u64>
    var accepted: bool
    var target: Option<ClientTarget>
    var power: PowerMode

    ghost function View(): Composer reads this {
      Composer(display, layers, generation, validated, accepted, target, power)
    }

    constructor (display: u64)
      ensures View() == NewComposer(display, 0) && View().Valid()
    {
      this.display := display;
      layers, generation, validated, accepted, target, power := map[], 0, None, false, None, Off;
    }

    method Invalidate()
      modifies this
      ensures View() == old(View()).Invalidated()
    {
      generation := if generation + 1 < U64_LIMIT then generation + 1 else generation;
      validated := None;
      accepted := false;
    }

    method CreateLayer(d: u64, layer: LayerState) returns (error: Option<ComposerError>)
      requires View().Valid()
      modifies this
      ensures error == ErrorOf(old(View()), Op.CreateLayer(d, layer)) && View() == Step(old(View()), Op.CreateLayer(d, layer)) && View().Valid()
    {
      StepKeepsValid(View(), Op.CreateLayer(d, layer));
      hide Composer.Valid;
      if d != display {
        return Some(UnknownDisplay);
      }
      if layer.id in layers {
        return Some(DuplicateLayer(layer.id));
      }
      layers := layers[layer.id := layer];
      Invalidate();
      return None;
    }

    method UpdateLayer(d: u64, layer: LayerState) returns (error: Option<ComposerError>)
      requires View().Valid()
      modifies this
      ensures error == ErrorOf(old(View()), Op.UpdateLayer(d, layer)) && View() == Step(old(View()), Op.UpdateLayer(d, layer)) && View().Valid()
    {
      StepKeepsValid(View(), Op.UpdateLayer(d, layer));
      hide Composer.Valid;
      if d != display {
        return Some(UnknownDisplay);
      }
      if layer.id !in layers {
        return Some(UnknownLayer(layer.id));
      }
      if layers[layer.id] != layer {
        layers := layers[layer.id := layer];
        Invalidate();
      }
      return None;
    }

    method DestroyLayer(d: u64, id: u64) returns (error: Option<ComposerError>)
      requires View().Valid()
      modifies this
      ensures error == ErrorOf(old(View()), Op.DestroyLayer(d, id)) && View() == Step(old(View()), Op.DestroyLayer(d, id)) && View().Valid()
    {
      StepKeepsValid(View(), Op.DestroyLayer(d, id));
      hide Composer.Valid;
      if d != display {
        return Some(UnknownDisplay);
      }
      if id !in layers {
        return Some(UnknownLayer(id));
      }
      layers := layers - {id};
      Invalidate();
      return None;
    }

    /** The layers to change, in ascending order of identity. */
    method CollectChanges() returns (changes: seq<u64>)
      ensures changes == Ascending(View().Changes())
    {
      var order := Ascending(layers.Keys);
      AscendingIsStrict(layers.Keys);
      changes := [];
      for i := 0 to |order|
        invariant Strict(changes)
        invariant forall x :: x in changes <==> exists j :: 0 <= j < i && order[j] == x && layers[order[j]].composition != Client
      {
        assert order[i] in layers.Keys;
        if layers[order[i]].composition != Client {
          StrictAppend(changes, order[i]);
          changes := changes + [order[i]];
        }
      }
      forall x ensures x in changes <==> x in View().Changes() {
        if x in View().Changes() { assert x in order; }
      }
      AscendingIsUnique(changes, View().Changes());
    }

    method ValidateDisplay(d: u64) returns (r: Result<seq<u64>, ComposerError>)
      requires View().Valid()
      modifies this
      ensures View() == Step(old(View()), Validate(d)) && View().Valid()
      ensures match ErrorOf(old(View()), Validate(d))
              case Some(error) => r == Err(error)
              case None => r == Ok(Ascending(old(View()).Changes()))
    {
      StepKeepsValid(View(), Validate(d));
      hide Composer.Valid;
      if d != display {
        return Err(UnknownDisplay);
      }
      if exists l :: l in layers && layers[l].protectedContent {
        return Err(ProtectedContent);
      }
      var changes := CollectChanges();
      validated := Some(generation);
      accepted := changes == [];
      return Ok(changes);
    }

    method AcceptDisplayChanges(d: u64) returns (error: Option<ComposerError>)
      requires View().Valid()
      modifies this
      ensures error == ErrorOf(old(View()), Accept(d)) && View() == Step(old(View()), Accept(d)) && View().Valid()
    {
      StepKeepsValid(View(), Accept(d));
      hide Composer.Valid;
      if d != display {
        return Some(UnknownDisplay);
      }
      if validated != Some(generation) {
        return Some(NotValidated);
      }
      if power != On {
        return Some(DisplayOff);
      }
      layers := AllClient(layers);
      accepted := true;
      return None;
    }

    method PresentDisplayDirect(d: u64) returns (error: Option<ComposerError>)
      requires View().Valid()
      modifies this
      ensures error == ErrorOf(old(View()), PresentDirect(d)) && View() == Step(old(View()), PresentDirect(d)) && View().Valid()
      ensures error.None? ==> View().PresentError(d) == Some(NotValidated)
    {
      StepKeepsValid(View(), PresentDirect(d));
      hide Composer.Valid;
      if d != display {
        return Some(UnknownDisplay);
      }
      if validated != Some(generation) {
        return Some(NotValidated);
      }
      if !accepted {
        return Some(ChangesNotAccepted);
      }
      if power != On {
        return Some(DisplayOff);
      }
      validated := None;
      accepted := false;
      return None;
    }
  }
}
