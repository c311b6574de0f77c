/** Command batches over many displays. */
module Batches {
  import opened Base
  import opened Ordered
  import opened Composer

  const MAX_DISPLAY_COMMANDS := 4096
  const MAX_LAYER_COMMANDS := 4096
  const MAX_DAMAGE_RECTS := 256

  datatype ErrorCode = BadConfig | BadDisplay | BadLayer | BadParameter | NoResources | NotReady | Unsupported

  datatype Patch = Patch(layer: u64, composition: Option<Composition>, z: Option<int>, protectedContent: Option<bool>, sideband: bool)

  datatype DisplayCommand = DisplayCommand(
    display: u64,
    layers: seq<Patch>,
    target: Option<ClientTarget>,
    validate: bool,
    accept: bool,
    present: bool,
    presentOrValidate: bool)

  datatype CommandResult =
    | Failed(index: nat, code: ErrorCode)
    | ChangedCompositionTypes(display: u64, layers: seq<u64>)
    | Presented(display: u64)
    | PresentOrValidate(display: u64, presented: bool)

  function CodeOf(error: ComposerError): ErrorCode {
    match error
    case UnknownDisplay => BadDisplay
    case DuplicateLayer(_) => BadLayer
    case UnknownLayer(_) => BadLayer
    case NotValidated => NotReady
    case ChangesNotAccepted => NotReady
    case UnsupportedPowerMode => Unsupported
    case ProtectedContent => Unsupported
    case DisplayOff => BadParameter
  }

  /** A display after some commands, the failure that stopped it, and what it reported. */
  datatype Outcome = Outcome(composer: Composer, error: Option<ErrorCode>, results: seq<CommandResult>)

  predicate Oversized(cmd: DisplayCommand) {
    |cmd.layers| > MAX_LAYER_COMMANDS || (cmd.target.Some? && cmd.target.value.damageRects > MAX_DAMAGE_RECTS)
  }

  predicate Contradictory(cmd: DisplayCommand) {
    cmd.presentOrValidate && (cmd.validate || cmd.accept || cmd.present)
  }

  function Patched(layer: LayerState, p: Patch): LayerState {
    layer.(composition := if p.composition.Some? then p.composition.value else layer.composition,
           z := if p.z.Some? then p.z.value else layer.z,
           protectedContent := if p.protectedContent.Some? then p.protectedContent.value else layer.protectedContent)
  }

  function PatchError(c: Composer, d: u64, p: Patch): Option<ErrorCode> {
    if p.sideband then Some(Unsupported)
    else if c.LayerError(d, p.layer).Some? then Some(CodeOf(c.LayerError(d, p.layer).value))
    else None
  }

  /** Patches apply in order; those before a failing one stay applied. */
  function ApplyPatches(c: Composer, d: u64, ps: seq<Patch>): (Composer, Option<ErrorCode>)
    decreases |ps|
  {
    if ps == [] then (c, None)
    else
      var (before, error) := ApplyPatches(c, d, ps[..|ps| - 1]);
      var p := ps[|ps| - 1];
      if error.Some? then (before, error)
      else if PatchError(before, d, p).Some? then (before, PatchError(before, d, p))
      else if p.layer !in before.layers then (before, None)
      else (before.Updated(Patched(before.layers[p.layer], p)), None)
  }

  function ChangeReport(d: u64, changes: set<u64>): seq<CommandResult> {
    if changes == {} then [] else [ChangedCompositionTypes(d, Ascending(changes))]
  }

  function PresentOrValidateOn(c: Composer, d: u64): Outcome {
    var refused := c.PresentError(d);
    if refused.None? then Outcome(c.Presented(), None, [CommandResult.Presented(d), CommandResult.PresentOrValidate(d, true)])
    else if refused.value.NotValidated? then
      if c.ValidateError(d).Some? then Outcome(c, Some(CodeOf(c.ValidateError(d).value)), [])
      else Outcome(c.Validated(), None, ChangeReport(d, c.Changes()) + [CommandResult.PresentOrValidate(d, false)])
    else Outcome(c, Some(CodeOf(refused.value)), [])
  }

  function Validating(c: Composer, d: u64, wanted: bool): Outcome {
    if !wanted then Outcome(c, None, [])
    else if c.ValidateError(d).Some? then Outcome(c, Some(CodeOf(c.ValidateError(d).value)), [])
    else Outcome(c.Validated(), None, ChangeReport(d, c.Changes()))
  }

  function Accepting(o: Outcome, d: u64, wanted: bool): Outcome {
    if o.error.Some? || !wanted then o
    else if o.composer.AcceptError(d).Some? then o.(error := Some(CodeOf(o.composer.AcceptError(d).value)))
    else o.(composer := o.composer.Accepted())
  }

  function Presenting(o: Outcome, d: u64, wanted: bool): Outcome {
    if o.error.Some? || !wanted then o
    else if o.composer.PresentError(d).Some? then o.(error := Some(CodeOf(o.composer.PresentError(d).value)))
    else Outcome(o.composer.Presented(), None, o.results + [CommandResult.Presented(d)])
  }

  /** One command on the display it names. */
  function OnDisplay(c: Composer, cmd: DisplayCommand): Outcome {
    var d := cmd.display;
    var (patched, error) := ApplyPatches(c, d, cmd.layers);
    if error.Some? then Outcome(patched, error, [])
    else if cmd.target.Some? && d != patched.display then Outcome(patched, Some(BadDisplay), [])
    else
      var ready := if cmd.target.Some? then patched.(target := cmd.target) else patched;
      if cmd.presentOrValidate then PresentOrValidateOn(ready, d)
      else Presenting(Accepting(Validating(ready, d, cmd.validate), d, cmd.accept), d, cmd.present)
  }

  type Windows = map<u64, Composer>

  /** What one command did: the display it named, its failure and its results. */
  datatype Report = Report(display: u64, error: Option<ErrorCode>, results: seq<CommandResult>)

  function ExecuteOne(w: Windows, cmd: DisplayCommand): (Windows, Report) {
    if Oversized(cmd) || Contradictory(cmd) then (w, Report(cmd.display, Some(BadParameter), []))
    else if cmd.display !in w then (w, Report(cmd.display, Some(BadDisplay), []))
    else
      var o := OnDisplay(w[cmd.display], cmd);
      (w[cmd.display := o.composer], Report(cmd.display, o.error, o.results))
  }

  function Execute(w: Windows, cmds: seq<DisplayCommand>): (r: (Windows, seq<Report>))
    ensures |r.1| == |cmds|
    decreases |cmds|
  {
    if cmds == [] then (w, [])
    else
      var (before, reports) := Execute(w, cmds[..|cmds| - 1]);
      var (after, report) := ExecuteOne(before, cmds[|cmds| - 1]);
      (after, reports + [report])
  }

  /** The reply vector: each command's results, then its failure under the command's index. */
  function Replies(reports: seq<Report>): seq<CommandResult>
    decreases |reports|
  {
    if reports == [] then []
    else
      var n := |reports| - 1;
      Replies(reports[..n]) + reports[n].results + (if reports[n].error.Some? then [Failed(n, reports[n].error.value)] else [])
  }

  function Only(cmds: seq<DisplayCommand>, d: u64): seq<DisplayCommand>
    decreases |cmds|
  {
    if cmds == [] then []
    else Only(cmds[..|cmds| - 1], d) + (if cmds[|cmds| - 1].display == d then [cmds[|cmds| - 1]] else [])
  }

  function OnlyReports(reports: seq<Report>, d: u64): seq<Report>
    decreases |reports|
  {
    if reports == [] then []
    else OnlyReports(reports[..|reports| - 1], d) + (if reports[|reports| - 1].display == d then [reports[|reports| - 1]] else [])
  }

  predicate SameWindow(v: Windows, w: Windows, d: u64) {
    (d in v <==> d in w) && (d in v ==> v[d] == w[d])
  }

  lemma OneIsLocal(v: Windows, w: Windows, cmd: DisplayCommand)
    requires SameWindow(v, w, cmd.display)
    ensures ExecuteOne(v, cmd).1 == ExecuteOne(w, cmd).1 && SameWindow(ExecuteOne(v, cmd).0, ExecuteOne(w, cmd).0, cmd.display)
  {
    hide OnDisplay;
  }

  lemma OthersUntouched(w: Windows, cmd: DisplayCommand, d: u64)
    requires cmd.display != d
    ensures SameWindow(w, ExecuteOne(w, cmd).0, d) && ExecuteOne(w, cmd).1.display != d
  {
    hide OnDisplay;
  }

  /** Non-interference: a display ends up as if only its own commands had been sent, and
      they report the same results and failures, whatever the rest of the batch does and
      however commands fail halfway. */
  lemma {:induction false} DisplaysDoNotInterfere(w: Windows, cmds: seq<DisplayCommand>, d: u64)
    ensures SameWindow(Execute(w, cmds).0, Execute(w, Only(cmds, d)).0, d)
    ensures OnlyReports(Execute(w, cmds).1, d) == Execute(w, Only(cmds, d)).1
    decreases |cmds|
  {
    if cmds != [] {
      var rest, cmd := cmds[..|cmds| - 1], cmds[|cmds| - 1];
      DisplaysDoNotInterfere(w, rest, d);
      var (before, reports) := Execute(w, rest);
      var (alone, mine) := Execute(w, Only(rest, d));
      var (after, report) := ExecuteOne(before, cmd);
      assert Execute(w, cmds) == (after, reports + [report]);
      assert (reports + [report])[..|reports|] == reports;
      hide ExecuteOne, SameWindow;
      if cmd.display == d {
        OneIsLocal(before, alone, cmd);
        ReportNamesDisplay(before, cmd);
        assert Only(cmds, d) == Only(rest, d) + [cmd];
        assert (Only(rest, d) + [cmd])[..|Only(rest, d)|] == Only(rest, d);
      } else {
        OthersUntouched(before, cmd, d);
        assert Only(cmds, d) == Only(rest, d);
        assert OnlyReports(reports + [report], d) == OnlyReports(reports, d);
      }
    }
  }

  lemma ReportNamesDisplay(w: Windows, cmd: DisplayCommand)
    ensures ExecuteOne(w, cmd).1.display == cmd.display
  {
    hide OnDisplay;
  }

  ghost predicate Valid(w: Windows) {
    forall d :: d in w ==> w[d].display == d && w[d].Valid()
  }

  lemma UpdatedKeepsValid(c: Composer, layer: LayerState)
    requires c.Valid() && layer.id in c.layers
    ensures c.Updated(layer).Valid() && c.Updated(layer).display == c.display
  {
  }

  lemma {:induction false} PatchesKeepValid(c: Composer, d: u64, ps: seq<Patch>)
    requires c.Valid() && c.display == d
    ensures ApplyPatches(c, d, ps).0.Valid() && ApplyPatches(c, d, ps).0.display == d
    decreases |ps|
  {
    if ps != [] {
      PatchesKeepValid(c, d, ps[..|ps| - 1]);
      var before, p := ApplyPatches(c, d, ps[..|ps| - 1]).0, ps[|ps| - 1];
      if p.layer in before.layers { UpdatedKeepsValid(before, Patched(before.layers[p.layer], p)); }
      hide Composer.Valid;
    }
  }

  // ------------------------------------------------------------------------------------
  // What the patches of a command leave behind

  /** The patch cannot be applied: it names a sideband stream, another display or no layer. */
  predicate Unpatchable(c: Composer, d: u64, p: Patch) { p.sideband || d != c.display || p.layer !in c.layers }

  function PatchFault(c: Composer, d: u64, p: Patch): ErrorCode {
    if p.sideband then Unsupported else if d != c.display then BadDisplay else BadLayer
  }

  /** The first `n` patches apply, and the next, if there is one, is the first that does not. */
  ghost predicate AppliesUpTo(c: Composer, d: u64, ps: seq<Patch>, n: nat) {
    n <= |ps| && (forall i :: 0 <= i < n ==> !Unpatchable(c, d, ps[i])) && (n < |ps| ==> Unpatchable(c, d, ps[n]))
  }

  /** What patch `p` says about each field of layer `l`. */
  function SaysComposition(p: Patch, l: u64): Option<Composition> { if p.layer == l then p.composition else None }

  function SaysZ(p: Patch, l: u64): Option<int> { if p.layer == l then p.z else None }

  function SaysProtected(p: Patch, l: u64): Option<bool> { if p.layer == l then p.protectedContent else None }

  /** The last of the values said decides, and the old value if nothing was said. */
  ghost predicate LastDecides<T(!new)>(before: T, after: T, said: seq<Option<T>>) {
    || (after == before && forall i :: 0 <= i < |said| ==> said[i].None?)
    || exists i :: LastSaid(said, i) && said[i] == Some(after)
  }

  ghost predicate LastSaid<T(!new)>(said: seq<Option<T>>, i: int) {
    0 <= i < |said| && said[i].Some? && forall j :: i < j < |said| ==> said[j].None?
  }

  lemma OneMoreDecides<T(!new)>(before: T, now: T, said: seq<Option<T>>, word: Option<T>)
    requires LastDecides(before, now, said)
    ensures LastDecides(before, if word.Some? then word.value else now, said + [word])
  {
    var all := said + [word];
    if word.Some? {
      assert LastSaid(all, |said|);
    } else if exists i :: LastSaid(said, i) && said[i] == Some(now) {
      var i :| LastSaid(said, i) && said[i] == Some(now);
      assert LastSaid(all, i);
    }
  }

  lemma LastSaidDecides<T(!new)>(before: T, after: T, said: seq<Option<T>>, i: int)
    requires LastDecides(before, after, said) && LastSaid(said, i)
    ensures said[i] == Some(after)
  {
    if exists k :: LastSaid(said, k) && said[k] == Some(after) {
      var k :| LastSaid(said, k) && said[k] == Some(after);
      assert k == i;
    }
  }

  /** Each field of layer `l` is what the last patch to set it says. */
  ghost predicate LastPatchWins(before: LayerState, after: LayerState, ps: seq<Patch>, l: u64) {
    && after.id == before.id
    && LastDecides(before.composition, after.composition, seq(|ps|, i requires 0 <= i < |ps| => SaysComposition(ps[i], l)))
    && LastDecides(before.z, after.z, seq(|ps|, i requires 0 <= i < |ps| => SaysZ(ps[i], l)))
    && LastDecides(before.protectedContent, after.protectedContent, seq(|ps|, i requires 0 <= i < |ps| => SaysProtected(ps[i], l)))
  }

  lemma OnePatchWins(before: LayerState, now: LayerState, ps: seq<Patch>, p: Patch, l: u64)
    requires LastPatchWins(before, now, ps, l)
    ensures LastPatchWins(before, if p.layer == l then Patched(now, p) else now, ps + [p], l)
  {
    hide LastDecides;
    var all := ps + [p];
    OneMoreDecides(before.composition, now.composition, seq(|ps|, i requires 0 <= i < |ps| => SaysComposition(ps[i], l)), SaysComposition(p, l));
    OneMoreDecides(before.z, now.z, seq(|ps|, i requires 0 <= i < |ps| => SaysZ(ps[i], l)), SaysZ(p, l));
    OneMoreDecides(before.protectedContent, now.protectedContent, seq(|ps|, i requires 0 <= i < |ps| => SaysProtected(ps[i], l)), SaysProtected(p, l));
    assert seq(|all|, i requires 0 <= i < |all| => SaysComposition(all[i], l))
        == seq(|ps|, i requires 0 <= i < |ps| => SaysComposition(ps[i], l)) + [SaysComposition(p, l)];
    assert seq(|all|, i requires 0 <= i < |all| => SaysZ(all[i], l)) == seq(|ps|, i requires 0 <= i < |ps| => SaysZ(ps[i], l)) + [SaysZ(p, l)];
    assert seq(|all|, i requires 0 <= i < |all| => SaysProtected(all[i], l))
        == seq(|ps|, i requires 0 <= i < |ps| => SaysProtected(ps[i], l)) + [SaysProtected(p, l)];
  }

  ghost predicate Leaves(c: Composer, after: Composer, ps: seq<Patch>) {
    && after.layers.Keys == c.layers.Keys && after.display == c.display
    && forall l :: l in c.layers ==> LastPatchWins(c.layers[l], after.layers[l], ps, l)
  }

  lemma OnePatchLeaves(c: Composer, before: Composer, ps: seq<Patch>, p: Patch)
    requires c.Valid() && Leaves(c, before, ps) && p.layer in c.layers
    ensures Leaves(c, before.Updated(Patched(before.layers[p.layer], p)), ps + [p])
  {
    hide LastPatchWins;
    forall l | l in c.layers ensures before.layers[l].id == l { SameIdentity(c.layers[l], before.layers[l], ps, l); }
    forall l | l in c.layers { OnePatchWins(c.layers[l], before.layers[l], ps, p, l); }
  }

  lemma SameIdentity(before: LayerState, after: LayerState, ps: seq<Patch>, l: u64)
    requires LastPatchWins(before, after, ps, l)
    ensures after.id == before.id
  {
  }

  lemma {:induction false} AllPatchesApply(c: Composer, d: u64, ps: seq<Patch>)
    requires c.Valid() && forall i :: 0 <= i < |ps| ==> !Unpatchable(c, d, ps[i])
    ensures ApplyPatches(c, d, ps).1.None? && Leaves(c, ApplyPatches(c, d, ps).0, ps)
    decreases |ps|
  {
    if ps != [] {
      var rest, p := ps[..|ps| - 1], ps[|ps| - 1];
      AllPatchesApply(c, d, rest);
      assert ps == rest + [p];
      hide LastPatchWins, Patched, Composer.Updated, Composer.Valid;
      OnePatchLeaves(c, ApplyPatches(c, d, rest).0, rest, p);
    }
  }

  lemma {:induction false} FaultStops(c: Composer, d: u64, ps: seq<Patch>, n: nat)
    requires n < |ps| && ApplyPatches(c, d, ps[..n + 1]).1.Some?
    ensures ApplyPatches(c, d, ps) == ApplyPatches(c, d, ps[..n + 1])
    decreases |ps|
  {
    if n + 1 == |ps| {
      assert ps[..n + 1] == ps;
    } else {
      assert ps[..|ps| - 1][..n + 1] == ps[..n + 1];
      FaultStops(c, d, ps[..|ps| - 1], n);
    }
  }

  /** The patches of a command, in order: the first one that cannot be applied fails the
      command with its own fault; those before it stay applied, the last to set a field of a
      layer decides it, and nothing else of any layer changes. */
  lemma PatchesSetLast(c: Composer, d: u64, ps: seq<Patch>, n: nat)
    requires c.Valid() && AppliesUpTo(c, d, ps, n)
    ensures var (after, error) := ApplyPatches(c, d, ps);
      && error == (if n < |ps| then Some(PatchFault(c, d, ps[n])) else None)
      && Leaves(c, after, ps[..n])
  {
    AllPatchesApply(c, d, ps[..n]);
    hide LastPatchWins, Composer.Valid;
    if n < |ps| {
      assert ps[..n + 1][..n] == ps[..n];
      FaultStops(c, d, ps, n);
    } else {
      assert ps[..n] == ps;
    }
  }

  /** Patch `i` is the last of the command to set the flag of its layer, and sets it. */
  ghost predicate Protects(ps: seq<Patch>, i: nat) {
    && i < |ps| && ps[i].protectedContent == Some(true)
    && forall j :: i < j < |ps| ==> SaysProtected(ps[j], ps[i].layer).None?
  }

  /** Protected content is never presented: a command whose last word on some layer's flag is
      that it is protected presents nothing, and fails as unsupported if it asks to validate. */
  lemma ProtectedIsNeverPresented(c: Composer, cmd: DisplayCommand, i: nat)
    requires c.Valid() && Protects(cmd.layers, i)
    ensures var o := OnDisplay(c, cmd);
      && (forall r :: r in o.results ==> !r.Presented?)
      && (ApplyPatches(c, cmd.display, cmd.layers).1.None? && (cmd.validate || cmd.presentOrValidate) && !Contradictory(cmd) ==> o.error == Some(Unsupported))
  {
    var d, ps := cmd.display, cmd.layers;
    var after := ApplyPatches(c, d, ps).0;
    var n := FirstFault(c, d, ps, 0);
    PatchesSetLast(c, d, ps, n);
    if n == |ps| {
      assert ps[..n] == ps && !Unpatchable(c, d, ps[i]);
      var l := ps[i].layer;
      LastSaidDecides(c.layers[l].protectedContent, after.layers[l].protectedContent,
                      seq(|ps|, k requires 0 <= k < |ps| => SaysProtected(ps[k], l)), i);
      PatchesKeepValid(c, d, ps);
      ProtectedStages(if cmd.target.Some? then after.(target := cmd.target) else after, cmd);
    }
    hide ApplyPatches, Leaves, Presenting, Accepting, Validating, PresentOrValidateOn;
  }

  // ------------------------------------------------------------------------------------
  // What a command answers

  /** The layers a validation changes, if there are any. */
  ghost predicate Reports(d: u64, layers: Layers, results: seq<CommandResult>) {
    if forall l :: l in layers ==> layers[l].composition == Client then results == []
    else
      && |results| == 1 && results[0].ChangedCompositionTypes? && results[0].display == d
      && Strict(results[0].layers)
      && forall l :: l in results[0].layers <==> l in layers && layers[l].composition != Client
  }

  lemma ReportIsExact(c: Composer, d: u64)
    ensures Reports(d, c.layers, ChangeReport(d, c.Changes()))
    ensures c.Changes() == {} <==> forall l :: l in c.layers ==> c.layers[l].composition == Client
  {
    AscendingIsStrict(c.Changes());
    hide Strict;
    assert forall l :: l in c.Changes() <==> l in c.layers && c.layers[l].composition != Client;
  }

  /** The changes of a validation, followed by the report of a present if there was one. */
  ghost predicate ReportsAndPresents(d: u64, layers: Layers, results: seq<CommandResult>, presented: bool) {
    if presented
    then results != [] && results[|results| - 1] == CommandResult.Presented(d) && Reports(d, layers, results[..|results| - 1])
    else Reports(d, layers, results)
  }

  /** A validation stands after the optional validation, and needs no or has had acceptance. */
  ghost predicate Stands(c: Composer, validate: bool) { if validate then !c.HasProtected() else c.validated.Some? }

  ghost predicate Settled(c: Composer, validate: bool, accept: bool) {
    accept || if validate then forall l :: l in c.layers ==> c.layers[l].composition == Client else c.accepted
  }

  lemma ValidatingAnswers(c: Composer, d: u64, validate: bool)
    requires c.Valid() && c.display == d
    ensures var v := Validating(c, d, validate);
      && v.error == (if validate && c.HasProtected() then Some(Unsupported) else None)
      && Reports(d, if validate && !c.HasProtected() then c.layers else map[], v.results)
      && v.composer == c.(validated := v.composer.validated, accepted := v.composer.accepted)
      && v.composer.generation == c.generation
      && (v.error.None? ==>
            && (v.composer.validated == Some(c.generation) <==> Stands(c, validate))
            && (v.composer.accepted <==> if validate then forall l :: l in c.layers ==> c.layers[l].composition == Client else c.accepted))
  {
    ReportIsExact(c, d);
    hide Strict, Ascending, ChangeReport;
  }

  lemma AcceptingAnswers(o: Outcome, d: u64, accept: bool)
    requires o.composer.display == d && o.error.None?
    ensures var c, a := o.composer, Accepting(o, d, accept);
      && a.error == (if accept && c.validated != Some(c.generation) then Some(NotReady)
                     else if accept && c.power != On then Some(BadParameter) else None)
      && a.results == o.results
      && a.composer == c.(layers := a.composer.layers, accepted := a.composer.accepted)
      && a.composer.layers.Keys == c.layers.Keys
      && (a.error.None? ==> (a.composer.accepted <==> accept || c.accepted))
      && (a.error.None? && accept ==> forall l :: l in a.composer.layers ==> a.composer.layers[l].composition == Client)
  {
  }

  lemma PresentingAnswers(o: Outcome, d: u64, present: bool)
    requires o.composer.display == d && o.error.None?
    ensures var c, r := o.composer, Presenting(o, d, present);
      && r.error == (if present && c.validated != Some(c.generation) then Some(NotReady)
                     else if present && !c.accepted then Some(NotReady)
                     else if present && c.power != On then Some(BadParameter) else None)
      && r.results == (if present && r.error.None? then o.results + [CommandResult.Presented(d)] else o.results)
      && r.composer == (if present && r.error.None? then c.(validated := None, accepted := false) else c)
  {
  }

  lemma ReportsPresentNothing(d: u64, layers: Layers, results: seq<CommandResult>)
    requires Reports(d, layers, results)
    ensures CommandResult.Presented(d) !in results
  {
  }

  /** Validate, accept, present, each if asked for: the first thing missing is the answer, the
      changes of a validation are reported even then, and a present is reported, last, exactly
      if it was asked for and nothing was missing; it uses the validation up. */
  lemma StagesAnswerExactly(c: Composer, d: u64, validate: bool, accept: bool, present: bool)
    requires c.Valid() && c.display == d
    ensures var o := Presenting(Accepting(Validating(c, d, validate), d, accept), d, present);
      && o.error == (if validate && c.HasProtected() then Some(Unsupported)
                     else if (accept || present) && !Stands(c, validate) then Some(NotReady)
                     else if accept && c.power != On then Some(BadParameter)
                     else if present && !Settled(c, validate, accept) then Some(NotReady)
                     else if present && c.power != On then Some(BadParameter)
                     else None)
      && (present && o.error.None? <==> CommandResult.Presented(d) in o.results)
      && ReportsAndPresents(d, if validate && !c.HasProtected() then c.layers else map[], o.results, present && o.error.None?)
      && (present && o.error.None? ==> o.composer.validated.None? && !o.composer.accepted)
      && (accept && o.error.None? ==> forall l :: l in o.composer.layers ==> o.composer.layers[l].composition == Client)
      && o.composer.layers.Keys == c.layers.Keys && o.composer.target == c.target && o.composer.power == c.power
  {
    var v := Validating(c, d, validate);
    var a := Accepting(v, d, accept);
    var o := Presenting(a, d, present);
    var reported: Layers := if validate && !c.HasProtected() then c.layers else map[];
    ValidatingAnswers(c, d, validate);
    ReportsPresentNothing(d, reported, v.results);
    if v.error.Some? {
      assert o == v;
      hide *;
    } else {
      AcceptingAnswers(v, d, accept);
      if a.error.Some? {
        assert o == a;
        hide *;
      } else {
        PresentingAnswers(a, d, present);
        hide Validating, Accepting, Presenting, Reports, Composer.Valid, Composer.HasProtected;
        PresentIsLast(d, reported, v.results, o.results, present && o.error.None?);
      }
    }
  }

  lemma PresentIsLast(d: u64, layers: Layers, changes: seq<CommandResult>, results: seq<CommandResult>, presented: bool)
    requires Reports(d, layers, changes) && CommandResult.Presented(d) !in changes
    requires results == if presented then changes + [CommandResult.Presented(d)] else changes
    ensures ReportsAndPresents(d, layers, results, presented) && (presented <==> CommandResult.Presented(d) in results)
  {
    hide Reports;
    if presented { assert results[..|results| - 1] == changes; }
  }

  /** The combined request presents if it could, validates if that was all that was missing, and
      otherwise answers why not. */
  lemma CombinedAnswersExactly(c: Composer, d: u64)
    requires c.Valid() && c.display == d
    ensures var o := PresentOrValidateOn(c, d);
      && o.error == (if c.validated.None? then if c.HasProtected() then Some(Unsupported) else None
                     else if !c.accepted then Some(NotReady) else if c.power != On then Some(BadParameter) else None)
      && (o.error.Some? ==> o.results == [] && o.composer == c)
      && (o.error.None? && c.validated.Some? ==>
            o.results == [CommandResult.Presented(d), CommandResult.PresentOrValidate(d, true)]
            && o.composer == c.(validated := None, accepted := false))
      && (o.error.None? && c.validated.None? ==>
            && o.results != [] && o.results[|o.results| - 1] == CommandResult.PresentOrValidate(d, false)
            && Reports(d, c.layers, o.results[..|o.results| - 1])
            && o.composer.validated.Some? && o.composer.layers == c.layers
            && (o.composer.accepted <==> forall l :: l in c.layers ==> c.layers[l].composition == Client))
  {
    ReportIsExact(c, d);
    hide Strict, Ascending;
  }

  /** A command with more than 4,096 patches or 256 damage rectangles, or one that asks to
      present or validate and for one of the single stages too, is refused unread; and so is
      one for a display that is not there. */
  lemma RefusedUnread(w: Windows, cmd: DisplayCommand)
    ensures (|cmd.layers| > 4096 || (cmd.target.Some? && cmd.target.value.damageRects > 256)
             || (cmd.presentOrValidate && cmd.validate) || (cmd.presentOrValidate && cmd.accept) || (cmd.presentOrValidate && cmd.present)) ==>
              ExecuteOne(w, cmd) == (w, Report(cmd.display, Some(BadParameter), []))
    ensures |cmd.layers| <= 4096 && (cmd.target.Some? ==> cmd.target.value.damageRects <= 256)
            && !(cmd.presentOrValidate && (cmd.validate || cmd.accept || cmd.present)) ==>
              ExecuteOne(w, cmd).1 == (if cmd.display !in w then Report(cmd.display, Some(BadDisplay), [])
                                       else var o := OnDisplay(w[cmd.display], cmd); Report(cmd.display, o.error, o.results))
  {
    hide OnDisplay;
  }

  /** The client target of a command whose patches apply is the display's from then on. */
  lemma TargetIsTaken(c: Composer, cmd: DisplayCommand)
    requires c.Valid() && c.display == cmd.display && ApplyPatches(c, cmd.display, cmd.layers).1.None?
    ensures OnDisplay(c, cmd).composer.target == if cmd.target.Some? then cmd.target else c.target
  {
    PatchesKeepTarget(c, cmd.display, cmd.layers);
    PatchesKeepValid(c, cmd.display, cmd.layers);
    hide ApplyPatches;
  }

  lemma {:induction false} PatchesKeepTarget(c: Composer, d: u64, ps: seq<Patch>)
    ensures ApplyPatches(c, d, ps).0.target == c.target
    decreases |ps|
  {
    if ps != [] { PatchesKeepTarget(c, d, ps[..|ps| - 1]); }
  }

  lemma {:induction false} FirstFault(c: Composer, d: u64, ps: seq<Patch>, from: nat) returns (n: nat)
    requires from <= |ps| && forall i :: 0 <= i < from ==> !Unpatchable(c, d, ps[i])
    ensures AppliesUpTo(c, d, ps, n)
    decreases |ps| - from
  {
    n := from;
    if from < |ps| && !Unpatchable(c, d, ps[from]) { n := FirstFault(c, d, ps, from + 1); }
  }

  /** With a protected layer no validation stands and none succeeds. */
  lemma ProtectedStages(c: Composer, cmd: DisplayCommand)
    requires c.HasProtected() && cmd.display == c.display && (c.Valid() || c.validated.None?)
    ensures var o := PresentOrValidateOn(c, cmd.display); o.error == Some(Unsupported) && o.results == []
    ensures var o := Presenting(Accepting(Validating(c, cmd.display, cmd.validate), cmd.display, cmd.accept), cmd.display, cmd.present);
      o.results == [] && (cmd.validate ==> o.error == Some(Unsupported))
  {
  }

  lemma StagesKeepValid(c: Composer, d: u64, validate: bool, accept: bool, present: bool)
    requires c.Valid() && c.display == d
    ensures var o := Presenting(Accepting(Validating(c, d, validate), d, accept), d, present); o.composer.Valid() && o.composer.display == d
    ensures var o := PresentOrValidateOn(c, d); o.composer.Valid() && o.composer.display == d
  {
    StepKeepsValid(c, Validate(d));
    StepKeepsValid(c, PresentDirect(d));
    var v := Validating(c, d, validate);
    StepKeepsValid(v.composer, Accept(d));
    var a := Accepting(v, d, accept);
    StepKeepsValid(a.composer, PresentDirect(d));
    hide Composer.Valid;
  }

  lemma OneKeepsValid(w: Windows, cmd: DisplayCommand)
    requires Valid(w)
    ensures Valid(ExecuteOne(w, cmd).0)
  {
    if cmd.display in w {
      var d := cmd.display;
      PatchesKeepValid(w[d], d, cmd.layers);
      var patched := ApplyPatches(w[d], d, cmd.layers).0;
      hide ApplyPatches;
      assert patched.(target := cmd.target).Valid();
      hide Composer.Valid;
      StagesKeepValid(patched, d, cmd.validate, cmd.accept, cmd.present);
      StagesKeepValid(patched.(target := cmd.target), d, cmd.validate, cmd.accept, cmd.present);
      hide Validating, Accepting, Presenting, PresentOrValidateOn;
    }
  }

  /** The session with its windows updated in place. */
  class Session {
    var windows: Windows

    constructor (windows: Windows)
      ensures this.windows == windows
    {
      this.windows := windows;
    }

    method ExecutePatches(c: Composer, d: u64, ps: seq<Patch>) returns (after: Composer, error: Option<ErrorCode>)
      ensures (after, error) == ApplyPatches(c, d, ps)
    {
      after, error := c, None;
      hide Composer.Updated, PatchError, Patched;
      var i := 0;
      while i < |ps|
        invariant 0 <= i <= |ps|
        invariant (after, None) == ApplyPatches(c, d, ps[..i]) && error.None?
      {
        assert ps[..i + 1][..i] == ps[..i];
        var refused := PatchError(after, d, ps[i]);
        if refused.Some? {
          StopsAt(c, d, ps, i + 1);
          return after, refused;
        }
        if ps[i].layer in after.layers {
          after := after.Updated(Patched(after.layers[ps[i].layer], ps[i]));
        }
        i := i + 1;
      }
      assert ps[..i] == ps;
    }

    /** One command: limits first, then the patches in order, then the wanted stages. A
        failure keeps what was applied before it. */
    method ExecuteCommand(cmd: DisplayCommand) returns (report: Report)
      modifies this
      ensures (windows, report) == ExecuteOne(old(windows), cmd)
    {
      if Oversized(cmd) || Contradictory(cmd) {
        return Report(cmd.display, Some(BadParameter), []);
      }
      if cmd.display !in windows {
        return Report(cmd.display, Some(BadDisplay), []);
      }
      hide ApplyPatches, Validating, Accepting, Presenting, PresentOrValidateOn, Oversized, Contradictory;
      var c, error := ExecutePatches(windows[cmd.display], cmd.display, cmd.layers);
      if error.Some? {
        windows := windows[cmd.display := c];
        return Report(cmd.display, error, []);
      }
      if cmd.target.Some? {
        if cmd.display != c.display {
          windows := windows[cmd.display := c];
          return Report(cmd.display, Some(BadDisplay), []);
        }
        c := c.(target := cmd.target);
      }
      var o: Outcome;
      if cmd.presentOrValidate {
        o := PresentOrValidateOn(c, cmd.display);
      } else {
        o := Validating(c, cmd.display, cmd.validate);
        o := Accepting(o, cmd.display, cmd.accept);
        o := Presenting(o, cmd.display, cmd.present);
      }
      windows := windows[cmd.display := o.composer];
      return Report(cmd.display, o.error, o.results);
    }

    /** One reply vector for the whole batch; a failing command does not stop the next. */
    method ExecuteCommands(cmds: seq<DisplayCommand>) returns (results: seq<CommandResult>)
      requires Valid(windows)
      modifies this
      ensures Valid(windows)
      ensures |cmds| > MAX_DISPLAY_COMMANDS ==> windows == old(windows) && results == [Failed(MAX_DISPLAY_COMMANDS, BadParameter)]
      ensures |cmds| <= MAX_DISPLAY_COMMANDS ==>
        windows == Execute(old(windows), cmds).0 && results == Replies(Execute(old(windows), cmds).1)
    {
      if |cmds| > MAX_DISPLAY_COMMANDS {
        return [Failed(MAX_DISPLAY_COMMANDS, BadParameter)];
      }
      hide Valid, ExecuteOne, Execute, Replies;
      results := [];
      NothingExecuted(windows, cmds);
      var i := 0;
      while i < |cmds|
        invariant 0 <= i <= |cmds| && Valid(windows)
        invariant windows == Execute(old(windows), cmds[..i]).0 && results == Replies(Execute(old(windows), cmds[..i]).1)
      {
        OneKeepsValid(windows, cmds[i]);
        ExecuteNext(old(windows), cmds, i);
        var report := ExecuteCommand(cmds[i]);
        results := results + report.results;
        if report.error.Some? {
          results := results + [Failed(i, report.error.value)];
        }
        i := i + 1;
      }
      assert cmds[..i] == cmds;
    }
  }

  lemma NothingExecuted(w: Windows, cmds: seq<DisplayCommand>)
    ensures Execute(w, cmds[..0]) == (w, []) && Replies([]) == []
  {
  }

  /** One more command of the batch: the windows and replies it adds. */
  lemma ExecuteNext(w: Windows, cmds: seq<DisplayCommand>, i: nat)
    requires i < |cmds|
    ensures var (before, reports) := Execute(w, cmds[..i]);
      var (after, report) := ExecuteOne(before, cmds[i]);
      && Execute(w, cmds[..i + 1]).0 == after
      && Replies(Execute(w, cmds[..i + 1]).1)
         == Replies(reports) + report.results + (if report.error.Some? then [Failed(i, report.error.value)] else [])
  {
    hide ExecuteOne;
    var (before, reports) := Execute(w, cmds[..i]);
    var (after, report) := ExecuteOne(before, cmds[i]);
    assert cmds[..i + 1][..i] == cmds[..i];
    assert Execute(w, cmds[..i + 1]) == (after, reports + [report]);
    assert (reports + [report])[..i] == reports;
  }

  /** Once a patch failed the rest of the list is not looked at. */
  lemma {:induction false} StopsAt(c: Composer, d: u64, ps: seq<Patch>, i: nat)
    requires i <= |ps| && ApplyPatches(c, d, ps[..i]).1.Some?
    ensures ApplyPatches(c, d, ps) == ApplyPatches(c, d, ps[..i])
    decreases |ps| - i
  {
    if i < |ps| {
      assert ps[..i + 1][..i] == ps[..i];
      StopsAt(c, d, ps, i + 1);
    } else {
      assert ps[..i] == ps;
    }
  }
}
