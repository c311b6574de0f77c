/** What feeds scene validation: layer chunks, the staging area and the published configuration. */
module Staging {
  import opened Base
  import opened Wire
  import opened Scene

  // ------------------------------------------------------------------------------------
  // Staging

  /** Layers staged so far, each with what it owns, and whether the scene overflowed. */
  datatype Stage<T> = Stage(layers: seq<T>, failed: bool) {
    function Pushed(x: T): Stage<T> {
      if failed || |layers| == MAX_LAYERS then this.(failed := true) else this.(layers := layers + [x])
    }
  }

  datatype StageOp<T> = Push(x: T) | Clear | Take | Recycle

  function StageRun<T>(ops: seq<StageOp<T>>): Stage<T>
    decreases |ops|
  {
    if ops == [] then Stage([], false)
    else
      var before, op := StageRun(ops[..|ops| - 1]), ops[|ops| - 1];
      if op.Push? then before.Pushed(op.x) else Stage([], false)
  }

  /** Everything pushed since the scene was last cleared, taken or recycled. */
  function PushedSince<T>(ops: seq<StageOp<T>>): seq<T>
    decreases |ops|
  {
    if ops == [] then []
    else
      var op := ops[|ops| - 1];
      if op.Push? then PushedSince(ops[..|ops| - 1]) + [op.x] else []
  }

  /** Overflow is sticky: the stage holds everything pushed since the last reset, or is
      flagged and holds the first 64. A truncated scene is never taken for a complete one. */
  lemma {:induction false} OverflowIsSticky<T>(ops: seq<StageOp<T>>)
    ensures var s, all := StageRun(ops), PushedSince(ops);
      && (s.failed <==> |all| > MAX_LAYERS)
      && s.layers == (if |all| > MAX_LAYERS then all[..MAX_LAYERS] else all)
    decreases |ops|
  {
    if ops != [] { OverflowIsSticky(ops[..|ops| - 1]); }
  }

  class StagingArea<T> {
    var layers: seq<T>
    var failed: bool

    ghost function View(): Stage<T> reads this { Stage(layers, failed) }

    constructor ()
      ensures View() == Stage([], false)
    {
      layers, failed := [], false;
    }

    method Push(x: T) returns (ok: bool)
      modifies this
      ensures View() == old(View()).Pushed(x) && (ok <==> |layers| == |old(layers)| + 1)
      ensures !ok ==> failed
    {
      if failed || |layers| == MAX_LAYERS {
        failed := true;
        return false;
      }
      layers := layers + [x];
      return true;
    }

    method Clear()
      modifies this
      ensures View() == Stage([], false)
    {
      layers, failed := [], false;
    }

    method Take() returns (scene: seq<T>)
      modifies this
      ensures View() == Stage([], false) && scene == old(layers)
    {
      scene := layers;
      layers, failed := [], false;
    }
  }

  // ------------------------------------------------------------------------------------
  // Chunks of layers with the fences they carry

  const MAX_BATCH_LAYERS := 16
  const LAYER_BYTES := 76
  const NO_FENCE := 0xFFFF_FFFF

  datatype ChunkError = Length | Descriptors | BadField

  datatype BatchLayer = BatchLayer(layer: Layer, fence: Option<nat>)

  function U32At(p: Bytes, at: nat): u32
    requires at + 4 <= |p|
  {
    LeOfUn(p[at..at + 4]);
    Wire.Widths();
    Un(p[at..at + 4])
  }

  function U64At(p: Bytes, at: nat): u64
    requires at + 8 <= |p|
  {
    LeOfUn(p[at..at + 8]);
    Wire.Widths();
    Un(p[at..at + 8])
  }

  function Signed(x: u32): i32 { if x > I32_MAX then x - U32_LIMIT else x }

  function LayerAt(p: Bytes): Layer
    requires |p| == LAYER_BYTES
  {
    Layer(U64At(p, 0), U64At(p, 8), U64At(p, 16),
          Area(Signed(U32At(p, 24)), Signed(U32At(p, 28)), Signed(U32At(p, 32)), Signed(U32At(p, 36))),
          Area(U32At(p, 40), U32At(p, 44), U32At(p, 48), U32At(p, 52)),
          U32At(p, 56), U32At(p, 60), U32At(p, 64) == 1, U32At(p, 68))
  }

  function Record(p: Bytes, i: nat): Bytes
    requires 4 + LAYER_BYTES * (i + 1) <= |p|
  {
    p[4 + LAYER_BYTES * i..4 + LAYER_BYTES * (i + 1)]
  }

  function FenceOf(p: Bytes, i: nat): Option<nat>
    requires 4 + LAYER_BYTES * (i + 1) <= |p|
  {
    var index := U32At(Record(p, i), 72);
    if index == NO_FENCE then None else Some(index)
  }

  function LayerOf(p: Bytes, i: nat): BatchLayer
    requires 4 + LAYER_BYTES * (i + 1) <= |p|
  {
    BatchLayer(LayerAt(Record(p, i)), FenceOf(p, i))
  }

  /** Flags beyond opacity, or a fence on a solid layer. */
  predicate BadLayer(p: Bytes, i: nat)
    requires 4 + LAYER_BYTES * (i + 1) <= |p|
  {
    U32At(Record(p, i), 64) > 1 || (LayerAt(Record(p, i)).buffer == 0 && FenceOf(p, i).Some?)
  }

  predicate HeaderOk(p: Bytes) {
    |p| >= 4 && 0 < U32At(p, 0) <= MAX_BATCH_LAYERS && |p| == 4 + U32At(p, 0) * LAYER_BYTES
  }

  /** Fence `f` belongs to one of the first `n` layers. */
  ghost predicate Used(p: Bytes, n: nat, f: int)
    requires 4 + LAYER_BYTES * n <= |p|
  {
    f >= 0 && exists j :: 0 <= j < n && FenceOf(p, j) == Some(f)
  }

  /** What is wrong with layer `i`, given those before it. */
  ghost function FaultAt(p: Bytes, descriptors: nat, i: nat): Option<ChunkError>
    requires 4 + LAYER_BYTES * (i + 1) <= |p|
  {
    var fence := FenceOf(p, i);
    if fence.Some? && (fence.value >= descriptors || Used(p, i, fence.value)) then Some(Descriptors)
    else if BadLayer(p, i) then Some(BadField)
    else None
  }

  /** The first fault among the first `n` layers. */
  ghost function FirstFault(p: Bytes, descriptors: nat, n: nat): Option<ChunkError>
    requires 4 + LAYER_BYTES * n <= |p|
  {
    if n == 0 then None
    else if FirstFault(p, descriptors, n - 1).Some? then FirstFault(p, descriptors, n - 1)
    else FaultAt(p, descriptors, n - 1)
  }

  /** The fence indices are a bijection from the fenced layers onto the attached descriptors. */
  ghost predicate Bijection(layers: seq<BatchLayer>, descriptors: nat) {
    && (forall i :: 0 <= i < |layers| && layers[i].fence.Some? ==> layers[i].fence.value < descriptors)
    && (forall i, j :: 0 <= i < j < |layers| && layers[i].fence.Some? ==> layers[i].fence != layers[j].fence)
    && (forall d :: 0 <= d < descriptors ==> Owner(layers, d))
  }

  ghost predicate Owner(layers: seq<BatchLayer>, d: nat) {
    exists i :: 0 <= i < |layers| && layers[i].fence == Some(d)
  }

  ghost function BatchFault(p: Bytes, descriptors: nat): Option<ChunkError> {
    if !HeaderOk(p) then Some(Length)
    else if descriptors > 4 then Some(Descriptors)
    else if FirstFault(p, descriptors, U32At(p, 0)).Some? then FirstFault(p, descriptors, U32At(p, 0))
    else if exists d :: 0 <= d < descriptors && !Used(p, U32At(p, 0), d) then Some(Descriptors)
    else None
  }

  /** The layers in order, marking each fence in the table of used descriptors. */
  method DecodeLayers(p: Bytes, descriptors: nat, count: nat, used: array<bool>) returns (r: Result<seq<BatchLayer>, ChunkError>)
    requires used.Length == 4 && descriptors <= 4 && 4 + LAYER_BYTES * count <= |p|
    requires forall f :: 0 <= f < 4 ==> !used[f]
    modifies used
    ensures match FirstFault(p, descriptors, count)
            case Some(error) => r == Err(error)
            case None =>
              && r.Ok? && |r.value| == count && (forall i :: 0 <= i < count ==> r.value[i] == LayerOf(p, i))
              && forall f :: 0 <= f < 4 ==> (used[f] <==> Used(p, count, f))
  {
    hide U32At, LayerAt, Record, FenceOf, BadLayer, LayerOf, Used, FirstFault;
    NothingUsed(p);
    NoFaultYet(p, descriptors);
    var layers := [];
    var i := 0;
    while i < count
      invariant 0 <= i <= count && |layers| == i
      invariant FirstFault(p, descriptors, i).None?
      invariant forall f :: 0 <= f < 4 ==> (used[f] <==> Used(p, i, f))
      invariant forall j :: 0 <= j < i ==> layers[j] == LayerOf(p, j)
    {
      UsedStep(p, i);
      FaultStep(p, descriptors, i, count);
      var fence := FenceOf(p, i);
      if fence.Some? {
        if fence.value >= descriptors || used[fence.value] {
          return Err(Descriptors);
        }
        used[fence.value] := true;
      }
      if BadLayer(p, i) {
        return Err(BadField);
      }
      layers := layers + [LayerOf(p, i)];
      i := i + 1;
    }
    return Ok(layers);
  }

  /** The chunk decoder. */
  method DecodeBatch(p: Bytes, descriptors: nat) returns (r: Result<seq<BatchLayer>, ChunkError>)
    ensures BatchFault(p, descriptors).Some? ==> r == Err(BatchFault(p, descriptors).value)
    ensures BatchFault(p, descriptors).None? ==>
      && r.Ok? && |r.value| == U32At(p, 0)
      && (forall i :: 0 <= i < |r.value| ==> r.value[i] == LayerOf(p, i))
  {
    hide U32At, LayerOf, Used, FirstFault;
    if |p| < 4 {
      return Err(Length);
    }
    var count := U32At(p, 0);
    if count == 0 || count > MAX_BATCH_LAYERS || |p| != 4 + count * LAYER_BYTES {
      return Err(Length);
    }
    if descriptors > 4 {
      return Err(Descriptors);
    }
    var used := new bool[4](_ => false);
    r := DecodeLayers(p, descriptors, count, used);
    if r.Err? {
      return;
    }
    var d := 0;
    while d < descriptors
      invariant 0 <= d <= descriptors && forall e :: 0 <= e < d ==> Used(p, count, e)
    {
      if !used[d] {
        return Err(Descriptors);
      }
      d := d + 1;
    }
  }

  lemma NoFaultYet(p: Bytes, descriptors: nat)
    requires |p| >= 4
    ensures FirstFault(p, descriptors, 0).None?
  {
  }

  /** The first fault among `i + 1` layers is the first among all. */
  lemma FaultStep(p: Bytes, descriptors: nat, i: nat, n: nat)
    requires i < n && 4 + LAYER_BYTES * n <= |p| && FirstFault(p, descriptors, i).None?
    ensures FirstFault(p, descriptors, i + 1) == FaultAt(p, descriptors, i)
    ensures FaultAt(p, descriptors, i).Some? ==> FirstFault(p, descriptors, n) == FaultAt(p, descriptors, i)
  {
    hide FaultAt;
    if FaultAt(p, descriptors, i).Some? { FaultStands(p, descriptors, i + 1, n); }
  }

  lemma NothingUsed(p: Bytes)
    requires |p| >= 4
    ensures forall f: nat :: !Used(p, 0, f)
  {
  }

  lemma UsedStep(p: Bytes, n: nat)
    requires 4 + LAYER_BYTES * (n + 1) <= |p|
    ensures forall f: nat :: Used(p, n + 1, f) <==> Used(p, n, f) || FenceOf(p, n) == Some(f)
  {
    hide FenceOf;
    forall f: nat | true ensures Used(p, n + 1, f) <==> Used(p, n, f) || FenceOf(p, n) == Some(f) {
      if FenceOf(p, n) == Some(f) { assert Used(p, n + 1, f); }
    }
  }

  lemma {:induction false} FaultStands(p: Bytes, descriptors: nat, i: nat, n: nat)
    requires i <= n && 4 + LAYER_BYTES * n <= |p| && FirstFault(p, descriptors, i).Some?
    ensures FirstFault(p, descriptors, n) == FirstFault(p, descriptors, i)
  {
    if i < n { FaultStands(p, descriptors, i, n - 1); }
  }

  lemma {:induction false} NoFaultBelow(p: Bytes, descriptors: nat, i: nat, n: nat)
    requires i < n && 4 + LAYER_BYTES * n <= |p| && FirstFault(p, descriptors, n).None?
    ensures FaultAt(p, descriptors, i).None?
  {
    if i < n - 1 { NoFaultBelow(p, descriptors, i, n - 1); }
  }

  /** A chunk decodes only if each attached descriptor has exactly one owner, and no solid
      layer owns one. */
  lemma DecodedFencesAreABijection(p: Bytes, descriptors: nat, layers: seq<BatchLayer>)
    requires BatchFault(p, descriptors).None?
    requires |layers| == U32At(p, 0) && forall i :: 0 <= i < |layers| ==> layers[i] == LayerOf(p, i)
    ensures Bijection(layers, descriptors)
    ensures forall i :: 0 <= i < |layers| && layers[i].layer.buffer == 0 ==> layers[i].fence.None?
  {
    var n := |layers|;
    hide U32At, LayerAt, Record;
    forall i | 0 <= i < n ensures FaultAt(p, descriptors, i).None? { NoFaultBelow(p, descriptors, i, n); }
    forall i, j | 0 <= i < j < n && layers[i].fence.Some? ensures layers[i].fence != layers[j].fence {
      assert FaultAt(p, descriptors, j).None?;
      assert layers[j].fence == layers[i].fence ==> Used(p, j, layers[i].fence.value);
    }
    forall i | 0 <= i < n && layers[i].layer.buffer == 0 ensures layers[i].fence.None? {
      assert FaultAt(p, descriptors, i).None?;
    }
    forall i | 0 <= i < n && layers[i].fence.Some? ensures layers[i].fence.value < descriptors {
      assert FaultAt(p, descriptors, i).None?;
    }
    forall d | 0 <= d < descriptors ensures Owner(layers, d) {
      assert Used(p, n, d);
      var i :| 0 <= i < n && FenceOf(p, i) == Some(d);
      assert layers[i].fence == Some(d);
    }
  }

  // ------------------------------------------------------------------------------------
  // The chunk a producer writes

  function Word(x: i32): u32 { if x < 0 then x + U32_LIMIT else x }

  function WriteWords(ws: seq<u32>): (bs: Bytes)
    ensures |bs| == 4 * |ws|
  {
    if ws == [] then [] else Le(4, ws[0]) + WriteWords(ws[1..])
  }

  function LayerWords(b: BatchLayer): seq<u32>
    requires b.fence.Some? ==> b.fence.value < NO_FENCE
  {
    var l, d, s := b.layer, b.layer.destination, b.layer.source;
    [Word(d.x), Word(d.y), Word(d.w), Word(d.h), s.x, s.y, s.w, s.h, l.transform, l.alpha, if l.isOpaque then 1 else 0, l.color,
     if b.fence.Some? then b.fence.value else NO_FENCE]
  }

  /** Three identities, then two rectangles and five words: 76 bytes. */
  function WriteLayer(b: BatchLayer): (bs: Bytes)
    requires b.fence.Some? ==> b.fence.value < NO_FENCE
    ensures |bs| == LAYER_BYTES
  {
    Le(8, b.layer.id) + Le(8, b.layer.buffer) + Le(8, b.layer.ticket) + WriteWords(LayerWords(b))
  }

  ghost predicate Writable(layers: seq<BatchLayer>) { forall i :: 0 <= i < |layers| ==> layers[i].fence.Some? ==> layers[i].fence.value < NO_FENCE }

  function WriteLayers(layers: seq<BatchLayer>): (bs: Bytes)
    requires Writable(layers)
    ensures |bs| == LAYER_BYTES * |layers|
    decreases |layers|
  {
    if layers == [] then []
    else
      var n := |layers| - 1;
      assert forall i :: 0 <= i < n ==> layers[..n][i] == layers[i];
      WriteLayers(layers[..n]) + WriteLayer(layers[n])
  }

  function WriteBatch(layers: seq<BatchLayer>): Bytes
    requires Writable(layers)
  {
    Le(4, |layers|) + WriteLayers(layers)
  }

  lemma UnOfWord(v: u32, w: u64)
    ensures Un(Le(4, v)) == v && Un(Le(8, w)) == w
  {
    Wire.Widths();
    UnOfLe(4, v);
    UnOfLe(8, w);
  }

  lemma AfterFront(front: Bytes, p: Bytes, at: nat)
    requires at + 4 <= |p|
    ensures U32At(front + p, |front| + at) == U32At(p, at)
  {
    hide Un;
    assert (front + p)[|front| + at..|front| + at + 4] == p[at..at + 4];
  }

  lemma {:induction false} WordsRead(ws: seq<u32>, k: nat)
    requires k < |ws|
    ensures U32At(WriteWords(ws), 4 * k) == ws[k]
  {
    var rest := WriteWords(ws[1..]);
    if k == 0 {
      UnOfWord(ws[0], 0);
      hide Un, Le;
      assert WriteWords(ws)[0..4] == Le(4, ws[0]);
    } else {
      WordsRead(ws[1..], k - 1);
      AfterFront(Le(4, ws[0]), rest, 4 * (k - 1));
    }
  }

  lemma LongRead(front: Bytes, v: u64, rest: Bytes)
    ensures U64At(front + Le(8, v) + rest, |front|) == v
  {
    UnOfWord(0, v);
    hide Un, Le;
    assert (front + Le(8, v) + rest)[|front|..|front| + 8] == Le(8, v);
  }

  lemma WordsAfterIdentities(ids: Bytes, ws: seq<u32>, k: nat)
    requires |ids| == 24 && |ws| == 13 && k < 13
    ensures U32At(ids + WriteWords(ws), 24 + 4 * k) == ws[k]
  {
    AfterFront(ids, WriteWords(ws), 4 * k);
    WordsRead(ws, k);
    hide WriteWords, U32At;
  }

  /** A written layer reads back, fence and all. */
  lemma LayerReads(b: BatchLayer)
    requires b.fence.Some? ==> b.fence.value < NO_FENCE
    ensures var p := WriteLayer(b);
      LayerAt(p) == b.layer && U32At(p, 72) == (if b.fence.Some? then b.fence.value else NO_FENCE) && U32At(p, 64) <= 1
  {
    var l, ws := b.layer, LayerWords(b);
    var ids := Le(8, l.id) + Le(8, l.buffer) + Le(8, l.ticket);
    hide Un, Le, U32At, U64At, WriteWords;
    forall k: nat | k < 13 ensures U32At(ids + WriteWords(ws), 24 + 4 * k) == ws[k] { WordsAfterIdentities(ids, ws, k); }
    IdentitiesRead(l, WriteWords(ws));
    FieldsAreLayer(ids + WriteWords(ws), b, ws);
  }

  lemma FieldsAreLayer(p: Bytes, b: BatchLayer, ws: seq<u32>)
    requires (b.fence.Some? ==> b.fence.value < NO_FENCE) && ws == LayerWords(b) && |p| == LAYER_BYTES
    requires forall k :: 0 <= k < 13 ==> U32At(p, 24 + 4 * k) == ws[k]
    requires U64At(p, 0) == b.layer.id && U64At(p, 8) == b.layer.buffer && U64At(p, 16) == b.layer.ticket
    ensures LayerAt(p) == b.layer && U32At(p, 72) == (if b.fence.Some? then b.fence.value else NO_FENCE) && U32At(p, 64) <= 1
  {
    hide U32At, U64At;
    assert U32At(p, 24) == ws[0] && U32At(p, 28) == ws[1] && U32At(p, 32) == ws[2] && U32At(p, 36) == ws[3];
    assert U32At(p, 40) == ws[4] && U32At(p, 44) == ws[5] && U32At(p, 48) == ws[6] && U32At(p, 52) == ws[7];
    assert U32At(p, 56) == ws[8] && U32At(p, 60) == ws[9] && U32At(p, 64) == ws[10] && U32At(p, 68) == ws[11] && U32At(p, 72) == ws[12];
  }

  lemma IdentitiesRead(l: Layer, words: Bytes)
    ensures var p := Le(8, l.id) + Le(8, l.buffer) + Le(8, l.ticket) + words;
      U64At(p, 0) == l.id && U64At(p, 8) == l.buffer && U64At(p, 16) == l.ticket
  {
    hide Un, Le, U64At;
    var a, b, c := Le(8, l.id), Le(8, l.buffer), Le(8, l.ticket);
    var p := a + b + c + words;
    assert p == [] + a + (b + c + words) && p == a + b + (c + words) && p == (a + b) + c + words;
    LongRead([], l.id, b + c + words);
    LongRead(a, l.buffer, c + words);
    LongRead(a + b, l.ticket, words);
  }

  lemma {:induction false} WrittenRecord(layers: seq<BatchLayer>, front: Bytes, i: nat)
    requires Writable(layers) && |front| == 4 && i < |layers|
    ensures 4 + LAYER_BYTES * (i + 1) <= |front + WriteLayers(layers)|
    ensures Record(front + WriteLayers(layers), i) == WriteLayer(layers[i])
    decreases |layers|
  {
    var n := |layers| - 1;
    var before := WriteLayers(layers[..n]);
    hide WriteLayer;
    if i < n {
      WrittenRecord(layers[..n], front, i);
      assert front + WriteLayers(layers) == front + before + WriteLayer(layers[n]);
      assert Record(front + WriteLayers(layers), i) == Record(front + before, i);
    } else {
      assert front + WriteLayers(layers) == front + before + WriteLayer(layers[n]);
    }
  }

  lemma WrittenLayer(layers: seq<BatchLayer>, i: nat)
    requires Writable(layers) && i < |layers| <= MAX_BATCH_LAYERS
    ensures var p := WriteBatch(layers);
      4 + LAYER_BYTES * (i + 1) <= |p| && LayerOf(p, i) == layers[i] && U32At(Record(p, i), 64) <= 1
  {
    hide WriteLayers, WriteLayer, LayerAt, U32At, Le;
    WrittenRecord(layers, Le(4, |layers|), i);
    LayerReads(layers[i]);
  }

  /** Every chunk a producer may write decodes to its layers: 1 to 16 of them, the attached
      descriptors owned by one buffered layer each. */
  lemma ChunkRoundTrip(layers: seq<BatchLayer>, descriptors: nat)
    requires 0 < |layers| <= MAX_BATCH_LAYERS && descriptors <= 4 && Bijection(layers, descriptors)
    requires forall i :: 0 <= i < |layers| && layers[i].layer.buffer == 0 ==> layers[i].fence.None?
    ensures Writable(layers) && BatchFault(WriteBatch(layers), descriptors).None?
    ensures U32At(WriteBatch(layers), 0) == |layers|
    ensures forall i :: 0 <= i < |layers| ==> LayerOf(WriteBatch(layers), i) == layers[i]
  {
    var p, n := WriteBatch(layers), |layers|;
    assert p[0..4] == Le(4, n);
    UnOfWord(n, 0);
    hide WriteBatch, U32At, LayerAt, Record;
    forall i | 0 <= i < n ensures LayerOf(p, i) == layers[i] && !BadLayer(p, i) { WrittenLayer(layers, i); }
    NoFaults(p, descriptors, layers, n);
    forall d | 0 <= d < descriptors ensures Used(p, n, d) {
      assert Owner(layers, d);
      var i :| 0 <= i < n && layers[i].fence == Some(d);
      assert FenceOf(p, i) == Some(d);
    }
  }

  lemma {:induction false} NoFaults(p: Bytes, descriptors: nat, layers: seq<BatchLayer>, n: nat)
    requires n <= |layers| && 4 + LAYER_BYTES * |layers| <= |p| && Bijection(layers, descriptors)
    requires forall i :: 0 <= i < |layers| ==> LayerOf(p, i) == layers[i] && !BadLayer(p, i)
    ensures FirstFault(p, descriptors, n).None?
  {
    hide U32At, LayerAt, Record, BadLayer;
    if n > 0 {
      NoFaults(p, descriptors, layers, n - 1);
      var fence := FenceOf(p, n - 1);
      assert fence == layers[n - 1].fence;
      assert forall j :: 0 <= j < n - 1 ==> FenceOf(p, j) == layers[j].fence;
    }
  }

  /** And nothing else decodes: a chunk that does is the one its layers are written as. */
  lemma ChunkIsCanonical(p: Bytes, descriptors: nat, layers: seq<BatchLayer>)
    requires BatchFault(p, descriptors).None?
    requires |layers| == U32At(p, 0) && forall i :: 0 <= i < |layers| ==> layers[i] == LayerOf(p, i)
    ensures Writable(layers) && WriteBatch(layers) == p
  {
    DecodedFencesAreABijection(p, descriptors, layers);
    var n := |layers|;
    forall i | 0 <= i < n ensures !BadLayer(p, i) { NoFaultBelow(p, descriptors, i, n); }
    RecordsAreWritten(p, layers, n);
    LeOfUn(p[0..4]);
    hide Un, Le, WriteLayers, BadLayer, LayerOf, FirstFault, Bijection;
    assert layers[..n] == layers;
    assert p == p[0..4] + p[4..];
  }

  lemma {:induction false} WordsWrite(q: Bytes, ws: seq<u32>)
    requires |q| == 4 * |ws| && forall k :: 0 <= k < |ws| ==> ws[k] == U32At(q, 4 * k)
    ensures WriteWords(ws) == q
    decreases |ws|
  {
    if ws != [] {
      LeOfUn(q[0..4]);
      assert q == q[0..4] + q[4..];
      forall k | 0 <= k < |ws| - 1 ensures ws[1..][k] == U32At(q[4..], 4 * k) { AfterFront(q[0..4], q[4..], 4 * k); }
      hide Un, Le, U32At;
      WordsWrite(q[4..], ws[1..]);
    }
  }

  lemma RecordIsWritten(p: Bytes, i: nat)
    requires 4 + LAYER_BYTES * (i + 1) <= |p| && !BadLayer(p, i)
    ensures var b := LayerOf(p, i); (b.fence.Some? ==> b.fence.value < NO_FENCE) && WriteLayer(b) == Record(p, i)
  {
    var r, b := Record(p, i), LayerOf(p, i);
    IdentitiesWrite(r);
    SignedWords(r, b, LayerWords(b));
    WordsOfRecord(r, LayerWords(b));
    hide Un, Le, U32At, U64At, Record, WriteWords, LayerWords;
    assert r == r[..24] + r[24..];
  }

  lemma IdentitiesWrite(r: Bytes)
    requires |r| == LAYER_BYTES
    ensures Le(8, U64At(r, 0)) + Le(8, U64At(r, 8)) + Le(8, U64At(r, 16)) == r[..24]
  {
    LeOfUn(r[0..8]);
    LeOfUn(r[8..16]);
    LeOfUn(r[16..24]);
    hide Un, Le;
    assert r[..24] == r[0..8] + r[8..16] + r[16..24];
  }

  lemma WordsOfRecord(r: Bytes, ws: seq<u32>)
    requires |r| == LAYER_BYTES && |ws| == 13 && forall k :: 0 <= k < 13 ==> ws[k] == U32At(r, 24 + 4 * k)
    ensures WriteWords(ws) == r[24..]
  {
    var q := r[24..];
    assert r == r[..24] + q;
    forall k | 0 <= k < 13 ensures ws[k] == U32At(q, 4 * k) { AfterFront(r[..24], q, 4 * k); }
    hide U32At;
    WordsWrite(q, ws);
  }

  lemma SignedWords(r: Bytes, b: BatchLayer, ws: seq<u32>)
    requires |r| == LAYER_BYTES && b.layer == LayerAt(r) && U32At(r, 64) <= 1
    requires b.fence == (if U32At(r, 72) == NO_FENCE then None else Some(U32At(r, 72))) && ws == LayerWords(b)
    ensures |ws| == 13 && forall k :: 0 <= k < 13 ==> ws[k] == U32At(r, 24 + 4 * k)
  {
    hide U32At, U64At;
    assert forall x: u32 :: Word(Signed(x)) == x;
  }

  lemma {:induction false} RecordsAreWritten(p: Bytes, layers: seq<BatchLayer>, n: nat)
    requires n <= |layers| && 4 + LAYER_BYTES * |layers| <= |p|
    requires forall i :: 0 <= i < |layers| ==> layers[i] == LayerOf(p, i) && !BadLayer(p, i)
    ensures Writable(layers[..n]) && WriteLayers(layers[..n]) == p[4..4 + LAYER_BYTES * n]
  {
    hide LayerOf, BadLayer, WriteLayer;
    if n > 0 {
      RecordsAreWritten(p, layers, n - 1);
      RecordIsWritten(p, n - 1);
      assert layers[..n][..n - 1] == layers[..n - 1];
      assert forall i :: 0 <= i < n - 1 ==> layers[..n][i] == layers[..n - 1][i];
      assert p[4..4 + LAYER_BYTES * n] == p[4..4 + LAYER_BYTES * (n - 1)] + Record(p, n - 1);
    }
  }

  // ------------------------------------------------------------------------------------
  // Published configuration

  type Words = w: seq<u32> | |w| == 4 witness [0, 0, 0, 0]

  datatype Publisher = Publisher(revision: u64, current: Words, subscribed: bool) {
    predicate Changes(next: Words) { !(revision != 0 && current == next) }

    predicate Exhausted(next: Words) { Changes(next) && revision + 1 == U64_LIMIT }

    function Refreshed(next: Words): Publisher
      requires !Exhausted(next)
    {
      if Changes(next) then this.(revision := revision + 1, current := next) else this
    }

    function Snapshot(): seq<u32> {
      [revision % U32_LIMIT, revision / U32_LIMIT] + current
    }
  }

  datatype PublishOp = Subscribe(next: Words) | Update(next: Words)

  /** A publisher with every snapshot it ever sent. */
  datatype Published = Published(publisher: Publisher, sent: seq<Publisher>)

  function Publish(t: Published, op: PublishOp): Published {
    var p := t.publisher;
    if p.Exhausted(op.next) then t
    else
      var r := p.Refreshed(op.next);
      match op
      case Subscribe(_) => Published(r.(subscribed := true), t.sent + [r.(subscribed := true)])
      case Update(_) => Published(r, if p.Changes(op.next) && p.subscribed then t.sent + [r] else t.sent)
  }

  function PublishRun(ops: seq<PublishOp>): Published
    decreases |ops|
  {
    if ops == [] then Published(Publisher(0, [0, 0, 0, 0], false), []) else Publish(PublishRun(ops[..|ops| - 1]), ops[|ops| - 1])
  }

  ghost predicate InOrder(a: Publisher, b: Publisher) {
    a.revision < b.revision || (a.revision == b.revision && a.current == b.current)
  }

  /** Revisions name contents: snapshots never go back, equal revisions carry equal words,
      and once subscribed the last snapshot sent is the current configuration. */
  lemma {:induction false} SnapshotsAreOrdered(ops: seq<PublishOp>)
    ensures var t := PublishRun(ops);
      && (forall i, j :: 0 <= i < j < |t.sent| ==> InOrder(t.sent[i], t.sent[j]))
      && (forall i :: 0 <= i < |t.sent| ==> InOrder(t.sent[i], t.publisher) && t.sent[i].revision > 0)
      && (t.publisher.subscribed <==> t.sent != [])
      && (t.publisher.subscribed ==> t.sent[|t.sent| - 1].revision == t.publisher.revision && t.sent[|t.sent| - 1].current == t.publisher.current)
    decreases |ops|
  {
    if ops != [] { SnapshotsAreOrdered(ops[..|ops| - 1]); }
  }

  /** The two revision words of a snapshot are the revision. */
  lemma SnapshotCarriesRevision(p: Publisher)
    ensures |p.Snapshot()| == 6 && p.Snapshot()[0] + p.Snapshot()[1] * U32_LIMIT == p.revision && p.Snapshot()[2..] == p.current
  {
  }

  /** Step `i` of the history sends a snapshot exactly if it subscribes or if a peer is
      subscribed and the words differ from the last published ones; exhaustion sends nothing. */
  lemma SendsExactly(ops: seq<PublishOp>, op: PublishOp)
    ensures var t, u := PublishRun(ops), PublishRun(ops + [op]);
      var changed := t.publisher.revision == 0 || t.publisher.current != op.next;
      var exhausted := changed && t.publisher.revision == U64_LIMIT - 1;
      && (|u.sent| == |t.sent| + 1 <==> !exhausted && (op.Subscribe? || (changed && t.sent != [])))
      && (|u.sent| == |t.sent| + 1 || u.sent == t.sent)
      && (!exhausted ==> u.publisher.current == op.next && u.publisher.revision == t.publisher.revision + (if changed then 1 else 0))
      && (exhausted ==> u == t)
  {
    assert (ops + [op])[..|ops|] == ops;
    SnapshotsAreOrdered(ops);
  }

  class ConfigPublisher {
    var revision: u64
    var current: Words
    var subscribed: bool

    ghost function View(): Publisher reads this { Publisher(revision, current, subscribed) }

    constructor ()
      ensures View() == Publisher(0, [0, 0, 0, 0], false)
    {
      revision, current, subscribed := 0, [0, 0, 0, 0], false;
    }

    method Refresh(next: Words) returns (changed: Option<bool>)
      modifies this
      ensures old(View()).Exhausted(next) ==> changed.None? && View() == old(View())
      ensures !old(View()).Exhausted(next) ==> changed == Some(old(View()).Changes(next)) && View() == old(View()).Refreshed(next)
    {
      if revision != 0 && current == next {
        return Some(false);
      }
      if revision + 1 == U64_LIMIT {
        return None;
      }
      revision := revision + 1;
      current := next;
      return Some(true);
    }

    /** Emit only changed snapshots and only after a peer subscribed. */
    method UpdateConfig(next: Words) returns (r: Option<Option<seq<u32>>>)
      modifies this
      ensures View() == Publish(Published(old(View()), []), Update(next)).publisher
      ensures old(View()).Exhausted(next) ==> r.None?
      ensures !old(View()).Exhausted(next) ==>
        r == Some(if old(View()).Changes(next) && subscribed then Some(View().Snapshot()) else None)
    {
      var changed := Refresh(next);
      if changed.None? {
        return None;
      }
      if changed.value && subscribed {
        return Some(Some([revision % U32_LIMIT, revision / U32_LIMIT] + current));
      }
      return Some(None);
    }
  }
}
