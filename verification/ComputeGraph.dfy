/** The optimiser as it works: it rebuilds the op list of a graph in place and edits the weight map as it goes. */
module GraphRewriting {
  import opened GraphSemantics
  import opened GraphMerge
  import opened GraphOptimizer
  import opened GraphPreservation

  class WeightMap {
    var weight: map<string, Data>

    constructor (weight: map<string, Data>)
      ensures this.weight == weight
    {
      this.weight := weight;
    }
  }

  class ComputeGraph {
    var ops: seq<Op>

    constructor (ops: seq<Op>)
      ensures this.ops == ops
    {
      this.ops := ops;
    }
  }

  method CopyBytes(target: array<int>, offset: nat, source: seq<int>)
    requires offset + |source| <= target.Length
    modifies target
    ensures target[..offset] == old(target[..offset]) && target[offset..offset + |source|] == source
  {
    var i := 0;
    while i < |source|
      invariant 0 <= i <= |source|
      invariant target[..offset] == old(target[..offset]) && target[offset..offset + i] == source[..i]
    {
      target[offset + i] := source[i];
      i := i + 1;
    }
  }

  lemma {:induction false} FlattenStep<T>(parts: seq<seq<T>>, n: nat)
    requires n < |parts|
    ensures Flatten(parts[..n + 1]) == Flatten(parts[..n]) + parts[n]
    ensures |Flatten(parts[..n])| + |parts[n]| <= |Flatten(parts)|
    decreases |parts| - n
  {
    assert parts[..n + 1][..n] == parts[..n];
    if n + 1 < |parts| {
      FlattenStep(parts, n + 1);
    } else {
      assert parts[..n + 1] == parts;
    }
  }

  /** A buffer for the parts, into which the first n parts were copied. */
  ghost predicate Filled(buffer: seq<int>, offset: int, parts: seq<seq<int>>, n: nat) {
    && n <= |parts| && |buffer| == |Flatten(parts)|
    && 0 <= offset <= |buffer| && buffer[..offset] == Flatten(parts[..n])
  }

  lemma FilledStart(parts: seq<seq<int>>, buffer: seq<int>)
    requires |buffer| == |Flatten(parts)|
    ensures Filled(buffer, 0, parts, 0)
  {
  }

  lemma FilledNext(parts: seq<seq<int>>, buffer: seq<int>, offset: int, n: nat)
    requires n < |parts| && Filled(buffer, offset, parts, n)
    ensures 0 <= offset && offset + |parts[n]| <= |buffer|
  {
    FlattenStep(parts, n);
  }

  lemma FilledStep(parts: seq<seq<int>>, before: seq<int>, buffer: seq<int>, offset: int, n: nat)
    requires n < |parts| && Filled(before, offset, parts, n) && |buffer| == |before| && offset + |parts[n]| <= |buffer|
    requires buffer[..offset] == before[..offset] && buffer[offset..offset + |parts[n]|] == parts[n]
    ensures Filled(buffer, offset + |parts[n]|, parts, n + 1)
  {
    FlattenStep(parts, n);
    assert buffer[..offset + |parts[n]|] == buffer[..offset] + buffer[offset..offset + |parts[n]|];
  }

  lemma FilledAll(parts: seq<seq<int>>, buffer: seq<int>, offset: int)
    requires Filled(buffer, offset, parts, |parts|)
    ensures buffer == Flatten(parts)
  {
    assert parts[..|parts|] == parts;
    assert buffer[..offset] == buffer;
  }

  /** The last Linear op, from i on, with the same input. */
  method FindRun(ops: seq<Op>, i: nat) returns (j: nat)
    requires i < |ops| && ops[i].Linear?
    ensures i <= j < |ops| && j + 1 - i == RunLength(ops[i..])
  {
    j := i;
    while j + 1 < |ops| && ops[j + 1].Linear? && ops[j + 1].input == ops[i].input
      invariant i <= j < |ops| && ops[j].Linear? && ops[j].input == ops[i].input
      invariant RunLength(ops[i..]) == j - i + RunLength(ops[j..])
      decreases |ops| - j
    {
      assert ops[j..][1..] == ops[j + 1..];
      j := j + 1;
    }
  }

  /** Bit 2: some op of the run has a bias among the weights; bit 1: some op has none. */
  method BiasMask(run: seq<Op>, weight: WeightMap) returns (hasBiasMask: bv2)
    requires IsRun(run)
    ensures hasBiasMask != 3 <==> UniformBias(run, weight.weight)
  {
    hasBiasMask := 0;
    var l := 0;
    while l < |run|
      invariant 0 <= l <= |run|
      invariant hasBiasMask == 0 || hasBiasMask == 1 || hasBiasMask == 2 || hasBiasMask == 3
      invariant hasBiasMask == 2 || hasBiasMask == 3 <==> exists i :: 0 <= i < l && run[i].bias in weight.weight
      invariant hasBiasMask == 1 || hasBiasMask == 3 <==> exists i :: 0 <= i < l && run[i].bias !in weight.weight
    {
      if run[l].bias in weight.weight {
        hasBiasMask := hasBiasMask | 2;
      } else {
        hasBiasMask := hasBiasMask | 1;
      }
      l := l + 1;
    }
  }

  /** The names of the merged values, and how many columns each op of the run contributes. */
  method MergeNames(run: seq<Op>, weight: WeightMap)
    returns (mergeWeightName: string, mergeBiasName: string, outputName: string, lens: seq<nat>, lensSum: nat)
    requires IsRun(run)
    requires forall i :: 0 <= i < |run| ==> run[i].weight in weight.weight && |weight.weight[run[i].weight].dims| > 0
    ensures mergeWeightName == WeightName(run) && mergeBiasName == BiasName(run) && outputName == MidName(run)
    ensures lens == RowLens(RunWeights(run, weight.weight)) && lensSum == Sum(lens)
  {
    mergeWeightName, mergeBiasName, outputName, lens, lensSum := "", "", "", [], 0;
    ghost var all := RowLens(RunWeights(run, weight.weight));
    var l := 0;
    while l < |run|
      invariant 0 <= l <= |run|
      invariant mergeWeightName == WeightName(run[..l]) && mergeBiasName == BiasName(run[..l])
          && outputName == MidName(run[..l])
      invariant lens == all[..l] && lensSum == Sum(lens)
    {
      assert run[..l + 1][..l] == run[..l];
      assert all[..l + 1][..l] == all[..l];
      mergeWeightName := mergeWeightName + run[l].weight;
      mergeBiasName := mergeBiasName + run[l].bias;
      outputName := outputName + (run[l].output + "___merge___");
      lens := lens + [weight.weight[run[l].weight].dims[0]];
      lensSum := lensSum + lens[l];
      l := l + 1;
    }
    assert run[..|run|] == run;
  }

  /** The wide weight has the room that copying the parts takes. */
  ghost predicate Copyable(k: Kernel, ds: seq<Data>) {
    && ds != [] && |ds[0].dims| > 1
    && (forall i :: 0 <= i < |ds| ==> |ds[i].dims| > 0 && k.bytesOf(ds[i].dataType, ds[i].dims) == |ds[i].bytes|)
    && k.bytesOf(ds[0].dataType, [Sum(RowLens(ds)), ds[0].dims[1]]) == |Flatten(AllBytes(ds))|
  }

  /** And so has the wide bias. */
  ghost predicate BiasCopyable(k: Kernel, bs: seq<Data>, ds: seq<Data>) {
    && bs != []
    && (forall i :: 0 <= i < |bs| ==> k.bytesOf(bs[i].dataType, bs[i].dims) == |bs[i].bytes|)
    && k.bytesOf(bs[0].dataType, [Sum(RowLens(ds))]) == |Flatten(AllBytes(bs))|
  }

  /** The wide bias: the biases of the run, copied one behind the other into a new buffer. */
  method MergeBias(ghost k: Kernel, bytesOf: (int, seq<nat>) -> nat, run: seq<Op>, weight: WeightMap,
      mergeBiasName: string, lensSum: nat)
    requires IsRun(run) && UniformBias(run, weight.weight) && bytesOf == k.bytesOf
    requires mergeBiasName == BiasName(run) && lensSum == Sum(RowLens(RunWeights(run, weight.weight)))
    requires run[0].bias in weight.weight ==>
        BiasCopyable(k, RunBiases(run, weight.weight), RunWeights(run, weight.weight))
    modifies weight
    ensures weight.weight == WithBias(run, old(weight.weight))
  {
    if run[0].bias in weight.weight {
      ghost var w := weight.weight;
      ghost var datas := RunBiases(run, w);
      ghost var parts := AllBytes(datas);
      BiasFacts(k, run, w);
      hide BiasCopyable, UniformBias, Filled, Flatten;
      var dataType := weight.weight[run[0].bias].dataType;
      var cpuData := new int[bytesOf(dataType, [lensSum])];
      FilledStart(parts, cpuData[..]);
      var offset, l := 0, 0;
      while l < |run|
        invariant 0 <= l <= |run| && weight.weight == w && Filled(cpuData[..], offset, parts, l)
      {
        var curbias := weight.weight[run[l].bias];
        FilledNext(parts, cpuData[..], offset, l);
        ghost var before := cpuData[..];
        CopyBytes(cpuData, offset, curbias.bytes);
        FilledStep(parts, before, cpuData[..], offset, l);
        offset := offset + bytesOf(curbias.dataType, curbias.dims);
        l := l + 1;
      }
      FilledAll(parts, cpuData[..], offset);
      weight.weight := weight.weight[mergeBiasName := EMPTY_DATA.(dataType := dataType, dims := [lensSum],
          bytes := cpuData[..])];
    } else if mergeBiasName != "" {
      weight.weight := weight.weight[mergeBiasName := EMPTY_DATA];
    }
  }

  lemma BiasFacts(k: Kernel, run: seq<Op>, w: Weights)
    requires IsRun(run) && UniformBias(run, w) && run[0].bias in w
        && BiasCopyable(k, RunBiases(run, w), RunWeights(run, w))
    ensures forall i :: 0 <= i < |run| ==>
              run[i].bias in w && k.bytesOf(w[run[i].bias].dataType, w[run[i].bias].dims) == |w[run[i].bias].bytes|
    ensures k.bytesOf(w[run[0].bias].dataType, [Sum(RowLens(RunWeights(run, w)))])
        == |Flatten(AllBytes(RunBiases(run, w)))|
  {
    forall i | 0 <= i < |run|
      ensures run[i].bias in w && k.bytesOf(w[run[i].bias].dataType, w[run[i].bias].dims) == |w[run[i].bias].bytes|
    {
      assert RunBiases(run, w)[i] == w[run[i].bias];
    }
    assert RunBiases(run, w)[0] == w[run[0].bias];
  }

  /** What the wide weight has collected from the first n parts, behind the layout of the first. */
  ghost predicate Collected(ds: seq<Data>, n: nat, merge: Data) {
    && ds != [] && n <= |ds| && |ds[0].dims| > 1
    && merge.dataType == ds[0].dataType && merge.dims == [Sum(RowLens(ds)), ds[0].dims[1]]
    && merge.group == ds[0].group && merge.groupCnt == ds[0].groupCnt && merge.perChannelAxis == ds[0].perChannelAxis
    && merge.configs == Flatten(AllConfigs(ds)[..n]) && merge.zeros == Flatten(AllZeros(ds)[..n])
    && merge.scales == Flatten(AllScales(ds)[..n]) && merge.mins == Flatten(AllMins(ds)[..n])
  }

  function Collect(merge: Data, part: Data): Data {
    merge.(configs := merge.configs + part.configs, zeros := merge.zeros + part.zeros,
           scales := merge.scales + part.scales, mins := merge.mins + part.mins)
  }

  lemma CollectedStart(ds: seq<Data>, merge: Data)
    requires ds != [] && |ds[0].dims| > 1
    requires merge == EMPTY_DATA.(dataType := ds[0].dataType, dims := [Sum(RowLens(ds)), ds[0].dims[1]],
                                 group := ds[0].group, groupCnt := ds[0].groupCnt,
                                     perChannelAxis := ds[0].perChannelAxis)
    ensures Collected(ds, 0, merge)
  {
  }

  lemma CollectedStep(ds: seq<Data>, n: nat, merge: Data)
    requires n < |ds| && Collected(ds, n, merge)
    ensures Collected(ds, n + 1, Collect(merge, ds[n]))
  {
    FlattenStep(AllConfigs(ds), n);
    FlattenStep(AllZeros(ds), n);
    FlattenStep(AllScales(ds), n);
    FlattenStep(AllMins(ds), n);
  }

  lemma CollectedAll(ds: seq<Data>, merge: Data)
    requires Collected(ds, |ds|, merge)
    ensures merge.(bytes := Flatten(AllBytes(ds))) == Stacked(ds)
  {
    assert AllConfigs(ds)[..|ds|] == AllConfigs(ds) && AllZeros(ds)[..|ds|] == AllZeros(ds);
    assert AllScales(ds)[..|ds|] == AllScales(ds) && AllMins(ds)[..|ds|] == AllMins(ds);
  }

  /** The weight map while the weights of a run are replaced by the wide one: the first n are erased. */
  ghost predicate Replacing(run: seq<Op>, n: nat, name: string, merge: Data, start: Weights, w: Weights)
    requires IsRun(run)
  {
    n <= |run| && w == start[name := merge] - FirstNames(run, n)
  }

  lemma ReplacingStart(run: seq<Op>, name: string, merge: Data, start: Weights)
    requires IsRun(run)
    ensures Replacing(run, 0, name, merge, start, start[name := merge])
  {
    assert FirstNames(run, 0) == {};
  }

  lemma ReplacingStep(run: seq<Op>, n: nat, name: string, merge: Data, start: Weights, w: Weights)
    requires IsRun(run) && n < |run| && Replacing(run, n, name, merge, start, w)
    requires forall i, j :: 0 <= i < j < |run| ==> run[i].weight != run[j].weight
    requires name !in WeightNames(run) && run[n].weight in start
    ensures run[n].weight in w && w[run[n].weight] == start[run[n].weight]
    ensures Replacing(run, n + 1, name, merge, start, w - {run[n].weight})
  {
    assert run[n].weight in WeightNames(run) && run[n].weight !in FirstNames(run, n);
    assert FirstNames(run, n + 1) == FirstNames(run, n) + {run[n].weight};
  }

  lemma Replaced(run: seq<Op>, name: string, merge: Data, all: Data, start: Weights, w: Weights)
    requires IsRun(run) && Replacing(run, |run|, name, merge, start, w) && name !in WeightNames(run)
    ensures w[name := all] == start[name := all] - WeightNames(run)
  {
    assert FirstNames(run, |run|) == WeightNames(run);
  }

  function FirstNames(run: seq<Op>, n: nat): set<string>
    requires IsRun(run) && n <= |run|
  {
    set i | 0 <= i < n :: run[i].weight
  }

  /** The wide weight: the weights of the run, copied one behind the other into a new buffer, and erased. */
  method MergeWeights(ghost k: Kernel, bytesOf: (int, seq<nat>) -> nat, run: seq<Op>, weight: WeightMap,
      mergeWeightName: string, lensSum: nat, ghost w: Weights)
    requires IsRun(run) && bytesOf == k.bytesOf && Copyable(k, RunWeights(run, w))
    requires lensSum == Sum(RowLens(RunWeights(run, w)))
    requires forall i :: 0 <= i < |run| ==>
        run[i].weight in w && run[i].weight in weight.weight && weight.weight[run[i].weight] == w[run[i].weight]
    requires forall i, j :: 0 <= i < j < |run| ==> run[i].weight != run[j].weight
    requires mergeWeightName !in WeightNames(run)
    modifies weight
    ensures weight.weight == old(weight.weight)[mergeWeightName := Stacked(RunWeights(run, w))] - WeightNames(run)
  {
    ghost var ds, start := RunWeights(run, w), weight.weight;
    ghost var parts := AllBytes(ds);
    WeightFacts(k, run, w);
    hide Copyable, Filled, Flatten, Collected, Collect, Stacked, WeightNames, FirstNames, Replacing;
    var firstWeight := weight.weight[run[0].weight];
    var merge := EMPTY_DATA.(dataType := firstWeight.dataType, dims := [lensSum, firstWeight.dims[1]],
      group := firstWeight.group, groupCnt := firstWeight.groupCnt, perChannelAxis := firstWeight.perChannelAxis);
    ghost var initial := merge;
    weight.weight := weight.weight[mergeWeightName := merge];
    var cpuData := new int[bytesOf(merge.dataType, merge.dims)];
    FilledStart(parts, cpuData[..]);
    CollectedStart(ds, merge);
    ReplacingStart(run, mergeWeightName, initial, start);
    var offset, l := 0, 0;
    while l < |run|
      invariant 0 <= l <= |run| && Filled(cpuData[..], offset, parts, l) && Collected(ds, l, merge)
      invariant Replacing(run, l, mergeWeightName, initial, start, weight.weight)
    {
      ReplacingStep(run, l, mergeWeightName, initial, start, weight.weight);
      var curWeight := weight.weight[run[l].weight];
      FilledNext(parts, cpuData[..], offset, l);
      ghost var before := cpuData[..];
      CopyBytes(cpuData, offset, curWeight.bytes);
      FilledStep(parts, before, cpuData[..], offset, l);
      CollectedStep(ds, l, merge);
      merge := Collect(merge, curWeight);
      offset := offset + bytesOf(curWeight.dataType, curWeight.dims);
      weight.weight := weight.weight - {run[l].weight};
      l := l + 1;
    }
    FilledAll(parts, cpuData[..], offset);
    CollectedAll(ds, merge);
    Replaced(run, mergeWeightName, initial, merge.(bytes := cpuData[..]), start, weight.weight);
    merge := merge.(bytes := cpuData[..]);
    weight.weight := weight.weight[mergeWeightName := merge];
  }

  lemma WeightFacts(k: Kernel, run: seq<Op>, w: Weights)
    requires IsRun(run) && Copyable(k, RunWeights(run, w))
    requires forall i :: 0 <= i < |run| ==> run[i].weight in w
    ensures forall i :: 0 <= i < |run| ==>
              && |w[run[i].weight].dims| > 0 && RunWeights(run, w)[i] == w[run[i].weight]
              && k.bytesOf(w[run[i].weight].dataType, w[run[i].weight].dims) == |w[run[i].weight].bytes|
    ensures k.bytesOf(w[run[0].weight].dataType, [Sum(RowLens(RunWeights(run, w))), w[run[0].weight].dims[1]])
         == |Flatten(AllBytes(RunWeights(run, w)))|
  {
    forall i | 0 <= i < |run| ensures RunWeights(run, w)[i] == w[run[i].weight] {
    }
  }

  /** The splits that give the outputs of the run their columns. */
  method EmitSplits(run: seq<Op>, graph: ComputeGraph, mid: string, lens: seq<nat>)
    requires IsRun(run) && mid == MidName(run) && |lens| == |run|
    modifies graph
    ensures graph.ops == old(graph.ops) + Splits(run, lens, |run|)
  {
    var offset, l := 0, 0;
    while l < |run|
      invariant 0 <= l <= |run| && offset == Sum(lens[..l])
      invariant graph.ops == old(graph.ops) + Splits(run, lens, l)
    {
      assert lens[..l + 1][..l] == lens[..l];
      graph.ops := graph.ops + [Split(mid, -1, offset, offset + lens[l], run[l].output)];
      offset := offset + lens[l];
      l := l + 1;
    }
  }

  /** The weights of a run are there and distinct, the buffers have the right sizes, and the name of the wide bias is
      none of the weights. */
  ghost predicate Mergeable(k: Kernel, run: seq<Op>, w: Weights)
    requires IsRun(run)
  {
    && Copyable(k, RunWeights(run, w))
    && (run[0].bias in w ==> BiasCopyable(k, RunBiases(run, w), RunWeights(run, w)))
    && (forall i :: 0 <= i < |run| ==> run[i].weight in w)
    && (forall i :: 0 <= i < |run| ==>
        run[i].weight in WithBias(run, w) && WithBias(run, w)[run[i].weight] == w[run[i].weight])
    && (forall i, j :: 0 <= i < j < |run| ==> run[i].weight != run[j].weight)
    && WeightName(run) !in WeightNames(run)
  }

  /** What the program takes for granted while it rewrites: the runs that it merges can be merged. Whether the rewritten
      graph still means the same is another matter. */
  ghost predicate Runnable(k: Kernel, ops: seq<Op>, w: Weights)
    decreases |ops|
  {
    ops != [] ==> (Merges(ops, w) ==> Mergeable(k, Front(ops), w)) && Runnable(k, ops[Taken(ops, w)..], After(ops, w))
  }

  lemma StepMergeable(g: Setting, ops: seq<Op>, w: Weights, final: Weights)
    requires Merges(ops, w) && StepOk(g, ops, w, final)
    ensures Mergeable(g.kernel, Front(ops), w)
  {
    var run := Front(ops);
    forall i | 0 <= i < |run| ensures run[i].weight in g.names && RunWeights(run, w)[i] == w[run[i].weight] {
      assert OpOk(g, run[i], w);
    }
  }

  /** Well-formed graphs can be rewritten. */
  lemma {:induction false} WellFormedRunnable(g: Setting, ops: seq<Op>, w: Weights)
    requires WellFormed(g, ops, w)
    ensures Runnable(g.kernel, ops, w)
    decreases |ops|
  {
    hide StepOk, Mergeable, Taken, After;
    if ops != [] {
      if Merges(ops, w) {
        StepMergeable(g, ops, w, Optimize(ops, w).1);
      }
      WellFormedRunnable(g, ops[Taken(ops, w)..], After(ops, w));
    }
  }

  /** The ops before i are done, and what is left completes the whole result. */
  ghost predicate Progress(k: Kernel, ops: seq<Op>, i: int, w: Weights, done: seq<Op>, result: seq<Op>,
      final: Weights) {
    && 0 <= i <= |ops| && Runnable(k, ops[i..], w)
    && done + Optimize(ops[i..], w).0 == result && Optimize(ops[i..], w).1 == final
  }

  lemma ProgressStart(k: Kernel, ops: seq<Op>, w: Weights)
    requires Runnable(k, ops, w)
    ensures Progress(k, ops, 0, w, [], Optimize(ops, w).0, Optimize(ops, w).1)
  {
    assert ops[0..] == ops;
  }

  lemma ProgressStep(k: Kernel, ops: seq<Op>, i: nat, w: Weights, done: seq<Op>, result: seq<Op>, final: Weights)
    requires i < |ops| && Progress(k, ops, i, w, done, result, final)
    ensures Merges(ops[i..], w) ==> Mergeable(k, Front(ops[i..]), w)
    ensures 1 <= Taken(ops[i..], w) <= |ops| - i
    ensures Progress(k, ops, i + Taken(ops[i..], w), After(ops[i..], w), done + Emitted(ops[i..], w), result, final)
  {
    var n := Taken(ops[i..], w);
    hide Mergeable, Taken, Emitted, After, Merges;
    assert ops[i..][n..] == ops[i + n..];
    var tail := Optimize(ops[i + n..], After(ops[i..], w));
    assert done + (Emitted(ops[i..], w) + tail.0) == done + Emitted(ops[i..], w) + tail.0;
  }

  lemma ProgressDone(k: Kernel, ops: seq<Op>, w: Weights, done: seq<Op>, result: seq<Op>, final: Weights)
    requires Progress(k, ops, |ops|, w, done, result, final)
    ensures done == result && w == final
  {
  }

  lemma TurnIs(ops: seq<Op>, i: nat, j: nat, w: Weights)
    requires i < j < |ops| && ops[i].Linear? && j + 1 - i == RunLength(ops[i..]) && UniformBias(Front(ops[i..]), w)
    ensures Front(ops[i..]) == ops[i..j + 1] && Merges(ops[i..], w)
    ensures Fuses(ops[i..], w) <==>
              && j == i + 1 && j + 2 < |ops|
              && ops[j + 1].Silu? && ops[j + 1].source == ops[j + 1].output && ops[j + 1].source == ops[i].output
              && ops[j + 2].MulTo? && ops[j + 2].left == ops[i].output && ops[j + 2].right == ops[j].output
  {
    assert Behind(ops[i..]) == ops[j + 1..];
  }

  /** Merges the weights and biases of a run, and emits the wide Linear. */
  method MergeRun(ghost k: Kernel, bytesOf: (int, seq<nat>) -> nat, run: seq<Op>, graph: ComputeGraph,
      weight: WeightMap)
    returns (outputName: string, lens: seq<nat>)
    requires IsRun(run) && bytesOf == k.bytesOf && UniformBias(run, weight.weight) && Mergeable(k, run, weight.weight)
    modifies graph, weight
    ensures graph.ops == old(graph.ops) + [MergedOp(run)] && weight.weight == MergedMap(run, old(weight.weight))
    ensures outputName == MidName(run) && lens == RowLens(RunWeights(run, old(weight.weight)))
  {
    ghost var w := weight.weight;
    WeightFacts(k, run, w);
    hide UniformBias, Copyable, BiasCopyable, WithBias, WeightNames, IsRun;
    var mergeWeightName, mergeBiasName, name, columns, lensSum := MergeNames(run, weight);
    outputName, lens := name, columns;
    MergeBias(k, bytesOf, run, weight, mergeBiasName, lensSum);
    MergeWeights(k, bytesOf, run, weight, mergeWeightName, lensSum, w);
    graph.ops := graph.ops + [Linear(run[0].input, mergeWeightName, mergeBiasName, outputName)];
  }

  function EmittedRest(ops: seq<Op>, w: Weights): seq<Op>
    requires Merges(ops, w)
  {
    if Fuses(ops, w) then [Swiglu(MidName(Front(ops)), ops[0].output)]
    else Splits(Front(ops), RowLens(RunWeights(Front(ops), w)), RunLength(ops))
  }

  lemma AfterIs(ops: seq<Op>, w: Weights, done: seq<Op>)
    requires Merges(ops, w)
    ensures After(ops, w) == MergedMap(Front(ops), w)
    ensures done + [MergedOp(Front(ops))] + EmittedRest(ops, w) == done + Emitted(ops, w)
  {
    assert [MergedOp(Front(ops))] + EmittedRest(ops, w) == Emitted(ops, w);
  }

  /** Emits what follows the wide Linear: the gated activation if silu and a product come next, the splits otherwise. */
  method EmitRest(ops: seq<Op>, i: nat, j: nat, graph: ComputeGraph, outputName: string, lens: seq<nat>,
      ghost w: Weights)
    returns (next: nat)
    requires i < j < |ops| && ops[i].Linear? && j + 1 - i == RunLength(ops[i..]) && UniformBias(Front(ops[i..]), w)
    requires outputName == MidName(Front(ops[i..])) && lens == RowLens(RunWeights(Front(ops[i..]), w))
    modifies graph
    ensures graph.ops == old(graph.ops) + EmittedRest(ops[i..], w)
    ensures next == i + Taken(ops[i..], w)
  {
    TurnIs(ops, i, j, w);
    hide IsGate, IsRun, UniformBias;
    if j == i + 1 && j + 2 < |ops|
       && ops[j + 1].Silu? && ops[j + 1].source == ops[j + 1].output && ops[j + 1].source == ops[i].output
       && ops[j + 2].MulTo? && ops[j + 2].left == ops[i].output && ops[j + 2].right == ops[j].output {
      graph.ops := graph.ops + [Swiglu(outputName, ops[i].output)];
      next := j + 3;
    } else {
      EmitSplits(ops[i..j + 1], graph, outputName, lens);
      next := j + 1;
    }
  }

  /** The turn that merges the ops from i to j; next is where the loop goes on. */
  method MergeTurn(ghost k: Kernel, bytesOf: (int, seq<nat>) -> nat, ops: seq<Op>, i: nat, j: nat, graph: ComputeGraph,
      weight: WeightMap)
    returns (next: nat)
    requires i < j < |ops| && ops[i].Linear? && j + 1 - i == RunLength(ops[i..])
        && UniformBias(Front(ops[i..]), weight.weight)
    requires bytesOf == k.bytesOf && Mergeable(k, Front(ops[i..]), weight.weight)
    modifies graph, weight
    ensures graph.ops == old(graph.ops) + Emitted(ops[i..], old(weight.weight))
    ensures weight.weight == After(ops[i..], old(weight.weight)) && next == i + Taken(ops[i..], old(weight.weight))
  {
    ghost var w := weight.weight;
    TurnIs(ops, i, j, w);
    AfterIs(ops[i..], w, graph.ops);
    hide *;
    var outputName, lens := MergeRun(k, bytesOf, ops[i..j + 1], graph, weight);
    next := EmitRest(ops, i, j, graph, outputName, lens, w);
  }

  /** Whether the op at i starts a run that is merged, and where the run ends. */
  method DetectRun(ops: seq<Op>, i: nat, weight: WeightMap) returns (merges: bool, j: nat)
    requires i < |ops|
    ensures merges <==> Merges(ops[i..], weight.weight)
    ensures merges ==>
        i < j < |ops| && ops[i].Linear? && j + 1 - i == RunLength(ops[i..])
            && UniformBias(Front(ops[i..]), weight.weight)
  {
    merges, j := false, i;
    if ops[i].Linear? {
      j := FindRun(ops, i);
      assert ops[i..j + 1] == Front(ops[i..]);
      var hasBiasMask := BiasMask(ops[i..j + 1], weight);
      merges := j > i && hasBiasMask != 3;
    }
  }

  lemma KeptTurn(ops: seq<Op>, i: nat, w: Weights)
    requires i < |ops| && !Merges(ops[i..], w)
    ensures Taken(ops[i..], w) == 1 && Emitted(ops[i..], w) == [ops[i]] && After(ops[i..], w) == w
  {
  }

  /** One turn of the loop, on the op at i; next is where the loop goes on. */
  method OneTurn(ghost k: Kernel, bytesOf: (int, seq<nat>) -> nat, ops: seq<Op>, i: nat, graph: ComputeGraph,
      weight: WeightMap)
    returns (next: nat)
    requires i < |ops| && bytesOf == k.bytesOf && (Merges(ops[i..], weight.weight) ==>
        Mergeable(k, Front(ops[i..]), weight.weight))
    modifies graph, weight
    ensures graph.ops == old(graph.ops) + Emitted(ops[i..], old(weight.weight))
    ensures weight.weight == After(ops[i..], old(weight.weight)) && next == i + Taken(ops[i..], old(weight.weight))
  {
    hide *;
    var merges, j := DetectRun(ops, i, weight);
    if merges {
      next := MergeTurn(k, bytesOf, ops, i, j, graph, weight);
    } else {
      KeptTurn(ops, i, weight.weight);
      graph.ops := graph.ops + [ops[i]];
      next := i + 1;
    }
  }

  /** Rewrites ops and weights as Optimize says; if the graph is well-formed, it goes on meaning the same. */
  method OptimizeComputeGraph(ghost g: Setting, bytesOf: (int, seq<nat>) -> nat, graph: ComputeGraph, weight: WeightMap)
    requires bytesOf == g.kernel.bytesOf && Runnable(g.kernel, graph.ops, weight.weight)
    modifies graph, weight
    ensures graph.ops == Optimize(old(graph.ops), old(weight.weight)).0
    ensures weight.weight == Optimize(old(graph.ops), old(weight.weight)).1
    ensures old(Settled(g, weight.weight) && WellFormed(g, graph.ops, weight.weight)) ==>
              SameMeaning(g, old(graph.ops), old(weight.weight), graph.ops, weight.weight)
  {
    hide *;
    ghost var before, w := graph.ops, weight.weight;
    ghost var result, final := Optimize(graph.ops, weight.weight).0, Optimize(graph.ops, weight.weight).1;
    ProgressStart(g.kernel, graph.ops, weight.weight);
    var ops := graph.ops;
    graph.ops := [];
    var i := 0;
    while i < |ops|
      invariant 0 <= i <= |ops| && Progress(g.kernel, ops, i, weight.weight, graph.ops, result, final)
      decreases |ops| - i
    {
      ProgressStep(g.kernel, ops, i, weight.weight, graph.ops, result, final);
      i := OneTurn(g.kernel, bytesOf, ops, i, graph, weight);
    }
    ProgressDone(g.kernel, ops, weight.weight, graph.ops, result, final);
    if Settled(g, w) && WellFormed(g, before, w) {
      OptimizeKeepsMeaning(g, before, w);
    }
  }
}
