/** The optimiser as a function: which runs of Linear ops it merges, what it emits for them, and what it does to the
    weight map. */
module GraphOptimizer {
  import opened GraphSemantics
  import opened GraphMerge

  type Weights = map<string, Data>

  /** How many Linear ops at the front read the same input. */
  function RunLength(ops: seq<Op>): (n: nat)
    requires ops != [] && ops[0].Linear?
    ensures 1 <= n <= |ops|
    ensures forall i :: 0 <= i < n ==> ops[i].Linear? && ops[i].input == ops[0].input
    ensures n < |ops| ==> !(ops[n].Linear? && ops[n].input == ops[0].input)
  {
    if |ops| > 1 && ops[1].Linear? && ops[1].input == ops[0].input then 1 + RunLength(ops[1..]) else 1
  }

  predicate IsRun(run: seq<Op>) {
    run != [] && run[0].Linear? && forall i :: 0 <= i < |run| ==> run[i].Linear? && run[i].input == run[0].input
  }

  /** Either every op of the run has a bias among the weights, or none has. */
  predicate UniformBias(run: seq<Op>, w: Weights)
    requires IsRun(run)
  {
    || (forall i :: 0 <= i < |run| ==> run[i].bias in w)
    || (forall i :: 0 <= i < |run| ==> run[i].bias !in w)
  }

  function WeightName(run: seq<Op>): string
    requires forall i :: 0 <= i < |run| ==> run[i].Linear?
  {
    if run == [] then "" else WeightName(run[..|run| - 1]) + run[|run| - 1].weight
  }

  function BiasName(run: seq<Op>): string
    requires forall i :: 0 <= i < |run| ==> run[i].Linear?
  {
    if run == [] then "" else BiasName(run[..|run| - 1]) + run[|run| - 1].bias
  }

  function MidName(run: seq<Op>): string
    requires forall i :: 0 <= i < |run| ==> run[i].Linear?
  {
    if run == [] then "" else MidName(run[..|run| - 1]) + (run[|run| - 1].output + "___merge___")
  }

  function Lookup(w: Weights, name: string): Data {
    if name in w then w[name] else EMPTY_DATA
  }

  function RunWeights(run: seq<Op>, w: Weights): seq<Data>
    requires IsRun(run)
  {
    seq(|run|, i requires 0 <= i < |run| => Lookup(w, run[i].weight))
  }

  function RunBiases(run: seq<Op>, w: Weights): seq<Data>
    requires IsRun(run)
  {
    seq(|run|, i requires 0 <= i < |run| => Lookup(w, run[i].bias))
  }

  function WeightNames(run: seq<Op>): set<string>
    requires IsRun(run)
  {
    set i | 0 <= i < |run| :: run[i].weight
  }

  /** The weight map with the wide bias, if any. */
  function WithBias(run: seq<Op>, w: Weights): Weights
    requires IsRun(run)
  {
    if run[0].bias in w then w[BiasName(run) := StackedBias(RunBiases(run, w), RunWeights(run, w))]
    else if BiasName(run) != "" then w[BiasName(run) := EMPTY_DATA]
    else w
  }

  /** The weight map after a run was merged: the wide weight replaces the parts. */
  function MergedMap(run: seq<Op>, w: Weights): Weights
    requires IsRun(run)
  {
    WithBias(run, w)[WeightName(run) := Stacked(RunWeights(run, w))] - WeightNames(run)
  }

  function MergedOp(run: seq<Op>): Op
    requires IsRun(run)
  {
    Linear(run[0].input, WeightName(run), BiasName(run), MidName(run))
  }

  /** The split that gives output i of a run its columns back. */
  function SplitOp(run: seq<Op>, lens: seq<nat>, i: nat): Op
    requires IsRun(run) && i < |lens| == |run|
  {
    Split(MidName(run), -1, Sum(lens[..i]), Sum(lens[..i]) + lens[i], run[i].output)
  }

  function Splits(run: seq<Op>, lens: seq<nat>, n: nat): seq<Op>
    requires IsRun(run) && n <= |lens| == |run|
  {
    if n == 0 then [] else Splits(run, lens, n - 1) + [SplitOp(run, lens, n - 1)]
  }

  /** A run of two followed by silu on the first output and a product with the second. */
  predicate IsGate(run: seq<Op>, rest: seq<Op>)
    requires IsRun(run)
  {
    && |run| == 2 && |rest| >= 2
    && rest[0].Silu? && rest[0].source == rest[0].output == run[0].output
    && rest[1].MulTo? && rest[1].left == run[0].output && rest[1].right == run[1].output
  }

  /** The optimiser merges the run of Linear ops at the front. */
  predicate Merges(ops: seq<Op>, w: Weights) {
    ops != [] && ops[0].Linear? && RunLength(ops) > 1 && UniformBias(ops[..RunLength(ops)], w)
  }

  function Front(ops: seq<Op>): (run: seq<Op>)
    requires ops != [] && ops[0].Linear?
    ensures IsRun(run)
  {
    ops[..RunLength(ops)]
  }

  function Behind(ops: seq<Op>): seq<Op>
    requires ops != [] && ops[0].Linear?
  {
    ops[RunLength(ops)..]
  }

  predicate Fuses(ops: seq<Op>, w: Weights) {
    Merges(ops, w) && IsGate(Front(ops), Behind(ops))
  }

  /** How many ops one turn of the loop consumes. */
  function Taken(ops: seq<Op>, w: Weights): (n: nat)
    requires ops != []
    ensures 1 <= n <= |ops|
  {
    if Fuses(ops, w) then 4 else if Merges(ops, w) then RunLength(ops) else 1
  }

  /** What one turn of the loop emits. */
  function Emitted(ops: seq<Op>, w: Weights): seq<Op>
    requires ops != []
  {
    if Fuses(ops, w) then [MergedOp(Front(ops)), Swiglu(MidName(Front(ops)), ops[0].output)]
    else if Merges(ops, w) then [MergedOp(Front(ops))]
        + Splits(Front(ops), RowLens(RunWeights(Front(ops), w)), RunLength(ops))
    else [ops[0]]
  }

  /** The weight map after one turn of the loop. */
  function After(ops: seq<Op>, w: Weights): Weights
    requires ops != []
  {
    if Merges(ops, w) then MergedMap(Front(ops), w) else w
  }

  function Optimize(ops: seq<Op>, w: Weights): (seq<Op>, Weights)
    decreases |ops|
  {
    if ops == [] then ([], w)
    else
      var tail := Optimize(ops[Taken(ops, w)..], After(ops, w));
      (Emitted(ops, w) + tail.0, tail.1)
  }

  /** Nothing reads x before it is given a new value, and it is not among the values wanted at the end. */
  ghost predicate Dead(x: string, ops: seq<Op>, live: set<string>)
  {
    if ops == [] then x !in live
    else x !in Reads(ops[0]) && (x in Writes(ops[0]) || Dead(x, ops[1..], live))
  }

  /** What is fixed about the graph that is being optimised: its names, the values wanted at the end, and the names that
      never get a value, such as those of missing biases. */
  datatype Setting = Setting(kernel: Kernel, names: set<string>, live: set<string>, absent: set<string>)

  ghost predicate Unused(x: string, ops: seq<Op>) {
    forall i :: 0 <= i < |ops| ==> x !in Reads(ops[i])
  }

  /** An op uses names of the graph, and does not overwrite weights or names that stand for a missing value. */
  ghost predicate OpOk(g: Setting, op: Op, w: Weights) {
    && Reads(op) <= g.names && Writes(op) <= g.names
    && Writes(op) !! g.absent && Writes(op) !! w.Keys
  }

  /** A run that is merged: its weights fit together and are used here only, its input is a computed value that the run
      itself leaves alone until its last op, and the names of the merged values are new. */
  ghost predicate MergeOk(g: Setting, run: seq<Op>, rest: seq<Op>, w: Weights)
    requires IsRun(run)
  {
    && (forall i :: 0 <= i < |run| ==> OpOk(g, run[i], w))
    && (forall i :: 0 <= i < |run| ==> run[i].weight in w && run[i].weight !in g.live && Unused(run[i].weight, rest))
    && (forall i, j :: 0 <= i < j < |run| ==> run[i].weight != run[j].weight)
    && Stackable(g.kernel, RunWeights(run, w))
    && (run[0].bias in w ==> BiasStackable(g.kernel, RunBiases(run, w), RunWeights(run, w)))
    && (forall i :: 0 <= i < |run| ==> run[i].bias in w || run[i].bias in g.absent)
    && run[0].input !in w && (forall i :: 0 <= i < |run| - 1 ==> run[i].output != run[0].input)
    && WeightName(run) !in g.names && WeightName(run) !in w && BiasName(run) != WeightName(run)
    && (if run[0].bias in w || BiasName(run) != "" then BiasName(run) !in g.names
        && BiasName(run) !in w else "" in g.absent)
    && MidName(run) !in g.names
  }

  /** Where a run of two is fused with a gate, its halves are equally wide, its outputs differ, and the second output is
      not used any more. */
  ghost predicate GateOk(g: Setting, run: seq<Op>, rest: seq<Op>, w: Weights)
    requires IsRun(run) && IsGate(run, rest)
  {
    && RowsOf(Lookup(w, run[0].weight)) == RowsOf(Lookup(w, run[1].weight))
    && run[0].output != run[1].output
    && Dead(run[1].output, rest[2..], g.live)
  }

  /** The conditions for one turn of the loop; final is the weight map at the end. */
  ghost predicate StepOk(g: Setting, ops: seq<Op>, w: Weights, final: Weights)
    requires ops != []
  {
    if Merges(ops, w) then
      && MergeOk(g, Front(ops), Behind(ops), w)
      && MidName(Front(ops)) !in final
      && (Fuses(ops, w) ==> GateOk(g, Front(ops), Behind(ops), w))
    else
      OpOk(g, ops[0], w) && forall x :: x in Reads(ops[0]) && x in w ==> x in final
  }

  /** The conditions on the graph under which the optimiser may be used. w holds the weights as the optimiser finds them
      when it reaches these ops. */
  ghost predicate WellFormed(g: Setting, ops: seq<Op>, w: Weights)
    decreases |ops|
  {
    ops != [] ==> StepOk(g, ops, w, Optimize(ops, w).1) && WellFormed(g, ops[Taken(ops, w)..], After(ops, w))
  }

  // --- the weight map ---

  /** Merging a run adds only new names, removes the weights of the run, and keeps all other data. */
  lemma MergedMapKeys(g: Setting, run: seq<Op>, rest: seq<Op>, w: Weights)
    requires IsRun(run) && MergeOk(g, run, rest, w)
    ensures forall x :: x in MergedMap(run, w) ==> x in w || x !in g.names
    ensures forall x :: x in MergedMap(run, w) && x in w ==> MergedMap(run, w)[x] == w[x]
    ensures forall x :: x in w && x !in WeightNames(run) ==> x in MergedMap(run, w)
    ensures WeightNames(run) <= g.names
    ensures WeightName(run) in MergedMap(run, w) && MergedMap(run, w)[WeightName(run)] == Stacked(RunWeights(run, w))
    ensures run[0].bias in w ==>
              BiasName(run) in MergedMap(run, w)
                  && MergedMap(run, w)[BiasName(run)] == StackedBias(RunBiases(run, w), RunWeights(run, w))
    ensures run[0].bias !in w && BiasName(run) != "" ==>
        BiasName(run) in MergedMap(run, w) && MergedMap(run, w)[BiasName(run)] == EMPTY_DATA
  {
    forall i | 0 <= i < |run| ensures run[i].weight in g.names {
      assert OpOk(g, run[i], w);
    }
  }

  /** The final weights: original ones that were not merged, unchanged, and new names. */
  lemma {:induction false} FinalMap(g: Setting, ops: seq<Op>, w: Weights)
    requires WellFormed(g, ops, w)
    ensures forall x :: x in Optimize(ops, w).1 ==> x in w || x !in g.names
    ensures forall x :: x in Optimize(ops, w).1 && x in w ==> Optimize(ops, w).1[x] == w[x]
    ensures forall x :: x in w && x !in g.names ==> x in Optimize(ops, w).1
    decreases |ops|
  {
    if ops != [] {
      AfterKeys(g, ops, w, Optimize(ops, w).1);
      FinalMap(g, ops[Taken(ops, w)..], After(ops, w));
    }
  }

  lemma AfterKeys(g: Setting, ops: seq<Op>, w: Weights, final: Weights)
    requires ops != [] && StepOk(g, ops, w, final)
    ensures forall x :: x in After(ops, w) ==> x in w || x !in g.names
    ensures forall x :: x in After(ops, w) && x in w ==> After(ops, w)[x] == w[x]
    ensures forall x :: x in w && x !in g.names ==> x in After(ops, w)
  {
    if Merges(ops, w) {
      MergedMapKeys(g, Front(ops), Behind(ops), w);
    }
  }

  // --- dead names ---

  lemma {:induction false} UnusedDead(x: string, ops: seq<Op>, live: set<string>)
    requires Unused(x, ops) && x !in live
    ensures Dead(x, ops, live)
  {
    if ops != [] {
      assert x !in Reads(ops[0]);
      forall i | 0 <= i < |ops[1..]| ensures x !in Reads(ops[1..][i]) {
        assert ops[1..][i] == ops[i + 1];
      }
      UnusedDead(x, ops[1..], live);
    }
  }

  /** A name that is dead before some ops, and not written by them, is dead after them. */
  lemma {:induction false} DeadAfter(x: string, ops: seq<Op>, n: nat, live: set<string>)
    requires n <= |ops| && Dead(x, ops, live)
    requires forall i :: 0 <= i < n ==> x !in Writes(ops[i])
    ensures Dead(x, ops[n..], live)
  {
    if n == 0 {
      assert ops[n..] == ops;
    } else {
      DeadAfter(x, ops[1..], n - 1, live);
      assert ops[1..][n - 1..] == ops[n..];
    }
  }
}
