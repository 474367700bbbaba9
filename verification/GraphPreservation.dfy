/** The optimised graph computes what the original graph computes. */
module GraphPreservation {
  import opened GraphSemantics
  import opened GraphMerge
  import opened GraphOptimizer

  /** The store in which a run starts: the inputs, and the weights over them. */
  function Start(inputs: Store, w: Weights): Store {
    inputs + map x | x in w :: Weight(w[x])
  }

  /** Store s, from which the original ops run on, and store t, from which the optimised ops run on, agree on every name
      of the graph but the dead ones and the weights still to be merged. final is the weight map at the end. */
  ghost predicate Related(g: Setting, ops: seq<Op>, w: Weights, final: Weights, dead: set<string>, s: Store, t: Store) {
    && g.live <= g.names && g.absent <= g.names
    && (forall x :: x in g.names && x !in dead && (x in w ==> x in final) ==> Get(s, x) == Get(t, x))
    && (forall x :: x in dead ==> Dead(x, ops, g.live))
    && (forall x :: x in w && x in g.names ==> Get(s, x) == Weight(w[x]))
    && (forall x :: x in final ==> Get(t, x) == Weight(final[x]))
    && (forall x :: x in g.absent ==> Get(s, x) == Nothing && Get(t, x) == Nothing)
  }

  /** An op that is kept runs the same in both. */
  lemma KeptOp(g: Setting, ops: seq<Op>, w: Weights, final: Weights, dead: set<string>, s: Store, t: Store)
    requires ops != [] && Related(g, ops, w, final, dead, s, t) && OpOk(g, ops[0], w)
    requires forall x :: x in Reads(ops[0]) && x in w ==> x in final
    requires forall x :: x in final ==> x in w || x !in g.names
    ensures Related(g, ops[1..], w, final, dead - Writes(ops[0]), Step(g.kernel, ops[0], s), Step(g.kernel, ops[0], t))
  {
    var op := ops[0];
    var s', t' := Step(g.kernel, op, s), Step(g.kernel, op, t);
    forall x ensures x !in Writes(op) ==> Get(s', x) == Get(s, x) && Get(t', x) == Get(t, x) {
      if x !in Writes(op) {
        StepFrame(g.kernel, op, s, x);
        StepFrame(g.kernel, op, t, x);
      }
    }
    forall x | x in Writes(op) ensures Get(s', x) == Get(t', x) {
      StepSame(g.kernel, op, s, t, x);
    }
  }

  /** The values of the biases of a run. */
  function BiasValues(run: seq<Op>, s: Store): seq<Value>
    requires IsRun(run)
  {
    seq(|run|, i requires 0 <= i < |run| => Get(s, run[i].bias))
  }

  function PartValue(k: Kernel, run: seq<Op>, w: Weights, s: Store, i: nat): Value
    requires IsRun(run) && i < |run|
  {
    LinearValue(k, Get(s, run[0].input), Weight(RunWeights(run, w)[i]), Get(s, run[i].bias))
  }

  /** The store after the first n outputs of a run were given these values. */
  function Put(st: Store, run: seq<Op>, values: seq<Value>, n: nat): Store
    requires IsRun(run) && n <= |run| == |values|
  {
    if n == 0 then st else Put(st, run, values, n - 1)[run[n - 1].output := values[n - 1]]
  }

  lemma {:induction false} PutGet(s: Store, t: Store, run: seq<Op>, values: seq<Value>, n: nat, x: string)
    requires IsRun(run) && n <= |run| == |values|
    ensures (forall i :: 0 <= i < n ==> run[i].output != x) ==> Get(Put(s, run, values, n), x) == Get(s, x)
    ensures (exists i :: 0 <= i < n && run[i].output == x) ==>
        Get(Put(s, run, values, n), x) == Get(Put(t, run, values, n), x)
  {
    if n > 0 {
      PutGet(s, t, run, values, n - 1, x);
    }
  }

  /** No op of a run overwrites what a later op of the run reads. */
  ghost predicate RunApart(run: seq<Op>)
    requires IsRun(run)
  {
    forall i, j :: 0 <= i < j < |run| ==>
      run[i].output != run[j].weight && run[i].output != run[j].bias && run[i].output != run[j].input
  }

  lemma RunFacts(g: Setting, run: seq<Op>, rest: seq<Op>, w: Weights)
    requires IsRun(run) && MergeOk(g, run, rest, w)
    ensures RunApart(run)
    ensures forall i :: 0 <= i < |run| ==>
              && run[i].weight in w && run[i].weight in g.names && run[i].output in g.names
                  && run[i].output != MidName(run)
              && run[i].output !in w && run[i].output !in g.absent
  {
    forall i | 0 <= i < |run| ensures OpOk(g, run[i], w) {
    }
  }

  /** Running the ops of a run puts the products of its parts. */
  lemma {:induction false} RunPrefix(k: Kernel, run: seq<Op>, w: Weights, s: Store, values: seq<Value>, n: nat)
    requires IsRun(run) && RunApart(run) && n <= |run| == |values|
    requires forall i :: 0 <= i < |run| ==> run[i].weight in w && Get(s, run[i].weight) == Weight(w[run[i].weight])
    requires forall i :: 0 <= i < |run| ==> values[i] == PartValue(k, run, w, s, i)
    ensures Run(k, run[..n], s) == Put(s, run, values, n)
  {
    if n == 0 {
      assert run[..0] == [];
    } else {
      RunPrefix(k, run, w, s, values, n - 1);
      var op := run[n - 1];
      var before := Put(s, run, values, n - 1);
      assert run[..n] == run[..n - 1] + [op];
      RunConcat(k, run[..n - 1], [op], s);
      RunOne(k, op, before);
      PutGet(s, s, run, values, n - 1, op.input);
      PutGet(s, s, run, values, n - 1, op.weight);
      PutGet(s, s, run, values, n - 1, op.bias);
    }
  }

  lemma RunOne(k: Kernel, op: Op, st: Store)
    ensures Run(k, [op], st) == Step(k, op, st)
  {
  }

  function SplitPart(k: Kernel, run: seq<Op>, lens: seq<nat>, wide: Value, i: nat): Value
    requires IsRun(run) && i < |lens| == |run|
  {
    SplitValue(k, wide, -1, Sum(lens[..i]), Sum(lens[..i]) + lens[i])
  }

  lemma SplitStep(k: Kernel, run: seq<Op>, lens: seq<nat>, st: Store, i: nat)
    requires IsRun(run) && i < |lens| == |run|
    ensures Step(k, SplitOp(run, lens, i), st) == st[run[i].output := SplitPart(k, run, lens, Get(st, MidName(run)), i)]
  {
  }

  /** Splitting the wide product puts its columns. */
  lemma {:induction false} SplitsPrefix(k: Kernel, run: seq<Op>, t: Store, lens: seq<nat>, values: seq<Value>, n: nat)
    requires IsRun(run) && n <= |run| == |lens| == |values|
    requires forall i :: 0 <= i < |run| ==> run[i].output != MidName(run)
    requires forall i :: 0 <= i < |run| ==> values[i] == SplitPart(k, run, lens, Get(t, MidName(run)), i)
    ensures Run(k, Splits(run, lens, n), t) == Put(t, run, values, n)
  {
    hide SplitOp, SplitPart, Step, MidName, Run;
    if n == 0 {
      RunNone(k, t);
    } else {
      SplitsPrefix(k, run, t, lens, values, n - 1);
      var op := SplitOp(run, lens, n - 1);
      var before := Put(t, run, values, n - 1);
      RunConcat(k, Splits(run, lens, n - 1), [op], t);
      RunOne(k, op, before);
      PutGet(t, t, run, values, n - 1, MidName(run));
      SplitStep(k, run, lens, before, n - 1);
    }
  }

  lemma RunNone(k: Kernel, st: Store)
    ensures Run(k, [], st) == st
  {
  }

  /** The biases of a run match the wide bias of the optimised store. */
  lemma BiasesMatch(g: Setting, run: seq<Op>, rest: seq<Op>, w: Weights, final: Weights, s: Store, t: Store)
    requires IsRun(run) && MergeOk(g, run, rest, w) && UniformBias(run, w)
    requires forall x :: x in w && x in g.names ==> Get(s, x) == Weight(w[x])
    requires forall x :: x in g.absent ==> Get(s, x) == Nothing && Get(t, x) == Nothing
    requires forall x :: x in final ==> Get(t, x) == Weight(final[x])
    requires forall x :: x in MergedMap(run, w) && x !in g.names ==> x in final && final[x] == MergedMap(run, w)[x]
    ensures BiasMatches(g.kernel, BiasValues(run, s), RunWeights(run, w), Get(t, BiasName(run)))
    ensures Get(t, WeightName(run)) == Weight(Stacked(RunWeights(run, w)))
  {
    MergedMapKeys(g, run, rest, w);
    hide MergedMap, Stacked, Stackable, BiasStackable, StackedBias;
    if run[0].bias in w {
      var datas := RunBiases(run, w);
      forall i | 0 <= i < |run| ensures BiasValues(run, s)[i] == Weight(datas[i]) {
        assert OpOk(g, run[i], w);
      }
      assert BiasStacks(g.kernel, BiasValues(run, s), datas, RunWeights(run, w), Get(t, BiasName(run)));
    } else {
      assert forall i :: 0 <= i < |run| ==> run[i].bias in g.absent;
    }
  }

  /** The product that a run computes, part by part. */
  function PartValues(k: Kernel, run: seq<Op>, w: Weights, s: Store): seq<Value>
    requires IsRun(run)
  {
    seq(|run|, i requires 0 <= i < |run| => PartValue(k, run, w, s, i))
  }

  function WideValue(k: Kernel, run: seq<Op>, w: Weights, s: Store, wide: Value): Value
    requires IsRun(run)
  {
    LinearValue(k, Get(s, run[0].input), Weight(Stacked(RunWeights(run, w))), wide)
  }

  lemma WidePart(k: Kernel, run: seq<Op>, w: Weights, s: Store, wide: Value, i: nat)
    requires IsRun(run) && i < |run| && Stackable(k, RunWeights(run, w))
    requires BiasMatches(k, BiasValues(run, s), RunWeights(run, w), wide)
    ensures PartValue(k, run, w, s, i)
        == SplitPart(k, run, RowLens(RunWeights(run, w)), WideValue(k, run, w, s, wide), i)
  {
    WideSplit(k, RunWeights(run, w), BiasValues(run, s), wide, Get(s, run[0].input), i);
  }

  /** The original run puts the part products. */
  lemma RunValues(g: Setting, run: seq<Op>, rest: seq<Op>, w: Weights, s: Store)
    requires IsRun(run) && MergeOk(g, run, rest, w)
    requires forall x :: x in w && x in g.names ==> Get(s, x) == Weight(w[x])
    ensures Run(g.kernel, run, s) == Put(s, run, PartValues(g.kernel, run, w, s), |run|)
  {
    RunFacts(g, run, rest, w);
    RunPrefix(g.kernel, run, w, s, PartValues(g.kernel, run, w, s), |run|);
    assert run[..|run|] == run;
  }

  /** The wide product with its splits puts the same values. */
  lemma MergedValues(k: Kernel, run: seq<Op>, w: Weights, s: Store, t: Store)
    requires IsRun(run) && Stackable(k, RunWeights(run, w)) && Get(s, run[0].input) == Get(t, run[0].input)
    requires BiasMatches(k, BiasValues(run, s), RunWeights(run, w), Get(t, BiasName(run)))
    requires Get(t, WeightName(run)) == Weight(Stacked(RunWeights(run, w)))
    requires forall i :: 0 <= i < |run| ==> run[i].output != MidName(run)
    ensures var t1 := t[MidName(run) := WideValue(k, run, w, s, Get(t, BiasName(run)))];
      Run(k, [MergedOp(run)] + Splits(run, RowLens(RunWeights(run, w)), |run|), t)
          == Put(t1, run, PartValues(k, run, w, s), |run|)
  {
    var lens := RowLens(RunWeights(run, w));
    var wide := Get(t, BiasName(run));
    var t1 := t[MidName(run) := WideValue(k, run, w, s, wide)];
    assert Step(k, MergedOp(run), t) == t1;
    RunOne(k, MergedOp(run), t);
    RunConcat(k, [MergedOp(run)], Splits(run, lens, |run|), t);
    forall i | 0 <= i < |run| ensures PartValues(k, run, w, s)[i] == SplitPart(k, run, lens, Get(t1, MidName(run)), i) {
      WidePart(k, run, w, s, wide, i);
    }
    SplitsPrefix(k, run, t1, lens, PartValues(k, run, w, s), |run|);
  }

  lemma PutTwo(st: Store, run: seq<Op>, values: seq<Value>)
    requires IsRun(run) && |run| == 2 == |values|
    ensures Put(st, run, values, 2) == st[run[0].output := values[0]][run[1].output := values[1]]
  {
    assert Put(st, run, values, 1) == st[run[0].output := values[0]];
  }

  /** The gated activation of the wide product. */
  function Gated(k: Kernel, run: seq<Op>, w: Weights, s: Store, wide: Value): Value
    requires IsRun(run)
  {
    SwigluValue(k, WideValue(k, run, w, s, wide))
  }

  lemma GatedOptimized(k: Kernel, run: seq<Op>, w: Weights, s: Store, t: Store)
    requires IsRun(run) && Get(s, run[0].input) == Get(t, run[0].input)
    requires Get(t, WeightName(run)) == Weight(Stacked(RunWeights(run, w)))
    ensures Run(k, [MergedOp(run), Swiglu(MidName(run), run[0].output)], t)
         == t[MidName(run) := WideValue(k, run, w, s, Get(t, BiasName(run)))]
             [run[0].output := Gated(k, run, w, s, Get(t, BiasName(run)))]
  {
    assert Step(k, MergedOp(run), t) == t[MidName(run) := WideValue(k, run, w, s, Get(t, BiasName(run)))];
    RunTwo(k, MergedOp(run), Swiglu(MidName(run), run[0].output), t);
  }

  /** silu and the product of the two parts give the same value to the first output, and change nothing else. */
  lemma GatedOriginal(k: Kernel, run: seq<Op>, rest: seq<Op>, w: Weights, s: Store, wide: Value)
    requires IsRun(run) && IsGate(run, rest) && Stackable(k, RunWeights(run, w))
    requires BiasMatches(k, BiasValues(run, s), RunWeights(run, w), wide)
    requires RowsOf(RunWeights(run, w)[0]) == RowsOf(RunWeights(run, w)[1]) && run[0].output != run[1].output
    ensures Run(k, rest[..2], Put(s, run, PartValues(k, run, w, s), 2))
         == s[run[0].output := Gated(k, run, w, s, wide)][run[1].output := PartValue(k, run, w, s, 1)]
  {
    var values := PartValues(k, run, w, s);
    PutTwo(s, run, values);
    WideSwiglu(k, RunWeights(run, w), BiasValues(run, s), wide, Get(s, run[0].input));
    assert rest[..2] == [rest[0], rest[1]];
    var s2 := s[run[0].output := values[0]][run[1].output := values[1]];
    RunTwo(k, rest[0], rest[1], s2);
    GateSteps(k, run, rest, s, values[0], values[1]);
  }

  lemma GateSteps(k: Kernel, run: seq<Op>, rest: seq<Op>, s: Store, a: Value, b: Value)
    requires IsRun(run) && IsGate(run, rest) && run[0].output != run[1].output
    ensures Step(k, rest[1], Step(k, rest[0], s[run[0].output := a][run[1].output := b]))
         == s[run[0].output := MulValue(SiluValue(k, a), b)][run[1].output := b]
  {
  }

  lemma RunTwo(k: Kernel, a: Op, b: Op, st: Store)
    ensures Run(k, [a, b], st) == Step(k, b, Step(k, a, st))
  {
    assert [a, b][1..] == [b];
    RunOne(k, b, Step(k, a, st));
  }

  function Outputs(run: seq<Op>): set<string>
    requires IsRun(run)
  {
    set i | 0 <= i < |run| :: run[i].output
  }

  /** Stores stay related over steps that change only some outputs and a new name. */
  lemma RelatedOver(g: Setting, ops: seq<Op>, rest: seq<Op>, w: Weights, w': Weights, final: Weights, dead: set<string>,
      dead': set<string>, outputs: set<string>, mid: string, s: Store, t: Store, s': Store, t': Store)
    requires Related(g, ops, w, final, dead, s, t)
    requires forall x :: x in g.names && (x in w ==> x in final) ==> (x in w' ==> x in final)
    requires forall x :: x in w' && x in g.names ==> x in w && w'[x] == w[x]
    requires forall x :: x in w && x !in w' ==> x in dead'
    requires mid !in final && mid !in g.names && outputs <= g.names
    requires forall x :: x in outputs ==> x !in w && x !in g.absent && x !in final
    requires forall x :: x !in outputs ==> Get(s', x) == Get(s, x)
    requires forall x :: x !in outputs && x != mid ==> Get(t', x) == Get(t, x)
    requires forall x :: x in outputs && x !in dead' ==> Get(s', x) == Get(t', x)
    requires forall x :: x in dead && x !in outputs ==> x in dead'
    requires forall x :: x in dead' ==> Dead(x, rest, g.live)
    ensures Related(g, rest, w', final, dead', s', t')
  {
    hide Dead;
  }

  /** After a merged run, the outputs agree except for stale ones that are dead. */
  lemma MergedRelated(g: Setting, ops: seq<Op>, n: nat, rest: seq<Op>, w: Weights, final: Weights, dead: set<string>,
      stale: set<string>, s: Store, t: Store, s': Store, t': Store)
    requires 0 < n <= |ops| && IsRun(ops[..n]) && MergeOk(g, ops[..n], ops[n..], w)
    requires Related(g, ops, w, final, dead, s, t)
    requires forall x :: x in final ==> x in MergedMap(ops[..n], w) || x !in g.names
    requires MidName(ops[..n]) !in final
    requires stale <= Outputs(ops[..n])
    requires forall x :: x !in Outputs(ops[..n]) ==> Get(s', x) == Get(s, x)
    requires forall x :: x !in Outputs(ops[..n]) && x != MidName(ops[..n]) ==> Get(t', x) == Get(t, x)
    requires forall x :: x in Outputs(ops[..n]) && x !in stale ==> Get(s', x) == Get(t', x)
    requires forall x :: x in dead && x !in Outputs(ops[..n]) ==> Dead(x, rest, g.live)
    requires forall x :: x in stale || x in WeightNames(ops[..n]) ==> Dead(x, rest, g.live)
    ensures Related(g, rest, MergedMap(ops[..n], w), final, (dead - Outputs(ops[..n])) + WeightNames(ops[..n]) + stale,
        s', t')
  {
    var run := ops[..n];
    RunFacts(g, run, ops[n..], w);
    MergedMapKeys(g, run, ops[n..], w);
    var w', outputs := MergedMap(run, w), Outputs(run);
    var dead' := (dead - outputs) + WeightNames(run) + stale;
    hide IsRun, Dead, MergedMap, MidName, Related, WeightNames;
    assert MidName(run) !in g.names;
    hide MergeOk;
    assert outputs <= g.names && forall x :: x in outputs ==> x !in w && x !in g.absent;
    hide Outputs;
    RelatedOver(g, ops, rest, w, w', final, dead, dead', outputs, MidName(run), s, t, s', t');
  }

  lemma PutOutputs(s: Store, t: Store, run: seq<Op>, values: seq<Value>)
    requires IsRun(run) && |run| == |values|
    ensures forall x :: x !in Outputs(run) ==> Get(Put(s, run, values, |run|), x) == Get(s, x)
    ensures forall x :: x in Outputs(run) ==> Get(Put(s, run, values, |run|), x) == Get(Put(t, run, values, |run|), x)
  {
    forall x ensures x !in Outputs(run) ==> Get(Put(s, run, values, |run|), x) == Get(s, x)
             ensures x in Outputs(run) ==> Get(Put(s, run, values, |run|), x) == Get(Put(t, run, values, |run|), x)
    {
      PutGet(s, t, run, values, |run|, x);
    }
  }

  /** What a run knows about the two stores when it is merged. */
  lemma RunStores(g: Setting, ops: seq<Op>, n: nat, w: Weights, final: Weights, dead: set<string>, s: Store, t: Store)
    requires 0 < n <= |ops| && IsRun(ops[..n]) && MergeOk(g, ops[..n], ops[n..], w) && UniformBias(ops[..n], w)
    requires Related(g, ops, w, final, dead, s, t)
    requires forall x :: x in MergedMap(ops[..n], w) && x !in g.names ==>
        x in final && final[x] == MergedMap(ops[..n], w)[x]
    ensures var run := ops[..n];
      && Get(s, run[0].input) == Get(t, run[0].input)
      && Stackable(g.kernel, RunWeights(run, w))
      && BiasMatches(g.kernel, BiasValues(run, s), RunWeights(run, w), Get(t, BiasName(run)))
      && Get(t, WeightName(run)) == Weight(Stacked(RunWeights(run, w)))
      && (forall i :: 0 <= i < n ==> run[i].output != MidName(run))
      && Run(g.kernel, run, s) == Put(s, run, PartValues(g.kernel, run, w, s), n)
  {
    var run := ops[..n];
    assert OpOk(g, run[0], w);
    assert ops[0] == run[0] && run[0].input in Reads(ops[0]);
    BiasesMatch(g, run, ops[n..], w, final, s, t);
    RunFacts(g, run, ops[n..], w);
    RunValues(g, run, ops[n..], w, s);
  }

  lemma DeadWeights(g: Setting, run: seq<Op>, rest: seq<Op>, w: Weights)
    requires IsRun(run) && MergeOk(g, run, rest, w)
    ensures forall x :: x in WeightNames(run) ==> Unused(x, rest) && Dead(x, rest, g.live)
  {
    forall x | x in WeightNames(run) ensures Unused(x, rest) && Dead(x, rest, g.live) {
      var i :| 0 <= i < |run| && run[i].weight == x;
      UnusedDead(x, rest, g.live);
    }
  }

  lemma StillDead(g: Setting, ops: seq<Op>, n: nat, w: Weights, final: Weights, dead: set<string>, s: Store, t: Store)
    requires n <= |ops| && IsRun(ops[..n]) && Related(g, ops, w, final, dead, s, t)
    ensures forall x :: x in dead && x !in Outputs(ops[..n]) ==> Dead(x, ops[n..], g.live)
  {
    forall x | x in dead && x !in Outputs(ops[..n]) ensures Dead(x, ops[n..], g.live) {
      forall i | 0 <= i < n ensures x !in Writes(ops[i]) {
        assert ops[..n][i] == ops[i];
      }
      DeadAfter(x, ops, n, g.live);
    }
  }

  /** A merged run without a gate. */
  lemma SplitRun(g: Setting, ops: seq<Op>, n: nat, w: Weights, final: Weights, dead: set<string>, s: Store, t: Store)
    returns (dead': set<string>)
    requires 0 < n <= |ops| && IsRun(ops[..n]) && MergeOk(g, ops[..n], ops[n..], w) && UniformBias(ops[..n], w)
    requires Related(g, ops, w, final, dead, s, t) && MidName(ops[..n]) !in final
    requires forall x :: x in final ==> x in MergedMap(ops[..n], w) || x !in g.names
    requires forall x :: x in MergedMap(ops[..n], w) && x !in g.names ==>
        x in final && final[x] == MergedMap(ops[..n], w)[x]
    ensures Related(g, ops[n..], MergedMap(ops[..n], w), final, dead', Run(g.kernel, ops[..n], s),
                    Run(g.kernel, [MergedOp(ops[..n])] + Splits(ops[..n], RowLens(RunWeights(ops[..n], w)), n), t))
  {
    var k, run, rest := g.kernel, ops[..n], ops[n..];
    RunStores(g, ops, n, w, final, dead, s, t);
    MergedValues(k, run, w, s, t);
    var t1 := t[MidName(run) := WideValue(k, run, w, s, Get(t, BiasName(run)))];
    var values := PartValues(k, run, w, s);
    PutOutputs(s, t1, run, values);
    PutOutputs(t1, s, run, values);
    DeadWeights(g, run, rest, w);
    StillDead(g, ops, n, w, final, dead, s, t);
    hide MergeOk, Related, IsRun, Dead, MergedMap, MidName, Put, PartValues, WideValue, UniformBias, Stackable,
        BiasMatches;
    MergedRelated(g, ops, n, rest, w, final, dead, {}, s, t, Put(s, run, values, n), Put(t1, run, values, n));
    dead' := (dead - Outputs(run)) + WeightNames(run) + {};
  }

  lemma GatedDead(g: Setting, ops: seq<Op>, n: nat, w: Weights, final: Weights, dead: set<string>, s: Store, t: Store)
    requires 0 < n <= |ops| && IsRun(ops[..n]) && MergeOk(g, ops[..n], ops[n..], w)
    requires IsGate(ops[..n], ops[n..]) && Related(g, ops, w, final, dead, s, t)
    ensures forall x :: x in WeightNames(ops[..n]) ==> Dead(x, ops[n..][2..], g.live)
    ensures forall x :: x in dead && x !in Outputs(ops[..n]) ==> Dead(x, ops[n..][2..], g.live)
  {
    var run, rest := ops[..n], ops[n..];
    StillDead(g, ops, n, w, final, dead, s, t);
    hide Related, Dead;
    forall x | x in WeightNames(run) ensures Dead(x, rest[2..], g.live) {
      assert forall i :: 0 <= i < |rest[2..]| ==> rest[2..][i] == rest[i + 2];
      MergedNotLive(g, run, rest, w, x);
      UnusedDead(x, rest[2..], g.live);
    }
    hide MergeOk;
    forall x | x in dead && x !in Outputs(run) ensures Dead(x, rest[2..], g.live) {
      assert run[0].output in Outputs(run);
      DeadAfter(x, rest, 2, g.live);
    }
  }

  /** A merged run that is fused with its gate: the second output goes stale. */
  lemma GatedRun(g: Setting, ops: seq<Op>, run: seq<Op>, rest: seq<Op>, w: Weights, final: Weights, dead: set<string>,
      s: Store, t: Store)
    returns (dead': set<string>)
    requires ops == run + rest && IsRun(run) && MergeOk(g, run, rest, w) && UniformBias(run, w)
    requires IsGate(run, rest) && GateOk(g, run, rest, w)
    requires Related(g, ops, w, final, dead, s, t) && MidName(run) !in final
    requires forall x :: x in final ==> x in MergedMap(run, w) || x !in g.names
    requires forall x :: x in MergedMap(run, w) && x !in g.names ==> x in final && final[x] == MergedMap(run, w)[x]
    ensures Related(g, rest[2..], MergedMap(run, w), final, dead', Run(g.kernel, rest[..2], Run(g.kernel, run, s)),
                    Run(g.kernel, [MergedOp(run), Swiglu(MidName(run), run[0].output)], t))
  {
    hide MergeOk, Related, UniformBias, Dead, MergedMap, Run, MergedOp, MidName, WeightNames;
    var n := |run|;
    assert ops[..n] == run && ops[n..] == rest;
    GatedDead(g, ops, n, w, final, dead, s, t);
    GatePair(run, rest);
    var s', t' := GatedStores(g, ops, n, w, final, dead, s, t);
    MergedRelated(g, ops, n, rest[2..], w, final, dead, {run[1].output}, s, t, s', t');
    dead' := (dead - Outputs(run)) + WeightNames(run) + {run[1].output};
  }

  /** The two stores after a run that is fused with its gate. */
  lemma GatedStores(g: Setting, ops: seq<Op>, n: nat, w: Weights, final: Weights, dead: set<string>, s: Store, t: Store)
    returns (s': Store, t': Store)
    requires 0 < n <= |ops| && IsRun(ops[..n]) && MergeOk(g, ops[..n], ops[n..], w) && UniformBias(ops[..n], w)
    requires IsGate(ops[..n], ops[n..]) && GateOk(g, ops[..n], ops[n..], w)
    requires Related(g, ops, w, final, dead, s, t)
    requires forall x :: x in MergedMap(ops[..n], w) && x !in g.names ==>
        x in final && final[x] == MergedMap(ops[..n], w)[x]
    ensures s' == Run(g.kernel, ops[n..][..2], Run(g.kernel, ops[..n], s))
    ensures t' == Run(g.kernel, [MergedOp(ops[..n]), Swiglu(MidName(ops[..n]), ops[..n][0].output)], t)
    ensures n == 2 && ops[0].output != ops[1].output
    ensures forall x :: x != ops[0].output && x != ops[1].output ==> Get(s', x) == Get(s, x)
    ensures forall x :: x != ops[0].output && x != ops[1].output && x != MidName(ops[..n]) ==> Get(t', x) == Get(t, x)
    ensures Get(s', ops[0].output) == Get(t', ops[0].output)
  {
    var k, run, rest := g.kernel, ops[..n], ops[n..];
    RunStores(g, ops, n, w, final, dead, s, t);
    GatePair(run, rest);
    hide Related, MergeOk, UniformBias, Dead, Put, PartValues, WideValue, Gated, IsGate, BiasMatches, Stackable,
        MergedMap, Run, MidName, MergedOp;
    var wide := Get(t, BiasName(run));
    GatedOptimized(k, run, w, s, t);
    GatedOriginal(k, run, rest, w, s, wide);
    s' := s[run[0].output := Gated(k, run, w, s, wide)][run[1].output := PartValue(k, run, w, s, 1)];
    t' := t[MidName(run) := WideValue(k, run, w, s, wide)][run[0].output := Gated(k, run, w, s, wide)];
    OneAgrees(s, t, run[0].output, run[1].output, MidName(run), Gated(k, run, w, s, wide), PartValue(k, run, w, s, 1),
        WideValue(k, run, w, s, wide));
  }

  lemma OneAgrees(s: Store, t: Store, a: string, b: string, mid: string, v: Value, stale: Value, wide: Value)
    requires a != b && mid != a && mid != b
    ensures forall x :: x != a && x != b ==> Get(s[a := v][b := stale], x) == Get(s, x)
    ensures forall x :: x != a && x != b && x != mid ==> Get(t[mid := wide][a := v], x) == Get(t, x)
    ensures Get(s[a := v][b := stale], a) == Get(t[mid := wide][a := v], a)
  {
  }

  lemma GatePair(run: seq<Op>, rest: seq<Op>)
    requires IsRun(run) && IsGate(run, rest)
    ensures |run| == 2 && Outputs(run) == {run[0].output, run[1].output}
  {
    assert forall x :: x in {run[0].output, run[1].output} ==> x in Outputs(run);
  }

  lemma MergedNotLive(g: Setting, run: seq<Op>, rest: seq<Op>, w: Weights, x: string)
    requires IsRun(run) && MergeOk(g, run, rest, w) && x in WeightNames(run)
    ensures x !in g.live && Unused(x, rest)
  {
  }

  /** One turn of the loop: what it emits does on t what the ops it consumes do on s. */
  lemma TurnRelated(g: Setting, ops: seq<Op>, w: Weights, final: Weights, dead: set<string>, s: Store, t: Store)
    returns (dead': set<string>)
    requires ops != [] && StepOk(g, ops, w, final) && Related(g, ops, w, final, dead, s, t)
    requires forall x :: x in final ==> x in After(ops, w) || x !in g.names
    requires forall x :: x in After(ops, w) && x !in g.names ==> x in final && final[x] == After(ops, w)[x]
    ensures Related(g, ops[Taken(ops, w)..], After(ops, w), final, dead',
                    Run(g.kernel, ops[..Taken(ops, w)], s), Run(g.kernel, Emitted(ops, w), t))
  {
    if Fuses(ops, w) {
      var n := RunLength(ops);
      assert ops == ops[..n] + ops[n..] && ops[n..][2..] == ops[4..];
      assert ops[..4] == ops[..n] + ops[n..][..2];
      RunConcat(g.kernel, ops[..n], ops[n..][..2], s);
      hide Related, GateOk, IsGate, MergeOk, MergedMap, MidName, UniformBias;
      dead' := GatedRun(g, ops, ops[..n], ops[n..], w, final, dead, s, t);
    } else if Merges(ops, w) {
      hide Related, IsGate, MergeOk, MergedMap, MidName, UniformBias;
      dead' := SplitRun(g, ops, RunLength(ops), w, final, dead, s, t);
    } else {
      KeptOp(g, ops, w, final, dead, s, t);
      assert ops[..1] == [ops[0]];
      hide Related, OpOk;
      RunOne(g.kernel, ops[0], s);
      RunOne(g.kernel, ops[0], t);
      dead' := dead - Writes(ops[0]);
    }
  }

  lemma LiveAgree(g: Setting, w: Weights, dead: set<string>, s: Store, t: Store)
    requires Related(g, [], w, w, dead, s, t)
    ensures forall x :: x in g.live ==> Get(s, x) == Get(t, x)
  {
  }

  /** From related stores, both graphs end with the same live values. */
  lemma {:induction false} Simulates(g: Setting, ops: seq<Op>, w: Weights, dead: set<string>, s: Store, t: Store)
    requires WellFormed(g, ops, w) && Related(g, ops, w, Optimize(ops, w).1, dead, s, t)
    ensures forall x :: x in g.live ==> Get(Run(g.kernel, ops, s), x) == Get(Run(g.kernel, Optimize(ops, w).0, t), x)
    decreases |ops|
  {
    hide StepOk, Taken, Emitted, After, Related;
    if ops == [] {
      LiveAgree(g, w, dead, s, t);
    } else {
      var n, w' := Taken(ops, w), After(ops, w);
      var tail := Optimize(ops[n..], w');
      FinalMap(g, ops[n..], w');
      var dead' := TurnRelated(g, ops, w, tail.1, dead, s, t);
      Simulates(g, ops[n..], w', dead', Run(g.kernel, ops[..n], s), Run(g.kernel, Emitted(ops, w), t));
      assert ops == ops[..n] + ops[n..];
      RunConcat(g.kernel, ops[..n], ops[n..], s);
      RunConcat(g.kernel, Emitted(ops, w), tail.0, t);
    }
  }

  lemma StartRelated(g: Setting, ops: seq<Op>, w: Weights, final: Weights, inputs: Store)
    requires g.live <= g.names && g.absent <= g.names
    requires w.Keys <= g.names && g.absent !! w.Keys && g.absent !! inputs.Keys
    requires forall x :: x in final ==> x in w || x !in g.names
    requires forall x :: x in final && x in w ==> final[x] == w[x]
    ensures Related(g, ops, w, final, {}, Start(inputs, w), Start(inputs, final))
  {
    forall x | x in g.absent ensures x !in Start(inputs, w) && x !in Start(inputs, final) {
      assert x !in w.Keys && x !in inputs.Keys;
    }
    forall x | x in w ensures Get(Start(inputs, w), x) == Weight(w[x]) {
    }
    forall x | x in final ensures Get(Start(inputs, final), x) == Weight(final[x]) {
    }
  }

  /** Optimising a well-formed graph preserves its meaning: on any inputs, the rewritten ops on the rewritten weights
      give every live name the value that the original ops on the original weights give it. */
  lemma OptimizePreserves(g: Setting, ops: seq<Op>, w: Weights, inputs: Store)
    requires g.live <= g.names && g.absent <= g.names
    requires w.Keys <= g.names && g.absent !! w.Keys && g.absent !! inputs.Keys
    requires WellFormed(g, ops, w)
    ensures forall x :: x in g.live ==>
              Get(Run(g.kernel, ops, Start(inputs, w)), x)
              == Get(Run(g.kernel, Optimize(ops, w).0, Start(inputs, Optimize(ops, w).1)), x)
  {
    FinalMap(g, ops, w);
    StartRelated(g, ops, w, Optimize(ops, w).1, inputs);
    hide WellFormed, Related, Run, Optimize, Start;
    Simulates(g, ops, w, {}, Start(inputs, w), Start(inputs, Optimize(ops, w).1));
  }

  /** The names of the graph cover the wanted and the absent names and the weights; absent names are no weights. */
  ghost predicate Settled(g: Setting, w: Weights) {
    g.live <= g.names && g.absent <= g.names && w.Keys <= g.names && g.absent !! w.Keys
  }

  /** On any inputs the two graphs give the same values to every wanted name. */
  ghost predicate SameMeaning(g: Setting, ops: seq<Op>, w: Weights, ops': seq<Op>, w': Weights) {
    forall inputs: Store, x {:trigger Get(Run(g.kernel, ops', Start(inputs, w')), x)} ::
        g.absent !! inputs.Keys && x in g.live ==>
      Get(Run(g.kernel, ops, Start(inputs, w)), x) == Get(Run(g.kernel, ops', Start(inputs, w')), x)
  }

  lemma OptimizeKeepsMeaning(g: Setting, ops: seq<Op>, w: Weights)
    requires Settled(g, w) && WellFormed(g, ops, w)
    ensures SameMeaning(g, ops, w, Optimize(ops, w).0, Optimize(ops, w).1)
  {
    hide Run, Start, WellFormed, Optimize;
    forall inputs: Store, x | g.absent !! inputs.Keys && x in g.live
      ensures Get(Run(g.kernel, ops, Start(inputs, w)), x)
           == Get(Run(g.kernel, Optimize(ops, w).0, Start(inputs, Optimize(ops, w).1)), x)
    {
      OptimizePreserves(g, ops, w, inputs);
    }
  }
}
