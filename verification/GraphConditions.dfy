/** Conditions on a graph and its weights, as they are before the optimiser starts, under which it may be used. */
module GraphConditions {
  import opened GraphSemantics
  import opened GraphMerge
  import opened GraphOptimizer

  /** A turn of the optimiser can begin at op i: the op is not behind another one of the same run, unless only some ops
      from there on have a bias. */
  predicate Begins(ops: seq<Op>, w: Weights, i: nat)
    requires i < |ops|
  {
    || i == 0 || !ops[i - 1].Linear? || !ops[i].Linear? || ops[i - 1].input != ops[i].input
    || !UniformBias(Front(ops[i - 1..]), w)
  }

  /** The run at op i is merged. */
  predicate MergesAt(ops: seq<Op>, w: Weights, i: nat) {
    i < |ops| && Begins(ops, w, i) && Merges(ops[i..], w)
  }

  function RunAt(ops: seq<Op>, w: Weights, i: nat): (run: seq<Op>)
    requires MergesAt(ops, w, i)
    ensures IsRun(run)
  {
    Front(ops[i..])
  }

  /** The names that merging the run at op i adds to the weights. */
  function NewNames(ops: seq<Op>, w: Weights, i: nat): set<string>
    requires MergesAt(ops, w, i)
  {
    {WeightName(RunAt(ops, w, i)), BiasName(RunAt(ops, w, i))}
  }

  /** Every run that will be merged can be, on the weights as they are; its weights are read by no other op; and runs
      get different names. */
  ghost predicate Acceptable(g: Setting, ops: seq<Op>, w: Weights) {
    && w.Keys <= g.names
    && (forall i :: 0 <= i < |ops| ==> OpOk(g, ops[i], w))
    && (forall i: nat :: MergesAt(ops, w, i) ==> RunOk(g, ops, w, i))
    && (forall i: nat, l: nat :: MergesAt(ops, w, i) && l < i ==> Reads(ops[l]) !! WeightNames(RunAt(ops, w, i)))
    && (forall i: nat, j: nat :: MergesAt(ops, w, i) && MergesAt(ops, w, j) ==> NamesApart(ops, w, i, j))
  }

  ghost predicate RunOk(g: Setting, ops: seq<Op>, w: Weights, i: nat)
    requires MergesAt(ops, w, i)
  {
    && MergeOk(g, Front(ops[i..]), Behind(ops[i..]), w)
    && (Fuses(ops[i..], w) ==> GateOk(g, Front(ops[i..]), Behind(ops[i..]), w))
  }

  ghost predicate NamesApart(ops: seq<Op>, w: Weights, i: nat, j: nat)
    requires MergesAt(ops, w, i) && MergesAt(ops, w, j)
  {
    && MidName(RunAt(ops, w, i)) !in NewNames(ops, w, j)
    && (i != j ==> WeightName(RunAt(ops, w, i)) !in NewNames(ops, w, j))
    && (i != j && BiasName(RunAt(ops, w, i)) != "" ==> BiasName(RunAt(ops, w, i)) !in NewNames(ops, w, j))
  }

  /** The names made for a run are none of these. */
  ghost predicate FreshNames(names: set<string>, run: seq<Op>, w: Weights)
    requires IsRun(run)
  {
    && WeightName(run) !in names
    && (run[0].bias in w || BiasName(run) != "" ==> BiasName(run) !in names)
  }

  /** The weights of a run that is merged are not read behind it, and the names made for it are new. */
  ghost predicate TidyRun(names: set<string>, ops: seq<Op>, w: Weights, i: nat)
    requires MergesAt(ops, w, i)
  {
    var run := RunAt(ops, w, i);
    && (forall k :: 0 <= k < |run| ==> Unused(run[k].weight, Behind(ops[i..])))
    && FreshNames(names, run, w)
  }

  /** What it takes for every turn to find its op and weights as they were: the ops read only these names, and all runs
      are tidy. */
  ghost predicate Tidy(names: set<string>, ops: seq<Op>, w: Weights) {
    && (forall i :: 0 <= i < |ops| ==> Reads(ops[i]) <= names)
    && (forall i: nat :: MergesAt(ops, w, i) ==> TidyRun(names, ops, w, i))
  }

  lemma AcceptableTidy(g: Setting, ops: seq<Op>, w: Weights)
    requires Acceptable(g, ops, w)
    ensures Tidy(g.names, ops, w)
  {
    forall i | 0 <= i < |ops| ensures Reads(ops[i]) <= g.names {
      assert OpOk(g, ops[i], w);
    }
    forall i: nat | MergesAt(ops, w, i) ensures TidyRun(g.names, ops, w, i) {
      assert RunOk(g, ops, w, i);
    }
  }

  /** The optimiser has reached op i, with the weights v: original ones, less those of runs before i, and new ones of
      such runs. */
  ghost predicate Reached(names: set<string>, ops: seq<Op>, w: Weights, i: nat, v: Weights) {
    && i <= |ops| && (i < |ops| ==> Begins(ops, w, i))
    && (forall x :: x in v && x in names ==> x in w && v[x] == w[x])
    && (forall x :: x in w && x !in v ==> Erased(ops, w, i, x))
    && (forall x :: x in v && x !in w ==> Added(ops, w, i, x))
  }

  ghost predicate Erased(ops: seq<Op>, w: Weights, i: nat, x: string) {
    exists j :: RunBefore(ops, w, j, i) && x in WeightNames(RunAt(ops, w, j))
  }

  ghost predicate Added(ops: seq<Op>, w: Weights, i: nat, x: string) {
    exists j :: RunBefore(ops, w, j, i) && x in NewNames(ops, w, j)
  }

  /** No run from op i on takes the weight x away. */
  ghost predicate Spared(ops: seq<Op>, w: Weights, i: nat, x: string) {
    forall j: nat :: i <= j && MergesAt(ops, w, j) ==> x !in WeightNames(RunAt(ops, w, j))
  }

  predicate RunBefore(ops: seq<Op>, w: Weights, j: nat, i: nat) {
    MergesAt(ops, w, j) && j + RunLength(ops[j..]) <= i
  }

  /** What an op from i on reads is still as it was. */
  lemma StillThere(names: set<string>, ops: seq<Op>, w: Weights, i: nat, v: Weights, m: nat, x: string)
    requires Tidy(names, ops, w) && Reached(names, ops, w, i, v) && i <= m < |ops| && x in Reads(ops[m])
    ensures x in names && (x in v <==> x in w) && (x in v && x in w ==> v[x] == w[x])
  {
    hide MergesAt, Begins, TidyRun;
    if x in w && x !in v {
      var j :| RunBefore(ops, w, j, i) && x in WeightNames(RunAt(ops, w, j));
      UnusedBehind(names, ops, w, j, m, x);
    }
  }

  lemma UnusedBehind(names: set<string>, ops: seq<Op>, w: Weights, j: nat, m: nat, x: string)
    requires MergesAt(ops, w, j) && TidyRun(names, ops, w, j) && j + RunLength(ops[j..]) <= m < |ops|
    requires x in WeightNames(RunAt(ops, w, j))
    ensures x !in Reads(ops[m])
  {
    var rest := Behind(ops[j..]);
    assert rest[m - j - RunLength(ops[j..])] == ops[m];
  }

  /** The turn at op i goes as on the original weights. */
  lemma SameTurn(names: set<string>, ops: seq<Op>, w: Weights, i: nat, v: Weights)
    requires Tidy(names, ops, w) && Reached(names, ops, w, i, v) && i < |ops|
    ensures Merges(ops[i..], v) <==> Merges(ops[i..], w)
    ensures Fuses(ops[i..], v) <==> Fuses(ops[i..], w)
    ensures Merges(ops[i..], w) ==> MergesAt(ops, w, i)
    ensures ops[i].Linear? ==> var run := Front(ops[i..]);
              && RunWeights(run, v) == RunWeights(run, w) && RunBiases(run, v) == RunBiases(run, w)
              && forall k :: 0 <= k < |run| ==> (run[k].bias in v <==> run[k].bias in w) && (run[k].weight in v <==>
                  run[k].weight in w)
  {
    hide Tidy, Reached;
    ReachedHere(names, ops, w, i, v);
    if ops[i].Linear? {
      var run := Front(ops[i..]);
      forall k | 0 <= k < |run|
        ensures (run[k].bias in v <==> run[k].bias in w) && (run[k].weight in v <==> run[k].weight in w)
        ensures Lookup(v, run[k].bias) == Lookup(w, run[k].bias) && Lookup(v, run[k].weight) == Lookup(w, run[k].weight)
      {
        assert run[k] == ops[i + k];
        StillThere(names, ops, w, i, v, i + k, run[k].bias);
        StillThere(names, ops, w, i, v, i + k, run[k].weight);
      }
    }
  }

  lemma ReachedHere(names: set<string>, ops: seq<Op>, w: Weights, i: nat, v: Weights)
    requires Reached(names, ops, w, i, v) && i < |ops|
    ensures Begins(ops, w, i)
  {
  }

  lemma NewName(g: Setting, ops: seq<Op>, w: Weights, i: nat, v: Weights, x: string)
    requires Acceptable(g, ops, w) && Reached(g.names, ops, w, i, v) && MergesAt(ops, w, i) && x !in w
    requires x == WeightName(RunAt(ops, w, i)) || (x == BiasName(RunAt(ops, w, i)) && x != "")
    ensures x !in v
  {
    hide MergesAt, MergeOk, RunOk;
    forall j: nat | RunBefore(ops, w, j, i) ensures x !in NewNames(ops, w, j) {
      assert NamesApart(ops, w, i, j);
    }
  }

  lemma BiasNamed(g: Setting, run: seq<Op>, rest: seq<Op>, w: Weights)
    requires IsRun(run) && MergeOk(g, run, rest, w) && w.Keys <= g.names
    ensures run[0].bias in w ==> BiasName(run) != ""
  {
    if BiasName(run) == "" {
      EmptyBias(run);
    }
  }

  /** A run that can be merged on the original weights can be merged on those that the optimiser finds. */
  lemma MergeStillOk(g: Setting, ops: seq<Op>, w: Weights, i: nat, v: Weights)
    requires Acceptable(g, ops, w) && Reached(g.names, ops, w, i, v) && i < |ops| && Merges(ops[i..], w)
    ensures MergeOk(g, Front(ops[i..]), Behind(ops[i..]), v)
    ensures Fuses(ops[i..], w) ==> GateOk(g, Front(ops[i..]), Behind(ops[i..]), v)
  {
    AcceptableTidy(g, ops, w);
    SameTurn(g.names, ops, w, i, v);
    var run, rest := Front(ops[i..]), Behind(ops[i..]);
    assert RunOk(g, ops, w, i) && run == RunAt(ops, w, i);
    forall k | 0 <= k < |run| ensures OpOk(g, run[k], v) {
      assert OpOk(g, run[k], w);
    }
    assert run[0] == ops[i];
    StillThere(g.names, ops, w, i, v, i, run[0].input);
    NewName(g, ops, w, i, v, WeightName(run));
    BiasNamed(g, run, rest, w);
    if run[0].bias in w || BiasName(run) != "" {
      NewName(g, ops, w, i, v, BiasName(run));
    }
    hide Stackable, BiasStackable, Unused, Dead;
    if Fuses(ops[i..], w) {
      assert Lookup(v, run[0].weight) == RunWeights(run, v)[0] && Lookup(v, run[1].weight) == RunWeights(run, v)[1];
      assert Lookup(w, run[0].weight) == RunWeights(run, w)[0] && Lookup(w, run[1].weight) == RunWeights(run, w)[1];
    }
  }

  lemma {:induction false} EmptyBias(run: seq<Op>)
    requires (forall i :: 0 <= i < |run| ==> run[i].Linear?) && BiasName(run) == "" && run != []
    ensures run[0].bias == ""
    decreases |run|
  {
    if |run| > 1 {
      EmptyBias(run[..|run| - 1]);
    }
  }

  /** What one turn does to the weights. */
  lemma AfterFacts(names: set<string>, ops: seq<Op>, w: Weights, i: nat, v: Weights)
    requires Tidy(names, ops, w) && Reached(names, ops, w, i, v) && i < |ops|
    ensures var v' := After(ops[i..], v);
      && (forall x :: x in v' && x in names ==> x in v && v'[x] == v[x])
      && (forall x :: x in v && x !in v' ==>
          Merges(ops[i..], v) && MergesAt(ops, w, i) && x in WeightNames(RunAt(ops, w, i)))
      && (forall x :: x in v' && x !in v ==> Merges(ops[i..], v) && MergesAt(ops, w, i) && x in NewNames(ops, w, i))
  {
    SameTurn(names, ops, w, i, v);
    if Merges(ops[i..], v) {
      var run := Front(ops[i..]);
      assert TidyRun(names, ops, w, i) && run == RunAt(ops, w, i);
      MergedNames(names, run, w, v);
      hide Tidy, Reached, MergedMap;
    }
  }

  lemma MoreBefore(ops: seq<Op>, w: Weights, i: nat, m: nat, x: string)
    requires i <= m
    ensures Erased(ops, w, i, x) ==> Erased(ops, w, m, x)
    ensures Added(ops, w, i, x) ==> Added(ops, w, m, x)
    ensures Spared(ops, w, i, x) ==> Spared(ops, w, m, x)
  {
    hide MergesAt, RunAt;
    assert forall j :: RunBefore(ops, w, j, i) ==> RunBefore(ops, w, j, m);
  }

  lemma TurnBefore(ops: seq<Op>, w: Weights, i: nat, v: Weights, x: string)
    requires i < |ops| && MergesAt(ops, w, i) && Merges(ops[i..], v)
    ensures x in WeightNames(RunAt(ops, w, i)) ==> Erased(ops, w, i + Taken(ops[i..], v), x)
    ensures x in NewNames(ops, w, i) ==> Added(ops, w, i + Taken(ops[i..], v), x)
  {
    assert RunBefore(ops, w, i, i + Taken(ops[i..], v));
    hide MergesAt, RunBefore, RunAt;
  }

  /** The next turn. */
  lemma ReachedNext(names: set<string>, ops: seq<Op>, w: Weights, i: nat, v: Weights)
    requires Tidy(names, ops, w) && Reached(names, ops, w, i, v) && i < |ops|
    ensures Reached(names, ops, w, i + Taken(ops[i..], v), After(ops[i..], v))
  {
    hide Tidy, MergesAt, Merges, Taken, After, RunAt, Begins, Erased, Added, NewNames;
    NextBegins(names, ops, w, i, v);
    AfterFacts(names, ops, w, i, v);
    var n, v' := Taken(ops[i..], v), After(ops[i..], v);
    forall x | x in w && x !in v' ensures Erased(ops, w, i + n, x) {
      MoreBefore(ops, w, i, i + n, x);
      if x in v {
        TurnBefore(ops, w, i, v, x);
      }
    }
    forall x | x in v' && x !in w ensures Added(ops, w, i + n, x) {
      MoreBefore(ops, w, i, i + n, x);
      if x !in v {
        TurnBefore(ops, w, i, v, x);
      }
    }
  }

  /** What merging a run with fresh names does to the weights. */
  lemma MergedNames(names: set<string>, run: seq<Op>, w: Weights, v: Weights)
    requires IsRun(run) && FreshNames(names, run, w) && (run[0].bias in v <==> run[0].bias in w)
    ensures var v' := MergedMap(run, v);
      && (forall x :: x in v' && x in names ==> x in v && v'[x] == v[x])
      && (forall x :: x in v && x !in v' ==> x in WeightNames(run))
      && (forall x :: x in v' && x !in v ==> x == WeightName(run) || x == BiasName(run))
  {
  }

  lemma NextBegins(names: set<string>, ops: seq<Op>, w: Weights, i: nat, v: Weights)
    requires Tidy(names, ops, w) && Reached(names, ops, w, i, v) && i < |ops|
    ensures var n := Taken(ops[i..], v); i + n <= |ops| && (i + n < |ops| ==> Begins(ops, w, i + n))
  {
    SameTurn(names, ops, w, i, v);
    var n := Taken(ops[i..], v);
    if Fuses(ops[i..], v) {
      assert Behind(ops[i..])[1] == ops[i + 3];
    } else if Merges(ops[i..], v) {
      assert ops[i..][n - 1] == ops[i + n - 1];
      assert i + n < |ops| ==> ops[i..][n] == ops[i + n];
    } else if i + 1 < |ops| {
      assert ops[i..][1] == ops[i + 1];
    }
  }

  /** From any op that the optimiser reaches, the rest of the graph is well-formed; at the end there are only original
      and new names, and all that no later run takes away. */
  lemma {:induction false} ReachedWellFormed(g: Setting, ops: seq<Op>, w: Weights, i: nat, v: Weights)
    requires Acceptable(g, ops, w) && Reached(g.names, ops, w, i, v)
    ensures RestOk(g, ops, w, i, v)
    decreases if i <= |ops| then |ops| - i else 0
  {
    hide *;
    AcceptableTidy(g, ops, w);
    Within(g.names, ops, w, i, v);
    if i == |ops| {
      EndOk(g, ops, w, v);
    } else {
      ReachedNext(g.names, ops, w, i, v);
      NextBegins(g.names, ops, w, i, v);
      ReachedWellFormed(g, ops, w, i + Taken(ops[i..], v), After(ops[i..], v));
      OneMore(g, ops, w, i, v);
    }
  }

  lemma Within(names: set<string>, ops: seq<Op>, w: Weights, i: nat, v: Weights)
    requires Reached(names, ops, w, i, v)
    ensures i <= |ops|
  {
  }

  ghost predicate RestOk(g: Setting, ops: seq<Op>, w: Weights, i: nat, v: Weights) {
    && i <= |ops| && WellFormed(g, ops[i..], v)
    && var final := Optimize(ops[i..], v).1;
    && (forall x :: x in final && x !in w ==> Added(ops, w, |ops|, x))
    && (forall x :: x in v && Spared(ops, w, i, x) ==> x in final)
  }

  lemma EndOk(g: Setting, ops: seq<Op>, w: Weights, v: Weights)
    requires Reached(g.names, ops, w, |ops|, v)
    ensures RestOk(g, ops, w, |ops|, v)
  {
    hide MergesAt, RunAt, Added, Spared;
    NothingLeft(g, v);
    assert ops[|ops|..] == [];
  }

  lemma OneMore(g: Setting, ops: seq<Op>, w: Weights, i: nat, v: Weights)
    requires Acceptable(g, ops, w) && Reached(g.names, ops, w, i, v) && i < |ops|
    requires RestOk(g, ops, w, i + Taken(ops[i..], v), After(ops[i..], v))
    ensures RestOk(g, ops, w, i, v)
  {
    hide StepOk, Optimize, WellFormed, Taken, After, Acceptable, Reached, MergesAt, RunAt, Added, Spared;
    var m := i + Taken(ops[i..], v);
    assert ops[i..][m - i..] == ops[m..];
    OneTurn(g, ops[i..], v);
    KeptKeys(g, ops, w, i, v);
    forall x ensures Spared(ops, w, i, x) ==> Spared(ops, w, m, x)
             ensures Spared(ops, w, i + 1, x) ==> Spared(ops, w, m, x)
    {
      MoreBefore(ops, w, i, m, x);
      MoreBefore(ops, w, i + 1, m, x);
    }
    TurnOk(g, ops, w, i, v, Optimize(ops[m..], After(ops[i..], v)).1);
  }

  lemma NothingLeft(g: Setting, v: Weights)
    ensures WellFormed(g, [], v) && Optimize([], v).1 == v
  {
  }

  lemma OneTurn(g: Setting, ops: seq<Op>, v: Weights)
    requires ops != []
    ensures Optimize(ops, v).1 == Optimize(ops[Taken(ops, v)..], After(ops, v)).1
    ensures WellFormed(g, ops, v) <==>
        StepOk(g, ops, v, Optimize(ops, v).1) && WellFormed(g, ops[Taken(ops, v)..], After(ops, v))
  {
    hide StepOk, Taken, After;
  }

  /** One turn takes away the weights of the run at op i and no others. */
  lemma KeptKeys(g: Setting, ops: seq<Op>, w: Weights, i: nat, v: Weights)
    requires Acceptable(g, ops, w) && Reached(g.names, ops, w, i, v) && i < |ops|
    ensures forall x :: x in v && Spared(ops, w, i, x) ==> x in After(ops[i..], v)
  {
    AcceptableTidy(g, ops, w);
    SameTurn(g.names, ops, w, i, v);
    if Merges(ops[i..], v) {
      MergeStillOk(g, ops, w, i, v);
      MergedMapKeys(g, Front(ops[i..]), Behind(ops[i..]), v);
      hide MergeOk, MergedMap;
    }
  }

  lemma TurnOk(g: Setting, ops: seq<Op>, w: Weights, i: nat, v: Weights, final: Weights)
    requires Acceptable(g, ops, w) && Reached(g.names, ops, w, i, v) && i < |ops|
    requires forall x :: x in final && x !in w ==> Added(ops, w, |ops|, x)
    requires forall x :: x in After(ops[i..], v) && Spared(ops, w, i + 1, x) ==> x in final
    ensures StepOk(g, ops[i..], v, final)
  {
    AcceptableTidy(g, ops, w);
    SameTurn(g.names, ops, w, i, v);
    if Merges(ops[i..], v) {
      MergeStillOk(g, ops, w, i, v);
      MidIsNew(g, ops, w, i, final);
      hide MergeOk, GateOk, Acceptable, Reached, MidName, Merges;
    } else {
      var op := ops[i];
      assert OpOk(g, op, w);
      ReadSpared(g, ops, w, i);
      hide Acceptable, Reached, Spared, MergesAt, Added;
    }
  }

  /** What an op reads is not the weight of a later run. */
  lemma ReadSpared(g: Setting, ops: seq<Op>, w: Weights, i: nat)
    requires Acceptable(g, ops, w) && i < |ops|
    ensures forall x :: x in Reads(ops[i]) ==> Spared(ops, w, i + 1, x)
  {
    hide MergesAt, RunOk, RunAt;
  }

  lemma MidIsNew(g: Setting, ops: seq<Op>, w: Weights, i: nat, final: Weights)
    requires Acceptable(g, ops, w) && MergesAt(ops, w, i)
    requires forall x :: x in final && x !in w ==> Added(ops, w, |ops|, x)
    ensures MidName(RunAt(ops, w, i)) !in final
  {
    var mid := MidName(RunAt(ops, w, i));
    assert RunOk(g, ops, w, i);
    assert mid !in g.names && mid !in w;
    hide MergesAt, MergeOk, RunOk;
    forall j: nat | MergesAt(ops, w, j) ensures mid !in NewNames(ops, w, j) {
      assert NamesApart(ops, w, i, j);
    }
  }

  /** The conditions on the original graph are enough. */
  lemma AcceptableWellFormed(g: Setting, ops: seq<Op>, w: Weights)
    requires Acceptable(g, ops, w)
    ensures WellFormed(g, ops, w)
  {
    assert ops[0..] == ops;
    ReachedWellFormed(g, ops, w, 0, w);
  }
}
