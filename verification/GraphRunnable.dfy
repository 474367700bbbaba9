/** Conditions on a graph and its weights, as they are before the optimiser starts, under which it can do its work at
    all, whether or not the result means the same. */
module GraphRunnable {
  import opened GraphSemantics
  import opened GraphMerge
  import opened GraphOptimizer
  import opened GraphRewriting
  import opened GraphConditions

  /** The weights of a run are there and distinct, and the buffers have the right sizes. */
  ghost predicate Fits(k: Kernel, run: seq<Op>, w: Weights)
    requires IsRun(run)
  {
    && Copyable(k, RunWeights(run, w))
    && (run[0].bias in w ==> BiasCopyable(k, RunBiases(run, w), RunWeights(run, w)))
    && (forall i :: 0 <= i < |run| ==> run[i].weight in w)
    && (forall i, j :: 0 <= i < j < |run| ==> run[i].weight != run[j].weight)
  }

  /** The ops read only these names, merged weights are not read behind their run, names made for runs are new, and
      every run that will be merged fits. */
  ghost predicate Testable(k: Kernel, names: set<string>, ops: seq<Op>, w: Weights) {
    && Tidy(names, ops, w)
    && forall i: nat :: MergesAt(ops, w, i) ==> Fits(k, RunAt(ops, w, i), w)
  }

  lemma MergeableHere(k: Kernel, names: set<string>, ops: seq<Op>, w: Weights, i: nat, v: Weights)
    requires Testable(k, names, ops, w) && Reached(names, ops, w, i, v) && i < |ops| && Merges(ops[i..], v)
    ensures Mergeable(k, Front(ops[i..]), v)
  {
    SameTurn(names, ops, w, i, v);
    var run := Front(ops[i..]);
    assert run == RunAt(ops, w, i) && Fits(k, run, w) && TidyRun(names, ops, w, i);
    forall l | 0 <= l < |run| ensures run[l].weight in names {
      assert run[l] == ops[i + l] && Reads(ops[i + l]) <= names;
    }
    hide Copyable, BiasCopyable, Tidy, Reached, MergesAt, RunAt;
    SameInMap(names, run, w, v);
  }

  lemma SameInMap(names: set<string>, run: seq<Op>, w: Weights, v: Weights)
    requires IsRun(run) && FreshNames(names, run, w) && (run[0].bias in v <==> run[0].bias in w)
    requires forall l :: 0 <= l < |run| ==> run[l].weight in v && run[l].weight in names
    ensures forall l :: 0 <= l < |run| ==>
              run[l].weight in WithBias(run, v) && WithBias(run, v)[run[l].weight] == v[run[l].weight]
    ensures WeightName(run) !in WeightNames(run)
  {
  }

  lemma {:induction false} ReachedRunnable(k: Kernel, names: set<string>, ops: seq<Op>, w: Weights, i: nat, v: Weights)
    requires Testable(k, names, ops, w) && Reached(names, ops, w, i, v) && i <= |ops|
    ensures Runnable(k, ops[i..], v)
    decreases |ops| - i
  {
    hide Mergeable, Taken, After, Merges, Tidy, Reached, MergesAt;
    if i < |ops| {
      ReachedNext(names, ops, w, i, v);
      NextBegins(names, ops, w, i, v);
      if Merges(ops[i..], v) {
        MergeableHere(k, names, ops, w, i, v);
      }
      ReachedRunnable(k, names, ops, w, i + Taken(ops[i..], v), After(ops[i..], v));
      assert ops[i..][Taken(ops[i..], v)..] == ops[i + Taken(ops[i..], v)..];
    }
  }

  /** The optimiser can do its work on every graph that passes this test. */
  lemma TestableRunnable(k: Kernel, names: set<string>, ops: seq<Op>, w: Weights)
    requires Testable(k, names, ops, w)
    ensures Runnable(k, ops, w)
  {
    assert ops[0..] == ops;
    ReachedRunnable(k, names, ops, w, 0, w);
  }
}
