/** A graph that the optimiser may be used on: it fuses the first run with its gate and merges the second one. */
module GraphExample {
  import opened GraphSemantics
  import opened GraphMerge
  import opened GraphOptimizer
  import opened GraphConditions

  const GATE_RUN := [Linear("x", "w1", "", "y1"), Linear("x", "w2", "", "y2")]
  const SPLIT_RUN := [Linear("y1", "w3", "", "z1"), Linear("y1", "w4", "", "z2")]
  const OPS := GATE_RUN + [Silu("y1", "y1"), MulTo("y1", "y2")] + SPLIT_RUN
  const NAMES := {"x", "w1", "w2", "w3", "w4", "", "y1", "y2", "z1", "z2"}
  const LIVE := {"y1", "z1", "z2"}

  function Cell(n: int): Data {
    Data(7, [1, 1], [n], -1, -1, -1, [], [], [], [])
  }

  function CellWeights(): Weights {
    map["w1" := Cell(1), "w2" := Cell(2), "w3" := Cell(3), "w4" := Cell(4)]
  }

  /** A type that takes one byte for each entry. */
  ghost predicate OneByte(k: Kernel) {
    forall a: nat, b: nat :: k.bytesOf(7, [a, b]) == a * b
  }

  lemma TwoCells(k: Kernel, m: int, n: int)
    requires OneByte(k)
    ensures Stackable(k, [Cell(m), Cell(n)])
  {
    var ds := [Cell(m), Cell(n)];
    assert RowLens(ds) == [1, 1] && AllBytes(ds) == [[m], [n]];
    assert Even(AllBytes(ds), RowLens(ds), 1);
    assert Even(AllConfigs(ds), RowLens(ds), 0) && Even(AllZeros(ds), RowLens(ds), 0);
    assert Even(AllScales(ds), RowLens(ds), 0) && Even(AllMins(ds), RowLens(ds), 0);
    assert [1, 1][..1] == [1] && [1][..0] == [] && Sum([]) == 0 && Sum([1]) == 1 && Sum([1, 1]) == 2;
    assert [[m], [n]][..1] == [[m]] && [[m]][..0] == [] && Flatten<int>([]) == [];
    assert Flatten([[m]]) == [] + [m] == [m] && Flatten([[m], [n]]) == [m] + [n] == [m, n];
    assert k.bytesOf(7, [1, 1]) == 1 && k.bytesOf(7, [2, 1]) == 2;
  }

  /** What the optimiser makes of a run of two without biases. */
  lemma TwoNames(input: string, a: string, b: string, y: string, z: string)
    ensures var run := [Linear(input, a, "", y), Linear(input, b, "", z)];
      && IsRun(run) && WeightName(run) == a + b && BiasName(run) == ""
          && MidName(run) == y + "___merge___" + (z + "___merge___")
      && WeightNames(run) == {a, b}
  {
    var run := [Linear(input, a, "", y), Linear(input, b, "", z)];
    var one := [run[0]];
    assert run[..1] == one && one[..0] == [];
    assert WeightName([]) == "" && BiasName([]) == "" && MidName([]) == "";
    assert WeightName(one) == "" + a == a;
    assert BiasName(one) == "" + "" == "";
    assert MidName(one) == "" + (y + "___merge___") == y + "___merge___";
    assert run[0].weight in WeightNames(run) && run[1].weight in WeightNames(run);
  }

  lemma GateNames()
    ensures WeightName(GATE_RUN) == "w1w2" && BiasName(GATE_RUN) == "" && WeightNames(GATE_RUN) == {"w1", "w2"}
    ensures MidName(GATE_RUN) == "y1___merge___y2___merge___"
  {
    TwoNames("x", "w1", "w2", "y1", "y2");
  }

  lemma SplitNames()
    ensures WeightName(SPLIT_RUN) == "w3w4" && BiasName(SPLIT_RUN) == "" && WeightNames(SPLIT_RUN) == {"w3", "w4"}
    ensures MidName(SPLIT_RUN) == "z1___merge___z2___merge___"
  {
    TwoNames("y1", "w3", "w4", "z1", "z2");
  }

  lemma Fronts()
    ensures Front(OPS) == GATE_RUN && Behind(OPS) == OPS[2..] && OPS[0..] == OPS
    ensures Front(OPS[4..]) == SPLIT_RUN && Behind(OPS[4..]) == []
  {
    assert RunLength(OPS[1..]) == 1;
    assert RunLength(OPS) == 2;
    assert OPS[4..] == SPLIT_RUN && RunLength(SPLIT_RUN[1..]) == 1 && RunLength(SPLIT_RUN) == 2;
  }

  /** Runs begin at the first op and at the fifth. */
  lemma Merging(i: nat)
    ensures MergesAt(OPS, CellWeights(), i) <==> i == 0 || i == 4
    ensures MergesAt(OPS, CellWeights(), 0) && RunAt(OPS, CellWeights(), 0) == GATE_RUN
    ensures MergesAt(OPS, CellWeights(), 4) && RunAt(OPS, CellWeights(), 4) == SPLIT_RUN
    ensures Fuses(OPS, CellWeights()) && !Fuses(OPS[4..], CellWeights())
  {
    Fronts();
    var w := CellWeights();
    assert UniformBias(GATE_RUN, w) && UniformBias(SPLIT_RUN, w);
    assert OPS[1 - 1..] == OPS && OPS[5 - 1..] == OPS[4..];
    assert !Begins(OPS, w, 1) && !Begins(OPS, w, 5);
    assert i < |OPS| ==> OPS[i..][0] == OPS[i];
  }

  lemma OpsFine(g: Setting)
    requires g.names == NAMES && g.live == LIVE && g.absent == {""}
    ensures forall i :: 0 <= i < |OPS| ==> OpOk(g, OPS[i], CellWeights())
  {
  }

  lemma GateFine(g: Setting)
    requires g.names == NAMES && g.live == LIVE && g.absent == {""} && OneByte(g.kernel)
    ensures MergeOk(g, GATE_RUN, OPS[2..], CellWeights())
    ensures IsGate(GATE_RUN, OPS[2..]) && GateOk(g, GATE_RUN, OPS[2..], CellWeights())
  {
    var w := CellWeights();
    TwoCells(g.kernel, 1, 2);
    GateNames();
    OpsFine(g);
    hide Stackable;
    assert RunWeights(GATE_RUN, w) == [Cell(1), Cell(2)];
    assert forall i :: 0 <= i < |OPS[2..]| ==> OPS[2..][i] == OPS[i + 2];
    assert GATE_RUN[0] == OPS[0] && GATE_RUN[1] == OPS[1];
    assert Unused("w1", OPS[2..]) && Unused("w2", OPS[2..]);
    assert OPS[2..][2..] == SPLIT_RUN && SPLIT_RUN[1..] == [SPLIT_RUN[1]];
    assert Dead("y2", SPLIT_RUN[1..][1..], LIVE) && Dead("y2", SPLIT_RUN[1..], LIVE) && Dead("y2", SPLIT_RUN, LIVE);
  }

  lemma SplitFine(g: Setting)
    requires g.names == NAMES && g.live == LIVE && g.absent == {""} && OneByte(g.kernel)
    ensures MergeOk(g, SPLIT_RUN, [], CellWeights())
  {
    var w := CellWeights();
    TwoCells(g.kernel, 3, 4);
    SplitNames();
    OpsFine(g);
    hide Stackable;
    assert RunWeights(SPLIT_RUN, w) == [Cell(3), Cell(4)];
    assert SPLIT_RUN[0] == OPS[4] && SPLIT_RUN[1] == OPS[5];
  }

  lemma ReadOnce()
    ensures forall l: nat :: l < 4 ==> Reads(OPS[l]) !! WeightNames(SPLIT_RUN)
  {
    SplitNames();
    hide WeightNames;
  }

  lemma NamesDiffer()
    ensures MergesAt(OPS, CellWeights(), 0) && MergesAt(OPS, CellWeights(), 4)
    ensures NamesApart(OPS, CellWeights(), 0, 0) && NamesApart(OPS, CellWeights(), 4, 4)
    ensures NamesApart(OPS, CellWeights(), 0, 4) && NamesApart(OPS, CellWeights(), 4, 0)
  {
    Merging(0);
    GateNames();
    SplitNames();
    hide MergesAt, RunAt, MidName, WeightName, BiasName;
    assert |MidName(GATE_RUN)| == 26 && |MidName(SPLIT_RUN)| == 26;
    assert "w1w2"[1] != "w3w4"[1];
  }

  /** The graph meets the conditions. */
  lemma ExampleAcceptable(g: Setting)
    requires g.names == NAMES && g.live == LIVE && g.absent == {""} && OneByte(g.kernel)
    ensures Acceptable(g, OPS, CellWeights()) && WellFormed(g, OPS, CellWeights())
    ensures Fuses(OPS, CellWeights()) && Merges(OPS[4..], CellWeights())
  {
    var w := CellWeights();
    Merging(0);
    Fronts();
    OpsFine(g);
    GateFine(g);
    SplitFine(g);
    GateNames();
    SplitNames();
    assert RunOk(g, OPS, w, 0) && RunOk(g, OPS, w, 4);
    ReadOnce();
    NamesDiffer();
    hide MergesAt, RunOk, RunAt, OpOk, NamesApart, WeightNames, Merges, Fuses, Front, Behind;
    forall i: nat ensures MergesAt(OPS, w, i) <==> i == 0 || i == 4 {
      Merging(i);
    }
    AcceptableWellFormed(g, OPS, w);
  }
}
