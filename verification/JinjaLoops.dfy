/** The loop record during a run of a loop: when `loop.last` can be trusted. */
module JinjaLoops {
  import opened Wrappers
  import opened JinjaValues
  import opened JinjaExpressions
  import opened JinjaTemplates

  /** No loop and no assignment to `loop`, at any depth. */
  predicate LeavesLoop(t: Template) {
    match t
    case Empty => true
    case Then(first, rest) => NodeLeavesLoop(first) && LeavesLoop(rest)
  }

  predicate NodeLeavesLoop(n: Node) {
    match n
    case Plain(_) => true
    case Output(_) => true
    case Assign(id, _) => id != "loop"
    case Loop(_, _, _) => false
    case Branch(_, body, tail) => LeavesLoop(body) && TailLeavesLoop(tail)
  }

  predicate TailLeavesLoop(tail: Tail) {
    match tail
    case Done => true
    case Otherwise(body) => LeavesLoop(body)
    case OtherwiseIf(_, body, rest) => LeavesLoop(body) && TailLeavesLoop(rest)
  }

  lemma {:induction false} ExecKeepsLoop(t: Template, s: State)
    requires LeavesLoop(t) && Exec(t, s).Some?
    ensures SameLoop(s.env, Exec(t, s).value.env)
    decreases t, 0
  {
    match t
    case Empty =>
    case Then(first, rest) =>
      NodeKeepsLoop(first, s);
      ExecKeepsLoop(rest, ExecNode(first, s).value);
  }

  predicate SameLoop(a: Env, b: Env) {
    ("loop" in a <==> "loop" in b) && ("loop" in a && "loop" in b ==> a["loop"] == b["loop"])
  }

  lemma {:induction false} NodeKeepsLoop(n: Node, s: State)
    requires NodeLeavesLoop(n) && ExecNode(n, s).Some?
    ensures SameLoop(s.env, ExecNode(n, s).value.env)
    decreases n, 0
  {
    match n
    case Plain(_) =>
    case Output(_) =>
    case Assign(_, _) =>
    case Branch(tokens, body, tail) =>
      if Condition(tokens, s).value {
        ExecKeepsLoop(body, s);
      } else {
        TailKeepsLoop(tail, s);
      }
  }

  lemma {:induction false} TailKeepsLoop(tail: Tail, s: State)
    requires TailLeavesLoop(tail) && ExecTail(tail, s).Some?
    ensures SameLoop(s.env, ExecTail(tail, s).value.env)
    decreases tail, 0
  {
    match tail
    case Done =>
    case Otherwise(body) => ExecKeepsLoop(body, s);
    case OtherwiseIf(tokens, body, rest) =>
      if Condition(tokens, s).value {
        ExecKeepsLoop(body, s);
      } else {
        TailKeepsLoop(rest, s);
      }
  }

  /** The state in which turn k of a loop runs its body; none if the loop stops with an error before. */
  function TurnStart(id: string, body: Template, items: seq<JinjaVar>, size: nat, s: State, k: nat): Option<State>
    requires k < |items|
    decreases k
  {
    var start := State(s.env[id := items[0]], s.out);
    if k == 0 then Some(start)
    else
      var mid := Exec(body, start);
      if mid.None? || Advance(mid.value.env, size).None? then None
      else TurnStart(id, body, items[1..], size, State(Advance(mid.value.env, size).value, mid.value.out), k - 1)
  }

  /** What is left of a loop when turn k begins. */
  function FromTurn(id: string, body: Template, items: seq<JinjaVar>, size: nat, start: State, k: nat): Option<State>
    requires k < |items|
  {
    var mid := Exec(body, start);
    if mid.None? || Advance(mid.value.env, size).None? then None
    else ExecLoop(id, body, items[k + 1..], size, State(Advance(mid.value.env, size).value, mid.value.out))
  }

  /** The turns make up the loop: from the start of any turn on, the rest of the loop is that turn and the turns behind
      it. */
  lemma {:induction false} TurnsOfLoop(id: string, body: Template, items: seq<JinjaVar>, size: nat, s: State, k: nat)
    requires k < |items|
    ensures var start := TurnStart(id, body, items, size, s, k);
      ExecLoop(id, body, items, size, s) == if start.None? then None
          else FromTurn(id, body, items, size, start.value, k)
    decreases k
  {
    if k > 0 {
      var mid := Exec(body, State(s.env[id := items[0]], s.out));
      if mid.Some? && Advance(mid.value.env, size).Some? {
        TurnsOfLoop(id, body, items[1..], size, State(Advance(mid.value.env, size).value, mid.value.out), k - 1);
        assert items[1..][k - 1 + 1..] == items[k + 1..];
      }
    }
  }

  /** A body that leaves `loop` alone finds the record of its turn in every turn. */
  lemma {:induction false} TurnRecord(id: string, body: Template, items: seq<JinjaVar>, size: nat, s: State, k: nat,
      done: nat)
    requires LeavesLoop(body) && id != "loop" && k < |items|
    requires "loop" in s.env && s.env["loop"] == Record(done, size)
    requires TurnStart(id, body, items, size, s, k).Some?
    ensures var start := TurnStart(id, body, items, size, s, k).value;
      "loop" in start.env && start.env["loop"] == Record(done + k, size)
    decreases k
  {
    if k > 0 {
      var start := State(s.env[id := items[0]], s.out);
      var mid := Exec(body, start).value;
      ExecKeepsLoop(body, start);
      AdvanceRecord(mid.env, done, size);
      TurnRecord(id, body, items[1..], size, State(Advance(mid.env, size).value, mid.out), k - 1, done + 1);
    }
  }

  /** In every turn of this loop, `loop.last` says whether the turn is the last one. */
  ghost predicate LastIsRight(id: string, body: Template, items: seq<JinjaVar>, size: nat, s: State) {
    forall k :: 0 <= k < |items| && TurnStart(id, body, items, size, s, k).Some? ==>
      RightIn(TurnStart(id, body, items, size, s, k).value.env, k, |items|)
  }

  predicate RightIn(env: Env, k: nat, n: nat) {
    && "loop" in env && env["loop"].Dict? && "last" in env["loop"].entries
    && env["loop"].entries["last"] == FromBool(k + 1 == n)
  }

  // --- any body ---

  /** The state that the body leaves behind in turn k. */
  function TurnEnd(id: string, body: Template, items: seq<JinjaVar>, size: nat, s: State, k: nat): Option<State>
    requires k < |items|
  {
    var start := TurnStart(id, body, items, size, s, k);
    if start.None? then None else Exec(body, start.value)
  }

  lemma {:induction false} NextTurn(id: string, body: Template, items: seq<JinjaVar>, size: nat, s: State, k: nat)
    requires k + 1 < |items| && TurnEnd(id, body, items, size, s, k).Some?
    ensures var end := TurnEnd(id, body, items, size, s, k).value; var next := Advance(end.env, size);
      TurnStart(id, body, items, size, s, k + 1)
      == if next.None? then None else Some(State(next.value[id := items[k + 1]], end.out))
    decreases k
  {
    if k > 0 {
      var mid := Exec(body, State(s.env[id := items[0]], s.out)).value;
      NextTurn(id, body, items[1..], size, State(Advance(mid.env, size).value, mid.out), k - 1);
    }
  }

  /** In a loop that runs through, every turn begins, ends, and leaves a record that can be advanced. */
  lemma RunsThrough(id: string, body: Template, items: seq<JinjaVar>, size: nat, s: State, k: nat)
    requires k < |items| && ExecLoop(id, body, items, size, s).Some?
    ensures TurnStart(id, body, items, size, s, k).Some? && TurnEnd(id, body, items, size, s, k).Some?
    ensures Advance(TurnEnd(id, body, items, size, s, k).value.env, size).Some?
  {
    TurnsOfLoop(id, body, items, size, s, k);
  }

  /** What the body leaves behind makes the program say of the next turn whether it is the last one: `last` is still a
      number, and counting `index` up reaches the size exactly if the next turn is the last one. */
  predicate Announces(env: Env, size: nat, nextIsLast: bool) {
    && "loop" in env && env["loop"].Dict?
    && Lookup(env["loop"].entries, "last").Int?
    && (Bump(Lookup(env["loop"].entries, "index")) == Int(size) <==> nextIsLast)
  }

  lemma AdvanceSays(env: Env, size: nat, nextIsLast: bool)
    requires Advance(env, size).Some?
    ensures var next := Advance(env, size).value;
      && "loop" in next && next["loop"].Dict? && "last" in next["loop"].entries
      && (next["loop"].entries["last"] == FromBool(nextIsLast) <==> Announces(env, size, nextIsLast))
  {
    assert FromBool(true) != FromBool(false);
  }

  /** In every turn but the last one, the body leaves the right announcement behind. */
  ghost predicate AllAnnounced(id: string, body: Template, items: seq<JinjaVar>, size: nat, s: State) {
    forall k: nat :: k + 1 < |items| && TurnEnd(id, body, items, size, s, k).Some? ==>
      Announces(TurnEnd(id, body, items, size, s, k).value.env, size, k + 2 == |items|)
  }

  lemma FirstRight(id: string, body: Template, items: seq<JinjaVar>, size: nat, s: State)
    requires id != "loop" && "loop" in s.env && s.env["loop"] == LOOP_START && items != []
    ensures TurnStart(id, body, items, size, s, 0).Some?
    ensures RightIn(TurnStart(id, body, items, size, s, 0).value.env, 0, |items|) <==> |items| != 1
  {
    assert FromBool(true) != FromBool(false);
  }

  lemma LaterRight(id: string, body: Template, items: seq<JinjaVar>, size: nat, s: State, k: nat)
    requires id != "loop" && k + 1 < |items| && ExecLoop(id, body, items, size, s).Some?
    ensures TurnStart(id, body, items, size, s, k + 1).Some? && TurnEnd(id, body, items, size, s, k).Some?
    ensures RightIn(TurnStart(id, body, items, size, s, k + 1).value.env, k + 1, |items|)
       <==> Announces(TurnEnd(id, body, items, size, s, k).value.env, size, k + 2 == |items|)
  {
    hide Exec, ExecLoop, TurnStart, TurnEnd, Announces, Advance;
    RunsThrough(id, body, items, size, s, k);
    NextTurn(id, body, items, size, s, k);
    AdvanceSays(TurnEnd(id, body, items, size, s, k).value.env, size, k + 2 == |items|);
  }

  /** For any body, nested loops and assignments included, in a loop that runs through: `loop.last` is right in all
      turns if and only if there is no turn, or there are several and each turn leaves the right announcement for the
      next. */
  lemma LastInAnyRun(id: string, body: Template, items: seq<JinjaVar>, size: nat, s: State)
    requires id != "loop" && "loop" in s.env && s.env["loop"] == LOOP_START
    requires ExecLoop(id, body, items, size, s).Some?
    ensures LastIsRight(id, body, items, size, s) <==>
            |items| == 0 || (|items| > 1 && AllAnnounced(id, body, items, size, s))
  {
    hide Exec, ExecLoop, TurnStart, TurnEnd, RightIn, Announces;
    var n := |items|;
    forall k: nat | k + 1 < n
      ensures TurnStart(id, body, items, size, s, k + 1).Some? && TurnEnd(id, body, items, size, s, k).Some?
      ensures RightIn(TurnStart(id, body, items, size, s, k + 1).value.env, k + 1, n)
         <==> Announces(TurnEnd(id, body, items, size, s, k).value.env, size, k + 2 == n)
    {
      LaterRight(id, body, items, size, s, k);
    }
    if n > 0 {
      FirstRight(id, body, items, size, s);
    }
    if n > 1 && AllAnnounced(id, body, items, size, s) {
      forall k: nat | 0 < k < n
        ensures TurnStart(id, body, items, size, s, k).Some?
        ensures RightIn(TurnStart(id, body, items, size, s, k).value.env, k, n)
      {
        var j: nat := k - 1;
        assert TurnEnd(id, body, items, size, s, j).Some?;
      }
    }
  }

  /** The record that turn k leaves behind still has numbers in it, and index is its `index`. */
  predicate LeavesIndex(env: Env, index: int) {
    && "loop" in env && env["loop"].Dict? && Lookup(env["loop"].entries, "last").Int?
    && Lookup(env["loop"].entries, "index") == Int(index)
  }

  /** In numbers: if turn k leaves `index` at indices[k], then `loop.last` is right in all turns if and only if there is
      no turn, or there are several, the turn before the last one leaves size - 1, and no earlier turn does. */
  lemma LastByIndices(id: string, body: Template, items: seq<JinjaVar>, size: nat, s: State, indices: seq<int>)
    requires id != "loop" && "loop" in s.env && s.env["loop"] == LOOP_START
    requires ExecLoop(id, body, items, size, s).Some? && |indices| == |items|
    requires forall k :: 0 <= k < |items| && TurnEnd(id, body, items, size, s, k).Some? ==>
               LeavesIndex(TurnEnd(id, body, items, size, s, k).value.env, indices[k])
    ensures LastIsRight(id, body, items, size, s) <==>
            var n := |items|;
            n == 0 || (n > 1 && indices[n - 2] + 1 == size && forall k :: 0 <= k < n - 2 ==> indices[k] + 1 != size)
  {
    LastInAnyRun(id, body, items, size, s);
    var n := |items|;
    forall k: nat | k + 1 < n
      ensures TurnEnd(id, body, items, size, s, k).Some?
      ensures Announces(TurnEnd(id, body, items, size, s, k).value.env, size, k + 2 == n)
         <==> (indices[k] + 1 == size <==> k + 2 == n)
    {
      RunsThrough(id, body, items, size, s, k);
    }
    hide TurnEnd, Announces, LastIsRight, ExecLoop;
    if n > 1 {
      var k := n - 2;
      assert TurnEnd(id, body, items, size, s, k).Some?;
    }
  }

  // --- bodies that leave `loop` alone ---

  /** For a loop whose body leaves `loop` alone, and which runs through: `loop.last` is right in all turns over an array
      if and only if the array has not just one value, and over a dictionary if and only if that is empty. */
  lemma LastInRun(id: string, body: Template, v: JinjaVar, s: State)
    requires LeavesLoop(body) && id != "loop" && (v.Array? || v.Dict?)
    requires "loop" in s.env && s.env["loop"] == LOOP_START
    requires var (items, size) := Iterated(v).value; ExecLoop(id, body, items, size, s).Some?
    ensures var (items, size) := Iterated(v).value;
      LastIsRight(id, body, items, size, s) <==> if v.Array? then |v.items| != 1 else v.entries == map[]
  {
    var (items, size) := Iterated(v).value;
    var indices := seq(|items|, k requires 0 <= k < |items| => k + 1);
    AdvanceRecord(s.env, 0, size);
    forall k: nat | k < |items|
      ensures TurnEnd(id, body, items, size, s, k).Some?
      ensures LeavesIndex(TurnEnd(id, body, items, size, s, k).value.env, indices[k])
    {
      RunsThrough(id, body, items, size, s, k);
      TurnRecord(id, body, items, size, s, k, 0);
      ExecKeepsLoop(body, TurnStart(id, body, items, size, s, k).value);
    }
    LastByIndices(id, body, items, size, s, indices);
    NoValues(v);
  }

  lemma NoValues(v: JinjaVar)
    requires v.Array? || v.Dict?
    ensures v.Dict? ==> (Iterated(v).value.0 == [] <==> v.entries == map[]) && Iterated(v).value.1 == 0
  {
    if v.Dict? && v.entries != map[] {
      assert v.entries.Keys != {};
      assert |ValuesInOrder(v.entries)| > 0;
    }
  }

  // --- a loop around a loop ---

  /** A body that is one loop. */
  function OnlyLoop(id: string, tokens: seq<Token>, body: Template): Template {
    Then(Loop(id, tokens, body), Empty)
  }

  /** A loop leaves its own record behind, counted up once for every turn it had. */
  lemma InnerRecord(id: string, tokens: seq<Token>, body: Template, s: State)
    requires LeavesLoop(body) && id != "loop" && Exec(OnlyLoop(id, tokens, body), s).Some?
    ensures Compute(s.env, tokens).Some? && Iterated(Compute(s.env, tokens).value).Some?
    ensures LeavesIndex(Exec(OnlyLoop(id, tokens, body), s).value.env,
                        |Iterated(Compute(s.env, tokens).value).value.0| + 1)
  {
    assert Exec(OnlyLoop(id, tokens, body), s) == ExecNode(Loop(id, tokens, body), s);
    var (items, size) := Iterated(Compute(s.env, tokens).value).value;
    var s' := State(s.env["loop" := LOOP_START], s.out);
    AdvanceRecord(s'.env, 0, size);
    LoopRecord(id, body, items, size, s', 0);
  }

  lemma {:induction false} LoopRecord(id: string, body: Template, items: seq<JinjaVar>, size: nat, s: State, done: nat)
    requires LeavesLoop(body) && id != "loop" && ExecLoop(id, body, items, size, s).Some?
    requires "loop" in s.env && s.env["loop"] == Record(done, size)
    ensures var env := ExecLoop(id, body, items, size, s).value.env;
      "loop" in env && env["loop"] == Record(done + |items|, size)
    decreases |items|
  {
    if items != [] {
      var start := State(s.env[id := items[0]], s.out);
      var mid := Exec(body, start).value;
      ExecKeepsLoop(body, start);
      AdvanceRecord(mid.env, done, size);
      LoopRecord(id, body, items[1..], size, State(Advance(mid.env, size).value, mid.out), done + 1);
    }
  }

  /** How many turns the inner loop has in turn k of the outer one. */
  ghost predicate InnerTurns(id: string, tokens: seq<Token>, start: Option<State>, m: nat) {
    && start.Some? && Compute(start.value.env, tokens).Some? && Iterated(Compute(start.value.env, tokens).value).Some?
    && |Iterated(Compute(start.value.env, tokens).value).value.0| == m
  }

  /** Around an inner loop over any values, which may differ from turn to turn, and with any body that leaves `loop`
      alone: if the inner loop has turns[k] turns in turn k, then `loop.last` of the outer loop is right in all turns if
      and only if there is no turn, or there are several, turns[n - 2] is size - 2, and no earlier one is. */
  lemma NestedLoop(id: string, innerId: string, tokens: seq<Token>, body: Template, items: seq<JinjaVar>, size: nat,
      s: State, turns: seq<nat>)
    requires id != "loop" && innerId != "loop" && LeavesLoop(body) && |turns| == |items|
    requires "loop" in s.env && s.env["loop"] == LOOP_START
    requires ExecLoop(id, OnlyLoop(innerId, tokens, body), items, size, s).Some?
    requires forall k :: 0 <= k < |items| ==>
               InnerTurns(innerId, tokens, TurnStart(id, OnlyLoop(innerId, tokens, body), items, size, s, k), turns[k])
    ensures LastIsRight(id, OnlyLoop(innerId, tokens, body), items, size, s) <==>
            var n := |items|;
            n == 0 || (n > 1 && turns[n - 2] + 2 == size && forall k :: 0 <= k < n - 2 ==> turns[k] + 2 != size)
  {
    var outer := OnlyLoop(innerId, tokens, body);
    var indices := seq(|items|, k requires 0 <= k < |items| => turns[k] + 1);
    forall k: nat | k < |items|
      ensures TurnEnd(id, outer, items, size, s, k).Some?
      ensures LeavesIndex(TurnEnd(id, outer, items, size, s, k).value.env, indices[k])
    {
      RunsThrough(id, outer, items, size, s, k);
      assert InnerTurns(innerId, tokens, TurnStart(id, outer, items, size, s, k), turns[k]);
      hide Exec, TurnStart, LeavesIndex;
      InnerRecord(innerId, tokens, body, TurnStart(id, outer, items, size, s, k).value);
    }
    hide TurnEnd, TurnStart, ExecLoop, LeavesIndex, LastIsRight;
    LastByIndices(id, outer, items, size, s, indices);
    assert forall k :: 0 <= k < |items| ==> indices[k] == turns[k] + 1;
  }

  /** If the inner loop has the same number of turns each time, in a loop over an array of n values: right in all turns
      if and only if n is 0, or n is 2 and the inner loop has no turn. */
  lemma SameInnerLoop(id: string, innerId: string, tokens: seq<Token>, body: Template, items: seq<JinjaVar>,
      s: State, m: nat)
    requires id != "loop" && innerId != "loop" && LeavesLoop(body)
    requires "loop" in s.env && s.env["loop"] == LOOP_START
    requires ExecLoop(id, OnlyLoop(innerId, tokens, body), items, |items|, s).Some?
    requires forall k :: 0 <= k < |items| ==>
               InnerTurns(innerId, tokens, TurnStart(id, OnlyLoop(innerId, tokens, body), items, |items|, s, k), m)
    ensures LastIsRight(id, OnlyLoop(innerId, tokens, body), items, |items|, s) <==>
            |items| == 0 || (|items| == 2 && m == 0)
  {
    var turns := seq(|items|, k requires 0 <= k < |items| => m);
    hide TurnStart, ExecLoop, LastIsRight, InnerTurns;
    NestedLoop(id, innerId, tokens, body, items, |items|, s, turns);
    if |items| > 2 {
      assert turns[0] == m && turns[|items| - 2] == m;
    }
  }

  /** A body that sets `loop` to a number stops any loop that has a turn. */
  lemma SetLoopFails(id: string, n: int, items: seq<JinjaVar>, size: nat, s: State)
    requires items != []
    ensures ExecLoop(id, Then(Assign("loop", [Operand(Int(n))]), Empty), items, size, s) == None
  {
    var body := Then(Assign("loop", [Operand(Int(n))]), Empty);
    var start := State(s.env[id := items[0]], s.out);
    ComputePrint(start.env, Leaf(Int(n)));
    assert Exec(body, start) == Some(State(start.env["loop" := Int(n)], start.out));
  }
}
