/** The interpreter of the flat list gives what the template means, for every template. */
module JinjaInterpreter {
  import opened Wrappers
  import opened JinjaValues
  import opened JinjaExpressions
  import opened JinjaTemplates

  /** The blocks of a piece of the template stand at pos. */
  predicate Placed(blocks: seq<Block>, pos: nat, piece: seq<Block>) {
    pos + |piece| <= |blocks| && blocks[pos..pos + |piece|] == piece
  }

  lemma PlacedSplit(blocks: seq<Block>, pos: nat, a: seq<Block>, b: seq<Block>)
    requires Placed(blocks, pos, a + b)
    ensures Placed(blocks, pos, a) && Placed(blocks, pos + |a|, b)
  {
    assert blocks[pos..pos + |a|] == (a + b)[..|a|] == a;
    assert blocks[pos + |a|..pos + |a| + |b|] == (a + b)[|a|..] == b;
  }

  lemma PlacedOne(blocks: seq<Block>, pos: nat, b: Block)
    requires Placed(blocks, pos, [b])
    ensures pos < |blocks| && blocks[pos] == b
  {
    assert blocks[pos] == blocks[pos..pos + 1][0];
  }

  /** Where the parts of a loop stand. */
  lemma PlacedLoop(blocks: seq<Block>, pos: nat, id: string, tokens: seq<Token>, body: Template)
    requires Placed(blocks, pos, FlattenNode(Loop(id, tokens, body)))
    ensures var endPos := pos + 1 + |Flatten(body)|;
      && endPos < |blocks| && blocks[pos] == For(id, tokens) && Placed(blocks, pos + 1, Flatten(body))
          && blocks[endPos] == EndFor
      && |FlattenNode(Loop(id, tokens, body))| == 1 + |Flatten(body)| + 1
  {
    hide Flatten, Placed;
    PlacedSplit(blocks, pos, [For(id, tokens)] + Flatten(body), [EndFor]);
    PlacedSplit(blocks, pos, [For(id, tokens)], Flatten(body));
    PlacedOne(blocks, pos, For(id, tokens));
    PlacedOne(blocks, pos + 1 + |Flatten(body)|, EndFor);
  }

  /** Where the parts of a branch stand. */
  lemma PlacedBranch(blocks: seq<Block>, pos: nat, head: Block, body: Template, tail: Tail)
    requires Placed(blocks, pos, [head] + Flatten(body) + FlattenTail(tail))
    ensures pos < |blocks| && blocks[pos] == head && Placed(blocks, pos + 1, Flatten(body))
    ensures Placed(blocks, pos + 1 + |Flatten(body)|, FlattenTail(tail))
  {
    hide Flatten, FlattenTail, Placed;
    PlacedSplit(blocks, pos, [head] + Flatten(body), FlattenTail(tail));
    PlacedSplit(blocks, pos, [head], Flatten(body));
    PlacedOne(blocks, pos, head);
  }

  // --- the search for the end of a loop passes over whole templates ---

  lemma ForStep(blocks: seq<Block>, j: nat, end: nat, cnt: nat)
    requires j < end <= |blocks|
    ensures FindEndFor(blocks, j, end, cnt)
         == if blocks[j].For? then FindEndFor(blocks, j + 1, end, cnt + 1)
            else if !blocks[j].EndFor? then FindEndFor(blocks, j + 1, end, cnt)
            else if cnt == 0 then Some(j) else FindEndFor(blocks, j + 1, end, cnt - 1)
  {
  }

  lemma IfStep(blocks: seq<Block>, j: nat, end: nat, cnt: nat, elsePos: Option<nat>)
    requires j <= end <= |blocks| && j < |blocks|
    ensures FindEndIf(blocks, j, end, cnt, elsePos)
         == if blocks[j].If? then FindEndIf(blocks, j + 1, end, cnt + 1, elsePos)
            else if blocks[j].Else? || blocks[j].ElseIf? then
              FindEndIf(blocks, j + 1, end, cnt, if cnt == 0 && elsePos.None? then Some(j) else elsePos)
            else if !blocks[j].EndIf? then FindEndIf(blocks, j + 1, end, cnt, elsePos)
            else if cnt == 0 then Some((elsePos, j)) else FindEndIf(blocks, j + 1, end, cnt - 1, elsePos)
  {
  }

  lemma {:induction false} SkipFor(blocks: seq<Block>, pos: nat, t: Template, end: nat, cnt: nat)
    requires end <= |blocks| && Placed(blocks, pos, Flatten(t)) && pos + |Flatten(t)| <= end
    ensures FindEndFor(blocks, pos, end, cnt) == FindEndFor(blocks, pos + |Flatten(t)|, end, cnt)
    decreases t
  {
    hide Placed, FindEndFor;
    match t
    case Empty =>
    case Then(first, rest) =>
      PlacedSplit(blocks, pos, FlattenNode(first), Flatten(rest));
      SkipForNode(blocks, pos, first, end, cnt);
      SkipFor(blocks, pos + |FlattenNode(first)|, rest, end, cnt);
  }

  lemma {:induction false} SkipForNode(blocks: seq<Block>, pos: nat, n: Node, end: nat, cnt: nat)
    requires end <= |blocks| && Placed(blocks, pos, FlattenNode(n)) && pos + |FlattenNode(n)| <= end
    ensures FindEndFor(blocks, pos, end, cnt) == FindEndFor(blocks, pos + |FlattenNode(n)|, end, cnt)
    decreases n
  {
    hide FindEndFor, Placed;
    match n
    case Plain(value) =>
      PlacedOne(blocks, pos, Original(value));
      ForStep(blocks, pos, end, cnt);
    case Output(tokens) =>
      PlacedOne(blocks, pos, Var(tokens));
      ForStep(blocks, pos, end, cnt);
    case Assign(id, tokens) =>
      PlacedOne(blocks, pos, Set(id, tokens));
      ForStep(blocks, pos, end, cnt);
    case Loop(id, tokens, body) =>
      PlacedLoop(blocks, pos, id, tokens, body);
      ForStep(blocks, pos, end, cnt);
      SkipFor(blocks, pos + 1, body, end, cnt + 1);
      ForStep(blocks, pos + 1 + |Flatten(body)|, end, cnt + 1);
    case Branch(tokens, body, tail) =>
      PlacedSplit(blocks, pos, [If(tokens)] + Flatten(body) + FlattenTail(tail), [EndIf]);
      PlacedBranch(blocks, pos, If(tokens), body, tail);
      ForStep(blocks, pos, end, cnt);
      SkipFor(blocks, pos + 1, body, end, cnt);
      SkipForTail(blocks, pos + 1 + |Flatten(body)|, tail, end, cnt);
      PlacedOne(blocks, pos + 1 + |Flatten(body)| + |FlattenTail(tail)|, EndIf);
      ForStep(blocks, pos + 1 + |Flatten(body)| + |FlattenTail(tail)|, end, cnt);
  }

  lemma {:induction false} SkipForTail(blocks: seq<Block>, pos: nat, tail: Tail, end: nat, cnt: nat)
    requires end <= |blocks| && Placed(blocks, pos, FlattenTail(tail)) && pos + |FlattenTail(tail)| <= end
    ensures FindEndFor(blocks, pos, end, cnt) == FindEndFor(blocks, pos + |FlattenTail(tail)|, end, cnt)
    decreases tail
  {
    match tail
    case Done =>
    case Otherwise(body) =>
      PlacedSplit(blocks, pos, [Else], Flatten(body));
      PlacedOne(blocks, pos, Else);
      SkipFor(blocks, pos + 1, body, end, cnt);
    case OtherwiseIf(tokens, body, rest) =>
      PlacedBranch(blocks, pos, ElseIf(tokens), body, rest);
      SkipFor(blocks, pos + 1, body, end, cnt);
      SkipForTail(blocks, pos + 1 + |Flatten(body)|, rest, end, cnt);
  }

  // --- and so does the search for the end of a branch ---

  lemma {:induction false} SkipIf(blocks: seq<Block>, pos: nat, t: Template, end: nat, cnt: nat, elsePos: Option<nat>)
    requires end <= |blocks| && Placed(blocks, pos, Flatten(t)) && pos + |Flatten(t)| <= end
    ensures FindEndIf(blocks, pos, end, cnt, elsePos) == FindEndIf(blocks, pos + |Flatten(t)|, end, cnt, elsePos)
    decreases t
  {
    hide Placed, FindEndIf;
    match t
    case Empty =>
    case Then(first, rest) =>
      PlacedSplit(blocks, pos, FlattenNode(first), Flatten(rest));
      SkipIfNode(blocks, pos, first, end, cnt, elsePos);
      SkipIf(blocks, pos + |FlattenNode(first)|, rest, end, cnt, elsePos);
  }

  lemma {:induction false} SkipIfNode(blocks: seq<Block>, pos: nat, n: Node, end: nat, cnt: nat, elsePos: Option<nat>)
    requires end <= |blocks| && Placed(blocks, pos, FlattenNode(n)) && pos + |FlattenNode(n)| <= end
    ensures FindEndIf(blocks, pos, end, cnt, elsePos) == FindEndIf(blocks, pos + |FlattenNode(n)|, end, cnt, elsePos)
    decreases n
  {
    hide FindEndIf, Placed;
    match n
    case Plain(value) =>
      PlacedOne(blocks, pos, Original(value));
      IfStep(blocks, pos, end, cnt, elsePos);
    case Output(tokens) =>
      PlacedOne(blocks, pos, Var(tokens));
      IfStep(blocks, pos, end, cnt, elsePos);
    case Assign(id, tokens) =>
      PlacedOne(blocks, pos, Set(id, tokens));
      IfStep(blocks, pos, end, cnt, elsePos);
    case Loop(id, tokens, body) =>
      PlacedLoop(blocks, pos, id, tokens, body);
      IfStep(blocks, pos, end, cnt, elsePos);
      SkipIf(blocks, pos + 1, body, end, cnt, elsePos);
      IfStep(blocks, pos + 1 + |Flatten(body)|, end, cnt, elsePos);
    case Branch(tokens, body, tail) =>
      PlacedSplit(blocks, pos, [If(tokens)] + Flatten(body) + FlattenTail(tail), [EndIf]);
      PlacedBranch(blocks, pos, If(tokens), body, tail);
      IfStep(blocks, pos, end, cnt, elsePos);
      SkipIf(blocks, pos + 1, body, end, cnt + 1, elsePos);
      SkipIfTail(blocks, pos + 1 + |Flatten(body)|, tail, end, cnt + 1, elsePos);
      PlacedOne(blocks, pos + 1 + |Flatten(body)| + |FlattenTail(tail)|, EndIf);
      IfStep(blocks, pos + 1 + |Flatten(body)| + |FlattenTail(tail)|, end, cnt + 1, elsePos);
  }

  /** The first alternative is noted, unless it belongs to a branch further inside or one was noted before. */
  lemma {:induction false} SkipIfTail(blocks: seq<Block>, pos: nat, tail: Tail, end: nat, cnt: nat,
      elsePos: Option<nat>)
    requires end <= |blocks| && Placed(blocks, pos, FlattenTail(tail)) && pos + |FlattenTail(tail)| <= end
    ensures FindEndIf(blocks, pos, end, cnt, elsePos)
         == FindEndIf(blocks, pos + |FlattenTail(tail)|, end, cnt, if cnt == 0 && elsePos.None?
             && !tail.Done? then Some(pos) else elsePos)
    decreases tail
  {
    hide FindEndIf, Placed;
    match tail
    case Done =>
    case Otherwise(body) =>
      PlacedSplit(blocks, pos, [Else], Flatten(body));
      PlacedOne(blocks, pos, Else);
      IfStep(blocks, pos, end, cnt, elsePos);
      SkipIf(blocks, pos + 1, body, end, cnt, if cnt == 0 && elsePos.None? then Some(pos) else elsePos);
    case OtherwiseIf(tokens, body, rest) =>
      PlacedBranch(blocks, pos, ElseIf(tokens), body, rest);
      IfStep(blocks, pos, end, cnt, elsePos);
      var noted := if cnt == 0 && elsePos.None? then Some(pos) else elsePos;
      SkipIf(blocks, pos + 1, body, end, cnt, noted);
      SkipIfTail(blocks, pos + 1 + |Flatten(body)|, rest, end, cnt, noted);
  }

  /** The search finds exactly the matching end of the loop. */
  lemma EndOfLoop(blocks: seq<Block>, pos: nat, id: string, tokens: seq<Token>, body: Template, end: nat)
    requires end <= |blocks| && Placed(blocks, pos, FlattenNode(Loop(id, tokens, body)))
        && pos + |FlattenNode(Loop(id, tokens, body))| <= end
    ensures FindEndFor(blocks, pos + 1, end, 0) == Some(pos + 1 + |Flatten(body)|)
  {
    PlacedLoop(blocks, pos, id, tokens, body);
    SkipFor(blocks, pos + 1, body, end, 0);
  }

  /** The search finds exactly the first alternative and the matching end of the branch. */
  lemma EndOfBranch(blocks: seq<Block>, pos: nat, head: Block, body: Template, tail: Tail, end: nat)
    requires end <= |blocks| && Placed(blocks, pos, [head] + Flatten(body) + FlattenTail(tail))
    requires pos + 1 + |Flatten(body)| + |FlattenTail(tail)| <= end
    requires pos + 1 + |Flatten(body)| + |FlattenTail(tail)| < |blocks|
        && blocks[pos + 1 + |Flatten(body)| + |FlattenTail(tail)|] == EndIf
    ensures FindEndIf(blocks, pos + 1, end, 0, None)
         == Some((if tail.Done? then None else Some(pos + 1 + |Flatten(body)|),
             pos + 1 + |Flatten(body)| + |FlattenTail(tail)|))
  {
    hide FindEndIf, Placed, FlattenTail, Flatten;
    PlacedBranch(blocks, pos, head, body, tail);
    SkipIf(blocks, pos + 1, body, end, 0, None);
    SkipIfTail(blocks, pos + 1 + |Flatten(body)|, tail, end, 0, None);
    IfStep(blocks, pos + 1 + |Flatten(body)| + |FlattenTail(tail)|, end, 0,
        if tail.Done? then None else Some(pos + 1 + |Flatten(body)|));
  }

  // --- running ---

  /** Running the rest of the range after a piece was run. */
  function Onward(blocks: seq<Block>, pos: nat, end: nat, s: Option<State>): Option<State>
    requires end <= |blocks|
  {
    if s.None? then None else ParseRange(blocks, pos, end, s.value)
  }

  /** Where the interpreter goes on when the condition does not hold: behind `else`, but at `elif`. */
  function TailFrom(tail: Tail, pos: nat): nat {
    if tail.Otherwise? then pos + 1 else pos
  }

  lemma TailStart(blocks: seq<Block>, pos: nat, tail: Tail)
    requires Placed(blocks, pos, FlattenTail(tail))
    ensures tail.Otherwise? ==> pos < |blocks| && blocks[pos] == Else
    ensures tail.OtherwiseIf? ==> pos < |blocks| && blocks[pos] == ElseIf(tail.tokens)
  {
    match tail
    case Done =>
    case Otherwise(body) =>
      PlacedSplit(blocks, pos, [Else], Flatten(body));
      PlacedOne(blocks, pos, Else);
    case OtherwiseIf(tokens, body, rest) =>
      PlacedBranch(blocks, pos, ElseIf(tokens), body, rest);
  }

  lemma ParseDone(blocks: seq<Block>, end: nat, s: Option<State>)
    requires end <= |blocks|
    ensures Onward(blocks, end + 1, end, s) == s
  {
  }

  lemma ParseSimple(blocks: seq<Block>, pos: nat, n: Node, end: nat, s: State)
    requires n.Plain? || n.Output? || n.Assign?
    requires end <= |blocks| && Placed(blocks, pos, FlattenNode(n)) && pos + |FlattenNode(n)| <= end
    ensures ParseRange(blocks, pos, end, s) == Onward(blocks, pos + |FlattenNode(n)|, end, ExecNode(n, s))
  {
    PlacedOne(blocks, pos, FlattenNode(n)[0]);
  }

  lemma ParseAtFor(blocks: seq<Block>, i: nat, end: nat, id: string, tokens: seq<Token>, body: Template, s: State)
    requires i < end <= |blocks| && blocks[i] == For(id, tokens)
        && FindEndFor(blocks, i + 1, end, 0) == Some(i + 1 + |Flatten(body)|)
    requires var v := Compute(s.env, tokens);
      v.Some? && Iterated(v.value).Some? ==>
        var items, inner := Iterated(v.value).value, State(s.env["loop" := LOOP_START], s.out);
        ParseLoop(blocks, i + 1, i + 1 + |Flatten(body)|, id, items.0, items.1, inner)
            == ExecLoop(id, body, items.0, items.1, inner)
    ensures ParseRange(blocks, i, end, s)
        == Onward(blocks, i + 1 + |Flatten(body)| + 1, end, ExecNode(Loop(id, tokens, body), s))
  {
    hide ParseLoop, ExecLoop, Compute, Iterated, FindEndFor, Flatten;
  }

  lemma ParseAtBranch(blocks: seq<Block>, i: nat, end: nat, tokens: seq<Token>, s: State)
    requires i < end <= |blocks| && (blocks[i] == If(tokens) || blocks[i] == ElseIf(tokens))
    ensures ParseRange(blocks, i, end, s) == ParseBranch(blocks, i, end, tokens, s)
  {
  }

  /** A condition with what is run when it holds and what is run otherwise. */
  function ExecArm(tokens: seq<Token>, body: Template, tail: Tail, s: State): Option<State> {
    var c := Condition(tokens, s);
    if c.None? then None else if c.value then Exec(body, s) else ExecTail(tail, s)
  }

  /** A branch, or an alternative with its own condition, given that its parts are run as they should. */
  lemma ParseArm(blocks: seq<Block>, pos: nat, head: Block, tokens: seq<Token>, body: Template, tail: Tail, end: nat,
      s: State)
    requires pos < end <= |blocks| && Placed(blocks, pos, [head] + Flatten(body) + FlattenTail(tail))
    requires pos + 1 + |Flatten(body)| + |FlattenTail(tail)| <= end
    requires pos + 1 + |Flatten(body)| + |FlattenTail(tail)| < |blocks|
        && blocks[pos + 1 + |Flatten(body)| + |FlattenTail(tail)|] == EndIf
    requires ParseRange(blocks, pos + 1, pos + 1 + |Flatten(body)|, s) == Exec(body, s)
    requires ParseRange(blocks, TailFrom(tail, pos + 1 + |Flatten(body)|),
        pos + 1 + |Flatten(body)| + |FlattenTail(tail)|, s) == ExecTail(tail, s)
    ensures ParseBranch(blocks, pos, end, tokens, s)
         == Onward(blocks, pos + 1 + |Flatten(body)| + |FlattenTail(tail)| + 1, end, ExecArm(tokens, body, tail, s))
  {
    hide ParseRange, Exec, Flatten, FindEndIf, Condition, Placed;
    EndOfBranch(blocks, pos, head, body, tail, end);
    PlacedBranch(blocks, pos, head, body, tail);
    TailStart(blocks, pos + 1 + |Flatten(body)|, tail);
  }

  lemma {:induction false} ParseTemplate(blocks: seq<Block>, pos: nat, t: Template, end: nat, s: State)
    requires end <= |blocks| && Placed(blocks, pos, Flatten(t)) && pos + |Flatten(t)| == end
    ensures ParseRange(blocks, pos, end, s) == Exec(t, s)
    decreases t, 0
  {
    match t
    case Empty =>
    case Then(first, rest) =>
      PlacedSplit(blocks, pos, FlattenNode(first), Flatten(rest));
      ParseNode(blocks, pos, first, end, s);
      var mid := ExecNode(first, s);
      if mid.Some? {
        ParseTemplate(blocks, pos + |FlattenNode(first)|, rest, end, mid.value);
      }
  }

  lemma {:induction false} ParseNode(blocks: seq<Block>, pos: nat, n: Node, end: nat, s: State)
    requires end <= |blocks| && Placed(blocks, pos, FlattenNode(n)) && pos + |FlattenNode(n)| <= end
    ensures ParseRange(blocks, pos, end, s) == Onward(blocks, pos + |FlattenNode(n)|, end, ExecNode(n, s))
    decreases n, 0
  {
    hide ParseRange, ExecLoop, Placed, Compute, Iterated, FindEndFor, FindEndIf, Condition, FlattenTail, ExecTail, Exec;
    match n
    case Plain(_) => ParseSimple(blocks, pos, n, end, s);
    case Output(_) => ParseSimple(blocks, pos, n, end, s);
    case Assign(_, _) => ParseSimple(blocks, pos, n, end, s);
    case Loop(id, tokens, body) =>
      PlacedLoop(blocks, pos, id, tokens, body);
      EndOfLoop(blocks, pos, id, tokens, body, end);
      var v := Compute(s.env, tokens);
      if v.Some? && Iterated(v.value).Some? {
        var items := Iterated(v.value).value;
        ParseTurns(blocks, pos + 1, body, id, items.0, items.1, State(s.env["loop" := LOOP_START], s.out));
      }
      ParseAtFor(blocks, pos, end, id, tokens, body, s);
    case Branch(tokens, body, tail) =>
      PlacedSplit(blocks, pos, [If(tokens)] + Flatten(body) + FlattenTail(tail), [EndIf]);
      PlacedOne(blocks, pos + 1 + |Flatten(body)| + |FlattenTail(tail)|, EndIf);
      PlacedBranch(blocks, pos, If(tokens), body, tail);
      ParseTemplate(blocks, pos + 1, body, pos + 1 + |Flatten(body)|, s);
      ParseTail(blocks, pos + 1 + |Flatten(body)|, tail, s);
      ParseArm(blocks, pos, If(tokens), tokens, body, tail, end, s);
      ParseAtBranch(blocks, pos, end, tokens, s);
  }

  lemma {:induction false} ParseTurns(blocks: seq<Block>, pos: nat, body: Template, id: string, items: seq<JinjaVar>,
      size: nat, s: State)
    requires Placed(blocks, pos, Flatten(body))
    ensures ParseLoop(blocks, pos, pos + |Flatten(body)|, id, items, size, s) == ExecLoop(id, body, items, size, s)
    decreases body, |items| + 1
  {
    if items != [] {
      var turn := State(s.env[id := items[0]], s.out);
      ParseTemplate(blocks, pos, body, pos + |Flatten(body)|, turn);
      var mid := Exec(body, turn);
      if mid.Some? {
        var next := Advance(mid.value.env, size);
        if next.Some? {
          ParseTurns(blocks, pos, body, id, items[1..], size, State(next.value, mid.value.out));
        }
      }
    }
  }

  /** An alternative, up to the end of its branch. */
  lemma {:induction false} ParseTail(blocks: seq<Block>, pos: nat, tail: Tail, s: State)
    requires Placed(blocks, pos, FlattenTail(tail)) && pos + |FlattenTail(tail)| < |blocks|
        && blocks[pos + |FlattenTail(tail)|] == EndIf
    ensures ParseRange(blocks, TailFrom(tail, pos), pos + |FlattenTail(tail)|, s) == ExecTail(tail, s)
    decreases tail, 0
  {
    var end := pos + |FlattenTail(tail)|;
    match tail
    case Done =>
    case Otherwise(body) =>
      PlacedSplit(blocks, pos, [Else], Flatten(body));
      ParseTemplate(blocks, pos + 1, body, end, s);
    case OtherwiseIf(tokens, body, rest) =>
      hide ParseRange, Placed, FindEndIf, Condition, Exec;
      PlacedBranch(blocks, pos, ElseIf(tokens), body, rest);
      ParseTemplate(blocks, pos + 1, body, pos + 1 + |Flatten(body)|, s);
      ParseTail(blocks, pos + 1 + |Flatten(body)|, rest, s);
      ParseArm(blocks, pos, ElseIf(tokens), tokens, body, rest, end, s);
      ParseAtBranch(blocks, pos, end, tokens, s);
      ParseDone(blocks, end, ExecArm(tokens, body, rest, s));
  }

  /** The interpreter, run on the blocks of a template, does what the template means. */
  lemma ParseMeaning(t: Template, s: State)
    ensures ParseRange(Flatten(t), 0, |Flatten(t)|, s) == Exec(t, s)
  {
    assert Flatten(t)[0..0 + |Flatten(t)|] == Flatten(t);
    ParseTemplate(Flatten(t), 0, t, |Flatten(t)|, s);
  }
}
