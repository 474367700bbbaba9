/** The interpreter as it works: it appends to the output and changes the variables in place. */
module JinjaRendering {
  import opened Wrappers
  import opened JinjaValues
  import opened JinjaExpressions
  import opened JinjaTemplates
  import opened JinjaInterpreter

  /** The variables and the output that all nested calls share. */
  class Rendering {
    var local: Env
    var ret: string

    constructor (local: Env)
      ensures this.local == local && ret == ""
    {
      this.local, ret := local, "";
    }

    ghost function S(): State
      reads this
    {
      State(local, ret)
    }
  }

  /** The state after a call is the one that the function gives, or the call failed. */
  ghost predicate Gives(ok: bool, s: State, expected: Option<State>) {
    ok == expected.Some? && (ok ==> expected == Some(s))
  }

  class JinjaTemplate {
    const blocks: seq<Block>

    constructor (blocks: seq<Block>)
      ensures this.blocks == blocks
    {
      this.blocks := blocks;
    }

    method SearchEndFor(i: nat, end: nat) returns (endPos: int)
      requires end <= |blocks|
      ensures FindEndFor(blocks, i + 1, end, 0) == if endPos == -1 then None else Some(endPos)
      ensures endPos == -1 || i < endPos < end
    {
      endPos := -1;
      var cnt := 0;
      var j := i + 1;
      while j < end
        invariant i < j && endPos == -1 && cnt >= 0
            && FindEndFor(blocks, i + 1, end, 0) == FindEndFor(blocks, j, end, cnt)
      {
        if blocks[j].For? {
          cnt := cnt + 1;
        } else if blocks[j].EndFor? {
          if cnt == 0 {
            endPos := j;
            return;
          }
          cnt := cnt - 1;
        }
        j := j + 1;
      }
    }

    method SearchEndIf(i: nat, end: nat) returns (elsePos: int, endPos: int)
      requires i < end <= |blocks|
      ensures FindEndIf(blocks, i + 1, end, 0, None)
           == if endPos == -1 then None else Some((if elsePos == -1 then None else Some(elsePos), endPos))
      ensures endPos == -1 || (i < endPos <= end && endPos < |blocks| && (elsePos == -1 || i < elsePos < endPos))
    {
      elsePos, endPos := -1, -1;
      var cnt := 0;
      var j := i + 1;
      while j <= end && j < |blocks|
        invariant i < j && endPos == -1 && cnt >= 0 && (elsePos == -1 || i < elsePos < j)
        invariant FindEndIf(blocks, i + 1, end, 0, None)
            == FindEndIf(blocks, j, end, cnt, if elsePos == -1 then None else Some(elsePos))
      {
        if blocks[j].If? {
          cnt := cnt + 1;
        } else if blocks[j].Else? {
          if cnt == 0 && elsePos == -1 {
            elsePos := j;
          }
        } else if blocks[j].ElseIf? {
          if cnt == 0 && elsePos == -1 {
            elsePos := j;
          }
        } else if blocks[j].EndIf? {
          if cnt == 0 {
            endPos := j;
            return;
          }
          cnt := cnt - 1;
        }
        j := j + 1;
      }
    }

    /** Interprets the blocks from st to end. */
    method Parse(st: nat, end: nat, r: Rendering) returns (ok: bool)
      requires end <= |blocks|
      modifies r
      ensures Gives(ok, r.S(), ParseRange(blocks, st, end, old(r.S())))
      decreases end - st, 1
    {
      var i := st;
      while i < end
        invariant st <= i && ParseRange(blocks, st, end, old(r.S())) == ParseRange(blocks, i, end, r.S())
      {
        var next;
        ok, next := ParseBlock(i, end, r);
        if !ok {
          return;
        }
        i := next;
      }
      ok := true;
    }

    /** Interprets the block at i, with the blocks that belong to it. */
    method ParseBlock(i: nat, end: nat, r: Rendering) returns (ok: bool, next: nat)
      requires i < end <= |blocks|
      modifies r
      ensures i < next
      ensures ok ==> ParseRange(blocks, i, end, old(r.S())) == ParseRange(blocks, next, end, r.S())
      ensures !ok ==> ParseRange(blocks, i, end, old(r.S())).None?
      decreases end - i, 0
    {
      next := i + 1;
      match blocks[i] {
        case Original(value) =>
          r.ret := r.ret + value;
          ok := true;
        case Var(tokens) =>
          var v := ComputeExpression(r.local, tokens, 0, |tokens|);
          assert tokens[0..|tokens|] == tokens;
          ok := v.Some?;
          if ok {
            r.ret := r.ret + DirectValue(v.value);
          }
        case Set(id, tokens) =>
          var v := ComputeExpression(r.local, tokens, 0, |tokens|);
          assert tokens[0..|tokens|] == tokens;
          ok := v.Some?;
          if ok {
            r.local := r.local[id := v.value];
          }
        case For(id, tokens) =>
          ok, next := ParseFor(i, end, id, tokens, r);
        case If(tokens) =>
          ok, next := ParseIf(i, end, tokens, r);
        case ElseIf(tokens) =>
          ok, next := ParseIf(i, end, tokens, r);
        case _ =>
          ok := false;
      }
    }

    method ParseFor(i: nat, end: nat, id: string, tokens: seq<Token>, r: Rendering) returns (ok: bool, next: nat)
      requires i < end <= |blocks| && blocks[i] == For(id, tokens)
      modifies r
      ensures i < next
      ensures ok ==> ParseRange(blocks, i, end, old(r.S())) == ParseRange(blocks, next, end, r.S())
      ensures !ok ==> ParseRange(blocks, i, end, old(r.S())).None?
      decreases end - i, 0, 0
    {
      ok, next := false, i + 1;
      var endPos := SearchEndFor(i, end);
      if endPos == -1 {
        return;
      }
      var exp := ComputeExpression(r.local, tokens, 0, |tokens|);
      assert tokens[0..|tokens|] == tokens;
      if exp.None? {
        return;
      }
      var items := Iterated(exp.value);
      if items.None? {
        return;
      }
      var original := Lookup(r.local, id);
      r.local := r.local["loop" := LOOP_START];
      ok := ParseTurnsOf(i + 1, endPos, id, items.value.0, items.value.1, r);
      if ok {
        r.local := r.local[id := original];
        next := endPos + 1;
      }
    }

    /** One pass over the body for each value. */
    method ParseTurnsOf(st: nat, end: nat, id: string, items: seq<JinjaVar>, size: nat, r: Rendering) returns (ok: bool)
      requires st <= end <= |blocks|
      modifies r
      ensures Gives(ok, r.S(), ParseLoop(blocks, st, end, id, items, size, old(r.S())))
      decreases end - st, 2
    {
      var k := 0;
      assert items[0..] == items;
      while k < |items|
        invariant 0 <= k <= |items|
        invariant ParseLoop(blocks, st, end, id, items, size, old(r.S()))
            == ParseLoop(blocks, st, end, id, items[k..], size, r.S())
      {
        assert items[k..][0] == items[k] && items[k..][1..] == items[k + 1..];
        r.local := r.local[id := items[k]];
        ok := Parse(st, end, r);
        if !ok {
          return;
        }
        var next := Advance(r.local, size);
        if next.None? {
          return false;
        }
        r.local := next.value;
        k := k + 1;
      }
      ok := true;
    }

    method ParseIf(i: nat, end: nat, tokens: seq<Token>, r: Rendering) returns (ok: bool, next: nat)
      requires i < end <= |blocks| && (blocks[i] == If(tokens) || blocks[i] == ElseIf(tokens))
      modifies r
      ensures i < next
      ensures ok ==> ParseRange(blocks, i, end, old(r.S())) == ParseRange(blocks, next, end, r.S())
      ensures !ok ==> ParseRange(blocks, i, end, old(r.S())).None?
      decreases end - i, 0, 0
    {
      ok, next := false, i + 1;
      ParseAtBranch(blocks, i, end, tokens, r.S());
      var elsePos, endPos := SearchEndIf(i, end);
      if endPos == -1 {
        return;
      }
      var exp := ComputeExpression(r.local, tokens, 0, |tokens|);
      assert tokens[0..|tokens|] == tokens;
      if exp.None? {
        return;
      }
      var c := BoolValue(exp.value);
      if c.None? {
        return;
      }
      if c.value {
        if elsePos != -1 {
          ok := Parse(i + 1, elsePos, r);
        } else {
          ok := Parse(i + 1, endPos, r);
        }
      } else if elsePos != -1 {
        var nextPos := if blocks[elsePos].Else? then elsePos + 1 else elsePos;
        ok := Parse(nextPos, endPos, r);
      } else {
        ok := true;
      }
      next := endPos + 1;
    }

    /** Renders the template with the given variables. */
    method Apply(env: Env, ghost t: Template) returns (ok: bool, ret: string)
      requires blocks == Flatten(t)
      ensures var end := Exec(t, State(env, "")); ok == end.Some? && (ok ==> ret == end.value.out)
    {
      var r := new Rendering(env);
      ok := Parse(0, |blocks|, r);
      ParseMeaning(t, State(env, ""));
      ret := r.ret;
    }
  }
}
