/** Templates: the interpreter walks over a flat list of blocks and looks for the matching end of each loop and branch.
    */
module JinjaTemplates {
  import opened Wrappers
  import opened JinjaValues
  import opened JinjaExpressions

  /** A block of the template; the tokens are those of the expression in it. */
  datatype Block =
    | Original(value: string)
    | Var(tokens: seq<Token>)
    | For(id: string, tokens: seq<Token>)
    | EndFor
    | If(tokens: seq<Token>)
    | ElseIf(tokens: seq<Token>)
    | Else
    | EndIf
    | Set(id: string, tokens: seq<Token>)

  /** The variables, and the text that was produced so far. */
  datatype State = State(env: Env, out: string)

  function Digits(n: nat): string {
    if n < 10 then ["0123456789"[n]] else Digits(n / 10) + ["0123456789"[n % 10]]
  }

  function Padded(n: nat, width: nat): string {
    if width == 0 then "" else Padded(n / 10, width - 1) + ["0123456789"[n % 10]]
  }

  /** Six digits behind the point. */
  function FloatText(f: real): string {
    var m := ((if f < 0.0 then -f else f) * 1000000.0 + 0.5).Floor;
    (if f < 0.0 then "-" else "") + Digits(m / 1000000) + "." + Padded(m % 1000000, 6)
  }

  /** How a value appears in the output. */
  function DirectValue(v: JinjaVar): string {
    match v
    case Int(n) => if n < 0 then "-" + Digits(-n) else Digits(n)
    case Float(f) => FloatText(f)
    case _ => Text(v)
  }

  // --- the values of a dictionary, in the order of the keys ---

  predicate NotAfter(a: string, b: string) {
    a == "" || (b != "" && (a[0] < b[0] || (a[0] == b[0] && NotAfter(a[1..], b[1..]))))
  }

  lemma {:induction false} NotAfterOrder(a: string, b: string, c: string)
    ensures NotAfter(a, a) && (NotAfter(a, b) || NotAfter(b, a))
    ensures NotAfter(a, b) && NotAfter(b, a) ==> a == b
    ensures NotAfter(a, b) && NotAfter(b, c) ==> NotAfter(a, c)
    decreases |a| + |b| + |c|
  {
    if a != "" {
      NotAfterOrder(a[1..], if b == "" then b else b[1..], if c == "" then c else c[1..]);
      assert a == [a[0]] + a[1..];
      if b != "" {
        assert b == [b[0]] + b[1..];
      }
    }
  }

  predicate IsFirst(keys: set<string>, k: string) {
    k in keys && forall j :: j in keys ==> NotAfter(k, j)
  }

  lemma {:induction false} FirstExists(keys: set<string>)
    requires keys != {}
    ensures exists k :: IsFirst(keys, k)
    decreases |keys|
  {
    var x :| x in keys;
    var rest := keys - {x};
    if rest == {} {
      NotAfterOrder(x, x, x);
      forall j | j in keys ensures j == x {
        assert j == x || j in rest;
      }
      assert IsFirst(keys, x);
    } else {
      FirstExists(rest);
      var y :| IsFirst(rest, y);
      var k := if NotAfter(x, y) then x else y;
      NotAfterOrder(x, y, x);
      forall j | j in keys ensures NotAfter(k, j) {
        NotAfterOrder(x, y, j);
        NotAfterOrder(y, x, j);
      }
      assert IsFirst(keys, k);
    }
  }

  lemma FirstUnique(keys: set<string>, j: string, k: string)
    requires IsFirst(keys, j) && IsFirst(keys, k)
    ensures j == k
  {
    NotAfterOrder(j, k, j);
  }

  function FirstKey(keys: set<string>): (k: string)
    requires keys != {}
    ensures IsFirst(keys, k)
  {
    FirstExists(keys);
    assert forall j, k :: IsFirst(keys, j) && IsFirst(keys, k) ==> j == k by {
      forall j, k | IsFirst(keys, j) && IsFirst(keys, k) ensures j == k {
        FirstUnique(keys, j, k);
      }
    }
    var k :| k in keys && IsFirst(keys, k);
    k
  }

  function ValuesInOrder(entries: map<string, JinjaVar>): seq<JinjaVar>
    decreases |entries.Keys|
  {
    if entries.Keys == {} then []
    else
      var k := FirstKey(entries.Keys);
      var rest := entries - {k};
      assert rest.Keys == entries.Keys - {k};
      [entries[k]] + ValuesInOrder(rest)
  }

  // --- loop variables ---

  const LOOP_START := Dict(map["index" := Int(1), "index0" := Int(0), "first" := Int(1), "last" := Int(0)])

  function Lookup(env: Env, id: string): JinjaVar {
    if id in env then env[id] else Nothing("")
  }

  function Bump(v: JinjaVar): JinjaVar {
    if v.Int? then Int(v.n + 1) else v
  }

  /** The loop record for the next turn of a loop over an array of the given size; it must still be a record. */
  function Advance(env: Env, size: nat): Option<Env> {
    if "loop" in env && env["loop"].Dict? then
      var entries := env["loop"].entries;
      var index, first, last := Bump(Lookup(entries, "index")), Lookup(entries, "first"), Lookup(entries, "last");
      Some(env["loop" := Dict(entries["index" := index]["index0" := Bump(Lookup(entries, "index0"))]
                                     ["first" := if first.Int? then Int(0) else first]
                                     ["last" := if last.Int? then FromBool(index == Int(size)) else last])])
    else None
  }

  /** The loop record before turn number k, counted from 0, when the template leaves it alone. */
  function Record(k: nat, size: nat): JinjaVar {
    Dict(map["index" := Int(k + 1), "index0" := Int(k), "first" := FromBool(k == 0),
        "last" := FromBool(k > 0 && k + 1 == size)])
  }

  lemma AdvanceRecord(env: Env, k: nat, size: nat)
    requires "loop" in env && env["loop"] == Record(k, size)
    ensures LOOP_START == Record(0, size)
    ensures Advance(env, size) == Some(env["loop" := Record(k + 1, size)])
  {
    var next := Advance(env, size).value["loop"];
    assert next.entries == Record(k + 1, size).entries;
  }

  /** What a loop runs over, and the size that `last` is compared with: that of the array, which a dictionary does not
      have. */
  function Iterated(v: JinjaVar): Option<(seq<JinjaVar>, nat)> {
    match v
    case Array(items) => Some((items, |items|))
    case Dict(entries) => Some((ValuesInOrder(entries), 0))
    case _ => None
  }

  // --- templates as trees ---

  datatype Template = Empty | Then(first: Node, rest: Template)

  datatype Node =
    | Plain(value: string)
    | Output(tokens: seq<Token>)
    | Assign(id: string, tokens: seq<Token>)
    | Loop(id: string, tokens: seq<Token>, body: Template)
    | Branch(tokens: seq<Token>, body: Template, tail: Tail)

  datatype Tail = Done | Otherwise(body: Template) | OtherwiseIf(tokens: seq<Token>, body: Template, tail: Tail)

  function Condition(tokens: seq<Token>, s: State): Option<bool> {
    var v := Compute(s.env, tokens);
    if v.None? then None else BoolValue(v.value)
  }

  /** Running a template; no state means that the program stops with an error. */
  function Exec(t: Template, s: State): Option<State>
    decreases t, 0
  {
    match t
    case Empty => Some(s)
    case Then(first, rest) =>
      var mid := ExecNode(first, s);
      if mid.None? then None else Exec(rest, mid.value)
  }

  function ExecNode(n: Node, s: State): Option<State>
    decreases n, 0
  {
    match n
    case Plain(value) => Some(State(s.env, s.out + value))
    case Output(tokens) =>
      var v := Compute(s.env, tokens);
      if v.None? then None else Some(State(s.env, s.out + DirectValue(v.value)))
    case Assign(id, tokens) =>
      var v := Compute(s.env, tokens);
      if v.None? then None else Some(State(s.env[id := v.value], s.out))
    case Loop(id, tokens, body) =>
      var v := Compute(s.env, tokens);
      if v.None? || Iterated(v.value).None? then None
      else
        var items := Iterated(v.value).value;
        var end := ExecLoop(id, body, items.0, items.1, State(s.env["loop" := LOOP_START], s.out));
        if end.None? then None else Some(State(end.value.env[id := Lookup(s.env, id)], end.value.out))
    case Branch(tokens, body, tail) =>
      var c := Condition(tokens, s);
      if c.None? then None else if c.value then Exec(body, s) else ExecTail(tail, s)
  }

  function ExecLoop(id: string, body: Template, items: seq<JinjaVar>, size: nat, s: State): Option<State>
    decreases body, |items| + 1
  {
    if items == [] then Some(s)
    else
      var mid := Exec(body, State(s.env[id := items[0]], s.out));
      if mid.None? then None
      else
        var next := Advance(mid.value.env, size);
        if next.None? then None else ExecLoop(id, body, items[1..], size, State(next.value, mid.value.out))
  }

  function ExecTail(tail: Tail, s: State): Option<State>
    decreases tail, 0
  {
    match tail
    case Done => Some(s)
    case Otherwise(body) => Exec(body, s)
    case OtherwiseIf(tokens, body, rest) =>
      var c := Condition(tokens, s);
      if c.None? then None else if c.value then Exec(body, s) else ExecTail(rest, s)
  }

  // --- the flat list of blocks ---

  function Flatten(t: Template): seq<Block> {
    match t
    case Empty => []
    case Then(first, rest) => FlattenNode(first) + Flatten(rest)
  }

  function FlattenNode(n: Node): (blocks: seq<Block>)
    ensures blocks != []
  {
    match n
    case Plain(value) => [Original(value)]
    case Output(tokens) => [Var(tokens)]
    case Assign(id, tokens) => [Set(id, tokens)]
    case Loop(id, tokens, body) => [For(id, tokens)] + Flatten(body) + [EndFor]
    case Branch(tokens, body, tail) => [If(tokens)] + Flatten(body) + FlattenTail(tail) + [EndIf]
  }

  function FlattenTail(tail: Tail): seq<Block> {
    match tail
    case Done => []
    case Otherwise(body) => [Else] + Flatten(body)
    case OtherwiseIf(tokens, body, rest) => [ElseIf(tokens)] + Flatten(body) + FlattenTail(rest)
  }

  /** The end of the loop that is open at j, with cnt loops open inside it. */
  function FindEndFor(blocks: seq<Block>, j: nat, end: nat, cnt: nat): (endPos: Option<nat>)
    requires end <= |blocks|
    ensures endPos.Some? ==> j <= endPos.value < end
    decreases end - j
  {
    if j >= end then None
    else
      match blocks[j]
      case For(_, _) => FindEndFor(blocks, j + 1, end, cnt + 1)
      case EndFor => if cnt == 0 then Some(j) else FindEndFor(blocks, j + 1, end, cnt - 1)
      case _ => FindEndFor(blocks, j + 1, end, cnt)
  }

  /** The first alternative and the end of the branch that is open at j, with cnt branches open inside it. The block at
      the end of the range is looked at too: an alternative that is run on its own ends there. */
  function FindEndIf(blocks: seq<Block>, j: nat, end: nat, cnt: nat,
      elsePos: Option<nat>): (found: Option<(Option<nat>, nat)>)
    requires end <= |blocks|
    ensures found.Some? ==> j <= found.value.1 <= end && found.value.1 < |blocks|
    ensures found.Some? && found.value.0.Some? ==>
              (elsePos.Some? && found.value.0 == elsePos) || (elsePos.None? && j <= found.value.0.value < found.value.1)
    decreases end + 1 - j
  {
    if j > end || j >= |blocks| then None
    else
      match blocks[j]
      case If(_) => FindEndIf(blocks, j + 1, end, cnt + 1, elsePos)
      case Else => FindEndIf(blocks, j + 1, end, cnt, if cnt == 0 && elsePos.None? then Some(j) else elsePos)
      case ElseIf(_) => FindEndIf(blocks, j + 1, end, cnt, if cnt == 0 && elsePos.None? then Some(j) else elsePos)
      case EndIf => if cnt == 0 then Some((elsePos, j)) else FindEndIf(blocks, j + 1, end, cnt - 1, elsePos)
      case _ => FindEndIf(blocks, j + 1, end, cnt, elsePos)
  }

  /** What the interpreter does with the blocks from i to end. */
  function ParseRange(blocks: seq<Block>, i: nat, end: nat, s: State): Option<State>
    requires end <= |blocks|
    decreases end - i, 0
  {
    if i >= end then Some(s)
    else
      match blocks[i]
      case Original(value) => ParseRange(blocks, i + 1, end, State(s.env, s.out + value))
      case Var(tokens) =>
        var v := Compute(s.env, tokens);
        if v.None? then None else ParseRange(blocks, i + 1, end, State(s.env, s.out + DirectValue(v.value)))
      case Set(id, tokens) =>
        var v := Compute(s.env, tokens);
        if v.None? then None else ParseRange(blocks, i + 1, end, State(s.env[id := v.value], s.out))
      case For(id, tokens) =>
        var endPos := FindEndFor(blocks, i + 1, end, 0);
        if endPos.None? then None
        else
          var v := Compute(s.env, tokens);
          if v.None? || Iterated(v.value).None? then None
          else
            var items := Iterated(v.value).value;
            var last := ParseLoop(blocks, i + 1, endPos.value, id, items.0, items.1,
                State(s.env["loop" := LOOP_START], s.out));
            if last.None? then None
            else ParseRange(blocks, endPos.value + 1, end,
                State(last.value.env[id := Lookup(s.env, id)], last.value.out))
      case If(tokens) => ParseBranch(blocks, i, end, tokens, s)
      case ElseIf(tokens) => ParseBranch(blocks, i, end, tokens, s)
      case _ => None
  }

  function ParseBranch(blocks: seq<Block>, i: nat, end: nat, tokens: seq<Token>, s: State): Option<State>
    requires i < end <= |blocks|
    decreases end - i, 0, 0
  {
    var found := FindEndIf(blocks, i + 1, end, 0, None);
    if found.None? then None
    else
      var elsePos, endPos := found.value.0, found.value.1;
      var c := Condition(tokens, s);
      if c.None? then None
      else
        var last :=
          if c.value then ParseRange(blocks, i + 1, if elsePos.Some? then elsePos.value else endPos, s)
          else if elsePos.None? then Some(s)
          else ParseRange(blocks, if blocks[elsePos.value].Else? then elsePos.value + 1 else elsePos.value, endPos, s);
        if last.None? then None else ParseRange(blocks, endPos + 1, end, last.value)
  }

  function ParseLoop(blocks: seq<Block>, st: nat, end: nat, id: string, items: seq<JinjaVar>, size: nat,
      s: State): Option<State>
    requires end <= |blocks|
    decreases if end >= st then end - st else 0, |items| + 1
  {
    if items == [] then Some(s)
    else
      var mid := ParseRange(blocks, st, end, State(s.env[id := items[0]], s.out));
      if mid.None? then None
      else
        var next := Advance(mid.value.env, size);
        if next.None? then None else ParseLoop(blocks, st, end, id, items[1..], size, State(next.value, mid.value.out))
  }
}
