/** Expressions: from the tokens to postfix form with a stack of operators, and from there to a value with a stack of
    values. */
module JinjaExpressions {
  import opened Wrappers
  import opened JinjaValues

  datatype Token = Operand(value: JinjaVar) | Infix(op: BinaryOp) | Not | Open | Close

  /** An expression as it is meant, with the brackets that are written. */
  datatype Expr = Leaf(value: JinjaVar) | Binary(op: BinaryOp, left: Expr,
      right: Expr) | Negation(e: Expr) | Bracket(e: Expr)

  /** The level of a token on the stack of operators. */
  function Level(t: Token): int {
    match t
    case Infix(op) => OpLevel(op)
    case Not => NOT_LEVEL
    case _ => -5
  }

  // --- what the program does ---

  /** Moves operators from the stack to the output as long as they bind tighter than the given level. */
  function PopAbove(ops: seq<Token>, level: int): (seq<Token>, seq<Token>)
    decreases |ops|
  {
    if ops != [] && Level(ops[|ops| - 1]) > level then
      var rest := PopAbove(ops[..|ops| - 1], level);
      ([ops[|ops| - 1]] + rest.0, rest.1)
    else ([], ops)
  }

  /** Moves operators to the output down to the innermost open bracket; fails if there is none. */
  function PopToOpen(ops: seq<Token>): Option<(seq<Token>, seq<Token>)>
    decreases |ops|
  {
    if ops == [] then None
    else if ops[|ops| - 1].Open? then Some(([], ops[..|ops| - 1]))
    else
      var rest := PopToOpen(ops[..|ops| - 1]);
      if rest.None? then None else Some(([ops[|ops| - 1]] + rest.value.0, rest.value.1))
  }

  function Reverse(ops: seq<Token>): seq<Token> {
    if ops == [] then [] else [ops[|ops| - 1]] + Reverse(ops[..|ops| - 1])
  }

  /** Output and operator stack after the next token. */
  function Shift(t: Token, out: seq<Token>, ops: seq<Token>): Option<(seq<Token>, seq<Token>)> {
    match t
    case Operand(_) => Some((out + [t], ops))
    case Open => Some((out, ops + [t]))
    case Close =>
      var popped := PopToOpen(ops);
      if popped.None? then None else Some((out + popped.value.0, popped.value.1))
    case _ =>
      var popped := PopAbove(ops, Level(t));
      Some((out + popped.0, popped.1 + [t]))
  }

  function Convert(tokens: seq<Token>, out: seq<Token>, ops: seq<Token>): Option<(seq<Token>, seq<Token>)>
    decreases |tokens|
  {
    if tokens == [] then Some((out, ops))
    else
      var next := Shift(tokens[0], out, ops);
      if next.None? then None else Convert(tokens[1..], next.value.0, next.value.1)
  }

  /** The postfix form of a list of tokens. */
  function Postfix(tokens: seq<Token>): Option<seq<Token>> {
    var end := Convert(tokens, [], []);
    if end.None? then None else Some(end.value.0 + Reverse(end.value.1))
  }

  /** The value stack after the next token of the postfix form. A minus sign with nothing but a non-number below its
      operand changes the sign of the operand. */
  function Execute(env: Env, t: Token, vars: seq<JinjaVar>): Option<seq<JinjaVar>> {
    var n := |vars|;
    match t
    case Operand(v) => Some(vars + [v])
    case Not =>
      if n < 1 then None
      else
        var r := Negate(env, vars[n - 1]);
        if r.None? then None else Some(vars[..n - 1] + [r.value])
    case Infix(op) =>
      if op == Sub then
        if n < 1 then None
        else
          var a := Resolve(env, vars[n - 1]);
          if !IsNumber(a) then None
          else if n > 1 && IsNumber(Resolve(env, vars[n - 2])) then
            var r := Operate(Sub, Resolve(env, vars[n - 2]), a);
            if r.None? then None else Some(vars[..n - 2] + [r.value])
          else Some(vars[..n - 1] + [if a.Int? then Int(-a.n) else Float(-a.f)])
      else if n < 2 then None
      else
        var r := Apply(env, op, vars[n - 2], vars[n - 1]);
        if r.None? then None else Some(vars[..n - 2] + [r.value])
    case _ => Some(vars)
  }

  function Run(env: Env, post: seq<Token>, vars: seq<JinjaVar>): Option<seq<JinjaVar>>
    decreases |post|
  {
    if post == [] then Some(vars)
    else
      var next := Execute(env, post[0], vars);
      if next.None? then None else Run(env, post[1..], next.value)
  }

  /** The value that the program computes for a list of tokens. */
  function Compute(env: Env, tokens: seq<Token>): Option<JinjaVar> {
    var post := Postfix(tokens);
    if post.None? then None
    else
      var vars := Run(env, post.value, []);
      if vars.Some? && |vars.value| == 1 then Some(Resolve(env, vars.value[0])) else None
  }

  // --- what it should do ---

  /** The value of an expression, names standing for themselves at the top. */
  function Eval(env: Env, e: Expr): Option<JinjaVar> {
    match e
    case Leaf(v) => Some(v)
    case Binary(op, l, r) =>
      var a, b := Eval(env, l), Eval(env, r);
      if a.None? || b.None? then None else Apply(env, op, a.value, b.value)
    case Negation(x) =>
      var a := Eval(env, x);
      if a.None? then None else Negate(env, a.value)
    case Bracket(x) => Eval(env, x)
  }

  function Print(e: Expr): seq<Token> {
    match e
    case Leaf(v) => [Operand(v)]
    case Binary(op, l, r) => Print(l) + [Infix(op)] + Print(r)
    case Negation(x) => [Not] + Print(x)
    case Bracket(x) => [Open] + Print(x) + [Close]
  }

  /** How tightly an expression holds together. */
  function Tightness(e: Expr): int {
    match e
    case Binary(op, _, _) => OpLevel(op)
    case Negation(_) => NOT_LEVEL
    case _ => 3
  }

  /** Higher levels bind tighter, and operators of one level group to the right. */
  predicate WellBracketed(e: Expr) {
    match e
    case Leaf(_) => true
    case Binary(op, l, r) => WellBracketed(l) && WellBracketed(r) && Tightness(l) > OpLevel(op)
        && Tightness(r) >= OpLevel(op)
    case Negation(x) => WellBracketed(x) && Tightness(x) >= NOT_LEVEL
    case Bracket(x) => WellBracketed(x)
  }

  /** The postfix form of an expression. */
  function Post(e: Expr): seq<Token> {
    match e
    case Leaf(v) => [Operand(v)]
    case Binary(op, l, r) => Post(l) + Post(r) + [Infix(op)]
    case Negation(x) => Post(x) + [Not]
    case Bracket(x) => Post(x)
  }

  // --- the operator stack ---

  /** The operators of an expression that are still on the stack when its last token was read. */
  function Pending(e: Expr): seq<Token> {
    match e
    case Binary(op, _, r) => [Infix(op)] + Pending(r)
    case Negation(x) => [Not] + Pending(x)
    case _ => []
  }

  /** What is in the output by then. */
  function Emitted(e: Expr): seq<Token> {
    match e
    case Leaf(v) => [Operand(v)]
    case Binary(_, l, r) => Post(l) + Emitted(r)
    case Negation(x) => Emitted(x)
    case Bracket(x) => Post(x)
  }

  lemma {:induction false} ReverseConcat(a: seq<Token>, b: seq<Token>)
    ensures Reverse(a + b) == Reverse(b) + Reverse(a)
    decreases |b|
  {
    if b == [] {
      assert a + b == a;
    } else {
      assert (a + b)[..|a + b| - 1] == a + b[..|b| - 1];
      ReverseConcat(a, b[..|b| - 1]);
    }
  }

  lemma {:induction false} PostSplit(e: Expr)
    ensures Emitted(e) + Reverse(Pending(e)) == Post(e)
  {
    match e
    case Leaf(_) =>
    case Bracket(_) =>
    case Negation(x) =>
      PostSplit(x);
      LastPending([], Emitted(x), Not, Pending(x));
      assert [] + Emitted(x) == Emitted(x) && [] + Post(x) == Post(x);
    case Binary(op, l, r) =>
      PostSplit(r);
      LastPending(Post(l), Emitted(r), Infix(op), Pending(r));
  }

  /** An operator below the pending ones comes out last. */
  lemma LastPending(before: seq<Token>, out: seq<Token>, op: Token, pending: seq<Token>)
    ensures before + out + Reverse([op] + pending) == before + (out + Reverse(pending)) + [op]
  {
    ReverseConcat([op], pending);
    assert [op][..0] == [] && Reverse([op]) == [op];
    hide Reverse;
  }

  lemma {:induction false} PendingLevels(e: Expr)
    requires WellBracketed(e)
    ensures forall i :: 0 <= i < |Pending(e)| ==> Level(Pending(e)[i]) >= Tightness(e) && !Pending(e)[i].Open?
  {
    match e
    case Leaf(_) =>
    case Bracket(_) =>
    case Negation(x) => PendingLevels(x);
    case Binary(_, _, r) => PendingLevels(r);
  }

  /** The stack allows an expression of this tightness to start: what is below does not bind tighter. */
  predicate Ready(ops: seq<Token>, tightness: int) {
    ops == [] || Level(ops[|ops| - 1]) <= tightness
  }

  /** All pending operators are popped, and nothing below them. */
  lemma {:induction false} PopPending(ops: seq<Token>, pending: seq<Token>, level: int)
    requires Ready(ops, level) && forall i :: 0 <= i < |pending| ==> Level(pending[i]) > level
    ensures PopAbove(ops + pending, level) == (Reverse(pending), ops)
    decreases |pending|
  {
    if pending == [] {
      assert ops + pending == ops;
    } else {
      assert (ops + pending)[..|ops + pending| - 1] == ops + pending[..|pending| - 1];
      PopPending(ops, pending[..|pending| - 1], level);
    }
  }

  lemma {:induction false} PopBracket(ops: seq<Token>, pending: seq<Token>)
    requires forall i :: 0 <= i < |pending| ==> !pending[i].Open?
    ensures PopToOpen(ops + [Open] + pending) == Some((Reverse(pending), ops))
    decreases |pending|
  {
    var all := ops + [Open] + pending;
    if pending == [] {
      assert all == ops + [Open] && all[..|all| - 1] == ops;
    } else {
      assert all[..|all| - 1] == ops + [Open] + pending[..|pending| - 1];
      PopBracket(ops, pending[..|pending| - 1]);
    }
  }

  lemma {:induction false} ConvertConcat(a: seq<Token>, b: seq<Token>, out: seq<Token>, ops: seq<Token>)
    ensures Convert(a + b, out, ops)
         == var mid := Convert(a, out, ops); if mid.None? then None else Convert(b, mid.value.0, mid.value.1)
    decreases |a|
  {
    if a == [] {
      assert a + b == b;
    } else {
      assert (a + b)[0] == a[0] && (a + b)[1..] == a[1..] + b;
      var next := Shift(a[0], out, ops);
      if next.Some? {
        ConvertConcat(a[1..], b, next.value.0, next.value.1);
      }
    }
  }

  lemma ConvertOne(t: Token, out: seq<Token>, ops: seq<Token>)
    ensures Convert([t], out, ops) == Shift(t, out, ops)
  {
  }

  /** Reading an expression leaves its postfix form in the output, but for the operators that are pending on the stack.
      */
  lemma {:induction false} ConvertExpr(e: Expr, out: seq<Token>, ops: seq<Token>)
    requires WellBracketed(e) && Ready(ops, Tightness(e))
    ensures Convert(Print(e), out, ops) == Some((out + Emitted(e), ops + Pending(e)))
    decreases e
  {
    match e
    case Leaf(v) =>
      ConvertOne(Operand(v), out, ops);
      assert ops + [] == ops;
    case Bracket(x) =>
      ConvertExpr(x, out, ops + [Open]);
      ConvertBracket(x, out, ops);
      assert ops + [] == ops;
    case Negation(x) =>
      ConvertExpr(x, out, ops + [Not]);
      ConvertNegation(x, out, ops);
    case Binary(op, l, r) =>
      ConvertExpr(l, out, ops);
      ConvertExpr(r, out + Post(l), ops + [Infix(op)]);
      ConvertBinary(op, l, r, out, ops);
  }

  lemma ConvertNegation(x: Expr, out: seq<Token>, ops: seq<Token>)
    requires Ready(ops, NOT_LEVEL)
    requires Convert(Print(x), out, ops + [Not]) == Some((out + Emitted(x), ops + [Not] + Pending(x)))
    ensures Convert([Not] + Print(x), out, ops) == Some((out + Emitted(x), ops + ([Not] + Pending(x))))
  {
    PopPending(ops, [], NOT_LEVEL);
    assert ops + [] == ops && out + Reverse([]) == out;
    ConvertOne(Not, out, ops);
    ConvertConcat([Not], Print(x), out, ops);
    assert ops + [Not] + Pending(x) == ops + ([Not] + Pending(x));
  }

  lemma ConvertBracket(x: Expr, out: seq<Token>, ops: seq<Token>)
    requires WellBracketed(x)
    requires Convert(Print(x), out, ops + [Open]) == Some((out + Emitted(x), ops + [Open] + Pending(x)))
    ensures Convert([Open] + Print(x) + [Close], out, ops) == Some((out + Post(x), ops))
  {
    hide Convert, Shift, Print, Post, Emitted, Pending, WellBracketed;
    ShiftOpen(out, ops);
    ConvertOne(Open, out, ops);
    ConvertConcat([Open] + Print(x), [Close], out, ops);
    ConvertConcat([Open], Print(x), out, ops);
    ShiftClose(x, out, ops);
    ConvertOne(Close, out + Emitted(x), ops + [Open] + Pending(x));
  }

  lemma ShiftOpen(out: seq<Token>, ops: seq<Token>)
    ensures Shift(Open, out, ops) == Some((out, ops + [Open]))
  {
  }

  /** The closing bracket takes the pending operators of the expression inside off the stack. */
  lemma ShiftClose(x: Expr, out: seq<Token>, ops: seq<Token>)
    requires WellBracketed(x)
    ensures Shift(Close, out + Emitted(x), ops + [Open] + Pending(x)) == Some((out + Post(x), ops))
  {
    PendingLevels(x);
    PopBracket(ops, Pending(x));
    PostSplit(x);
    assert out + Emitted(x) + Reverse(Pending(x)) == out + (Emitted(x) + Reverse(Pending(x)));
  }

  /** The operator takes the pending operators of the left operand off the stack, and none below them. */
  lemma ShiftInfix(op: BinaryOp, l: Expr, out: seq<Token>, ops: seq<Token>)
    requires WellBracketed(l) && Tightness(l) > OpLevel(op) && Ready(ops, OpLevel(op))
    ensures Shift(Infix(op), out + Emitted(l), ops + Pending(l)) == Some((out + Post(l), ops + [Infix(op)]))
  {
    PendingLevels(l);
    PopPending(ops, Pending(l), OpLevel(op));
    PostSplit(l);
    assert out + Emitted(l) + Reverse(Pending(l)) == out + (Emitted(l) + Reverse(Pending(l)));
  }

  lemma ConvertBinary(op: BinaryOp, l: Expr, r: Expr, out: seq<Token>, ops: seq<Token>)
    requires WellBracketed(l) && Tightness(l) > OpLevel(op) && Ready(ops, OpLevel(op))
    requires Convert(Print(l), out, ops) == Some((out + Emitted(l), ops + Pending(l)))
    requires Convert(Print(r), out + Post(l), ops + [Infix(op)])
        == Some((out + Post(l) + Emitted(r), ops + [Infix(op)] + Pending(r)))
    ensures Convert(Print(l) + [Infix(op)] + Print(r), out, ops)
         == Some((out + (Post(l) + Emitted(r)), ops + ([Infix(op)] + Pending(r))))
  {
    hide Convert, Shift, Print, Post, Emitted, Pending, WellBracketed, Tightness;
    ConvertConcat(Print(l) + [Infix(op)], Print(r), out, ops);
    ConvertConcat(Print(l), [Infix(op)], out, ops);
    ShiftInfix(op, l, out, ops);
    ConvertOne(Infix(op), out + Emitted(l), ops + Pending(l));
    assert out + Post(l) + Emitted(r) == out + (Post(l) + Emitted(r));
    assert ops + [Infix(op)] + Pending(r) == ops + ([Infix(op)] + Pending(r));
  }

  /** The postfix form of a printed expression is that of the expression. */
  lemma PostfixOfPrint(e: Expr)
    requires WellBracketed(e)
    ensures Postfix(Print(e)) == Some(Post(e))
  {
    ConvertExpr(e, [], []);
    PostSplit(e);
    assert [] + Emitted(e) == Emitted(e) && [] + Pending(e) == Pending(e);
  }

  // --- the value stack ---

  lemma {:induction false} RunConcat(env: Env, a: seq<Token>, b: seq<Token>, vars: seq<JinjaVar>)
    ensures Run(env, a + b, vars) == var mid := Run(env, a, vars); if mid.None? then None else Run(env, b, mid.value)
    decreases |a|
  {
    if a == [] {
      assert a + b == b;
    } else {
      assert (a + b)[0] == a[0] && (a + b)[1..] == a[1..] + b;
      var next := Execute(env, a[0], vars);
      if next.Some? {
        RunConcat(env, a[1..], b, next.value);
      }
    }
  }

  lemma RunOne(env: Env, t: Token, vars: seq<JinjaVar>)
    ensures Run(env, [t], vars) == Execute(env, t, vars)
  {
  }

  /** An operator on two operands: it gives its value, or it fails, or it leaves one operand too many. */
  lemma ExecuteInfix(env: Env, op: BinaryOp, vars: seq<JinjaVar>, a: JinjaVar, b: JinjaVar)
    ensures var r, v := Execute(env, Infix(op), vars + [a] + [b]), Apply(env, op, a, b);
      if v.Some? then r == Some(vars + [v.value]) else r.None? || |r.value| == |vars| + 2
  {
    var all := vars + [a] + [b];
    assert all[..|all| - 2] == vars && all[|all| - 2] == a && all[|all| - 1] == b;
  }

  /** An operator takes away at most one value. */
  lemma ExecuteSize(env: Env, t: Token, vars: seq<JinjaVar>)
    requires t.Infix? || t.Not?
    ensures var r := Execute(env, t, vars); r.Some? ==> |r.value| >= |vars| - (if t.Infix? then 1 else 0)
  {
  }

  /** The postfix form of an expression puts the value of the expression on the stack. If it has no value, the run fails
      or leaves too many values. */
  lemma {:induction false} RunPost(env: Env, e: Expr, vars: seq<JinjaVar>)
    ensures var r, v := Run(env, Post(e), vars), Eval(env, e);
      if v.Some? then r == Some(vars + [v.value]) else r.None? || |r.value| >= |vars| + 2
    decreases e
  {
    match e
    case Leaf(v) => RunOne(env, Operand(v), vars);
    case Bracket(x) => RunPost(env, x, vars);
    case Negation(x) =>
      RunPost(env, x, vars);
      RunNegation(env, x, vars);
    case Binary(op, l, r) =>
      RunPost(env, l, vars);
      var mid := Run(env, Post(l), vars);
      if mid.Some? {
        RunPost(env, r, mid.value);
      }
      RunBinary(env, op, l, r, vars);
  }

  lemma RunNegation(env: Env, x: Expr, vars: seq<JinjaVar>)
    requires var r, v := Run(env, Post(x), vars), Eval(env, x);
      if v.Some? then r == Some(vars + [v.value]) else r.None? || |r.value| >= |vars| + 2
    ensures var r, v := Run(env, Post(x) + [Not], vars), Eval(env, Negation(x));
      if v.Some? then r == Some(vars + [v.value]) else r.None? || |r.value| >= |vars| + 2
  {
    RunConcat(env, Post(x), [Not], vars);
    var mid := Run(env, Post(x), vars);
    if mid.Some? {
      RunOne(env, Not, mid.value);
      ExecuteSize(env, Not, mid.value);
      if Eval(env, x).Some? {
        assert mid.value[..|mid.value| - 1] == vars;
      }
    }
  }

  lemma RunBinary(env: Env, op: BinaryOp, l: Expr, r: Expr, vars: seq<JinjaVar>)
    requires var m, v := Run(env, Post(l), vars), Eval(env, l);
      if v.Some? then m == Some(vars + [v.value]) else m.None? || |m.value| >= |vars| + 2
    requires var m := Run(env, Post(l), vars);
      m.Some? ==> var x, v := Run(env, Post(r), m.value), Eval(env, r);
                  if v.Some? then x == Some(m.value + [v.value]) else x.None? || |x.value| >= |m.value| + 2
    ensures var x, v := Run(env, Post(l) + Post(r) + [Infix(op)], vars), Eval(env, Binary(op, l, r));
      if v.Some? then x == Some(vars + [v.value]) else x.None? || |x.value| >= |vars| + 2
  {
    hide Run, Post, Execute, Apply;
    RunConcat(env, Post(l) + Post(r), [Infix(op)], vars);
    RunConcat(env, Post(l), Post(r), vars);
    var mid := Run(env, Post(l), vars);
    if mid.Some? {
      var both := Run(env, Post(r), mid.value);
      if both.Some? {
        RunOne(env, Infix(op), both.value);
        ExecuteSize(env, Infix(op), both.value);
        if Eval(env, l).Some? && Eval(env, r).Some? {
          ExecuteInfix(env, op, vars, Eval(env, l).value, Eval(env, r).value);
        }
      }
    }
  }

  /** What the program computes for a printed expression is its value, with a name at the top resolved; it fails exactly
      when the expression has no value. */
  lemma ComputePrint(env: Env, e: Expr)
    requires WellBracketed(e)
    ensures Compute(env, Print(e)) == var v := Eval(env, e); if v.None? then None else Some(Resolve(env, v.value))
  {
    PostfixOfPrint(e);
    RunPost(env, e, []);
  }

  // --- brackets where they are needed ---

  function Enclose(e: Expr, needed: bool): Expr {
    if needed then Bracket(e) else e
  }

  /** The expression with brackets around the operands that need them. */
  function Bracketed(e: Expr): Expr {
    match e
    case Leaf(_) => e
    case Bracket(x) => Bracket(Bracketed(x))
    case Negation(x) => Negation(Enclose(Bracketed(x), Tightness(x) < NOT_LEVEL))
    case Binary(op, l, r) => Binary(op, Enclose(Bracketed(l), Tightness(l) <= OpLevel(op)),
        Enclose(Bracketed(r), Tightness(r) < OpLevel(op)))
  }

  /** Any expression can be written down so that the program computes its value. */
  lemma {:induction false} BracketedMeaning(env: Env, e: Expr)
    ensures WellBracketed(Bracketed(e)) && Tightness(Bracketed(e)) == Tightness(e)
        && Eval(env, Bracketed(e)) == Eval(env, e)
    ensures Compute(env, Print(Bracketed(e))) == var v := Eval(env, e);
        if v.None? then None else Some(Resolve(env, v.value))
  {
    match e {
      case Leaf(_) =>
      case Bracket(x) => BracketedMeaning(env, x);
      case Negation(x) => BracketedMeaning(env, x);
      case Binary(_, l, r) =>
        BracketedMeaning(env, l);
        BracketedMeaning(env, r);
    }
    ComputePrint(env, Bracketed(e));
  }

  // --- operands with operators between them ---

  function PrintFlat(atoms: seq<Expr>, ops: seq<BinaryOp>): seq<Token>
    requires |atoms| == |ops| + 1
    decreases |ops|
  {
    if ops == [] then Print(atoms[0]) else Print(atoms[0]) + [Infix(ops[0])] + PrintFlat(atoms[1..], ops[1..])
  }

  /** The leftmost operator of the lowest level. */
  function Lowest(ops: seq<BinaryOp>): (k: nat)
    requires ops != []
    ensures k < |ops|
    ensures forall i :: 0 <= i < k ==> OpLevel(ops[i]) > OpLevel(ops[k])
    ensures forall i :: k <= i < |ops| ==> OpLevel(ops[i]) >= OpLevel(ops[k])
  {
    if |ops| == 1 then 0
    else
      var rest := 1 + Lowest(ops[1..]);
      if OpLevel(ops[0]) <= OpLevel(ops[rest]) then 0 else rest
  }

  /** The leftmost operator of the lowest level is applied last, to what is on its left and what is on its right. */
  function Group(atoms: seq<Expr>, ops: seq<BinaryOp>): Expr
    requires |atoms| == |ops| + 1
    decreases |ops|
  {
    if ops == [] then atoms[0]
    else
      var k := Lowest(ops);
      Binary(ops[k], Group(atoms[..k + 1], ops[..k]), Group(atoms[k + 1..], ops[k + 1..]))
  }

  predicate AllAtoms(atoms: seq<Expr>) {
    forall i :: 0 <= i < |atoms| ==> WellBracketed(atoms[i]) && (atoms[i].Leaf? || atoms[i].Bracket?)
  }

  lemma {:induction false} GroupWellBracketed(atoms: seq<Expr>, ops: seq<BinaryOp>)
    requires |atoms| == |ops| + 1 && AllAtoms(atoms)
    ensures WellBracketed(Group(atoms, ops))
    ensures Tightness(Group(atoms, ops)) == if ops == [] then 3 else OpLevel(ops[Lowest(ops)])
    decreases |ops|
  {
    hide Lowest, OpLevel;
    if ops != [] {
      var k := Lowest(ops);
      GroupWellBracketed(atoms[..k + 1], ops[..k]);
      GroupWellBracketed(atoms[k + 1..], ops[k + 1..]);
      SideLevels(ops);
      Levels(ops[k]);
      hide AllAtoms;
    }
  }

  lemma Levels(op: BinaryOp)
    ensures OpLevel(op) < 3
  {
  }

  /** On the left of the operator that is applied last all levels are higher, on its right none is lower. */
  lemma SideLevels(ops: seq<BinaryOp>)
    requires ops != []
    ensures var k := Lowest(ops);
      && (ops[..k] != [] ==> OpLevel(ops[..k][Lowest(ops[..k])]) > OpLevel(ops[k]))
      && (ops[k + 1..] != [] ==> OpLevel(ops[k + 1..][Lowest(ops[k + 1..])]) >= OpLevel(ops[k]))
  {
    hide Lowest, OpLevel;
    var k := Lowest(ops);
    if ops[k + 1..] != [] {
      var i := Lowest(ops[k + 1..]);
      assert ops[k + 1..][i] == ops[k + 1 + i];
    }
  }

  lemma {:induction false} PrintFlatSplit(atoms: seq<Expr>, ops: seq<BinaryOp>, k: nat)
    requires |atoms| == |ops| + 1 && k < |ops|
    ensures PrintFlat(atoms, ops)
        == PrintFlat(atoms[..k + 1], ops[..k]) + [Infix(ops[k])] + PrintFlat(atoms[k + 1..], ops[k + 1..])
    decreases |ops|
  {
    if k > 0 {
      PrintFlatSplit(atoms[1..], ops[1..], k - 1);
      assert atoms[1..][..k] == atoms[1..k + 1] == atoms[..k + 1][1..] && ops[1..][..k - 1] == ops[..k][1..];
      assert atoms[1..][k..] == atoms[k + 1..] && ops[1..][k..] == ops[k + 1..];
    }
  }

  lemma {:induction false} GroupPrint(atoms: seq<Expr>, ops: seq<BinaryOp>)
    requires |atoms| == |ops| + 1
    ensures Print(Group(atoms, ops)) == PrintFlat(atoms, ops)
    decreases |ops|
  {
    if ops != [] {
      var k := Lowest(ops);
      GroupPrint(atoms[..k + 1], ops[..k]);
      GroupPrint(atoms[k + 1..], ops[k + 1..]);
      PrintFlatSplit(atoms, ops, k);
    }
  }

  /** Higher levels bind tighter, and equal levels group to the right, in every list of operands with operators between
      them. */
  lemma ComputeFlat(env: Env, atoms: seq<Expr>, ops: seq<BinaryOp>)
    requires |atoms| == |ops| + 1 && AllAtoms(atoms)
    ensures Compute(env, PrintFlat(atoms, ops))
         == var v := Eval(env, Group(atoms, ops)); if v.None? then None else Some(Resolve(env, v.value))
  {
    GroupWellBracketed(atoms, ops);
    GroupPrint(atoms, ops);
    ComputePrint(env, Group(atoms, ops));
  }

  // --- the loops ---

  method InfixToPostfix(tokens: seq<Token>, st: nat, end: nat) returns (suffixExp: Option<seq<Token>>)
    requires st <= end <= |tokens|
    ensures suffixExp == Postfix(tokens[st..end])
  {
    var out: seq<Token>, ops: seq<Token> := [], [];
    var i := st;
    assert tokens[st..end] == tokens[i..end];
    while i < end
      invariant st <= i <= end && Convert(tokens[st..end], [], []) == Convert(tokens[i..end], out, ops)
    {
      var t := tokens[i];
      assert tokens[i..end][0] == t && tokens[i..end][1..] == tokens[i + 1..end];
      ghost var next := Shift(t, out, ops);
      if t.Operand? {
        out := out + [t];
      } else if t.Open? {
        ops := ops + [t];
      } else if t.Close? {
        var found;
        found, out, ops := UnwindBracket(out, ops);
        if !found {
          return None;
        }
      } else {
        out, ops := Unwind(out, ops, Level(t));
        ops := ops + [t];
      }
      i := i + 1;
    }
    out := Flush(out, ops);
    return Some(out);
  }

  method UnwindBracket(before: seq<Token>, stack: seq<Token>) returns (found: bool, out: seq<Token>, ops: seq<Token>)
    ensures found <==> PopToOpen(stack).Some?
    ensures found ==> out == before + PopToOpen(stack).value.0 && ops == PopToOpen(stack).value.1
  {
    out, ops := before, stack;
    while |ops| > 0 && !ops[|ops| - 1].Open?
      invariant PopToOpen(stack).Some? <==> PopToOpen(ops).Some?
      invariant PopToOpen(ops).Some? ==> before + PopToOpen(stack).value.0 == out + PopToOpen(ops).value.0
      invariant PopToOpen(ops).Some? ==> PopToOpen(stack).value.1 == PopToOpen(ops).value.1
    {
      out := out + [ops[|ops| - 1]];
      ops := ops[..|ops| - 1];
    }
    found := |ops| > 0;
    if found {
      ops := ops[..|ops| - 1];
    }
  }

  method Unwind(before: seq<Token>, stack: seq<Token>, level: int) returns (out: seq<Token>, ops: seq<Token>)
    ensures out == before + PopAbove(stack, level).0 && ops == PopAbove(stack, level).1
  {
    out, ops := before, stack;
    while |ops| > 0 && Level(ops[|ops| - 1]) > level
      invariant before + PopAbove(stack, level).0 == out + PopAbove(ops, level).0
          && PopAbove(stack, level).1 == PopAbove(ops, level).1
    {
      out := out + [ops[|ops| - 1]];
      ops := ops[..|ops| - 1];
    }
  }

  method Flush(before: seq<Token>, stack: seq<Token>) returns (out: seq<Token>)
    ensures out == before + Reverse(stack)
  {
    out := before;
    var ops := stack;
    while |ops| > 0
      invariant before + Reverse(stack) == out + Reverse(ops)
    {
      out := out + [ops[|ops| - 1]];
      ops := ops[..|ops| - 1];
    }
  }

  /** Pops the operands of a token off the stack of values, and pushes what it gives. */
  method EvaluateToken(local: Env, it: Token, before: seq<JinjaVar>) returns (ok: bool, vars: seq<JinjaVar>)
    ensures ok <==> Execute(local, it, before).Some?
    ensures ok ==> vars == Execute(local, it, before).value
  {
    ok, vars := true, before;
    match it {
      case Operand(v) =>
        vars := vars + [v];
      case Not =>
        if |vars| < 1 {
          return false, vars;
        }
        var a := vars[|vars| - 1];
        vars := vars[..|vars| - 1];
        if a.Nothing? && a.text == "defined" {
          vars := vars + [Nothing("none")];
        } else if a.Nothing? && a.text == "none" {
          vars := vars + [Nothing("defined")];
        } else {
          a := Resolve(local, a);
          if a.Nothing? {
            vars := vars + [Int(1)];
          } else {
            var b := BoolValue(a);
            if b.None? {
              return false, vars;
            }
            vars := vars + [FromBool(!b.value)];
          }
        }
      case Infix(op) =>
        if op == Sub {
          if |vars| == 0 {
            return false, vars;
          }
          var a := Resolve(local, vars[|vars| - 1]);
          if !IsNumber(a) {
            return false, vars;
          }
          if |vars| > 1 {
            var b := Resolve(local, vars[|vars| - 2]);
            if IsNumber(b) {
              vars := vars[..|vars| - 1];
              vars := vars[..|vars| - 1];
              var r := Operate(Sub, b, a);
              if r.None? {
                return false, vars;
              }
              return true, vars + [r.value];
            }
          }
          vars := vars[..|vars| - 1];
          vars := vars + [if a.Int? then Int(-a.n) else Float(-a.f)];
        } else {
          if |vars| <= 1 {
            return false, vars;
          }
          var a, b := vars[|vars| - 2], vars[|vars| - 1];
          if a.Nothing? && op != In {
            a := Resolve(local, a);
          }
          if b.Nothing? && b.text != "defined" && b.text != "none" && b.text != "string" {
            b := Resolve(local, b);
          }
          vars := vars[..|vars| - 1];
          vars := vars[..|vars| - 1];
          var r := Operate(op, a, b);
          if r.None? {
            return false, vars;
          }
          vars := vars + [r.value];
        }
      case _ =>
    }
  }

  method ComputeExpression(local: Env, tokens: seq<Token>, st: nat, end: nat) returns (result: Option<JinjaVar>)
    requires st <= end <= |tokens|
    ensures result == Compute(local, tokens[st..end])
  {
    var suffixExp := InfixToPostfix(tokens, st, end);
    if suffixExp.None? {
      return None;
    }
    var post := suffixExp.value;
    var vars: seq<JinjaVar> := [];
    var i := 0;
    assert post[0..] == post;
    while i < |post|
      invariant 0 <= i <= |post| && Run(local, post, []) == Run(local, post[i..], vars)
    {
      assert post[i..][0] == post[i] && post[i..][1..] == post[i + 1..];
      var ok;
      ok, vars := EvaluateToken(local, post[i], vars);
      if !ok {
        return None;
      }
      i := i + 1;
    }
    if |vars| != 1 {
      return None;
    }
    return Some(Resolve(local, vars[0]));
  }
}
