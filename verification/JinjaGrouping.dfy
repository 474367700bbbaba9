/** Operators of one level group to the right, where the template language groups them to the left or gives them
    different levels: what the program computes for a chain of operands, and when it is what one would expect. */
module JinjaGrouping {
  import opened Wrappers
  import opened Arithmetic
  import opened JinjaValues
  import opened JinjaExpressions

  /** As an operand of an operator, the expression has this value. */
  predicate Stands(env: Env, e: Expr, v: JinjaVar) {
    var r := Eval(env, e);
    && r.Some? && !v.Nothing? && Resolve(env, r.value) == v
    && (r.value.Nothing? ==> r.value.text != "defined" && r.value.text != "none" && r.value.text != "string")
  }

  /** The value of an expression that stands alone. */
  function ValueOf(env: Env, e: Expr): Option<JinjaVar> {
    var r := Eval(env, e);
    if r.None? then None else Some(Resolve(env, r.value))
  }

  lemma Applied(env: Env, op: BinaryOp, l: Expr, r: Expr, x: JinjaVar, y: JinjaVar)
    requires Stands(env, l, x) && Stands(env, r, y) && op != In
    requires op == Sub ==> IsNumber(x) && IsNumber(y)
    ensures Eval(env, Binary(op, l, r)) == Operate(op, x, y)
  {
  }

  predicate OneLevel(ops: seq<BinaryOp>) {
    forall i, j :: 0 <= i < |ops| && 0 <= j < |ops| ==> OpLevel(ops[i]) == OpLevel(ops[j])
  }

  /** In a chain of one level the first operator is applied last. */
  lemma FirstIsLast(atoms: seq<Expr>, ops: seq<BinaryOp>)
    requires |atoms| == |ops| + 1 && ops != [] && OneLevel(ops)
    ensures Group(atoms, ops) == Binary(ops[0], atoms[0], Group(atoms[1..], ops[1..]))
  {
    hide OpLevel;
    assert OpLevel(ops[Lowest(ops)]) == OpLevel(ops[0]);
    assert Lowest(ops) == 0;
    assert Group(atoms[..1], ops[..0]) == atoms[0];
  }

  // --- plus and minus ---

  /** A whole number, or a number with a fraction. */
  function Num(whole: bool, x: real): JinjaVar {
    if whole then Int(x.Floor) else Float(x)
  }

  /** The chain is one of ints, or one of floats with no plus, which floats do not have. */
  predicate PlusMinus(env: Env, atoms: seq<Expr>, ops: seq<BinaryOp>, whole: bool, vals: seq<real>) {
    && |atoms| == |vals| == |ops| + 1 && AllAtoms(atoms)
    && (forall i :: 0 <= i < |ops| ==> ops[i] == Sub || (whole && ops[i] == Add))
    && (forall i :: 0 <= i < |vals| ==> (whole ==>
        vals[i].Floor as real == vals[i]) && Stands(env, atoms[i], Num(whole, vals[i])))
  }

  function Signed(op: BinaryOp, x: real): real {
    if op == Sub then -x else x
  }

  function RightSum(vals: seq<real>, ops: seq<BinaryOp>): real
    requires |vals| == |ops| + 1
    decreases |ops|
  {
    if ops == [] then vals[0] else vals[0] + Signed(ops[0], RightSum(vals[1..], ops[1..]))
  }

  /** The first operand, and every other one with its own sign. */
  function LeftSum(vals: seq<real>, ops: seq<BinaryOp>): real
    requires |vals| == |ops| + 1
    decreases |ops|
  {
    if ops == [] then vals[0]
    else LeftSum(vals[..|ops|], ops[..|ops| - 1]) + Signed(ops[|ops| - 1], vals[|ops|])
  }

  /** The operands with an odd number of minus signs before their own sign, each with its own sign; odd tells whether
      the number of minus signs before the chain is odd. */
  function Flipped(vals: seq<real>, ops: seq<BinaryOp>, odd: bool): real
    requires |vals| == |ops| + 1
    decreases |ops|
  {
    if ops == [] then 0.0
    else (if odd then Signed(ops[0], vals[1]) else 0.0) + Flipped(vals[1..], ops[1..], odd != (ops[0] == Sub))
  }

  /** The usual grouping. */
  function LeftGroup(atoms: seq<Expr>, ops: seq<BinaryOp>): Expr
    requires |atoms| == |ops| + 1
    decreases |ops|
  {
    if ops == [] then atoms[0]
    else Binary(ops[|ops| - 1], LeftGroup(atoms[..|ops|], ops[..|ops| - 1]), atoms[|ops|])
  }

  lemma OneNumber(env: Env, op: BinaryOp, l: Expr, r: Expr, whole: bool, x: real, y: real)
    requires op == Sub || (whole && op == Add)
    requires whole ==> x.Floor as real == x && y.Floor as real == y
    requires Stands(env, l, Num(whole, x)) && Stands(env, r, Num(whole, y))
    ensures Stands(env, Binary(op, l, r), Num(whole, x + Signed(op, y)))
    ensures whole ==> (x + Signed(op, y)).Floor as real == x + Signed(op, y)
  {
    Applied(env, op, l, r, Num(whole, x), Num(whole, y));
    if whole {
      var n := x.Floor + if op == Sub then -y.Floor else y.Floor;
      assert n as real == x + Signed(op, y);
    }
  }

  lemma {:induction false} RightValue(env: Env, atoms: seq<Expr>, ops: seq<BinaryOp>, whole: bool, vals: seq<real>)
    requires PlusMinus(env, atoms, ops, whole, vals)
    ensures Stands(env, Group(atoms, ops), Num(whole, RightSum(vals, ops)))
    ensures whole ==> RightSum(vals, ops).Floor as real == RightSum(vals, ops)
    decreases |ops|
  {
    hide Stands, Num, OpLevel, Signed;
    if ops != [] {
      assert OneLevel(ops) by { SameLevel(ops); }
      FirstIsLast(atoms, ops);
      RightValue(env, atoms[1..], ops[1..], whole, vals[1..]);
      hide Group;
      OneNumber(env, ops[0], atoms[0], Group(atoms[1..], ops[1..]), whole, vals[0], RightSum(vals[1..], ops[1..]));
    }
  }

  lemma SameLevel(ops: seq<BinaryOp>)
    requires forall i :: 0 <= i < |ops| ==> ops[i] == Sub || ops[i] == Add
    ensures OneLevel(ops)
  {
  }

  lemma {:induction false} LeftValue(env: Env, atoms: seq<Expr>, ops: seq<BinaryOp>, whole: bool, vals: seq<real>)
    requires PlusMinus(env, atoms, ops, whole, vals)
    ensures Stands(env, LeftGroup(atoms, ops), Num(whole, LeftSum(vals, ops)))
    ensures whole ==> LeftSum(vals, ops).Floor as real == LeftSum(vals, ops)
    decreases |ops|
  {
    hide Stands, Num, Signed;
    var n := |ops|;
    if n > 0 {
      LeftValue(env, atoms[..n], ops[..n - 1], whole, vals[..n]);
      OneNumber(env, ops[n - 1], LeftGroup(atoms[..n], ops[..n - 1]), atoms[n], whole, LeftSum(vals[..n], ops[..n - 1]),
          vals[n]);
    }
  }

  /** The first operand apart, the usual sum can be taken from the front as well. */
  lemma {:induction false} LeftFromFront(vals: seq<real>, ops: seq<BinaryOp>)
    requires |vals| == |ops| + 1 && ops != []
    ensures LeftSum(vals, ops) == vals[0] + Signed(ops[0], vals[1]) + (LeftSum(vals[1..], ops[1..]) - vals[1])
    decreases |ops|
  {
    var n := |ops|;
    if n > 1 {
      LeftFromFront(vals[..n], ops[..n - 1]);
      assert vals[..n][1..] == vals[1..][..n - 1] && ops[..n - 1][1..] == ops[1..][..n - 2];
    } else {
      assert vals[..1] == [vals[0]] && ops[..0] == [] && ops[1..] == [];
    }
  }

  lemma {:induction false} SumsApart(vals: seq<real>, ops: seq<BinaryOp>, odd: bool)
    requires |vals| == |ops| + 1
    requires forall i :: 0 <= i < |ops| ==> ops[i] == Sub || ops[i] == Add
    ensures (if odd then -(RightSum(vals, ops) - vals[0]) else RightSum(vals, ops) - vals[0])
         == LeftSum(vals, ops) - vals[0] - 2.0 * Flipped(vals, ops, odd)
    decreases |ops|
  {
    if ops != [] {
      SumsApart(vals[1..], ops[1..], odd != (ops[0] == Sub));
      LeftFromFront(vals, ops);
    }
  }

  /** A chain of plus and minus is grouped to the right. The value is the usual one if and only if the operands behind
      an odd number of minus signs, each with its own sign, add up to zero. */
  lemma PlusMinusChain(env: Env, atoms: seq<Expr>, ops: seq<BinaryOp>, whole: bool, vals: seq<real>)
    requires PlusMinus(env, atoms, ops, whole, vals)
    ensures Compute(env, PrintFlat(atoms, ops)) == Some(Num(whole, RightSum(vals, ops)))
    ensures ValueOf(env, LeftGroup(atoms, ops)) == Some(Num(whole, LeftSum(vals, ops)))
    ensures Compute(env, PrintFlat(atoms, ops)) == ValueOf(env, LeftGroup(atoms, ops)) <==>
        Flipped(vals, ops, false) == 0.0
  {
    ComputeFlat(env, atoms, ops);
    RightValue(env, atoms, ops, whole, vals);
    LeftValue(env, atoms, ops, whole, vals);
    SumsApart(vals, ops, false);
    hide Compute, PrintFlat, Group, LeftGroup, Eval;
  }

  /** With three ints: a - b - c and a - b + c are what one expects exactly when c is 0, a + b - c and a + b + c always.
      */
  lemma ThreeTerms(env: Env, a: int, b: int, c: int, first: BinaryOp, second: BinaryOp)
    requires first in {Add, Sub} && second in {Add, Sub}
    ensures var tokens := [Operand(Int(a)), Infix(first), Operand(Int(b)), Infix(second), Operand(Int(c))];
      Compute(env, tokens) == ValueOf(env, Binary(second, Binary(first, Leaf(Int(a)), Leaf(Int(b))), Leaf(Int(c))))
      <==> first == Add || c == 0
  {
    var atoms, ops, vals := [Leaf(Int(a)), Leaf(Int(b)), Leaf(Int(c))], [first, second],
        [a as real, b as real, c as real];
    PlusMinusChain(env, atoms, ops, true, vals);
    ThreeFlat(atoms, ops);
    ThreeFlipped(vals, ops);
    assert PrintFlat(atoms, ops) == [Operand(Int(a)), Infix(first), Operand(Int(b)), Infix(second), Operand(Int(c))];
  }

  lemma ThreeFlipped(vals: seq<real>, ops: seq<BinaryOp>)
    requires |vals| == 3 && |ops| == 2
    ensures Flipped(vals, ops, false) == if ops[0] == Sub then Signed(ops[1], vals[2]) else 0.0
  {
    assert Flipped(vals[1..][1..], ops[1..][1..], (ops[0] == Sub) != (ops[1] == Sub)) == 0.0;
    assert Flipped(vals[1..], ops[1..], ops[0] == Sub) == if ops[0] == Sub then Signed(ops[1], vals[2]) else 0.0;
  }

  lemma ThreeFlat(atoms: seq<Expr>, ops: seq<BinaryOp>)
    requires |atoms| == 3 && |ops| == 2
    ensures PrintFlat(atoms, ops)
        == Print(atoms[0]) + [Infix(ops[0])] + (Print(atoms[1]) + [Infix(ops[1])] + Print(atoms[2]))
    ensures LeftGroup(atoms, ops) == Binary(ops[1], Binary(ops[0], atoms[0], atoms[1]), atoms[2])
  {
    assert PrintFlat(atoms[1..][1..], ops[1..][1..]) == Print(atoms[2]);
    assert PrintFlat(atoms[1..], ops[1..]) == Print(atoms[1]) + [Infix(ops[1])] + Print(atoms[2]);
    assert LeftGroup(atoms[..2][..1], ops[..1][..0]) == atoms[0];
    assert LeftGroup(atoms[..2], ops[..1]) == Binary(ops[0], atoms[0], atoms[1]);
  }

  // --- remainders ---

  function RemainderOf(a: int, b: int): Option<int> {
    if b == 0 then None else Some(Remainder(a, b))
  }

  /** Remainders taken from the right. */
  function RightRemainder(vals: seq<int>): Option<int>
    requires vals != []
  {
    if |vals| == 1 then Some(vals[0])
    else
      var rest := RightRemainder(vals[1..]);
      if rest.None? then None else RemainderOf(vals[0], rest.value)
  }

  /** Remainders of a taken from the left. */
  function LeftRemainder(a: int, divisors: seq<int>): Option<int>
    decreases |divisors|
  {
    if divisors == [] then Some(a)
    else if divisors[0] == 0 then None
    else LeftRemainder(Remainder(a, divisors[0]), divisors[1..])
  }

  function IntValue(r: Option<int>): Option<JinjaVar> {
    if r.None? then None else Some(Int(r.value))
  }

  function Size(n: int): nat {
    if n < 0 then -n else n
  }

  lemma SmallRemainder(a: int, b: int)
    requires b != 0 && Size(a) < Size(b)
    ensures Remainder(a, b) == a
  {
    Divide(0, Size(b), Size(a));
  }

  lemma SelfRemainder(a: int)
    requires a != 0
    ensures Remainder(a, a) == 0
  {
  }

  lemma RemainderSize(a: int, b: int)
    requires b != 0
    ensures Size(Remainder(a, b)) < Size(b)
  {
  }

  lemma {:induction false} LeftFromBack(a: int, divisors: seq<int>)
    requires divisors != []
    ensures var n := |divisors| - 1; var init := LeftRemainder(a, divisors[..n]);
      LeftRemainder(a, divisors) == if init.None? then None else RemainderOf(init.value, divisors[n])
    decreases |divisors|
  {
    hide Remainder;
    var n := |divisors| - 1;
    if n == 0 {
      assert divisors[..0] == [] && divisors[1..] == [];
    } else if divisors[0] != 0 {
      LeftFromBack(Remainder(a, divisors[0]), divisors[1..]);
      assert divisors[1..][..n - 1] == divisors[..n][1..];
    }
  }

  /** A chain of remainders over ints. */
  predicate Remainders(env: Env, atoms: seq<Expr>, ops: seq<BinaryOp>, vals: seq<int>) {
    && |atoms| == |vals| == |ops| + 1 && AllAtoms(atoms)
    && (forall i :: 0 <= i < |ops| ==> ops[i] == Mod)
    && (forall i :: 0 <= i < |vals| ==> Stands(env, atoms[i], Int(vals[i])))
  }

  lemma OneRemainder(env: Env, l: Expr, r: Expr, a: int, b: int)
    requires Stands(env, l, Int(a)) && Stands(env, r, Int(b))
    ensures Eval(env, Binary(Mod, l, r)) == IntValue(RemainderOf(a, b))
    ensures b != 0 ==> Stands(env, Binary(Mod, l, r), Int(Remainder(a, b)))
  {
    hide Remainder;
    Applied(env, Mod, l, r, Int(a), Int(b));
  }

  /** What an expression is worth as an operand: the number, or nothing. */
  predicate Comes(env: Env, e: Expr, r: Option<int>) {
    if r.None? then Eval(env, e).None? else Stands(env, e, Int(r.value))
  }

  lemma {:induction false} RightRemainderValue(env: Env, atoms: seq<Expr>, ops: seq<BinaryOp>, vals: seq<int>)
    requires Remainders(env, atoms, ops, vals)
    ensures Comes(env, Group(atoms, ops), RightRemainder(vals))
    decreases |ops|
  {
    hide Stands, OpLevel, Remainder;
    if ops != [] {
      assert OneLevel(ops);
      FirstIsLast(atoms, ops);
      RightRemainderValue(env, atoms[1..], ops[1..], vals[1..]);
      hide Group;
      if RightRemainder(vals[1..]).Some? {
        OneRemainder(env, atoms[0], Group(atoms[1..], ops[1..]), vals[0], RightRemainder(vals[1..]).value);
      }
    }
  }

  lemma {:induction false} LeftRemainderValue(env: Env, atoms: seq<Expr>, ops: seq<BinaryOp>, vals: seq<int>)
    requires Remainders(env, atoms, ops, vals)
    ensures Comes(env, LeftGroup(atoms, ops), LeftRemainder(vals[0], vals[1..]))
    decreases |ops|
  {
    hide Stands, OpLevel, Remainder;
    var n := |ops|;
    if n > 0 {
      LeftRemainderValue(env, atoms[..n], ops[..n - 1], vals[..n]);
      LeftFromBack(vals[0], vals[1..]);
      assert vals[..n][1..] == vals[1..][..n - 1];
      var init := LeftRemainder(vals[0], vals[1..][..n - 1]);
      hide LeftRemainder;
      if init.Some? {
        OneRemainder(env, LeftGroup(atoms[..n], ops[..n - 1]), atoms[n], init.value, vals[n]);
      }
    }
  }

  /** The program takes the remainders of a chain from the right. */
  lemma RemainderChain(env: Env, atoms: seq<Expr>, ops: seq<BinaryOp>, vals: seq<int>)
    requires Remainders(env, atoms, ops, vals)
    ensures Compute(env, PrintFlat(atoms, ops)) == IntValue(RightRemainder(vals))
    ensures ValueOf(env, LeftGroup(atoms, ops)) == IntValue(LeftRemainder(vals[0], vals[1..]))
  {
    ComputeFlat(env, atoms, ops);
    RightRemainderValue(env, atoms, ops, vals);
    LeftRemainderValue(env, atoms, ops, vals);
    hide Compute, PrintFlat, Group, LeftGroup, RightRemainder, LeftRemainder;
  }

  predicate HasZero(divisors: seq<int>) {
    exists i :: 0 <= i < |divisors| && divisors[i] == 0
  }

  lemma {:induction false} ZeroLeft(a: int, divisors: seq<int>)
    ensures LeftRemainder(a, divisors).None? <==> HasZero(divisors)
    decreases |divisors|
  {
    hide Remainder;
    if divisors != [] && divisors[0] != 0 {
      ZeroLeft(Remainder(a, divisors[0]), divisors[1..]);
      assert forall i :: 0 < i < |divisors| ==> divisors[i] == divisors[1..][i - 1];
    }
  }

  lemma {:induction false} ZeroRight(divisors: seq<int>)
    requires HasZero(divisors)
    ensures RightRemainder(divisors).None? || RightRemainder(divisors) == Some(0)
    decreases |divisors|
  {
    hide Remainder;
    if |divisors| > 1 {
      var rest := RightRemainder(divisors[1..]);
      if divisors[0] == 0 {
        if rest.Some? && rest.value != 0 {
          SmallRemainder(0, rest.value);
        }
      } else {
        assert forall i :: 0 < i < |divisors| ==> divisors[i] == divisors[1..][i - 1];
        ZeroRight(divisors[1..]);
      }
    }
  }

  /** A remainder taken from the right is not larger than any number of the chain. */
  lemma {:induction false} RightIsSmall(vals: seq<int>)
    requires vals != [] && RightRemainder(vals).Some?
    ensures forall i :: 0 <= i < |vals| ==> Size(RightRemainder(vals).value) <= Size(vals[i])
    decreases |vals|
  {
    hide Remainder;
    if |vals| > 1 {
      RightIsSmall(vals[1..]);
      var r := RightRemainder(vals[1..]).value;
      RemainderSize(vals[0], r);
      if Size(vals[0]) < Size(r) {
        SmallRemainder(vals[0], r);
      }
      assert forall i :: 0 < i < |vals| ==> vals[i] == vals[1..][i - 1];
    }
  }

  /** A number smaller than all divisors stays as it is. */
  lemma {:induction false} LeftOfSmall(a: int, divisors: seq<int>)
    requires forall i :: 0 <= i < |divisors| ==> Size(a) < Size(divisors[i])
    ensures LeftRemainder(a, divisors) == Some(a)
    decreases |divisors|
  {
    hide Remainder;
    if divisors != [] {
      SmallRemainder(a, divisors[0]);
      LeftOfSmall(a, divisors[1..]);
    }
  }

  lemma RightOf(a: int, divisors: seq<int>)
    requires divisors != []
    ensures var r := RightRemainder(divisors);
      RightRemainder([a] + divisors) == if r.None? then None else RemainderOf(a, r.value)
  {
    hide Remainder;
    assert ([a] + divisors)[1..] == divisors;
  }

  /** The first divisor is smaller than what the remainders of the others come to. */
  predicate FirstIsSmallest(divisors: seq<int>)
    requires |divisors| > 1
  {
    var r := RightRemainder(divisors[1..]);
    r.Some? && Size(divisors[0]) < Size(r.value)
  }

  /** Given the divisors of a chain, taking the remainders from the right is the same as from the left for all dividends
      if and only if there is only one divisor, or one of them is 0, or the first is smaller than what the remainders of
      the others, taken from the right, come to. */
  lemma RemaindersAgree(divisors: seq<int>)
    requires divisors != []
    ensures (forall a :: RightRemainder([a] + divisors) == LeftRemainder(a, divisors)) <==>
            |divisors| == 1 || HasZero(divisors) || FirstIsSmallest(divisors)
  {
    hide Remainder, HasZero;
    forall a ensures LeftRemainder(a, divisors).None? <==> HasZero(divisors) {
      ZeroLeft(a, divisors);
    }
    forall a ensures RightRemainder([a] + divisors) == var r := RightRemainder(divisors);
        if r.None? then None else RemainderOf(a, r.value)
    {
      RightOf(a, divisors);
    }
    if HasZero(divisors) {
      ZeroRight(divisors);
    } else if |divisors| == 1 {
      OneDivisor(divisors);
    } else if FirstIsSmallest(divisors) {
      AgreeAll(divisors);
    } else {
      var a := DisagreeSome(divisors);
    }
  }

  lemma OneDivisor(divisors: seq<int>)
    requires |divisors| == 1 && !HasZero(divisors)
    ensures forall a :: RightRemainder([a] + divisors) == LeftRemainder(a, divisors)
  {
    hide Remainder;
    forall a ensures RightRemainder([a] + divisors) == LeftRemainder(a, divisors) {
      RightOf(a, divisors);
      assert divisors[1..] == [];
    }
  }

  lemma AgreeAll(divisors: seq<int>)
    requires |divisors| > 1 && !HasZero(divisors) && FirstIsSmallest(divisors)
    ensures forall a :: RightRemainder([a] + divisors) == LeftRemainder(a, divisors)
  {
    hide Remainder;
    var b := divisors[0];
    SmallRemainder(b, RightRemainder(divisors[1..]).value);
    RightIsSmall(divisors[1..]);
    forall a ensures RightRemainder([a] + divisors) == LeftRemainder(a, divisors) {
      RightOf(a, divisors);
      RemainderSize(a, b);
      LeftOfSmall(Remainder(a, b), divisors[1..]);
    }
  }

  lemma DisagreeSome(divisors: seq<int>) returns (a: int)
    requires |divisors| > 1 && !HasZero(divisors) && !FirstIsSmallest(divisors)
    ensures RightRemainder([a] + divisors) != LeftRemainder(a, divisors)
  {
    hide Remainder;
    var right := RightRemainder(divisors);
    a := if right.Some? then right.value else 0;
    RightOf(a, divisors);
    ZeroLeft(a, divisors);
    if right.Some? && right.value != 0 {
      var r := RightRemainder(divisors[1..]).value;
      RemainderSize(divisors[0], r);
      RightIsSmall(divisors[1..]);
      assert forall i :: 0 < i < |divisors| ==> divisors[i] == divisors[1..][i - 1];
      LeftOfSmall(a, divisors);
      SelfRemainder(a);
    }
  }

  // --- and, or ---

  /** A chain of `and` and `or` over operands that are true or false. */
  predicate AndOr(env: Env, atoms: seq<Expr>, ops: seq<BinaryOp>, vals: seq<JinjaVar>, truths: seq<bool>) {
    && |atoms| == |vals| == |truths| == |ops| + 1 && AllAtoms(atoms)
    && (forall i :: 0 <= i < |ops| ==> ops[i] == And || ops[i] == Or)
    && (forall i :: 0 <= i < |vals| ==> Stands(env, atoms[i], vals[i]) && BoolValue(vals[i]) == Some(truths[i]))
  }

  function RightTruth(truths: seq<bool>, ops: seq<BinaryOp>): bool
    requires |truths| == |ops| + 1
    decreases |ops|
  {
    if ops == [] then truths[0]
    else if ops[0] == And then truths[0] && RightTruth(truths[1..], ops[1..])
    else truths[0] || RightTruth(truths[1..], ops[1..])
  }

  /** How many operators stand before the first `or`. */
  function FirstOr(ops: seq<BinaryOp>): (k: nat)
    ensures k <= |ops|
    ensures forall i :: 0 <= i < k ==> ops[i] != Or
    ensures k < |ops| ==> ops[k] == Or
  {
    if ops == [] || ops[0] == Or then 0 else 1 + FirstOr(ops[1..])
  }

  /** The usual grouping: `and` binds tighter than `or`. */
  function UsualGroup(atoms: seq<Expr>, ops: seq<BinaryOp>): Expr
    requires |atoms| == |ops| + 1
    decreases |ops|
  {
    var k := FirstOr(ops);
    if k == |ops| then Group(atoms, ops)
    else Binary(Or, Group(atoms[..k + 1], ops[..k]), UsualGroup(atoms[k + 1..], ops[k + 1..]))
  }

  /** Some stretch between two `or`s is true throughout. */
  ghost function UsualTruth(truths: seq<bool>, ops: seq<BinaryOp>): bool
    requires |truths| == |ops| + 1
    decreases |ops|
  {
    var k := FirstOr(ops);
    (forall i :: 0 <= i <= k ==> truths[i]) || (k < |ops| && UsualTruth(truths[k + 1..], ops[k + 1..]))
  }

  /** An `and` behind a false operand cuts off a stretch that is true: everything before it leaves the value open (true
      before an `and`, false before an `or`), and a later stretch between two `or`s is true. */
  ghost predicate CutsOff(truths: seq<bool>, ops: seq<BinaryOp>)
    requires |truths| == |ops| + 1
  {
    exists i :: 0 <= i < |ops| && CutsAt(truths, ops, i)
  }

  ghost predicate CutsAt(truths: seq<bool>, ops: seq<BinaryOp>, i: nat)
    requires |truths| == |ops| + 1 && i < |ops|
  {
    && ops[i] == And && !truths[i]
    && (forall j :: 0 <= j < i ==> truths[j] == (ops[j] == And))
    && var k := i + FirstOr(ops[i..]);
       k < |ops| && UsualTruth(truths[k + 1..], ops[k + 1..])
  }

  lemma {:induction false} RightTruthValue(env: Env, atoms: seq<Expr>, ops: seq<BinaryOp>, vals: seq<JinjaVar>,
      truths: seq<bool>)
    requires AndOr(env, atoms, ops, vals, truths)
    ensures Stands(env, Group(atoms, ops), if ops == [] then vals[0] else FromBool(RightTruth(truths, ops)))
    decreases |ops|
  {
    hide Stands, BoolValue, OpLevel;
    if ops != [] {
      assert OneLevel(ops) by { OneTruthLevel(ops); }
      FirstIsLast(atoms, ops);
      RightTruthValue(env, atoms[1..], ops[1..], vals[1..], truths[1..]);
      hide Group;
      var rest := if ops[1..] == [] then vals[1] else FromBool(RightTruth(truths[1..], ops[1..]));
      TruthOf(RightTruth(truths[1..], ops[1..]));
      OneTruth(env, ops[0], atoms[0], Group(atoms[1..], ops[1..]), vals[0], rest, truths[0],
          RightTruth(truths[1..], ops[1..]));
    }
  }

  lemma TruthOf(b: bool)
    ensures BoolValue(FromBool(b)) == Some(b)
  {
  }

  lemma OneTruthLevel(ops: seq<BinaryOp>)
    requires forall i :: 0 <= i < |ops| ==> ops[i] == And || ops[i] == Or
    ensures OneLevel(ops)
  {
  }

  lemma OneTruth(env: Env, op: BinaryOp, l: Expr, r: Expr, v: JinjaVar, w: JinjaVar, x: bool, y: bool)
    requires op == And || op == Or
    requires Stands(env, l, v) && Stands(env, r, w) && BoolValue(v) == Some(x) && BoolValue(w) == Some(y)
    ensures Stands(env, Binary(op, l, r), FromBool(if op == And then x && y else x || y))
  {
    Applied(env, op, l, r, v, w);
  }

  lemma {:induction false} AllAnd(truths: seq<bool>, ops: seq<BinaryOp>)
    requires |truths| == |ops| + 1 && forall i :: 0 <= i < |ops| ==> ops[i] == And
    ensures RightTruth(truths, ops) <==> forall i :: 0 <= i < |truths| ==> truths[i]
    decreases |ops|
  {
    if ops != [] {
      AllAnd(truths[1..], ops[1..]);
      assert truths == [truths[0]] + truths[1..];
    }
  }

  lemma {:induction false} UsualTruthValue(env: Env, atoms: seq<Expr>, ops: seq<BinaryOp>, vals: seq<JinjaVar>,
      truths: seq<bool>)
    requires AndOr(env, atoms, ops, vals, truths)
    ensures Stands(env, UsualGroup(atoms, ops), if ops == [] then vals[0] else FromBool(UsualTruth(truths, ops)))
    ensures ops == [] ==> UsualTruth(truths, ops) == truths[0]
    decreases |ops|
  {
    hide Stands, BoolValue, Group, AndOr, RightTruth;
    var k := FirstOr(ops);
    OnlyAndOr(env, atoms, ops, vals, truths);
    if k == |ops| {
      RightTruthValue(env, atoms, ops, vals, truths);
      AllAnd(truths, ops);
      NoOperator(truths, ops);
    } else {
      FrontTruth(env, atoms, ops, vals, truths, k);
      RightTruthValue(env, atoms[..k + 1], ops[..k], vals[..k + 1], truths[..k + 1]);
      AllAnd(truths[..k + 1], ops[..k]);
      UsualTruthValue(env, atoms[k + 1..], ops[k + 1..], vals[k + 1..], truths[k + 1..]);
      TruthOf(RightTruth(truths[..k + 1], ops[..k]));
      TruthOf(UsualTruth(truths[k + 1..], ops[k + 1..]));
      OneTruth(env, Or, Group(atoms[..k + 1], ops[..k]), UsualGroup(atoms[k + 1..], ops[k + 1..]),
               if k == 0 then vals[0] else FromBool(RightTruth(truths[..k + 1], ops[..k])),
               if ops[k + 1..] == [] then vals[k + 1] else FromBool(UsualTruth(truths[k + 1..], ops[k + 1..])),
               RightTruth(truths[..k + 1], ops[..k]), UsualTruth(truths[k + 1..], ops[k + 1..]));
    }
  }

  lemma OnlyAndOr(env: Env, atoms: seq<Expr>, ops: seq<BinaryOp>, vals: seq<JinjaVar>, truths: seq<bool>)
    requires AndOr(env, atoms, ops, vals, truths)
    ensures |atoms| == |vals| == |truths| == |ops| + 1
    ensures forall i :: 0 <= i < FirstOr(ops) ==> ops[i] == And
  {
  }

  lemma NoOperator(truths: seq<bool>, ops: seq<BinaryOp>)
    requires |truths| == |ops| + 1
    ensures ops == [] ==> UsualTruth(truths, ops) == truths[0]
  {
  }

  lemma FrontTruth(env: Env, atoms: seq<Expr>, ops: seq<BinaryOp>, vals: seq<JinjaVar>, truths: seq<bool>, k: nat)
    requires AndOr(env, atoms, ops, vals, truths) && k < |ops|
    ensures AndOr(env, atoms[..k + 1], ops[..k], vals[..k + 1], truths[..k + 1])
    ensures AndOr(env, atoms[k + 1..], ops[k + 1..], vals[k + 1..], truths[k + 1..])
    ensures k == 0 ==> BoolValue(vals[0]) == Some(RightTruth(truths[..k + 1], ops[..k]))
    ensures ops[k + 1..] == [] ==> BoolValue(vals[k + 1]) == Some(truths[k + 1])
  {
  }

  lemma {:induction false} TruthsApart(truths: seq<bool>, ops: seq<BinaryOp>)
    requires |truths| == |ops| + 1
    requires forall i :: 0 <= i < |ops| ==> ops[i] == And || ops[i] == Or
    ensures RightTruth(truths, ops) != UsualTruth(truths, ops) <==> CutsOff(truths, ops)
    ensures RightTruth(truths, ops) ==> UsualTruth(truths, ops)
    decreases |ops|
  {
    if ops != [] {
      TruthsApart(truths[1..], ops[1..]);
      CutsStep(truths, ops);
      UsualStep(truths, ops);
    }
  }

  /** The usual value, from the front. */
  lemma UsualStep(truths: seq<bool>, ops: seq<BinaryOp>)
    requires |truths| == |ops| + 1 && ops != []
    requires forall i :: 0 <= i < |ops| ==> ops[i] == And || ops[i] == Or
    ensures ops[0] == Or ==> (UsualTruth(truths, ops) <==> truths[0] || UsualTruth(truths[1..], ops[1..]))
    ensures ops[0] == And && truths[0] ==> (UsualTruth(truths, ops) <==> UsualTruth(truths[1..], ops[1..]))
    ensures ops[0] == And && !truths[0] ==>
              (UsualTruth(truths, ops) <==> var k := FirstOr(ops);
                  k < |ops| && UsualTruth(truths[k + 1..], ops[k + 1..]))
  {
    var k := FirstOr(ops);
    if ops[0] == And {
      assert k == 1 + FirstOr(ops[1..]);
      assert k < |ops| ==> truths[1..][k..] == truths[k + 1..] && ops[1..][k..] == ops[k + 1..];
      assert (forall i :: 0 <= i <= k ==> truths[i]) <==> truths[0] && forall i :: 0 <= i <= k - 1 ==> truths[1..][i];
    }
  }

  lemma CutsStep(truths: seq<bool>, ops: seq<BinaryOp>)
    requires |truths| == |ops| + 1 && ops != []
    requires forall i :: 0 <= i < |ops| ==> ops[i] == And || ops[i] == Or
    ensures CutsOff(truths, ops) <==>
            if ops[0] == And && !truths[0] then var k := FirstOr(ops);
                k < |ops| && UsualTruth(truths[k + 1..], ops[k + 1..])
            else truths[0] == (ops[0] == And) && CutsOff(truths[1..], ops[1..])
  {
    hide CutsAt, UsualTruth, FirstOr;
    CutsFirst(truths, ops);
    forall i: nat | 0 < i < |ops|
      ensures CutsAt(truths, ops, i) <==> truths[0] == (ops[0] == And) && CutsAt(truths[1..], ops[1..], i - 1)
    {
      CutsLater(truths, ops, i);
    }
    if CutsOff(truths[1..], ops[1..]) && truths[0] == (ops[0] == And) {
      var i :| 0 <= i < |ops[1..]| && CutsAt(truths[1..], ops[1..], i);
      assert CutsAt(truths, ops, i + 1);
    }
  }

  lemma CutsFirst(truths: seq<bool>, ops: seq<BinaryOp>)
    requires |truths| == |ops| + 1 && ops != []
    ensures CutsAt(truths, ops, 0) <==>
            ops[0] == And && !truths[0] && var k := FirstOr(ops); k < |ops| && UsualTruth(truths[k + 1..], ops[k + 1..])
  {
    assert ops[0..] == ops;
  }

  lemma CutsLater(truths: seq<bool>, ops: seq<BinaryOp>, i: nat)
    requires |truths| == |ops| + 1 && 0 < i < |ops|
    ensures CutsAt(truths, ops, i) <==> truths[0] == (ops[0] == And) && CutsAt(truths[1..], ops[1..], i - 1)
  {
    hide UsualTruth, FirstOr;
    assert ops[1..][i - 1..] == ops[i..];
    var k := i + FirstOr(ops[i..]);
    assert k < |ops| ==> truths[1..][k..] == truths[k + 1..] && ops[1..][k..] == ops[k + 1..];
    OpenLater(truths, ops, i);
  }

  lemma OpenLater(truths: seq<bool>, ops: seq<BinaryOp>, i: nat)
    requires |truths| == |ops| + 1 && 0 < i < |ops|
    ensures (forall j :: 0 <= j < i ==> truths[j] == (ops[j] == And))
       <==> truths[0] == (ops[0] == And) && forall j :: 0 <= j < i - 1 ==> truths[1..][j] == (ops[1..][j] == And)
  {
    if truths[0] == (ops[0] == And) && forall j :: 0 <= j < i - 1 ==> truths[1..][j] == (ops[1..][j] == And) {
      forall j | 0 < j < i ensures truths[j] == (ops[j] == And) {
        assert truths[1..][j - 1] == truths[j] && ops[1..][j - 1] == ops[j];
      }
    }
  }

  /** `and` and `or` share a level. In every chain of them the value is the usual one unless an `and` behind a false
      operand cuts off a later stretch that is true; then the program says false where true is expected. */
  lemma AndOrChain(env: Env, atoms: seq<Expr>, ops: seq<BinaryOp>, vals: seq<JinjaVar>, truths: seq<bool>)
    requires AndOr(env, atoms, ops, vals, truths) && ops != []
    ensures Compute(env, PrintFlat(atoms, ops)) == Some(FromBool(RightTruth(truths, ops)))
    ensures ValueOf(env, UsualGroup(atoms, ops)) == Some(FromBool(UsualTruth(truths, ops)))
    ensures Compute(env, PrintFlat(atoms, ops)) != ValueOf(env, UsualGroup(atoms, ops)) <==> CutsOff(truths, ops)
  {
    ComputeFlat(env, atoms, ops);
    RightTruthValue(env, atoms, ops, vals, truths);
    UsualTruthValue(env, atoms, ops, vals, truths);
    TruthsApart(truths, ops);
    hide Compute, PrintFlat, Group, UsualGroup, Eval, CutsOff, UsualTruth, RightTruth;
  }

  /** x and y or z is computed as x and (y or z), which differs from the usual value exactly when x is false and z is
      true. */
  lemma AndThenOr(env: Env, x: Expr, y: Expr, z: Expr, vals: seq<JinjaVar>, truths: seq<bool>)
    requires AndOr(env, [x, y, z], [And, Or], vals, truths)
    ensures Compute(env, PrintFlat([x, y, z], [And, Or])) != ValueOf(env, Binary(Or, Binary(And, x, y), z)) <==>
        !truths[0] && truths[2]
  {
    var atoms, ops := [x, y, z], [And, Or];
    AndOrChain(env, atoms, ops, vals, truths);
    assert ops[1..] == [Or] && FirstOr(ops[1..]) == 0 && FirstOr(ops) == 1;
    assert atoms[2..] == [z] && ops[2..] == [] && atoms[..2] == [x, y] && ops[..1] == [And];
    FirstIsLast([x, y], [And]);
    assert [x, y][1..] == [y] && [And][1..] == [];
    assert UsualGroup(atoms, ops) == Binary(Or, Binary(And, x, y), z);
    assert truths[2..] == [truths[2]] && UsualTruth([truths[2]], []) == truths[2];
    assert ops[0..] == ops;
    assert CutsAt(truths, ops, 0) <==> !truths[0] && truths[2];
    assert !CutsAt(truths, ops, 1);
  }
}
