/** What values, operators and blocks mean, value by value: which values a branch takes for true, what comparisons give,
    how operators of different levels go together, how ints are written, and in which order a loop runs. */
module JinjaMeaning {
  import opened Wrappers
  import opened JinjaValues
  import opened JinjaExpressions
  import opened JinjaTemplates

  // --- branches ---

  lemma ComputeOne(env: Env, v: JinjaVar)
    ensures Compute(env, [Operand(v)]) == Some(Resolve(env, v))
  {
    assert Print(Leaf(v)) == [Operand(v)];
    ComputePrint(env, Leaf(v));
  }

  /** A branch on a name: a string is true unless it is empty or "false", an int unless it is 0, an array unless it has
      no values; a name without a value is false, and floats and dictionaries stop the program. */
  lemma BranchOnName(name: string, body: Template, tail: Tail, s: State)
    ensures var r, yes, no := ExecNode(Branch([Operand(Nothing(name))], body, tail), s), Exec(body, s),
          ExecTail(tail, s);
      if name !in s.env then r == no
      else match s.env[name]
           case Str(t) => r == if t == "" || t == "false" then no else yes
           case Int(n) => r == if n == 0 then no else yes
           case Array(items) => r == if |items| > 0 then yes else no
           case Nothing(_) => r == no
           case Float(_) => r == None
           case Dict(_) => r == None
  {
    ComputeOne(s.env, Nothing(name));
  }

  /** A branch on `not x` does the opposite of a branch on x, and fails where that fails; "defined" and "none" are words
      here and not names. */
  lemma BranchOnNot(v: JinjaVar, s: State)
    requires v != Nothing("defined") && v != Nothing("none")
    ensures var c := Condition([Operand(v)], s);
      Condition([Not, Operand(v)], s) == if c.None? then None else Some(!c.value)
  {
    ComputeOne(s.env, v);
    var e := Negation(Leaf(v));
    assert Print(e) == [Not, Operand(v)];
    ComputePrint(s.env, e);
    var r := Negate(s.env, v);
    if r.Some? {
      assert r.value.Int? && Resolve(s.env, r.value) == r.value;
    }
  }

  // --- comparisons ---

  function Truth(b: bool): Option<JinjaVar> {
    Some(Int(if b then 1 else 0))
  }

  /** Of any two ints, exactly one of `<`, `==` and `>` holds; `!=` is the opposite of `==`. */
  lemma IntOrder(a: int, b: int)
    ensures Operate(Less, Int(a), Int(b)) == Truth(a < b)
    ensures Operate(Equal, Int(a), Int(b)) == Truth(a == b)
    ensures Operate(More, Int(a), Int(b)) == Truth(b < a)
    ensures Operate(NotEqual, Int(a), Int(b)) == Truth(a != b)
  {
  }

  lemma FloatOrder(a: real, b: real)
    ensures Operate(Less, Float(a), Float(b)) == Truth(a < b)
    ensures Operate(Equal, Float(a), Float(b)) == Truth(a == b)
    ensures Operate(More, Float(a), Float(b)) == Truth(b < a)
    ensures Operate(NotEqual, Float(a), Float(b)) == Truth(a != b)
  {
  }

  /** Values of different kinds are never equal. Strings are equal when their texts are; arrays and dictionaries cannot
      be
      compared. */
  lemma Equality(a: JinjaVar, b: JinjaVar)
    requires !a.Nothing? && !b.Nothing?
    ensures Operate(Equal, a, b) == Operate(Equal, b, a) && Operate(NotEqual, a, b) == Operate(NotEqual, b, a)
    ensures !SameKind(a, b) ==> Operate(Equal, a, b) == Truth(false)
    ensures a.Str? && b.Str? ==> Operate(Equal, a, b) == Truth(a.text == b.text)
    ensures SameKind(a, b) && (a.Array? || a.Dict?) ==> Operate(Equal, a, b) == Operate(NotEqual, a, b) == None
    ensures !(SameKind(a, b) && (a.Array? || a.Dict?)) ==>
        exists e: bool :: Operate(Equal, a, b) == Truth(e) && Operate(NotEqual, a, b) == Truth(!e)
  {
    if !(SameKind(a, b) && (a.Array? || a.Dict?)) {
      var e := EqualValue(a, b).value;
      assert Operate(Equal, a, b) == Truth(e) && Operate(NotEqual, a, b) == Truth(!e);
    }
  }

  /** The tests `is defined` and `is string`. */
  lemma Tests(env: Env, v: JinjaVar)
    ensures Apply(env, Equal, v, Nothing("defined")) == Truth(!Resolve(env, v).Nothing?)
    ensures Apply(env, Equal, v, Nothing("none")) == Truth(Resolve(env, v).Nothing?)
    ensures Apply(env, Equal, v, Nothing("string")) == Truth(Resolve(env, v).Str?)
  {
  }

  /** A string is in another one if and only if that one is the string with something in front and behind. */
  lemma InString(part: string, s: string)
    ensures Operate(In, Str(part), Str(s)) == Truth(exists front: string, back: string :: s == front + part + back)
  {
    if Contains(s, part) {
      var i :| 0 <= i <= |s| && OccursAt(s, part, i);
      assert s == s[..i] + part + s[i + |part|..];
    }
    forall front: string, back: string | s == front + part + back ensures Contains(s, part) {
      assert s[|front|..|front| + |part|] == part;
      assert OccursAt(s, part, |front|);
    }
  }

  /** A string is in a dictionary if and only if it is one of the keys; so is a name, taken as it stands. */
  lemma InDict(env: Env, key: string, entries: map<string, JinjaVar>)
    ensures Apply(env, In, Str(key), Dict(entries)) == Truth(key in entries.Keys)
    ensures Apply(env, In, Nothing(key), Dict(entries)) == Truth(key in entries.Keys)
  {
  }

  // --- operators of different levels ---

  lemma PrintPair(op: BinaryOp, x: JinjaVar, y: JinjaVar)
    ensures Print(Binary(op, Leaf(x), Leaf(y))) == [Operand(x), Infix(op), Operand(y)]
  {
    assert Print(Leaf(x)) == [Operand(x)] && Print(Leaf(y)) == [Operand(y)];
  }

  /** Where the first operator binds tighter, it is applied first. */
  lemma FirstFirst(env: Env, x: JinjaVar, f: BinaryOp, y: JinjaVar, g: BinaryOp, z: JinjaVar)
    requires OpLevel(f) > OpLevel(g)
    ensures var v := Apply(env, f, x, y);
      Compute(env, [Operand(x), Infix(f), Operand(y), Infix(g), Operand(z)])
      == if v.None? then None else Final(env, Apply(env, g, v.value, z))
  {
    var e := Binary(f, Leaf(x), Leaf(y));
    Levels(f);
    Levels(g);
    assert WellBracketed(Leaf(x)) && WellBracketed(Leaf(y)) && WellBracketed(Leaf(z)) && WellBracketed(e);
    PrintPair(f, x, y);
    assert Print(Leaf(z)) == [Operand(z)];
    assert Eval(env, Leaf(x)) == Some(x) && Eval(env, Leaf(y)) == Some(y) && Eval(env, Leaf(z)) == Some(z);
    ComputePrint(env, Binary(g, e, Leaf(z)));
    hide WellBracketed, Compute, Apply, Resolve;
    assert Eval(env, e) == Apply(env, f, x, y);
    assert Print(Binary(g, e, Leaf(z))) == [Operand(x), Infix(f), Operand(y), Infix(g), Operand(z)];
  }

  /** Where the second operator binds as tightly or tighter, it is. */
  lemma SecondFirst(env: Env, x: JinjaVar, f: BinaryOp, y: JinjaVar, g: BinaryOp, z: JinjaVar)
    requires OpLevel(g) >= OpLevel(f)
    ensures var v := Apply(env, g, y, z);
      Compute(env, [Operand(x), Infix(f), Operand(y), Infix(g), Operand(z)])
      == if v.None? then None else Final(env, Apply(env, f, x, v.value))
  {
    var e := Binary(g, Leaf(y), Leaf(z));
    Levels(f);
    Levels(g);
    assert WellBracketed(Leaf(x)) && WellBracketed(Leaf(y)) && WellBracketed(Leaf(z)) && WellBracketed(e);
    PrintPair(g, y, z);
    assert Print(Leaf(x)) == [Operand(x)];
    assert Eval(env, Leaf(x)) == Some(x) && Eval(env, Leaf(y)) == Some(y) && Eval(env, Leaf(z)) == Some(z);
    ComputePrint(env, Binary(f, Leaf(x), e));
    hide WellBracketed, Compute, Apply, Resolve;
    assert Eval(env, e) == Apply(env, g, y, z);
    assert Print(Binary(f, Leaf(x), e)) == [Operand(x), Infix(f), Operand(y), Infix(g), Operand(z)];
  }

  function Final(env: Env, v: Option<JinjaVar>): Option<JinjaVar> {
    if v.None? then None else Some(Resolve(env, v.value))
  }

  /** Remainders are taken before sums. */
  lemma RemainderBeforeSum(env: Env, x: int, y: int, z: int)
    ensures Compute(env, [Operand(Int(x)), Infix(Mod), Operand(Int(y)), Infix(Add), Operand(Int(z))])
         == if y == 0 then None else Some(Int(Remainder(x, y) + z))
    ensures Compute(env, [Operand(Int(x)), Infix(Add), Operand(Int(y)), Infix(Mod), Operand(Int(z))])
         == if z == 0 then None else Some(Int(x + Remainder(y, z)))
  {
    FirstFirst(env, Int(x), Mod, Int(y), Add, Int(z));
    SecondFirst(env, Int(x), Add, Int(y), Mod, Int(z));
    hide Compute, Remainder;
  }

  /** Strings are added by writing them one behind the other; a string and a number cannot be added. */
  lemma StringSums(env: Env, a: string, b: string, c: string, n: int)
    ensures Compute(env, [Operand(Str(a)), Infix(Add), Operand(Str(b)), Infix(Add), Operand(Str(c))])
         == Some(Str(a + b + c))
    ensures Compute(env, [Operand(Str(a)), Infix(Add), Operand(Str(b)), Infix(Add), Operand(Int(n))]) == None
  {
    SecondFirst(env, Str(a), Add, Str(b), Add, Str(c));
    SecondFirst(env, Str(a), Add, Str(b), Add, Int(n));
    hide Compute;
    assert a + (b + c) == a + b + c;
  }

  /** What the operators do not do: floats are subtracted but not added, numbers of different kinds are not ordered, and
      products and quotients fail. */
  lemma Unsupported(env: Env, a: JinjaVar, b: JinjaVar, x: real, y: real, n: int)
    ensures Compute(env, [Operand(a), Infix(Mul), Operand(b)]) == Compute(env, [Operand(a), Infix(Div), Operand(b)])
         == None
    ensures Compute(env, [Operand(Float(x)), Infix(Add), Operand(Float(y))]) == None
    ensures Compute(env, [Operand(Float(x)), Infix(Sub), Operand(Float(y))]) == Some(Float(x - y))
    ensures Compute(env, [Operand(Float(x)), Infix(Less), Operand(Int(n))]) == None
    ensures Compute(env, [Operand(Int(n)), Infix(More), Operand(Float(x))]) == None
  {
    ComputePair(env, a, Mul, b);
    ComputePair(env, a, Div, b);
    ComputePair(env, Float(x), Add, Float(y));
    ComputePair(env, Float(x), Sub, Float(y));
    ComputePair(env, Float(x), Less, Int(n));
    ComputePair(env, Int(n), More, Float(x));
    hide Compute;
  }

  lemma ComputePair(env: Env, x: JinjaVar, op: BinaryOp, y: JinjaVar)
    ensures Compute(env, [Operand(x), Infix(op), Operand(y)]) == Final(env, Apply(env, op, x, y))
  {
    var e := Binary(op, Leaf(x), Leaf(y));
    Levels(op);
    assert WellBracketed(Leaf(x)) && WellBracketed(Leaf(y)) && WellBracketed(e);
    PrintPair(op, x, y);
    ComputePrint(env, e);
    assert Eval(env, Leaf(x)) == Some(x) && Eval(env, Leaf(y)) == Some(y);
  }

  /** Sums are made before comparisons. */
  lemma SumBeforeComparison(env: Env, x: int, y: int, z: int)
    ensures Compute(env, [Operand(Int(x)), Infix(Add), Operand(Int(y)), Infix(Equal), Operand(Int(z))])
        == Truth(x + y == z)
    ensures Compute(env, [Operand(Int(x)), Infix(Less), Operand(Int(y)), Infix(Sub), Operand(Int(z))])
        == Truth(x < y - z)
  {
    FirstFirst(env, Int(x), Add, Int(y), Equal, Int(z));
    SecondFirst(env, Int(x), Less, Int(y), Sub, Int(z));
    hide Compute;
  }

  /** Comparisons are made before `and` and `or`. */
  lemma ComparisonBeforeLogic(env: Env, x: int, y: int, z: int)
    ensures Compute(env, [Operand(Int(x)), Infix(And), Operand(Int(y)), Infix(Less), Operand(Int(z))])
        == Truth(x != 0 && y < z)
    ensures Compute(env, [Operand(Int(x)), Infix(More), Operand(Int(y)), Infix(Or), Operand(Int(z))])
        == Truth(x > y || z != 0)
  {
    SecondFirst(env, Int(x), And, Int(y), Less, Int(z));
    FirstFirst(env, Int(x), More, Int(y), Or, Int(z));
    hide Compute;
  }

  /** `not` comes after comparisons, and before `and` and `or`. */
  lemma NotBetween(env: Env, x: int, y: int)
    ensures Compute(env, [Not, Operand(Int(x)), Infix(Equal), Operand(Int(y))]) == Truth(x != y)
    ensures Compute(env, [Not, Operand(Int(x)), Infix(Or), Operand(Int(y))]) == Truth(x == 0 || y != 0)
  {
    NotLast(env, x, y);
    NotEarly(env, x, y);
  }

  lemma NotLast(env: Env, x: int, y: int)
    ensures Compute(env, [Not, Operand(Int(x)), Infix(Equal), Operand(Int(y))]) == Truth(x != y)
  {
    var e := Binary(Equal, Leaf(Int(x)), Leaf(Int(y)));
    ComputePrint(env, Negation(e));
    PrintPair(Equal, Int(x), Int(y));
    assert Eval(env, Leaf(Int(x))) == Some(Int(x)) && Eval(env, Leaf(Int(y))) == Some(Int(y));
    assert Eval(env, e) == Truth(x == y);
    hide Compute, WellBracketed;
    assert Print(Negation(e)) == [Not, Operand(Int(x)), Infix(Equal), Operand(Int(y))];
  }

  lemma NotEarly(env: Env, x: int, y: int)
    ensures Compute(env, [Not, Operand(Int(x)), Infix(Or), Operand(Int(y))]) == Truth(x == 0 || y != 0)
  {
    var a, b := Leaf(Int(x)), Leaf(Int(y));
    ComputePrint(env, Binary(Or, Negation(a), b));
    assert Print(a) == [Operand(Int(x))] && Print(b) == [Operand(Int(y))];
    assert Print(Negation(a)) == [Not, Operand(Int(x))];
    assert Eval(env, a) == Some(Int(x)) && Eval(env, b) == Some(Int(y));
    assert Eval(env, Negation(a)) == Truth(x == 0);
    hide Compute, WellBracketed;
    assert Print(Binary(Or, Negation(a), b)) == [Not, Operand(Int(x)), Infix(Or), Operand(Int(y))];
  }

  // --- numbers in the output ---

  /** The number that a string of decimal digits stands for. */
  function NumberOf(s: string): int {
    if s == "" then 0 else NumberOf(s[..|s| - 1]) * 10 + (s[|s| - 1] as int - '0' as int)
  }

  function IntOf(s: string): int {
    if s != "" && s[0] == '-' then -NumberOf(s[1..]) else NumberOf(s)
  }

  predicate IsDecimal(s: string) {
    forall i :: 0 <= i < |s| ==> '0' <= s[i] <= '9'
  }

  lemma DigitIs(n: nat)
    requires n < 10
    ensures '0' <= "0123456789"[n] <= '9' && "0123456789"[n] as int == '0' as int + n
  {
    assert "0123456789"[n] == ('0' as int + n) as char;
  }

  lemma NumberStep(s: string, d: char)
    ensures NumberOf(s + [d]) == NumberOf(s) * 10 + (d as int - '0' as int)
  {
    assert (s + [d])[..|s|] == s;
  }

  /** Digits are decimal, without a zero in front, and read back as the number. */
  lemma {:induction false} DigitsRead(n: nat)
    ensures var s := Digits(n);
      s != "" && IsDecimal(s) && NumberOf(s) == n && (|s| > 1 ==> s[0] != '0') && (n > 0 ==> s[0] != '0')
  {
    DigitIs(n % 10);
    var d := "0123456789"[n % 10];
    if n < 10 {
      NumberStep("", d);
      assert Digits(n) == "" + [d];
    } else {
      DigitsRead(n / 10);
      NumberStep(Digits(n / 10), d);
      assert Digits(n) == Digits(n / 10) + [d];
      hide Digits, NumberOf;
    }
  }

  lemma {:induction false} PaddedRead(n: nat, width: nat)
    ensures var s := Padded(n, width);
      |s| == width && IsDecimal(s) && NumberOf(s) == n % Power(width)
  {
    if width > 0 {
      PaddedRead(n / 10, width - 1);
      DigitIs(n % 10);
      NumberStep(Padded(n / 10, width - 1), "0123456789"[n % 10]);
      SplitRemainder(n, Power(width - 1));
    }
  }

  function Power(k: nat): (p: nat)
    ensures p > 0
  {
    if k == 0 then 1 else 10 * Power(k - 1)
  }

  lemma SplitRemainder(n: nat, p: nat)
    requires p > 0
    ensures n % (10 * p) == (n / 10 % p) * 10 + n % 10
  {
    var q, r := n / 10 / p, n / 10 % p;
    assert n / 10 == q * p + r;
    assert n == (q * p + r) * 10 + n % 10 == q * (10 * p) + (r * 10 + n % 10);
    Quotient(n, 10 * p, q, r * 10 + n % 10);
  }

  lemma Quotient(n: nat, m: nat, q: nat, r: nat)
    requires n == q * m + r && r < m
    ensures n / m == q && n % m == r
  {
    var d := n / m - q;
    assert n == (n / m) * m + n % m;
    assert d * m == r - n % m;
    MultipleGrows(d, m);
  }

  lemma MultipleGrows(d: int, m: nat)
    ensures d == 0 || d * m >= m || -(d * m) >= m
  {
    if d >= 1 {
      assert (d - 1) * m >= 0;
    } else if d <= -1 {
      assert (-1 - d) * m >= 0;
    }
  }

  /** An int is written in decimal: reading the output back gives the int. */
  lemma IntWritten(n: int)
    ensures IntOf(DirectValue(Int(n))) == n
  {
    DigitsRead(if n < 0 then -n else n);
  }

  /** A float is written with six digits behind the point, which are off by half of the last one at most. */
  lemma FloatWritten(f: real) returns (whole: string, fraction: string)
    ensures DirectValue(Float(f)) == (if f < 0.0 then "-" else "") + whole + "." + fraction
    ensures IsDecimal(whole) && IsDecimal(fraction) && |fraction| == 6 && whole != ""
    ensures var size := if f < 0.0 then -f else f;
      -0.0000005 <= NumberOf(whole) as real + NumberOf(fraction) as real / 1000000.0 - size <= 0.0000005
  {
    hide Digits, Padded, NumberOf, IsDecimal;
    var size := if f < 0.0 then -f else f;
    var m := Rounded(size);
    whole, fraction := SixDigits(m);
    Millionths(NumberOf(whole), NumberOf(fraction), m);
  }

  lemma SixDigits(m: nat) returns (whole: string, fraction: string)
    ensures whole == Digits(m / 1000000) && fraction == Padded(m % 1000000, 6)
    ensures IsDecimal(whole) && IsDecimal(fraction) && |fraction| == 6 && whole != ""
    ensures NumberOf(whole) * 1000000 + NumberOf(fraction) == m
  {
    whole, fraction := Digits(m / 1000000), Padded(m % 1000000, 6);
    DigitsRead(m / 1000000);
    PaddedRead(m % 1000000, 6);
    PowerSix();
  }

  lemma Rounded(size: real) returns (m: nat)
    requires size >= 0.0
    ensures m == (size * 1000000.0 + 0.5).Floor
    ensures -0.0000005 <= m as real / 1000000.0 - size <= 0.0000005
  {
    m := (size * 1000000.0 + 0.5).Floor;
  }

  lemma PowerSix()
    ensures Power(6) == 1000000
  {
    assert Power(1) == 10 && Power(2) == 100 && Power(3) == 1000 && Power(4) == 10000 && Power(5) == 100000;
  }

  lemma Millionths(a: int, b: int, m: int)
    requires a * 1000000 + b == m
    ensures a as real + b as real / 1000000.0 == m as real / 1000000.0
  {
  }

  // --- the order of the keys ---

  /** a comes before b: it is a beginning of b, or has the smaller byte where they first differ. */
  ghost predicate Before(a: string, b: string) {
    || (a <= b && a != b)
    || exists k :: DiffersAt(a, b, k) && a[k] < b[k]
  }

  ghost predicate DiffersAt(a: string, b: string, k: int) {
    0 <= k < |a| && k < |b| && a[..k] == b[..k] && a[k] != b[k]
  }

  lemma SameBelow(a: string, b: string, k: int)
    requires DiffersAt(a, b, k)
    ensures forall j :: 0 <= j < k ==> a[j] == b[j]
  {
    forall j | 0 <= j < k ensures a[j] == b[j] {
      assert a[..k][j] == b[..k][j];
    }
  }

  lemma {:induction false} NotAfterMeaning(a: string, b: string)
    ensures NotAfter(a, b) <==> a == b || Before(a, b)
  {
    if a != "" && b != "" {
      var x, y := a[1..], b[1..];
      NotAfterMeaning(x, y);
      assert a == [a[0]] + x && b == [b[0]] + y;
      if a[0] != b[0] {
        assert DiffersAt(a, b, 0);
        forall k | DiffersAt(a, b, k) ensures k == 0 {
          SameBelow(a, b, k);
        }
      } else {
        forall k ensures DiffersAt(x, y, k) <==> DiffersAt(a, b, k + 1) {
          if 0 <= k < |x| && k < |y| {
            assert a[..k + 1] == [a[0]] + x[..k] && b[..k + 1] == [b[0]] + y[..k];
            assert a[..k + 1][1..] == x[..k] && b[..k + 1][1..] == y[..k];
          }
        }
        forall k | DiffersAt(a, b, k) ensures k > 0 {
        }
        TailBefore(a, b, x, y);
      }
    }
  }

  lemma TailBefore(a: string, b: string, x: string, y: string)
    requires a != "" && b != "" && a[0] == b[0] && x == a[1..] && y == b[1..]
    requires forall k :: DiffersAt(x, y, k) <==> DiffersAt(a, b, k + 1)
    requires forall k :: DiffersAt(a, b, k) ==> k > 0
    ensures Before(x, y) <==> Before(a, b)
    ensures x == y <==> a == b
  {
    assert a == [a[0]] + x && b == [b[0]] + y;
    if k :| DiffersAt(x, y, k) && x[k] < y[k] {
      assert DiffersAt(a, b, k + 1) && a[k + 1] < b[k + 1];
    }
    if k :| DiffersAt(a, b, k) && a[k] < b[k] {
      assert DiffersAt(x, y, k - 1 + 1 - 1) && x[k - 1] < y[k - 1];
    }
  }

  ghost predicate Ascending(keys: seq<string>) {
    forall i, j :: 0 <= i < j < |keys| ==> Before(keys[i], keys[j])
  }

  /** The values of a dictionary are taken in ascending order of their keys. */
  lemma {:induction false} ValuesAscending(entries: map<string, JinjaVar>) returns (keys: seq<string>)
    ensures Ascending(keys) && (forall k :: k in keys <==> k in entries)
    ensures |ValuesInOrder(entries)| == |keys|
    ensures forall i :: 0 <= i < |keys| ==> keys[i] in entries && ValuesInOrder(entries)[i] == entries[keys[i]]
    decreases |entries.Keys|
  {
    keys := [];
    if entries.Keys != {} {
      var first := FirstKey(entries.Keys);
      var rest := entries - {first};
      assert rest.Keys == entries.Keys - {first};
      var others := ValuesAscending(rest);
      assert ValuesInOrder(entries) == [entries[first]] + ValuesInOrder(rest);
      hide ValuesInOrder, Before;
      keys := FirstThen(entries, first, others);
    }
  }

  lemma FirstThen(entries: map<string, JinjaVar>, first: string, others: seq<string>) returns (keys: seq<string>)
    requires IsFirst(entries.Keys, first) && Ascending(others)
    requires forall k :: k in others <==> k in entries - {first}
    requires |ValuesInOrder(entries - {first})| == |others|
    requires forall i :: 0 <= i < |others| ==>
      others[i] in entries && ValuesInOrder(entries - {first})[i] == entries[others[i]]
    requires ValuesInOrder(entries) == [entries[first]] + ValuesInOrder(entries - {first})
    ensures keys == [first] + others && Ascending(keys) && (forall k :: k in keys <==> k in entries)
    ensures |ValuesInOrder(entries)| == |keys|
    ensures forall i :: 0 <= i < |keys| ==> keys[i] in entries && ValuesInOrder(entries)[i] == entries[keys[i]]
  {
    hide ValuesInOrder, Before, NotAfter, Ascending;
    keys := [first] + others;
    forall i | 0 <= i < |others| ensures Before(first, others[i]) {
      assert others[i] in entries - {first};
      NotAfterMeaning(first, others[i]);
    }
    ConsAscending(first, others);
    forall k ensures k in keys <==> k in entries {
      assert k in others <==> k in entries - {first};
    }
    forall i | 0 <= i < |keys| ensures keys[i] in entries && ValuesInOrder(entries)[i] == entries[keys[i]] {
      if i > 0 {
        assert keys[i] == others[i - 1] && ValuesInOrder(entries)[i] == ValuesInOrder(entries - {first})[i - 1];
      }
    }
  }

  lemma ConsAscending(first: string, others: seq<string>)
    requires Ascending(others) && forall i :: 0 <= i < |others| ==> Before(first, others[i])
    ensures Ascending([first] + others)
  {
    hide Before;
  }

  // --- loops ---

  function Texts(items: seq<JinjaVar>): string {
    if items == [] then "" else DirectValue(items[0]) + Texts(items[1..])
  }

  function Shown(id: string): Template {
    Then(Output([Operand(Nothing(id))]), Empty)
  }

  lemma ShowTurn(id: string, v: JinjaVar, s: State)
    requires id != "loop" && !v.Nothing?
    ensures Exec(Shown(id), State(s.env[id := v], s.out)) == Some(State(s.env[id := v], s.out + DirectValue(v)))
  {
    ComputeOne(s.env[id := v], Nothing(id));
  }

  /** The first turn of a loop that shows its variable. */
  lemma FirstTurn(id: string, items: seq<JinjaVar>, size: nat, s: State) returns (next: Env)
    requires id != "loop" && "loop" in s.env && s.env["loop"].Dict? && items != [] && !items[0].Nothing?
    ensures "loop" in next && next["loop"].Dict?
    ensures ExecLoop(id, Shown(id), items, size, s)
         == ExecLoop(id, Shown(id), items[1..], size, State(next, s.out + DirectValue(items[0])))
  {
    ShowTurn(id, items[0], s);
    hide Exec, DirectValue;
    next := Advance(s.env[id := items[0]], size).value;
  }

  lemma {:induction false} ShowTurns(id: string, items: seq<JinjaVar>, size: nat, s: State)
    requires id != "loop" && "loop" in s.env && s.env["loop"].Dict?
    requires forall i :: 0 <= i < |items| ==> !items[i].Nothing?
    ensures var end := ExecLoop(id, Shown(id), items, size, s); end.Some? && end.value.out == s.out + Texts(items)
    decreases |items|
  {
    hide Exec, Advance, DirectValue, Shown;
    if items != [] {
      var next := FirstTurn(id, items, size, s);
      hide ExecLoop;
      ShowTurns(id, items[1..], size, State(next, s.out + DirectValue(items[0])));
    } else {
      assert s.out + "" == s.out;
    }
  }

  function ValuesAt(entries: map<string, JinjaVar>, keys: seq<string>): seq<JinjaVar> {
    seq(|keys|, i requires 0 <= i < |keys| => Lookup(entries, keys[i]))
  }

  /** A loop over a named value, as far as the output goes. */
  lemma LoopOutput(id: string, name: string, body: Template, s: State)
    requires name in s.env
    ensures var r := ExecNode(Loop(id, [Operand(Nothing(name))], body), s);
      var over := Iterated(s.env[name]);
      && (over.None? ==> r == None)
      && (over.Some? ==>
            var end := ExecLoop(id, body, over.value.0, over.value.1, State(s.env["loop" := LOOP_START], s.out));
            if end.None? then r == None else r.Some? && r.value.out == end.value.out)
  {
    ComputeOne(s.env, Nothing(name));
    hide Compute, ExecLoop, Iterated;
  }

  /** A loop that shows its variable shows the values of an array from first to last; over anything but an array or a
      dictionary it fails. */
  lemma LoopShows(id: string, name: string, s: State)
    requires id != "loop" && name in s.env
    ensures var v, r := s.env[name], ExecNode(Loop(id, [Operand(Nothing(name))], Shown(id)), s);
      && (v.Array? && (forall i :: 0 <= i < |v.items| ==> !v.items[i].Nothing?) ==>
            r.Some? && r.value.out == s.out + Texts(v.items))
      && (!v.Array? && !v.Dict? ==> r == None)
  {
    hide ExecNode, ExecLoop, Shown, Texts;
    LoopOutput(id, name, Shown(id), s);
    var v := s.env[name];
    if v.Array? && forall i :: 0 <= i < |v.items| ==> !v.items[i].Nothing? {
      ShowTurns(id, v.items, |v.items|, State(s.env["loop" := LOOP_START], s.out));
    }
  }

  /** Over a dictionary it shows the values in ascending order of their keys. */
  lemma LoopShowsInOrder(id: string, name: string, s: State) returns (keys: seq<string>)
    requires id != "loop" && name in s.env && s.env[name].Dict?
    requires forall k :: k in s.env[name].entries ==> !s.env[name].entries[k].Nothing?
    ensures Ascending(keys) && forall k :: k in keys <==> k in s.env[name].entries
    ensures var r := ExecNode(Loop(id, [Operand(Nothing(name))], Shown(id)), s);
      r.Some? && r.value.out == s.out + Texts(ValuesAt(s.env[name].entries, keys))
  {
    hide ExecNode, ExecLoop, Shown, Texts, Ascending, ValuesInOrder;
    LoopOutput(id, name, Shown(id), s);
    var entries := s.env[name].entries;
    keys := ValuesAscending(entries);
    SameValues(entries, keys);
    ShowTurns(id, ValuesInOrder(entries), 0, State(s.env["loop" := LOOP_START], s.out));
  }

  lemma SameValues(entries: map<string, JinjaVar>, keys: seq<string>)
    requires |ValuesInOrder(entries)| == |keys|
    requires forall i :: 0 <= i < |keys| ==> keys[i] in entries && ValuesInOrder(entries)[i] == entries[keys[i]]
    ensures ValuesInOrder(entries) == ValuesAt(entries, keys)
  {
    hide ValuesInOrder;
  }
}
