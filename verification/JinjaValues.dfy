/** Values of the template language, and what the operators do with them. An operation that the program reports as an
    error, by which it stops, has no value here. */
module JinjaValues {
  import opened Wrappers

  datatype JinjaVar =
    | Nothing(text: string)
    | Int(n: int)
    | Float(f: real)
    | Str(text: string)
    | Array(items: seq<JinjaVar>)
    | Dict(entries: map<string, JinjaVar>)

  type Env = map<string, JinjaVar>

  datatype BinaryOp = And | Or | Equal | NotEqual | In | Less | More | Add | Sub | Mul | Div | Mod

  /** The binding levels; brackets are below all of them. */
  function OpLevel(op: BinaryOp): int {
    match op
    case And | Or => -2
    case Equal | NotEqual | In | Less | More => 0
    case Add | Sub => 1
    case Mul | Div | Mod => 2
  }

  const NOT_LEVEL := -1

  /** The string field of a value; only names and strings have one. */
  function Text(v: JinjaVar): string {
    if v.Nothing? || v.Str? then v.text else ""
  }

  function BoolValue(v: JinjaVar): Option<bool> {
    if v.Int? then Some(v.n != 0)
    else if Text(v) == "false" then Some(false)
    else if v.Str? then Some(v.text != "")
    else if v.Array? then Some(v.items != [])
    else if v.Nothing? then Some(false)
    else None
  }

  function FromBool(b: bool): JinjaVar {
    Int(if b then 1 else 0)
  }

  predicate OccursAt(s: string, part: string, i: int) {
    0 <= i <= |s| - |part| && s[i..i + |part|] == part
  }

  predicate Contains(s: string, part: string) {
    exists i :: 0 <= i <= |s| && OccursAt(s, part, i)
  }

  /** The remainder that has the sign of the dividend. */
  function Remainder(a: int, b: int): (r: int)
    requires b != 0
    ensures (exists q :: a == q * b + r) && (r == 0 || (r > 0 <==>
        a > 0)) && -(if b < 0 then -b else b) < r < (if b < 0 then -b else b)
  {
    var m := if b < 0 then -b else b;
    var r := if a >= 0 then a % m else -((-a) % m);
    assert a == (if a >= 0 then (if b < 0 then -(a / m) else a / m) else (if b < 0 then (-a) / m else -((-a) / m))) * b
        + r;
    r
  }

  predicate SameKind(a: JinjaVar, b: JinjaVar) {
    || (a.Nothing? && b.Nothing?) || (a.Int? && b.Int?) || (a.Float? && b.Float?)
    || (a.Str? && b.Str?) || (a.Array? && b.Array?) || (a.Dict? && b.Dict?)
  }

  function EqualValue(a: JinjaVar, b: JinjaVar): Option<bool> {
    if b.Nothing? && b.text == "defined" then Some(!a.Nothing?)
    else if b.Nothing? && b.text == "string" then Some(a.Str?)
    else if !SameKind(a, b) then Some(false)
    else if a.Nothing? && b.text == "none" then Some(true)
    else if a.Array? || a.Dict? then None
    else Some(a == b)
  }

  function LessValue(a: JinjaVar, b: JinjaVar): Option<bool> {
    if a.Int? && b.Int? then Some(a.n < b.n)
    else if a.Float? && b.Float? then Some(a.f < b.f)
    else None
  }

  function OfBool(b: Option<bool>): Option<JinjaVar> {
    if b.Some? then Some(FromBool(b.value)) else None
  }

  /** The operators on values. */
  function Operate(op: BinaryOp, a: JinjaVar, b: JinjaVar): Option<JinjaVar> {
    match op
    case And =>
      var x := BoolValue(a);
      if x == Some(true) then OfBool(BoolValue(b)) else OfBool(x)
    case Or =>
      var x := BoolValue(a);
      if x == Some(false) then OfBool(BoolValue(b)) else OfBool(x)
    case Add =>
      if a.Str? && b.Str? then Some(Str(a.text + b.text))
      else if a.Int? && b.Int? then Some(Int(a.n + b.n))
      else None
    case Sub =>
      if a.Float? && b.Float? then Some(Float(a.f - b.f))
      else if a.Int? && b.Int? then Some(Int(a.n - b.n))
      else None
    case Mod => if a.Int? && b.Int? && b.n != 0 then Some(Int(Remainder(a.n, b.n))) else None
    case In =>
      if b.Dict? then Some(FromBool(Text(a) in b.entries))
      else if a.Str? && b.Str? then Some(FromBool(Contains(b.text, a.text)))
      else if b.Nothing? then Some(FromBool(a.Nothing?))
      else None
    case Equal => OfBool(EqualValue(a, b))
    case NotEqual =>
      var e := EqualValue(a, b);
      if e.Some? then Some(FromBool(!e.value)) else None
    case Less => OfBool(LessValue(a, b))
    case More => OfBool(LessValue(b, a))
    case Mul | Div => None
  }

  /** A name stands for its value, and a name without a value for nothing. */
  function Resolve(env: Env, v: JinjaVar): JinjaVar {
    if v.Nothing? then (if v.text in env then env[v.text] else Nothing("")) else v
  }

  predicate IsNumber(v: JinjaVar) {
    v.Int? || v.Float?
  }

  /** An operator on two operands as they stand in an expression: names are resolved, except the left one of `in`, which
      is taken as a key, and the words that only follow `is`. */
  function Apply(env: Env, op: BinaryOp, left: JinjaVar, right: JinjaVar): Option<JinjaVar> {
    if op == Sub then
      var a, b := Resolve(env, right), Resolve(env, left);
      if IsNumber(a) && IsNumber(b) then Operate(Sub, b, a) else None
    else
      var a := if op == In then left else Resolve(env, left);
      var b := if right.Nothing? && right.text != "defined" && right.text != "none"
          && right.text != "string" then Resolve(env, right) else right;
      Operate(op, a, b)
  }

  function Negate(env: Env, v: JinjaVar): Option<JinjaVar> {
    if v.Nothing? && v.text == "defined" then Some(Nothing("none"))
    else if v.Nothing? && v.text == "none" then Some(Nothing("defined"))
    else
      var a := Resolve(env, v);
      if a.Nothing? then Some(Int(1))
      else
        var b := BoolValue(a);
        if b.Some? then Some(FromBool(!b.value)) else None
  }
}
