/** The meaning of a compute graph: a run of its ops over a store of named values. What the kernels compute is a
    parameter; only how they use rows and columns is fixed here. */
module GraphSemantics {
  import opened Arithmetic

  /** A weight or bias as it lies in memory, with its quantisation metadata. */
  datatype Data = Data(
    dataType: int, dims: seq<nat>, bytes: seq<int>,
    group: int, groupCnt: int, perChannelAxis: int,
    configs: seq<int>, zeros: seq<int>, scales: seq<real>, mins: seq<real>
  )

  const EMPTY_DATA := Data(0, [], [], -1, -1, -1, [], [], [], [])

  /** Everything that the product with one row of a weight depends on. */
  datatype Row = Row(
    dataType: int, columns: nat, group: int, groupCnt: int, perChannelAxis: int,
    bytes: seq<int>, configs: seq<int>, zeros: seq<int>, scales: seq<real>, mins: seq<real>
  )

  datatype Value = Nothing | Weight(data: Data) | Matrix(rows: seq<seq<real>>)

  type Store = map<string, Value>

  datatype Kernel = Kernel(
    dot: (Row, seq<real>) -> real,
    bias: (int, seq<int>) -> real,
    silu: real -> real,
    bytesOf: (int, seq<nat>) -> nat,
    split: (int, int, int, Value) -> Value,
    other: (string, seq<Value>) -> seq<Value>
  )

  datatype Op =
    | Linear(input: string, weight: string, bias: string, output: string)
    | Split(source: string, axis: int, start: int, end: int, output: string)
    | Silu(source: string, output: string)
    | MulTo(left: string, right: string)
    | Swiglu(source: string, output: string)
    | Other(kind: string, ins: seq<string>, outs: seq<string>)

  lemma PartBounds(n: nat, rows: nat, o: nat)
    requires o < rows
    ensures 0 <= o * (n / rows) && o * (n / rows) + n / rows <= n
  {
    SlotFits(o, rows, n / rows);
    DivTimes(n, rows);
  }

  /** Share o of a list that is dealt out evenly to the rows. */
  function Part<T>(s: seq<T>, rows: nat, o: nat): seq<T>
    requires o < rows
  {
    PartBounds(|s|, rows, o);
    var u := |s| / rows;
    s[o * u..o * u + u]
  }

  predicate HasRows(d: Data) {
    |d.dims| == 2 && d.dims[0] > 0
  }

  function RowAt(d: Data, o: nat): Row
    requires HasRows(d) && o < d.dims[0]
  {
    var n := d.dims[0];
    Row(d.dataType, d.dims[1], d.group, d.groupCnt, d.perChannelAxis, Part(d.bytes, n, o),
        Part(d.configs, n, o), Part(d.zeros, n, o), Part(d.scales, n, o), Part(d.mins, n, o))
  }

  /** A missing or empty bias adds nothing. */
  function BiasAt(k: Kernel, b: Value, o: nat): real {
    if b.Weight? && |b.data.dims| == 1
        && o < b.data.dims[0] then k.bias(b.data.dataType, Part(b.data.bytes, b.data.dims[0], o))
    else 0.0
  }

  function RowCount(w: Value): nat {
    if w.Weight? && HasRows(w.data) then w.data.dims[0] else 0
  }

  function LinearRow(k: Kernel, w: Value, b: Value, x: seq<real>): (y: seq<real>)
    ensures |y| == RowCount(w)
  {
    seq(RowCount(w), o requires 0 <= o < RowCount(w) => k.dot(RowAt(w.data, o), x) + BiasAt(k, b, o))
  }

  function Rows(v: Value): seq<seq<real>> {
    if v.Matrix? then v.rows else []
  }

  function LinearValue(k: Kernel, x: Value, w: Value, b: Value): Value {
    Matrix(seq(|Rows(x)|, i requires 0 <= i < |Rows(x)| => LinearRow(k, w, b, Rows(x)[i])))
  }

  function SplitRow(x: seq<real>, start: int, end: int): seq<real> {
    if 0 <= start <= end <= |x| then x[start..end] else []
  }

  /** Only a split of the last axis has a fixed meaning here. */
  function SplitValue(k: Kernel, x: Value, axis: int, start: int, end: int): Value {
    if axis == -1 then Matrix(seq(|Rows(x)|, i requires 0 <= i < |Rows(x)| => SplitRow(Rows(x)[i], start, end)))
    else k.split(axis, start, end, x)
  }

  function SiluRow(k: Kernel, x: seq<real>): seq<real> {
    seq(|x|, j requires 0 <= j < |x| => k.silu(x[j]))
  }

  function SiluValue(k: Kernel, x: Value): Value {
    Matrix(seq(|Rows(x)|, i requires 0 <= i < |Rows(x)| => SiluRow(k, Rows(x)[i])))
  }

  function At(m: seq<seq<real>>, i: nat, j: nat): real {
    if i < |m| && j < |m[i]| then m[i][j] else 0.0
  }

  function MulRow(x: seq<real>, m: seq<seq<real>>, i: nat): seq<real> {
    seq(|x|, j requires 0 <= j < |x| => x[j] * At(m, i, j))
  }

  function MulValue(x: Value, y: Value): Value {
    Matrix(seq(|Rows(x)|, i requires 0 <= i < |Rows(x)| => MulRow(Rows(x)[i], Rows(y), i)))
  }

  /** silu of the first half of the row, times the second half. */
  function SwigluRow(k: Kernel, x: seq<real>): seq<real> {
    seq(|x| / 2, j requires 0 <= j < |x| / 2 => k.silu(x[j]) * x[|x| / 2 + j])
  }

  function SwigluValue(k: Kernel, x: Value): Value {
    Matrix(seq(|Rows(x)|, i requires 0 <= i < |Rows(x)| => SwigluRow(k, Rows(x)[i])))
  }

  /** A name that the store does not hold stands for an empty value. */
  function Get(st: Store, name: string): Value {
    if name in st then st[name] else Nothing
  }

  function GetAll(st: Store, names: seq<string>): seq<Value> {
    seq(|names|, i requires 0 <= i < |names| => Get(st, names[i]))
  }

  function PutAll(st: Store, names: seq<string>, values: seq<Value>): Store
    decreases |names|
  {
    if names == [] then st
    else PutAll(st[names[0] := if values == [] then Nothing else values[0]], names[1..],
        if values == [] then [] else values[1..])
  }

  function Step(k: Kernel, op: Op, st: Store): Store {
    match op
    case Linear(input, weight, bias,
        output) => st[output := LinearValue(k, Get(st, input), Get(st, weight), Get(st, bias))]
    case Split(source, axis, start, end, output) => st[output := SplitValue(k, Get(st, source), axis, start, end)]
    case Silu(source, output) => st[output := SiluValue(k, Get(st, source))]
    case MulTo(left, right) => st[left := MulValue(Get(st, left), Get(st, right))]
    case Swiglu(source, output) => st[output := SwigluValue(k, Get(st, source))]
    case Other(kind, ins, outs) => PutAll(st, outs, k.other(kind, GetAll(st, ins)))
  }

  /** Running the ops in order. */
  function Run(k: Kernel, ops: seq<Op>, st: Store): Store {
    if ops == [] then st else Run(k, ops[1..], Step(k, ops[0], st))
  }

  lemma {:induction false} RunConcat(k: Kernel, a: seq<Op>, b: seq<Op>, st: Store)
    ensures Run(k, a + b, st) == Run(k, b, Run(k, a, st))
  {
    if a == [] {
      assert a + b == b;
    } else {
      assert (a + b)[0] == a[0] && (a + b)[1..] == a[1..] + b;
      RunConcat(k, a[1..], b, Step(k, a[0], st));
    }
  }

  /** The names whose values an op uses. */
  function Reads(op: Op): set<string> {
    match op
    case Linear(input, weight, bias, _) => {input, weight, bias}
    case Split(source, _, _, _, _) => {source}
    case Silu(source, _) => {source}
    case MulTo(left, right) => {left, right}
    case Swiglu(source, _) => {source}
    case Other(_, ins, _) => set x | x in ins
  }

  /** The names that an op gives a new value. */
  function Writes(op: Op): set<string> {
    match op
    case Linear(_, _, _, output) => {output}
    case Split(_, _, _, _, output) => {output}
    case Silu(_, output) => {output}
    case MulTo(left, _) => {left}
    case Swiglu(_, output) => {output}
    case Other(_, _, outs) => set x | x in outs
  }

  lemma {:induction false} PutAllGet(st: Store, names: seq<string>, values: seq<Value>, x: string)
    ensures x !in names ==> Get(PutAll(st, names, values), x) == Get(st, x)
    decreases |names|
  {
    if names != [] {
      PutAllGet(st[names[0] := if values == [] then Nothing else values[0]], names[1..],
          if values == [] then [] else values[1..], x);
    }
  }

  lemma {:induction false} PutAllSame(s: Store, t: Store, names: seq<string>, values: seq<Value>, x: string)
    requires x in names || Get(s, x) == Get(t, x)
    ensures Get(PutAll(s, names, values), x) == Get(PutAll(t, names, values), x)
    decreases |names|
  {
    if names != [] {
      var v := if values == [] then Nothing else values[0];
      PutAllSame(s[names[0] := v], t[names[0] := v], names[1..], if values == [] then [] else values[1..], x);
    }
  }

  /** An op changes only what it writes. */
  lemma StepFrame(k: Kernel, op: Op, st: Store, x: string)
    requires x !in Writes(op)
    ensures Get(Step(k, op, st), x) == Get(st, x)
  {
    if op.Other? {
      PutAllGet(st, op.outs, k.other(op.kind, GetAll(st, op.ins)), x);
    }
  }

  /** An op in two stores that agree on what it reads: it writes the same values. */
  lemma StepSame(k: Kernel, op: Op, s: Store, t: Store, x: string)
    requires forall r :: r in Reads(op) ==> Get(s, r) == Get(t, r)
    requires x in Writes(op) || Get(s, x) == Get(t, x)
    ensures Get(Step(k, op, s), x) == Get(Step(k, op, t), x)
  {
    if op.Other? {
      assert GetAll(s, op.ins) == GetAll(t, op.ins);
      PutAllSame(s, t, op.outs, k.other(op.kind, GetAll(s, op.ins)), x);
    }
  }
}
