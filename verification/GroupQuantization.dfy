/** Quantising rows in groups to 4 or 8 bits: every stored number stands for a value within half a step of the original.
    Arithmetic is exact; the rounding of single-precision operations is not modelled. */
module GroupQuantization {
  import opened Arithmetic

  /** How a group is quantised; kind 1 measures from the minimum, kind 0 from the zero point. */
  datatype LowBitConfig = LowBitConfig(min: real, max: real, bit: nat, kind: int, scale: real, zeroPoint: nat)

  function Min(a: real, b: real): real { if a <= b then a else b }
  function Max(a: real, b: real): real { if a >= b then a else b }

  /** The largest number of that many bits. */
  function QMax(bit: nat): nat {
    if bit == 4 then 15 else 255
  }

  /** To the nearest whole number, halves upwards. */
  function Round(v: real): int {
    (v + 0.5).Floor
  }

  /** A config for values from min to max. Where they are all zero, the step is zero and the zero point does not matter.
      */
  function Config(min: real, max: real, bit: nat, kind: int): LowBitConfig {
    var lo, hi := Min(min, 0.0), Max(max, 0.0);
    var scale := (hi - lo) / QMax(bit) as real;
    var zero := if scale == 0.0 then 0.0 else -lo / scale;
    var zeroPoint := if zero < 0.0 then 0 else if zero > QMax(bit) as real then QMax(bit) else Round(zero);
    LowBitConfig(if kind == 1 then -scale * zeroPoint as real else lo, hi, bit, kind, scale, zeroPoint)
  }

  /** The number that stands for a value; the division by a zero step ends at the upper bound. */
  function Quantize(c: LowBitConfig, x: real): int {
    if c.scale == 0.0 then QMax(c.bit)
    else if c.kind == 0 then Min(QMax(c.bit) as real, Max(x / c.scale + c.zeroPoint as real + 0.5, 0.0)).Floor
    else Max(0.0, Min(15.0, (x - c.min) / c.scale + 0.5)).Floor
  }

  function Dequantize(c: LowBitConfig, q: int): real {
    if c.kind == 0 then c.scale * (q as real - c.zeroPoint as real) else c.min + c.scale * q as real
  }

  /** The combinations that the group quantiser uses: 4 bits measured from the minimum, 8 bits from the zero point. */
  predicate Supported(bit: nat, kind: int) {
    (bit == 4 && kind == 1) || (bit == 8 && kind == 0)
  }

  /** Half a step, measured in steps: v is the value, z the distance of the minimum from zero, qmax the number of steps.
      */
  lemma NearestStep(v: real, z: real, qmax: nat)
    requires 0.0 <= z <= qmax as real && -z <= v <= qmax as real - z
    ensures var zp := Round(z);
      && 0 <= zp <= qmax
      && var q := Max(0.0, Min(qmax as real, v + zp as real + 0.5)).Floor;
         0 <= q <= qmax && -0.5 <= q as real - (v + zp as real) <= 0.5
  {
    var zp := Round(z);
    assert z - 0.5 < zp as real <= z + 0.5;
    var u := v + zp as real + 0.5;
    assert 0.0 <= u <= qmax as real + 1.0;
  }

  lemma DivMul(a: real, s: real)
    requires s > 0.0
    ensures a / s * s == a
  {
  }

  /** The quotients of a config, as numbers of steps. */
  lemma ConfigSteps(min: real, max: real, bit: nat, kind: int, x: real)
    requires Supported(bit, kind) && min <= x <= max
    ensures var c := Config(min, max, bit, kind);
      && c.scale >= 0.0
      && (c.scale == 0.0 ==> x == 0.0 && c.min == 0.0)
      && (c.scale > 0.0 ==>
            var z, v := -Min(min, 0.0) / c.scale, x / c.scale;
            && 0.0 <= z <= QMax(bit) as real && -z <= v <= QMax(bit) as real - z
            && c.zeroPoint == Round(z) && v * c.scale == x && z * c.scale == -Min(min, 0.0))
  {
    var c := Config(min, max, bit, kind);
    var lo, hi := Min(min, 0.0), Max(max, 0.0);
    var n := QMax(bit) as real;
    assert c.scale * n == hi - lo;
    if c.scale > 0.0 {
      var z, v := -lo / c.scale, x / c.scale;
      DivMul(-lo, c.scale);
      DivMul(x, c.scale);
      assert n * c.scale == hi - lo;
      StepBounds(z, v, n, c.scale, lo, hi, x);
      NearestStep(v, z, QMax(bit));
    }
  }

  lemma StepBounds(z: real, v: real, n: real, s: real, lo: real, hi: real, x: real)
    requires s > 0.0 && lo <= 0.0 <= hi && lo <= x <= hi
    requires z * s == -lo && v * s == x && n * s == hi - lo
    ensures 0.0 <= z <= n && -z <= v <= n - z
  {
    assert (-z) * s == -(z * s) && (n - z) * s == n * s - z * s;
    if z < 0.0 {
      RealMonotone(z, 0.0, s);
    }
    if z > n {
      RealMonotone(n, z, s);
    }
    if v < -z {
      RealMonotone(v, -z, s);
    }
    if v > n - z {
      RealMonotone(n - z, v, s);
    }
  }

  lemma StepError(s: real, q: real, v: real, zp: real)
    requires s >= 0.0 && -0.5 <= q - (v + zp) <= 0.5
    ensures Abs(s * (q - zp) - v * s) <= s / 2.0
  {
    var d := q - (v + zp);
    HalfOf(d, s);
    var e := s * (q - zp) - v * s;
    assert e == d * s;
  }

  lemma DequantizeSteps(c: LowBitConfig, q: int)
    requires Supported(c.bit, c.kind) && (c.kind == 1 ==> c.min == -c.scale * c.zeroPoint as real)
    ensures Dequantize(c, q) == c.scale * (q as real - c.zeroPoint as real)
  {
    assert c.scale * (q as real - c.zeroPoint as real) == c.scale * q as real - c.scale * c.zeroPoint as real;
  }

  /** The stored number is in range, and stands for a value within half a step. */
  lemma HalfStep(min: real, max: real, bit: nat, kind: int, x: real)
    requires Supported(bit, kind) && min <= x <= max
    ensures var c := Config(min, max, bit, kind);
      && 0 <= Quantize(c, x) <= QMax(bit)
      && Abs(Dequantize(c, Quantize(c, x)) - x) <= c.scale / 2.0
  {
    var c := Config(min, max, bit, kind);
    ConfigSteps(min, max, bit, kind, x);
    ConfigFields(min, max, bit, kind);
    hide Config;
    if c.scale > 0.0 {
      HalfStepOf(c, -Min(min, 0.0) / c.scale, x / c.scale, x);
    }
  }

  lemma ConfigFields(min: real, max: real, bit: nat, kind: int)
    ensures var c := Config(min, max, bit, kind);
      c.bit == bit && c.kind == kind && (kind == 1 ==> c.min == -c.scale * c.zeroPoint as real)
  {
  }

  lemma HalfStepOf(c: LowBitConfig, z: real, v: real, x: real)
    requires Supported(c.bit, c.kind) && c.scale > 0.0 && (c.kind == 1 ==> c.min == -c.scale * c.zeroPoint as real)
    requires 0.0 <= z <= QMax(c.bit) as real && -z <= v <= QMax(c.bit) as real - z
    requires c.zeroPoint == Round(z) && v == x / c.scale && v * c.scale == x
    ensures 0 <= Quantize(c, x) <= QMax(c.bit) && Abs(Dequantize(c, Quantize(c, x)) - x) <= c.scale / 2.0
  {
    hide *;
    var q := Quantize(c, x);
    StepsNear(c, z, v, x);
    NearError(c, q, v, x);
  }

  lemma NearError(c: LowBitConfig, q: int, v: real, x: real)
    requires Supported(c.bit, c.kind) && c.scale > 0.0 && (c.kind == 1 ==> c.min == -c.scale * c.zeroPoint as real)
    requires v * c.scale == x && -0.5 <= q as real - (v + c.zeroPoint as real) <= 0.5
    ensures Abs(Dequantize(c, q) - x) <= c.scale / 2.0
  {
    DequantizeSteps(c, q);
    hide *;
    StepError(c.scale, q as real, v, c.zeroPoint as real);
  }

  lemma StepsNear(c: LowBitConfig, z: real, v: real, x: real)
    requires Supported(c.bit, c.kind) && c.scale > 0.0 && (c.kind == 1 ==> c.min == -c.scale * c.zeroPoint as real)
    requires 0.0 <= z <= QMax(c.bit) as real && -z <= v <= QMax(c.bit) as real - z
    requires c.zeroPoint == Round(z) && v == x / c.scale
    ensures 0 <= Quantize(c, x) <= QMax(c.bit)
    ensures -0.5 <= Quantize(c, x) as real - (v + c.zeroPoint as real) <= 0.5
  {
    NearestStep(v, z, QMax(c.bit));
    QuantizeSteps(c, x, v);
    hide Quantize, Round, Max, Min;
  }

  /** Both kinds count the steps from the zero point. */
  lemma QuantizeSteps(c: LowBitConfig, x: real, v: real)
    requires Supported(c.bit, c.kind) && c.scale > 0.0 && v == x / c.scale && (c.kind == 1 ==>
        c.min == -c.scale * c.zeroPoint as real)
    ensures Quantize(c, x) == Max(0.0, Min(QMax(c.bit) as real, v + c.zeroPoint as real + 0.5)).Floor
  {
    if c.kind == 1 {
      var w := (x - c.min) / c.scale;
      DivMul(x - c.min, c.scale);
      DivMul(x, c.scale);
      assert (v + c.zeroPoint as real) * c.scale == v * c.scale + c.scale * c.zeroPoint as real;
      SameSteps(w, v + c.zeroPoint as real, c.scale);
    }
  }

  lemma SameSteps(a: real, b: real, s: real)
    requires s > 0.0 && a * s == b * s
    ensures a == b
  {
    if a < b {
      RealMonotone(a, b, s);
    } else if b < a {
      RealMonotone(b, a, s);
    }
  }

  /** The value of a stored number is stored as that number again, and what lies half a step above it as the next one.
      */
  lemma StoredAgain(c: LowBitConfig, q: nat)
    requires Supported(c.bit, c.kind) && c.scale > 0.0 && q <= QMax(c.bit)
    ensures Quantize(c, Dequantize(c, q)) == q
    ensures q < QMax(c.bit) ==> Quantize(c, Dequantize(c, q) + c.scale / 2.0) == q + 1
  {
    StepsOf(c, q, 0.0);
    StepsOf(c, q, 0.5);
    assert 0.5 * c.scale == c.scale / 2.0;
    hide Dequantize;
  }

  /** The quotient that is rounded for a value d steps above a stored number. */
  lemma StepsOf(c: LowBitConfig, q: nat, d: real)
    requires c.scale > 0.0
    ensures c.kind == 0 ==> (Dequantize(c, q) + d * c.scale) / c.scale + c.zeroPoint as real == q as real + d
    ensures c.kind != 0 ==> (Dequantize(c, q) + d * c.scale - c.min) / c.scale == q as real + d
  {
    if c.kind == 0 {
      var n := q as real - c.zeroPoint as real;
      assert c.scale * n + d * c.scale == (n + d) * c.scale;
      DivMul(c.scale * n + d * c.scale, c.scale);
      SameSteps((c.scale * n + d * c.scale) / c.scale, n + d, c.scale);
    } else {
      var n := q as real;
      assert c.scale * n + d * c.scale == (n + d) * c.scale;
      DivMul(c.scale * n + d * c.scale, c.scale);
      SameSteps((c.scale * n + d * c.scale) / c.scale, n + d, c.scale);
    }
  }

  // --- the loops over rows and groups ---

  /** The least value of f from start to end, from the initial bound downwards. */
  function Least(f: seq<real>, start: nat, end: nat): real
    requires start <= end <= |f|
    decreases end - start
  {
    if start == end then 1000000000.0 else Min(Least(f, start, end - 1), f[end - 1])
  }

  function Greatest(f: seq<real>, start: nat, end: nat): real
    requires start <= end <= |f|
    decreases end - start
  {
    if start == end then -1000000000.0 else Max(Greatest(f, start, end - 1), f[end - 1])
  }

  lemma {:induction false} Between(f: seq<real>, start: nat, end: nat, k: nat)
    requires start <= k < end <= |f|
    ensures Least(f, start, end) <= f[k] <= Greatest(f, start, end)
    decreases end - start
  {
    if k < end - 1 {
      Between(f, start, end - 1, k);
    }
  }

  /** The least value is one of the values, or the initial bound. */
  lemma {:induction false} LeastAttained(f: seq<real>, start: nat, end: nat)
    requires start <= end <= |f|
    ensures Least(f, start, end) == 1000000000.0 || exists k :: start <= k < end && Least(f, start, end) == f[k]
    ensures Greatest(f, start, end) == -1000000000.0 || exists k :: start <= k < end && Greatest(f, start, end) == f[k]
    decreases end - start
  {
    if start < end {
      LeastAttained(f, start, end - 1);
    }
  }

  /** The step of a group is not larger than any range around zero that holds its values asks for. */
  lemma ScaleBound(f: seq<real>, start: nat, end: nat, bit: nat, kind: int, lo: real, hi: real)
    requires start <= end <= |f| && Supported(bit, kind) && lo <= 0.0 <= hi
    requires forall k :: start <= k < end ==> lo <= f[k] <= hi
    ensures Config(Least(f, start, end), Greatest(f, start, end), bit, kind).scale
         <= (hi - lo) / if bit == 4 then 15.0 else 255.0
  {
    var min, max := Least(f, start, end), Greatest(f, start, end);
    LeastAttained(f, start, end);
    hide Least, Greatest;
    assert Min(min, 0.0) >= lo && Max(max, 0.0) <= hi;
    ScaleIs(min, max, bit, kind);
    hide Config;
  }

  lemma ScaleIs(min: real, max: real, bit: nat, kind: int)
    requires bit == 4 || bit == 8
    ensures Config(min, max, bit, kind).scale
         == (Max(max, 0.0) - Min(min, 0.0)) / if bit == 4 then 15.0 else 255.0
  {
  }

  /** Entry k of the packed buffer: two entries share a byte when they have 4 bits, the even one in the high half. */
  function Stored(u8: seq<nat>, bit: nat, k: nat): nat {
    if bit == 4 then (if k / 2 >= |u8| then 0 else if k % 2 == 1 then u8[k / 2] % 16 else u8[k / 2] / 16)
    else if k >= |u8| then 0 else u8[k]
  }

  predicate Room(u8: seq<nat>, bit: nat, n: nat) {
    (if bit == 4 then 2 * |u8| >= n else |u8| >= n) && forall i :: 0 <= i < |u8| ==> u8[i] < 256
  }

  /** The byte with one of its halves replaced. */
  function WithHalf(byte: nat, k: nat, value: nat): nat
    requires byte < 256 && value < 16
  {
    if k % 2 == 1 then byte / 16 * 16 + value else byte % 16 + value * 16
  }

  /** Writing one entry changes no other. */
  lemma StoreOne(u8: seq<nat>, u8': seq<nat>, bit: nat, n: nat, k: nat, value: nat)
    requires (bit == 4 || bit == 8) && Room(u8, bit, n) && k < n && value <= QMax(bit) && |u8'| == |u8|
    requires bit == 4 ==> u8' == u8[k / 2 := WithHalf(u8[k / 2], k, value)]
    requires bit == 8 ==> u8' == u8[k := value]
    ensures Room(u8', bit, n) && Stored(u8', bit, k) == value
    ensures forall j :: 0 <= j < n && j != k ==> Stored(u8', bit, j) == Stored(u8, bit, j)
  {
    forall j | 0 <= j < n && j != k ensures Stored(u8', bit, j) == Stored(u8, bit, j) {
      if bit == 4 && j / 2 == k / 2 {
        assert j % 2 != k % 2;
      }
    }
  }

  /** Entry k stands for its value to within half a step of its group. */
  predicate Close(f: seq<real>, u8: seq<nat>, bit: nat, c: LowBitConfig, k: nat)
    requires k < |f|
  {
    Abs(Dequantize(c, Stored(u8, bit, k)) - f[k]) <= c.scale / 2.0
  }

  /** Quantises the entries from first to last as one group. */
  method QuantizeGroup(f: array<real>, u8: array<nat>, bit: nat, kind: int, first: nat, last: nat)
    returns (c: LowBitConfig)
    requires Supported(bit, kind) && first <= last <= f.Length && Room(u8[..], bit, f.Length)
    modifies u8
    ensures c == Config(Least(f[..], first, last), Greatest(f[..], first, last), bit, kind)
    ensures Room(u8[..], bit, f.Length)
    ensures forall k :: first <= k < last ==> Close(f[..], u8[..], bit, c, k)
    ensures forall k :: 0 <= k < f.Length && !(first <= k < last) ==>
        Stored(u8[..], bit, k) == Stored(old(u8[..]), bit, k)
  {
    hide Config, Quantize, Dequantize, Room, Stored;
    var minValue, maxValue := 1000000000.0, -1000000000.0;
    var j := first;
    while j < last
      invariant first <= j <= last && minValue == Least(f[..], first, j) && maxValue == Greatest(f[..], first, j)
    {
      minValue := Min(minValue, f[j]);
      maxValue := Max(maxValue, f[j]);
      j := j + 1;
    }
    c := Config(minValue, maxValue, bit, kind);
    ConfigFields(minValue, maxValue, bit, kind);
    j := first;
    while j < last
      invariant first <= j <= last && Room(u8[..], bit, f.Length)
      invariant forall k :: first <= k < j ==> Close(f[..], u8[..], bit, c, k)
      invariant forall k :: 0 <= k < f.Length && !(first <= k < j) ==>
          Stored(u8[..], bit, k) == Stored(old(u8[..]), bit, k)
    {
      Between(f[..], first, last, j);
      HalfStep(minValue, maxValue, bit, kind, f[j]);
      var value := Quantize(c, f[j]);
      ghost var before := u8[..];
      Store(u8, bit, f.Length, j, value);
      forall k | first <= k < j ensures Close(f[..], u8[..], bit, c, k) {
        SameClose(f[..], before, u8[..], bit, c, k);
      }
      j := j + 1;
    }
  }

  /** Writes one entry into the buffer. */
  method Store(u8: array<nat>, bit: nat, n: nat, k: nat, value: nat)
    requires (bit == 4 || bit == 8) && Room(u8[..], bit, n) && k < n && value <= QMax(bit)
    modifies u8
    ensures Room(u8[..], bit, n) && Stored(u8[..], bit, k) == value
    ensures forall j :: 0 <= j < n && j != k ==> Stored(u8[..], bit, j) == Stored(old(u8[..]), bit, j)
  {
    ghost var before := u8[..];
    if bit == 8 {
      u8[k] := value;
    } else {
      var id := k / 2;
      assert u8[id] == before[id];
      if k % 2 == 1 {
        u8[id] := u8[id] / 16 * 16 + value;
      } else {
        u8[id] := u8[id] % 16 + value * 16;
      }
    }
    StoreOne(before, u8[..], bit, n, k, value);
  }

  function GroupStart(m: nat, groupCnt: nat, i: nat, g: nat): int {
    i * m + g * groupCnt
  }

  function GroupEnd(m: nat, groupCnt: nat, i: nat, g: nat): int {
    i * m + if (g + 1) * groupCnt < m then (g + 1) * groupCnt else m
  }

  /** The config of a group is that of the range of its values. */
  predicate Fits(f: seq<real>, c: LowBitConfig, bit: nat, m: nat, groupCnt: nat, i: nat, g: nat) {
    var start, end := GroupStart(m, groupCnt, i, g), GroupEnd(m, groupCnt, i, g);
    0 <= start <= end <= |f|
        && c == Config(Least(f, start, end), Greatest(f, start, end), bit, if bit == 4 then 1 else 0)
  }

  /** Column j of row i, after the row was quantised: the stored number is close, measured by the range of its group. */
  predicate Done(f: seq<real>, u8: seq<nat>, configs: seq<LowBitConfig>, bit: nat, m: nat, group: nat, groupCnt: nat,
      i: nat, j: nat)
    requires groupCnt > 0
  {
    && i * m + j < |f| && i * group + j / groupCnt < |configs|
    && Fits(f, configs[i * group + j / groupCnt], bit, m, groupCnt, i, j / groupCnt)
    && Close(f, u8, bit, configs[i * group + j / groupCnt], i * m + j)
  }

  /** An entry of a quantised group comes back within the range of the group over twice the number of steps. */
  lemma GroupError(f: seq<real>, u8: seq<nat>, bit: nat, c: LowBitConfig, start: nat, end: nat, k: nat, lo: real,
      hi: real)
    requires (bit == 4 || bit == 8) && start <= k < end <= |f|
    requires c == Config(Least(f, start, end), Greatest(f, start, end), bit, if bit == 4 then 1 else 0)
    requires Close(f, u8, bit, c, k)
    requires lo <= 0.0 <= hi && forall j :: start <= j < end ==> lo <= f[j] <= hi
    ensures Abs(Dequantize(c, Stored(u8, bit, k)) - f[k]) <= (hi - lo) / if bit == 4 then 30.0 else 510.0
  {
    hide Stored, Dequantize, Config;
    ScaleBound(f, start, end, bit, if bit == 4 then 1 else 0, lo, hi);
  }

  /** In a packed buffer of 4 bits, byte b holds entry 2b in its high half and entry 2b + 1 in its low half. */
  lemma Halves(u8: seq<nat>, b: nat)
    requires b < |u8| && u8[b] < 256
    ensures u8[b] == Stored(u8, 4, 2 * b) * 16 + Stored(u8, 4, 2 * b + 1)
    ensures Stored(u8, 4, 2 * b) < 16 && Stored(u8, 4, 2 * b + 1) < 16
  {
  }

  /** Quantises group g of row i, which may be short or empty at the end of the row. */
  method QuantizeOne(f: array<real>, u8: array<nat>, configs: array<LowBitConfig>, bit: nat, kind: int, m: nat,
      group: nat, groupCnt: nat, i: nat, g: nat) returns (c: LowBitConfig)
    requires Supported(bit, kind) && groupCnt > 0 && g < group && Room(u8[..], bit, f.Length)
    requires 0 <= i * m && i * m + m <= f.Length && 0 <= i * group && i * group + group <= configs.Length
    modifies u8, configs
    ensures Room(u8[..], bit, f.Length)
    ensures configs[i * group + g] == c && (g * groupCnt < m ==> Fits(f[..], c, bit, m, groupCnt, i, g))
    ensures forall k :: i * m + g * groupCnt <= k < i * m + m && k < i * m + (g + 1) * groupCnt ==>
              Close(f[..], u8[..], bit, c, k)
    ensures forall k ::
        0 <= k < f.Length && !(i * m + g * groupCnt <= k < i * m + m && k < i * m + (g + 1) * groupCnt) ==>
              Stored(u8[..], bit, k) == Stored(old(u8[..]), bit, k)
    ensures forall cid :: 0 <= cid < configs.Length && cid != i * group + g ==> configs[cid] == old(configs[cid])
  {
    hide Close, Room, Stored, Config;
    var groupStart, groupEnd := g * groupCnt, if (g + 1) * groupCnt < m then (g + 1) * groupCnt else m;
    Product(g, groupCnt);
    Distribute(g, 1, groupCnt);
    if groupStart < groupEnd {
      c := QuantizeGroup(f, u8, bit, kind, i * m + groupStart, i * m + groupEnd);
    } else {
      c := Config(1000000000.0, -1000000000.0, bit, kind);
    }
    configs[i * group + g] := c;
  }

  /** Quantises one row, group by group. */
  method QuantizeRow(f: array<real>, u8: array<nat>, configs: array<LowBitConfig>, bit: nat, kind: int, m: nat,
      group: nat, groupCnt: nat, i: nat)
    requires Supported(bit, kind) && groupCnt > 0 && Room(u8[..], bit, f.Length)
    requires i * m + m <= f.Length && i * group + group <= configs.Length && 0 <= i * m && 0 <= i * group
    modifies u8, configs
    ensures Room(u8[..], bit, f.Length)
    ensures forall j :: 0 <= j < m && j / groupCnt < group ==>
        Done(f[..], u8[..], configs[..], bit, m, group, groupCnt, i, j)
    ensures forall k :: 0 <= k < f.Length && !(i * m <= k < i * m + m) ==>
        Stored(u8[..], bit, k) == Stored(old(u8[..]), bit, k)
    ensures forall c :: 0 <= c < configs.Length && !(i * group <= c < i * group + group) ==>
        configs[c] == old(configs[c])
  {
    hide Close, Room, Stored, Config, Fits, Done;
    var g := 0;
    while g < group
      invariant 0 <= g <= group && Room(u8[..], bit, f.Length)
      invariant forall j :: 0 <= j < m && j / groupCnt < g ==>
          Done(f[..], u8[..], configs[..], bit, m, group, groupCnt, i, j)
      invariant forall k :: 0 <= k < f.Length && !(i * m <= k < i * m + m) ==>
          Stored(u8[..], bit, k) == Stored(old(u8[..]), bit, k)
      invariant forall c :: 0 <= c < configs.Length && !(i * group <= c < i * group + group) ==>
          configs[c] == old(configs[c])
    {
      Product(g, groupCnt);
      Distribute(g, 1, groupCnt);
      ghost var before, configsBefore := u8[..], configs[..];
      var c := QuantizeOne(f, u8, configs, bit, kind, m, group, groupCnt, i, g);
      forall j | 0 <= j < m && j / groupCnt < g + 1
        ensures Done(f[..], u8[..], configs[..], bit, m, group, groupCnt, i, j)
      {
        GroupOf(j, groupCnt, g);
        if j / groupCnt < g {
          SameDone(f[..], before, u8[..], configsBefore, configs[..], bit, m, group, groupCnt, i, j);
        } else {
          DoneNow(f[..], u8[..], configs[..], bit, m, group, groupCnt, i, j);
        }
      }
      g := g + 1;
    }
  }

  lemma GroupOf(j: nat, groupCnt: nat, g: nat)
    requires groupCnt > 0
    ensures j / groupCnt < g <==> j < g * groupCnt
    ensures j / groupCnt < g + 1 <==> j < (g + 1) * groupCnt
  {
    DivTimes(j, groupCnt);
    if j / groupCnt < g {
      MulMonotone(j / groupCnt + 1, g, groupCnt);
    } else {
      MulMonotone(g, j / groupCnt, groupCnt);
    }
    if j / groupCnt < g + 1 {
      MulMonotone(j / groupCnt + 1, g + 1, groupCnt);
    } else {
      MulMonotone(g + 1, j / groupCnt, groupCnt);
    }
  }

  lemma SameClose(f: seq<real>, u8: seq<nat>, u8': seq<nat>, bit: nat, c: LowBitConfig, k: nat)
    requires k < |f| && Close(f, u8, bit, c, k) && Stored(u8', bit, k) == Stored(u8, bit, k)
    ensures Close(f, u8', bit, c, k)
  {
  }

  lemma DoneNow(f: seq<real>, u8: seq<nat>, configs: seq<LowBitConfig>, bit: nat, m: nat, group: nat, groupCnt: nat,
      i: nat, j: nat)
    requires groupCnt > 0 && 0 <= i * m && 0 <= i * group
    requires i * m + j < |f| && i * group + j / groupCnt < |configs|
    requires Fits(f, configs[i * group + j / groupCnt], bit, m, groupCnt, i, j / groupCnt)
    requires Close(f, u8, bit, configs[i * group + j / groupCnt], i * m + j)
    ensures Done(f, u8, configs, bit, m, group, groupCnt, i, j)
  {
    hide Fits, Close;
  }

  lemma SameDone(f: seq<real>, u8: seq<nat>, u8': seq<nat>, configs: seq<LowBitConfig>, configs': seq<LowBitConfig>,
      bit: nat, m: nat, group: nat, groupCnt: nat, i: nat, j: nat)
    requires groupCnt > 0 && Done(f, u8, configs, bit, m, group, groupCnt, i, j) && |configs'| == |configs|
    requires 0 <= i * m && 0 <= i * group && Stored(u8', bit, i * m + j) == Stored(u8, bit, i * m + j)
    requires i * group + j / groupCnt < |configs| ==>
      configs'[i * group + j / groupCnt] == configs[i * group + j / groupCnt]
    ensures Done(f, u8', configs', bit, m, group, groupCnt, i, j)
  {
    hide Stored, Fits;
  }

  /** Rows before row i stay done while row i is quantised. */
  lemma EarlierRows(f: seq<real>, u8: seq<nat>, u8': seq<nat>, configs: seq<LowBitConfig>, configs': seq<LowBitConfig>,
      bit: nat, m: nat, group: nat, groupCnt: nat, st: nat, i: nat)
    requires groupCnt > 0 && |configs'| == |configs| && 0 <= i * m <= |f| && 0 <= i * group <= |configs|
    requires forall r, j :: st <= r < i && 0 <= j < m && j / groupCnt < group ==>
      Done(f, u8, configs, bit, m, group, groupCnt, r, j)
    requires forall k :: 0 <= k < |f| && !(i * m <= k < i * m + m) ==> Stored(u8', bit, k) == Stored(u8, bit, k)
    requires forall c :: 0 <= c < |configs| && !(i * group <= c < i * group + group) ==> configs'[c] == configs[c]
    ensures forall r, j :: st <= r < i && 0 <= j < m && j / groupCnt < group ==>
      Done(f, u8', configs', bit, m, group, groupCnt, r, j)
  {
    hide Stored, Done;
    forall r, j | st <= r < i && 0 <= j < m && j / groupCnt < group
      ensures Done(f, u8', configs', bit, m, group, groupCnt, r, j)
    {
      SlotFits(r, i, m);
      SlotFits(r, i, group);
      SameDone(f, u8, u8', configs, configs', bit, m, group, groupCnt, r, j);
    }
  }

  /** Quantises the rows from st to end: every entry stands for its value to within half a step of its group, and
      entries of other rows stay as they are. */
  method Run(f: array<real>, u8: array<nat>, configs: array<LowBitConfig>, bit: nat, m: nat, group: nat, groupCnt: nat,
      st: nat, end: nat)
    requires (bit == 4 || bit == 8) && groupCnt > 0 && st <= end && Room(u8[..], bit, f.Length)
    requires 0 <= end * m <= f.Length && 0 <= end * group <= configs.Length
    modifies u8, configs
    ensures Room(u8[..], bit, f.Length)
    ensures forall i, j :: st <= i < end && 0 <= j < m && j / groupCnt < group ==>
              Done(f[..], u8[..], configs[..], bit, m, group, groupCnt, i, j)
    ensures forall k :: 0 <= k < f.Length && !(st * m <= k < end * m) ==>
        Stored(u8[..], bit, k) == Stored(old(u8[..]), bit, k)
  {
    hide Close, Room, Stored, Fits, Done;
    var kind := if bit == 4 then 1 else 0;
    ghost var from := st * m;
    ghost var at := from;
    Product(st, m);
    var i := st;
    while i < end
      invariant st <= i <= end && Room(u8[..], bit, f.Length) && at == i * m && 0 <= from <= at
      invariant forall r, j :: st <= r < i && 0 <= j < m && j / groupCnt < group ==>
                  Done(f[..], u8[..], configs[..], bit, m, group, groupCnt, r, j)
      invariant forall k :: 0 <= k < f.Length && !(from <= k < at) ==>
          Stored(u8[..], bit, k) == Stored(old(u8[..]), bit, k)
    {
      SlotFits(i, end, m);
      SlotFits(i, end, group);
      ghost var before, configsBefore := u8[..], configs[..];
      QuantizeRow(f, u8, configs, bit, kind, m, group, groupCnt, i);
      EarlierRows(f[..], before, u8[..], configsBefore, configs[..], bit, m, group, groupCnt, st, i);
      Distribute(i, 1, m);
      at := at + m;
      i := i + 1;
    }
  }
}
