/** The serialised form of a quantised weight. A stream holds ints and single-precision numbers of four bytes each, and
    plain bytes. Arithmetic on the numbers is exact. */
module FastllmFormat {
  import opened Wrappers
  import opened Arithmetic
  import opened GroupQuantization

  datatype DataType =
    | INT8 | INT4 | INT4_NOZERO | INT4_GROUP | FP8_E4M3
    | INT32 | NVFP4 | INT32PARAM | INT4_GROUP32 | DATA_GGUF_FORMAT

  function Code(t: DataType): int {
    match t
    case INT8 => 3
    case INT4 => 4
    case INT4_NOZERO => 8
    case INT4_GROUP => 9
    case FP8_E4M3 => 10
    case INT32 => 13
    case NVFP4 => 14
    case INT32PARAM => 100
    case INT4_GROUP32 => 1008
    case DATA_GGUF_FORMAT => 9999
  }

  function TypeOf(code: int): Option<DataType> {
    if code == 3 then Some(INT8)
    else if code == 4 then Some(INT4)
    else if code == 8 then Some(INT4_NOZERO)
    else if code == 9 then Some(INT4_GROUP)
    else if code == 10 then Some(FP8_E4M3)
    else if code == 13 then Some(INT32)
    else if code == 14 then Some(NVFP4)
    else if code == 100 then Some(INT32PARAM)
    else if code == 1008 then Some(INT4_GROUP32)
    else if code == 9999 then Some(DATA_GGUF_FORMAT)
    else None
  }

  datatype Fields = Fields(
    dims: seq<nat>, dataType: DataType, blockK: int, blockM: int, scales: seq<real>,
    perChannelAxis: int, perChannelsConfigs: seq<LowBitConfig>, group: int, groupCnt: int,
    mins: seq<real>, zeros: seq<nat>, ggmlType: int, cpuData: seq<nat>
  )

  /** What the number of payload bytes depends on. */
  datatype Shape = Plain(dataType: DataType, dims: seq<nat>) | Blocked(dims: seq<nat>, blockK: int,
      blockM: int) | Ggml(dims: seq<nat>, ggmlType: int)

  /** How many bytes of payload there are, and how many scales of a compact NVFP4 weight among them. */
  datatype Sizes = Sizes(bytes: Shape -> nat, nvfp4Scales: (nat, nat, int, int) -> int)

  predicate CompactNVFP4(f: Fields) {
    f.dataType == NVFP4 && f.scales == [] && |f.dims| == 2 && f.blockK > 0 && f.blockM > 0
  }

  function ShapeOf(f: Fields): Shape {
    if CompactNVFP4(f) then Blocked(f.dims, f.blockK, f.blockM)
    else if f.dataType == DATA_GGUF_FORMAT then Ggml(f.dims, f.ggmlType)
    else Plain(f.dataType, f.dims)
  }

  /** The number of channels, each with its own config. */
  function Channels(dims: seq<nat>, axis: int): Option<nat> {
    if axis == -1 then Some(1) else if 0 <= axis < |dims| then Some(dims[axis]) else None
  }

  datatype Word = I(n: int) | F(x: real) | B(b: nat)

  function Size(words: seq<Word>): nat {
    if words == [] then 0 else Size(words[..|words| - 1]) + if words[|words| - 1].B? then 1 else 4
  }

  function Floats(s: seq<real>): seq<Word> {
    seq(|s|, i requires 0 <= i < |s| => F(s[i]))
  }

  function Bytes(s: seq<nat>): seq<Word> {
    seq(|s|, i requires 0 <= i < |s| => B(s[i]))
  }

  /** Two lists of numbers, taken in turns. */
  function Zip(a: seq<real>, b: seq<real>): seq<real>
    requires |a| == |b|
  {
    if a == [] then [] else Zip(a[..|a| - 1], b[..|b| - 1]) + [a[|a| - 1], b[|b| - 1]]
  }

  function ConfigNumbers(t: DataType, configs: seq<LowBitConfig>): seq<real> {
    Zip(seq(|configs|, i requires 0 <= i < |configs| => configs[i].min),
        seq(|configs|, i requires 0 <= i < |configs| => if t == INT4_NOZERO then configs[i].scale else configs[i].max))
  }

  /** What stands between the type and the payload. */
  function Metadata(sizes: Sizes, f: Fields): seq<Word>
    requires |f.mins| == |f.scales| || f.dataType != INT4_GROUP
  {
    match f.dataType
    case FP8_E4M3 => [I(f.blockK), I(f.blockM), I(|f.scales|)] + Floats(f.scales)
    case NVFP4 =>
      if CompactNVFP4(f) then [I(f.blockK), I(f.blockM), I(sizes.nvfp4Scales(f.dims[0], f.dims[1], f.blockK, f.blockM))]
      else [I(f.blockK), I(f.blockM), I(|f.scales|)] + Floats(f.scales)
    case INT8 | INT4 | INT4_NOZERO => [I(f.perChannelAxis)] + Floats(ConfigNumbers(f.dataType, f.perChannelsConfigs))
    case INT4_GROUP => [I(f.perChannelAxis), I(f.group), I(f.groupCnt)] + Floats(Zip(f.mins, f.scales))
    case DATA_GGUF_FORMAT => [I(f.ggmlType)]
    case _ => []
  }

  /** The whole stream: a version, which is 2 for compact NVFP4, the type, metadata and payload. */
  function Exported(sizes: Sizes, f: Fields): seq<Word>
    requires |f.mins| == |f.scales| || f.dataType != INT4_GROUP
  {
    [I(if CompactNVFP4(f) then 2 else 1), I(Code(f.dataType))] + Metadata(sizes, f) + Bytes(f.cpuData)
  }

  /** How many bytes the stream takes, counted type by type. */
  function FormatBytes(sizes: Sizes, f: Fields): int {
    var payload := sizes.bytes(ShapeOf(f));
    var k := Channels(f.dims, f.perChannelAxis);
    8 + match f.dataType
        case FP8_E4M3 => 12 + |f.scales| * 4 + payload
        case NVFP4 => if CompactNVFP4(f) then 12 + payload else 12 + |f.scales| * 4 + payload
        case INT8 | INT4 | INT4_NOZERO => 4 + (if k.Some? then k.value else 0) * 2 * 4 + payload
        case INT4_GROUP => 12 + (if k.Some? then k.value else 0) * f.group * 2 * 4 + payload
        case DATA_GGUF_FORMAT => 4 + payload
        case _ => payload
  }

  ghost predicate MadeByQuantizer(c: LowBitConfig, bit: nat, kind: int) {
    exists a: real, b: real :: c == Config(a, b, bit, kind)
  }

  /** One config for each channel, as the quantiser makes it, and its numbers listed once more. */
  ghost predicate ConfigsFit(f: Fields, bit: nat, kind: int) {
    var k := Channels(f.dims, f.perChannelAxis);
    && k.Some? && |f.perChannelsConfigs| == k.value && |f.mins| == k.value && |f.scales| == k.value
        && |f.zeros| == k.value
    && forall i :: 0 <= i < k.value ==>
         var c := f.perChannelsConfigs[i];
         MadeByQuantizer(c, bit, kind) && f.mins[i] == c.min && f.scales[i] == c.scale && f.zeros[i] == c.zeroPoint
  }

  /** The data has what its type asks for: as many numbers as channels or groups, configs as the quantiser makes them,
      and a payload of the right size. */
  ghost predicate WellFormed(sizes: Sizes, f: Fields) {
    && |f.cpuData| == sizes.bytes(ShapeOf(f))
    && match f.dataType
       case NVFP4 => f.scales != [] || CompactNVFP4(f)
       case INT8 => ConfigsFit(f, 8, 0)
       case INT4 => ConfigsFit(f, 4, 0)
       case INT4_NOZERO => ConfigsFit(f, 4, 1)
       case INT4_GROUP =>
         var k := Channels(f.dims, f.perChannelAxis);
         k.Some? && f.group >= 0 && |f.mins| == |f.scales| && |f.mins| == k.value * f.group
       case INT4_GROUP32 =>
         |f.dims| == 2 && f.dims[1] % 32 == 0 && f.perChannelAxis == 0 && f.groupCnt == 32 && f.group == f.dims[1] / 32
       case _ => true
  }

  // --- reading ---

  function TakeFloats(words: seq<Word>, at: nat, n: int): Option<seq<real>> {
    if 0 <= n && at + n <= |words| && forall i :: at <= i < at + n ==> words[i].F?
    then Some(seq(n, i requires 0 <= i < n && at + n <= |words| && words[at + i].F? => words[at + i].x)) else None
  }

  function TakeBytes(words: seq<Word>, at: nat, n: nat): Option<seq<nat>> {
    if at + n <= |words| && forall i :: at <= i < at + n ==> words[i].B?
    then Some(seq(n, i requires 0 <= i < n && at + n <= |words| && words[at + i].B? => words[at + i].b)) else None
  }

  predicate Ints(words: seq<Word>, at: nat, n: nat) {
    at + n <= |words| && forall i :: at <= i < at + n ==> words[i].I?
  }

  function WithPayload(sizes: Sizes, f: Fields, words: seq<Word>, at: nat): Option<Fields> {
    var bytes := TakeBytes(words, at, sizes.bytes(ShapeOf(f)));
    if bytes.None? then None else Some(f.(cpuData := bytes.value))
  }

  /** The config that is made again from the two numbers that were stored for it. */
  function Rebuilt(t: DataType, x: real, y: real): LowBitConfig {
    if t == INT4_NOZERO then Config(x, x + 15.0 * y, 4, 1).(min := x, scale := y)
    else Config(x, y, if t == INT4 then 4 else 8, 0)
  }

  function RebuiltAll(t: DataType, numbers: seq<real>, k: nat): seq<LowBitConfig>
    requires |numbers| == 2 * k
  {
    seq(k, i requires 0 <= i < k => Rebuilt(t, numbers[2 * i], numbers[2 * i + 1]))
  }

  function WithConfigs(f: Fields, axis: int, configs: seq<LowBitConfig>): Fields {
    f.(perChannelAxis := axis, perChannelsConfigs := configs,
       mins := seq(|configs|, i requires 0 <= i < |configs| => configs[i].min),
       scales := seq(|configs|, i requires 0 <= i < |configs| => configs[i].scale),
       zeros := seq(|configs|, i requires 0 <= i < |configs| => configs[i].zeroPoint))
  }

  function Evens(s: seq<real>, k: nat): seq<real>
    requires |s| == 2 * k
  {
    seq(k, i requires 0 <= i < k => s[2 * i])
  }

  function Odds(s: seq<real>, k: nat): seq<real>
    requires |s| == 2 * k
  {
    seq(k, i requires 0 <= i < k => s[2 * i + 1])
  }

  /** The data that a stream describes, read into g, whose dimensions are known. */
  function Imported(sizes: Sizes, g: Fields, words: seq<Word>): Option<Fields> {
    if !Ints(words, 0, 2) || TypeOf(words[1].n).None? then None
    else
      var f := g.(dataType := TypeOf(words[1].n).value);
      if words[0].n == 1 then
        match f.dataType
        case FP8_E4M3 => ImportedBlocks(sizes, f, words)
        case NVFP4 => ImportedBlocks(sizes, f, words)
        case INT8 => ImportedChannels(sizes, f, words)
        case INT4 => ImportedChannels(sizes, f, words)
        case INT4_NOZERO => ImportedChannels(sizes, f, words)
        case INT4_GROUP => ImportedGroups(sizes, f, words)
        case INT4_GROUP32 =>
          if |f.dims| != 2 || f.dims[1] % 32 != 0 then None
          else WithPayload(sizes, f.(perChannelAxis := 0, groupCnt := 32, group := f.dims[1] / 32), words, 2)
        case DATA_GGUF_FORMAT =>
          if !Ints(words, 2, 1) then None else WithPayload(sizes, f.(ggmlType := words[2].n), words, 3)
        case INT32 => WithPayload(sizes, f, words, 2)
        case INT32PARAM => WithPayload(sizes, f, words, 2)
      else if words[0].n == 2 then
        if f.dataType != NVFP4 || !Ints(words, 2, 3) then None
        else
          var blockK, blockM := words[2].n, words[3].n;
          if blockK <= 0 || blockM <= 0 || |f.dims| != 2
              || words[4].n != sizes.nvfp4Scales(f.dims[0], f.dims[1], blockK, blockM) then None
          else WithPayload(sizes, f.(blockK := blockK, blockM := blockM, scales := []), words, 5)
      else None
  }

  function ImportedBlocks(sizes: Sizes, f: Fields, words: seq<Word>): Option<Fields> {
    if !Ints(words, 2, 3) then None
    else
      var scales := TakeFloats(words, 5, words[4].n);
      if scales.None? then None
      else WithPayload(sizes, f.(blockK := words[2].n, blockM := words[3].n, scales := scales.value), words,
          5 + |scales.value|)
  }

  function ImportedChannels(sizes: Sizes, f: Fields, words: seq<Word>): Option<Fields> {
    if !Ints(words, 2, 1) || Channels(f.dims, words[2].n).None? then None
    else
      var k := Channels(f.dims, words[2].n).value;
      var numbers := TakeFloats(words, 3, 2 * k);
      if numbers.None? then None
      else WithPayload(sizes, WithConfigs(f, words[2].n, RebuiltAll(f.dataType, numbers.value, k)), words, 3 + 2 * k)
  }

  function ImportedGroups(sizes: Sizes, f: Fields, words: seq<Word>): Option<Fields> {
    if !Ints(words, 2, 3) || Channels(f.dims, words[2].n).None? || words[3].n < 0 then None
    else
      var k := Channels(f.dims, words[2].n).value * words[3].n;
      Product(Channels(f.dims, words[2].n).value, words[3].n);
      var numbers := TakeFloats(words, 5, 2 * k);
      if numbers.None? then None
      else
        WithPayload(sizes, f.(perChannelAxis := words[2].n, group := words[3].n, groupCnt := words[4].n,
                              mins := Evens(numbers.value, k), scales := Odds(numbers.value, k)), words, 5 + 2 * k)
  }

  /** The stream of a weight with two channels, word by word: version 1, the type, the axis, the two numbers of each
      channel, and the payload. */
  lemma ChannelStream(sizes: Sizes, f: Fields)
    requires f.dataType in {INT8, INT4, INT4_NOZERO} && |f.perChannelsConfigs| == 2
    ensures var c, d := f.perChannelsConfigs[0], f.perChannelsConfigs[1];
      var second := if f.dataType == INT4_NOZERO then [F(c.scale), F(d.scale)] else [F(c.max), F(d.max)];
      Exported(sizes, f) == [I(1), I(if f.dataType == INT8 then 3 else if f.dataType == INT4 then 4 else 8),
          I(f.perChannelAxis), F(c.min), second[0], F(d.min), second[1]] + Bytes(f.cpuData)
  {
    var c, d := f.perChannelsConfigs[0], f.perChannelsConfigs[1];
    var a := seq(2, i requires 0 <= i < 2 => f.perChannelsConfigs[i].min);
    var b := seq(2, i requires 0 <= i < 2 =>
      if f.dataType == INT4_NOZERO then f.perChannelsConfigs[i].scale else f.perChannelsConfigs[i].max);
    assert Zip(a[..1][..0], b[..1][..0]) == [] && Zip(a[..1], b[..1]) == [a[0], b[0]];
    assert ConfigNumbers(f.dataType, f.perChannelsConfigs) == Zip(a, b) == [a[0], b[0], a[1], b[1]];
  }

  /** A weight of rows and columns has a config for each row along axis 0 and for each column along axis 1, and a single
      one without an axis; there is no other axis. */
  lemma ChannelCount(rows: nat, columns: nat, axis: int)
    ensures Channels([rows, columns], axis)
         == if axis == -1 then Some(1) else if axis == 0 then Some(rows) else if axis == 1 then Some(columns) else None
  {
  }

  // --- round trip ---

  /** The data that comes back when f is written and read into g. */
  function Restored(g: Fields, f: Fields): Fields {
    var h := g.(dataType := f.dataType, cpuData := f.cpuData);
    match f.dataType
    case FP8_E4M3 => h.(blockK := f.blockK, blockM := f.blockM, scales := f.scales)
    case NVFP4 => h.(blockK := f.blockK, blockM := f.blockM, scales := f.scales)
    case INT8 => WithConfigs(h, f.perChannelAxis, f.perChannelsConfigs)
    case INT4 => WithConfigs(h, f.perChannelAxis, f.perChannelsConfigs)
    case INT4_NOZERO => WithConfigs(h, f.perChannelAxis, Settled(f.perChannelsConfigs))
    case INT4_GROUP => h.(perChannelAxis := f.perChannelAxis, group := f.group, groupCnt := f.groupCnt, mins := f.mins,
        scales := f.scales)
    case INT4_GROUP32 => h.(perChannelAxis := f.perChannelAxis, group := f.group, groupCnt := f.groupCnt)
    case DATA_GGUF_FORMAT => h.(ggmlType := f.ggmlType)
    case INT32 => h
    case INT32PARAM => h
  }

  /** A config whose maximum is the value of its largest number; the stream does not keep any other. */
  function Settle(c: LowBitConfig): LowBitConfig {
    c.(max := c.min + 15.0 * c.scale)
  }

  function Settled(configs: seq<LowBitConfig>): seq<LowBitConfig> {
    seq(|configs|, i requires 0 <= i < |configs| => Settle(configs[i]))
  }

  /** Minimum and maximum of a config give the config again. */
  lemma RangeFixed(c: LowBitConfig, t: DataType)
    requires (t == INT4 && MadeByQuantizer(c, 4, 0)) || (t == INT8 && MadeByQuantizer(c, 8, 0))
    ensures Rebuilt(t, c.min, c.max) == c
  {
    var a: real, b: real :| c == Config(a, b, if t == INT4 then 4 else 8, 0);
  }

  /** Minimum and step of a config give the config again, but for the maximum. */
  lemma StepFixed(c: LowBitConfig)
    requires MadeByQuantizer(c, 4, 1)
    ensures Rebuilt(INT4_NOZERO, c.min, c.scale) == Settle(c)
  {
    hide Config;
    var a: real, b: real :| c == Config(a, b, 4, 1);
    StepParts(a, b);
    StepNumbers(c.scale, c.zeroPoint as real, c.min);
    SettleConfig(c.scale, c.zeroPoint, c.min);
    ConfigFields(a, b, 4, 1);
  }

  /** The range from the minimum over 15 steps, seen as a config. */
  lemma SettleConfig(s: real, zp: nat, m: real)
    requires s >= 0.0 && zp <= 15 && (s == 0.0 ==> zp == 0) && m <= 0.0 <= m + 15.0 * s && m == -s * zp as real
    requires s > 0.0 ==> -m / s == zp as real
    ensures Config(m, m + 15.0 * s, 4, 1) == LowBitConfig(m, m + 15.0 * s, 4, 1, s, zp)
  {
    assert (m + 15.0 * s - m) / 15.0 == s;
    assert s > 0.0 ==> Round(-m / s) == zp;
  }

  lemma StepNumbers(s: real, zp: real, m: real)
    requires s >= 0.0 && 0.0 <= zp <= 15.0 && m == -s * zp
    ensures m <= 0.0 <= m + 15.0 * s && (s > 0.0 ==> -m / s == zp)
  {
    RealProduct(s, zp);
    RealProduct(s, 15.0 - zp);
    assert s * (15.0 - zp) == m + 15.0 * s;
    if s > 0.0 {
      assert -m == s * zp == zp * s;
      QuotientIs(-m, s, zp);
    }
  }

  lemma QuotientIs(m: real, s: real, q: real)
    requires s > 0.0 && m == q * s
    ensures m / s == q
  {
    var p := m / s;
    DivMul(m, s);
    assert p * s == m;
    SameSteps(p, q, s);
  }

  lemma StepParts(a: real, b: real)
    ensures var c := Config(a, b, 4, 1);
      c.scale >= 0.0 && 0 <= c.zeroPoint <= 15 && (c.scale == 0.0 ==>
          c.zeroPoint == 0) && c.min == -c.scale * c.zeroPoint as real
  {
  }

  lemma {:induction false} ZipParts(a: seq<real>, b: seq<real>)
    requires |a| == |b|
    ensures |Zip(a, b)| == 2 * |a|
    ensures forall i :: 0 <= i < |a| ==> Zip(a, b)[2 * i] == a[i] && Zip(a, b)[2 * i + 1] == b[i]
  {
    if a != [] {
      ZipParts(a[..|a| - 1], b[..|b| - 1]);
    }
  }

  lemma ZipBack(a: seq<real>, b: seq<real>)
    requires |a| == |b|
    ensures |Zip(a, b)| == 2 * |a| && Evens(Zip(a, b), |a|) == a && Odds(Zip(a, b), |a|) == b
  {
    ZipParts(a, b);
  }

  /** Numbers and bytes are read back from where they were written. */
  lemma TakeBack(head: seq<Word>, numbers: seq<real>, bytes: seq<nat>)
    ensures TakeFloats(head + Floats(numbers) + Bytes(bytes), |head|, |numbers|) == Some(numbers)
    ensures TakeBytes(head + Floats(numbers) + Bytes(bytes), |head| + |numbers|, |bytes|) == Some(bytes)
  {
    var words := head + Floats(numbers) + Bytes(bytes);
    assert forall i :: |head| <= i < |head| + |numbers| ==> words[i] == F(numbers[i - |head|]);
    assert forall i :: |head| + |numbers| <= i < |words| ==> words[i] == B(bytes[i - |head| - |numbers|]);
    assert TakeFloats(words, |head|, |numbers|).value == numbers;
    assert TakeBytes(words, |head| + |numbers|, |bytes|).value == bytes;
  }

  /** The stream of a weight: ints, then numbers, then bytes. */
  lemma Parts(sizes: Sizes, f: Fields, head: seq<Word>, numbers: seq<real>)
    requires |f.mins| == |f.scales| || f.dataType != INT4_GROUP
    requires [I(if CompactNVFP4(f) then 2 else 1), I(Code(f.dataType))] + Metadata(sizes, f) == head + Floats(numbers)
    ensures Exported(sizes, f) == head + Floats(numbers) + Bytes(f.cpuData)
    ensures TakeFloats(Exported(sizes, f), |head|, |numbers|) == Some(numbers)
    ensures TakeBytes(Exported(sizes, f), |head| + |numbers|, |f.cpuData|) == Some(f.cpuData)
    ensures forall i :: 0 <= i < |head| ==> Exported(sizes, f)[i] == head[i]
  {
    TakeBack(head, numbers, f.cpuData);
  }

  /** Writing and reading give the data back. */
  lemma RoundTrip(sizes: Sizes, g: Fields, f: Fields)
    requires WellFormed(sizes, f) && g.dims == f.dims
    ensures |f.mins| == |f.scales| || f.dataType != INT4_GROUP
    ensures Imported(sizes, g, Exported(sizes, f)) == Some(Restored(g, f))
  {
    match f.dataType
    case FP8_E4M3 => RoundTripBlocks(sizes, g, f);
    case NVFP4 =>
      if CompactNVFP4(f) {
        RoundTripCompact(sizes, g, f);
      } else {
        RoundTripBlocks(sizes, g, f);
      }
    case INT8 => RoundTripChannels(sizes, g, f);
    case INT4 => RoundTripChannels(sizes, g, f);
    case INT4_NOZERO => RoundTripChannels(sizes, g, f);
    case INT4_GROUP => RoundTripGroups(sizes, g, f);
    case INT4_GROUP32 => RoundTripPlain(sizes, g, f);
    case DATA_GGUF_FORMAT => RoundTripGgml(sizes, g, f);
    case INT32 => RoundTripPlain(sizes, g, f);
    case INT32PARAM => RoundTripPlain(sizes, g, f);
  }

  lemma RoundTripPlain(sizes: Sizes, g: Fields, f: Fields)
    requires WellFormed(sizes, f) && g.dims == f.dims && f.dataType in {INT4_GROUP32, INT32, INT32PARAM}
    ensures Imported(sizes, g, Exported(sizes, f)) == Some(Restored(g, f))
  {
    Parts(sizes, f, [I(1), I(Code(f.dataType))], []);
    hide TakeFloats, TakeBytes, Exported;
  }

  lemma RoundTripGgml(sizes: Sizes, g: Fields, f: Fields)
    requires WellFormed(sizes, f) && g.dims == f.dims && f.dataType == DATA_GGUF_FORMAT
    ensures Imported(sizes, g, Exported(sizes, f)) == Some(Restored(g, f))
  {
    Parts(sizes, f, [I(1), I(9999), I(f.ggmlType)], []);
    hide TakeFloats, TakeBytes, Exported;
  }

  lemma RoundTripCompact(sizes: Sizes, g: Fields, f: Fields)
    requires WellFormed(sizes, f) && g.dims == f.dims && CompactNVFP4(f)
    ensures Imported(sizes, g, Exported(sizes, f)) == Some(Restored(g, f))
  {
    Parts(sizes, f, [I(2), I(14), I(f.blockK), I(f.blockM),
        I(sizes.nvfp4Scales(f.dims[0], f.dims[1], f.blockK, f.blockM))], []);
    hide TakeFloats, TakeBytes, Exported;
  }

  lemma RoundTripBlocks(sizes: Sizes, g: Fields, f: Fields)
    requires WellFormed(sizes, f) && g.dims == f.dims
        && (f.dataType == FP8_E4M3 || (f.dataType == NVFP4 && !CompactNVFP4(f)))
    ensures Imported(sizes, g, Exported(sizes, f)) == Some(Restored(g, f))
  {
    var head := [I(1), I(Code(f.dataType)), I(f.blockK), I(f.blockM), I(|f.scales|)];
    assert [I(1), I(Code(f.dataType))] + Metadata(sizes, f) == head + Floats(f.scales);
    Parts(sizes, f, head, f.scales);
    hide TakeFloats, TakeBytes, Exported;
  }

  lemma RoundTripGroups(sizes: Sizes, g: Fields, f: Fields)
    requires WellFormed(sizes, f) && g.dims == f.dims && f.dataType == INT4_GROUP
    ensures Imported(sizes, g, Exported(sizes, f)) == Some(Restored(g, f))
  {
    hide TakeFloats, TakeBytes, Zip;
    var numbers := Zip(f.mins, f.scales);
    var head := [I(1), I(9), I(f.perChannelAxis), I(f.group), I(f.groupCnt)];
    assert [I(1), I(9)] + Metadata(sizes, f) == head + Floats(numbers);
    Parts(sizes, f, head, numbers);
    ZipBack(f.mins, f.scales);
    hide Exported;
  }

  lemma RoundTripChannels(sizes: Sizes, g: Fields, f: Fields)
    requires WellFormed(sizes, f) && g.dims == f.dims && f.dataType in {INT8, INT4, INT4_NOZERO}
    ensures Imported(sizes, g, Exported(sizes, f)) == Some(Restored(g, f))
  {
    var k := |f.perChannelsConfigs|;
    var numbers := ConfigNumbers(f.dataType, f.perChannelsConfigs);
    ChannelParts(sizes, f);
    ConfigsBack(sizes, f);
    ChannelFacts(sizes, f);
    hide TakeFloats, TakeBytes, Exported, ConfigNumbers, WellFormed, Settled, RebuiltAll, Imported, ImportedChannels,
        Restored, WithConfigs, Channels;
    var words, h := Exported(sizes, f), g.(dataType := f.dataType);
    ReadChannels(sizes, h, words, f.perChannelAxis, k, numbers, f.cpuData);
    ChannelWords(sizes, g, words, f.dataType);
    RestoredChannels(g, f);
  }

  lemma ChannelFacts(sizes: Sizes, f: Fields)
    requires WellFormed(sizes, f) && f.dataType in {INT8, INT4, INT4_NOZERO}
    ensures Channels(f.dims, f.perChannelAxis) == Some(|f.perChannelsConfigs|)
    ensures |f.cpuData| == sizes.bytes(Plain(f.dataType, f.dims))
  {
  }

  lemma RestoredChannels(g: Fields, f: Fields)
    requires f.dataType in {INT8, INT4, INT4_NOZERO}
    ensures Restored(g, f) == WithConfigs(g.(dataType := f.dataType), f.perChannelAxis,
                                          if f.dataType == INT4_NOZERO then Settled(f.perChannelsConfigs)
                                              else f.perChannelsConfigs).(cpuData := f.cpuData)
  {
    hide Settled;
  }

  lemma ChannelParts(sizes: Sizes, f: Fields)
    requires WellFormed(sizes, f) && f.dataType in {INT8, INT4, INT4_NOZERO}
    ensures var words, numbers := Exported(sizes, f), ConfigNumbers(f.dataType, f.perChannelsConfigs);
      && Ints(words, 0, 3) && words[0].n == 1 && words[1].n == Code(f.dataType) && words[2].n == f.perChannelAxis
      && TakeFloats(words, 3, |numbers|) == Some(numbers)
      && TakeBytes(words, 3 + |numbers|, |f.cpuData|) == Some(f.cpuData)
  {
    var numbers := ConfigNumbers(f.dataType, f.perChannelsConfigs);
    var head := [I(1), I(Code(f.dataType)), I(f.perChannelAxis)];
    assert [I(1), I(Code(f.dataType))] + Metadata(sizes, f) == head + Floats(numbers);
    Parts(sizes, f, head, numbers);
    hide TakeFloats, TakeBytes, ConfigNumbers;
  }

  lemma ChannelWords(sizes: Sizes, g: Fields, words: seq<Word>, dataType: DataType)
    requires Ints(words, 0, 2) && words[0].n == 1 && words[1].n == Code(dataType)
        && dataType in {INT8, INT4, INT4_NOZERO}
    ensures Imported(sizes, g, words) == ImportedChannels(sizes, g.(dataType := dataType), words)
  {
    hide ImportedChannels;
  }

  lemma ReadChannels(sizes: Sizes, h: Fields, words: seq<Word>, axis: int, k: nat, numbers: seq<real>, bytes: seq<nat>)
    requires Ints(words, 2, 1) && words[2].n == axis && Channels(h.dims, axis) == Some(k) && |numbers| == 2 * k
    requires TakeFloats(words, 3, 2 * k) == Some(numbers)
        && TakeBytes(words, 3 + 2 * k, sizes.bytes(Plain(h.dataType, h.dims))) == Some(bytes)
    requires h.dataType in {INT8, INT4, INT4_NOZERO}
    ensures ImportedChannels(sizes, h, words)
        == Some(WithConfigs(h, axis, RebuiltAll(h.dataType, numbers, k)).(cpuData := bytes))
  {
    hide TakeFloats, TakeBytes, RebuiltAll;
  }

  lemma ConfigsBack(sizes: Sizes, f: Fields)
    requires WellFormed(sizes, f) && f.dataType in {INT8, INT4, INT4_NOZERO}
    ensures var configs := f.perChannelsConfigs;
      && |ConfigNumbers(f.dataType, configs)| == 2 * |configs|
      && RebuiltAll(f.dataType, ConfigNumbers(f.dataType, configs), |configs|) == if f.dataType
          == INT4_NOZERO then Settled(configs) else configs
  {
    var configs := f.perChannelsConfigs;
    ZipParts(seq(|configs|, i requires 0 <= i < |configs| => configs[i].min),
             seq(|configs|, i requires 0 <= i < |configs| => if f.dataType == INT4_NOZERO then configs[i].scale
                 else configs[i].max));
    hide Config, Rebuilt;
    forall i | 0 <= i < |configs|
      ensures Rebuilt(f.dataType, configs[i].min,
          if f.dataType == INT4_NOZERO then configs[i].scale else configs[i].max)
           == if f.dataType == INT4_NOZERO then Settle(configs[i]) else configs[i]
    {
      if f.dataType == INT4_NOZERO {
        StepFixed(configs[i]);
      } else {
        RangeFixed(configs[i], f.dataType);
      }
    }
  }

  lemma {:induction false} SizeConcat(a: seq<Word>, b: seq<Word>)
    ensures Size(a + b) == Size(a) + Size(b)
    decreases |b|
  {
    if b == [] {
      assert a + b == a;
    } else {
      assert (a + b)[..|a + b| - 1] == a + b[..|b| - 1];
      SizeConcat(a, b[..|b| - 1]);
    }
  }

  lemma {:induction false} SizeWide(words: seq<Word>)
    requires forall i :: 0 <= i < |words| ==> !words[i].B?
    ensures Size(words) == 4 * |words|
  {
    if words != [] {
      SizeWide(words[..|words| - 1]);
    }
  }

  lemma {:induction false} SizeBytes(words: seq<Word>)
    requires forall i :: 0 <= i < |words| ==> words[i].B?
    ensures Size(words) == |words|
  {
    if words != [] {
      SizeBytes(words[..|words| - 1]);
    }
  }

  lemma MetadataSize(sizes: Sizes, f: Fields)
    requires WellFormed(sizes, f)
    ensures forall i :: 0 <= i < |Metadata(sizes, f)| ==> !Metadata(sizes, f)[i].B?
    ensures 8 + 4 * |Metadata(sizes, f)| + |f.cpuData| == FormatBytes(sizes, f)
  {
    match f.dataType
    case INT8 | INT4 | INT4_NOZERO => ConfigsBack(sizes, f);
    case INT4_GROUP =>
      ZipParts(f.mins, f.scales);
      GroupBytes(Channels(f.dims, f.perChannelAxis).value, f.group, |f.mins|);
    case _ =>
  }

  lemma GroupBytes(k: nat, group: nat, n: nat)
    requires n == k * group
    ensures 12 + 4 * (2 * n) == 12 + k * group * 2 * 4
  {
  }

  /** The announced number of bytes is the number of bytes that are written. */
  lemma BytesMatch(sizes: Sizes, f: Fields)
    requires WellFormed(sizes, f)
    ensures Size(Exported(sizes, f)) == FormatBytes(sizes, f)
  {
    MetadataSize(sizes, f);
    hide FormatBytes, Metadata, Code, Size;
    var head := [I(if CompactNVFP4(f) then 2 else 1), I(Code(f.dataType))];
    SizeConcat(head + Metadata(sizes, f), Bytes(f.cpuData));
    SizeWide(head + Metadata(sizes, f));
    SizeBytes(Bytes(f.cpuData));
  }

  /** What came back once is written and read again without any further change. */
  lemma SecondTrip(sizes: Sizes, g: Fields, f: Fields)
    requires WellFormed(sizes, f) && g.dims == f.dims
    ensures var h := Restored(g, f); WellFormed(sizes, h) && Restored(h, h) == h
  {
    var h := Restored(g, f);
    if f.dataType == INT4_NOZERO {
      forall i | 0 <= i < |f.perChannelsConfigs| ensures MadeByQuantizer(Settle(f.perChannelsConfigs[i]), 4, 1) {
        SettledMade(f.perChannelsConfigs[i]);
      }
      SettleOnce(h.perChannelsConfigs, f.perChannelsConfigs);
    }
    hide Config, Settle;
  }

  lemma SettledMade(c: LowBitConfig)
    requires MadeByQuantizer(c, 4, 1)
    ensures MadeByQuantizer(Settle(c), 4, 1)
  {
    hide Config;
    var a: real, b: real :| c == Config(a, b, 4, 1);
    StepParts(a, b);
    StepNumbers(c.scale, c.zeroPoint as real, c.min);
    SettleConfig(c.scale, c.zeroPoint, c.min);
    ConfigFields(a, b, 4, 1);
    assert Settle(c) == Config(c.min, c.min + 15.0 * c.scale, 4, 1);
  }

  lemma SettleOnce(settled: seq<LowBitConfig>, configs: seq<LowBitConfig>)
    requires settled == Settled(configs)
    ensures Settled(settled) == settled
  {
  }
}
