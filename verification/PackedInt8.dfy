/** Repacking 8-bit weights in groups of 128 with bfloat16 scales into blocks of 32 with half-precision scales, without
    changing any value. Magnitudes are counted in units of 2^-133, of which every finite number of either format is a
    whole number. */
module PackedInt8 {
  import opened Wrappers
  import opened Arithmetic

  lemma {:induction false} Pow2Rises(a: nat, b: nat)
    requires a <= b
    ensures Pow2(a) <= Pow2(b)
  {
    if a < b {
      Pow2Rises(a, b - 1);
    }
  }

  /** The bits of a bfloat16 number without its sign: 8 bits of exponent, 7 of mantissa. */
  function BfExp(b: nat): nat { b / 128 % 256 }
  function BfMant(b: nat): nat { b % 128 }

  /** A bfloat16 number that is not negative and neither infinite nor not a number. */
  predicate BfFinite(b: nat) {
    b < 0x8000 && BfExp(b) < 255
  }

  function BfUnits(b: nat): nat {
    if BfExp(b) == 0 then BfMant(b) else (128 + BfMant(b)) * Pow2(BfExp(b) - 1)
  }

  /** A binary16 number (IEEE 754-2019, section 3.4) that is not negative and finite: 5 bits of exponent, 10 of
      mantissa. */
  predicate HalfFinite(h: nat) {
    h < 0x7C00
  }

  function HalfUnits(h: nat): nat
    requires HalfFinite(h)
  {
    if h < 1024 then h * Pow2(109) else (1024 + h % 1024) * Pow2(h / 1024 + 108)
  }

  /** The half-precision number with the same value, if there is one. */
  function ExactHalfScale(bf16: nat): Option<nat>
    requires bf16 < 0x1_0000
  {
    var exp, mant := BfExp(bf16), BfMant(bf16);
    if bf16 < 0x8000 then
      if bf16 == 0 then Some(0)
      else if 113 <= exp <= 142 then Some((exp - 112) * 1024 + mant * 8)
      else if 103 <= exp < 113 then
        var significand := 128 + mant;
        if exp >= 110 then Some(significand * Pow2(exp - 110))
        else if significand % Pow2(110 - exp) == 0 then Some(significand / Pow2(110 - exp))
        else None
      else None
    else None
  }

  lemma SmallPowers()
    ensures Pow2(0) == 1 && Pow2(1) == 2 && Pow2(2) == 4 && Pow2(3) == 8 && Pow2(4) == 16 && Pow2(7) == 128
        && Pow2(8) == 256
  {
    assert Pow2(2) == 4;
    assert Pow2(4) == 16;
    Pow2Add(4, 4);
    assert Pow2(8) == 2 * Pow2(7);
  }

  lemma ScaleNormal(b: nat)
    requires b < 0x8000 && 113 <= BfExp(b) <= 142
    ensures ExactHalfScale(b).Some? && HalfFinite(ExactHalfScale(b).value)
    ensures HalfUnits(ExactHalfScale(b).value) == BfUnits(b)
  {
    SmallPowers();
    hide Pow2;
    var exp, mant := BfExp(b), BfMant(b);
    var h := (exp - 112) * 1024 + mant * 8;
    assert h / 1024 == exp - 112 && h % 1024 == mant * 8;
    Pow2Add(3, exp - 4);
    Associate(128 + mant, 8, Pow2(exp - 4));
  }

  lemma ScaleLifted(b: nat)
    requires b < 0x8000 && 110 <= BfExp(b) <= 112
    ensures ExactHalfScale(b).Some? && HalfFinite(ExactHalfScale(b).value)
    ensures HalfUnits(ExactHalfScale(b).value) == BfUnits(b)
  {
    SmallPowers();
    hide Pow2;
    var exp, sig := BfExp(b), 128 + BfMant(b);
    assert Pow2(exp - 110) <= 4;
    MulBoth(sig, 255, Pow2(exp - 110), 4);
    Pow2Add(exp - 110, 109);
    Associate(sig, Pow2(exp - 110), Pow2(109));
  }

  /** In the subnormal range the value is a half-precision number exactly when no bits are lost. */
  lemma ScaleLowered(b: nat)
    requires b < 0x8000 && 103 <= BfExp(b) <= 109
    ensures BfUnits(b) * Pow2(110 - BfExp(b)) == (128 + BfMant(b)) * Pow2(109)
    ensures ExactHalfScale(b).Some? <==> (128 + BfMant(b)) % Pow2(110 - BfExp(b)) == 0
    ensures ExactHalfScale(b).Some? ==>
        HalfFinite(ExactHalfScale(b).value) && HalfUnits(ExactHalfScale(b).value) == BfUnits(b)
  {
    SmallPowers();
    hide Pow2;
    var exp, sig := BfExp(b), 128 + BfMant(b);
    var shift := 110 - exp;
    Pow2Add(exp - 1, shift);
    Associate(sig, Pow2(exp - 1), Pow2(shift));
    if sig % Pow2(shift) == 0 {
      Pow2Rises(1, shift);
      LoweredValue(sig, Pow2(shift), Pow2(109), BfUnits(b));
    }
  }

  lemma LoweredValue(sig: nat, p: nat, q: nat, u: nat)
    requires sig < 256 && p >= 2 && sig % p == 0 && u * p == sig * q
    ensures sig / p < 1024 && sig / p * q == u
  {
    var h := sig / p;
    DivTimes(sig, p);
    assert sig == h * p;
    MulMonotone(2, p, h);
    Associate(h, p, q);
    Associate(h, q, p);
    assert p * q == q * p;
    Product(h, q);
    SameFactor(h * q, u, p);
  }

  /** Every half-precision number is a multiple of the smallest one. */
  lemma HalfMultiple(h: nat) returns (k: nat)
    requires HalfFinite(h)
    ensures HalfUnits(h) == k * Pow2(109) && k <= 2047 * Pow2(29)
  {
    hide Pow2;
    if h < 1024 {
      k := h;
      MulMonotone(1, Pow2(29), 2047);
    } else {
      var e := h / 1024 + 108;
      Pow2Add(e - 109, 109);
      Pow2Rises(e - 109, 29);
      MulBoth(1024 + h % 1024, 2047, Pow2(e - 109), Pow2(29));
      k := (1024 + h % 1024) * Pow2(e - 109);
      Associate(1024 + h % 1024, Pow2(e - 109), Pow2(109));
    }
  }

  lemma SmallUnits(b: nat)
    requires 0 < b < 0x8000 && BfExp(b) < 103
    ensures 0 < BfUnits(b) < Pow2(109)
  {
    SmallPowers();
    hide Pow2;
    if BfExp(b) == 0 {
      Pow2Rises(7, 109);
    } else {
      var m := 128 + BfMant(b);
      Pow2Rises(BfExp(b) - 1, 101);
      MulBoth(m, 255, Pow2(BfExp(b) - 1), Pow2(101));
      MulBoth(1, m, 1, Pow2(BfExp(b) - 1));
      Pow2Add(8, 101);
    }
  }

  /** Too small: between zero and the smallest half-precision number. */
  lemma ScaleTooSmall(b: nat, h: nat)
    requires 0 < b < 0x8000 && BfExp(b) < 103 && HalfFinite(h)
    ensures HalfUnits(h) != BfUnits(b)
  {
    hide Pow2, HalfUnits, BfUnits;
    SmallUnits(b);
    var k := HalfMultiple(h);
    if k > 0 {
      MulMonotone(1, k, Pow2(109));
    }
  }

  /** Too large: above the largest half-precision number. */
  lemma ScaleTooLarge(b: nat, h: nat)
    requires BfFinite(b) && BfExp(b) > 142 && HalfFinite(h)
    ensures HalfUnits(h) != BfUnits(b)
  {
    SmallPowers();
    hide Pow2, HalfUnits;
    var k := HalfMultiple(h);
    MulMonotone(k, 2047 * Pow2(29), Pow2(109));
    Pow2Add(29, 109);
    Associate(2047, Pow2(29), Pow2(109));
    Pow2Rises(142, BfExp(b) - 1);
    MulBoth(128, 128 + BfMant(b), Pow2(142), Pow2(BfExp(b) - 1));
    Pow2Add(4, 138);
  }

  /** Bits would be lost: no half-precision number has the value. */
  lemma ScaleLoses(b: nat, h: nat)
    requires b < 0x8000 && 103 <= BfExp(b) <= 109 && (128 + BfMant(b)) % Pow2(110 - BfExp(b)) != 0 && HalfFinite(h)
    ensures HalfUnits(h) != BfUnits(b)
  {
    hide Pow2, HalfUnits, BfUnits, ExactHalfScale;
    ScaleLowered(b);
    var k := HalfMultiple(h);
    NotMultiple(128 + BfMant(b), Pow2(110 - BfExp(b)), Pow2(109), BfUnits(b), k);
  }

  lemma NotMultiple(sig: nat, p: nat, q: nat, u: nat, k: nat)
    requires p >= 1 && q >= 1 && u * p == sig * q && sig % p != 0
    ensures u != k * q
  {
    ExactMod(k, p);
    Product(k, p);
    if u == k * q {
      Associate(k, q, p);
      Associate(k, p, q);
      assert q * p == p * q;
      SameFactor(k * p, sig, q);
    }
  }

  lemma ScaleZero()
    ensures HalfFinite(0) && HalfUnits(0) == BfUnits(0)
  {
  }

  /** A scale is accepted exactly when it is not negative and some half-precision number has its value; it becomes that
      number. */
  lemma ScaleMeaning(b: nat)
    requires b < 0x1_0000
    ensures ExactHalfScale(b).Some? <==> BfFinite(b) && exists h :: HalfFinite(h) && HalfUnits(h) == BfUnits(b)
    ensures ExactHalfScale(b).Some? ==>
        HalfFinite(ExactHalfScale(b).value) && HalfUnits(ExactHalfScale(b).value) == BfUnits(b)
  {
    hide HalfFinite, HalfUnits, BfUnits;
    if b < 0x8000 {
      var exp := BfExp(b);
      if b == 0 {
        ScaleZero();
      } else if 113 <= exp <= 142 {
        ScaleNormal(b);
      } else if 110 <= exp <= 112 {
        ScaleLifted(b);
      } else if 103 <= exp <= 109 {
        ScaleLowered(b);
        if ExactHalfScale(b).None? {
          forall h | HalfFinite(h) ensures HalfUnits(h) != BfUnits(b) {
            ScaleLoses(b, h);
          }
        }
      } else if exp < 103 {
        forall h | HalfFinite(h) ensures HalfUnits(h) != BfUnits(b) {
          ScaleTooSmall(b, h);
        }
      } else if exp < 255 {
        forall h | HalfFinite(h) ensures HalfUnits(h) != BfUnits(b) {
          ScaleTooLarge(b, h);
        }
      }
    }
  }

  /** Different scales have different values. */
  lemma UnitsDiffer(a: nat, b: nat)
    requires BfFinite(a) && BfFinite(b) && BfUnits(a) == BfUnits(b)
    ensures a == b
  {
    if BfExp(a) < BfExp(b) {
      UnitsRise(a, b);
    } else if BfExp(b) < BfExp(a) {
      UnitsRise(b, a);
    } else if BfExp(a) > 0 {
      SameFactor(128 + BfMant(a), 128 + BfMant(b), Pow2(BfExp(a) - 1));
    }
  }

  lemma UnitsRise(a: nat, b: nat)
    requires BfFinite(a) && BfFinite(b) && BfExp(a) < BfExp(b)
    ensures BfUnits(a) < BfUnits(b)
  {
    SmallPowers();
    hide Pow2;
    MulBoth(128, 128 + BfMant(b), 1, Pow2(BfExp(b) - 1));
    if BfExp(a) > 0 {
      MulStrict(128 + BfMant(a), 256, Pow2(BfExp(a) - 1));
      Pow2Add(1, BfExp(a) - 1);
      Pow2Rises(BfExp(a), BfExp(b) - 1);
      MulBoth(128, 128 + BfMant(b), Pow2(BfExp(a)), Pow2(BfExp(b) - 1));
    }
  }

  /** A stored byte with its top bit flipped: the checkpoint stores q + 128, the blocks hold two's complement. */
  function Flip(x: nat): (y: nat)
    ensures y < 256
  {
    (x + 128) % 256
  }

  /** A byte read as two's complement. */
  function Signed(x: nat): int {
    if x < 128 then x else x - 256
  }

  predicate Bytes(s: seq<nat>) {
    forall i :: 0 <= i < |s| ==> s[i] < 256
  }

  predicate Halfwords(s: seq<nat>) {
    forall i :: 0 <= i < |s| ==> s[i] < 0x1_0000
  }

  /** The sizes that are accepted. */
  predicate SizesFit(packedBytes: nat, scaleCount: nat, outputBytes: nat) {
    packedBytes > 0 && packedBytes == 128 * scaleCount && outputBytes == 136 * scaleCount
  }

  predicate ScalesFit(scales: seq<nat>)
    requires Halfwords(scales)
  {
    forall g :: 0 <= g < |scales| ==> ExactHalfScale(scales[g]).Some?
  }

  /** Byte k of the output: each block of 34 bytes starts with the scale of its group, the low byte first. */
  function RepackedByte(packed: seq<nat>, scales: seq<nat>, k: nat): nat
    requires Halfwords(scales) && ScalesFit(scales) && |packed| == 128 * |scales| && k < 136 * |scales|
  {
    var g, block, o := k / 136, k % 136 / 34, k % 136 % 34;
    var half := ExactHalfScale(scales[g]).value;
    if o == 0 then half % 256 else if o == 1 then half / 256 else Flip(packed[g * 128 + block * 32 + (o - 2)])
  }

  function Repacked(packed: seq<nat>, scales: seq<nat>): seq<nat>
    requires Halfwords(scales) && ScalesFit(scales) && |packed| == 128 * |scales|
  {
    seq(136 * |scales|, k requires 0 <= k < 136 * |scales| => RepackedByte(packed, scales, k))
  }

  lemma Place(g: nat, block: nat, o: nat)
    requires block < 4 && o < 34
    ensures var k := g * 136 + block * 34 + o; k / 136 == g && k % 136 / 34 == block && k % 136 % 34 == o
  {
    var k := g * 136 + block * 34 + o;
    assert k % 136 == block * 34 + o;
  }

  /** The value of weight j in a block: its integer times the half-precision scale in front of it. */
  function BlockValue(output: seq<nat>, block: nat, j: nat): int
    requires 34 * block + 34 <= |output| && j < 32 && HalfFinite(output[34 * block] + 256 * output[34 * block + 1])
  {
    Signed(output[34 * block + 2 + j]) * HalfUnits(output[34 * block] + 256 * output[34 * block + 1])
  }

  /** Every weight keeps its value exactly. */
  lemma RepackedValue(packed: seq<nat>, scales: seq<nat>, g: nat, block: nat, j: nat)
    requires Halfwords(scales) && ScalesFit(scales) && Bytes(packed) && |packed| == 128 * |scales|
    requires g < |scales| && block < 4 && j < 32
    ensures var output := Repacked(packed, scales);
      && 34 * (4 * g + block) + 34 <= |output|
      && HalfFinite(output[34 * (4 * g + block)] + 256 * output[34 * (4 * g + block) + 1])
      && BlockValue(output, 4 * g + block, j) == (packed[128 * g + 32 * block + j] as int - 128) * BfUnits(scales[g])
  {
    hide ExactHalfScale, HalfUnits, BfUnits, Repacked;
    BlockBytes(packed, scales, g, block, j);
    ScaleMeaning(scales[g]);
  }

  lemma BlockBytes(packed: seq<nat>, scales: seq<nat>, g: nat, block: nat, j: nat)
    requires Halfwords(scales) && ScalesFit(scales) && Bytes(packed) && |packed| == 128 * |scales|
    requires g < |scales| && block < 4 && j < 32
    ensures var output, at := Repacked(packed, scales), 34 * (4 * g + block);
      && at + 34 <= |output|
      && output[at] + 256 * output[at + 1] == ExactHalfScale(scales[g]).value
      && Signed(output[at + 2 + j]) + 128 == packed[128 * g + 32 * block + j]
  {
    hide ExactHalfScale;
    Place(g, block, 0);
    Place(g, block, 1);
    Place(g, block, 2 + j);
    var half, x := ExactHalfScale(scales[g]).value, packed[128 * g + 32 * block + j];
    assert half == 256 * (half / 256) + half % 256;
    assert x < 256 && Signed(Flip(x)) + 128 == x;
  }

  /** Different inputs that are accepted give different outputs. */
  lemma RepackedInjective(packed: seq<nat>, scales: seq<nat>, packed': seq<nat>, scales': seq<nat>)
    requires Halfwords(scales) && ScalesFit(scales) && Bytes(packed) && |packed| == 128 * |scales|
    requires Halfwords(scales') && ScalesFit(scales') && Bytes(packed') && |packed'| == 128 * |scales'|
    requires Repacked(packed, scales) == Repacked(packed', scales')
    ensures packed == packed' && scales == scales'
  {
    var output := Repacked(packed, scales);
    assert |output| == 136 * |scales| == 136 * |scales'|;
    forall g | 0 <= g < |scales| ensures scales[g] == scales'[g] {
      SameScale(packed, scales, packed', scales', g);
    }
    forall i | 0 <= i < |packed| ensures packed[i] == packed'[i] {
      SameWeight(packed, scales, packed', scales', i);
    }
  }

  lemma SameScale(packed: seq<nat>, scales: seq<nat>, packed': seq<nat>, scales': seq<nat>, g: nat)
    requires Halfwords(scales) && ScalesFit(scales) && |packed| == 128 * |scales|
    requires Halfwords(scales') && ScalesFit(scales') && |packed'| == 128 * |scales'| && |scales'| == |scales|
    requires Repacked(packed, scales) == Repacked(packed', scales') && g < |scales|
    ensures scales[g] == scales'[g]
  {
    Place(g, 0, 0);
    Place(g, 0, 1);
    ScaleMeaning(scales[g]);
    ScaleMeaning(scales'[g]);
    hide ExactHalfScale, HalfUnits, BfUnits;
    var output, output' := Repacked(packed, scales), Repacked(packed', scales');
    assert output[g * 136] == output'[g * 136] && output[g * 136 + 1] == output'[g * 136 + 1];
    var a, b := ExactHalfScale(scales[g]).value, ExactHalfScale(scales'[g]).value;
    assert a == 256 * (a / 256) + a % 256 && b == 256 * (b / 256) + b % 256;
    UnitsDiffer(scales[g], scales'[g]);
  }

  lemma SameWeight(packed: seq<nat>, scales: seq<nat>, packed': seq<nat>, scales': seq<nat>, i: nat)
    requires Halfwords(scales) && ScalesFit(scales) && Bytes(packed) && |packed| == 128 * |scales|
    requires Halfwords(scales') && ScalesFit(scales') && Bytes(packed') && |packed'| == 128 * |scales'|
        && |scales'| == |scales|
    requires Repacked(packed, scales) == Repacked(packed', scales') && i < |packed|
    ensures packed[i] == packed'[i]
  {
    hide ExactHalfScale;
    var g, block, j := i / 128, i % 128 / 32, i % 32;
    Place(g, block, 2 + j);
    assert i == g * 128 + block * 32 + j;
    var output, output' := Repacked(packed, scales), Repacked(packed', scales');
    var k := g * 136 + block * 34 + (2 + j);
    assert output[k] == output'[k];
    assert output[k] == Flip(packed[i]) && output'[k] == Flip(packed'[i]);
  }

  /** Repacks a buffer, or reports that sizes or scales do not fit and leaves the output as it is. */
  method RepackPackedInt8Group128ToQ8_0(packed: array?<nat>, packedBytes: nat, bf16Scales: array?<nat>, scaleCount: nat,
                                        output: array?<nat>, outputBytes: nat) returns (ok: bool)
    requires packed != null ==> packed.Length == packedBytes && Bytes(packed[..])
    requires bf16Scales != null ==> bf16Scales.Length == scaleCount && Halfwords(bf16Scales[..])
    requires output != null ==> output.Length == outputBytes && output != packed && output != bf16Scales
    modifies output
    ensures ok <==> packed != null && bf16Scales != null && output != null
                    && SizesFit(packedBytes, scaleCount, outputBytes) && ScalesFit(bf16Scales[..])
    ensures ok ==> output[..] == Repacked(packed[..], bf16Scales[..])
    ensures !ok && output != null ==> output[..] == old(output[..])
  {
    if packed == null || bf16Scales == null || output == null || packedBytes == 0 || packedBytes % 128 != 0
       || scaleCount != packedBytes / 128 || outputBytes / 136 != scaleCount || outputBytes % 136 != 0 {
      return false;
    }
    hide ExactHalfScale;
    ghost var p, s := packed[..], bf16Scales[..];
    var group := 0;
    while group < scaleCount
      invariant 0 <= group <= scaleCount && forall g :: 0 <= g < group ==> ExactHalfScale(s[g]).Some?
    {
      var scale := ExactHalfScale(bf16Scales[group]);
      if scale.None? {
        assert s[group] == bf16Scales[group];
        return false;
      }
      group := group + 1;
    }
    assert ScalesFit(s);
    group := 0;
    while group < scaleCount
      invariant 0 <= group <= scaleCount && packed[..] == p && bf16Scales[..] == s
      invariant forall k :: 0 <= k < group * 136 ==> output[k] == RepackedByte(p, s, k)
    {
      var scale := ExactHalfScale(bf16Scales[group]).value;
      var block := 0;
      while block < 4
        invariant 0 <= block <= 4 && packed[..] == p && bf16Scales[..] == s
        invariant forall k :: 0 <= k < group * 136 + block * 34 ==> output[k] == RepackedByte(p, s, k)
      {
        RepackBlock(packed, output, scale, group, block, p, s);
        block := block + 1;
      }
      group := group + 1;
    }
    ok := true;
  }

  /** One block: the scale, the low byte first, and 32 weights. */
  method RepackBlock(packed: array<nat>, output: array<nat>, scale: nat, group: nat, block: nat, ghost p: seq<nat>,
      ghost s: seq<nat>)
    requires Halfwords(s) && ScalesFit(s) && |p| == 128 * |s| && packed[..] == p && output.Length == 136 * |s|
        && packed != output
    requires group < |s| && block < 4 && Some(scale) == ExactHalfScale(s[group])
    modifies output
    ensures forall k :: 0 <= k < group * 136 + block * 34 ==> output[k] == old(output[k])
    ensures forall k :: group * 136 + block * 34 <= k < group * 136 + (block + 1) * 34 ==>
        output[k] == RepackedByte(p, s, k)
  {
    hide ExactHalfScale;
    var dst := group * 136 + block * 34;
    Place(group, block, 0);
    Place(group, block, 1);
    output[dst] := scale % 256;
    output[dst + 1] := scale / 256;
    var j := 0;
    while j < 32
      invariant 0 <= j <= 32 && packed[..] == p
      invariant forall k :: 0 <= k < dst ==> output[k] == old(output[k])
      invariant forall k :: dst <= k < dst + 2 + j ==> output[k] == RepackedByte(p, s, k)
    {
      Place(group, block, 2 + j);
      assert packed[group * 128 + block * 32 + j] == p[group * 128 + block * 32 + j];
      output[dst + 2 + j] := Flip(packed[group * 128 + block * 32 + j]);
      j := j + 1;
    }
  }
}
