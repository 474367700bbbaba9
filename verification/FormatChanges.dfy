/** Which data a trip through the serialised format leaves exactly as it was. */
module FormatChanges {
  import opened Wrappers
  import opened Arithmetic
  import opened GroupQuantization
  import opened FastllmFormat

  /** Zero is a whole number of 4-bit steps above the minimum of the range that quantisation extends to reach zero; a
      range with nothing but zero has no steps. */
  ghost predicate WholeZeroPoint(a: real, b: real) {
    exists n: nat :: ZeroAt(Min(a, 0.0), Max(b, 0.0), n)
  }

  /** Zero is n fifteenths of the way from lo to hi. */
  predicate ZeroAt(lo: real, hi: real, n: nat) {
    -15.0 * lo == n as real * (hi - lo)
  }

  /** The config of a range keeps its maximum in a trip if and only if the zero point of the range is whole. */
  lemma MaximumKept(a: real, b: real)
    ensures Settle(Config(a, b, 4, 1)) == Config(a, b, 4, 1) <==> WholeZeroPoint(a, b)
  {
    var c := Config(a, b, 4, 1);
    var lo, hi := Min(a, 0.0), Max(b, 0.0);
    if c.scale == 0.0 {
      assert lo == 0.0 && hi == 0.0;
      assert ZeroAt(lo, hi, 0);
    } else {
      var z := -lo / c.scale;
      ZeroInSteps(lo, hi, c.scale);
      assert c.zeroPoint == Round(z) && c.min == -c.scale * c.zeroPoint as real && c.max == hi;
      SameZero(z, c.scale, c.zeroPoint);
      if z == c.zeroPoint as real {
        WholeSteps(lo, hi, c.scale, c.zeroPoint);
      } else {
        forall n: nat ensures !ZeroAt(lo, hi, n) {
          WholeSteps(lo, hi, c.scale, n);
        }
      }
    }
  }

  lemma ZeroInSteps(lo: real, hi: real, s: real)
    requires lo <= 0.0 <= hi && s == (hi - lo) / 15.0 && s != 0.0
    ensures s > 0.0 && 0.0 <= -lo / s <= 15.0 && -lo / s * s == -lo && hi == lo + 15.0 * s
  {
    DivMul(-lo, s);
    InSteps(-lo / s, s);
  }

  lemma InSteps(z: real, s: real)
    requires s > 0.0 && 0.0 <= z * s <= 15.0 * s
    ensures 0.0 <= z <= 15.0
  {
    if z < 0.0 {
      RealMonotone(z, 0.0, s);
    } else if z > 15.0 {
      RealMonotone(15.0, z, s);
    }
  }

  /** Rounding keeps the distance of the minimum from zero only where that is whole. */
  lemma SameZero(z: real, s: real, zp: nat)
    requires s > 0.0
    ensures -s * zp as real == -(z * s) <==> z == zp as real
  {
    if z < zp as real {
      RealMonotone(z, zp as real, s);
    } else if z > zp as real {
      RealMonotone(zp as real, z, s);
    }
  }

  lemma WholeSteps(lo: real, hi: real, s: real, n: nat)
    requires lo <= 0.0 <= hi && s == (hi - lo) / 15.0 && s != 0.0
    ensures ZeroAt(lo, hi, n) <==> -lo / s == n as real
    ensures -lo / s == n as real ==> Round(-lo / s) == n
  {
    ZeroInSteps(lo, hi, s);
    assert n as real * (hi - lo) == 15.0 * (n as real * s);
    SameZero(-lo / s, s, n);
  }

  /** Half a step off: the range from -1 to 1 loses its maximum. */
  lemma MaximumLost()
    ensures Settle(Config(-1.0, 1.0, 4, 1)) != Config(-1.0, 1.0, 4, 1)
  {
    assert !WholeZeroPoint(-1.0, 1.0) by {
      forall n: nat ensures !ZeroAt(-1.0, 1.0, n) {
        assert 2 * n != 15;
      }
    }
    MaximumKept(-1.0, 1.0);
  }

  /** The ranges from which the channels were quantised without a zero point. */
  ghost predicate MadeFrom(f: Fields, ranges: seq<(real, real)>) {
    && |ranges| == |f.perChannelsConfigs|
    && forall i :: 0 <= i < |ranges| ==> f.perChannelsConfigs[i] == Config(ranges[i].0, ranges[i].1, 4, 1)
  }

  ghost predicate AllWhole(ranges: seq<(real, real)>) {
    forall i :: 0 <= i < |ranges| ==> WholeZeroPoint(ranges[i].0, ranges[i].1)
  }

  lemma SettledSame(f: Fields, ranges: seq<(real, real)>)
    requires MadeFrom(f, ranges)
    ensures Settled(f.perChannelsConfigs) == f.perChannelsConfigs <==> AllWhole(ranges)
  {
    hide Config, WholeZeroPoint, Settle;
    var configs := f.perChannelsConfigs;
    assert |Settled(configs)| == |configs|;
    forall i | 0 <= i < |ranges|
      ensures Settled(configs)[i] == configs[i] <==> WholeZeroPoint(ranges[i].0, ranges[i].1)
    {
      MaximumKept(ranges[i].0, ranges[i].1);
    }
  }

  /** Reading data without zero points into any data of the same dims gives the configs that were written if and only if
      the zero points of all channels are whole. */
  lemma ConfigsKept(sizes: Sizes, g: Fields, f: Fields, ranges: seq<(real, real)>)
    requires WellFormed(sizes, f) && g.dims == f.dims && f.dataType == INT4_NOZERO && MadeFrom(f, ranges)
    ensures Imported(sizes, g, Exported(sizes, f)).Some?
    ensures Imported(sizes, g, Exported(sizes, f)).value.perChannelsConfigs == f.perChannelsConfigs <==>
        AllWhole(ranges)
  {
    RoundTrip(sizes, g, f);
    SettledSame(f, ranges);
  }

  /** Data that is written and read back in place is exactly what it was, for all types but the one without zero points;
      for that one if and only if the zero points of all channels are whole. */
  lemma TripUnchanged(sizes: Sizes, f: Fields, ranges: seq<(real, real)>)
    requires WellFormed(sizes, f) && (f.dataType == INT4_NOZERO ==> MadeFrom(f, ranges))
    ensures Imported(sizes, f, Exported(sizes, f)) == Some(f) <==> f.dataType != INT4_NOZERO || AllWhole(ranges)
  {
    RoundTrip(sizes, f, f);
    if f.dataType in {INT8, INT4, INT4_NOZERO} {
      SameNumbers(f, if f.dataType == INT4_NOZERO then 4 else if f.dataType == INT4 then 4 else 8,
          if f.dataType == INT4_NOZERO then 1 else 0);
    }
    if f.dataType == INT4_NOZERO {
      SettledSame(f, ranges);
    }
    hide MadeByQuantizer, Settle, Settled, Exported, Imported, AllWhole, MadeFrom, ConfigsFit;
  }

  /** The lists of numbers say again what the configs say. */
  lemma SameNumbers(f: Fields, bit: nat, kind: int)
    requires ConfigsFit(f, bit, kind)
    ensures WithConfigs(f, f.perChannelAxis, f.perChannelsConfigs) == f
  {
    hide MadeByQuantizer;
    var h := WithConfigs(f, f.perChannelAxis, f.perChannelsConfigs);
    assert h.mins == f.mins && h.scales == f.scales && h.zeros == f.zeros;
  }
}
