/** Writing a quantised weight to a stream and reading it back, field by field. */
module FastllmStreams {
  import opened Wrappers
  import opened Arithmetic
  import opened GroupQuantization
  import opened FastllmFormat

  class ByteWriter {
    var out: seq<Word>

    constructor ()
      ensures out == []
    {
      out := [];
    }

    method WriteInt(v: int)
      modifies this
      ensures out == old(out) + [I(v)]
    {
      out := out + [I(v)];
    }

    method WriteFloat(v: real)
      modifies this
      ensures out == old(out) + [F(v)]
    {
      out := out + [F(v)];
    }

    method WriteFloats(numbers: seq<real>)
      modifies this
      ensures out == old(out) + Floats(numbers)
    {
      out := out + Floats(numbers);
    }

    method WriteBytes(buffer: seq<nat>)
      modifies this
      ensures out == old(out) + Bytes(buffer)
    {
      out := out + Bytes(buffer);
    }
  }

  /** A reader goes through a stream; reading something else than what is there fails. */
  class ByteReader {
    const words: seq<Word>
    var cur: nat

    constructor (words: seq<Word>)
      ensures this.words == words && cur == 0
    {
      this.words, cur := words, 0;
    }

    method ReadInt() returns (v: Option<int>)
      modifies this
      ensures v == if Ints(words, old(cur), 1) then Some(words[old(cur)].n) else None
      ensures cur == old(cur) + 1
    {
      v := if cur < |words| && words[cur].I? then Some(words[cur].n) else None;
      cur := cur + 1;
    }

    method ReadFloat() returns (v: Option<real>)
      modifies this
      ensures v == if old(cur) < |words| && words[old(cur)].F? then Some(words[old(cur)].x) else None
      ensures cur == old(cur) + 1
    {
      v := if cur < |words| && words[cur].F? then Some(words[cur].x) else None;
      cur := cur + 1;
    }

    method ReadFloats(n: int) returns (v: Option<seq<real>>)
      modifies this
      ensures v == TakeFloats(words, old(cur), n) && (v.Some? ==> cur == old(cur) + n)
    {
      v := TakeFloats(words, cur, n);
      if v.Some? {
        cur := cur + n;
      }
    }

    method ReadBytes(n: nat) returns (v: Option<seq<nat>>)
      modifies this
      ensures v == TakeBytes(words, old(cur), n)
    {
      v := TakeBytes(words, cur, n);
      cur := cur + n;
    }
  }

  lemma FloatsAdd(a: seq<real>, x: real, y: real)
    ensures Floats(a + [x, y]) == Floats(a) + [F(x)] + [F(y)]
  {
  }

  /** The numbers of the first i configs. */
  lemma ConfigStep(t: DataType, configs: seq<LowBitConfig>, i: nat)
    requires i < |configs|
    ensures ConfigNumbers(t, configs[..i + 1])
         == ConfigNumbers(t, configs[..i])
             + [configs[i].min, if t == INT4_NOZERO then configs[i].scale else configs[i].max]
  {
    var c := configs[..i + 1];
    var mins := seq(|c|, i requires 0 <= i < |c| => c[i].min);
    var others := seq(|c|, i requires 0 <= i < |c| => if t == INT4_NOZERO then c[i].scale else c[i].max);
    assert mins[..i] == seq(|configs[..i]|, k requires 0 <= k < |configs[..i]| => configs[..i][k].min);
    assert others[..i] == seq(|configs[..i]|, k requires 0 <= k < |configs[..i]| =>
                              if t == INT4_NOZERO then configs[..i][k].scale else configs[..i][k].max);
  }

  lemma ZipStep(a: seq<real>, b: seq<real>, i: nat)
    requires |a| == |b| && i < |a|
    ensures Zip(a[..i + 1], b[..i + 1]) == Zip(a[..i], b[..i]) + [a[i], b[i]]
  {
    assert a[..i + 1][..i] == a[..i] && b[..i + 1][..i] == b[..i];
  }

  class Data {
    var fields: Fields

    constructor (fields: Fields)
      ensures this.fields == fields
    {
      this.fields := fields;
    }

    method WriteConfigs(writer: ByteWriter, k: nat)
      requires |fields.perChannelsConfigs| == k
      modifies writer
      ensures writer.out == old(writer.out) + Floats(ConfigNumbers(fields.dataType, fields.perChannelsConfigs))
    {
      var configs := fields.perChannelsConfigs;
      var i := 0;
      hide ConfigNumbers;
      NoNumbers(fields.dataType);
      assert configs[..0] == [];
      while i < k
        invariant 0 <= i <= k && writer.out == old(writer.out) + Floats(ConfigNumbers(fields.dataType, configs[..i]))
      {
        ConfigStep(fields.dataType, configs, i);
        FloatsAdd(ConfigNumbers(fields.dataType, configs[..i]), configs[i].min,
                  if fields.dataType == INT4_NOZERO then configs[i].scale else configs[i].max);
        writer.WriteFloat(configs[i].min);
        if fields.dataType == INT4_NOZERO {
          writer.WriteFloat(configs[i].scale);
        } else {
          writer.WriteFloat(configs[i].max);
        }
        i := i + 1;
      }
      assert configs[..i] == configs;
    }

    method WriteGroups(writer: ByteWriter, n: nat)
      requires |fields.mins| == n && |fields.scales| == n
      modifies writer
      ensures writer.out == old(writer.out) + Floats(Zip(fields.mins, fields.scales))
    {
      var mins, scales := fields.mins, fields.scales;
      var i := 0;
      while i < n
        invariant 0 <= i <= n && writer.out == old(writer.out) + Floats(Zip(mins[..i], scales[..i]))
      {
        ZipStep(mins, scales, i);
        FloatsAdd(Zip(mins[..i], scales[..i]), mins[i], scales[i]);
        writer.WriteFloat(mins[i]);
        writer.WriteFloat(scales[i]);
        i := i + 1;
      }
      assert mins[..i] == mins && scales[..i] == scales;
    }

    /** Writes version, type, metadata and payload. */
    method ExportFastllmFormat(sizes: Sizes) returns (writer: ByteWriter)
      requires WellFormed(sizes, fields)
      ensures fresh(writer) && writer.out == Exported(sizes, fields) && Size(writer.out) == FormatBytes(sizes, fields)
    {
      hide WellFormed, Size, FormatBytes, Zip, ConfigNumbers;
      BytesMatch(sizes, fields);
      WellFormedCounts(sizes, fields);
      writer := new ByteWriter();
      var compactNVFP4 := CompactNVFP4(fields);
      writer.WriteInt(if compactNVFP4 then 2 else 1);
      writer.WriteInt(Code(fields.dataType));
      ghost var head := writer.out;
      WriteMetadata(sizes, writer);
      assert head + Metadata(sizes, fields)
          == [I(if compactNVFP4 then 2 else 1), I(Code(fields.dataType))] + Metadata(sizes, fields);
      writer.WriteBytes(fields.cpuData);
    }

    method WriteMetadata(sizes: Sizes, writer: ByteWriter)
      requires WellFormed(sizes, fields) && (|fields.mins| == |fields.scales| || fields.dataType != INT4_GROUP)
      modifies writer
      ensures writer.out == old(writer.out) + Metadata(sizes, fields)
    {
      hide WellFormed, Zip, ConfigNumbers;
      WellFormedCounts(sizes, fields);
      match fields.dataType {
        case FP8_E4M3 => WriteBlocks(writer);
        case NVFP4 =>
          if CompactNVFP4(fields) {
            writer.WriteInt(fields.blockK);
            writer.WriteInt(fields.blockM);
            writer.WriteInt(sizes.nvfp4Scales(fields.dims[0], fields.dims[1], fields.blockK, fields.blockM));
          } else {
            WriteBlocks(writer);
          }
        case INT8 | INT4 | INT4_NOZERO =>
          writer.WriteInt(fields.perChannelAxis);
          WriteConfigs(writer, Channels(fields.dims, fields.perChannelAxis).value);
        case INT4_GROUP =>
          writer.WriteInt(fields.perChannelAxis);
          writer.WriteInt(fields.group);
          writer.WriteInt(fields.groupCnt);
          WriteGroups(writer, Channels(fields.dims, fields.perChannelAxis).value * fields.group);
        case DATA_GGUF_FORMAT =>
          writer.WriteInt(fields.ggmlType);
        case _ =>
      }
    }

    method WriteBlocks(writer: ByteWriter)
      modifies writer
      ensures writer.out == old(writer.out)
          + ([I(fields.blockK), I(fields.blockM), I(|fields.scales|)] + Floats(fields.scales))
    {
      writer.WriteInt(fields.blockK);
      writer.WriteInt(fields.blockM);
      writer.WriteInt(|fields.scales|);
      writer.WriteFloats(fields.scales);
    }

    /** Reads the configs of the channels; each is made again from its two numbers. */
    method ReadConfigs(reader: ByteReader, k: nat) returns (configs: Option<seq<LowBitConfig>>)
      requires reader.cur <= |reader.words|
      modifies reader
      ensures var numbers := TakeFloats(reader.words, old(reader.cur), 2 * k);
        configs == if numbers.Some? then Some(RebuiltAll(fields.dataType, numbers.value, k)) else None
      ensures configs.Some? ==> reader.cur == old(reader.cur) + 2 * k
    {
      hide Rebuilt;
      var made: seq<LowBitConfig> := [];
      var i := 0;
      ghost var at := reader.cur;
      while i < k
        invariant 0 <= i <= k && reader.cur == at + 2 * i && TakeFloats(reader.words, at, 2 * i).Some?
        invariant made == RebuiltAll(fields.dataType, TakeFloats(reader.words, at, 2 * i).value, i)
      {
        var x := reader.ReadFloat();
        var y := reader.ReadFloat();
        if x.None? || y.None? {
          return None;
        }
        TakeMore(reader.words, at, i, x.value, y.value);
        made := made + [Rebuilt(fields.dataType, x.value, y.value)];
        i := i + 1;
      }
      configs := Some(made);
    }

    /** Reads minimum and step of each group. */
    method ReadGroups(reader: ByteReader, k: nat) returns (ok: bool, mins: seq<real>, scales: seq<real>)
      requires reader.cur <= |reader.words|
      modifies reader
      ensures var numbers := TakeFloats(reader.words, old(reader.cur), 2 * k);
        ok == numbers.Some? && (ok ==> mins == Evens(numbers.value, k) && scales == Odds(numbers.value, k))
      ensures ok ==> reader.cur == old(reader.cur) + 2 * k
    {
      mins, scales := [], [];
      var i := 0;
      ghost var at := reader.cur;
      while i < k
        invariant 0 <= i <= k && reader.cur == at + 2 * i && TakeFloats(reader.words, at, 2 * i).Some?
        invariant mins == Evens(TakeFloats(reader.words, at, 2 * i).value, i)
            && scales == Odds(TakeFloats(reader.words, at, 2 * i).value, i)
      {
        var minValue := reader.ReadFloat();
        var scale := reader.ReadFloat();
        if minValue.None? || scale.None? {
          return false, mins, scales;
        }
        TakeMore(reader.words, at, i, minValue.value, scale.value);
        mins := mins + [minValue.value];
        scales := scales + [scale.value];
        i := i + 1;
      }
      ok := true;
    }

    /** Reads the payload, whose size follows from what was read before. */
    method ReadPayload(sizes: Sizes, reader: ByteReader) returns (ok: bool)
      modifies this, reader
      ensures var read := WithPayload(sizes, old(fields), reader.words, old(reader.cur));
        ok == read.Some? && (ok ==> fields == read.value)
    {
      var bytes := reader.ReadBytes(sizes.bytes(ShapeOf(fields)));
      ok := bytes.Some?;
      if ok {
        fields := fields.(cpuData := bytes.value);
      }
    }

    /** Reads a weight from a stream into this object, whose dimensions are known. */
    method CreateFromFastllmFormat(sizes: Sizes, datas: seq<Word>) returns (ok: bool)
      modifies this
      ensures var read := Imported(sizes, old(fields), datas); ok == read.Some? && (ok ==> fields == read.value)
    {
      var reader := new ByteReader(datas);
      var version := reader.ReadInt();
      var code := reader.ReadInt();
      if version.None? || code.None? || TypeOf(code.value).None? {
        return false;
      }
      fields := fields.(dataType := TypeOf(code.value).value);
      if version.value == 1 {
        match fields.dataType {
          case FP8_E4M3 | NVFP4 => ok := ReadBlocks(sizes, reader);
          case INT8 | INT4 | INT4_NOZERO => ok := ReadChannels(sizes, reader);
          case INT4_GROUP => ok := ReadGrouped(sizes, reader);
          case INT4_GROUP32 =>
            if |fields.dims| != 2 || fields.dims[1] % 32 != 0 {
              return false;
            }
            fields := fields.(perChannelAxis := 0, groupCnt := 32, group := fields.dims[1] / 32);
            ok := ReadPayload(sizes, reader);
          case DATA_GGUF_FORMAT =>
            var ggmlType := reader.ReadInt();
            if ggmlType.None? {
              return false;
            }
            fields := fields.(ggmlType := ggmlType.value);
            ok := ReadPayload(sizes, reader);
          case INT32 | INT32PARAM => ok := ReadPayload(sizes, reader);
        }
      } else if version.value == 2 {
        ok := ReadCompact(sizes, reader);
      } else {
        ok := false;
      }
    }

    method ReadBlocks(sizes: Sizes, reader: ByteReader) returns (ok: bool)
      requires reader.cur == 2
      modifies this, reader
      ensures var read := ImportedBlocks(sizes, old(fields), reader.words); ok == read.Some? && (ok ==>
          fields == read.value)
    {
      var blockK := reader.ReadInt();
      var blockM := reader.ReadInt();
      var count := reader.ReadInt();
      if blockK.None? || blockM.None? || count.None? {
        return false;
      }
      var scales := reader.ReadFloats(count.value);
      if scales.None? {
        return false;
      }
      fields := fields.(blockK := blockK.value, blockM := blockM.value, scales := scales.value);
      ok := ReadPayload(sizes, reader);
    }

    method ReadChannels(sizes: Sizes, reader: ByteReader) returns (ok: bool)
      requires reader.cur == 2
      modifies this, reader
      ensures var read := ImportedChannels(sizes, old(fields), reader.words); ok == read.Some? && (ok ==>
          fields == read.value)
    {
      hide WithPayload, RebuiltAll;
      var axis := reader.ReadInt();
      if axis.None? || Channels(fields.dims, axis.value).None? {
        return false;
      }
      var k := Channels(fields.dims, axis.value).value;
      var configs := ReadConfigs(reader, k);
      if configs.None? {
        return false;
      }
      fields := WithConfigs(fields, axis.value, configs.value);
      ok := ReadPayload(sizes, reader);
    }

    method ReadGrouped(sizes: Sizes, reader: ByteReader) returns (ok: bool)
      requires reader.cur == 2
      modifies this, reader
      ensures var read := ImportedGroups(sizes, old(fields), reader.words); ok == read.Some? && (ok ==>
          fields == read.value)
    {
      hide WithPayload;
      var axis := reader.ReadInt();
      var group := reader.ReadInt();
      var groupCnt := reader.ReadInt();
      if axis.None? || group.None? || groupCnt.None? || Channels(fields.dims, axis.value).None? || group.value < 0 {
        return false;
      }
      Product(Channels(fields.dims, axis.value).value, group.value);
      var read, mins, scales := ReadGroups(reader, Channels(fields.dims, axis.value).value * group.value);
      if !read {
        return false;
      }
      fields := fields.(perChannelAxis := axis.value, group := group.value, groupCnt := groupCnt.value, mins := mins,
          scales := scales);
      ok := ReadPayload(sizes, reader);
    }

    method ReadCompact(sizes: Sizes, reader: ByteReader) returns (ok: bool)
      requires reader.cur == 2 && Ints(reader.words, 0, 2) && reader.words[0].n == 2
          && TypeOf(reader.words[1].n) == Some(fields.dataType)
      modifies this, reader
      ensures var read := Imported(sizes, old(fields), reader.words); ok == read.Some? && (ok ==> fields == read.value)
    {
      if fields.dataType != NVFP4 {
        return false;
      }
      var blockK := reader.ReadInt();
      var blockM := reader.ReadInt();
      var scaleLen := reader.ReadInt();
      if blockK.None? || blockM.None? || scaleLen.None? || blockK.value <= 0 || blockM.value <= 0 || |fields.dims| != 2
         || scaleLen.value != sizes.nvfp4Scales(fields.dims[0], fields.dims[1], blockK.value, blockM.value) {
        return false;
      }
      fields := fields.(blockK := blockK.value, blockM := blockM.value, scales := []);
      ok := ReadPayload(sizes, reader);
    }
  }

  /** Two more numbers behind those that were read. */
  lemma TakeMore(words: seq<Word>, at: nat, i: nat, x: real, y: real)
    requires TakeFloats(words, at, 2 * i).Some? && at + 2 * i + 1 < |words|
    requires words[at + 2 * i] == F(x) && words[at + 2 * i + 1] == F(y)
    ensures TakeFloats(words, at, 2 * (i + 1)) == Some(TakeFloats(words, at, 2 * i).value + [x, y])
  {
    assert TakeFloats(words, at, 2 * (i + 1)).value == TakeFloats(words, at, 2 * i).value + [x, y];
  }

  lemma NoNumbers(t: DataType)
    ensures ConfigNumbers(t, []) == []
  {
  }

  lemma WellFormedCounts(sizes: Sizes, f: Fields)
    requires WellFormed(sizes, f)
    ensures |f.mins| == |f.scales| || f.dataType != INT4_GROUP
    ensures f.dataType in {INT8, INT4, INT4_NOZERO} ==>
              Channels(f.dims, f.perChannelAxis) == Some(|f.perChannelsConfigs|)
    ensures f.dataType == INT4_GROUP ==>
              && Channels(f.dims, f.perChannelAxis).Some?
                  && |f.scales| == |f.mins| == Channels(f.dims, f.perChannelAxis).value * f.group
  {
  }
}
