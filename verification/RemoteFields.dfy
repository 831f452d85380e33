/**
 * What the field numbers of each message mean, written out (service/prometheus/remote/remote.pb.go): the bytes of a tag
 * and what reading the field behind it does to the message, which numbers are passed over, and which tags are refused.
 */
module RemoteFields {
  import opened Prelude
  import opened Binary
  import opened Wire
  import opened Remote

  // ---------- one field at the front of a buffer ----------

  /** Reading goes on with what storing the field gives, or stops with its error. */
  lemma FieldFirst<M>(d: Desc<M>, m: M, f: Field, rest: Bytes)
    requires Declared(d, f) && Sized(f.payload)
    ensures d.put(m, f.num, f.payload).Ok? ==>
      Decode(d, m, EncField(f) + rest) == Decode(d, d.put(m, f.num, f.payload).value, rest)
    ensures d.put(m, f.num, f.payload).Err? ==>
      Decode(d, m, EncField(f) + rest) == Err(d.put(m, f.num, f.payload).error)
  {
    hide EncPayload, EncVarint, Varint, Skip, ReadPayload;
    var tag, body := 8 * f.num + WireType(f.payload), EncPayload(f.payload);
    TagFirst(tag, body, rest);
    assert (EncField(f) + rest)[|EncVarint(tag)|..] == body + rest;
    assert tag / 8 == f.num && Int32(f.num) == f.num;
    ReadPayloadBack(f.payload, rest);
    assert (EncField(f) + rest)[|EncField(f)|..] == rest;
  }

  lemma TagByte(tag: Byte)
    requires tag < 128
    ensures EncVarint(tag) == [tag]
  {
  }

  lemma NumFirst(num: nat, v: Uint64, rest: Bytes)
    requires 0 < num < 16
    ensures [8 * num] + EncVarint(v) + rest == EncField(Field(num, Num(v))) + rest
  {
    TagByte(8 * num);
    hide EncVarint;
  }

  lemma FixedFirst(num: nat, v: Uint64, rest: Bytes)
    requires 0 < num < 15
    ensures [8 * num + 1] + PutUint64(v) + rest == EncField(Field(num, Fixed(v))) + rest
  {
    TagByte(8 * num + 1);
    hide EncVarint;
  }

  lemma BlockFirst(tag: Byte, num: nat, b: Bytes)
    requires tag == 8 * num + 2 && tag < 128
    ensures EncField(Field(num, Block(b))) == [tag] + (EncVarint(|b|) + b)
  {
    TagByte(tag);
    hide EncVarint, PutUint64;
    var f := Field(num, Block(b));
    var t := 8 * f.num + WireType(f.payload);
    assert t == tag;
    assert EncPayload(f.payload) == EncVarint(|b|) + b;
    hide EncPayload, WireType;
    assert EncField(f) == EncVarint(t) + EncPayload(f.payload);
  }

  // ---------- errors ----------

  /** The end of a group and numbers that are not positive are refused in every message. */
  lemma TagErrors<M>(d: Desc<M>, m: M, tag: Uint64, rest: Bytes)
    ensures tag % 8 == 4 ==> Decode(d, m, EncVarint(tag) + rest) == Err(EndGroup)
    ensures tag % 8 != 4 && Int32(tag / 8) <= 0 ==> Decode(d, m, EncVarint(tag) + rest) == Err(IllegalTag)
  {
    hide Varint, EncVarint, Int32;
    VarintRoundTrip(tag, rest);
  }

  /** A declared number with another wire type is. */
  lemma WrongWire<M>(d: Desc<M>, m: M, tag: Uint64, rest: Bytes)
    requires Int32(tag / 8) > 0 && Int32(tag / 8) in d.wires && tag % 8 != 4 && tag % 8 != d.wires[Int32(tag / 8)]
    ensures Decode(d, m, EncVarint(tag) + rest) == Err(WrongWireType)
  {
    hide Varint, EncVarint, Int32;
    VarintRoundTrip(tag, rest);
  }

  /** A length that is no int, and one that leads behind the end; eight bytes that are not all there. */
  lemma PayloadErrors(length: Uint64, rest: Bytes)
    ensures length >= 0x8000_0000_0000_0000 ==> ReadPayload(2, EncVarint(length) + rest) == Err(InvalidLength)
    ensures |rest| < length < 0x8000_0000_0000_0000 ==> ReadPayload(2, EncVarint(length) + rest) == Err(Truncated)
    ensures |rest| < 8 ==> ReadPayload(1, rest) == Err(Truncated)
  {
    hide Varint, EncVarint;
    VarintRoundTrip(length, rest);
  }

  /** What skipping refuses behind a tag: wire types 6 and 7, an end without its group, and what is not all there. */
  lemma SkipErrors(tag: Uint64, rest: Bytes, depth: nat)
    ensures tag % 8 in {6, 7} ==> Skip(EncVarint(tag) + rest, depth) == Err(IllegalWireType)
    ensures tag % 8 == 4 && depth == 0 ==> Skip(EncVarint(tag) + rest, depth) == Err(UnexpectedEndGroup)
    ensures tag % 8 == 1 && |rest| < 8 ==> Skip(EncVarint(tag) + rest, depth) == Err(Truncated)
    ensures tag % 8 == 5 && |rest| < 4 ==> Skip(EncVarint(tag) + rest, depth) == Err(Truncated)
    ensures tag % 8 in {0, 2} && Varint(rest, 0).Err? ==>
      Skip(EncVarint(tag) + rest, depth) == Err(Varint(rest, 0).error)
  {
    VarintRoundTrip(tag, rest);
    hide Varint, EncVarint;
    assert (EncVarint(tag) + rest)[|EncVarint(tag)|..] == rest;
  }

  lemma {:induction false} VarintErrorsAt(s: Bytes, k: nat)
    requires k <= 10
    ensures Varint(s, k) == Err(Overflow) <==> 10 - k <= |s| && forall i | 0 <= i < 10 - k :: s[i] >= 128
    ensures Varint(s, k) == Err(Truncated) <==> |s| < 10 - k && forall i | 0 <= i < |s| :: s[i] >= 128
    ensures Varint(s, k).Err? ==> Varint(s, k).error in {Overflow, Truncated}
    decreases 10 - k
  {
    hide Shl;
    if k < 10 && s != [] && s[0] >= 128 {
      VarintErrorsAt(s[1..], k + 1);
      assert forall i | 0 < i < |s| :: s[i] == s[1..][i - 1];
    }
  }

  /** A varint is refused exactly when ten bytes have the continuation bit, or all that there are. */
  lemma VarintErrors(s: Bytes)
    ensures Varint(s, 0) == Err(Overflow) <==> 10 <= |s| && forall i | 0 <= i < 10 :: s[i] >= 128
    ensures Varint(s, 0) == Err(Truncated) <==> |s| < 10 && forall i | 0 <= i < |s| :: s[i] >= 128
    ensures Varint(s, 0).Err? ==> Varint(s, 0).error in {Overflow, Truncated}
  {
    VarintErrorsAt(s, 0);
  }

  function Four(a: int, b: int, c: int, d: int): int { a + 0x100 * b + 0x1_0000 * c + 0x100_0000 * d }

  /** The first of the eight bytes is the lowest. */
  lemma LittleEndian(b: Bytes)
    requires |b| == 8
    ensures GetUint64(b)
      == Four(b[0], b[1], b[2], b[3]) + 0x1_0000_0000 * Four(b[4], b[5], b[6], b[7])
  {
    LowFour(b);
    LowFour(b[4..]);
    assert b[4..][4..] == [];
  }

  lemma LowFour(b: Bytes)
    requires |b| >= 4
    ensures GetLE(b) == Four(b[0], b[1], b[2], b[3]) + 0x1_0000_0000 * GetLE(b[4..])
  {
    assert GetLE(b) == b[0] as int + 0x100 * GetLE(b[1..]);
    assert GetLE(b[1..]) == b[1] as int + 0x100 * GetLE(b[2..]) by {
      assert b[1..][1..] == b[2..];
    }
    assert GetLE(b[2..]) == b[2] as int + 0x100 * GetLE(b[3..]) by {
      assert b[2..][1..] == b[3..];
    }
    assert GetLE(b[3..]) == b[3] as int + 0x100 * GetLE(b[4..]) by {
      assert b[3..][1..] == b[4..];
    }
  }

  // ---------- Sample ----------

  lemma SampleReads(m: Sample, v: Uint64, rest: Bytes)
    ensures Decode(SampleDesc(), m, [0x09] + PutUint64(v) + rest) == Decode(SampleDesc(), m.(value := v), rest)
    ensures Decode(SampleDesc(), m, [0x10] + EncVarint(v) + rest)
      == Decode(SampleDesc(), m.(timestampMs := ToInt64(v)), rest)
  {
    hide Decode, EncField, EncVarint, PutUint64;
    FixedFirst(1, v, rest);
    FieldFirst(SampleDesc(), m, Field(1, Fixed(v)), rest);
    NumFirst(2, v, rest);
    FieldFirst(SampleDesc(), m, Field(2, Num(v)), rest);
  }

  lemma SampleSkips(m: Sample, a: Bytes, u: Unknown, b: Bytes)
    requires Decode(SampleDesc(), m, a).Ok? && Formed(u) && Int32(u.num) > 0 && Int32(u.num) !in {1, 2}
    ensures Decode(SampleDesc(), m, a + EncUnknown(u) + b) == Decode(SampleDesc(), m, a + b)
  {
    UnknownIgnored(SampleDesc(), m, a, u, b);
  }

  lemma SampleRefuses(m: Sample, tag: Uint64, rest: Bytes)
    requires tag % 8 != 4
    requires (Int32(tag / 8) == 1 && tag % 8 != 1) || (Int32(tag / 8) == 2 && tag % 8 != 0)
    ensures Decode(SampleDesc(), m, EncVarint(tag) + rest) == Err(WrongWireType)
  {
    WrongWire(SampleDesc(), m, tag, rest);
  }

  // ---------- LabelPair ----------

  lemma LabelPairReads(m: LabelPair, b: Bytes, rest: Bytes)
    requires |b| < 0x8000_0000_0000_0000
    ensures Decode(LabelPairDesc(), m, [0x0A] + (EncVarint(|b|) + b) + rest)
      == Decode(LabelPairDesc(), m.(name := b), rest)
    ensures Decode(LabelPairDesc(), m, [0x12] + (EncVarint(|b|) + b) + rest)
      == Decode(LabelPairDesc(), m.(value := b), rest)
  {
    hide Decode, EncField, EncVarint, PutUint64;
    BlockFirst(0x0A, 1, b);
    FieldFirst(LabelPairDesc(), m, Field(1, Block(b)), rest);
    BlockFirst(0x12, 2, b);
    FieldFirst(LabelPairDesc(), m, Field(2, Block(b)), rest);
  }

  lemma LabelPairSkips(m: LabelPair, a: Bytes, u: Unknown, b: Bytes)
    requires Decode(LabelPairDesc(), m, a).Ok? && Formed(u) && Int32(u.num) > 0 && Int32(u.num) !in {1, 2}
    ensures Decode(LabelPairDesc(), m, a + EncUnknown(u) + b) == Decode(LabelPairDesc(), m, a + b)
  {
    UnknownIgnored(LabelPairDesc(), m, a, u, b);
  }

  lemma LabelPairRefuses(m: LabelPair, tag: Uint64, rest: Bytes)
    requires tag % 8 != 4
    requires (Int32(tag / 8) == 1 && tag % 8 != 2) || (Int32(tag / 8) == 2 && tag % 8 != 2)
    ensures Decode(LabelPairDesc(), m, EncVarint(tag) + rest) == Err(WrongWireType)
  {
    WrongWire(LabelPairDesc(), m, tag, rest);
  }

  // ---------- TimeSeries ----------

  lemma TimeSeriesReadsLabels(m: TimeSeries, b: Bytes, rest: Bytes)
    requires |b| < 0x8000_0000_0000_0000
    ensures
      var x := Decode(LabelPairDesc(), LabelPair([], []), b);
      Decode(TimeSeriesDesc(), m, [0x0A] + (EncVarint(|b|) + b) + rest)
      == if x.Ok? then Decode(TimeSeriesDesc(), m.(labels := m.labels + [x.value]), rest) else Err(x.error)
  {
    hide Decode, EncField, EncVarint, LabelPairDesc;
    var x := Decode(LabelPairDesc(), LabelPair([], []), b);
    assert Appended(LabelPairDesc(), LabelPair([], []), m.labels, b)
      == if x.Ok? then Ok(m.labels + [x.value]) else Err(x.error);
    BlockFirst(0x0A, 1, b);
    FieldFirst(TimeSeriesDesc(), m, Field(1, Block(b)), rest);
  }

  lemma TimeSeriesReadsSamples(m: TimeSeries, b: Bytes, rest: Bytes)
    requires |b| < 0x8000_0000_0000_0000
    ensures
      var x := Decode(SampleDesc(), Sample(0, 0), b);
      Decode(TimeSeriesDesc(), m, [0x12] + (EncVarint(|b|) + b) + rest)
      == if x.Ok? then Decode(TimeSeriesDesc(), m.(samples := m.samples + [x.value]), rest) else Err(x.error)
  {
    hide Decode, EncField, EncVarint, SampleDesc;
    var x := Decode(SampleDesc(), Sample(0, 0), b);
    assert Appended(SampleDesc(), Sample(0, 0), m.samples, b)
      == if x.Ok? then Ok(m.samples + [x.value]) else Err(x.error);
    BlockFirst(0x12, 2, b);
    FieldFirst(TimeSeriesDesc(), m, Field(2, Block(b)), rest);
  }

  lemma TimeSeriesSkips(m: TimeSeries, a: Bytes, u: Unknown, b: Bytes)
    requires Decode(TimeSeriesDesc(), m, a).Ok? && Formed(u) && Int32(u.num) > 0 && Int32(u.num) !in {1, 2}
    ensures Decode(TimeSeriesDesc(), m, a + EncUnknown(u) + b) == Decode(TimeSeriesDesc(), m, a + b)
  {
    UnknownIgnored(TimeSeriesDesc(), m, a, u, b);
  }

  lemma TimeSeriesRefuses(m: TimeSeries, tag: Uint64, rest: Bytes)
    requires tag % 8 != 4
    requires (Int32(tag / 8) == 1 && tag % 8 != 2) || (Int32(tag / 8) == 2 && tag % 8 != 2)
    ensures Decode(TimeSeriesDesc(), m, EncVarint(tag) + rest) == Err(WrongWireType)
  {
    WrongWire(TimeSeriesDesc(), m, tag, rest);
  }

  // ---------- WriteRequest ----------

  lemma WriteRequestReads(m: WriteRequest, b: Bytes, rest: Bytes)
    requires |b| < 0x8000_0000_0000_0000
    ensures
      var x := Decode(TimeSeriesDesc(), TimeSeries([], []), b);
      Decode(WriteRequestDesc(), m, [0x0A] + (EncVarint(|b|) + b) + rest)
      == if x.Ok? then Decode(WriteRequestDesc(), m.(timeseries := m.timeseries + [x.value]), rest) else Err(x.error)
  {
    hide Decode, EncField, EncVarint, TimeSeriesDesc;
    var x := Decode(TimeSeriesDesc(), TimeSeries([], []), b);
    assert Appended(TimeSeriesDesc(), TimeSeries([], []), m.timeseries, b)
      == if x.Ok? then Ok(m.timeseries + [x.value]) else Err(x.error);
    BlockFirst(0x0A, 1, b);
    FieldFirst(WriteRequestDesc(), m, Field(1, Block(b)), rest);
  }

  lemma WriteRequestSkips(m: WriteRequest, a: Bytes, u: Unknown, b: Bytes)
    requires Decode(WriteRequestDesc(), m, a).Ok? && Formed(u) && Int32(u.num) > 0 && Int32(u.num) != 1
    ensures Decode(WriteRequestDesc(), m, a + EncUnknown(u) + b) == Decode(WriteRequestDesc(), m, a + b)
  {
    UnknownIgnored(WriteRequestDesc(), m, a, u, b);
  }

  lemma WriteRequestRefuses(m: WriteRequest, tag: Uint64, rest: Bytes)
    requires tag % 8 != 4
    requires Int32(tag / 8) == 1 && tag % 8 != 2
    ensures Decode(WriteRequestDesc(), m, EncVarint(tag) + rest) == Err(WrongWireType)
  {
    WrongWire(WriteRequestDesc(), m, tag, rest);
  }

  // ---------- LabelMatcher ----------

  lemma LabelMatcherReads(m: LabelMatcher, v: Uint64, b: Bytes, rest: Bytes)
    requires |b| < 0x8000_0000_0000_0000
    ensures Decode(LabelMatcherDesc(), m, [0x08] + EncVarint(v) + rest)
      == Decode(LabelMatcherDesc(), m.(kind := Int32(v)), rest)
    ensures Decode(LabelMatcherDesc(), m, [0x12] + (EncVarint(|b|) + b) + rest)
      == Decode(LabelMatcherDesc(), m.(name := b), rest)
    ensures Decode(LabelMatcherDesc(), m, [0x1A] + (EncVarint(|b|) + b) + rest)
      == Decode(LabelMatcherDesc(), m.(value := b), rest)
  {
    hide Decode, EncField, EncVarint, PutUint64;
    NumFirst(1, v, rest);
    FieldFirst(LabelMatcherDesc(), m, Field(1, Num(v)), rest);
    BlockFirst(0x12, 2, b);
    FieldFirst(LabelMatcherDesc(), m, Field(2, Block(b)), rest);
    BlockFirst(0x1A, 3, b);
    FieldFirst(LabelMatcherDesc(), m, Field(3, Block(b)), rest);
  }

  lemma LabelMatcherSkips(m: LabelMatcher, a: Bytes, u: Unknown, b: Bytes)
    requires Decode(LabelMatcherDesc(), m, a).Ok? && Formed(u) && Int32(u.num) > 0 && Int32(u.num) !in {1, 2, 3}
    ensures Decode(LabelMatcherDesc(), m, a + EncUnknown(u) + b) == Decode(LabelMatcherDesc(), m, a + b)
  {
    UnknownIgnored(LabelMatcherDesc(), m, a, u, b);
  }

  lemma LabelMatcherRefuses(m: LabelMatcher, tag: Uint64, rest: Bytes)
    requires tag % 8 != 4
    requires (Int32(tag / 8) == 1 && tag % 8 != 0)
      || (Int32(tag / 8) == 2 && tag % 8 != 2) || (Int32(tag / 8) == 3 && tag % 8 != 2)
    ensures Decode(LabelMatcherDesc(), m, EncVarint(tag) + rest) == Err(WrongWireType)
  {
    WrongWire(LabelMatcherDesc(), m, tag, rest);
  }

  // ---------- Query ----------

  lemma QueryReads(m: Query, v: Uint64, rest: Bytes)
    ensures Decode(QueryDesc(), m, [0x08] + EncVarint(v) + rest)
      == Decode(QueryDesc(), m.(startTimestampMs := ToInt64(v)), rest)
    ensures Decode(QueryDesc(), m, [0x10] + EncVarint(v) + rest)
      == Decode(QueryDesc(), m.(endTimestampMs := ToInt64(v)), rest)
  {
    hide Decode, EncField, EncVarint, PutUint64;
    NumFirst(1, v, rest);
    FieldFirst(QueryDesc(), m, Field(1, Num(v)), rest);
    NumFirst(2, v, rest);
    FieldFirst(QueryDesc(), m, Field(2, Num(v)), rest);
  }

  lemma QueryReadsMatchers(m: Query, b: Bytes, rest: Bytes)
    requires |b| < 0x8000_0000_0000_0000
    ensures
      var x := Decode(LabelMatcherDesc(), LabelMatcher(0, [], []), b);
      Decode(QueryDesc(), m, [0x1A] + (EncVarint(|b|) + b) + rest)
      == if x.Ok? then Decode(QueryDesc(), m.(matchers := m.matchers + [x.value]), rest) else Err(x.error)
  {
    hide Decode, EncField, EncVarint, LabelMatcherDesc;
    var x := Decode(LabelMatcherDesc(), LabelMatcher(0, [], []), b);
    assert Appended(LabelMatcherDesc(), LabelMatcher(0, [], []), m.matchers, b)
      == if x.Ok? then Ok(m.matchers + [x.value]) else Err(x.error);
    BlockFirst(0x1A, 3, b);
    FieldFirst(QueryDesc(), m, Field(3, Block(b)), rest);
  }

  lemma QuerySkips(m: Query, a: Bytes, u: Unknown, b: Bytes)
    requires Decode(QueryDesc(), m, a).Ok? && Formed(u) && Int32(u.num) > 0 && Int32(u.num) !in {1, 2, 3}
    ensures Decode(QueryDesc(), m, a + EncUnknown(u) + b) == Decode(QueryDesc(), m, a + b)
  {
    UnknownIgnored(QueryDesc(), m, a, u, b);
  }

  lemma QueryRefuses(m: Query, tag: Uint64, rest: Bytes)
    requires tag % 8 != 4
    requires (Int32(tag / 8) == 1 && tag % 8 != 0)
      || (Int32(tag / 8) == 2 && tag % 8 != 0) || (Int32(tag / 8) == 3 && tag % 8 != 2)
    ensures Decode(QueryDesc(), m, EncVarint(tag) + rest) == Err(WrongWireType)
  {
    WrongWire(QueryDesc(), m, tag, rest);
  }

  // ---------- ReadRequest ----------

  lemma ReadRequestReads(m: ReadRequest, b: Bytes, rest: Bytes)
    requires |b| < 0x8000_0000_0000_0000
    ensures
      var x := Decode(QueryDesc(), Query(0, 0, []), b);
      Decode(ReadRequestDesc(), m, [0x0A] + (EncVarint(|b|) + b) + rest)
      == if x.Ok? then Decode(ReadRequestDesc(), m.(queries := m.queries + [x.value]), rest) else Err(x.error)
  {
    hide Decode, EncField, EncVarint, QueryDesc;
    var x := Decode(QueryDesc(), Query(0, 0, []), b);
    assert Appended(QueryDesc(), Query(0, 0, []), m.queries, b)
      == if x.Ok? then Ok(m.queries + [x.value]) else Err(x.error);
    BlockFirst(0x0A, 1, b);
    FieldFirst(ReadRequestDesc(), m, Field(1, Block(b)), rest);
  }

  lemma ReadRequestSkips(m: ReadRequest, a: Bytes, u: Unknown, b: Bytes)
    requires Decode(ReadRequestDesc(), m, a).Ok? && Formed(u) && Int32(u.num) > 0 && Int32(u.num) != 1
    ensures Decode(ReadRequestDesc(), m, a + EncUnknown(u) + b) == Decode(ReadRequestDesc(), m, a + b)
  {
    UnknownIgnored(ReadRequestDesc(), m, a, u, b);
  }

  lemma ReadRequestRefuses(m: ReadRequest, tag: Uint64, rest: Bytes)
    requires tag % 8 != 4
    requires Int32(tag / 8) == 1 && tag % 8 != 2
    ensures Decode(ReadRequestDesc(), m, EncVarint(tag) + rest) == Err(WrongWireType)
  {
    WrongWire(ReadRequestDesc(), m, tag, rest);
  }

  // ---------- QueryResult ----------

  lemma QueryResultReads(m: QueryResult, b: Bytes, rest: Bytes)
    requires |b| < 0x8000_0000_0000_0000
    ensures
      var x := Decode(TimeSeriesDesc(), TimeSeries([], []), b);
      Decode(QueryResultDesc(), m, [0x0A] + (EncVarint(|b|) + b) + rest)
      == if x.Ok? then Decode(QueryResultDesc(), m.(timeseries := m.timeseries + [x.value]), rest) else Err(x.error)
  {
    hide Decode, EncField, EncVarint, TimeSeriesDesc;
    var x := Decode(TimeSeriesDesc(), TimeSeries([], []), b);
    assert Appended(TimeSeriesDesc(), TimeSeries([], []), m.timeseries, b)
      == if x.Ok? then Ok(m.timeseries + [x.value]) else Err(x.error);
    BlockFirst(0x0A, 1, b);
    FieldFirst(QueryResultDesc(), m, Field(1, Block(b)), rest);
  }

  lemma QueryResultSkips(m: QueryResult, a: Bytes, u: Unknown, b: Bytes)
    requires Decode(QueryResultDesc(), m, a).Ok? && Formed(u) && Int32(u.num) > 0 && Int32(u.num) != 1
    ensures Decode(QueryResultDesc(), m, a + EncUnknown(u) + b) == Decode(QueryResultDesc(), m, a + b)
  {
    UnknownIgnored(QueryResultDesc(), m, a, u, b);
  }

  lemma QueryResultRefuses(m: QueryResult, tag: Uint64, rest: Bytes)
    requires tag % 8 != 4
    requires Int32(tag / 8) == 1 && tag % 8 != 2
    ensures Decode(QueryResultDesc(), m, EncVarint(tag) + rest) == Err(WrongWireType)
  {
    WrongWire(QueryResultDesc(), m, tag, rest);
  }

  // ---------- ReadResponse ----------

  lemma ReadResponseReads(m: ReadResponse, b: Bytes, rest: Bytes)
    requires |b| < 0x8000_0000_0000_0000
    ensures
      var x := Decode(QueryResultDesc(), QueryResult([]), b);
      Decode(ReadResponseDesc(), m, [0x0A] + (EncVarint(|b|) + b) + rest)
      == if x.Ok? then Decode(ReadResponseDesc(), m.(results := m.results + [x.value]), rest) else Err(x.error)
  {
    hide Decode, EncField, EncVarint, QueryResultDesc;
    var x := Decode(QueryResultDesc(), QueryResult([]), b);
    assert Appended(QueryResultDesc(), QueryResult([]), m.results, b)
      == if x.Ok? then Ok(m.results + [x.value]) else Err(x.error);
    BlockFirst(0x0A, 1, b);
    FieldFirst(ReadResponseDesc(), m, Field(1, Block(b)), rest);
  }

  lemma ReadResponseSkips(m: ReadResponse, a: Bytes, u: Unknown, b: Bytes)
    requires Decode(ReadResponseDesc(), m, a).Ok? && Formed(u) && Int32(u.num) > 0 && Int32(u.num) != 1
    ensures Decode(ReadResponseDesc(), m, a + EncUnknown(u) + b) == Decode(ReadResponseDesc(), m, a + b)
  {
    UnknownIgnored(ReadResponseDesc(), m, a, u, b);
  }

  lemma ReadResponseRefuses(m: ReadResponse, tag: Uint64, rest: Bytes)
    requires tag % 8 != 4
    requires Int32(tag / 8) == 1 && tag % 8 != 2
    ensures Decode(ReadResponseDesc(), m, EncVarint(tag) + rest) == Err(WrongWireType)
  {
    WrongWire(ReadResponseDesc(), m, tag, rest);
  }

  // ---------- what is printed ----------

  lemma FieldsCons(f: Field, fs: seq<Field>)
    ensures EncFields([f] + fs) == EncField(f) + EncFields(fs)
  {
    hide EncField;
    assert ([f] + fs)[1..] == fs;
  }

  lemma NumPrinted(tag: Byte, num: nat, x: Int64, more: seq<Field>)
    requires tag == 8 * num && tag < 128
    ensures EncFields(NumField(num, x) + more)
      == (if x == 0 then [] else [tag] + EncVarint(ToUint64(x))) + EncFields(more)
  {
    TagByte(tag);
    hide EncVarint, EncFields, PutUint64;
    if x == 0 {
      assert NumField(num, x) + more == more && [] + EncFields(more) == EncFields(more);
    } else {
      var f := Field(num, Num(ToUint64(x)));
      assert EncField(f) == EncVarint(tag) + EncVarint(ToUint64(x));
      FieldsCons(f, more);
    }
  }

  lemma BytesPrinted(tag: Byte, num: nat, b: Bytes, more: seq<Field>)
    requires tag == 8 * num + 2 && tag < 128
    ensures EncFields(BytesField(num, b) + more)
      == (if b == [] then [] else [tag] + (EncVarint(|b|) + b)) + EncFields(more)
  {
    BlockFirst(tag, num, b);
    hide EncVarint, EncFields, EncField;
    if b == [] {
      assert BytesField(num, b) + more == more && [] + EncFields(more) == EncFields(more);
    } else {
      FieldsCons(Field(num, Block(b)), more);
    }
  }

  /** Each element of a list is printed with its length, the first one first. */
  lemma BlocksPrinted<X>(tag: Byte, num: nat, enc: X -> Bytes, x: X, xs: seq<X>, more: seq<Field>)
    requires tag == 8 * num + 2 && tag < 128
    ensures EncFields(Blocks(num, enc, [x] + xs) + more)
      == [tag] + (EncVarint(|enc(x)|) + enc(x)) + EncFields(Blocks(num, enc, xs) + more)
  {
    BlockFirst(tag, num, enc(x));
    hide EncVarint, EncFields, EncField;
    var f := Field(num, Block(enc(x)));
    assert Blocks(num, enc, [x] + xs) + more == [f] + (Blocks(num, enc, xs) + more);
    FieldsCons(f, Blocks(num, enc, xs) + more);
  }

  lemma NothingBehind(fs: seq<Field>)
    ensures fs + [] == fs && [] + fs == fs && EncFields([]) == []
  {
  }

  lemma NoBlocks<X>(num: nat, enc: X -> Bytes)
    ensures Blocks(num, enc, []) == []
  {
  }

  lemma NoBytes(b: Bytes)
    ensures [] + b == b && b + [] == b
  {
  }

  /** A value that tests equal to zero is left out, as is a timestamp of zero. */
  lemma SamplePrinted(m: Sample)
    ensures EncSample(m)
      == (if m.value in {0, 0x8000_0000_0000_0000} then [] else [0x09] + PutUint64(m.value))
         + (if m.timestampMs == 0 then [] else [0x10] + EncVarint(ToUint64(m.timestampMs)))
  {
    var t := NumField(2, m.timestampMs);
    var e: Bytes := if m.timestampMs == 0 then [] else [0x10] + EncVarint(ToUint64(m.timestampMs));
    NumPrinted(0x10, 2, m.timestampMs, []);
    NothingBehind(t);
    NoBytes(e);
    if NonZero(m.value) {
      FixedPrinted(m.value, t);
    }
    hide EncVarint, PutUint64, EncFields, NumField;
  }

  lemma FixedPrinted(v: Uint64, more: seq<Field>)
    ensures EncFields([Field(1, Fixed(v))] + more) == [0x09] + PutUint64(v) + EncFields(more)
  {
    TagByte(0x09);
    hide EncVarint, PutUint64, EncFields;
    var f := Field(1, Fixed(v));
    assert EncField(f) == EncVarint(0x09) + PutUint64(v);
    FieldsCons(f, more);
  }

  /** Empty texts are left out. */
  lemma LabelPairPrinted(m: LabelPair)
    ensures EncLabelPair(m)
      == (if m.name == [] then [] else [0x0A] + (EncVarint(|m.name|) + m.name))
         + (if m.value == [] then [] else [0x12] + (EncVarint(|m.value|) + m.value))
  {
    hide EncVarint, EncFields, BytesField;
    BytesPrinted(0x0A, 1, m.name, BytesField(2, m.value));
    BytesPrinted(0x12, 2, m.value, []);
    NothingBehind(BytesField(2, m.value));
    NoBytes(if m.value == [] then [] else [0x12] + (EncVarint(|m.value|) + m.value));
  }

  /** Labels come before samples. */
  lemma TimeSeriesPrinted(l: LabelPair, ls: seq<LabelPair>, s: Sample, ss: seq<Sample>)
    ensures EncTimeSeries(TimeSeries([], [])) == []
    ensures
      var e := EncLabelPair(l);
      EncTimeSeries(TimeSeries([l] + ls, ss)) == [0x0A] + (EncVarint(|e|) + e) + EncTimeSeries(TimeSeries(ls, ss))
    ensures
      var e := EncSample(s);
      EncTimeSeries(TimeSeries([], [s] + ss)) == [0x12] + (EncVarint(|e|) + e) + EncTimeSeries(TimeSeries([], ss))
  {
    BlocksPrinted(0x0A, 1, EncLabelPair, l, ls, Blocks(2, EncSample, ss));
    BlocksPrinted(0x12, 2, EncSample, s, ss, []);
    hide EncVarint, EncFields, EncLabelPair, EncSample, Blocks;
    NothingBehind(Blocks(2, EncSample, [s] + ss));
    NothingBehind(Blocks(2, EncSample, ss));
    NothingBehind([]);
    NoBlocks(1, EncLabelPair);
    NoBlocks(2, EncSample);
  }

  lemma WriteRequestPrinted(x: TimeSeries, xs: seq<TimeSeries>)
    ensures EncWriteRequest(WriteRequest([])) == []
    ensures
      var e := EncTimeSeries(x);
      EncWriteRequest(WriteRequest([x] + xs)) == [0x0A] + (EncVarint(|e|) + e) + EncWriteRequest(WriteRequest(xs))
  {
    BlocksPrinted(0x0A, 1, EncTimeSeries, x, xs, []);
    hide EncVarint, EncFields, EncTimeSeries, Blocks;
    NothingBehind(Blocks(1, EncTimeSeries, [x] + xs));
    NothingBehind(Blocks(1, EncTimeSeries, xs));
    NothingBehind([]);
    NoBlocks(1, EncTimeSeries);
  }

  /** A type of zero and empty texts are left out. */
  lemma LabelMatcherPrinted(m: LabelMatcher)
    ensures EncLabelMatcher(m)
      == (if m.kind == 0 then [] else [0x08] + EncVarint(ToUint64(m.kind)))
         + ((if m.name == [] then [] else [0x12] + (EncVarint(|m.name|) + m.name))
            + (if m.value == [] then [] else [0x1A] + (EncVarint(|m.value|) + m.value)))
  {
    hide EncVarint, EncFields, BytesField, NumField, ToUint64;
    var b, c := BytesField(2, m.name), BytesField(3, m.value);
    NumPrinted(0x08, 1, m.kind, b + c);
    BytesPrinted(0x12, 2, m.name, c);
    BytesPrinted(0x1A, 3, m.value, []);
    NothingBehind(c);
    NoBytes(if m.value == [] then [] else [0x1A] + (EncVarint(|m.value|) + m.value));
    Regroup(NumField(1, m.kind), b, c);
  }

  /** Timestamps of zero are left out; matchers come last. */
  lemma QueryPrinted(m: Query, x: LabelMatcher, xs: seq<LabelMatcher>)
    ensures EncQuery(Query(0, 0, [])) == []
    ensures EncQuery(m)
      == (if m.startTimestampMs == 0 then [] else [0x08] + EncVarint(ToUint64(m.startTimestampMs)))
         + ((if m.endTimestampMs == 0 then [] else [0x10] + EncVarint(ToUint64(m.endTimestampMs)))
            + EncQuery(Query(0, 0, m.matchers)))
    ensures
      var e := EncLabelMatcher(x);
      EncQuery(Query(0, 0, [x] + xs)) == [0x1A] + (EncVarint(|e|) + e) + EncQuery(Query(0, 0, xs))
  {
    NumNothing(1);
    NumNothing(2);
    hide EncVarint, EncFields, EncLabelMatcher, NumField, ToUint64;
    BlocksPrinted(0x1A, 3, EncLabelMatcher, x, xs, []);
    NoBlocks(3, EncLabelMatcher);
    hide Blocks;
    var b, c := NumField(2, m.endTimestampMs), Blocks(3, EncLabelMatcher, m.matchers);
    NumPrinted(0x08, 1, m.startTimestampMs, b + c);
    NumPrinted(0x10, 2, m.endTimestampMs, c);
    Regroup(NumField(1, m.startTimestampMs), b, c);
    NothingBehind(c);
    NothingBehind(Blocks(3, EncLabelMatcher, [x] + xs));
    NothingBehind(Blocks(3, EncLabelMatcher, xs));
    NothingBehind([]);
  }

  lemma NumNothing(num: nat)
    ensures NumField(num, 0) == []
  {
  }

  lemma ReadRequestPrinted(x: Query, xs: seq<Query>)
    ensures EncReadRequest(ReadRequest([])) == []
    ensures
      var e := EncQuery(x);
      EncReadRequest(ReadRequest([x] + xs)) == [0x0A] + (EncVarint(|e|) + e) + EncReadRequest(ReadRequest(xs))
  {
    BlocksPrinted(0x0A, 1, EncQuery, x, xs, []);
    hide EncVarint, EncFields, EncQuery, Blocks;
    NothingBehind(Blocks(1, EncQuery, [x] + xs));
    NothingBehind(Blocks(1, EncQuery, xs));
    NothingBehind([]);
    NoBlocks(1, EncQuery);
  }

  lemma QueryResultPrinted(x: TimeSeries, xs: seq<TimeSeries>)
    ensures EncQueryResult(QueryResult([])) == []
    ensures
      var e := EncTimeSeries(x);
      EncQueryResult(QueryResult([x] + xs)) == [0x0A] + (EncVarint(|e|) + e) + EncQueryResult(QueryResult(xs))
  {
    BlocksPrinted(0x0A, 1, EncTimeSeries, x, xs, []);
    hide EncVarint, EncFields, EncTimeSeries, Blocks;
    NothingBehind(Blocks(1, EncTimeSeries, [x] + xs));
    NothingBehind(Blocks(1, EncTimeSeries, xs));
    NothingBehind([]);
    NoBlocks(1, EncTimeSeries);
  }

  lemma ReadResponsePrinted(x: QueryResult, xs: seq<QueryResult>)
    ensures EncReadResponse(ReadResponse([])) == []
    ensures
      var e := EncQueryResult(x);
      EncReadResponse(ReadResponse([x] + xs)) == [0x0A] + (EncVarint(|e|) + e) + EncReadResponse(ReadResponse(xs))
  {
    BlocksPrinted(0x0A, 1, EncQueryResult, x, xs, []);
    hide EncVarint, EncFields, EncQueryResult, Blocks;
    NothingBehind(Blocks(1, EncQueryResult, [x] + xs));
    NothingBehind(Blocks(1, EncQueryResult, xs));
    NothingBehind([]);
    NoBlocks(1, EncQueryResult);
  }
}
