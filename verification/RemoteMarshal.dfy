/**
 * Size, MarshalToSizedBuffer and Marshal of every message of service/prometheus/remote/remote.pb.go. A message is put
 * into the bytes of a buffer before index end, which stands for the slice dAtA[:end] the original is given.
 */
module RemoteMarshal {
  import opened Prelude
  import opened Binary
  import opened Wire
  import opened Remote
  import opened RemoteCodec

  // ---------- sizes ----------

  function SizeNum(x: Int64): nat { if x == 0 then 0 else 1 + Sov(ToUint64(x)) }

  function SizeBytes(b: Bytes): nat { if |b| > 0 then 1 + |b| + Sov(|b|) else 0 }

  function SizeBlocks<X>(size: X -> nat, xs: seq<X>): nat {
    if xs == [] then 0
    else
      var l := size(xs[0]);
      1 + l + Sov(l) + SizeBlocks(size, xs[1..])
  }

  function SizeSample(m: Sample): nat { (if NonZero(m.value) then 9 else 0) + SizeNum(m.timestampMs) }
  function SizeLabelPair(m: LabelPair): nat { SizeBytes(m.name) + SizeBytes(m.value) }
  function SizeTimeSeries(m: TimeSeries): nat {
    SizeBlocks(SizeLabelPair, m.labels) + SizeBlocks(SizeSample, m.samples)
  }
  function SizeWriteRequest(m: WriteRequest): nat { SizeBlocks(SizeTimeSeries, m.timeseries) }
  function SizeLabelMatcher(m: LabelMatcher): nat { SizeNum(m.kind) + SizeBytes(m.name) + SizeBytes(m.value) }
  function SizeQuery(m: Query): nat {
    SizeNum(m.startTimestampMs) + SizeNum(m.endTimestampMs) + SizeBlocks(SizeLabelMatcher, m.matchers)
  }
  function SizeReadRequest(m: ReadRequest): nat { SizeBlocks(SizeQuery, m.queries) }
  function SizeQueryResult(m: QueryResult): nat { SizeBlocks(SizeTimeSeries, m.timeseries) }
  function SizeReadResponse(m: ReadResponse): nat { SizeBlocks(SizeQueryResult, m.results) }

  // ---------- printed fields, byte by byte ----------

  lemma OneField(f: Field)
    requires f.num <= 15
    ensures EncFields([f]) == [8 * f.num + WireType(f.payload)] + EncPayload(f.payload)
  {
    EncLast(8 * f.num + WireType(f.payload));
    hide EncVarint, EncPayload;
    assert EncFields([f]) == EncField(f) + EncFields([]);
  }

  lemma NumBytes(num: nat, x: Int64)
    requires 1 <= num <= 15
    ensures EncFields(NumField(num, x)) == if x == 0 then [] else [8 * num] + EncVarint(ToUint64(x))
    ensures |EncFields(NumField(num, x))| == SizeNum(x)
  {
    if x != 0 {
      OneField(Field(num, Num(ToUint64(x))));
      SovIsLength(ToUint64(x));
    }
  }

  lemma BytesBytes(num: nat, b: Bytes)
    requires 1 <= num <= 15
    ensures EncFields(BytesField(num, b)) == if b == [] then [] else [8 * num + 2] + (EncVarint(|b|) + b)
    ensures |EncFields(BytesField(num, b))| == SizeBytes(b)
  {
    if b != [] {
      OneField(Field(num, Block(b)));
      SovIsLength(|b|);
    }
  }

  lemma BlocksFrom<X>(num: nat, enc: X -> Bytes, xs: seq<X>, k: nat)
    requires 1 <= num <= 15 && k < |xs|
    ensures
      var e := enc(xs[k]);
      EncFields(Blocks(num, enc, xs[k..]))
      == [8 * num + 2] + (EncVarint(|e|) + e) + EncFields(Blocks(num, enc, xs[k + 1..]))
    ensures |EncFields(Blocks(num, enc, xs[k..]))| <= |EncFields(Blocks(num, enc, xs))|
  {
    hide EncVarint, EncField;
    var f := Field(num, Block(enc(xs[k])));
    OneField(f);
    assert Blocks(num, enc, xs[k..]) == [f] + Blocks(num, enc, xs[k + 1..]);
    EncFieldsConcat([f], Blocks(num, enc, xs[k + 1..]));
    assert Blocks(num, enc, xs) == Blocks(num, enc, xs[..k]) + Blocks(num, enc, xs[k..]);
    EncFieldsConcat(Blocks(num, enc, xs[..k]), Blocks(num, enc, xs[k..]));
  }

  lemma {:induction false} BlocksSize<X>(num: nat, enc: X -> Bytes, size: X -> nat, xs: seq<X>)
    requires 1 <= num <= 15
    requires forall i | 0 <= i < |xs| :: size(xs[i]) == |enc(xs[i])|
    ensures |EncFields(Blocks(num, enc, xs))| == SizeBlocks(size, xs)
    decreases |xs|
  {
    hide EncVarint, EncFields, Sov;
    if xs == [] {
      assert Blocks(num, enc, xs) == [];
      EncNothing();
    } else {
      BlocksFrom(num, enc, xs, 0);
      SovIsLength(|enc(xs[0])|);
      BlocksSize(num, enc, size, xs[1..]);
      assert xs[0..] == xs;
    }
  }

  lemma EncNothing()
    ensures EncFields([]) == []
  {
  }

  lemma SampleBytes(m: Sample)
    ensures EncSample(m)
      == (if NonZero(m.value) then [9] + PutUint64(m.value) else []) + EncFields(NumField(2, m.timestampMs))
    ensures |EncSample(m)| == SizeSample(m)
  {
    hide EncVarint, EncField, PutUint64;
    NumBytes(2, m.timestampMs);
    if NonZero(m.value) {
      OneField(Field(1, Fixed(m.value)));
      EncFieldsConcat([Field(1, Fixed(m.value))], NumField(2, m.timestampMs));
    } else {
      assert [] + NumField(2, m.timestampMs) == NumField(2, m.timestampMs);
    }
  }

  lemma LabelPairBytes(m: LabelPair)
    ensures EncLabelPair(m) == EncFields(BytesField(1, m.name)) + EncFields(BytesField(2, m.value))
    ensures |EncLabelPair(m)| == SizeLabelPair(m)
  {
    BytesBytes(1, m.name);
    BytesBytes(2, m.value);
    EncFieldsConcat(BytesField(1, m.name), BytesField(2, m.value));
  }

  lemma TimeSeriesBytes(m: TimeSeries)
    ensures EncTimeSeries(m)
      == EncFields(Blocks(1, EncLabelPair, m.labels)) + EncFields(Blocks(2, EncSample, m.samples))
    ensures |EncTimeSeries(m)| == SizeTimeSeries(m)
  {
    hide EncFields, SizeLabelPair, SizeSample, EncLabelPair, EncSample;
    forall x: LabelPair ensures SizeLabelPair(x) == |EncLabelPair(x)| {
      LabelPairBytes(x);
    }
    forall x: Sample ensures SizeSample(x) == |EncSample(x)| {
      SampleBytes(x);
    }
    BlocksSize(1, EncLabelPair, SizeLabelPair, m.labels);
    BlocksSize(2, EncSample, SizeSample, m.samples);
    EncFieldsConcat(Blocks(1, EncLabelPair, m.labels), Blocks(2, EncSample, m.samples));
  }

  lemma LabelMatcherBytes(m: LabelMatcher)
    ensures EncLabelMatcher(m)
      == EncFields(NumField(1, m.kind)) + (EncFields(BytesField(2, m.name)) + EncFields(BytesField(3, m.value)))
    ensures |EncLabelMatcher(m)| == SizeLabelMatcher(m)
  {
    hide EncFields, SizeNum, SizeBytes, NumField, BytesField;
    var a, b, c := NumField(1, m.kind), BytesField(2, m.name), BytesField(3, m.value);
    NumBytes(1, m.kind);
    BytesBytes(2, m.name);
    BytesBytes(3, m.value);
    assert a + b + c == a + (b + c);
    EncFieldsConcat(b, c);
    EncFieldsConcat(a, b + c);
  }

  lemma QueryBytes(m: Query)
    ensures EncQuery(m)
      == EncFields(NumField(1, m.startTimestampMs))
         + (EncFields(NumField(2, m.endTimestampMs)) + EncFields(Blocks(3, EncLabelMatcher, m.matchers)))
    ensures |EncQuery(m)| == SizeQuery(m)
  {
    hide EncFields, SizeNum, NumField, Blocks, SizeLabelMatcher, EncLabelMatcher;
    var a, b := NumField(1, m.startTimestampMs), NumField(2, m.endTimestampMs);
    var c := Blocks(3, EncLabelMatcher, m.matchers);
    NumBytes(1, m.startTimestampMs);
    NumBytes(2, m.endTimestampMs);
    forall x: LabelMatcher ensures SizeLabelMatcher(x) == |EncLabelMatcher(x)| {
      LabelMatcherBytes(x);
    }
    BlocksSize(3, EncLabelMatcher, SizeLabelMatcher, m.matchers);
    assert a + b + c == a + (b + c);
    EncFieldsConcat(b, c);
    EncFieldsConcat(a, b + c);
  }

  lemma WriteRequestBytes(m: WriteRequest)
    ensures |EncWriteRequest(m)| == SizeWriteRequest(m)
  {
    hide EncFields, SizeTimeSeries, EncTimeSeries;
    forall x: TimeSeries ensures SizeTimeSeries(x) == |EncTimeSeries(x)| {
      TimeSeriesBytes(x);
    }
    BlocksSize(1, EncTimeSeries, SizeTimeSeries, m.timeseries);
  }

  lemma ReadRequestBytes(m: ReadRequest)
    ensures |EncReadRequest(m)| == SizeReadRequest(m)
  {
    hide EncFields, SizeQuery, EncQuery;
    forall x: Query ensures SizeQuery(x) == |EncQuery(x)| {
      QueryBytes(x);
    }
    BlocksSize(1, EncQuery, SizeQuery, m.queries);
  }

  lemma QueryResultBytes(m: QueryResult)
    ensures |EncQueryResult(m)| == SizeQueryResult(m)
  {
    hide EncFields, SizeTimeSeries, EncTimeSeries;
    forall x: TimeSeries ensures SizeTimeSeries(x) == |EncTimeSeries(x)| {
      TimeSeriesBytes(x);
    }
    BlocksSize(1, EncTimeSeries, SizeTimeSeries, m.timeseries);
  }

  lemma ReadResponseBytes(m: ReadResponse)
    ensures |EncReadResponse(m)| == SizeReadResponse(m)
  {
    hide EncFields, SizeQueryResult, EncQueryResult;
    forall x: QueryResult ensures SizeQueryResult(x) == |EncQueryResult(x)| {
      QueryResultBytes(x);
    }
    BlocksSize(1, EncQueryResult, SizeQueryResult, m.results);
  }

  // ---------- filling the buffer ----------

  /** A varint field that is omitted when zero. */
  method PutNumField(dAtA: array<Byte>, end: nat, num: nat, x: Int64) returns (i: nat)
    requires 1 <= num <= 15 && SizeNum(x) <= end <= dAtA.Length
    modifies dAtA
    ensures Filled(old(dAtA[..]), dAtA[..], i, end, EncFields(NumField(num, x)))
  {
    ghost var o := dAtA[..];
    NumBytes(num, x);
    hide EncFields, EncVarint, Sov;
    i := end;
    if x != 0 {
      i := EncodeVarintRemote(dAtA, i, ToUint64(x));
      ghost var a := dAtA[..];
      ghost var s1 := i;
      i := PutByteBefore(dAtA, i, 8 * num);
      FilledBefore(o, a, dAtA[..], i, s1, end, [8 * num], EncVarint(ToUint64(x)));
    }
  }

  /** The tag and the length before size bytes that have just been put before end. */
  method PutBlockHeader(dAtA: array<Byte>, end: nat, num: nat, size: nat) returns (i: nat)
    requires 1 <= num <= 15 && 1 + Sov(size) <= end <= dAtA.Length && size < W64
    modifies dAtA
    ensures Filled(old(dAtA[..]), dAtA[..], i, end, [8 * num + 2] + EncVarint(size))
  {
    ghost var o := dAtA[..];
    hide EncVarint, Sov;
    i := EncodeVarintRemote(dAtA, end, size);
    ghost var a, s1 := dAtA[..], i;
    i := PutByteBefore(dAtA, i, 8 * num + 2);
    FilledBefore(o, a, dAtA[..], i, s1, end, [8 * num + 2], EncVarint(size));
  }

  /** A string field that is omitted when empty. */
  method PutBytesField(dAtA: array<Byte>, end: nat, num: nat, b: Bytes) returns (i: nat)
    requires 1 <= num <= 15 && SizeBytes(b) <= end <= dAtA.Length < W63
    modifies dAtA
    ensures Filled(old(dAtA[..]), dAtA[..], i, end, EncFields(BytesField(num, b)))
  {
    hide *;
    ghost var o := dAtA[..];
    BytesRoom(num, b);
    FilledNothing(o, end);
    i := end;
    if |b| > 0 {
      i := CopyBefore(dAtA, i, b);
      ghost var a, s1 := dAtA[..], i;
      FilledLength(o, a, i, end, b);
      i := PutBlockHeader(dAtA, i, num, |b|);
      FilledBefore(o, a, dAtA[..], i, s1, end, [8 * num + 2] + EncVarint(|b|), b);
    }
  }

  lemma BytesRoom(num: nat, b: Bytes)
    requires 1 <= num <= 15
    ensures EncFields(BytesField(num, b)) == if b == [] then [] else [8 * num + 2] + EncVarint(|b|) + b
    ensures b != [] ==> SizeBytes(b) == 1 + Sov(|b|) + |b| && W63 < W64
  {
    BytesBytes(num, b);
    hide EncFields, EncVarint, Sov, BytesField;
    Regroup([8 * num + 2], EncVarint(|b|), b);
  }

  ghost function BlockBytes(num: nat, e: Bytes): Bytes
    requires 1 <= num <= 15
  {
    [8 * num + 2] + EncVarint(|e|) + e
  }

  /** The blocks of a repeated field from the k-th on. */
  ghost function Tail<X>(num: nat, enc: X -> Bytes, xs: seq<X>, k: nat): Bytes
    requires k <= |xs|
  {
    EncFields(Blocks(num, enc, xs[k..]))
  }

  lemma TailStep<X>(num: nat, enc: X -> Bytes, xs: seq<X>, k: nat)
    requires 1 <= num <= 15 && k < |xs|
    ensures Tail(num, enc, xs, k) == BlockBytes(num, enc(xs[k])) + Tail(num, enc, xs, k + 1)
    ensures |Tail(num, enc, xs, k)| <= |EncFields(Blocks(num, enc, xs))|
    ensures |BlockBytes(num, enc(xs[k]))| == 1 + Sov(|enc(xs[k])|) + |enc(xs[k])|
  {
    hide EncFields, Blocks, EncVarint, Sov;
    BlocksFrom(num, enc, xs, k);
    SovIsLength(|enc(xs[k])|);
    var e := enc(xs[k]);
    assert [8 * num + 2] + (EncVarint(|e|) + e) == [8 * num + 2] + EncVarint(|e|) + e;
  }

  lemma TailEnds<X>(num: nat, enc: X -> Bytes, xs: seq<X>)
    ensures Tail(num, enc, xs, |xs|) == []
    ensures Tail(num, enc, xs, 0) == EncFields(Blocks(num, enc, xs))
  {
    assert xs[|xs|..] == [] && xs[0..] == xs;
    EncNothing();
    assert Blocks(num, enc, xs[|xs|..]) == [];
  }

  lemma FilledNothing(o: Bytes, end: nat)
    requires end <= |o|
    ensures Filled(o, o, end, end, [])
  {
  }

  method MarshalSample(m: Sample, dAtA: array<Byte>, end: nat) returns (n: nat)
    requires |EncSample(m)| <= end <= dAtA.Length < W63
    modifies dAtA
    ensures n == |EncSample(m)| && Filled(old(dAtA[..]), dAtA[..], end - n, end, EncSample(m))
  {
    ghost var o := dAtA[..];
    SampleBytes(m);
    hide EncFields, EncVarint, Sov, EncSample, PutUint64;
    NumBytes(2, m.timestampMs);
    ghost var back := EncFields(NumField(2, m.timestampMs));
    var i := PutNumField(dAtA, end, 2, m.timestampMs);
    if NonZero(m.value) {
      ghost var a, s1 := dAtA[..], i;
      i := PutFixed64(dAtA, i, m.value);
      ghost var b, s2 := dAtA[..], i;
      i := PutByteBefore(dAtA, i, 9);
      FilledBefore(a, b, dAtA[..], i, s2, s1, [9], PutUint64(m.value));
      FilledBefore(o, a, dAtA[..], i, s1, end, [9] + PutUint64(m.value), back);
    } else {
      assert [] + back == back;
    }
    n := end - i;
  }

  method MarshalLabelPair(m: LabelPair, dAtA: array<Byte>, end: nat) returns (n: nat)
    requires |EncLabelPair(m)| <= end <= dAtA.Length < W63
    modifies dAtA
    ensures n == |EncLabelPair(m)| && Filled(old(dAtA[..]), dAtA[..], end - n, end, EncLabelPair(m))
  {
    ghost var o := dAtA[..];
    LabelPairBytes(m);
    hide EncFields, EncLabelPair, SizeBytes, Filled;
    BytesBytes(1, m.name);
    BytesBytes(2, m.value);
    var i := PutBytesField(dAtA, end, 2, m.value);
    ghost var a, s1 := dAtA[..], i;
    FilledLength(o, a, i, end, EncFields(BytesField(2, m.value)));
    i := PutBytesField(dAtA, i, 1, m.name);
    FilledBefore(o, a, dAtA[..], i, s1, end, EncFields(BytesField(1, m.name)), EncFields(BytesField(2, m.value)));
    FilledLength(o, dAtA[..], i, end, EncLabelPair(m));
    n := end - i;
  }

  lemma FilledLength(o: Bytes, a: Bytes, i: nat, end: nat, b: Bytes)
    requires Filled(o, a, i, end, b)
    ensures i + |b| == end && |a| == |o|
  {
  }

  lemma FilledAll(o: Bytes, a: Bytes, b: Bytes)
    requires |b| == |o| && Filled(o, a, 0, |o|, b)
    ensures a == b
  {
  }

  /** One turn of a loop over a repeated LabelPair field: the message, its length and the tag. */
  method PutLabelPair(m: LabelPair, dAtA: array<Byte>, end: nat, num: nat) returns (i: nat)
    requires 1 <= num <= 15 && 1 + Sov(|EncLabelPair(m)|) + |EncLabelPair(m)| <= end <= dAtA.Length < W63
    modifies dAtA
    ensures Filled(old(dAtA[..]), dAtA[..], i, end, BlockBytes(num, EncLabelPair(m)))
  {
    hide EncLabelPair, EncVarint, Sov, Filled;
    ghost var o := dAtA[..];
    var size := MarshalLabelPair(m, dAtA, end);
    i := end - size;
    ghost var a, s1 := dAtA[..], i;
    i := PutBlockHeader(dAtA, i, num, size);
    FilledBefore(o, a, dAtA[..], i, s1, end, [8 * num + 2] + EncVarint(size), EncLabelPair(m));
  }

  /** The loop over a repeated LabelPair field, the last element first. */
  method PutLabelPairList(xs: seq<LabelPair>, dAtA: array<Byte>, end: nat, num: nat) returns (i: nat)
    requires 1 <= num <= 15 && |EncFields(Blocks(num, EncLabelPair, xs))| <= end <= dAtA.Length < W63
    modifies dAtA
    ensures Filled(old(dAtA[..]), dAtA[..], i, end, EncFields(Blocks(num, EncLabelPair, xs)))
  {
    hide EncLabelPair, EncFields, Blocks, Sov, Filled, Tail, BlockBytes;
    ghost var o := dAtA[..];
    TailEnds(num, EncLabelPair, xs);
    FilledNothing(o, end);
    i := end;
    var k: nat := |xs|;
    while k > 0
      invariant k <= |xs| && Filled(o, dAtA[..], i, end, Tail(num, EncLabelPair, xs, k))
    {
      ghost var a, s1, t := dAtA[..], i, Tail(num, EncLabelPair, xs, k);
      FilledLength(o, a, i, end, t);
      k := k - 1;
      TailStep(num, EncLabelPair, xs, k);
      i := PutLabelPair(xs[k], dAtA, i, num);
      FilledBefore(o, a, dAtA[..], i, s1, end, BlockBytes(num, EncLabelPair(xs[k])), t);
    }
  }

  /** One turn of a loop over a repeated Sample field: the message, its length and the tag. */
  method PutSample(m: Sample, dAtA: array<Byte>, end: nat, num: nat) returns (i: nat)
    requires 1 <= num <= 15 && 1 + Sov(|EncSample(m)|) + |EncSample(m)| <= end <= dAtA.Length < W63
    modifies dAtA
    ensures Filled(old(dAtA[..]), dAtA[..], i, end, BlockBytes(num, EncSample(m)))
  {
    hide EncSample, EncVarint, Sov, Filled;
    ghost var o := dAtA[..];
    var size := MarshalSample(m, dAtA, end);
    i := end - size;
    ghost var a, s1 := dAtA[..], i;
    i := PutBlockHeader(dAtA, i, num, size);
    FilledBefore(o, a, dAtA[..], i, s1, end, [8 * num + 2] + EncVarint(size), EncSample(m));
  }

  /** The loop over a repeated Sample field, the last element first. */
  method PutSampleList(xs: seq<Sample>, dAtA: array<Byte>, end: nat, num: nat) returns (i: nat)
    requires 1 <= num <= 15 && |EncFields(Blocks(num, EncSample, xs))| <= end <= dAtA.Length < W63
    modifies dAtA
    ensures Filled(old(dAtA[..]), dAtA[..], i, end, EncFields(Blocks(num, EncSample, xs)))
  {
    hide EncSample, EncFields, Blocks, Sov, Filled, Tail, BlockBytes;
    ghost var o := dAtA[..];
    TailEnds(num, EncSample, xs);
    FilledNothing(o, end);
    i := end;
    var k: nat := |xs|;
    while k > 0
      invariant k <= |xs| && Filled(o, dAtA[..], i, end, Tail(num, EncSample, xs, k))
    {
      ghost var a, s1, t := dAtA[..], i, Tail(num, EncSample, xs, k);
      FilledLength(o, a, i, end, t);
      k := k - 1;
      TailStep(num, EncSample, xs, k);
      i := PutSample(xs[k], dAtA, i, num);
      FilledBefore(o, a, dAtA[..], i, s1, end, BlockBytes(num, EncSample(xs[k])), t);
    }
  }

  method MarshalTimeSeries(m: TimeSeries, dAtA: array<Byte>, end: nat) returns (n: nat)
    requires |EncTimeSeries(m)| <= end <= dAtA.Length < W63
    modifies dAtA
    ensures n == |EncTimeSeries(m)| && Filled(old(dAtA[..]), dAtA[..], end - n, end, EncTimeSeries(m))
  {
    ghost var o := dAtA[..];
    TimeSeriesBytes(m);
    hide EncFields, Filled, EncLabelPair, EncSample, EncTimeSeries, Blocks;
    ghost var f1, f2 := EncFields(Blocks(1, EncLabelPair, m.labels)), EncFields(Blocks(2, EncSample, m.samples));
    var i := PutSampleList(m.samples, dAtA, end, 2);
    ghost var a, s1 := dAtA[..], i;
    FilledLength(o, a, i, end, f2);
    i := PutLabelPairList(m.labels, dAtA, i, 1);
    FilledBefore(o, a, dAtA[..], i, s1, end, f1, f2);
    FilledLength(o, dAtA[..], i, end, EncTimeSeries(m));
    n := end - i;
  }

  /** One turn of a loop over a repeated TimeSeries field: the message, its length and the tag. */
  method PutTimeSeries(m: TimeSeries, dAtA: array<Byte>, end: nat, num: nat) returns (i: nat)
    requires 1 <= num <= 15 && 1 + Sov(|EncTimeSeries(m)|) + |EncTimeSeries(m)| <= end <= dAtA.Length < W63
    modifies dAtA
    ensures Filled(old(dAtA[..]), dAtA[..], i, end, BlockBytes(num, EncTimeSeries(m)))
  {
    hide EncTimeSeries, EncVarint, Sov, Filled;
    ghost var o := dAtA[..];
    var size := MarshalTimeSeries(m, dAtA, end);
    i := end - size;
    ghost var a, s1 := dAtA[..], i;
    i := PutBlockHeader(dAtA, i, num, size);
    FilledBefore(o, a, dAtA[..], i, s1, end, [8 * num + 2] + EncVarint(size), EncTimeSeries(m));
  }

  /** The loop over a repeated TimeSeries field, the last element first. */
  method PutTimeSeriesList(xs: seq<TimeSeries>, dAtA: array<Byte>, end: nat, num: nat) returns (i: nat)
    requires 1 <= num <= 15 && |EncFields(Blocks(num, EncTimeSeries, xs))| <= end <= dAtA.Length < W63
    modifies dAtA
    ensures Filled(old(dAtA[..]), dAtA[..], i, end, EncFields(Blocks(num, EncTimeSeries, xs)))
  {
    hide EncTimeSeries, EncFields, Blocks, Sov, Filled, Tail, BlockBytes;
    ghost var o := dAtA[..];
    TailEnds(num, EncTimeSeries, xs);
    FilledNothing(o, end);
    i := end;
    var k: nat := |xs|;
    while k > 0
      invariant k <= |xs| && Filled(o, dAtA[..], i, end, Tail(num, EncTimeSeries, xs, k))
    {
      ghost var a, s1, t := dAtA[..], i, Tail(num, EncTimeSeries, xs, k);
      FilledLength(o, a, i, end, t);
      k := k - 1;
      TailStep(num, EncTimeSeries, xs, k);
      i := PutTimeSeries(xs[k], dAtA, i, num);
      FilledBefore(o, a, dAtA[..], i, s1, end, BlockBytes(num, EncTimeSeries(xs[k])), t);
    }
  }

  method MarshalWriteRequest(m: WriteRequest, dAtA: array<Byte>, end: nat) returns (n: nat)
    requires |EncWriteRequest(m)| <= end <= dAtA.Length < W63
    modifies dAtA
    ensures n == |EncWriteRequest(m)| && Filled(old(dAtA[..]), dAtA[..], end - n, end, EncWriteRequest(m))
  {
    hide EncFields, Filled, EncTimeSeries, Blocks;
    ghost var o := dAtA[..];
    var i := PutTimeSeriesList(m.timeseries, dAtA, end, 1);
    FilledLength(o, dAtA[..], i, end, EncWriteRequest(m));
    n := end - i;
  }

  method MarshalLabelMatcher(m: LabelMatcher, dAtA: array<Byte>, end: nat) returns (n: nat)
    requires |EncLabelMatcher(m)| <= end <= dAtA.Length < W63
    modifies dAtA
    ensures n == |EncLabelMatcher(m)| && Filled(old(dAtA[..]), dAtA[..], end - n, end, EncLabelMatcher(m))
  {
    ghost var o := dAtA[..];
    LabelMatcherBytes(m);
    NumBytes(1, m.kind);
    BytesBytes(2, m.name);
    BytesBytes(3, m.value);
    hide *;
    ghost var f1, f2, f3 :=
      EncFields(NumField(1, m.kind)), EncFields(BytesField(2, m.name)), EncFields(BytesField(3, m.value));
    var i := PutBytesField(dAtA, end, 3, m.value);
    ghost var a, s1 := dAtA[..], i;
    FilledLength(o, a, s1, end, f3);
    i := PutBytesField(dAtA, i, 2, m.name);
    ghost var b, s2 := dAtA[..], i;
    FilledLength(a, b, s2, s1, f2);
    i := PutNumField(dAtA, i, 1, m.kind);
    FilledThrice(o, a, b, dAtA[..], s1, s2, i, end, f1, f2, f3);
    n := end - i;
  }

  /** One turn of a loop over a repeated LabelMatcher field: the message, its length and the tag. */
  method PutLabelMatcher(m: LabelMatcher, dAtA: array<Byte>, end: nat, num: nat) returns (i: nat)
    requires 1 <= num <= 15 && 1 + Sov(|EncLabelMatcher(m)|) + |EncLabelMatcher(m)| <= end <= dAtA.Length < W63
    modifies dAtA
    ensures Filled(old(dAtA[..]), dAtA[..], i, end, BlockBytes(num, EncLabelMatcher(m)))
  {
    hide EncLabelMatcher, EncVarint, Sov, Filled;
    ghost var o := dAtA[..];
    var size := MarshalLabelMatcher(m, dAtA, end);
    i := end - size;
    ghost var a, s1 := dAtA[..], i;
    i := PutBlockHeader(dAtA, i, num, size);
    FilledBefore(o, a, dAtA[..], i, s1, end, [8 * num + 2] + EncVarint(size), EncLabelMatcher(m));
  }

  /** The loop over a repeated LabelMatcher field, the last element first. */
  method PutLabelMatcherList(xs: seq<LabelMatcher>, dAtA: array<Byte>, end: nat, num: nat) returns (i: nat)
    requires 1 <= num <= 15 && |EncFields(Blocks(num, EncLabelMatcher, xs))| <= end <= dAtA.Length < W63
    modifies dAtA
    ensures Filled(old(dAtA[..]), dAtA[..], i, end, EncFields(Blocks(num, EncLabelMatcher, xs)))
  {
    hide EncLabelMatcher, EncFields, Blocks, Sov, Filled, Tail, BlockBytes;
    ghost var o := dAtA[..];
    TailEnds(num, EncLabelMatcher, xs);
    FilledNothing(o, end);
    i := end;
    var k: nat := |xs|;
    while k > 0
      invariant k <= |xs| && Filled(o, dAtA[..], i, end, Tail(num, EncLabelMatcher, xs, k))
    {
      ghost var a, s1, t := dAtA[..], i, Tail(num, EncLabelMatcher, xs, k);
      FilledLength(o, a, i, end, t);
      k := k - 1;
      TailStep(num, EncLabelMatcher, xs, k);
      i := PutLabelMatcher(xs[k], dAtA, i, num);
      FilledBefore(o, a, dAtA[..], i, s1, end, BlockBytes(num, EncLabelMatcher(xs[k])), t);
    }
  }

  lemma QueryRoom(m: Query)
    ensures
      var f1, f2 := EncFields(NumField(1, m.startTimestampMs)), EncFields(NumField(2, m.endTimestampMs));
      var f3 := EncFields(Blocks(3, EncLabelMatcher, m.matchers));
      && EncQuery(m) == f1 + (f2 + f3) && |EncQuery(m)| == |f1| + |f2| + |f3|
      && |f1| == SizeNum(m.startTimestampMs) && |f2| == SizeNum(m.endTimestampMs)
  {
    QueryBytes(m);
    NumBytes(1, m.startTimestampMs);
    NumBytes(2, m.endTimestampMs);
    hide *;
  }

  method MarshalQuery(m: Query, dAtA: array<Byte>, end: nat) returns (n: nat)
    requires |EncQuery(m)| <= end <= dAtA.Length < W63
    modifies dAtA
    ensures n == |EncQuery(m)| && Filled(old(dAtA[..]), dAtA[..], end - n, end, EncQuery(m))
  {
    hide *;
    ghost var o := dAtA[..];
    QueryRoom(m);
    ghost var f1, f2 := EncFields(NumField(1, m.startTimestampMs)), EncFields(NumField(2, m.endTimestampMs));
    ghost var f3 := EncFields(Blocks(3, EncLabelMatcher, m.matchers));
    var i := PutLabelMatcherList(m.matchers, dAtA, end, 3);
    ghost var a, s1 := dAtA[..], i;
    FilledLength(o, a, s1, end, f3);
    i := PutNumField(dAtA, i, 2, m.endTimestampMs);
    ghost var b, s2 := dAtA[..], i;
    FilledLength(a, b, s2, s1, f2);
    i := PutNumField(dAtA, i, 1, m.startTimestampMs);
    FilledThrice(o, a, b, dAtA[..], s1, s2, i, end, f1, f2, f3);
    n := end - i;
  }

  lemma FilledThrice(o: Bytes, a: Bytes, b: Bytes, c: Bytes, s1: nat, s2: nat, s3: nat, end: nat, f1: Bytes, f2: Bytes,
                     f3: Bytes)
    requires Filled(o, a, s1, end, f3) && Filled(a, b, s2, s1, f2) && Filled(b, c, s3, s2, f1)
    ensures Filled(o, c, s3, end, f1 + (f2 + f3)) && s3 + |f1 + (f2 + f3)| == end
  {
    hide *;
    FilledBefore(o, a, b, s2, s1, end, f2, f3);
    FilledBefore(o, b, c, s3, s2, end, f1, f2 + f3);
    FilledLength(o, c, s3, end, f1 + (f2 + f3));
  }

  /** One turn of a loop over a repeated Query field: the message, its length and the tag. */
  method PutQuery(m: Query, dAtA: array<Byte>, end: nat, num: nat) returns (i: nat)
    requires 1 <= num <= 15 && 1 + Sov(|EncQuery(m)|) + |EncQuery(m)| <= end <= dAtA.Length < W63
    modifies dAtA
    ensures Filled(old(dAtA[..]), dAtA[..], i, end, BlockBytes(num, EncQuery(m)))
  {
    hide EncQuery, EncVarint, Sov, Filled;
    ghost var o := dAtA[..];
    var size := MarshalQuery(m, dAtA, end);
    i := end - size;
    ghost var a, s1 := dAtA[..], i;
    i := PutBlockHeader(dAtA, i, num, size);
    FilledBefore(o, a, dAtA[..], i, s1, end, [8 * num + 2] + EncVarint(size), EncQuery(m));
  }

  /** The loop over a repeated Query field, the last element first. */
  method PutQueryList(xs: seq<Query>, dAtA: array<Byte>, end: nat, num: nat) returns (i: nat)
    requires 1 <= num <= 15 && |EncFields(Blocks(num, EncQuery, xs))| <= end <= dAtA.Length < W63
    modifies dAtA
    ensures Filled(old(dAtA[..]), dAtA[..], i, end, EncFields(Blocks(num, EncQuery, xs)))
  {
    hide EncQuery, EncFields, Blocks, Sov, Filled, Tail, BlockBytes;
    ghost var o := dAtA[..];
    TailEnds(num, EncQuery, xs);
    FilledNothing(o, end);
    i := end;
    var k: nat := |xs|;
    while k > 0
      invariant k <= |xs| && Filled(o, dAtA[..], i, end, Tail(num, EncQuery, xs, k))
    {
      ghost var a, s1, t := dAtA[..], i, Tail(num, EncQuery, xs, k);
      FilledLength(o, a, i, end, t);
      k := k - 1;
      TailStep(num, EncQuery, xs, k);
      i := PutQuery(xs[k], dAtA, i, num);
      FilledBefore(o, a, dAtA[..], i, s1, end, BlockBytes(num, EncQuery(xs[k])), t);
    }
  }

  method MarshalReadRequest(m: ReadRequest, dAtA: array<Byte>, end: nat) returns (n: nat)
    requires |EncReadRequest(m)| <= end <= dAtA.Length < W63
    modifies dAtA
    ensures n == |EncReadRequest(m)| && Filled(old(dAtA[..]), dAtA[..], end - n, end, EncReadRequest(m))
  {
    hide EncFields, Filled, EncQuery, Blocks;
    ghost var o := dAtA[..];
    var i := PutQueryList(m.queries, dAtA, end, 1);
    FilledLength(o, dAtA[..], i, end, EncReadRequest(m));
    n := end - i;
  }

  method MarshalQueryResult(m: QueryResult, dAtA: array<Byte>, end: nat) returns (n: nat)
    requires |EncQueryResult(m)| <= end <= dAtA.Length < W63
    modifies dAtA
    ensures n == |EncQueryResult(m)| && Filled(old(dAtA[..]), dAtA[..], end - n, end, EncQueryResult(m))
  {
    hide EncFields, Filled, EncTimeSeries, Blocks;
    ghost var o := dAtA[..];
    var i := PutTimeSeriesList(m.timeseries, dAtA, end, 1);
    FilledLength(o, dAtA[..], i, end, EncQueryResult(m));
    n := end - i;
  }

  /** One turn of a loop over a repeated QueryResult field: the message, its length and the tag. */
  method PutQueryResult(m: QueryResult, dAtA: array<Byte>, end: nat, num: nat) returns (i: nat)
    requires 1 <= num <= 15 && 1 + Sov(|EncQueryResult(m)|) + |EncQueryResult(m)| <= end <= dAtA.Length < W63
    modifies dAtA
    ensures Filled(old(dAtA[..]), dAtA[..], i, end, BlockBytes(num, EncQueryResult(m)))
  {
    hide EncQueryResult, EncVarint, Sov, Filled;
    ghost var o := dAtA[..];
    var size := MarshalQueryResult(m, dAtA, end);
    i := end - size;
    ghost var a, s1 := dAtA[..], i;
    i := PutBlockHeader(dAtA, i, num, size);
    FilledBefore(o, a, dAtA[..], i, s1, end, [8 * num + 2] + EncVarint(size), EncQueryResult(m));
  }

  /** The loop over a repeated QueryResult field, the last element first. */
  method PutQueryResultList(xs: seq<QueryResult>, dAtA: array<Byte>, end: nat, num: nat) returns (i: nat)
    requires 1 <= num <= 15 && |EncFields(Blocks(num, EncQueryResult, xs))| <= end <= dAtA.Length < W63
    modifies dAtA
    ensures Filled(old(dAtA[..]), dAtA[..], i, end, EncFields(Blocks(num, EncQueryResult, xs)))
  {
    hide EncQueryResult, EncFields, Blocks, Sov, Filled, Tail, BlockBytes;
    ghost var o := dAtA[..];
    TailEnds(num, EncQueryResult, xs);
    FilledNothing(o, end);
    i := end;
    var k: nat := |xs|;
    while k > 0
      invariant k <= |xs| && Filled(o, dAtA[..], i, end, Tail(num, EncQueryResult, xs, k))
    {
      ghost var a, s1, t := dAtA[..], i, Tail(num, EncQueryResult, xs, k);
      FilledLength(o, a, i, end, t);
      k := k - 1;
      TailStep(num, EncQueryResult, xs, k);
      i := PutQueryResult(xs[k], dAtA, i, num);
      FilledBefore(o, a, dAtA[..], i, s1, end, BlockBytes(num, EncQueryResult(xs[k])), t);
    }
  }

  method MarshalReadResponse(m: ReadResponse, dAtA: array<Byte>, end: nat) returns (n: nat)
    requires |EncReadResponse(m)| <= end <= dAtA.Length < W63
    modifies dAtA
    ensures n == |EncReadResponse(m)| && Filled(old(dAtA[..]), dAtA[..], end - n, end, EncReadResponse(m))
  {
    hide EncFields, Filled, EncQueryResult, Blocks;
    ghost var o := dAtA[..];
    var i := PutQueryResultList(m.results, dAtA, end, 1);
    FilledLength(o, dAtA[..], i, end, EncReadResponse(m));
    n := end - i;
  }

  /**
   * Marshal and Unmarshal of a write request: a buffer of Size() bytes is filled exactly, and reading it into an empty
   * request gives the request back when no sample of it is negative zero.
   */
  method WriteRequestThereAndBack(m: WriteRequest) returns (dAtA: array<Byte>, back: Result<WriteRequest, Error>)
    requires SizeWriteRequest(m) < W63
    ensures dAtA.Length == SizeWriteRequest(m) && dAtA[..] == EncWriteRequest(m)
    ensures back == Ok(m) <==> forall i | 0 <= i < |m.timeseries| :: Survives(m.timeseries[i])
  {
    hide *;
    WriteRequestBytes(m);
    WriteRequestRoundTrip(m);
    dAtA := new Byte[SizeWriteRequest(m)];
    ghost var o := dAtA[..];
    var n := MarshalWriteRequest(m, dAtA, dAtA.Length);
    FilledAll(o, dAtA[..], EncWriteRequest(m));
    back := Unmarshal(WriteRequestDesc(), WriteRequest([]), dAtA[..]);
  }
}
