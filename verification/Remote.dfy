/**
 * The messages of the Prometheus remote read and write protocol (service/prometheus/remote/remote.pb.go): what the
 * generated code prints for each, how it reads each back, and how the two fit together. Sample values are 64-bit
 * patterns of floats; strings are bytes, as they are in Go.
 */
module Remote {
  import opened Prelude
  import opened Wire

  type Int64 = x: int | -0x8000_0000_0000_0000 <= x < 0x8000_0000_0000_0000
  type Enum = x: int | -0x8000_0000 <= x < 0x8000_0000

  datatype Sample = Sample(value: Uint64, timestampMs: Int64)
  datatype LabelPair = LabelPair(name: Bytes, value: Bytes)
  datatype TimeSeries = TimeSeries(labels: seq<LabelPair>, samples: seq<Sample>)
  datatype WriteRequest = WriteRequest(timeseries: seq<TimeSeries>)
  datatype LabelMatcher = LabelMatcher(kind: Enum, name: Bytes, value: Bytes)
  datatype Query = Query(startTimestampMs: Int64, endTimestampMs: Int64, matchers: seq<LabelMatcher>)
  datatype ReadRequest = ReadRequest(queries: seq<Query>)
  datatype QueryResult = QueryResult(timeseries: seq<TimeSeries>)
  datatype ReadResponse = ReadResponse(results: seq<QueryResult>)

  // ---------- conversions of Go's fixed-width integers ----------

  function ToUint64(x: Int64): (v: Uint64)
    ensures ToInt64(v) == x
  {
    if x < 0 then x + W64 else x
  }

  function ToInt64(v: Uint64): Int64 {
    if v < W63 then v else v - W64
  }

  /** An int32 built by or-ing shifted bytes keeps the low 32 bits of the varint. */
  lemma EnumRoundTrip(x: Enum)
    ensures Int32(ToUint64(x)) == x
  {
  }

  /** The test m.Value != 0 on a float: false for zero and for negative zero. */
  predicate NonZero(bits: Uint64) { bits != 0 && bits != W63 }

  // ---------- printing ----------

  function NumField(num: nat, x: Int64): (fs: seq<Field>) {
    if x == 0 then [] else [Field(num, Num(ToUint64(x)))]
  }

  function BytesField(num: nat, b: Bytes): seq<Field> {
    if b == [] then [] else [Field(num, Block(b))]
  }

  /** One length-prefixed field for each element of a repeated field. */
  function Blocks<X>(num: nat, enc: X -> Bytes, xs: seq<X>): (fs: seq<Field>)
    ensures |fs| == |xs| && forall i | 0 <= i < |xs| :: fs[i] == Field(num, Block(enc(xs[i])))
  {
    seq(|xs|, i requires 0 <= i < |xs| => Field(num, Block(enc(xs[i]))))
  }

  function SampleFields(m: Sample): seq<Field> {
    (if NonZero(m.value) then [Field(1, Fixed(m.value))] else []) + NumField(2, m.timestampMs)
  }

  function LabelPairFields(m: LabelPair): seq<Field> {
    BytesField(1, m.name) + BytesField(2, m.value)
  }

  function EncSample(m: Sample): Bytes { EncFields(SampleFields(m)) }

  function EncLabelPair(m: LabelPair): Bytes { EncFields(LabelPairFields(m)) }

  function TimeSeriesFields(m: TimeSeries): seq<Field> {
    Blocks(1, EncLabelPair, m.labels) + Blocks(2, EncSample, m.samples)
  }

  function EncTimeSeries(m: TimeSeries): Bytes { EncFields(TimeSeriesFields(m)) }

  function WriteRequestFields(m: WriteRequest): seq<Field> { Blocks(1, EncTimeSeries, m.timeseries) }

  function EncWriteRequest(m: WriteRequest): Bytes { EncFields(WriteRequestFields(m)) }

  function LabelMatcherFields(m: LabelMatcher): seq<Field> {
    NumField(1, m.kind) + BytesField(2, m.name) + BytesField(3, m.value)
  }

  function EncLabelMatcher(m: LabelMatcher): Bytes { EncFields(LabelMatcherFields(m)) }

  function QueryFields(m: Query): seq<Field> {
    NumField(1, m.startTimestampMs) + NumField(2, m.endTimestampMs) + Blocks(3, EncLabelMatcher, m.matchers)
  }

  function EncQuery(m: Query): Bytes { EncFields(QueryFields(m)) }

  function ReadRequestFields(m: ReadRequest): seq<Field> { Blocks(1, EncQuery, m.queries) }

  function EncReadRequest(m: ReadRequest): Bytes { EncFields(ReadRequestFields(m)) }

  function QueryResultFields(m: QueryResult): seq<Field> { Blocks(1, EncTimeSeries, m.timeseries) }

  function EncQueryResult(m: QueryResult): Bytes { EncFields(QueryResultFields(m)) }

  function ReadResponseFields(m: ReadResponse): seq<Field> { Blocks(1, EncQueryResult, m.results) }

  function EncReadResponse(m: ReadResponse): Bytes { EncFields(ReadResponseFields(m)) }

  // ---------- reading ----------

  function SampleDesc(): Desc<Sample> {
    Desc(map[1 := 1, 2 := 0], (m: Sample, num: int, p: Payload) =>
      match p
      case Fixed(v) => Ok(m.(value := v))
      case Num(v) => Ok(m.(timestampMs := ToInt64(v)))
      case Block(_) => Err(WrongWireType))
  }

  function LabelPairDesc(): Desc<LabelPair> {
    Desc(map[1 := 2, 2 := 2], (m: LabelPair, num: int, p: Payload) =>
      match p
      case Block(b) => Ok(if num == 1 then m.(name := b) else m.(value := b))
      case _ => Err(WrongWireType))
  }

  const NO_SAMPLE := Sample(0, 0)
  const NO_LABEL := LabelPair([], [])
  const NO_SERIES := TimeSeries([], [])
  const NO_MATCHER := LabelMatcher(0, [], [])
  const NO_QUERY := Query(0, 0, [])
  const NO_RESULT := QueryResult([])

  /** An embedded message is read into a fresh one, which is appended to the list before it. */
  function Appended<X>(d: Desc<X>, none: X, xs: seq<X>, b: Bytes): Result<seq<X>, Error> {
    match Decode(d, none, b)
    case Ok(x) => Ok(xs + [x])
    case Err(e) => Err(e)
  }

  function TimeSeriesDesc(): Desc<TimeSeries> {
    Desc(map[1 := 2, 2 := 2], (m: TimeSeries, num: int, p: Payload) =>
      if !p.Block? then Err(WrongWireType)
      else if num == 1 then
        match Appended(LabelPairDesc(), NO_LABEL, m.labels, p.b)
        case Ok(xs) => Ok(m.(labels := xs))
        case Err(e) => Err(e)
      else
        match Appended(SampleDesc(), NO_SAMPLE, m.samples, p.b)
        case Ok(xs) => Ok(m.(samples := xs))
        case Err(e) => Err(e))
  }

  function WriteRequestDesc(): Desc<WriteRequest> {
    Desc(map[1 := 2], (m: WriteRequest, num: int, p: Payload) =>
      if !p.Block? then Err(WrongWireType)
      else
        match Appended(TimeSeriesDesc(), NO_SERIES, m.timeseries, p.b)
        case Ok(xs) => Ok(WriteRequest(xs))
        case Err(e) => Err(e))
  }

  function LabelMatcherDesc(): Desc<LabelMatcher> {
    Desc(map[1 := 0, 2 := 2, 3 := 2], (m: LabelMatcher, num: int, p: Payload) =>
      match p
      case Num(v) => Ok(m.(kind := Int32(v)))
      case Block(b) => Ok(if num == 2 then m.(name := b) else m.(value := b))
      case Fixed(_) => Err(WrongWireType))
  }

  function QueryDesc(): Desc<Query> {
    Desc(map[1 := 0, 2 := 0, 3 := 2], (m: Query, num: int, p: Payload) =>
      match p
      case Num(v) => Ok(if num == 1 then m.(startTimestampMs := ToInt64(v)) else m.(endTimestampMs := ToInt64(v)))
      case Block(b) =>
        (match Appended(LabelMatcherDesc(), NO_MATCHER, m.matchers, b)
         case Ok(xs) => Ok(m.(matchers := xs))
         case Err(e) => Err(e))
      case Fixed(_) => Err(WrongWireType))
  }

  function ReadRequestDesc(): Desc<ReadRequest> {
    Desc(map[1 := 2], (m: ReadRequest, num: int, p: Payload) =>
      if !p.Block? then Err(WrongWireType)
      else
        match Appended(QueryDesc(), NO_QUERY, m.queries, p.b)
        case Ok(xs) => Ok(ReadRequest(xs))
        case Err(e) => Err(e))
  }

  function QueryResultDesc(): Desc<QueryResult> {
    Desc(map[1 := 2], (m: QueryResult, num: int, p: Payload) =>
      if !p.Block? then Err(WrongWireType)
      else
        match Appended(TimeSeriesDesc(), NO_SERIES, m.timeseries, p.b)
        case Ok(xs) => Ok(QueryResult(xs))
        case Err(e) => Err(e))
  }

  function ReadResponseDesc(): Desc<ReadResponse> {
    Desc(map[1 := 2], (m: ReadResponse, num: int, p: Payload) =>
      if !p.Block? then Err(WrongWireType)
      else
        match Appended(QueryResultDesc(), NO_RESULT, m.results, p.b)
        case Ok(xs) => Ok(ReadResponse(xs))
        case Err(e) => Err(e))
  }

  // ---------- what comes back: negative zero becomes zero, nothing else changes ----------

  function MapAll<X>(f: X -> X, xs: seq<X>): (ys: seq<X>)
    ensures |ys| == |xs| && forall i | 0 <= i < |xs| :: ys[i] == f(xs[i])
  {
    if xs == [] then [] else [f(xs[0])] + MapAll(f, xs[1..])
  }

  function CanonSample(m: Sample): Sample { m.(value := if NonZero(m.value) then m.value else 0) }
  function CanonTimeSeries(m: TimeSeries): TimeSeries { m.(samples := MapAll(CanonSample, m.samples)) }
  function CanonWriteRequest(m: WriteRequest): WriteRequest { WriteRequest(MapAll(CanonTimeSeries, m.timeseries)) }
  function CanonQueryResult(m: QueryResult): QueryResult { QueryResult(MapAll(CanonTimeSeries, m.timeseries)) }
  function CanonReadResponse(m: ReadResponse): ReadResponse { ReadResponse(MapAll(CanonQueryResult, m.results)) }

  // ---------- round trips ----------

  /** The pieces a message is printed from are read back one list after the other. */
  lemma DecodeTwo<M>(d: Desc<M>, m: M, a: seq<Field>, b: seq<Field>)
    requires Readable(d, a) && Readable(d, b)
    requires PutAll(d, m, a).Ok? && PutAll(d, PutAll(d, m, a).value, b).Ok?
    ensures Decode(d, m, EncFields(a + b)) == PutAll(d, PutAll(d, m, a).value, b)
  {
    PutAllConcat(d, m, a, b);
    hide PutAll, Decode, EncFields;
    assert Readable(d, a + b);
    DecodeFieldsBack(d, m, a + b);
  }

  /** Any part of the fields of a message that fits in memory has only blocks whose lengths are ints. */
  lemma PartSized(a: seq<Field>, b: seq<Field>, c: seq<Field>)
    requires |EncFields(a + b + c)| < W63
    ensures forall i | 0 <= i < |b| :: Sized(b[i].payload)
  {
    hide EncFields, Sized;
    AllSized(a + b + c);
    forall i | 0 <= i < |b| ensures Sized(b[i].payload) {
      assert (a + b + c)[|a| + i] == b[i];
    }
  }

  /** The fields of a repeated message field, where there is room for them: readable, and each message sized. */
  lemma BlocksReadable<M, X>(d: Desc<M>, num: nat, enc: X -> Bytes, xs: seq<X>)
    requires 0 < num < 0x8000_0000 && num in d.wires && d.wires[num] == 2
    requires forall i | 0 <= i < |xs| :: Sized(Blocks(num, enc, xs)[i].payload)
    ensures Readable(d, Blocks(num, enc, xs))
    ensures forall i | 0 <= i < |xs| :: |enc(xs[i])| < W63
  {
    var fs := Blocks(num, enc, xs);
    forall i | 0 <= i < |xs| ensures |enc(xs[i])| < W63 {
      assert Sized(fs[i].payload);
    }
  }

  /**
   * Storing the elements of a repeated field, one after the other, where storing one appends its canonical form to the
   * list that add makes a message of.
   */
  lemma {:induction false} PutRepeated<M, X(!new)>(
      d: Desc<M>, num: nat, enc: X -> Bytes, canon: X -> X, add: seq<X> -> M, acc: seq<X>, xs: seq<X>)
    requires forall ys: seq<X>, i | 0 <= i < |xs| ::
      d.put(add(ys), num, Block(enc(xs[i]))) == Ok(add(ys + [canon(xs[i])]))
    ensures PutAll(d, add(acc), Blocks(num, enc, xs)) == Ok(add(acc + MapAll(canon, xs)))
    decreases |xs|
  {
    if xs == [] {
      assert acc + MapAll(canon, xs) == acc;
    } else {
      var more := acc + [canon(xs[0])];
      forall ys: seq<X>, i | 0 <= i < |xs[1..]|
        ensures d.put(add(ys), num, Block(enc(xs[1..][i]))) == Ok(add(ys + [canon(xs[1..][i])]))
      {
        assert xs[1..][i] == xs[i + 1];
      }
      PutRepeated(d, num, enc, canon, add, more, xs[1..]);
      assert Blocks(num, enc, xs)[1..] == Blocks(num, enc, xs[1..]);
      Regroup(acc, [canon(xs[0])], MapAll(canon, xs[1..]));
    }
  }

  function Same<X>(x: X): X { x }

  lemma {:induction false} MapSame<X>(xs: seq<X>)
    ensures MapAll(Same, xs) == xs
  {
  }

  lemma SampleRoundTrip(m: Sample)
    ensures Decode(SampleDesc(), NO_SAMPLE, EncSample(m)) == Ok(CanonSample(m))
  {
    hide EncFields, Decode;
    var a := if NonZero(m.value) then [Field(1, Fixed(m.value))] else [];
    DecodeTwo(SampleDesc(), NO_SAMPLE, a, NumField(2, m.timestampMs));
  }

  /** All the blocks among the fields of a message that fits in memory have lengths that are ints. */
  lemma AllSized(fs: seq<Field>)
    requires |EncFields(fs)| < W63
    ensures forall i | 0 <= i < |fs| :: Sized(fs[i].payload)
  {
    hide EncFields;
    forall i | 0 <= i < |fs| ensures Sized(fs[i].payload) {
      if fs[i].payload.Block? {
        BlockFits(fs, i);
      }
    }
  }

  lemma LabelPairRoundTrip(m: LabelPair)
    requires |EncLabelPair(m)| < W63
    ensures Decode(LabelPairDesc(), NO_LABEL, EncLabelPair(m)) == Ok(m)
  {
    hide EncFields, Decode;
    AllSized(LabelPairFields(m));
    var a, b := BytesField(1, m.name), BytesField(2, m.value);
    assert forall i | 0 <= i < |a| :: a[i] == LabelPairFields(m)[i];
    assert forall i | 0 <= i < |b| :: b[i] == LabelPairFields(m)[|a| + i];
    DecodeTwo(LabelPairDesc(), NO_LABEL, a, b);
  }

  lemma PutLabels(xs: seq<LabelPair>)
    requires forall i | 0 <= i < |xs| :: |EncLabelPair(xs[i])| < W63
    ensures PutAll(TimeSeriesDesc(), TimeSeries([], []), Blocks(1, EncLabelPair, xs)) == Ok(TimeSeries(xs, []))
  {
    hide EncLabelPair, Decode, PutAll, LabelPairDesc;
    var add := (ys: seq<LabelPair>) => TimeSeries(ys, []);
    forall ys: seq<LabelPair>, i | 0 <= i < |xs|
      ensures TimeSeriesDesc().put(add(ys), 1, Block(EncLabelPair(xs[i]))) == Ok(add(ys + [Same(xs[i])]))
    {
      LabelPairRoundTrip(xs[i]);
      assert Appended(LabelPairDesc(), NO_LABEL, ys, EncLabelPair(xs[i])) == Ok(ys + [Same(xs[i])]);
    }
    PutRepeated(TimeSeriesDesc(), 1, EncLabelPair, Same, add, [], xs);
    MapSame(xs);
    assert [] + xs == xs;
  }

  lemma PutSamples(labels: seq<LabelPair>, xs: seq<Sample>)
    requires forall i | 0 <= i < |xs| :: |EncSample(xs[i])| < W63
    ensures PutAll(TimeSeriesDesc(), TimeSeries(labels, []), Blocks(2, EncSample, xs))
      == Ok(TimeSeries(labels, MapAll(CanonSample, xs)))
  {
    hide EncSample, Decode, PutAll, SampleDesc, CanonSample;
    var add := (ys: seq<Sample>) => TimeSeries(labels, ys);
    forall ys: seq<Sample>, i | 0 <= i < |xs|
      ensures TimeSeriesDesc().put(add(ys), 2, Block(EncSample(xs[i]))) == Ok(add(ys + [CanonSample(xs[i])]))
    {
      SampleRoundTrip(xs[i]);
      assert Appended(SampleDesc(), NO_SAMPLE, ys, EncSample(xs[i])) == Ok(ys + [CanonSample(xs[i])]);
    }
    PutRepeated(TimeSeriesDesc(), 2, EncSample, CanonSample, add, [], xs);
    assert [] + MapAll(CanonSample, xs) == MapAll(CanonSample, xs);
  }

  lemma TimeSeriesRoundTrip(m: TimeSeries)
    requires |EncTimeSeries(m)| < W63
    ensures Decode(TimeSeriesDesc(), NO_SERIES, EncTimeSeries(m)) == Ok(CanonTimeSeries(m))
  {
    hide EncFields, Decode, PutAll, EncLabelPair, EncSample, CanonSample, Blocks, Sized, Readable;
    var a, b := Blocks(1, EncLabelPair, m.labels), Blocks(2, EncSample, m.samples);
    assert [] + a + b == a + b && a + b + [] == a + b;
    PartSized([], a, b);
    PartSized(a, b, []);
    BlocksReadable(TimeSeriesDesc(), 1, EncLabelPair, m.labels);
    BlocksReadable(TimeSeriesDesc(), 2, EncSample, m.samples);
    var canon := MapAll(CanonSample, m.samples);
    assert [] + m.labels == m.labels && [] + canon == canon;
    PutLabels(m.labels);
    PutSamples(m.labels, m.samples);
    DecodeTwo(TimeSeriesDesc(), NO_SERIES, a, b);
  }

  lemma PutTimeSeries(xs: seq<TimeSeries>)
    requires forall i | 0 <= i < |xs| :: |EncTimeSeries(xs[i])| < W63
    ensures PutAll(WriteRequestDesc(), WriteRequest([]), Blocks(1, EncTimeSeries, xs))
      == Ok(WriteRequest(MapAll(CanonTimeSeries, xs)))
  {
    hide EncTimeSeries, Decode, PutAll, TimeSeriesDesc, CanonTimeSeries;
    var add := (ys: seq<TimeSeries>) => WriteRequest(ys);
    forall ys: seq<TimeSeries>, i | 0 <= i < |xs|
      ensures WriteRequestDesc().put(add(ys), 1, Block(EncTimeSeries(xs[i]))) == Ok(add(ys + [CanonTimeSeries(xs[i])]))
    {
      TimeSeriesRoundTrip(xs[i]);
      assert Appended(TimeSeriesDesc(), NO_SERIES, ys, EncTimeSeries(xs[i])) == Ok(ys + [CanonTimeSeries(xs[i])]);
    }
    PutRepeated(WriteRequestDesc(), 1, EncTimeSeries, CanonTimeSeries, add, [], xs);
    assert [] + MapAll(CanonTimeSeries, xs) == MapAll(CanonTimeSeries, xs);
  }

  lemma WriteRequestRoundTripCanon(m: WriteRequest)
    requires |EncWriteRequest(m)| < W63
    ensures Decode(WriteRequestDesc(), WriteRequest([]), EncWriteRequest(m)) == Ok(CanonWriteRequest(m))
  {
    hide EncFields, Decode, PutAll, EncTimeSeries, Blocks, Sized, Readable, CanonTimeSeries;
    AllSized(WriteRequestFields(m));
    BlocksReadable(WriteRequestDesc(), 1, EncTimeSeries, m.timeseries);
    assert [] + MapAll(CanonTimeSeries, m.timeseries) == MapAll(CanonTimeSeries, m.timeseries);
    PutTimeSeries(m.timeseries);
    DecodeFieldsBack(WriteRequestDesc(), WriteRequest([]), WriteRequestFields(m));
  }

  lemma PutResultSeries(xs: seq<TimeSeries>)
    requires forall i | 0 <= i < |xs| :: |EncTimeSeries(xs[i])| < W63
    ensures PutAll(QueryResultDesc(), QueryResult([]), Blocks(1, EncTimeSeries, xs))
      == Ok(QueryResult(MapAll(CanonTimeSeries, xs)))
  {
    hide EncTimeSeries, Decode, PutAll, TimeSeriesDesc, CanonTimeSeries;
    var add := (ys: seq<TimeSeries>) => QueryResult(ys);
    forall ys: seq<TimeSeries>, i | 0 <= i < |xs|
      ensures QueryResultDesc().put(add(ys), 1, Block(EncTimeSeries(xs[i]))) == Ok(add(ys + [CanonTimeSeries(xs[i])]))
    {
      TimeSeriesRoundTrip(xs[i]);
      assert Appended(TimeSeriesDesc(), NO_SERIES, ys, EncTimeSeries(xs[i])) == Ok(ys + [CanonTimeSeries(xs[i])]);
    }
    PutRepeated(QueryResultDesc(), 1, EncTimeSeries, CanonTimeSeries, add, [], xs);
    assert [] + MapAll(CanonTimeSeries, xs) == MapAll(CanonTimeSeries, xs);
  }

  lemma QueryResultRoundTripCanon(m: QueryResult)
    requires |EncQueryResult(m)| < W63
    ensures Decode(QueryResultDesc(), NO_RESULT, EncQueryResult(m)) == Ok(CanonQueryResult(m))
  {
    hide EncFields, Decode, PutAll, EncTimeSeries, Blocks, Sized, Readable, CanonTimeSeries;
    AllSized(QueryResultFields(m));
    BlocksReadable(QueryResultDesc(), 1, EncTimeSeries, m.timeseries);
    assert [] + MapAll(CanonTimeSeries, m.timeseries) == MapAll(CanonTimeSeries, m.timeseries);
    PutResultSeries(m.timeseries);
    DecodeFieldsBack(QueryResultDesc(), NO_RESULT, QueryResultFields(m));
  }

  lemma PutResults(xs: seq<QueryResult>)
    requires forall i | 0 <= i < |xs| :: |EncQueryResult(xs[i])| < W63
    ensures PutAll(ReadResponseDesc(), ReadResponse([]), Blocks(1, EncQueryResult, xs))
      == Ok(ReadResponse(MapAll(CanonQueryResult, xs)))
  {
    hide EncQueryResult, Decode, PutAll, QueryResultDesc, CanonQueryResult;
    var add := (ys: seq<QueryResult>) => ReadResponse(ys);
    forall ys: seq<QueryResult>, i | 0 <= i < |xs|
      ensures ReadResponseDesc().put(add(ys), 1, Block(EncQueryResult(xs[i])))
        == Ok(add(ys + [CanonQueryResult(xs[i])]))
    {
      QueryResultRoundTripCanon(xs[i]);
      assert Appended(QueryResultDesc(), NO_RESULT, ys, EncQueryResult(xs[i])) == Ok(ys + [CanonQueryResult(xs[i])]);
    }
    PutRepeated(ReadResponseDesc(), 1, EncQueryResult, CanonQueryResult, add, [], xs);
    assert [] + MapAll(CanonQueryResult, xs) == MapAll(CanonQueryResult, xs);
  }

  lemma ReadResponseRoundTripCanon(m: ReadResponse)
    requires |EncReadResponse(m)| < W63
    ensures Decode(ReadResponseDesc(), ReadResponse([]), EncReadResponse(m)) == Ok(CanonReadResponse(m))
  {
    hide EncFields, Decode, PutAll, EncQueryResult, Blocks, Sized, Readable, CanonQueryResult;
    AllSized(ReadResponseFields(m));
    BlocksReadable(ReadResponseDesc(), 1, EncQueryResult, m.results);
    assert [] + MapAll(CanonQueryResult, m.results) == MapAll(CanonQueryResult, m.results);
    PutResults(m.results);
    DecodeFieldsBack(ReadResponseDesc(), ReadResponse([]), ReadResponseFields(m));
  }

  lemma StoreOne<M>(d: Desc<M>, m: M, f: Field)
    ensures PutAll(d, m, [f]) == d.put(m, f.num, f.payload)
  {
  }

  lemma MatcherStored(m: LabelMatcher)
    ensures PutAll(LabelMatcherDesc(), NO_MATCHER, LabelMatcherFields(m)) == Ok(m)
  {
    hide EncFields, Decode;
    EnumRoundTrip(m.kind);
    var d := LabelMatcherDesc();
    var a, b, c := NumField(1, m.kind), BytesField(2, m.name), BytesField(3, m.value);
    var m1 := LabelMatcher(m.kind, [], []);
    var m2 := LabelMatcher(m.kind, m.name, []);
    if m.kind != 0 {
      StoreOne(d, NO_MATCHER, a[0]);
    }
    if m.name != [] {
      StoreOne(d, m1, b[0]);
    }
    if m.value != [] {
      StoreOne(d, m2, c[0]);
    }
    assert PutAll(d, NO_MATCHER, a) == Ok(m1);
    assert PutAll(d, m1, b) == Ok(m2);
    assert PutAll(d, m2, c) == Ok(m);
    PutAllConcat(d, NO_MATCHER, a, b);
    PutAllConcat(d, NO_MATCHER, a + b, c);
  }

  lemma LabelMatcherRoundTrip(m: LabelMatcher)
    requires |EncLabelMatcher(m)| < W63
    ensures Decode(LabelMatcherDesc(), NO_MATCHER, EncLabelMatcher(m)) == Ok(m)
  {
    hide EncFields, Decode, PutAll;
    AllSized(LabelMatcherFields(m));
    MatcherStored(m);
    assert Readable(LabelMatcherDesc(), LabelMatcherFields(m));
    DecodeFieldsBack(LabelMatcherDesc(), NO_MATCHER, LabelMatcherFields(m));
  }

  lemma PutMatchers(head: Query, xs: seq<LabelMatcher>)
    requires forall i | 0 <= i < |xs| :: |EncLabelMatcher(xs[i])| < W63
    ensures PutAll(QueryDesc(), head.(matchers := []), Blocks(3, EncLabelMatcher, xs)) == Ok(head.(matchers := xs))
  {
    hide EncLabelMatcher, Decode, PutAll, LabelMatcherDesc;
    var add := (ys: seq<LabelMatcher>) => head.(matchers := ys);
    forall ys: seq<LabelMatcher>, i | 0 <= i < |xs|
      ensures QueryDesc().put(add(ys), 3, Block(EncLabelMatcher(xs[i]))) == Ok(add(ys + [Same(xs[i])]))
    {
      LabelMatcherRoundTrip(xs[i]);
      assert Appended(LabelMatcherDesc(), NO_MATCHER, ys, EncLabelMatcher(xs[i])) == Ok(ys + [Same(xs[i])]);
    }
    PutRepeated(QueryDesc(), 3, EncLabelMatcher, Same, add, [], xs);
    MapSame(xs);
    assert [] + xs == xs;
  }

  lemma QueryHead(m: Query)
    ensures
      var head := NumField(1, m.startTimestampMs) + NumField(2, m.endTimestampMs);
      && Readable(QueryDesc(), head)
      && PutAll(QueryDesc(), NO_QUERY, head) == Ok(m.(matchers := []))
  {
    PutAllConcat(QueryDesc(), NO_QUERY, NumField(1, m.startTimestampMs), NumField(2, m.endTimestampMs));
  }

  lemma QueryRoundTrip(m: Query)
    requires |EncQuery(m)| < W63
    ensures Decode(QueryDesc(), NO_QUERY, EncQuery(m)) == Ok(m)
  {
    hide EncFields, Decode, PutAll, EncLabelMatcher, Blocks, Sized, Readable, NumField;
    var a, b := NumField(1, m.startTimestampMs) + NumField(2, m.endTimestampMs), Blocks(3, EncLabelMatcher, m.matchers);
    assert a + b + [] == a + b;
    PartSized(a, b, []);
    BlocksReadable(QueryDesc(), 3, EncLabelMatcher, m.matchers);
    assert [] + m.matchers == m.matchers;
    QueryHead(m);
    PutMatchers(m, m.matchers);
    DecodeTwo(QueryDesc(), NO_QUERY, a, b);
  }

  lemma PutQueries(xs: seq<Query>)
    requires forall i | 0 <= i < |xs| :: |EncQuery(xs[i])| < W63
    ensures PutAll(ReadRequestDesc(), ReadRequest([]), Blocks(1, EncQuery, xs)) == Ok(ReadRequest(xs))
  {
    hide EncQuery, Decode, PutAll, QueryDesc;
    var add := (ys: seq<Query>) => ReadRequest(ys);
    forall ys: seq<Query>, i | 0 <= i < |xs|
      ensures ReadRequestDesc().put(add(ys), 1, Block(EncQuery(xs[i]))) == Ok(add(ys + [Same(xs[i])]))
    {
      QueryRoundTrip(xs[i]);
      assert Appended(QueryDesc(), NO_QUERY, ys, EncQuery(xs[i])) == Ok(ys + [Same(xs[i])]);
    }
    PutRepeated(ReadRequestDesc(), 1, EncQuery, Same, add, [], xs);
    MapSame(xs);
    assert [] + xs == xs;
  }

  lemma ReadRequestRoundTrip(m: ReadRequest)
    requires |EncReadRequest(m)| < W63
    ensures Decode(ReadRequestDesc(), ReadRequest([]), EncReadRequest(m)) == Ok(m)
  {
    hide EncFields, Decode, PutAll, EncQuery, Blocks, Sized, Readable;
    AllSized(ReadRequestFields(m));
    BlocksReadable(ReadRequestDesc(), 1, EncQuery, m.queries);
    assert [] + m.queries == m.queries;
    PutQueries(m.queries);
    DecodeFieldsBack(ReadRequestDesc(), ReadRequest([]), ReadRequestFields(m));
  }

  // ---------- exactly which messages survive ----------

  predicate Survives(m: TimeSeries) { forall i | 0 <= i < |m.samples| :: m.samples[i].value != W63 }

  lemma CanonSeriesExact(m: TimeSeries)
    ensures CanonTimeSeries(m) == m <==> Survives(m)
  {
    if Survives(m) {
      assert MapAll(CanonSample, m.samples) == m.samples;
    } else {
      var i :| 0 <= i < |m.samples| && m.samples[i].value == W63;
      assert MapAll(CanonSample, m.samples)[i] != m.samples[i];
    }
  }

  lemma CanonAllSeriesExact(xs: seq<TimeSeries>)
    ensures MapAll(CanonTimeSeries, xs) == xs <==> forall i | 0 <= i < |xs| :: Survives(xs[i])
  {
    forall i | 0 <= i < |xs| ensures CanonTimeSeries(xs[i]) == xs[i] <==> Survives(xs[i]) {
      CanonSeriesExact(xs[i]);
    }
    if forall i | 0 <= i < |xs| :: Survives(xs[i]) {
      assert MapAll(CanonTimeSeries, xs) == xs;
    } else {
      var i :| 0 <= i < |xs| && !Survives(xs[i]);
      assert MapAll(CanonTimeSeries, xs)[i] != xs[i];
    }
  }

  /**
   * A write request of any size that Go can hold is read back as it was, negative timestamps included, exactly when
   * none of its samples is negative zero.
   */
  lemma WriteRequestRoundTrip(m: WriteRequest)
    requires |EncWriteRequest(m)| < W63
    ensures
      Decode(WriteRequestDesc(), WriteRequest([]), EncWriteRequest(m)) == Ok(m)
      <==> forall i | 0 <= i < |m.timeseries| :: Survives(m.timeseries[i])
  {
    hide EncWriteRequest, Decode, Survives;
    WriteRequestRoundTripCanon(m);
    CanonAllSeriesExact(m.timeseries);
  }

  /** The same of a read response, through three levels of repeated messages. */
  lemma ReadResponseRoundTrip(m: ReadResponse)
    requires |EncReadResponse(m)| < W63
    ensures
      Decode(ReadResponseDesc(), ReadResponse([]), EncReadResponse(m)) == Ok(m)
      <==>
      forall r, i | 0 <= r < |m.results| && 0 <= i < |m.results[r].timeseries| :: Survives(m.results[r].timeseries[i])
  {
    hide EncReadResponse, Decode, Survives;
    ReadResponseRoundTripCanon(m);
    forall r | 0 <= r < |m.results|
      ensures CanonQueryResult(m.results[r]) == m.results[r]
        <==> forall i | 0 <= i < |m.results[r].timeseries| :: Survives(m.results[r].timeseries[i])
    {
      CanonAllSeriesExact(m.results[r].timeseries);
    }
    var canon := MapAll(CanonQueryResult, m.results);
    if forall r | 0 <= r < |m.results| :: CanonQueryResult(m.results[r]) == m.results[r] {
      assert canon == m.results;
    } else {
      var r :| 0 <= r < |m.results| && CanonQueryResult(m.results[r]) != m.results[r];
      assert canon[r] != m.results[r];
    }
  }
}
