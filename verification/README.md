# A verified model of influx-proxy

influx-proxy sits in front of several InfluxDB servers. It shards points over the backends of one or more circles,
keeps what a backend cannot take in a log on disk and replays it later, answers queries by finding the shard that a
measurement lives on, speaks the Prometheus remote protocol, and can move measurements between shards. This project
models those parts in Dafny and proves what they are for.

`dafny verify dfyconfig.toml` checks all of it.

## The parts

**The backlog** (`Record`, `Backlog`, `Protocol`, `Crashes`, `Liveness`, `Batching`). A backend's worker gathers lines
into batches. A batch that cannot be delivered is appended to a file as a 32-bit length and a record; one rewrite loop
reads the oldest record, sends it, and commits or rolls back an offset kept in a second file. `Record` is the text of a
record and its framing, `Backlog` the file operations as functions on a `FileState` and as the classes `FileBackend`
and `Backend`, and `Batching` the worker's buffers. `Protocol` is the same backlog as a step machine: pool tasks
appending byte by byte, the worker, any number of rewrite loops, and crashes, interleaved at every file operation, with
a history of what was appended and what got a final verdict. Its invariant is kept by every step but three, and those
three are named exactly (`Protocol.Safe`): a crash with a frame partly written, a crash between truncating the log and
storing the offset while an old offset is in the file, and a rollback when the offset file is still empty. Lemmas show
what each of the three does, `Crashes` has the runs from empty files that lead to the two crashes, and `Liveness` says
from where a pending record can still be committed.

**The Prometheus messages** (`Wire`, `Remote`, `RemoteFields`, `RemoteCodec`, `RemoteMarshal`). `Wire` is the encoding of varints,
fields and groups (Protocol Buffers encoding specification, sections "Base 128 Varints" and "Message Structure"),
`Remote` the nine messages with what the generated code prints and how it reads it back, `RemoteFields` what each field
number of each message means in bytes and which tags are passed over or refused, `RemoteCodec` the reading loops over an
index, and `RemoteMarshal` the methods that fill a pre-sized array from its end. A float is its 64-bit
pattern.

**Finding the shard** (`Escape`, `Quote`, `InfluxQL`, `Subquery`, `Qualified`, `Statements`, `Backslash`, `Nesting`,
`Lookups`, `Flux`, `Bucket`, `LineProto`, `Lines`, `Routing`, `Storing`, `Keys`). Points in line protocol, InfluxQL queries and
Flux queries each go through their own scanner, and all have to come to the same key. The scanners are functions on
text, with the loops of the source proved equal to them, and the theorems say for exactly which measurements and
buckets they agree. `Lookups` says exactly what is found in an InfluxQL query, over `Backslash` for names with
backslashes and `Nesting` for subqueries, and `Statements` what is found in statements of other kinds; `Storing` goes from the body of a write to the lines that are stored; and
`Keys` puts database and measurement together. Equal keys have equal homes, because a home is a function of the key.
Text is Go's: one `char` stands for one byte. The consistent-hash ring is any fixed function of its labels and the key.

**Moving data** (`Transfer`, `Rebalance`, `Resync`, `Paging`, `Progress`, `RowFormat`, `RowReader`). `Transfer` is a step machine
over everything that all backends hold, in which measurements are listed and rows reach each destination in any order,
or are lost on the way; its theorems give the outcome of every complete run, and of every run that is reported as done.
`Rebalance` and `Resync` apply it to the four operations, `Paging` has the loops that read pages and write batches,
`RowFormat` the lines they write, and `RowReader` what a reader of line protocol finds in them.

**Queries over many backends** (`Executor`). Which backend is asked, and how the answers of many are merged.

Properties that turned out to need a condition are stated with it, as an equivalence where one could be had:
measurements with a backslash are not found again (`LineProto.ScanKeyExact`, `Backslash.IdentExact`,
`Flux.FilterExact`), those with a newline are cut by a write and those that begin with `#` dropped as comments
(`Storing.StoredExact`, `Keys.LanguagesAgree`), and those with unbalanced parentheses are not found under subqueries
(`Nesting.NestedExact`); a Flux query of a bucket that names a retention policy has another key than the points written
to that bucket, unless keys are made of measurements alone (`Keys.KeysAgree`); a converted timestamp is right as long
as the product fits 64 bits (`LineProto.NanoConverted`); a negative-zero sample comes back as zero
(`Remote.WriteRequestRoundTrip`); a first failed send on a fresh offset file loses a record
(`Backlog.FreshRecLosesRecord`); a transfer is reported as done although writes were given up
(`Transfer.ReportedExact`), and then, or when a backend was inactive or a database left out, a cleanup after a
rebalance can lose points (`Rebalance.ReportedConserved`, `Rebalance.Conserved`); a resync leaves the circles apart in
the same cases (`Resync.ResyncExact`); a negative timestamp is not seen as one (`RowFormat.RowTime`); a row is read back as its columns unless a
name or a tag ends in a backslash (`RowReader.RowReadExact`); and a row with a backslash at the end of its tags can be cut inside a string (`RowFormat.BackslashTagCuts`).

Where comments and code differ, the model follows the code. The branch of `FindEndWithQuote` that is to report an
unmatched quote behind a final backslash (`backend/influxql.go:54`) can never be taken, and the next line runs out of
range instead: that is `Quote.Panic`. `RapidCheck` says that it looks for the last unescaped space, and takes the last
space of any kind (`backend/lineproto.go:109-117`).

## Model

| member | source | states |
|---|---|---|
| `Record.ParseJoin` | backend/backend.go:190-259 | What a pool task joins with spaces, a rewrite splits into the same database, policy and payload, for every text and every payload, spaces included |
| `Record.EscapeHasNoSpace` | backend/backend.go:190 | An escaped name never contains the separator |
| `Record.EscapeBytes` | backend/backend.go:190 | Names are escaped byte by byte: letters, digits and four signs stay, a space becomes a plus, the rest hexadecimal |
| `Record.UnescapeEscape` | backend/backend.go:250-255 | Unescaping gives back every name byte for byte |
| `Record.FramePrefixFree` | backend/file.go:62-69 | No frame is the start of another frame's log: what follows a record in the log does not change which record it is |
| `Record.FrameAllInjective` | backend/file.go:58-113 | A log is the log of one list of records only |
| `Record.TornTailIsNoLog` | backend/file.go:62-76 | A log that ends inside a frame is the log of no list of records |
| `Backlog.HoldsOneQueue` | backend/file.go:58-113 | The bytes and the offsets alone decide which records are finished and which are pending |
| `Backlog.WriteEnqueues` | backend/file.go:58-86 | A write puts one record at the end of the queue and changes nothing else |
| `Backlog.ReadTakesOldest` | backend/file.go:94-113 | A read returns the oldest pending record, whole, and stops at the end of its frame |
| `Backlog.FramedReadExact` | backend/file.go:62-113 | A framed record is read back as it was exactly when it is shorter than 2^32 bytes |
| `Backlog.JoinIsGood` | backend/backend.go:190-191 | The records that pool tasks write can all be read and split, exactly up to the 32-bit length |
| `Backlog.UpdateDequeues` | backend/file.go:142-213 | A commit removes exactly the oldest record; committing the last one truncates the log and starts over |
| `Backlog.RewriteStep` | backend/backend.go:235-285 | One rewrite offers the oldest record as it was queued; when it is accepted, a bad request or not found it is removed and nothing else; any other failure changes nothing if and only if the offset file has been written |
| `Backlog.FailureOnFreshRecSkips` | backend/file.go:125-132 | With an empty offset file a failed send leaves the reader behind the record, and the state holds no queue any more |
| `Backlog.FreshRecLosesRecord` | backend/file.go:125-132 | Two records and one failed send on a fresh backend end with an empty log although the first record was never accepted |
| `Backlog.OpenResumes` | backend/file.go:26-56 | Reopening the files of a backlog at rest gives the same queue at the same place |
| `Backlog.FileBackend.constructor` | backend/file.go:26-56 | Opens on whatever two files are there, with the data flag set when unread bytes are |
| `Backlog.FileBackend.WriteRecord` | backend/file.go:58-86 | The method does what the queue lemmas say of a write |
| `Backlog.FileBackend.ReadRecord` | backend/file.go:94-113 | The method reads as the queue lemmas say, errors and their effect on the handle included |
| `Backlog.FileBackend.RollbackMeta` | backend/file.go:115-140 | The reader goes back to the stored offset; with none stored it stays, and that is an error |
| `Backlog.FileBackend.UpdateMeta` | backend/file.go:142-187 | The offset is stored; a drained log is truncated first and the offset is then 0 |
| `Backlog.FileBackend.CleanUpFiles` | backend/file.go:189-213 | The log is emptied, both handles are at its start and the data flag is down |
| `Backlog.Backend.RewriteOne` | backend/backend.go:235-285 | The method sends what the rewrite step says and leaves the state that it says |
| `Backlog.Backend.RewriteLoop` | backend/backend.go:217-233 | Over any course of outages and verdicts the loop settles the oldest pending records in order, as many as got a final verdict, and clears the rewriting flag only when the queue is drained |
| `Backlog.SettlesExact` | backend/backend.go:217-285 | So many are settled as there are turns, one for each record in order and none after a stop, in which the backend is active and takes the oldest record or refuses it for good; an inactive backend and any other failure leave it the oldest |
| `Protocol.StepExact` | backend/file.go:58-213 | Every step that can be taken keeps the protocol invariant, except exactly the three unsafe ones, each of which breaks it |
| `Protocol.RollBackExact` | backend/file.go:115-140 | A failed send is undone exactly when the offset file holds an offset |
| `Protocol.CrashExact` | backend/file.go:26-56 | A restart resumes at the first uncommitted record exactly after a safe crash |
| `Protocol.ReadsWhole` | backend/file.go:94-113 | Both reads of a record, done outside the lock, get its length and its bytes whole, however far a writer is with the next one |
| `Protocol.TakeLengthKeeps` | backend/file.go:98-104 | The length that a loop reads is the length of the first uncommitted record |
| `Protocol.TakePayloadKeeps` | backend/file.go:105-111 | The bytes that a loop then reads are that record |
| `Protocol.ReadBesideWriter` | backend/file.go:94-113 | Both reads can be made while a writer holds the lock with a frame partly on disk, and give the first uncommitted record |
| `Protocol.TornCrashUnframesLog` | backend/file.go:62-76 | After a crash inside a write the log is no longer a log of records |
| `Protocol.StaleOffsetHidesRecord` | backend/file.go:158-174 | After a crash between the truncation and the offset write, a later record is on disk and cannot be read |
| `Crashes.HidingReached` | backend/file.go:158-174 | Any two records lead from two empty files, by legal steps, to the state in which that crash happens: both settled, and a record written after it is on disk and cannot be read |
| `Crashes.TornReached` | backend/file.go:62-76 | Any record leads from two empty files to the state in which a crash leaves a log of no list of records |
| `Protocol.NoneSkipped` | backend/backend.go:235-285 | Among verdicts in order there is one for every record before the last one settled |
| `Protocol.Delivery` | backend/backend.go:210-285 | Over every run of appends, rewrites and safe crashes: a record leaves the log only with a final verdict, verdicts come in the order of appending with none skipped, repeats are at most as many as crashes, and there is never more than one rewrite loop |
| `Liveness.CommitExact` | backend/backend.go:210-285 | From wherever the writer, the worker and the loop are, a pending record can be committed without a restart exactly when the last loop did not quit with the rewriting flag up and none holds a failed record with no offset stored |
| `Liveness.RestartRevives` | backend/file.go:26-56 | After a restart that is safe it always can |
| `Liveness.QuitOrSleep` | backend/backend.go:217-227 | A loop that is told to stop leaves the flag up, and nothing is committed any more; one whose backend is inactive looks again |
| `Liveness.SendFails` | backend/backend.go:270-278 | A failed send is taken back to the stored offset, and the loop starts over |
| `Liveness.NothingToDo` | backend/backend.go:210-233 | Without data no loop is started, and one that runs ends and takes the flag down |
| `Protocol.AtRest` | backend/backend.go:217-233 | Between rewrites the reader stands at the committed offset on a record boundary, and the data flag is up exactly when records are pending |
| `Protocol.SoloWrite` | backend/file.go:58-86 | The steps of a write that nothing interrupts are the write of `Backlog` |
| `Protocol.SoloRewrite` | backend/backend.go:235-285 | The steps of a loop over one record that nothing interrupts are the rewrite of `Backlog` |
| `Batching.WroteKeeps` | backend/backend.go:109-148 | For every database and policy, batches then live buffer are all lines written, in order; the counter counts the live lines and stays below the flush size; a non-empty buffer has the timer armed |
| `Batching.WroteExact` | backend/backend.go:109-148 | A point puts its line, with a newline unless it ends in one, behind those of its key; with flushSize points these become one batch, and with fewer they wait with the timer armed; other keys are untouched |
| `Batching.FlushedOneExact` | backend/backend.go:150-163 | A flush hands over one batch of just what a buffer held, or none of an empty one |
| `Batching.FlushedOneKeeps` | backend/backend.go:150-160 | Flushing one buffer makes one batch of it and keeps all that for every key |
| `Batching.Batcher.WriteBuffer` | backend/backend.go:109-148 | The method keeps that invariant with the point added to what was written |
| `Batching.Batcher.FlushBuffer` | backend/backend.go:150-163 | The method empties one buffer and hands over one batch unless it was empty |
| `Batching.Batcher.Flush` | backend/backend.go:199-208 | In whatever order the keys come, afterwards all lines written are in batches, one batch for each buffer that had lines, and the timer is off |
| `Batching.RunTask` | backend/backend.go:163-196 | A batch is in the backlog, behind the pending records and read back as the point it was, exactly when the backend is inactive or the send fails; it is delivered exactly when an active backend accepts it, and dropped exactly when one answers bad request or not found |
| `Wire.SovIsLength` | service/prometheus/remote/remote.pb.go:919-1086 | The computed size of a varint is the number of bytes written, for every value |
| `Wire.VarintRoundTrip` | service/prometheus/remote/remote.pb.go:919-928 | Every 64-bit value is read back from its varint, whatever follows |
| `Wire.GetPutUint64` | service/prometheus/remote/remote.pb.go:585-590 | Eight little-endian bytes give back the pattern |
| `RemoteFields.LittleEndian` | service/prometheus/remote/remote.pb.go:1119-1129 | The first of the eight bytes is the lowest |
| `Wire.DecodeFieldsBack` | service/prometheus/remote/remote.pb.go:1090-1168 | Printed fields are read in order, each stored as the message stores it |
| `Wire.DecodeConcat` | service/prometheus/remote/remote.pb.go:1090-1168 | Reading an accepted buffer with another behind it is reading the one and then the other into its result |
| `Wire.SkipUnknown` | service/prometheus/remote/remote.pb.go:1993-2070 | Skipping passes over every well-formed field exactly to its end, nested groups included |
| `RemoteFields.SkipErrors` | service/prometheus/remote/remote.pb.go:1993-2070 | Skipping refuses the wire types 6 and 7, an end without its group, and fields that are not all there |
| `Wire.UnknownIgnored` | service/prometheus/remote/remote.pb.go:1149-1161 | A well-formed field of an undeclared number at a field boundary changes nothing that is decoded |
| `RemoteFields.TagErrors` | service/prometheus/remote/remote.pb.go:1111-1117 | In every message the end of a group is refused, and then each number that is not positive |
| `RemoteFields.VarintErrors` | service/prometheus/remote/remote.pb.go:1093-1108 | A varint overflows exactly when ten bytes have the continuation bit, and is cut off exactly when there are fewer and all have it |
| `RemoteFields.PayloadErrors` | service/prometheus/remote/remote.pb.go:1119-1262 | A length from 2^63 on is invalid, one behind the end or fewer than eight bytes of a fixed number are an unexpected end |
| `RemoteFields.SampleReads` | service/prometheus/remote/remote.pb.go:1118-1148 | From its bytes, of a sample field 1, a fixed number, is the value and 2, a varint, the timestamp; nothing else is changed |
| `RemoteFields.SampleSkips` | service/prometheus/remote/remote.pb.go:1149-1161 | A well-formed field of a sample whose number is neither 1 nor 2 changes nothing that is decoded |
| `RemoteFields.SampleRefuses` | service/prometheus/remote/remote.pb.go:1118-1148 | A tag of a field of a sample with another wire type than its own is refused |
| `RemoteFields.LabelPairReads` | service/prometheus/remote/remote.pb.go:1198-1262 | From its bytes, of a label field 1 is the name and 2 the value, both with a length; nothing else is changed |
| `RemoteFields.LabelPairSkips` | service/prometheus/remote/remote.pb.go:1263-1275 | A well-formed field of a label whose number is neither 1 nor 2 changes nothing that is decoded |
| `RemoteFields.LabelPairRefuses` | service/prometheus/remote/remote.pb.go:1198-1262 | A tag of a field of a label with another wire type than its own is refused |
| `RemoteFields.TimeSeriesReadsLabels` | service/prometheus/remote/remote.pb.go:1313-1346 | From its bytes, field 1 of a series is one more label, or the error in it |
| `RemoteFields.TimeSeriesReadsSamples` | service/prometheus/remote/remote.pb.go:1347-1380 | Field 2 is one more sample |
| `RemoteFields.TimeSeriesSkips` | service/prometheus/remote/remote.pb.go:1381-1393 | A well-formed field of a series whose number is neither 1 nor 2 changes nothing that is decoded |
| `RemoteFields.TimeSeriesRefuses` | service/prometheus/remote/remote.pb.go:1312-1380 | A tag of a field of a series with another wire type than its own is refused |
| `RemoteFields.WriteRequestReads` | service/prometheus/remote/remote.pb.go:1430-1464 | From its bytes, of a write request field 1, with a length, is one more series; nothing else is changed |
| `RemoteFields.WriteRequestSkips` | service/prometheus/remote/remote.pb.go:1465-1477 | A well-formed field of a write request whose number is not 1 changes nothing that is decoded |
| `RemoteFields.WriteRequestRefuses` | service/prometheus/remote/remote.pb.go:1430-1464 | A tag of a field of a write request with another wire type than its own is refused |
| `RemoteFields.LabelMatcherReads` | service/prometheus/remote/remote.pb.go:1804-1887 | From its bytes, of a matcher field 1, a varint, is the type, 2 the name and 3 the value, with lengths; nothing else is changed |
| `RemoteFields.LabelMatcherSkips` | service/prometheus/remote/remote.pb.go:1888-1900 | A well-formed field of a matcher whose number is not 1, 2 or 3 changes nothing that is decoded |
| `RemoteFields.LabelMatcherRefuses` | service/prometheus/remote/remote.pb.go:1804-1887 | A tag of a field of a matcher with another wire type than its own is refused |
| `RemoteFields.QueryReads` | service/prometheus/remote/remote.pb.go:1682-1754 | From its bytes, of a query field 1 is the start and 2 the end, both varints; nothing else is changed |
| `RemoteFields.QueryReadsMatchers` | service/prometheus/remote/remote.pb.go:1721-1754 | Field 3, with a length, is one more matcher, or the error in it |
| `RemoteFields.QuerySkips` | service/prometheus/remote/remote.pb.go:1755-1767 | A well-formed field of a query whose number is not 1, 2 or 3 changes nothing that is decoded |
| `RemoteFields.QueryRefuses` | service/prometheus/remote/remote.pb.go:1682-1754 | A tag of a field of a query with another wire type than its own is refused |
| `RemoteFields.ReadRequestReads` | service/prometheus/remote/remote.pb.go:1514-1548 | From its bytes, of a read request field 1, with a length, is one more query; nothing else is changed |
| `RemoteFields.ReadRequestSkips` | service/prometheus/remote/remote.pb.go:1549-1561 | A well-formed field of a read request whose number is not 1 changes nothing that is decoded |
| `RemoteFields.ReadRequestRefuses` | service/prometheus/remote/remote.pb.go:1514-1548 | A tag of a field of a read request with another wire type than its own is refused |
| `RemoteFields.QueryResultReads` | service/prometheus/remote/remote.pb.go:1937-1971 | From its bytes, of a query result field 1, with a length, is one more series; nothing else is changed |
| `RemoteFields.QueryResultSkips` | service/prometheus/remote/remote.pb.go:1972-1984 | A well-formed field of a query result whose number is not 1 changes nothing that is decoded |
| `RemoteFields.QueryResultRefuses` | service/prometheus/remote/remote.pb.go:1937-1971 | A tag of a field of a query result with another wire type than its own is refused |
| `RemoteFields.ReadResponseReads` | service/prometheus/remote/remote.pb.go:1598-1632 | From its bytes, of a read response field 1, with a length, is one more result; nothing else is changed |
| `RemoteFields.ReadResponseSkips` | service/prometheus/remote/remote.pb.go:1633-1645 | A well-formed field of a read response whose number is not 1 changes nothing that is decoded |
| `RemoteFields.ReadResponseRefuses` | service/prometheus/remote/remote.pb.go:1598-1632 | A tag of a field of a read response with another wire type than its own is refused |
| `RemoteFields.SamplePrinted` | service/prometheus/remote/remote.pb.go:575-592 | The bytes of a sample: a value that tests equal to zero, negative zero too, is left out, as is a timestamp of zero |
| `RemoteFields.LabelPairPrinted` | service/prometheus/remote/remote.pb.go:609-629 | Those of a label: empty texts are left out |
| `RemoteFields.TimeSeriesPrinted` | service/prometheus/remote/remote.pb.go:646-680 | Those of a series: each label and then each sample with its tag and length, the first ones first |
| `RemoteFields.WriteRequestPrinted` | service/prometheus/remote/remote.pb.go:697-717 | Those of a write request, series by series |
| `RemoteFields.LabelMatcherPrinted` | service/prometheus/remote/remote.pb.go:855-880 | Those of a matcher: a type of zero and empty texts are left out |
| `RemoteFields.QueryPrinted` | service/prometheus/remote/remote.pb.go:808-838 | Those of a query: timestamps of zero are left out, and matchers come last |
| `RemoteFields.ReadRequestPrinted` | service/prometheus/remote/remote.pb.go:734-754 | Those of a read request, query by query |
| `RemoteFields.QueryResultPrinted` | service/prometheus/remote/remote.pb.go:897-917 | Those of a query result, series by series |
| `RemoteFields.ReadResponsePrinted` | service/prometheus/remote/remote.pb.go:771-791 | Those of a read response, result by result |
| `Remote.WriteRequestRoundTrip` | service/prometheus/remote/remote.pb.go:682-1485 | A write request is read back as it was exactly when none of its samples is negative zero |
| `Remote.ReadResponseRoundTrip` | service/prometheus/remote/remote.pb.go:756-1653 | The same of a read response, through three levels of repeated messages |
| `Remote.ReadRequestRoundTrip` | service/prometheus/remote/remote.pb.go:719-1569 | A read request is always read back as it was, negative timestamps included |
| `Remote.QueryRoundTrip` | service/prometheus/remote/remote.pb.go:793-1775 | So is a query with any number of matchers |
| `Remote.LabelMatcherRoundTrip` | service/prometheus/remote/remote.pb.go:840-1908 | So is a matcher, with any 32-bit value of its type |
| `Remote.TimeSeriesRoundTrip` | service/prometheus/remote/remote.pb.go:631-1401 | A series is read back with its negative-zero samples as zeros and all else as it was |
| `Remote.LabelPairRoundTrip` | service/prometheus/remote/remote.pb.go:594-1283 | A label is always read back as it was |
| `Remote.SampleRoundTrip` | service/prometheus/remote/remote.pb.go:560-1168 | A sample is read back with its timestamp, and with its value unless that is negative zero |
| `RemoteCodec.EncodeVarintRemote` | service/prometheus/remote/remote.pb.go:919-928 | Writes exactly the varint, in exactly its computed size, before the offset, and touches no other byte |
| `RemoteCodec.ReadVarint` | service/prometheus/remote/remote.pb.go:1093-1108 | The loop over an index reads what the encoding says, overflow and truncation included, and never leaves the buffer |
| `RemoteCodec.SkipRemote` | service/prometheus/remote/remote.pb.go:1993-2070 | The loop skips what the encoding says, or comes to an index behind the end, which is only when the field is truncated |
| `RemoteCodec.Unmarshal` | service/prometheus/remote/remote.pb.go:1090-1168 | The loop of every message type ends, stays in bounds, and decodes as `Wire` says, with the fields that `RemoteFields` says |
| `RemoteCodec.ReadField` | service/prometheus/remote/remote.pb.go:1119-1148 | Reads a declared field's payload within the buffer |
| `RemoteMarshal.MarshalWriteRequest` | service/prometheus/remote/remote.pb.go:697-717 | Fills exactly the last bytes before the end with the printed message, and touches nothing before them |
| `RemoteMarshal.MarshalTimeSeries` | service/prometheus/remote/remote.pb.go:646-680 | The same for a series, samples before labels, each list from its end |
| `RemoteMarshal.MarshalSample` | service/prometheus/remote/remote.pb.go:575-592 | The same for a sample |
| `RemoteMarshal.MarshalLabelPair` | service/prometheus/remote/remote.pb.go:609-629 | The same for a label |
| `RemoteMarshal.MarshalLabelMatcher` | service/prometheus/remote/remote.pb.go:855-880 | The same for a matcher |
| `RemoteMarshal.MarshalQuery` | service/prometheus/remote/remote.pb.go:808-838 | The same for a query |
| `RemoteMarshal.MarshalReadRequest` | service/prometheus/remote/remote.pb.go:734-754 | The same for a read request |
| `RemoteMarshal.MarshalQueryResult` | service/prometheus/remote/remote.pb.go:897-917 | The same for a query result |
| `RemoteMarshal.MarshalReadResponse` | service/prometheus/remote/remote.pb.go:771-791 | The same for a read response |
| `RemoteMarshal.WriteRequestBytes` | service/prometheus/remote/remote.pb.go:983-996 | The computed size of a write request is the number of bytes printed |
| `RemoteMarshal.ReadResponseBytes` | service/prometheus/remote/remote.pb.go:1013-1026 | The same for a read response |
| `RemoteMarshal.ReadRequestBytes` | service/prometheus/remote/remote.pb.go:998-1011 | The same for a read request |
| `RemoteMarshal.WriteRequestThereAndBack` | service/prometheus/remote/remote.pb.go:682-1485 | Marshalling into a buffer of the computed size fills all of it, and unmarshalling that gives the request back exactly when no sample is negative zero |
| `Escape.EscaperIs` | util/escape.go:9-49 | The replacer, from the left and without overlaps, puts a backslash before each special character and does nothing else |
| `Escape.UnescapeIs` | util/escape.go:22-49 | Unescaping takes away just the backslashes before special characters; the look for a backslash first is only a shortcut |
| `Escape.EscapesInvert` | util/escape.go:18-49 | All three pairs invert on every text, with backslashes in it or not |
| `Quote.Decompose` | backend/influxql.go:43-70 | Every input is the quoting of some text followed by one of four stops |
| `Quote.ScanExact` | backend/influxql.go:43-70 | Which stop it is decides the outcome: the text, either error, or an index out of range behind a final backslash |
| `Quote.ScanAccepts` | backend/influxql.go:43-70 | The quoted texts are exactly what is accepted, and the text quoted is what comes back |
| `Quote.FindEndWithQuoteLoop` | backend/influxql.go:43-70 | The loop, from any start, reads as these lemmas say |
| `InfluxQL.ScanTokensLoop` | backend/influxql.go:134-226 | The loop over tokens ends and yields the tokens of the text, up to the number asked for, or up to the first error |
| `InfluxQL.FindKeywordLoop` | backend/influxql.go:279-290 | The two loops find the first keyword, in any case, that has a token behind it |
| `InfluxQL.TokenAt` | backend/influxql.go:146-211 | A token takes at least one character, is never empty, is never longer than the text it was read from, and has its quotes on both sides when it starts with one |
| `InfluxQL.DatabaseAt` | backend/influxql.go:292-310 | The database looked up is no longer than the text that is searched, so lookups in subqueries of any depth end |
| `InfluxQL.RetentionPolicyAt` | backend/influxql.go:312-336 | The same of the retention policy |
| `Backslash.IdentExact` | backend/influxql.go:43-365 | A select from any quoted measurement is found to be about it exactly when it has no backslash |
| `Lookups.TopExact` | backend/influxql.go:43-365 | At the top of a query the three lookups find the database, the policy and the measurement that the source names, in all four ways to name it, and nothing where it names none, exactly when none of the names has a backslash and neither the database nor the policy looks like a subquery itself |
| `Nesting.FromSubquery` | backend/influxql.go:247-290 | A select from a balanced select in parentheses is about what that one is about, for all three lookups, with closing parentheses left behind it or not |
| `Lookups.AllFound` | backend/influxql.go:43-365 | Through any number n of subqueries they do exactly when besides n is 0 or the parentheses of the names taken together balance, whatever the names hold |
| `Nesting.NestedExact` | backend/influxql.go:43-365 | The measurement alone is found exactly when it has no backslash and n is 0 or its parentheses balance |
| `Nesting.LeftOpen` | backend/influxql.go:160-177 | When a parenthesis in the names stays open, all three lookups fail under any number of subqueries |
| `Statements.MeasurementFound` | backend/influxql.go:263-365 | In any statement of words and quoted names, the measurement of the source behind from or measurement, in any case, is found, with more behind it or not |
| `Statements.QualifiersFound` | backend/influxql.go:247-336 | Behind from, so is the policy, and the database where neither on nor database comes first |
| `Statements.DatabaseFound` | backend/influxql.go:247-310 | Behind on or database, the quoted name is the database |
| `Statements.WordFound` | backend/influxql.go:279-365 | Names that are plain words are found without quotes |
| `Statements.NothingFound` | backend/influxql.go:279-290 | Without a keyword that has something behind it each lookup is an error |
| `Statements.RegexFound` | backend/influxql.go:338-365 | A regular expression without spaces, quotes, slashes, backslashes, commas and opening brackets is found with its slashes, and has no policy |
| `Statements.SelectNameExact` | backend/influxql.go:247-254 | A database named like a select in parentheses is found exactly when it has at most 16 characters |
| `Statements.OtherTokens` | backend/influxql.go:146-211 | Brackets, braces, parentheses, single quotes, commas and dots are tokens that reach as far as they should |
| `Statements.SurroundedSame` | backend/influxql.go:213-226 | White space in front of a query and semicolons and spaces behind it do not matter |
| `Statements.LimitTakes` | backend/influxql.go:213-226 | Scanning up to a limit gives the first tokens |
| `Flux.FilterExact` | backend/flux.go:88-115 | A filter on a measurement is found to be about it exactly when the measurement does not contain the column's name again and its backslashes come in pairs |
| `Flux.BracketedExact` | backend/flux.go:91-115 | The other way to name the column leads to the same, and fails just the same on a measurement with the dotted name in it |
| `Bucket.BucketExact` | backend/flux.go:65-86 | The bucket that a query calls from with is found exactly when it has no closing parenthesis, comma or colon and no space or quote at either end, whatever other arguments and text follow |
| `Bucket.FoundPlain` | backend/flux.go:65-86 | Whatever the query, no other bucket is ever found |
| `Bucket.ParseItemsLoop` | backend/flux.go:78-84 | The loop over the arguments finds the first that is the bucket |
| `Bucket.DbRpExact` | service/http.go:774-797 | A bucket is taken for a database and a policy exactly when it is the database alone, or both with the first slash between them, and the database is not empty |
| `Flux.RawExact` | backend/flux.go:107-112 | Scanning with escapes and then unescaping the raw text gives back the measurement exactly when its backslashes come in pairs |
| `Flux.FindBody` | backend/flux.go:145-171 | Brace matching cuts out the one text from the first brace on whose braces are closed at its end and not before, and nothing when there is none |
| `LineProto.ScanKeyLoop` | backend/lineproto.go:23-41 | The loop reads the key as the lemmas say, the end of the line and a final backslash included |
| `LineProto.ScanKeyExact` | backend/lineproto.go:23-41 | The key of a point written for a measurement is that measurement exactly when it has no backslash, whatever follows |
| `LineProto.ScanKeyPanics` | backend/lineproto.go:30-32 | Only a backslash at the very end takes the scanner out of range |
| `LineProto.ScanTimeLoop` | backend/lineproto.go:43-51 | Finds where the final digits begin and whether they are a timestamp |
| `LineProto.ScanTimeExact` | backend/lineproto.go:43-51 | Exactly those digits are a timestamp that stand behind a space or a NUL that does not begin the line |
| `LineProto.BytesToInt64` | backend/lineproto.go:79-86 | The value of the digits, modulo 2^64 |
| `LineProto.EndsInDigit` | backend/lineproto.go:53-73 | Whatever the line, precision, multiplier and clock, the result ends in a digit |
| `LineProto.NanoLineHasKey` | backend/proxy.go:189-190 | So the key scanner never runs out of range on it |
| `LineProto.NanoZeros` | backend/lineproto.go:53-73 | Appending zeros leaves the timestamp in its place and multiplies it by 1 for ns and n, 1 000 for us and u, 1 000 000 for ms and 1 000 000 000 for s, for any number of digits |
| `LineProto.NanoNow` | backend/lineproto.go:70-72 | A line without a timestamp gets the time of the clock, which is then found with its value |
| `LineProto.NanoConverted` | backend/lineproto.go:53-73 | For the other precisions converting it does so exactly when the product is not negative and below 2^63, whatever the multiplier |
| `LineProto.RapidCheck` | backend/lineproto.go:88-120 | Ends on every line that does not end in a space, and compares the last gap with the first |
| `LineProto.FirstGapExact` | backend/lineproto.go:90-107 | The first loop stops at the end of the run of spaces that the first unescaped space begins, and behind the end when there is none |
| `LineProto.LastGapExact` | backend/lineproto.go:108-119 | The second one stops at the start of the run that the last space of any kind ends |
| `Lines.ScanLine` | backend/influxql.go:82-132 | The loop cuts the line that the scanner's automaton defines |
| `Lines.FirstOpenNewline` | backend/influxql.go:82-132 | A line ends at the first newline that is neither escaped nor in a string field, and nowhere else |
| `Lines.PlainLine` | backend/influxql.go:82-132 | Without quotes and backslashes that is the first newline of all |
| `Lines.BlocksRejoin` | backend/proxy.go:166-168 | The blocks, each with a newline behind it, are the body again, up to a final newline |
| `Lines.Write` | backend/proxy.go:161-186 | The loop passes on just the blocks that are not blank and not comments, trimmed on the left, in order |
| `Lines.LineOfExact` | backend/proxy.go:169-183 | Of any block, blanks in front and a newline at the end are taken off, and nothing is passed on of a comment or a blank one |
| `Routing.Circle.constructor` | backend/circle.go:23-60 | After adding all backends the ring and the map are theirs and the cache is consistent |
| `Routing.Circle.AddRouter` | backend/circle.go:39-60 | One backend more, under the label of its hash mode |
| `Routing.Circle.GetBackend` | backend/circle.go:62-70 | The cache never changes an answer |
| `Routing.HomeIsListed` | backend/circle.go:62-70 | With a ring that answers one of its labels, every key has a home among the circle's backends |
| `Routing.OwnLabel` | backend/circle.go:39-60 | Each backend is reached under its name, or its URL, unless a later one has the same, or under its index, with a bar in front in one of the two index modes, which no two share |
| `Routing.LabelsAre` | backend/circle.go:39-60 | The labels on the ring are the names, the URLs or the numbers of the backends, and no others |
| `Routing.HomeByLabel` | backend/circle.go:62-70 | The home of a key is the backend whose label the ring gives for it |
| `Routing.Proxy.GetBackends` | backend/proxy.go:62-68 | One home of the key in each circle |
| `Routing.Proxy.WriteRow` | backend/proxy.go:188-214 | For every line nothing runs out of range, and a point that is not turned away goes to the homes of its key in all circles |
| `Routing.WrittenKey` | backend/proxy.go:188-200 | The key under which a point is stored, after its timestamp has been completed, is its measurement exactly when that has no backslash |
| `Storing.StoredExact` | backend/proxy.go:161-214 | The body of a write that is a point for a measurement has a line that is stored under that measurement exactly when it has neither a backslash nor a newline and does not begin with the sign of a comment; then the whole point is the one line passed on |
| `Storing.CutIsLost` | backend/proxy.go:161-214 | A body that is cut anywhere stores nothing under a measurement that has as many newlines as the body |
| `Storing.StoredApart` | backend/proxy.go:161-186 | A point that ends outside strings is stored, and the points in the lines behind it are, as if each were alone |
| `Storing.Passes` | backend/lineproto.go:88-120 | With at least three characters of fields the quick check lets a point pass, although it begins wherever the length of the unescaped key leads it |
| `Routing.RapidExact` | backend/lineproto.go:88-120 | A line of three parts with single spaces between them passes the quick check exactly when its fields have three characters or more |
| `Keys.LanguagesAgree` | backend/executor.go:71-95 | What a write stores, an InfluxQL select and a Flux filter for the same measurement are all found to be about it exactly when it has neither a backslash nor a newline nor the text of the column's name, and does not begin with the sign of a comment |
| `Keys.KeysAgree` | backend/proxy.go:50-214 | A point in the body of a write to a bucket, an InfluxQL select under any subqueries that names the database or has it in its form, and a Flux query of a bucket of that database have the same key, that of the database and the measurement, exactly when the measurement is one that the languages agree on and either keys leave the database out or the bucket of the Flux query has no slash |
| `Keys.SelectKeyIs` | backend/proxy.go:121-160 | The key of a select is made of the database named in it, or else of the one in the form |
| `Keys.NoDatabase` | backend/proxy.go:121-160 | A select that names no database, with none in its form, has no key |
| `Keys.FluxKeyExact` | backend/executor.go:71-82 | The key of a Flux query is that of its bucket's database exactly when the measurement is found and keys leave the database out or the bucket has no slash |
| `Keys.NoMeasurement` | backend/proxy.go:100-120 | Nor has a Flux query for an empty measurement |
| `Routing.PairedBackslashes` | backend/flux.go:107-112 | With its backslashes in pairs a Flux filter finds the measurement although its points are stored under another key |
| `RowFormat.RenderRow` | transfer/transfer.go:217-241 | The loop over a row's columns renders the line that the lemmas below are about |
| `RowReader.RowReadExact` | transfer/transfer.go:217-242 | A reader of line protocol that splits at open commas, spaces and equal signs reads from a row its measurement, just the tag columns that are not null, just the columns of the four types that are not null, each with its name, value and type and in order, and the time, exactly when no name and no tag ends in a backslash and each number or boolean is a text of its type |
| `RowReader.TagExact` | transfer/transfer.go:223-226 | One tag is read back exactly when neither its name nor its value ends in a backslash |
| `RowReader.FieldExact` | transfer/transfer.go:227-236 | One field is read back as a float, boolean, integer or string exactly when its name does not and its value is a text of that type |
| `RowFormat.RowExact` | transfer/transfer.go:217-242 | Whatever its columns, a row is one line to the proxy's scanner, whatever follows, exactly when the scanner passes over it and is outside strings at its end |
| `RowFormat.RowIsOneLine` | transfer/transfer.go:217-242 | So it is, with anything in its string fields, when its measurement, tags and field names have neither backslashes nor newlines |
| `RowFormat.BackslashTagCuts` | transfer/transfer.go:223-242 | A row whose last tag ends in a backslash is not: it is cut inside a string field that has a newline |
| `RowFormat.RowKey` | transfer/transfer.go:217-242 | The key read from a row is its measurement exactly when that has no backslash |
| `RowFormat.RowTime` | transfer/transfer.go:241 | The timestamp is found in a row exactly when it is not negative, and then has its value |
| `RowFormat.BatchExact` | transfer/transfer.go:241-244 | A batch of rows is cut back into its rows exactly when each of them is one line |
| `Paging.Retry` | transfer/transfer.go:251-260 | Tries until the first success, at most eleven times, and fails exactly when all eleven do |
| `Paging.Query` | transfer/transfer.go:274-308 | On a source that does not change, the pages are all rows once and in order, as many as rows over limit rounded up, with one query more; if a query fails for good they are the rows before it |
| `Paging.WritePage` | transfer/transfer.go:217-268 | The batches of a page are its rendered rows in order, none empty, none too long, and as few as possible; the writes lost are just those that failed eleven times |
| `Paging.WriteAll` | transfer/transfer.go:210-272 | Over all pages the batches are the rendered rows received before the first failed query, in order; a write to a destination is lost exactly when it failed eleven times; and an error is returned exactly when a query failed, whatever was lost |
| `Paging.BatchIsItsRows` | transfer/transfer.go:241-256 | What a page sends is taken as one line for each of its rows exactly when each row leaves the scanner outside strings |
| `Transfer.StepKeeps` | transfer/transfer.go:210-398 | Every step of a running operation, in any order, each destination written on its own, keeps this: every place holds what it held and just what has been sent to it, and a transfer reported as done has sent or lost all it had to |
| `Transfer.NothingLost` | transfer/transfer.go:210-398 | So at any moment of any run, with transfers given up and writes lost or not, every place holds at least what it held and at most what was to be sent to it |
| `Transfer.ReportedExact` | transfer/transfer.go:246-340 | An operation whose transfers were all reported as done has brought everything exactly when each point whose write was given up is at its destination all the same |
| `Transfer.ThreeWays` | transfer/transfer.go:210-340 | A transfer to one backend can write its points and be reported as done, lose every one of them and be reported as done all the same, or be given up while a write still arrives |
| `Transfer.Outcome` | transfer/transfer.go:210-398 | With no write given up it has one outcome whatever the order: each place holds what it held and all that was sent to it |
| `Progress.RunDatabase` | transfer/transfer.go:386-396 | One database's measurements are each submitted or counted as in place |
| `Progress.RunTransfer` | transfer/transfer.go:363-398 | An active backend submits just the measurements required, in order, and its counts come out even; an inactive one is left alone |
| `Progress.RunAgain` | transfer/transfer.go:363-435 | Because an operation resets the counts first, what an earlier one has left in them does not show |
| `Progress.ListingExact` | transfer/transfer.go:363-385 | What is listed are just the measurements of the databases |
| `Progress.WantedExact` | transfer/transfer.go:387-394 | A measurement is submitted if and only if it was listed and is required |
| `Rebalance.RoutedHomed` | transfer/transfer.go:427-430 | The backend that a circle's router names for the key of a measurement, its name or database, comma and name, is one of the circle's, for any lawful ring and hash mode |
| `Rebalance.Rebalanced` | transfer/transfer.go:400-435 | A complete rebalance brings all points of the backends read to the home of their measurement and changes nothing else |
| `Rebalance.Cleaned` | transfer/transfer.go:534-572 | A complete cleanup drops exactly the misplaced measurements of its circle |
| `Rebalance.DropReached` | transfer/transfer.go:534-572 | Any misplaced measurement can be dropped as soon as its backend has been listed |
| `Rebalance.OnlyAtHome` | transfer/transfer.go:400-572 | After both, a measurement is only on its home in the circle, which holds what it held and, for the databases covered, what all backends read held |
| `Rebalance.Conserved` | transfer/transfer.go:363-572 | The circle has lost no point exactly when the misplaced points that were not read, because their backend was inactive or not given or their database left out, are at home anyway |
| `Rebalance.ReportedConserved` | transfer/transfer.go:246-572 | After a rebalance that only reported every transfer as done, the circle has lost no point exactly when besides each point lost on the way is at home anyway |
| `Rebalance.GetHealth` | backend/backend.go:317-356 | Counts the measurements in place and the others, and is healthy exactly when there are no others |
| `Rebalance.AstrayCount` | backend/backend.go:317-356 | The number of incorrect measurements is that of those whose home is another backend |
| `Rebalance.AllHealthy` | backend/backend.go:325-336 | After a rebalance and a cleanup no backend of the circle counts an incorrect measurement |
| `Rebalance.Recovered` | transfer/transfer.go:437-485 | A recovery brings all points of the one circle to their homes in the other, as far as those were chosen |
| `Resync.TurnTotal` | transfer/transfer.go:504-532 | One circle's turn adds its recent points to every other circle and changes none of its own |
| `Resync.Resynced` | transfer/transfer.go:487-532 | After all turns each circle holds what it held and the recent points of all; with no tick, all circles hold the union, whatever their order and the initial misplacement |
| `Resync.ResyncExact` | transfer/transfer.go:246-532 | With backends inactive and writes lost, a resync reported as done has brought every circle the recent points of all exactly when each point lost on the way to a circle, and each recent one of a backend that was not active in its circle's turn, is there in the end all the same |
| `Executor.Query` | backend/executor.go:28-58 | Asks active homes only: those neither rewriting nor write-only first, in the order drawn, and only when all of these have failed the others, by circle; gives the first answer, when every active home has failed the last one's error, and that backends are unavailable exactly when it asked none |
| `Executor.CandidatesExact` | backend/executor.go:30-52 | The homes that it may come to are just the active ones of the key, whatever order the circles are drawn in |
| `Executor.CandidatesInOrder` | backend/executor.go:30-52 | They, and what they begin with, are in that order, and an up-to-date home comes before each that is behind |
| `Executor.ReduceByValues` | backend/executor.go:213-241 | Each key of the single-series bodies comes once, with the last row that has it, under the last such series' name; nothing is returned exactly when there are no keys; a body that cannot be decoded is an error, the first such body's |
| `Executor.RowsOfKeys` | backend/executor.go:217-229 | A key counts exactly when some body of just one series has a row with it |
| `Executor.RowsOfConcat` | backend/executor.go:217-229 | The rows of several bodies are those of each in the order of arrival |
| `Executor.RowsOfOne` | backend/executor.go:217-229 | A body gives the rows of its series when it has just one, and none otherwise |
| `Executor.LastRowExact` | backend/executor.go:224-229 | The row kept of a key is the one behind which none has it |
| `Executor.LastSingleExact` | backend/executor.go:217-229 | The series that gives the name is alone in its body, and no later body has just one |
| `Executor.AttachByValues` | backend/executor.go:261-289 | The first single-series body's rows are unchanged, behind them is the first row of each key that only later bodies have, and the keys are those of all bodies; errors as before |
| `Executor.FirstSingleExact` | backend/executor.go:265-273 | The series that is attached to is alone in its body, and no earlier body has just one |
| `Executor.UnseenExact` | backend/executor.go:274-283 | What is attached is one row for each key not on the first body |
| `Executor.UnseenInOrder` | backend/executor.go:274-283 | Each attached row is the first that has its key, and they come in the order of arrival |
| `Executor.AnyOrder` | backend/executor.go:217-229 | The keys do not depend on the order in which the bodies arrive |

## Left out

- HTTP handling, authentication, TLS, gzip and JSON: a send is an outcome, compression any function, a decoded body a list of series.
- The consistent-hash ring itself (stathat.com/c/consistent is not part of this model): any fixed function of labels and key.
- Timers, sleeps and the capacity of goroutine pools: only whether the flush timer is armed, and which tasks are open.
- Disk errors and short writes in the log, other than through a crash; a failed `Sync` too.
- What a backend still holds in its buffers when it is closed (`backend/backend.go:71`), and what guards transfer operations against each other (`service/http.go`).
- Databases and retention policies created on the destinations of a transfer before it starts: they are taken to exist.
- Points that differ only in their fields: InfluxDB merges them, here each stored line is a point of its own; and the transfers of a measurement's retention policies are one transfer with pages in any order.
- The rendering of numbers in a row and the choice among several types of one field: a value is the text it prints as, a type what it was resolved to.
- An equivalence of `RapidCheck` and a full parse: the check is made on a line cut by the length of the unescaped key.
- `CheckQuery` and the statement classifiers, `reduceBySeries` and `concatByResults`, the JSON of a Flux specification around its braces, databases that are forbidden, service/prometheus/converters.go, util/cipher.go, backend/config.go and util/set.go: single branches, or loops like ones that are modelled.
- Whitespace and letter case outside ASCII in trimming and in keywords.
- The refusal of a scanner buffer too small for a token: the buffer is as long as the query.
- `int32` overflow of transfer counters.
- InfluxQL.ScanTokensLoop: does not model the two errors as different outcomes, since both end the tokens.
- RemoteCodec.SkipRemote: a length is told to be invalid when it is negative as an int, but not when only the index it leads to overflows one: that is an unexpected end here; bits or-ed together by the reader are added.
- RemoteCodec.ReadField: the same of the end of a field.
- RemoteCodec.Unmarshal: one generic loop for the nine generated ones, which differ only in their declared fields.
- Batching.Batcher.WriteBuffer: the two nested maps of buffers are one map keyed by database and policy.
- Lookups.AllFound: regular expressions as sources are not covered; `Statements.RegexFound` is for those without spaces, quotes, slashes, backslashes, commas and opening brackets.
- Routing.WrittenKey: for measurements that do not begin with a tab, line feed, vertical tab, form feed or carriage return, which trimming the line takes away.
- Storing.StoredExact: for measurements that do not begin with one of these or a NUL either; `Storing.StoredApart` is for bodies of more than one point; and, when the point has newlines in its strings, for measurements without newlines and backslashes; the clock is read once.
- Executor.Query: a backend's state is taken not to change while the query looks for one to ask.
- Transfer.Outcome: listing a backend's measurements is taken to succeed.
- Keys.KeysAgree: for names that the InfluxQL lookups see through and buckets that are found, with `Lookups.AllFound` and `Bucket.BucketExact` saying which those are.
- Paging.Query: a source that changes between pages is not modelled, except that `Transfer` shows the sources of an operation do not.
