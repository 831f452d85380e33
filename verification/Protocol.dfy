/**
 * The backlog under concurrency and crashes: pool tasks appending records, the worker starting rewrite loops, and the
 * loops reading, sending, committing and rolling back, interleaved one file operation at a time, with a crash and
 * restart possible between any two. What is on disk and in memory is a Backlog.FileState; the rest of a State is who
 * is where, and a history of what has been appended and settled that no step looks at.
 */
module Protocol {
  import opened Prelude
  import opened Binary
  import opened Record
  import opened Backlog

  /** The pool task inside FileBackend.Write, which holds the lock; others wait for it. */
  datatype Writer = Unlocked | Writing(record: Bytes, written: nat)

  /** Where a rewrite loop is. In Cleaned it holds the lock, between truncating the log and writing the offset. */
  datatype Loop =
    | Head | Checked | ReadLength | ReadPayload(n: nat) | Sending(record: Bytes)
    | Settled | Refused | Cleaned | Drained

  /** Where the worker is inside RewriteIdle. */
  datatype Worker = Waiting | SawIdle | SawData | Claimed

  /** Every record that was ever wholly on disk, how many of them truncations removed and how many are committed. */
  datatype Ledger = Ledger(appended: seq<Bytes>, base: nat, committed: nat)

  /** The records given a final verdict in order of the verdicts, which appended record each was, and the crashes. */
  datatype Verdicts = Verdicts(settled: seq<Bytes>, index: seq<nat>, crashes: nat)

  datatype State = State(
    fs: FileState, writer: Writer, loops: seq<Loop>, worker: Worker, rewriting: bool, l: Ledger, v: Verdicts)

  datatype Step =
    | BeginWrite(record: Bytes) | AppendSome(k: nat) | EndWrite
    | SeeIdle | SeeData | SeeNoData | Claim | Spawn
    | Check(i: nat) | Sleep(i: nat) | Quit(i: nat) | StartRead(i: nat) | TakeLength(i: nat) | TakePayload(i: nat)
    | Verdict(i: nat, final: bool) | Commit(i: nat) | StoreOffset(i: nat) | RollBack(i: nat) | Clear(i: nat)
    | Crash

  predicate LockFree(s: State) { s.writer.Unlocked? && Cleaned !in s.loops }

  predicate At(s: State, i: nat, l: Loop) { i < |s.loops| && s.loops[i] == l }

  predicate Enabled(s: State, step: Step) {
    match step
    case BeginWrite(r) => LockFree(s) && Good(r)
    case AppendSome(k) => s.writer.Writing? && 0 < k && s.writer.written + k <= |Frame(s.writer.record)|
    case EndWrite => s.writer.Writing? && s.writer.written == |Frame(s.writer.record)|
    case SeeIdle => s.worker.Waiting? && !s.rewriting
    case SeeData => s.worker.SawIdle? && LockFree(s) && s.fs.dataflag
    case SeeNoData => s.worker.SawIdle? && LockFree(s) && !s.fs.dataflag
    case Claim => s.worker.SawData?
    case Spawn => s.worker.Claimed?
    case Check(i) => At(s, i, Head) && LockFree(s)
    case Sleep(i) => At(s, i, Checked)
    case Quit(i) => At(s, i, Checked)
    case StartRead(i) => At(s, i, Checked) && LockFree(s)
    case TakeLength(i) => At(s, i, ReadLength)
    case TakePayload(i) => i < |s.loops| && s.loops[i].ReadPayload?
    case Verdict(i, _) => i < |s.loops| && s.loops[i].Sending?
    case Commit(i) => At(s, i, Settled) && LockFree(s)
    case StoreOffset(i) => At(s, i, Cleaned)
    case RollBack(i) => At(s, i, Refused) && LockFree(s)
    case Clear(i) => At(s, i, Drained)
    case Crash => true
  }

  function Goto(s: State, i: nat, l: Loop): State
    requires i < |s.loops|
  {
    s.(loops := s.loops[i := l])
  }

  function Leave(s: State, i: nat): State
    requires i < |s.loops|
  {
    s.(loops := s.loops[..i] + s.loops[i + 1..])
  }

  /** The writer's next k bytes reach the disk. */
  function PutSome(s: State, k: nat): State
    requires s.writer.Writing? && s.writer.written + k <= |Frame(s.writer.record)|
  {
    var r, n := s.writer.record, s.writer.written;
    s.(fs := Append(s.fs, Frame(r)[n..n + k]), writer := Writing(r, n + k),
       l := if n + k == |Frame(r)| then s.l.(appended := s.l.appended + [r]) else s.l)
  }

  function LengthTaken(s: State, i: nat): State
    requires i < |s.loops|
  {
    var (b, fs) := ReadFull(s.fs, 4);
    Goto(s, i, if b.Some? then ReadPayload(GetUint32(b.value)) else Head).(fs := fs)
  }

  function PayloadTaken(s: State, i: nat): State
    requires i < |s.loops| && s.loops[i].ReadPayload?
  {
    var (b, fs) := ReadFull(s.fs, s.loops[i].n);
    Goto(s, i, if b.Some? then Sending(b.value) else Head).(fs := fs)
  }

  /** The send returns. A record that does not split or unescape is passed over without one. */
  function Judged(s: State, i: nat, final: bool): State
    requires i < |s.loops| && s.loops[i].Sending?
  {
    var r := s.loops[i].record;
    if Parse(r).None? then Goto(s, i, Head)
    else if final then
      Goto(s, i, Settled).(v := s.v.(settled := s.v.settled + [r], index := s.v.index + [s.l.committed]))
    else Goto(s, i, Refused)
  }

  /** UpdateMeta up to the offset write, which CleanUp leaves to a step of its own. */
  function Committed(s: State, i: nat): State
    requires i < |s.loops|
  {
    if s.fs.producer == s.fs.consumer then
      Goto(s, i, Cleaned).(fs := CleanUp(s.fs), l := s.l.(base := |s.l.appended|, committed := |s.l.appended|))
    else Goto(s, i, Head).(fs := s.fs.(rec := Some(s.fs.consumer)), l := s.l.(committed := s.l.committed + 1))
  }

  /** The process dies and NewBackend starts again on the two files. */
  function Restarted(s: State): State {
    s.(fs := Open(s.fs.dat, s.fs.rec), writer := Unlocked, loops := [], worker := Waiting, rewriting := false,
       v := s.v.(crashes := s.v.crashes + 1))
  }

  function Apply(s: State, step: Step): State
    requires Enabled(s, step)
  {
    match step
    case BeginWrite(r) => s.(writer := Writing(r, 0))
    case AppendSome(k) => PutSome(s, k)
    case EndWrite => s.(fs := s.fs.(dataflag := true), writer := Unlocked)
    case SeeIdle => s.(worker := SawIdle)
    case SeeData => s.(worker := SawData)
    case SeeNoData => s.(worker := Waiting)
    case Claim => s.(worker := Claimed, rewriting := true)
    case Spawn => s.(worker := Waiting, loops := s.loops + [Head])
    case Check(i) => Goto(s, i, if s.fs.dataflag then Checked else Drained)
    case Sleep(i) => Goto(s, i, Head)
    case Quit(i) => Leave(s, i)
    case StartRead(i) => Goto(s, i, if s.fs.dataflag then ReadLength else Head)
    case TakeLength(i) => LengthTaken(s, i)
    case TakePayload(i) => PayloadTaken(s, i)
    case Verdict(i, final) => Judged(s, i, final)
    case Commit(i) => Committed(s, i)
    case StoreOffset(i) => Goto(s, i, Head).(fs := s.fs.(rec := Some(s.fs.consumer)))
    case RollBack(i) => Goto(s, i, Head).(fs := Rollback(s.fs))
    case Clear(i) => Leave(s, i).(rewriting := false)
    case Crash => Restarted(s)
  }

  // ---------- the invariant ----------

  /** Where in the log the k-th appended record starts. */
  ghost function Start(l: Ledger, k: nat): nat
    requires l.base <= k <= |l.appended|
  {
    |FrameAll(l.appended[l.base..k])|
  }

  predicate Complete(w: Writer) { w.Writing? && w.written == |Frame(w.record)| }

  /** The bytes of a frame that is only partly on disk. */
  ghost function Torn(w: Writer): Bytes
    requires InvWriter(w)
  {
    if w.Writing? && !Complete(w) then Frame(w.record)[..w.written] else []
  }

  ghost predicate InvWriter(w: Writer) { w.Writing? ==> AllGood([w.record]) && w.written <= |Frame(w.record)| }

  ghost predicate InvLedger(l: Ledger) {
    l.base <= l.committed <= |l.appended| && AllGood(l.appended)
  }

  /** At most one rewrite loop, and the rewriting flag guards it. */
  predicate InvSingle(loops: seq<Loop>, worker: Worker, rewriting: bool) {
    && |loops| <= 1
    && (loops != [] ==> rewriting && worker.Waiting?)
    && (worker.SawIdle? || worker.SawData? ==> !rewriting)
    && (worker.Claimed? ==> rewriting)
  }

  /** The lock is held once, and a whole frame on disk is a record waiting. */
  predicate InvLock(w: Writer, loops: seq<Loop>, l: Ledger) {
    && (w.Writing? ==> loops != [Cleaned])
    && (Complete(w) ==> l.committed < |l.appended|)
  }

  /** The log is the frames of the records not yet truncated, and the part of one that a writer has got to. */
  ghost predicate InvLog(l: Ledger, dat: Bytes, producer: nat, w: Writer)
    requires InvLedger(l) && InvWriter(w)
  {
    dat == FrameAll(l.appended[l.base..]) + Torn(w) && producer == |dat|
  }

  /** The offset file points at the first uncommitted record; empty, it stands for 0. */
  ghost predicate InvOffset(l: Ledger, rec: Option<nat>, cleaned: bool)
    requires InvLedger(l)
  {
    cleaned || rec == Some(Start(l, l.committed)) || (rec == None && l.committed == l.base)
  }

  predicate InvFlag(l: Ledger, dataflag: bool, complete: bool) {
    && (dataflag ==> l.committed < |l.appended|)
    && (l.committed < |l.appended| && !complete ==> dataflag)
  }

  predicate Resting(p: Loop) { p.Head? || p.Checked? || p.ReadLength? || p.Drained? }

  /** The loop that reads, or that may be started, and where its file handle is. */
  ghost predicate InvReader(l: Ledger, consumer: nat, p: Loop)
    requires InvLedger(l)
  {
    && (!p.Head? && !p.Drained? && !p.Cleaned? ==> l.committed < |l.appended|)
    && match p
       case ReadPayload(n) => consumer == Start(l, l.committed) + 4 && n == |l.appended[l.committed]|
       case Sending(r) => consumer == Start(l, l.committed + 1) && r == l.appended[l.committed]
       case Settled => consumer == Start(l, l.committed + 1)
       case Refused => consumer == Start(l, l.committed + 1)
       case Cleaned => consumer == 0 && l.base == |l.appended|
       case _ => consumer == Start(l, l.committed)
  }

  /** With no loop alive the handle stands where the next one will expect it. */
  function Place(loops: seq<Loop>): Loop { if loops == [] then Head else loops[0] }

  /** How many appended records have had their final verdict. */
  function Done(index: seq<nat>): nat {
    if index == [] then 0 else index[|index| - 1] + 1
  }

  /**
   * The verdicts, in order, are for the appended records in order: they start with the first, none is skipped, and each
   * repeats at most the one before.
   */
  ghost predicate InOrder(settled: seq<Bytes>, index: seq<nat>, appended: seq<Bytes>) {
    && |settled| == |index|
    && (forall k | 0 <= k < |index| :: index[k] < |appended| && settled[k] == appended[index[k]])
    && (index != [] ==> index[0] == 0)
    && (forall k | 0 < k < |index| :: index[k] == index[k - 1] || index[k] == index[k - 1] + 1)
  }

  /**
   * What has been settled is committed but for the one record of a loop on its way to commit, or one that a crash
   * caught there and that will be sent again. Such repeats, with the one that is due, are no more than the crashes.
   */
  predicate InvDone(v: Verdicts, committed: nat, settledNow: bool) {
    && committed <= Done(v.index) <= committed + 1
    && (settledNow ==> Done(v.index) == committed + 1)
    && |v.index| + (if Done(v.index) > committed && !settledNow then 1 else 0) <= Done(v.index) + v.crashes
  }

  ghost predicate Inv(s: State) {
    && InvLedger(s.l)
    && InvWriter(s.writer)
    && InvSingle(s.loops, s.worker, s.rewriting)
    && InvLock(s.writer, s.loops, s.l)
    && InvLog(s.l, s.fs.dat, s.fs.producer, s.writer)
    && InvOffset(s.l, s.fs.rec, s.loops == [Cleaned])
    && InvFlag(s.l, s.fs.dataflag, Complete(s.writer))
    && InvReader(s.l, s.fs.consumer, Place(s.loops))
    && InOrder(s.v.settled, s.v.index, s.l.appended)
    && InvDone(s.v, s.l.committed, Place(s.loops).Settled?)
  }

  // ---------- positions in the log ----------

  lemma LogSplit(l: Ledger, k: nat)
    requires l.base <= k <= |l.appended|
    ensures FrameAll(l.appended[l.base..]) == FrameAll(l.appended[l.base..k]) + FrameAll(l.appended[k..])
  {
    hide Frame, Parse;
    assert l.appended[l.base..] == l.appended[l.base..k] + l.appended[k..];
    FrameAllConcat(l.appended[l.base..k], l.appended[k..]);
  }

  lemma StartNext(l: Ledger, k: nat)
    requires l.base <= k < |l.appended|
    ensures Start(l, k + 1) == Start(l, k) + |Frame(l.appended[k])|
  {
    hide Frame, Parse;
    assert l.appended[l.base..k + 1] == l.appended[l.base..k] + [l.appended[k]];
    FrameAllSnoc(l.appended[l.base..k], l.appended[k]);
  }

  lemma StartFrom(l: Ledger, m: Ledger, k: nat)
    requires l.base == m.base <= k <= |l.appended| && l.appended <= m.appended
    ensures Start(l, k) == Start(m, k)
  {
    assert l.appended[l.base..k] == m.appended[l.base..k];
  }

  lemma Assoc(a: Bytes, b: Bytes, c: Bytes, d: Bytes)
    ensures a + (b + c) + d == a + (b + (c + d))
  {
  }

  /** An uncommitted record's frame stands whole at its start, whatever a writer is adding behind it. */
  lemma FrameAtStart(l: Ledger, dat: Bytes, producer: nat, w: Writer, k: nat) returns (a: Bytes, c: Bytes)
    requires InvLedger(l) && InvWriter(w) && InvLog(l, dat, producer, w) && l.base <= k < |l.appended|
    ensures dat == a + (Frame(l.appended[k]) + c) && |a| == Start(l, k)
    ensures Start(l, k + 1) == |a| + |Frame(l.appended[k])|
  {
    hide Frame, Parse;
    var f := Frame(l.appended[k]);
    var rest := FrameAll(l.appended[k + 1..]);
    a, c := FrameAll(l.appended[l.base..k]), rest + Torn(w);
    LogSplit(l, k);
    StartNext(l, k);
    assert FrameAll(l.appended[k..]) == f + rest by {
      assert l.appended[k..][1..] == l.appended[k + 1..];
    }
    Assoc(a, f, rest, Torn(w));
  }

  // ---------- every step ----------

  /**
   * The three places where a step can break the invariant: a crash while a frame is partly written, a crash between
   * the truncation and the offset write while the file still holds an old offset, and a rollback with an empty .rec.
   */
  predicate Safe(s: State, step: Step) {
    match step
    case Crash =>
      && !(s.writer.Writing? && 0 < s.writer.written < |Frame(s.writer.record)|)
      && !(s.loops == [Cleaned] && s.fs.rec.Some? && s.fs.rec.value != 0)
    case RollBack(i) => s.fs.rec.Some?
    case _ => true
  }

  predicate CanPut(w: Writer, k: nat) { w.Writing? && 0 < k && w.written + k <= |Frame(w.record)| }

  lemma TornGrows(log: Bytes, f: Bytes, n: nat, k: nat)
    requires n + k <= |f|
    ensures log + f[..n] + f[n..n + k] == log + f[..n + k]
  {
    assert f[..n] + f[n..n + k] == f[..n + k];
  }

  lemma LedgerGrows(l: Ledger, r: Bytes)
    requires InvLedger(l) && AllGood([r])
    ensures
      var m := l.(appended := l.appended + [r]);
      InvLedger(m) && FrameAll(m.appended[m.base..]) == FrameAll(l.appended[l.base..]) + Frame(r)
  {
    hide Frame, Parse;
    assert (l.appended + [r])[l.base..] == l.appended[l.base..] + [r];
    FrameAllSnoc(l.appended[l.base..], r);
    assert r in [r];
  }

  /** The log with the writer's next k bytes. */
  lemma PutLog(l: Ledger, r: Bytes, n: nat, k: nat)
    requires InvLedger(l) && AllGood([r]) && 0 < k && n + k <= |Frame(r)|
    ensures
      var m := if n + k == |Frame(r)| then l.(appended := l.appended + [r]) else l;
      && InvLedger(m)
      && FrameAll(l.appended[l.base..]) + Torn(Writing(r, n)) + Frame(r)[n..n + k]
         == FrameAll(m.appended[m.base..]) + Torn(Writing(r, n + k))
  {
    hide Frame, Parse, FrameAll, AllGood;
    TornGrows(FrameAll(l.appended[l.base..]), Frame(r), n, k);
    LedgerGrows(l, r);
    WholeFrame(Frame(r), n);
  }

  lemma PutKeepsLog(s: State, k: nat)
    requires InvLedger(s.l) && InvWriter(s.writer) && InvLog(s.l, s.fs.dat, s.fs.producer, s.writer)
    requires CanPut(s.writer, k)
    ensures
      var t := PutSome(s, k);
      InvLedger(t.l) && InvWriter(t.writer) && InvLog(t.l, t.fs.dat, t.fs.producer, t.writer)
  {
    hide Frame, Parse, FrameAll, InvLedger, AllGood, Torn;
    PutLog(s.l, s.writer.record, s.writer.written, k);
  }

  lemma WholeFrame(f: Bytes, n: nat)
    requires n <= |f|
    ensures f[..|f|] == f && f[..0] == [] && forall log: Bytes :: log + [] == log
  {
  }

  /** Records added behind leave the reader where it was. */
  lemma ReaderFrame(l: Ledger, m: Ledger, consumer: nat, p: Loop)
    requires InvLedger(l) && InvLedger(m) && InvReader(l, consumer, p) && !p.Cleaned?
    requires l.appended <= m.appended && l.base == m.base && l.committed == m.committed
    ensures InvReader(m, consumer, p)
  {
    hide Frame, Parse;
    StartFrom(l, m, l.committed);
    if l.committed < |l.appended| {
      StartFrom(l, m, l.committed + 1);
      assert l.appended[l.committed] == m.appended[l.committed];
    }
  }

  lemma PutKeeps(s: State, k: nat)
    requires Inv(s) && CanPut(s.writer, k)
    ensures Inv(PutSome(s, k))
  {
    var t := PutSome(s, k);
    PutKeepsLog(s, k);
    hide Frame, Parse, FrameAll, InvLog, InvWriter, InvReader, InOrder;
    assert s.l.appended <= t.l.appended;
    ReaderFrame(s.l, t.l, s.fs.consumer, Place(s.loops));
    StartFrom(s.l, t.l, s.l.committed);
    hide Start;
    OrderGrows(s.v.settled, s.v.index, s.l.appended, t.l.appended);
  }

  lemma OrderGrows(settled: seq<Bytes>, index: seq<nat>, appended: seq<Bytes>, more: seq<Bytes>)
    requires InOrder(settled, index, appended) && appended <= more
    ensures InOrder(settled, index, more)
  {
  }

  /** Moves between places where the reader stands at the first uncommitted record. */
  lemma MoveKeeps(s: State, p: Loop)
    requires Inv(s) && |s.loops| == 1 && Resting(s.loops[0]) && Resting(p)
    requires p.Checked? || p.ReadLength? ==> s.l.committed < |s.l.appended|
    ensures Inv(Goto(s, 0, p))
  {
    hide Frame, Parse, FrameAll, Start, Torn, InvLedger, InvWriter, InvLog, InvFlag, InOrder;
    assert s.loops[0 := p] == [p];
  }

  lemma LeaveKeeps(s: State, rewriting: bool)
    requires Inv(s) && |s.loops| == 1 && Resting(s.loops[0])
    ensures Inv(Leave(s, 0).(rewriting := rewriting))
  {
    hide Frame, Parse, FrameAll, Start, Torn, InvLedger, InvWriter, InvLog, InvFlag, InOrder;
    assert Leave(s, 0).loops == [];
  }

  lemma SpawnKeeps(s: State)
    requires Inv(s) && s.worker.Claimed?
    ensures Inv(s.(worker := Waiting, loops := s.loops + [Head]))
  {
    hide Frame, Parse, FrameAll, Start, Torn, InvLedger, InvWriter, InvLog, InvFlag, InOrder;
    assert s.loops + [Head] == [Head];
  }

  lemma LockKeeps(s: State, r: Bytes)
    requires Inv(s)
    ensures LockFree(s) && Good(r) ==> Inv(s.(writer := Writing(r, 0)))
    ensures Complete(s.writer) ==> Inv(s.(fs := s.fs.(dataflag := true), writer := Unlocked))
  {
    hide PutUint32, Parse;
  }

  /** The two reads at an uncommitted record, done while a writer may be part of the way through another. */
  lemma ReadsWhole(l: Ledger, fs: FileState, w: Writer)
    requires InvLedger(l) && InvWriter(w) && InvLog(l, fs.dat, fs.producer, w) && l.committed < |l.appended|
    ensures Fits(l.appended[l.committed])
    ensures fs.consumer == Start(l, l.committed) ==>
      ReadFull(fs, 4) == (Some(PutUint32(|l.appended[l.committed]|)), fs.(consumer := Start(l, l.committed) + 4))
    ensures fs.consumer == Start(l, l.committed) + 4 ==>
      ReadFull(fs, |l.appended[l.committed]|)
      == (Some(l.appended[l.committed]), fs.(consumer := Start(l, l.committed + 1)))
  {
    hide PutUint32, GetUint32, Parse, FrameAll, InvLog, Start, ReadFull;
    var p := l.appended[l.committed];
    assert p in l.appended;
    var a, c := FrameAtStart(l, fs.dat, fs.producer, w, l.committed);
    FrameIs(p);
    hide Frame;
    FrameApart(a, PutUint32(|p|), p, c);
    if fs.consumer == |a| {
      ReadFullAt(fs, a, PutUint32(|p|), p + c);
    } else if fs.consumer == |a| + 4 {
      ReadFullAt(fs, a + PutUint32(|p|), p, c);
    }
  }

  lemma FrameIs(p: Bytes)
    requires Fits(p)
    ensures Frame(p) == PutUint32(|p|) + p && |Frame(p)| == 4 + |p|
  {
    hide PutUint32;
    assert |p| % U32 == |p|;
  }

  lemma FrameApart(a: Bytes, b: Bytes, p: Bytes, c: Bytes)
    ensures a + ((b + p) + c) == a + b + (p + c) == (a + b) + p + c
  {
  }

  /** The length read is that of the first uncommitted record, never one of a frame in the making. */
  lemma TakeLengthKeeps(s: State)
    requires Inv(s) && s.loops == [ReadLength]
    ensures Inv(LengthTaken(s, 0))
    ensures LengthTaken(s, 0).loops == [ReadPayload(|s.l.appended[s.l.committed]|)]
  {
    hide Frame, Parse;
    ReadsWhole(s.l, s.fs, s.writer);
    var n := |s.l.appended[s.l.committed]|;
    var t := LengthTaken(s, 0);
    assert t.loops == [ReadPayload(n)] && t.fs == s.fs.(consumer := s.fs.consumer + 4);
  }

  /** The payload read is that record, whole. */
  lemma TakePayloadKeeps(s: State)
    requires Inv(s) && |s.loops| == 1 && s.loops[0].ReadPayload?
    ensures Inv(PayloadTaken(s, 0))
    ensures PayloadTaken(s, 0).loops == [Sending(s.l.appended[s.l.committed])]
  {
    hide Frame, Parse;
    ReadsWhole(s.l, s.fs, s.writer);
    var t := PayloadTaken(s, 0);
    assert t.loops == [Sending(s.l.appended[s.l.committed])];
    assert t.fs == s.fs.(consumer := Start(s.l, s.l.committed + 1));
  }

  /** A verdict is always for the first uncommitted record, and that record always splits into its parts. */
  lemma VerdictKeeps(s: State, final: bool)
    requires Inv(s) && |s.loops| == 1 && s.loops[0].Sending?
    ensures Parse(s.loops[0].record).Some? && Inv(Judged(s, 0, final))
  {
    hide Frame, FrameAll, Parse;
    var p := s.l.appended[s.l.committed];
    assert p in s.l.appended;
    var t := Judged(s, 0, final);
    assert t.loops == [if final then Settled else Refused];
    if final {
      assert t.v.index == s.v.index + [s.l.committed];
      assert InOrder(t.v.settled, t.v.index, t.l.appended);
    }
  }

  /** The log is drained exactly when the record settled is the last one. */
  lemma DrainedIs(s: State)
    requires Inv(s) && s.loops == [Settled] && LockFree(s)
    ensures s.fs.producer == s.fs.consumer <==> s.l.committed + 1 == |s.l.appended|
  {
    hide Frame, FrameAll, Parse;
    var l := s.l;
    StartNext(l, l.committed);
    LogSplit(l, l.committed + 1);
    FrameAllNonEmpty(l.appended[l.committed + 1..]);
  }

  lemma CommitKeeps(s: State)
    requires Inv(s) && s.loops == [Settled] && LockFree(s)
    ensures Inv(Committed(s, 0))
  {
    hide Frame, FrameAll, Parse;
    var l, t := s.l, Committed(s, 0);
    DrainedIs(s);
    StartNext(l, l.committed);
    if s.fs.producer == s.fs.consumer {
      assert t.loops == [Cleaned];
      assert l.appended[|l.appended|..] == [];
      FrameAllNonEmpty([]);
      assert InOrder(t.v.settled, t.v.index, t.l.appended);
    } else {
      assert t.loops == [Head];
      assert Start(t.l, t.l.committed) == Start(l, l.committed + 1);
    }
  }

  lemma StoreOffsetKeeps(s: State)
    requires Inv(s) && s.loops == [Cleaned]
    ensures Inv(Goto(s, 0, Head).(fs := s.fs.(rec := Some(s.fs.consumer))))
  {
    hide Frame, Parse;
    assert s.loops[0 := Head] == [Head];
    assert Start(s.l, s.l.committed) == 0 by {
      assert s.l.appended[s.l.base..s.l.committed] == [];
    }
  }

  /** A failed send is undone exactly when the .rec file holds an offset. */
  lemma RollBackExact(s: State)
    requires Inv(s) && s.loops == [Refused]
    ensures Inv(Goto(s, 0, Head).(fs := Rollback(s.fs))) <==> s.fs.rec.Some?
  {
    hide Frame, Parse;
    assert s.loops[0 := Head] == [Head];
    StartNext(s.l, s.l.committed);
  }

  /** What Open makes of the two files when nothing is torn and the offset is in step. */
  lemma OpenAt(l: Ledger, dat: Bytes, rec: Option<nat>)
    requires InvLedger(l) && dat == FrameAll(l.appended[l.base..]) && InvOffset(l, rec, false)
    ensures
      Open(dat, rec) == FileState(dat, rec, Start(l, l.committed), |dat|, l.committed < |l.appended|)
  {
    hide Frame, FrameAll, Parse;
    LogSplit(l, l.committed);
    FrameAllNonEmpty(l.appended[l.committed..]);
    StartBase(l);
  }

  lemma StartBase(l: Ledger)
    requires InvLedger(l)
    ensures Start(l, l.base) == 0
  {
    assert l.appended[l.base..l.base] == [];
  }

  lemma SafeCrash(s: State)
    requires Inv(s) && Safe(s, Crash)
    ensures Inv(Restarted(s))
  {
    hide Frame, FrameAll, Parse;
    StartBase(s.l);
    OpenAt(s.l, s.fs.dat, s.fs.rec);
  }

  lemma UnsafeCrash(s: State)
    requires Inv(s) && !Safe(s, Crash)
    ensures !Inv(Restarted(s))
  {
    hide Frame, FrameAll, Parse;
    StartBase(s.l);
    if s.writer.Writing? && 0 < s.writer.written < |Frame(s.writer.record)| {
      assert |Torn(s.writer)| > 0;
      assert |s.fs.dat| != |FrameAll(s.l.appended[s.l.base..])|;
    }
  }

  /** After a crash with a frame partly written, the log is not the log of any list of records. */
  lemma TornCrashUnframesLog(s: State, ws: seq<Bytes>)
    requires Inv(s) && s.writer.Writing? && 0 < s.writer.written < |Frame(s.writer.record)|
    requires AllGood(ws)
    ensures Restarted(s).fs.dat != FrameAll(ws)
  {
    hide Frame, FrameAll, Parse;
    var kept, r := s.l.appended[s.l.base..], s.writer.record;
    assert r in [r];
    assert forall x | x in kept :: x in s.l.appended;
    TornTailIsNoLog(kept, r, s.writer.written, ws);
  }

  /**
   * After a crash between the truncation and the offset write with an old offset in the file, the reader starts behind
   * the end of the empty log: a record no longer than that offset is then written but cannot be read.
   */
  lemma StaleOffsetHidesRecord(s: State, r: Bytes)
    requires Inv(s) && s.loops == [Cleaned] && s.fs.rec.Some? && |Frame(r)| <= s.fs.rec.value
    ensures
      var fs := Restarted(s).fs;
      !fs.dataflag && fs.consumer > |fs.dat| == 0 && Read(Write(fs, r)).0 == ReadError
  {
    hide FrameAll, Parse;
    assert s.l.appended[s.l.base..] == [];
    assert s.fs.dat == [] by { AtCleaned(s); }
    WriteAppendsFrame(Restarted(s).fs, r);
  }

  lemma AtCleaned(s: State)
    requires Inv(s) && s.loops == [Cleaned]
    ensures s.fs.dat == [] && s.writer.Unlocked?
  {
    assert s.l.appended[s.l.base..] == [];
  }

  /** A restart resumes at the first uncommitted record exactly after a safe crash. */
  lemma CrashExact(s: State)
    requires Inv(s)
    ensures Inv(Restarted(s)) <==> Safe(s, Crash)
  {
    hide Inv;
    if Safe(s, Crash) {
      SafeCrash(s);
    } else {
      UnsafeCrash(s);
    }
  }

  lemma WorkerKeeps(s: State)
    requires Inv(s)
    ensures s.worker.Waiting? && !s.rewriting ==> Inv(s.(worker := SawIdle))
    ensures s.worker.SawIdle? ==> Inv(s.(worker := SawData)) && Inv(s.(worker := Waiting))
    ensures s.worker.SawData? ==> Inv(s.(worker := Claimed, rewriting := true))
  {
    hide Frame, FrameAll, Parse;
  }

  lemma OneLoop(s: State, i: nat)
    requires Inv(s) && i < |s.loops|
    ensures i == 0 && |s.loops| == 1
    ensures s.loops[0].Cleaned? ==> s.loops == [Cleaned]
    ensures s.loops[0].Head? && s.fs.dataflag ==> s.l.committed < |s.l.appended|
  {
  }

  predicate ByLoop(step: Step, i: nat) {
    match step
    case Check(j) => j == i
    case Sleep(j) => j == i
    case Quit(j) => j == i
    case StartRead(j) => j == i
    case TakeLength(j) => j == i
    case TakePayload(j) => j == i
    case Verdict(j, _) => j == i
    case Commit(j) => j == i
    case StoreOffset(j) => j == i
    case RollBack(j) => j == i
    case Clear(j) => j == i
    case _ => false
  }

  lemma RestStepKeeps(s: State, step: Step, i: nat)
    requires Inv(s) && Enabled(s, step) && i < |s.loops| && ByLoop(step, i)
    requires step.Check? || step.Sleep? || step.Quit? || step.StartRead? || step.Clear?
    ensures Inv(Apply(s, step))
  {
    OneLoop(s, i);
    hide Inv, InvLedger, Goto, Leave, Frame, Parse;
    assert s.loops == [s.loops[0]];
    match step
    case Check(_) => MoveKeeps(s, if s.fs.dataflag then Checked else Drained);
    case Sleep(_) => MoveKeeps(s, Head);
    case Quit(_) => LeaveKeeps(s, s.rewriting);
    case StartRead(_) => MoveKeeps(s, if s.fs.dataflag then ReadLength else Head);
    case Clear(_) => LeaveKeeps(s, false);
    case _ =>
  }

  lemma ReadStepKeeps(s: State, step: Step, i: nat)
    requires Inv(s) && Enabled(s, step) && i < |s.loops| && ByLoop(step, i)
    requires step.TakeLength? || step.TakePayload? || step.Verdict?
    ensures Inv(Apply(s, step))
  {
    OneLoop(s, i);
    hide Inv, InvLedger, LengthTaken, PayloadTaken, Judged, Frame, Parse;
    assert s.loops == [s.loops[0]];
    match step
    case TakeLength(_) => TakeLengthKeeps(s);
    case TakePayload(_) => TakePayloadKeeps(s);
    case Verdict(_, final) => VerdictKeeps(s, final);
    case _ =>
  }

  lemma EndStepExact(s: State, step: Step, i: nat)
    requires Inv(s) && Enabled(s, step) && i < |s.loops| && ByLoop(step, i)
    requires step.Commit? || step.StoreOffset? || step.RollBack?
    ensures Inv(Apply(s, step)) <==> Safe(s, step)
  {
    OneLoop(s, i);
    hide Inv, InvLedger, Goto, Committed, Rollback, Frame, Parse;
    assert s.loops == [s.loops[0]];
    match step
    case Commit(_) => CommitKeeps(s);
    case StoreOffset(_) => StoreOffsetKeeps(s);
    case RollBack(_) => RollBackExact(s);
    case _ =>
  }

  lemma LoopStepExact(s: State, step: Step, i: nat)
    requires Inv(s) && Enabled(s, step) && i < |s.loops| && ByLoop(step, i)
    ensures Inv(Apply(s, step)) <==> Safe(s, step)
  {
    hide Inv, Apply, Enabled;
    if step.Check? || step.Sleep? || step.Quit? || step.StartRead? || step.Clear? {
      RestStepKeeps(s, step, i);
    } else if step.TakeLength? || step.TakePayload? || step.Verdict? {
      ReadStepKeeps(s, step, i);
    } else {
      EndStepExact(s, step, i);
    }
  }

  /**
   * The invariant is kept by every step that is possible, except just the three that Safe excludes; and each of those
   * does break it.
   */
  lemma StepExact(s: State, step: Step)
    requires Inv(s) && Enabled(s, step)
    ensures Inv(Apply(s, step)) <==> Safe(s, step)
  {
    hide Inv, InvLedger;
    match step
    case BeginWrite(r) => LockKeeps(s, r);
    case AppendSome(k) => PutKeeps(s, k);
    case EndWrite => LockKeeps(s, []);
    case SeeIdle => WorkerKeeps(s);
    case SeeData => WorkerKeeps(s);
    case SeeNoData => WorkerKeeps(s);
    case Claim => WorkerKeeps(s);
    case Spawn => SpawnKeeps(s);
    case Check(i) => LoopStepExact(s, step, i);
    case Sleep(i) => LoopStepExact(s, step, i);
    case Quit(i) => LoopStepExact(s, step, i);
    case StartRead(i) => LoopStepExact(s, step, i);
    case TakeLength(i) => LoopStepExact(s, step, i);
    case TakePayload(i) => LoopStepExact(s, step, i);
    case Verdict(i, final) => LoopStepExact(s, step, i);
    case Commit(i) => LoopStepExact(s, step, i);
    case StoreOffset(i) => LoopStepExact(s, step, i);
    case RollBack(i) => LoopStepExact(s, step, i);
    case Clear(i) => LoopStepExact(s, step, i);
    case Crash => CrashExact(s);
  }

  // ---------- whole runs ----------

  ghost predicate Legal(s: State, steps: seq<Step>)
    decreases |steps|
  {
    steps == [] || (Enabled(s, steps[0]) && Safe(s, steps[0]) && Legal(Apply(s, steps[0]), steps[1..]))
  }

  ghost function Run(s: State, steps: seq<Step>): State
    requires Legal(s, steps)
    decreases |steps|
  {
    if steps == [] then s else Run(Apply(s, steps[0]), steps[1..])
  }

  /** A process started on files that hold some finished and some pending records. */
  ghost function Begin(fs: FileState, finished: seq<Bytes>, pending: seq<Bytes>): State {
    State(fs, Unlocked, [], Waiting, false, Ledger(finished + pending, 0, |finished|),
          Verdicts(finished, Count(|finished|), 0))
  }

  function Count(n: nat): (r: seq<nat>)
    ensures |r| == n && forall k | 0 <= k < n :: r[k] == k
  {
    if n == 0 then [] else Count(n - 1) + [n - 1]
  }

  lemma AlreadySettled(finished: seq<Bytes>, pending: seq<Bytes>)
    ensures
      var v := Verdicts(finished, Count(|finished|), 0);
      InOrder(v.settled, v.index, finished + pending) && Done(v.index) == |finished| && InvDone(v, |finished|, false)
  {
  }

  lemma BeginLedger(finished: seq<Bytes>, pending: seq<Bytes>)
    requires AllGood(finished) && AllGood(pending)
    ensures
      var l := Ledger(finished + pending, 0, |finished|);
      && InvLedger(l)
      && FrameAll(l.appended[0..]) == FrameAll(finished) + FrameAll(pending)
      && Start(l, |finished|) == |FrameAll(finished)|
  {
    hide Frame, FrameAll, Parse;
    FrameAllConcat(finished, pending);
    assert (finished + pending)[0..] == finished + pending;
    assert (finished + pending)[0..|finished|] == finished;
  }

  lemma BeginInv(fs: FileState, finished: seq<Bytes>, pending: seq<Bytes>)
    requires Holds(fs, finished, pending)
    ensures Inv(Begin(fs, finished, pending))
  {
    BeginLedger(finished, pending);
    AlreadySettled(finished, pending);
    hide Frame, FrameAll, Parse, InvLedger, Start, InOrder, Done, InvDone, Count;
  }

  lemma {:induction false} RunKeeps(s: State, steps: seq<Step>)
    requires Inv(s) && Legal(s, steps)
    ensures Inv(Run(s, steps))
    decreases |steps|
  {
    hide Inv, Apply, Safe, Enabled;
    if steps != [] {
      StepExact(s, steps[0]);
      RunKeeps(Apply(s, steps[0]), steps[1..]);
    }
  }

  /** Every appended record before the last one settled has been settled, at some place in the order. */
  lemma {:induction false} NoneSkipped(v: Verdicts, appended: seq<Bytes>, k: nat) returns (j: nat)
    requires InOrder(v.settled, v.index, appended) && k < Done(v.index)
    ensures j < |v.index| && v.index[j] == k && v.settled[j] == appended[k]
    ensures forall i | 0 <= i < j :: v.index[i] < k
  {
    j := 0;
    while v.index[j] != k
      invariant j < |v.index|
      invariant forall i | 0 <= i <= j :: v.index[i] <= k
      invariant forall i | 0 <= i < j :: v.index[i] < k
      decreases |v.index| - j
    {
      if j + 1 == |v.index| {
        assert false;
      }
      j := j + 1;
    }
  }

  /**
   * Over every run, from any resting backlog, of appends, rewrites and crashes that avoid the three unsafe steps: the
   * log holds, in order, all records ever appended but a first part, and each record of that part had its final
   * verdict; verdicts come in the order of appending; there are at most as many repeated ones as crashes; and there is
   * never more than one rewrite loop.
   */
  lemma Delivery(fs: FileState, finished: seq<Bytes>, pending: seq<Bytes>, steps: seq<Step>)
    requires Holds(fs, finished, pending) && Legal(Begin(fs, finished, pending), steps)
    ensures
      var s := Run(Begin(fs, finished, pending), steps);
      && Inv(s)
      && s.fs.dat == FrameAll(s.l.appended[s.l.base..]) + Torn(s.writer)
      && (forall k | 0 <= k < s.l.base :: s.l.appended[k] in s.v.settled)
      && InOrder(s.v.settled, s.v.index, s.l.appended)
      && |s.v.settled| <= Done(s.v.index) + s.v.crashes
      && |s.loops| <= 1
  {
    BeginInv(fs, finished, pending);
    RunKeeps(Begin(fs, finished, pending), steps);
    var s := Run(Begin(fs, finished, pending), steps);
    forall k | 0 <= k < s.l.base ensures s.l.appended[k] in s.v.settled {
      var j := NoneSkipped(s.v, s.l.appended, k);
      assert s.v.settled[j] == s.l.appended[k];
    }
  }

  /**
   * Between two rewrites and with no write under way, the backlog is a queue at rest: the reader stands at the
   * committed offset, which is a record boundary, and the data flag says whether records are pending.
   */
  lemma AtRest(s: State)
    requires Inv(s) && LockFree(s) && Resting(Place(s.loops))
    ensures Holds(s.fs, s.l.appended[s.l.base..s.l.committed], s.l.appended[s.l.committed..])
  {
    hide Frame, FrameAll, Parse;
    LogSplit(s.l, s.l.committed);
    assert AllGood(s.l.appended[s.l.base..s.l.committed]);
    assert AllGood(s.l.appended[s.l.committed..]);
  }

  // ---------- the steps and the methods ----------

  /** A record is read whole while a writer holds the lock and has got anywhere with the next one. */
  lemma ReadBesideWriter(s: State)
    requires Inv(s) && s.loops == [ReadLength]
    ensures
      var steps := [TakeLength(0), TakePayload(0)];
      && Legal(s, steps)
      && Run(s, steps).loops == [Sending(s.l.appended[s.l.committed])] && Run(s, steps).writer == s.writer
  {
    TakeLengthKeeps(s);
    var t := LengthTaken(s, 0);
    TakePayloadKeeps(t);
    TakenBeside(s);
    hide *;
    RunTwo(s, TakeLength(0), TakePayload(0));
  }

  lemma TakenBeside(s: State)
    requires s.loops == [ReadLength] && LengthTaken(s, 0).loops != [] && LengthTaken(s, 0).loops[0].ReadPayload?
    ensures
      var t := LengthTaken(s, 0);
      && Enabled(s, TakeLength(0)) && Safe(s, TakeLength(0)) && Apply(s, TakeLength(0)) == t
      && Enabled(t, TakePayload(0)) && Safe(t, TakePayload(0)) && Apply(t, TakePayload(0)) == PayloadTaken(t, 0)
      && t.l == s.l && PayloadTaken(t, 0).writer == s.writer
  {
    hide ReadFull, Frame;
  }

  lemma RunTwo(s: State, a: Step, b: Step)
    requires Enabled(s, a) && Safe(s, a)
    requires var s1 := Apply(s, a); Enabled(s1, b) && Safe(s1, b)
    ensures Legal(s, [a, b]) && Run(s, [a, b]) == Apply(Apply(s, a), b)
  {
    hide Apply, Enabled, Safe;
    assert [b][1..] == [] && [a, b][1..] == [b];
    assert Legal(Apply(Apply(s, a), b), []);
    assert Legal(Apply(s, a), [b]) && Run(Apply(s, a), [b]) == Apply(Apply(s, a), b);
  }

  /** A write that nothing interrupts is FileBackend.Write. */
  lemma SoloWrite(s: State, r: Bytes)
    requires LockFree(s) && Good(r)
    ensures
      var steps := [BeginWrite(r), AppendSome(4), AppendSome(|r|), EndWrite];
      && Legal(s, steps)
      && Run(s, steps) == s.(fs := Write(s.fs, r), l := s.l.(appended := s.l.appended + [r]))
  {
    GoodNotEmpty(r);
    FrameParts(r);
    hide PutUint32, Parse, FrameAll, Frame, Good;
    var w1, w2, w3 := Writing(r, 0), Writing(r, 4), Writing(r, 4 + |r|);
    var fs2 := Append(s.fs, PutUint32(|r| % U32));
    var fs3 := Append(fs2, r);
    var l3 := s.l.(appended := s.l.appended + [r]);
    var s1 := s.(writer := w1);
    var s2 := s.(writer := w2, fs := fs2);
    var s3 := s.(writer := w3, fs := fs3, l := l3);
    assert Apply(s, BeginWrite(r)) == s1;
    hide Append;
    assert Apply(s1, AppendSome(4)) == s2;
    assert Apply(s2, AppendSome(|r|)) == s3;
    RunFour(s, BeginWrite(r), AppendSome(4), AppendSome(|r|), EndWrite);
  }

  lemma GoodNotEmpty(r: Bytes)
    requires Good(r)
    ensures r != []
  {
    assert SplitN([], 3) == [[]];
  }

  lemma FrameParts(r: Bytes)
    ensures Frame(r)[0..4] == PutUint32(|r| % U32) && Frame(r)[4..4 + |r|] == r && |Frame(r)| == 4 + |r|
  {
    hide PutUint32;
  }

  lemma RunFour(s: State, a: Step, b: Step, c: Step, d: Step)
    requires Enabled(s, a) && Safe(s, a)
    requires var s1 := Apply(s, a); Enabled(s1, b) && Safe(s1, b)
    requires var s2 := Apply(Apply(s, a), b); Enabled(s2, c) && Safe(s2, c)
    requires var s3 := Apply(Apply(Apply(s, a), b), c); Enabled(s3, d) && Safe(s3, d)
    ensures Legal(s, [a, b, c, d]) && Run(s, [a, b, c, d]) == Apply(Apply(Apply(Apply(s, a), b), c), d)
  {
    hide Apply, Enabled, Safe;
    var s3 := Apply(Apply(Apply(s, a), b), c);
    assert [d][1..] == [] && [c, d][1..] == [d] && [b, c, d][1..] == [c, d] && [a, b, c, d][1..] == [b, c, d];
    assert Legal(Apply(s3, d), []);
    assert Legal(s3, [d]) && Run(s3, [d]) == Apply(s3, d);
    var s2 := Apply(Apply(s, a), b);
    assert Legal(s2, [c, d]) && Run(s2, [c, d]) == Run(s3, [d]);
    assert Legal(Apply(s, a), [b, c, d]) && Run(Apply(s, a), [b, c, d]) == Run(s2, [c, d]);
  }

  /**
   * The loop's steps for one record, taken without interruption, are Backend.Rewrite: the same record is judged and
   * the same file state is left.
   */
  lemma SoloRewrite(s: State, send: Point -> Outcome)
    requires Inv(s) && LockFree(s) && s.loops == [Checked] && s.fs.rec.Some?
    ensures
      var s1 := Goto(s, 0, ReadLength);
      var s2 := LengthTaken(s1, 0);
      && s2.loops[0].ReadPayload?
      && var s3 := PayloadTaken(s2, 0);
      && s3.loops[0].Sending? && Parse(s3.loops[0].record).Some?
      && var pt := Parse(s3.loops[0].record).value;
      var s4 := Judged(s3, 0, Final(send(pt)));
      && Rewrite(s.fs, send).sent == Some(pt)
      && Rewrite(s.fs, send).state ==
         if s4.loops[0] == Refused then Rollback(s4.fs)
         else
           var s5 := Committed(s4, 0);
           if s5.loops[0] == Cleaned then s5.fs.(rec := Some(s5.fs.consumer)) else s5.fs
  {
    hide PutUint32, Parse, FrameAll;
    var p := s.l.appended[s.l.committed];
    ReadsWhole(s.l, s.fs, s.writer);
    StartNext(s.l, s.l.committed);
    var fs1 := s.fs.(consumer := s.fs.consumer + 4);
    ReadsWhole(s.l, fs1, s.writer);
    assert p in s.l.appended;
  }
}
