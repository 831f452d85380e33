/**
 * The file-backed backlog of one backend (backend/file.go) and the rewriter's single step over it (backend/backend.go).
 * A FileState is what one process sees: the bytes of the .dat file, the offset stored in the .rec file (None while that
 * file is empty), the positions of the two .dat handles and the data flag.
 */
module Backlog {
  import opened Prelude
  import opened Binary
  import opened Record

  datatype FileState = FileState(dat: Bytes, rec: Option<nat>, consumer: nat, producer: nat, dataflag: bool)

  // ---------- what each operation does to the state ----------

  /** A write through a handle opened with O_APPEND: the bytes go to the end and the handle follows. */
  function Append(s: FileState, b: Bytes): FileState {
    s.(dat := s.dat + b, producer := |s.dat| + |b|)
  }

  function Write(s: FileState, p: Bytes): FileState {
    Append(Append(s, PutUint32(|p| % U32)), p).(dataflag := true)
  }

  /** io.ReadFull at the consumer: n bytes, or an error after taking what is left. */
  function ReadFull(s: FileState, n: nat): (r: (Option<Bytes>, FileState))
    ensures r.0.Some? ==> |r.0.value| == n
  {
    if n == 0 then (Some([]), s)
    else if s.consumer + n <= |s.dat| then
      (Some(s.dat[s.consumer..s.consumer + n]), s.(consumer := s.consumer + n))
    else (None, if s.consumer <= |s.dat| then s.(consumer := |s.dat|) else s)
  }

  datatype ReadResult = NoData | ReadError | Data(bytes: Bytes)

  function Read(s: FileState): (ReadResult, FileState) {
    if !s.dataflag then (NoData, s)
    else
      var (length, s1) := ReadFull(s, 4);
      match length
      case None => (ReadError, s1)
      case Some(b) =>
        var (p, s2) := ReadFull(s1, GetUint32(b));
        (if p.Some? then Data(p.value) else ReadError, s2)
  }

  /** An empty .rec file gives io.EOF before the seek, and the consumer stays where it is. */
  function Rollback(s: FileState): FileState {
    if s.rec.Some? then s.(consumer := s.rec.value) else s
  }

  function CleanUp(s: FileState): FileState {
    s.(dat := [], consumer := 0, producer := 0, dataflag := false)
  }

  function Update(s: FileState): FileState {
    var s1 := if s.producer == s.consumer then CleanUp(s) else s;
    s1.(rec := Some(s1.consumer))
  }

  /** What NewFileBackend makes of the two files it finds. */
  function Open(dat: Bytes, rec: Option<nat>): FileState {
    var s := Rollback(FileState(dat, rec, 0, |dat|, false));
    s.(dataflag := s.producer > s.consumer)
  }

  // ---------- the rewriter's step ----------

  datatype Outcome = Accepted | BadRequest | NotFound | Failed

  /** A record is finished with once the backend has taken it or has refused it for good. */
  predicate Final(o: Outcome) { !o.Failed? }

  datatype Rewritten = Rewritten(sent: Option<Point>, err: bool, state: FileState)

  function Rewrite(s: FileState, send: Point -> Outcome): Rewritten {
    var (r, s1) := Read(s);
    match r
    case NoData => Rewritten(None, false, s1)
    case ReadError => Rewritten(None, true, s1)
    case Data(b) =>
      match Parse(b)
      case None => Rewritten(None, |SplitN(b, 3)| == 3, s1)
      case Some(pt) =>
        if Final(send(pt)) then Rewritten(Some(pt), false, Update(s1))
        else Rewritten(Some(pt), s1.rec.None?, Rollback(s1))
  }

  // ---------- the backlog as a queue ----------

  predicate Good(r: Bytes) { Fits(r) && Parse(r).Some? }

  ghost predicate AllGood(rs: seq<Bytes>) {
    && (forall r | r in rs :: Fits(r))
    && (forall r {:trigger Parse(r)} | r in rs :: Parse(r).Some?)
  }

  /**
   * The state at rest between two rewrites: the log is the frames of the records already finished with and of those
   * still pending, and the committed and the read position both stand between the two. An empty .rec counts as 0.
   */
  ghost predicate Holds(s: FileState, finished: seq<Bytes>, pending: seq<Bytes>) {
    && AllGood(finished) && AllGood(pending)
    && s.dat == FrameAll(finished) + FrameAll(pending)
    && s.producer == |s.dat|
    && s.consumer == |FrameAll(finished)|
    && (s.rec == Some(s.consumer) || (s.rec == None && finished == []))
    && (s.dataflag <==> pending != [])
  }

  /** One file state holds one queue: nothing but the bytes decides what is pending. */
  lemma HoldsOneQueue(s: FileState, f1: seq<Bytes>, p1: seq<Bytes>, f2: seq<Bytes>, p2: seq<Bytes>)
    requires Holds(s, f1, p1) && Holds(s, f2, p2)
    ensures p1 == p2 && f1 == f2
  {
    hide Frame;
    assert FrameAll(f1) == s.dat[..s.consumer] == FrameAll(f2);
    assert FrameAll(p1) == s.dat[s.consumer..] == FrameAll(p2);
    FrameAllInjective(f1, f2);
    FrameAllInjective(p1, p2);
  }

  lemma WriteAppendsFrame(s: FileState, p: Bytes)
    ensures Write(s, p) == s.(dat := s.dat + Frame(p), producer := |s.dat| + |Frame(p)|, dataflag := true)
  {
    hide PutUint32, GetUint32;
    assert s.dat + PutUint32(|p| % U32) + p == s.dat + Frame(p);
  }

  /** Write enqueues. */
  lemma WriteEnqueues(s: FileState, finished: seq<Bytes>, pending: seq<Bytes>, p: Bytes)
    requires Holds(s, finished, pending) && Good(p)
    ensures Holds(Write(s, p), finished, pending + [p])
  {
    hide Frame;
    WriteAppendsFrame(s, p);
    FrameAllConcat(pending, [p]);
    FrameAllOne(p);
    assert s.dat + Frame(p) == FrameAll(finished) + (FrameAll(pending) + Frame(p));
  }

  /** ReadFull takes exactly the next bytes when they are there. */
  lemma ReadFullAt(s: FileState, a: Bytes, b: Bytes, c: Bytes)
    requires s.dat == a + b + c && s.consumer == |a|
    ensures ReadFull(s, |b|) == (Some(b), s.(consumer := |a| + |b|))
  {
    assert (a + b + c)[|a|..|a| + |b|] == b;
  }

  /** Reading at the start of a whole frame gives its record and moves to the frame's end. */
  lemma ReadFrameAt(s: FileState, a: Bytes, p: Bytes, c: Bytes)
    requires s.dat == a + (Frame(p) + c) && s.consumer == |a| && Fits(p) && s.dataflag
    ensures Read(s) == (Data(p), s.(consumer := |a| + |Frame(p)|))
  {
    hide PutUint32, GetUint32;
    var length := PutUint32(|p|);
    assert s.dat == a + length + (p + c);
    ReadFullAt(s, a, length, p + c);
    assert s.dat == (a + length) + p + c;
    ReadFullAt(s.(consumer := |a| + 4), a + length, p, c);
  }

  /**
   * The 32-bit length: a frame is read back as the record that was framed exactly when the record is shorter than
   * 2^32 bytes.
   */
  lemma FramedReadExact(s: FileState, a: Bytes, p: Bytes, c: Bytes)
    requires s.dat == a + (Frame(p) + c) && s.consumer == |a| && s.dataflag
    ensures Read(s).0 == Data(p) <==> Fits(p)
  {
    hide PutUint32;
    if Fits(p) {
      ReadFrameAt(s, a, p, c);
    } else {
      var length := PutUint32(|p| % U32);
      assert s.dat == a + length + (p + c);
      ReadFullAt(s, a, length, p + c);
    }
  }

  /** Every record FlushBuffer can write is a good one, up to the 32-bit length. */
  lemma JoinIsGood(db: Bytes, rp: Bytes, p: Bytes)
    ensures Good(Join(db, rp, p)) <==> |QueryEscape(db)| + |QueryEscape(rp)| + |p| + 2 < U32
  {
    ParseJoin(db, rp, p);
  }

  /** Read returns the oldest pending record, whole, and moves past its frame and no further. */
  lemma ReadTakesOldest(s: FileState, finished: seq<Bytes>, pending: seq<Bytes>)
    requires Holds(s, finished, pending) && pending != []
    ensures Read(s) == (Data(pending[0]), s.(consumer := |FrameAll(finished)| + |Frame(pending[0])|))
  {
    hide Frame;
    assert pending[0] in pending;
    ReadFrameAt(s, FrameAll(finished), pending[0], FrameAll(pending[1..]));
  }

  lemma FrameAllNonEmpty(rs: seq<Bytes>)
    ensures FrameAll(rs) == [] <==> rs == []
  {
    hide PutUint32, GetUint32;
  }

  lemma FrameAllSnoc(a: seq<Bytes>, r: Bytes)
    ensures FrameAll(a + [r]) == FrameAll(a) + Frame(r)
  {
    FrameAllConcat(a, [r]);
    FrameAllOne(r);
  }

  /** The same log with the line between finished and pending moved one record on. */
  lemma ShiftOne(finished: seq<Bytes>, pending: seq<Bytes>)
    requires pending != []
    ensures FrameAll(finished) + FrameAll(pending) == FrameAll(finished + [pending[0]]) + FrameAll(pending[1..])
    ensures |FrameAll(finished + [pending[0]])| == |FrameAll(finished)| + |Frame(pending[0])|
  {
    hide Frame;
    var a, b, c := FrameAll(finished), Frame(pending[0]), FrameAll(pending[1..]);
    FrameAllSnoc(finished, pending[0]);
    assert a + (b + c) == a + b + c;
  }

  lemma UpdateDrains(s: FileState, finished: seq<Bytes>, r: Bytes)
    requires Holds(s, finished, [r])
    ensures Holds(Update(s.(consumer := |FrameAll(finished)| + |Frame(r)|)), [], [])
  {
    FrameAllOne(r);
  }

  lemma UpdateMovesOn(s: FileState, finished: seq<Bytes>, pending: seq<Bytes>)
    requires Holds(s, finished, pending) && |pending| > 1
    ensures Holds(
      Update(s.(consumer := |FrameAll(finished)| + |Frame(pending[0])|)), finished + [pending[0]], pending[1..])
  {
    hide Frame, FrameAll, Parse;
    ShiftOne(finished, pending);
    FrameAllNonEmpty(pending[1..]);
    assert pending[0] in pending;
  }

  /** What the pending records become after the oldest one is finished with; a drained log starts over. */
  lemma UpdateDequeues(s: FileState, finished: seq<Bytes>, pending: seq<Bytes>)
    requires Holds(s, finished, pending) && pending != []
    ensures
      var s' := Update(s.(consumer := |FrameAll(finished)| + |Frame(pending[0])|));
      Holds(s', if |pending| == 1 then [] else finished + [pending[0]], pending[1..])
  {
    hide Holds, Frame, Update;
    if |pending| == 1 {
      assert pending == [pending[0]] && pending[1..] == [];
      UpdateDrains(s, finished, pending[0]);
    } else {
      UpdateMovesOn(s, finished, pending);
    }
  }

  /**
   * The rewriter's step on a resting backlog: it offers the oldest pending record, as the database, policy and payload
   * it was queued with; on a final verdict exactly that record leaves the queue; on a failure the state is as before,
   * provided the .rec file has been written.
   */
  lemma RewriteStep(s: FileState, finished: seq<Bytes>, pending: seq<Bytes>, send: Point -> Outcome)
    requires Holds(s, finished, pending) && pending != []
    ensures
      && Parse(pending[0]).Some?
      && var pt := Parse(pending[0]).value;
      var w := Rewrite(s, send);
      && w.sent == Some(pt)
      && (send(pt).Accepted? || send(pt).BadRequest? || send(pt).NotFound? ==>
            && !w.err
            && Holds(w.state, if |pending| == 1 then [] else finished + [pending[0]], pending[1..]))
      && (send(pt).Failed? ==> (w.state == s <==> s.rec.Some?) && (w.err <==> s.rec.None?))
  {
    hide Frame;
    assert pending[0] in pending;
    ReadTakesOldest(s, finished, pending);
    UpdateDequeues(s, finished, pending);
  }

  /** With an empty .rec file a failed send leaves the consumer behind the record, and the queue is no longer held. */
  lemma FailureOnFreshRecSkips(
    s: FileState, pending: seq<Bytes>, pt: Point, send: Point -> Outcome, f: seq<Bytes>, p: seq<Bytes>)
    requires Holds(s, [], pending) && pending != [] && s.rec == None
    requires Parse(pending[0]) == Some(pt) && send(pt).Failed?
    ensures
      var w := Rewrite(s, send);
      w.state.consumer == |Frame(pending[0])| && w.state.dat == s.dat && !Holds(w.state, f, p)
  {
    hide Frame;
    ReadTakesOldest(s, [], pending);
    assert FrameAll([]) == [];
    var w := Rewrite(s, send);
    assert w.state == s.(consumer := |Frame(pending[0])|);
    assert f == [] ==> |FrameAll(f)| == 0;
  }

  /**
   * The loss that follows on a backend whose .rec file was never written: one record queued, its send failed, a second
   * record queued and accepted. The log is truncated with the first record in it, which no send accepted.
   */
  lemma FreshRecLosesRecord(r1: Bytes, r2: Bytes, p1: Point, p2: Point, down: Point -> Outcome, up: Point -> Outcome)
    requires Fits(r1) && Fits(r2) && Parse(r1) == Some(p1) && Parse(r2) == Some(p2)
    requires down(p1).Failed? && up(p2).Accepted?
    ensures
      var first := Rewrite(Write(Open([], None), r1), down);
      var second := Rewrite(Write(first.state, r2), up);
      && first.sent == Some(p1)
      && second.sent == Some(p2)
      && second.state == FileState([], Some(0), 0, 0, false)
  {
    hide Parse, Frame;
    var s0 := Open([], None);
    assert [r1] == [] + [r1];
    WriteEnqueues(s0, [], [], r1);
    var s1 := Write(s0, r1);
    ReadTakesOldest(s1, [], [r1]);
    WriteAppendsFrame(s0, r1);
    assert [] + Frame(r1) == Frame(r1);
    var s2 := Rewrite(s1, down).state;
    assert s2 == FileState(Frame(r1), None, |Frame(r1)|, |Frame(r1)|, true);
    WriteAppendsFrame(s2, r2);
    assert Frame(r1) + Frame(r2) == Frame(r1) + (Frame(r2) + []);
    ReadFrameAt(Write(s2, r2), Frame(r1), r2, []);
  }

  /** Restarting on the files of a resting backlog gives the same queue at the same place. */
  lemma OpenResumes(s: FileState, finished: seq<Bytes>, pending: seq<Bytes>)
    requires Holds(s, finished, pending)
    ensures Open(s.dat, s.rec) == s
  {
    hide Frame;
    if pending != [] {
      assert |FrameAll(pending)| >= |Frame(pending[0])| > 0;
    }
    assert FrameAll([]) == [];
  }

  // ---------- the objects of the source ----------

  class FileBackend {
    var dat: Bytes            // the .dat file
    var rec: Option<nat>      // the .rec file
    var consumer: nat
    var producer: nat
    var dataflag: bool

    function State(): FileState
      reads this
    {
      FileState(dat, rec, consumer, producer, dataflag)
    }

    /** NewFileBackend over files left by an earlier process (or empty ones). */
    constructor (oldDat: Bytes, oldRec: Option<nat>)
      ensures State() == Open(oldDat, oldRec)
    {
      dat, rec, consumer, producer := oldDat, oldRec, 0, 0;
      dataflag := false;
      new;
      var _ := RollbackMeta();
      producer := |dat|;
      dataflag := producer > consumer;
    }

    method WriteRecord(p: Bytes)
      modifies this
      ensures State() == Write(old(State()), p)
    {
      var length := |p| % U32;
      dat := dat + PutUint32(length);
      producer := |dat|;
      dat := dat + p;
      producer := |dat|;
      dataflag := true;
    }

    method IsData() returns (b: bool)
      ensures b == dataflag
    {
      b := dataflag;
    }

    method ReadBytes(n: nat) returns (p: Option<Bytes>)
      modifies this`consumer
      ensures (p, State()) == ReadFull(old(State()), n)
    {
      if n == 0 {
        return Some([]);
      }
      if consumer + n <= |dat| {
        p := Some(dat[consumer..consumer + n]);
        consumer := consumer + n;
      } else {
        p := None;
        if consumer <= |dat| {
          consumer := |dat|;
        }
      }
    }

    method ReadRecord() returns (r: ReadResult)
      modifies this`consumer
      ensures (r, State()) == Read(old(State()))
    {
      var some := IsData();
      if !some {
        return NoData;
      }
      var length := ReadBytes(4);
      if length.None? {
        return ReadError;
      }
      var p := ReadBytes(GetUint32(length.value));
      r := if p.Some? then Data(p.value) else ReadError;
    }

    method RollbackMeta() returns (err: bool)
      modifies this`consumer
      ensures State() == Rollback(old(State()))
      ensures err <==> rec.None?
    {
      if rec.None? {
        return true;
      }
      consumer := rec.value;
      err := false;
    }

    method CleanUpFiles()
      modifies this
      ensures State() == CleanUp(old(State()))
    {
      consumer := 0;
      dat := [];
      producer := 0;
      dataflag := false;
    }

    method UpdateMeta()
      modifies this
      ensures State() == Update(old(State()))
    {
      var offset := consumer;
      if producer == offset {
        CleanUpFiles();
        offset := 0;
      }
      rec := Some(offset);
    }
  }

  /** What happens around one turn of the rewrite loop: shutdown, an inactive backend, or a send with its outcome. */
  datatype Turn = Stopped | Inactive | Sends(send: Point -> Outcome)

  /** How many pending records a course of events disposes of, the oldest first. */
  function Settles(pending: seq<Bytes>, turns: seq<Turn>): (n: nat)
    ensures n <= |pending|
  {
    if pending == [] || turns == [] || turns[0].Stopped? then 0
    else if turns[0].Sends? && Parse(pending[0]).Some? && Final(turns[0].send(Parse(pending[0]).value)) then
      1 + Settles(pending[1..], turns[1..])
    else Settles(pending, turns[1..])
  }

  /** A turn after which the oldest record is still the oldest: the backend is not asked, or the send fails. */
  predicate Keeps(turn: Turn, r: Bytes) {
    turn.Inactive? || (turn.Sends? && Parse(r).Some? && turn.send(Parse(r).value).Failed?)
  }

  /** A turn that settles it: it is taken, or refused for good. */
  predicate Takes(turn: Turn, r: Bytes) {
    && turn.Sends? && Parse(r).Some?
    && var o := turn.send(Parse(r).value);
    o.Accepted? || o.BadRequest? || o.NotFound?
  }

  ghost predicate Rising(at: seq<nat>) { forall i, j | 0 <= i < j < |at| :: at[i] < at[j] }

  ghost predicate AllTaken(pending: seq<Bytes>, turns: seq<Turn>, at: seq<nat>) {
    |at| <= |pending| && forall i | 0 <= i < |at| :: at[i] < |turns| && Takes(turns[at[i]], pending[i])
  }

  ghost predicate NoStop(turns: seq<Turn>, end: nat) { forall t | 0 <= t < end && t < |turns| :: !turns[t].Stopped? }

  /** When the first pending records are settled, if that is what a course of events does. */
  ghost predicate SettledAt(pending: seq<Bytes>, turns: seq<Turn>, at: seq<nat>) {
    && Rising(at) && AllTaken(pending, turns, at)
    && NoStop(turns, if at == [] then 0 else at[|at| - 1])
  }

  /** Turn t comes when the first i records are settled and no more. */
  ghost predicate Between(at: seq<nat>, i: nat, t: nat) {
    i <= |at| && (i == 0 || at[i - 1] < t) && (i == |at| || t < at[i])
  }

  /** In between nothing else happens to the record whose turn it is, until the loop is stopped or has no more. */
  ghost predicate NothingElse(pending: seq<Bytes>, turns: seq<Turn>, at: seq<nat>) {
    forall i: nat, t: nat | i < |pending| && t < |turns| && Between(at, i, t) ::
      Keeps(turns[t], pending[i]) || StoppedBy(turns, t)
  }

  ghost predicate StoppedBy(turns: seq<Turn>, t: nat) { exists u: nat :: u <= t && u < |turns| && turns[u].Stopped? }

  function Later(at: seq<nat>): (l: seq<nat>)
    ensures |l| == |at| && forall i | 0 <= i < |at| :: l[i] == at[i] + 1
  {
    seq(|at|, i requires 0 <= i < |at| => at[i] + 1)
  }

  lemma StoppedLater(turns: seq<Turn>, t: nat)
    requires turns != [] && StoppedBy(turns[1..], t)
    ensures StoppedBy(turns, t + 1)
  {
    var u: nat :| u <= t && u < |turns[1..]| && turns[1..][u].Stopped?;
    assert turns[u + 1].Stopped?;
  }

  lemma NoStopLater(turns: seq<Turn>, end: nat)
    requires turns != [] && !turns[0].Stopped? && NoStop(turns[1..], end)
    ensures NoStop(turns, end + 1)
  {
    forall t | 0 <= t < end + 1 && t < |turns| ensures !turns[t].Stopped? {
      if t > 0 {
        assert turns[1..][t - 1] == turns[t];
      }
    }
  }

  lemma TakenLater(pending: seq<Bytes>, turns: seq<Turn>, at: seq<nat>)
    requires turns != [] && AllTaken(pending, turns[1..], at)
    ensures AllTaken(pending, turns, Later(at))
  {
    hide Takes;
    forall i | 0 <= i < |at| ensures Later(at)[i] < |turns| && Takes(turns[Later(at)[i]], pending[i]) {
      assert turns[1..][at[i]] == turns[at[i] + 1];
    }
  }

  lemma TakenCons(pending: seq<Bytes>, turns: seq<Turn>, l: seq<nat>)
    requires pending != [] && turns != [] && Takes(turns[0], pending[0]) && AllTaken(pending[1..], turns, l)
    ensures AllTaken(pending, turns, [0] + l)
  {
    hide Takes;
    var at := [0] + l;
    forall i | 0 <= i < |at| ensures at[i] < |turns| && Takes(turns[at[i]], pending[i]) {
      if i > 0 {
        assert at[i] == l[i - 1] && pending[i] == pending[1..][i - 1];
      }
    }
  }

  lemma TakenFirst(pending: seq<Bytes>, turns: seq<Turn>, rest: seq<nat>)
    requires pending != [] && turns != [] && Takes(turns[0], pending[0])
    requires SettledAt(pending[1..], turns[1..], rest)
    ensures SettledAt(pending, turns, [0] + Later(rest))
  {
    StopTakesNothing(turns[0], pending[0]);
    hide Takes, AllTaken, NoStop;
    TakenLater(pending[1..], turns, rest);
    TakenCons(pending, turns, Later(rest));
    if rest != [] {
      NoStopLater(turns, rest[|rest| - 1]);
    } else {
      NoStopNothing(turns);
    }
  }

  lemma NoStopNothing(turns: seq<Turn>)
    ensures NoStop(turns, 0)
  {
  }

  lemma NothingElseTaken(pending: seq<Bytes>, turns: seq<Turn>, rest: seq<nat>)
    requires pending != [] && turns != [] && NothingElse(pending[1..], turns[1..], rest)
    ensures NothingElse(pending, turns, [0] + Later(rest))
  {
    hide Keeps, StoppedBy;
    var at := [0] + Later(rest);
    forall i: nat, t: nat | i < |pending| && t < |turns| && Between(at, i, t)
      ensures Keeps(turns[t], pending[i]) || StoppedBy(turns, t)
    {
      assert i > 0 && t > 0;
      assert turns[1..][t - 1] == turns[t] && pending[1..][i - 1] == pending[i];
      assert Between(rest, i - 1, t - 1);
      if StoppedBy(turns[1..], t - 1) {
        StoppedLater(turns, t - 1);
      }
    }
  }

  lemma StopTakesNothing(turn: Turn, r: Bytes)
    requires Takes(turn, r)
    ensures !turn.Stopped?
  {
  }

  lemma KeptFirst(pending: seq<Bytes>, turns: seq<Turn>, rest: seq<nat>)
    requires turns != [] && !turns[0].Stopped? && SettledAt(pending, turns[1..], rest)
    ensures SettledAt(pending, turns, Later(rest))
  {
    hide AllTaken, NoStop;
    TakenLater(pending, turns, rest);
    if rest != [] {
      NoStopLater(turns, rest[|rest| - 1]);
    } else {
      NoStopNothing(turns);
    }
  }

  lemma NothingElseKept(pending: seq<Bytes>, turns: seq<Turn>, rest: seq<nat>)
    requires pending != [] && turns != [] && Keeps(turns[0], pending[0])
    requires NothingElse(pending, turns[1..], rest)
    ensures NothingElse(pending, turns, Later(rest))
  {
    hide Keeps, StoppedBy;
    var at := Later(rest);
    forall i: nat, t: nat | i < |pending| && t < |turns| && Between(at, i, t)
      ensures Keeps(turns[t], pending[i]) || StoppedBy(turns, t)
    {
      if t > 0 {
        assert turns[1..][t - 1] == turns[t];
        assert Between(rest, i, t - 1);
        if StoppedBy(turns[1..], t - 1) {
          StoppedLater(turns, t - 1);
        }
      }
    }
  }

  /** So many records are settled as there are turns, in order and before a stop, that take the oldest one. */
  lemma {:induction false} SettlesExact(pending: seq<Bytes>, turns: seq<Turn>) returns (at: seq<nat>)
    requires AllGood(pending)
    ensures |at| == Settles(pending, turns) && SettledAt(pending, turns, at) && NothingElse(pending, turns, at)
    decreases |turns|
  {
    hide Parse;
    at := [];
    if pending != [] && turns != [] {
      if turns[0].Stopped? {
        assert forall t: nat | t < |turns| :: StoppedBy(turns, t);
      } else {
        assert pending[0] in pending;
        OneOrOther(turns[0], pending[0]);
        hide Takes, Keeps, SettledAt, NothingElse, Final;
        if Takes(turns[0], pending[0]) {
          var rest := SettlesExact(pending[1..], turns[1..]);
          TakenFirst(pending, turns, rest);
          NothingElseTaken(pending, turns, rest);
          at := [0] + Later(rest);
        } else {
          var rest := SettlesExact(pending, turns[1..]);
          KeptFirst(pending, turns, rest);
          NothingElseKept(pending, turns, rest);
          at := Later(rest);
        }
      }
    }
  }

  lemma OneOrOther(turn: Turn, r: Bytes)
    requires Parse(r).Some? && !turn.Stopped?
    ensures Keeps(turn, r) <==> !Takes(turn, r)
    ensures Takes(turn, r) <==> turn.Sends? && Final(turn.send(Parse(r).value))
  {
    hide Parse;
  }

  class Backend {
    const fb: FileBackend
    var rewriting: bool

    constructor (fb: FileBackend)
      ensures this.fb == fb && !rewriting
    {
      this.fb := fb;
      rewriting := false;
    }

    method RewriteOne(send: Point -> Outcome) returns (sent: Option<Point>, err: bool)
      modifies fb
      ensures Rewritten(sent, err, fb.State()) == Rewrite(old(fb.State()), send)
    {
      sent := None;
      var b := fb.ReadRecord();
      if b.ReadError? {
        return None, true;
      }
      if b.NoData? {
        return None, false;
      }
      var p := SplitN(b.bytes, 3);
      if |p| < 3 {
        return None, false;
      }
      var db := QueryUnescape(p[0]);
      if db.None? {
        return None, true;
      }
      var rp := QueryUnescape(p[1]);
      if rp.None? {
        return None, true;
      }
      var pt := Point(db.value, rp.value, p[2]);
      sent := Some(pt);
      match send(pt) {
        case Failed =>
          err := fb.RollbackMeta();
          return;
        case _ =>
      }
      fb.UpdateMeta();
      err := false;
    }

    /** RewriteOne where the backlog is known to hold a queue: what it sends and what it leaves behind. */
    method RewriteHeld(send: Point -> Outcome, ghost finished: seq<Bytes>, ghost pending: seq<Bytes>)
      returns (sent: Point, final: bool)
      requires Holds(fb.State(), finished, pending) && pending != [] && fb.rec.Some?
      modifies fb
      ensures Parse(pending[0]) == Some(sent) && final == Final(send(sent))
      ensures final <==> send(sent).Accepted? || send(sent).BadRequest? || send(sent).NotFound?
      ensures final ==>
        Holds(fb.State(), if |pending| == 1 then [] else finished + [pending[0]], pending[1..]) && fb.rec.Some?
      ensures !final ==> fb.State() == old(fb.State())
    {
      RewriteStep(fb.State(), finished, pending, send);
      ReadTakesOldest(fb.State(), finished, pending);
      var s, err := RewriteOne(send);
      sent := s.value;
      final := Final(send(sent));
    }

    /**
     * RewriteLoop against any finite course of events: the points it gets a final verdict for are, in order, the oldest
     * pending records, as many as the events dispose of; exactly these leave the queue; and the rewriting flag is
     * cleared only when the queue has been drained.
     */
    method RewriteLoop(turns: seq<Turn>, ghost finished: seq<Bytes>, ghost pending: seq<Bytes>)
      returns (settled: seq<Point>, exited: bool)
      requires Holds(fb.State(), finished, pending) && fb.rec.Some? && rewriting
      modifies this, fb
      ensures |settled| == Settles(pending, turns)
      ensures forall i | 0 <= i < |settled| :: Parse(pending[i]) == Some(settled[i])
      ensures exists f :: Holds(fb.State(), f, pending[|settled|..])
      ensures fb.rec.Some?
      ensures exited ==> (!rewriting <==> |settled| == |pending|)
      ensures !exited ==> rewriting
    {
      hide Parse, FrameAll;
      settled, exited := [], false;
      ghost var f := finished;
      var t := 0;
      assert pending[0..] == pending && turns[0..] == turns;
      while t < |turns|
        invariant 0 <= t <= |turns|
        invariant |settled| <= |pending|
        invariant |settled| + Settles(pending[|settled|..], turns[t..]) == Settles(pending, turns)
        invariant forall i | 0 <= i < |settled| :: Parse(pending[i]) == Some(settled[i])
        invariant Holds(fb.State(), f, pending[|settled|..])
        invariant fb.rec.Some? && rewriting && !exited
      {
        var more := fb.IsData();
        if !more {
          rewriting, exited := false, true;
          assert Holds(fb.State(), f, pending[|settled|..]);
          return;
        }
        ghost var rest, later := pending[|settled|..], turns[t..];
        assert later[1..] == turns[t + 1..] && rest[1..] == pending[|settled| + 1..];
        match turns[t] {
          case Stopped =>
            exited := true;
            assert Holds(fb.State(), f, pending[|settled|..]);
            return;
          case Inactive =>
          case Sends(send) =>
            var sent, final := RewriteHeld(send, f, pending[|settled|..]);
            if final {
              f := if |pending| == |settled| + 1 then [] else f + [pending[|settled|]];
              settled := settled + [sent];
            }
        }
        t := t + 1;
      }
    }
  }
}
