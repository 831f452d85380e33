/** Runs of the backlog from two empty files into the states in which a crash does harm. */
module Crashes {
  import opened Prelude
  import opened Record
  import opened Backlog
  import opened Protocol

  /** A process started for the first time. */
  ghost function Empty(): State { Begin(Open([], None), [], []) }

  lemma EmptyInv()
    ensures Inv(Empty()) && LockFree(Empty())
  {
    assert Holds(Open([], None), [], []);
    BeginInv(Open([], None), [], []);
  }

  lemma OneStep(s: State, a: Step)
    requires Enabled(s, a) && Safe(s, a)
    ensures Legal(s, [a]) && Run(s, [a]) == Apply(s, a)
  {
    hide Enabled, Safe, Apply;
    assert [a][1..] == [];
    assert Legal(Apply(s, a), []);
  }

  lemma {:induction false} RunThen(s: State, a: seq<Step>, b: seq<Step>)
    requires Legal(s, a) && Legal(Run(s, a), b)
    ensures Legal(s, a + b) && Run(s, a + b) == Run(Run(s, a), b)
    decreases |a|
  {
    hide Enabled, Safe, Apply;
    if a == [] {
      assert a + b == b;
    } else {
      RunThen(Apply(s, a[0]), a[1..], b);
      assert (a + b)[1..] == a[1..] + b;
    }
  }

  /** A run of these steps leads from the one state to the other, and keeps the invariant. */
  ghost predicate Goes(s: State, steps: seq<Step>, t: State) { Legal(s, steps) && Run(s, steps) == t && Inv(t) }

  lemma GoesThen(s: State, a: seq<Step>, t: State, b: seq<Step>, u: State)
    requires Goes(s, a, t) && Goes(t, b, u)
    ensures Goes(s, a + b, u)
  {
    hide Inv, Legal, Run;
    RunThen(s, a, b);
  }

  function WriteSteps(r: Bytes): seq<Step> { [BeginWrite(r), AppendSome(4), AppendSome(|r|), EndWrite] }

  function StartSteps(): seq<Step> { [SeeIdle, SeeData, Claim, Spawn] }

  function SettleSteps(): seq<Step> {
    [Check(0), StartRead(0), TakeLength(0), TakePayload(0)] + [Verdict(0, true)] + [Commit(0)]
  }

  /** The worker finds records waiting and starts the rewrite loop. */
  lemma Started(s: State)
    requires s.worker.Waiting? && !s.rewriting && LockFree(s) && s.fs.dataflag && s.loops == []
    ensures Legal(s, StartSteps()) && Run(s, StartSteps()) == s.(loops := [Head], rewriting := true)
  {
    var s1, s2 := s.(worker := SawIdle), s.(worker := SawData);
    assert Apply(s, SeeIdle) == s1 && Apply(s1, SeeData) == s2;
    assert Apply(s2, Claim) == s.(worker := Claimed, rewriting := true);
    RunFour(s, SeeIdle, SeeData, Claim, Spawn);
  }

  predicate AtHead(s: State) { s.loops == [Head] && LockFree(s) && s.fs.dataflag }

  lemma Headed(s: State)
    requires Inv(s) && AtHead(s)
    ensures s.l.committed < |s.l.appended|
    ensures Inv(Goto(s, 0, Checked)) && Inv(Goto(s, 0, ReadLength))
    ensures Goto(s, 0, ReadLength).loops == [ReadLength]
  {
    OneLoop(s, 0);
    hide Inv;
    MoveKeeps(s, Checked);
    MoveKeeps(s, ReadLength);
  }

  /** A loop that nothing interrupts gets to the first uncommitted record. */
  lemma Fetched(s: State) returns (t: State)
    requires Inv(s) && AtHead(s)
    ensures s.l.committed < |s.l.appended| && Inv(t)
    ensures
      var four := [Check(0), StartRead(0), TakeLength(0), TakePayload(0)];
      Legal(s, four) && Run(s, four) == t
    ensures t == s.(loops := [Sending(s.l.appended[s.l.committed])], fs := s.fs.(consumer := t.fs.consumer))
  {
    hide Inv, ReadFull;
    Headed(s);
    var s1, s2 := Goto(s, 0, Checked), Goto(s, 0, ReadLength);
    var s3 := LengthTaken(s2, 0);
    TakeLengthKeeps(s2);
    t := PayloadTaken(s3, 0);
    TakePayloadKeeps(s3);
    ReadMoves(s2.fs, 4);
    ReadMoves(s3.fs, s3.loops[0].n);
    assert Apply(s, Check(0)) == s1 && Apply(s1, StartRead(0)) == s2;
    RunFour(s, Check(0), StartRead(0), TakeLength(0), TakePayload(0));
  }

  lemma ReadMoves(fs: FileState, n: nat)
    ensures ReadFull(fs, n).1 == fs.(consumer := ReadFull(fs, n).1.consumer)
  {
  }

  /** What is left when a loop has given the first uncommitted record p its verdict and committed it. */
  predicate SettledBy(s: State, p: Bytes, next: nat, t: State) {
    && t.writer == s.writer && t.v.settled == s.v.settled + [p]
    && (s.l.committed + 1 >= |s.l.appended| ==> t.loops == [Cleaned] && t.fs.rec == s.fs.rec)
    && (s.l.committed + 1 < |s.l.appended| ==>
        && t.loops == [Head] && t.fs.dataflag == s.fs.dataflag
        && t.l == s.l.(committed := s.l.committed + 1) && t.fs.rec == Some(next))
  }

  lemma SendingIs(s: State)
    requires Inv(s) && |s.loops| == 1 && s.loops[0].Sending?
    ensures s.l.committed < |s.l.appended| && s.loops[0].record == s.l.appended[s.l.committed]
    ensures s.fs.consumer == Start(s.l, s.l.committed + 1)
  {
    hide Start, InvLog, InvOffset, InvFlag, InOrder, InvDone, InvLock, InvWriter;
  }

  lemma JudgedIs(s: State) returns (a: State)
    requires Inv(s) && |s.loops| == 1 && s.loops[0].Sending?
    ensures a == Judged(s, 0, true) && Inv(a) && s.l.committed < |s.l.appended|
    ensures a == s.(loops := [Settled], v := a.v) && a.v.settled == s.v.settled + [s.l.appended[s.l.committed]]
    ensures a.fs.consumer == Start(s.l, s.l.committed + 1)
  {
    a := Judged(s, 0, true);
    SendingIs(s);
    VerdictKeeps(s, true);
    hide Inv, Parse, Start;
  }

  lemma CommittedIs(a: State) returns (t: State)
    requires Inv(a) && a.loops == [Settled] && LockFree(a) && a.l.committed < |a.l.appended|
    ensures t == Committed(a, 0) && Inv(t) && t.writer == a.writer && t.v == a.v
    ensures a.l.committed + 1 == |a.l.appended| ==> t.loops == [Cleaned] && t.fs.rec == a.fs.rec
    ensures a.l.committed + 1 < |a.l.appended| ==>
      && t.loops == [Head] && t.fs.dataflag == a.fs.dataflag
      && t.l == a.l.(committed := a.l.committed + 1) && t.fs.rec == Some(a.fs.consumer)
  {
    t := Committed(a, 0);
    CommitKeeps(a);
    DrainedIs(a);
    hide Inv, LockFree;
  }

  lemma JudgedSettles(s: State) returns (t: State)
    requires Inv(s) && LockFree(s) && |s.loops| == 1 && s.loops[0].Sending? && s.l.committed < |s.l.appended|
    ensures Inv(t) && SettledBy(s, s.l.appended[s.l.committed], Start(s.l, s.l.committed + 1), t)
    ensures Legal(s, [Verdict(0, true)] + [Commit(0)]) && Run(s, [Verdict(0, true)] + [Commit(0)]) == t
  {
    hide Inv, Start, Judged, Committed, Legal, Run;
    var a := JudgedIs(s);
    t := CommittedIs(a);
    OneStep(s, Verdict(0, true));
    OneStep(a, Commit(0));
    RunThen(s, [Verdict(0, true)], [Commit(0)]);
  }

  /** A loop at its head gets the first uncommitted record its verdict and commits it. */
  lemma SettledOne(s: State) returns (t: State)
    requires Inv(s) && AtHead(s)
    ensures s.l.committed < |s.l.appended| && Inv(t)
    ensures SettledBy(s, s.l.appended[s.l.committed], Start(s.l, s.l.committed + 1), t)
    ensures Legal(s, SettleSteps()) && Run(s, SettleSteps()) == t
  {
    hide Inv, Start, Legal, Run;
    var a := Fetched(s);
    t := JudgedSettles(a);
    var four := [Check(0), StartRead(0), TakeLength(0), TakePayload(0)];
    RunThen(s, four, [Verdict(0, true)] + [Commit(0)]);
    assert SettleSteps() == four + ([Verdict(0, true)] + [Commit(0)]);
  }

  lemma WriteIs(s: State, r: Bytes) returns (t: State)
    requires Inv(s) && LockFree(s) && Good(r)
    ensures Goes(s, WriteSteps(r), t)
    ensures t == s.(fs := t.fs, l := s.l.(appended := s.l.appended + [r])) && t.fs.dataflag
  {
    SoloWrite(s, r);
    RunKeeps(s, WriteSteps(r));
    t := Run(s, WriteSteps(r));
    hide Inv, Good, Legal, Run, Append;
  }

  /** Nothing is under way, and these records have been appended and none of them read. */
  predicate Fresh(s: State, records: seq<Bytes>) {
    && s.writer.Unlocked? && s.loops == [] && s.worker == Waiting && !s.rewriting
    && s.l == Ledger(records, 0, 0) && s.v.settled == []
  }

  lemma WriteFresh(s: State, records: seq<Bytes>, r: Bytes) returns (t: State)
    requires Inv(s) && Fresh(s, records) && Good(r)
    ensures Goes(s, WriteSteps(r), t) && Fresh(t, records + [r]) && t.fs.dataflag
  {
    hide Inv, Good, Goes;
    t := WriteIs(s, r);
  }

  lemma StartFresh(s: State, records: seq<Bytes>) returns (t: State)
    requires Inv(s) && Fresh(s, records) && s.fs.dataflag
    ensures Goes(s, StartSteps(), t) && AtHead(t) && t.l == Ledger(records, 0, 0) && t.v.settled == []
  {
    Started(s);
    RunKeeps(s, StartSteps());
    t := Run(s, StartSteps());
    hide Inv, Legal, Run;
  }

  lemma EmptyFresh()
    ensures Inv(Empty()) && Fresh(Empty(), [])
  {
    EmptyInv();
    hide Inv;
  }

  lemma GoesInv(s: State, steps: seq<Step>, t: State)
    requires Goes(s, steps, t)
    ensures Inv(t)
  {
  }

  lemma OneWritten(r: Bytes) returns (s: State)
    requires Good(r)
    ensures Goes(Empty(), WriteSteps(r), s) && Inv(s) && Fresh(s, [r])
  {
    EmptyFresh();
    hide *;
    s := WriteFresh(Empty(), [], r);
    GoesInv(Empty(), WriteSteps(r), s);
    assert [] + [r] == [r];
  }

  lemma BothWritten(r1: Bytes, r2: Bytes) returns (s: State)
    requires Good(r1) && Good(r2)
    ensures Goes(Empty(), WriteSteps(r1) + WriteSteps(r2), s) && Inv(s) && Fresh(s, [r1, r2]) && s.fs.dataflag
  {
    hide *;
    var a := OneWritten(r1);
    s := WriteFresh(a, [r1], r2);
    GoesInv(a, WriteSteps(r2), s);
    GoesThen(Empty(), WriteSteps(r1), a, WriteSteps(r2), s);
    assert [r1] + [r2] == [r1, r2];
  }

  /** Two records written to a new backlog, and a loop started. */
  lemma TwoWritten(r1: Bytes, r2: Bytes) returns (steps: seq<Step>, s: State)
    requires Good(r1) && Good(r2)
    ensures Goes(Empty(), steps, s) && AtHead(s) && s.l == Ledger([r1, r2], 0, 0) && s.v.settled == []
  {
    hide *;
    var b := BothWritten(r1, r2);
    s := StartFresh(b, [r1, r2]);
    steps := WriteSteps(r1) + WriteSteps(r2) + StartSteps();
    GoesThen(Empty(), WriteSteps(r1) + WriteSteps(r2), b, StartSteps(), s);
  }

  lemma SecondStart(l: Ledger, r1: Bytes, r2: Bytes)
    requires l == Ledger([r1, r2], 0, 0)
    ensures Start(l, 1) == |Frame(r1)|
  {
    hide Frame;
    StartNext(l, 0);
    assert l.appended[0..0] == [];
  }

  /** The first of two is settled and its offset stored. */
  lemma FirstSettled(r1: Bytes, r2: Bytes, s: State) returns (t: State)
    requires Inv(s) && AtHead(s) && s.l == Ledger([r1, r2], 0, 0) && s.v.settled == []
    ensures Goes(s, SettleSteps(), t) && AtHead(t)
    ensures t.l == Ledger([r1, r2], 0, 1) && t.v.settled == [r1] && t.fs.rec == Some(|Frame(r1)|)
  {
    hide Inv, Legal, Run, Frame, Start;
    t := SettledOne(s);
    SecondStart(s.l, r1, r2);
    assert [] + [r1] == [r1];
  }

  lemma SecondSettled(r1: Bytes, r2: Bytes, s: State) returns (t: State)
    requires Inv(s) && AtHead(s) && s.l == Ledger([r1, r2], 0, 1) && s.v.settled == [r1]
    ensures Goes(s, SettleSteps(), t) && t.loops == [Cleaned] && t.fs.rec == s.fs.rec && t.v.settled == [r1, r2]
  {
    hide Inv, Legal, Run, Frame, Start;
    t := SettledOne(s);
    assert [r1] + [r2] == [r1, r2];
  }

  /** Both settled, the loop stands between truncation and offset write, with the first commit's offset stored. */
  lemma CleanedReached(r1: Bytes, r2: Bytes) returns (steps: seq<Step>, s: State)
    requires Good(r1) && Good(r2)
    ensures Goes(Empty(), steps, s)
    ensures s.loops == [Cleaned] && s.fs.rec == Some(|Frame(r1)|) && s.v.settled == [r1, r2]
  {
    hide *;
    var two, a := TwoWritten(r1, r2);
    GoesInv(Empty(), two, a);
    var b := FirstSettled(r1, r2, a);
    GoesInv(a, SettleSteps(), b);
    s := SecondSettled(r1, r2, b);
    steps := two + SettleSteps() + SettleSteps();
    GoesThen(Empty(), two, a, SettleSteps(), b);
    GoesThen(Empty(), two + SettleSteps(), b, SettleSteps(), s);
  }

  /** What is hidden is at most as long as the first record. */
  lemma CrashHides(s: State, r1: Bytes, r: Bytes)
    requires Inv(s) && s.loops == [Cleaned] && s.fs.rec == Some(|Frame(r1)|) && Good(r1) && Good(r) && |r| <= |r1|
    ensures Enabled(s, Crash) && !Safe(s, Crash) && Legal(Apply(s, Crash), WriteSteps(r))
    ensures Read(Run(Apply(s, Crash), WriteSteps(r)).fs).0 == ReadError
  {
    hide Inv, Legal, Run, Parse, Read, Write;
    FrameIs(r1);
    FrameIs(r);
    StaleOffsetHidesRecord(s, r);
    SoloWrite(Restarted(s), r);
  }

  /**
   * Any two records lead from two empty files to a state in which a crash hides what is written next: after it, a
   * record no longer than the first is appended and cannot be read.
   */
  lemma HidingReached(r1: Bytes, r2: Bytes, r: Bytes) returns (steps: seq<Step>)
    requires Good(r1) && Good(r2) && Good(r) && |r| <= |r1|
    ensures Legal(Empty(), steps)
    ensures
      var s := Run(Empty(), steps);
      && s.v.settled == [r1, r2] && Enabled(s, Crash) && !Safe(s, Crash)
      && Legal(Apply(s, Crash), WriteSteps(r))
      && Read(Run(Apply(s, Crash), WriteSteps(r)).fs).0 == ReadError
  {
    var s: State;
    steps, s := CleanedReached(r1, r2);
    hide Inv, Good, Legal, Run, Empty, Read, Frame;
    CrashHides(s, r1, r);
  }

  /** Any record leads to one in which a crash leaves no log of records. */
  lemma TornReached(r: Bytes) returns (steps: seq<Step>)
    requires Good(r)
    ensures Legal(Empty(), steps)
    ensures
      var s := Run(Empty(), steps);
      && Enabled(s, Crash) && !Safe(s, Crash)
      && forall ws | AllGood(ws) :: Apply(s, Crash).fs.dat != FrameAll(ws)
  {
    var e := Empty();
    EmptyInv();
    hide Inv, Good, Legal, Run, Empty, Parse, Frame;
    FrameParts(r);
    var a := Apply(e, BeginWrite(r));
    OneStep(e, BeginWrite(r));
    OneStep(a, AppendSome(1));
    RunThen(e, [BeginWrite(r)], [AppendSome(1)]);
    steps := [BeginWrite(r)] + [AppendSome(1)];
    RunKeeps(e, steps);
    var s := Run(e, steps);
    forall ws | AllGood(ws) ensures Apply(s, Crash).fs.dat != FrameAll(ws) {
      TornCrashUnframesLog(s, ws);
    }
  }
}
