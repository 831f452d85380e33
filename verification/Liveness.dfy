/** Which backlogs can still be worked off: runs without a restart that commit the first uncommitted record. */
module Liveness {
  import opened Prelude
  import opened Record
  import opened Backlog
  import opened Protocol
  import opened Crashes

  predicate Pending(s: State) { s.l.committed < |s.l.appended| }

  /**
   * No rewrite loop can run any more: the last one quit and left the rewriting flag up, or it holds a record whose send
   * failed while no offset has been stored to go back to.
   */
  predicate Dead(s: State) {
    s.worker.Waiting? && s.rewriting && (s.loops == [] || (s.loops == [Refused] && s.fs.rec == None))
  }

  /** A run of these steps, none of them a crash, commits more than has been committed. */
  ghost predicate Commits(s: State, steps: seq<Step>) {
    Crash !in steps && Legal(s, steps) && Run(s, steps).l.committed > s.l.committed
  }

  lemma RunOne(s: State, a: Step)
    requires Enabled(s, a) && Safe(s, a)
    ensures Legal(s, [a]) && Run(s, [a]) == Apply(s, a)
  {
    hide Apply, Enabled, Safe;
    assert [a][1..] == [] && Legal(Apply(s, a), []);
  }

  /**
   * What a loop that has seen data can do besides: shut down, and nothing is committed any more; or find its backend
   * inactive, and look again.
   */
  lemma QuitOrSleep(s: State)
    requires s.loops == [Checked] && s.rewriting && s.worker.Waiting?
    ensures Legal(s, [Quit(0)]) && Run(s, [Quit(0)]) == s.(loops := []) && Dead(Run(s, [Quit(0)]))
    ensures Legal(s, [Sleep(0)]) && Run(s, [Sleep(0)]) == s.(loops := [Head])
  {
    assert Leave(s, 0) == s.(loops := []) && s.loops[0 := Head] == [Head];
    RunOne(s, Quit(0));
    RunOne(s, Sleep(0));
  }

  /** A failed send is taken back to the stored offset, and the loop starts over. */
  lemma SendFails(s: State)
    requires |s.loops| == 1 && s.loops[0].Sending? && Parse(s.loops[0].record).Some? && LockFree(s) && s.fs.rec.Some?
    ensures
      var steps := [Verdict(0, false), RollBack(0)];
      && Legal(s, steps)
      && Run(s, steps) == s.(loops := [Head], fs := s.fs.(consumer := s.fs.rec.value))
  {
    hide Parse, Frame;
    var t := s.(loops := [Refused]);
    assert s.loops[0 := Refused] == [Refused] && t.loops[0 := Head] == [Head];
    assert Apply(s, Verdict(0, false)) == t;
    RunTwo(s, Verdict(0, false), RollBack(0));
  }

  /** Without data the worker goes on waiting, and a loop ends and takes the flag down. */
  lemma NothingToDo(s: State)
    requires LockFree(s) && !s.fs.dataflag
    ensures s.worker.Waiting? && !s.rewriting ==> Legal(s, [SeeIdle, SeeNoData]) && Run(s, [SeeIdle, SeeNoData]) == s
    ensures s.loops == [Head] ==>
      Legal(s, [Check(0), Clear(0)]) && Run(s, [Check(0), Clear(0)]) == s.(loops := [], rewriting := false)
  {
    if s.worker.Waiting? && !s.rewriting {
      RunTwo(s, SeeIdle, SeeNoData);
    }
    if s.loops == [Head] {
      var t := s.(loops := [Drained]);
      assert s.loops[0 := Drained] == [Drained] && Apply(s, Check(0)) == t;
      assert Leave(t, 0) == t.(loops := []);
      RunTwo(s, Check(0), Clear(0));
    }
  }

  // ---------- a step closer ----------

  /** With nobody writing and the loop, or the worker that starts it, not dead. */
  ghost predicate Ready(s: State) { Inv(s) && LockFree(s) && Pending(s) && s.fs.dataflag && !Dead(s) }

  /** How far from the next commit the loop is, or the worker while there is none. */
  function Rank(s: State): nat {
    if s.loops == [] then
      match s.worker
      case Claimed => 6
      case SawData => 7
      case SawIdle => 8
      case Waiting => 9
    else
      match s.loops[0]
      case Settled => 0
      case Sending(_) => 1
      case ReadPayload(_) => 2
      case ReadLength => 3
      case Checked => 4
      case Head => 5
      case Refused => 6
      case Drained => 10
      case Cleaned => 11
  }

  /** The step that gets it closer. */
  function Closer(s: State): Step {
    if s.loops == [] then
      match s.worker
      case Claimed => Spawn
      case SawData => Claim
      case SawIdle => SeeData
      case Waiting => SeeIdle
    else
      match s.loops[0]
      case Settled => Commit(0)
      case Sending(_) => Verdict(0, true)
      case ReadPayload(_) => TakePayload(0)
      case ReadLength => TakeLength(0)
      case Checked => StartRead(0)
      case Head => Check(0)
      case Refused => RollBack(0)
      case Drained => Clear(0)
      case Cleaned => StoreOffset(0)
  }

  lemma ReadyIs(s: State)
    requires Ready(s)
    ensures |s.loops| <= 1 && (s.loops != [] ==> s.loops == [s.loops[0]] && s.rewriting && s.worker.Waiting?)
    ensures Enabled(s, Closer(s)) && Safe(s, Closer(s)) && s.loops != [Cleaned]
    ensures s.loops == [] && !s.worker.Claimed? ==> !s.rewriting
  {
    hide Frame, FrameAll, Parse, Start, InvLedger, InvWriter, InvLog, InvOffset, InvFlag, InOrder, InvDone;
  }

  /** What the step leaves as it was, and where it leads. */
  predicate Nearer(s: State, t: State) {
    && t.writer == s.writer && t.l == s.l && t.fs.dataflag == s.fs.dataflag && t.fs.rec == s.fs.rec
    && Rank(t) < Rank(s) && LockFree(t) && !Dead(t)
  }

  lemma ReadLengthNearer(s: State)
    requires Inv(s) && s.loops == [ReadLength] && s.writer.Unlocked?
    ensures Nearer(s, Apply(s, TakeLength(0)))
  {
    TakeLengthKeeps(s);
    ReadMoves(s.fs, 4);
    hide Inv, ReadFull;
  }

  lemma ReadPayloadNearer(s: State)
    requires Inv(s) && |s.loops| == 1 && s.loops[0].ReadPayload? && s.writer.Unlocked?
    ensures Nearer(s, Apply(s, TakePayload(0)))
  {
    TakePayloadKeeps(s);
    ReadMoves(s.fs, s.loops[0].n);
    hide Inv, ReadFull;
  }

  lemma SendingNearer(s: State)
    requires Inv(s) && |s.loops| == 1 && s.loops[0].Sending? && s.writer.Unlocked?
    ensures Nearer(s, Apply(s, Verdict(0, true)))
  {
    var a := JudgedIs(s);
    hide Inv, Judged;
  }

  lemma WorkerNearer(s: State)
    requires s.loops == [] && LockFree(s) && s.fs.dataflag && (s.worker.Claimed? || !s.rewriting)
    ensures Nearer(s, Apply(s, Closer(s)))
  {
  }

  lemma LoopNearer(s: State)
    requires |s.loops| == 1 && LockFree(s) && s.fs.dataflag && s.worker.Waiting?
    requires s.loops[0] in [Head, Checked, Refused, Drained] && (s.loops[0].Refused? ==> s.fs.rec.Some?)
    ensures Nearer(s, Apply(s, Closer(s)))
  {
  }

  /** Each step gets closer, until the commit. */
  lemma OneCloser(s: State)
    requires Ready(s)
    ensures
      var t := Apply(s, Closer(s));
      if s.loops == [Settled] then Inv(t) && t.l.committed > s.l.committed else Ready(t) && Rank(t) < Rank(s)
  {
    ReadyIs(s);
    StepExact(s, Closer(s));
    if s.loops == [Settled] {
      var t := CommittedIs(s);
    } else {
      Nears(s);
      hide Inv, Apply, Closer, Enabled, Safe, Rank, LockFree, Dead;
    }
  }

  lemma Nears(s: State)
    requires Ready(s) && s.loops != [Settled]
    ensures Nearer(s, Apply(s, Closer(s)))
  {
    ReadyIs(s);
    hide Nearer, Apply, Inv, Safe, Enabled;
    if s.loops == [] {
      WorkerNearer(s);
    } else if s.loops[0].ReadLength? {
      ReadLengthNearer(s);
    } else if s.loops[0].ReadPayload? {
      ReadPayloadNearer(s);
    } else if s.loops[0].Sending? {
      SendingNearer(s);
    } else {
      LoopNearer(s);
    }
  }

  lemma StepCommits(s: State, a: Step, steps: seq<Step>)
    requires a != Crash && Enabled(s, a) && Safe(s, a) && Apply(s, a).l.committed == s.l.committed
    requires Commits(Apply(s, a), steps)
    ensures Commits(s, [a] + steps)
  {
    hide Enabled, Safe, Apply, Legal, Run;
    OneStep(s, a);
    RunThen(s, [a], steps);
  }

  lemma LastCommits(s: State)
    requires Ready(s) && s.loops == [Settled]
    ensures Commits(s, [Closer(s)])
  {
    ReadyIs(s);
    OneCloser(s);
    hide Ready, Inv, Enabled, Safe, Apply, Legal, Run;
    OneStep(s, Closer(s));
  }

  lemma NotLast(s: State)
    requires Ready(s) && s.loops != [Settled]
    ensures
      var a := Closer(s);
      && a != Crash && Enabled(s, a) && Safe(s, a) && Ready(Apply(s, a)) && Rank(Apply(s, a)) < Rank(s)
      && Apply(s, a).l.committed == s.l.committed
  {
    ReadyIs(s);
    OneCloser(s);
    Nears(s);
    hide Ready, Inv, Enabled, Safe, Apply, Rank, LockFree, Dead;
  }

  /** So does a run. */
  lemma {:induction false} ReadyCommits(s: State) returns (steps: seq<Step>)
    requires Ready(s)
    ensures Commits(s, steps)
    decreases Rank(s)
  {
    hide *;
    if s.loops == [Settled] {
      LastCommits(s);
      steps := [Closer(s)];
    } else {
      NotLast(s);
      steps := ReadyCommits(Apply(s, Closer(s)));
      StepCommits(s, Closer(s), steps);
      steps := [Closer(s)] + steps;
    }
  }

  // ---------- a write under way ----------

  lemma NotCleaned(s: State)
    requires Inv(s) && Pending(s)
    ensures Cleaned !in s.loops && (s.writer.Unlocked? ==> s.fs.dataflag)
  {
    hide Frame, FrameAll, Parse, Start, InvLog, InvOffset, InOrder, InvDone;
  }

  /** All the rest of the frame is written. */
  lemma PutRest(s: State) returns (a: Step, t: State)
    requires Inv(s) && Pending(s) && !Dead(s) && s.writer.Writing? && !Complete(s.writer)
    ensures a != Crash && Enabled(s, a) && Safe(s, a) && t == Apply(s, a)
    ensures Inv(t) && Pending(t) && !Dead(t) && t.writer.Writing? && Complete(t.writer)
    ensures t.l.committed == s.l.committed
  {
    var n := |Frame(s.writer.record)| - s.writer.written;
    a := AppendSome(n);
    t := Apply(s, a);
    PutKeeps(s, n);
    hide Inv, Frame, Append;
  }

  lemma EndOf(s: State) returns (t: State)
    requires Inv(s) && Pending(s) && !Dead(s) && Complete(s.writer)
    ensures Enabled(s, EndWrite) && Safe(s, EndWrite) && t == Apply(s, EndWrite)
    ensures Ready(t) && t.l.committed == s.l.committed
  {
    t := Apply(s, EndWrite);
    LockKeeps(s, []);
    NotCleaned(s);
    hide Inv, Frame;
  }

  /** The writer that holds the lock can always finish, and then the loop gets to its commit. */
  lemma CanCommit(s: State) returns (steps: seq<Step>)
    requires Inv(s) && Pending(s) && !Dead(s)
    ensures Commits(s, steps)
  {
    if s.writer.Unlocked? {
      NotCleaned(s);
      steps := ReadyCommits(s);
    } else if Complete(s.writer) {
      var t := EndOf(s);
      hide *;
      steps := ReadyCommits(t);
      StepCommits(s, EndWrite, steps);
      steps := [EndWrite] + steps;
    } else {
      var a, u := PutRest(s);
      var t := EndOf(u);
      hide *;
      steps := ReadyCommits(t);
      StepCommits(u, EndWrite, steps);
      StepCommits(s, a, [EndWrite] + steps);
      steps := [a] + ([EndWrite] + steps);
    }
  }

  // ---------- what is dead ----------

  /** Without a crash nothing brings a dead loop back, and writes commit nothing. */
  lemma DeadStays(s: State, a: Step)
    requires Dead(s) && Enabled(s, a) && Safe(s, a) && a != Crash
    ensures Dead(Apply(s, a)) && Apply(s, a).l.committed == s.l.committed
  {
    hide Frame, Parse;
  }

  lemma {:induction false} DeadCommitsNothing(s: State, steps: seq<Step>)
    requires Dead(s) && Legal(s, steps) && Crash !in steps
    ensures Run(s, steps).l.committed == s.l.committed
    decreases |steps|
  {
    hide Dead, Enabled, Safe, Apply;
    if steps != [] {
      DeadStays(s, steps[0]);
      DeadCommitsNothing(Apply(s, steps[0]), steps[1..]);
    }
  }

  /**
   * A pending record can be committed without a restart, by some run and from wherever the writer, the worker and the
   * loop are, exactly when the loop is not dead.
   */
  lemma CommitExact(s: State)
    requires Inv(s) && Pending(s)
    ensures (exists steps :: Commits(s, steps)) <==> !Dead(s)
  {
    if Dead(s) {
      forall steps ensures !Commits(s, steps) {
        if Crash !in steps && Legal(s, steps) {
          DeadCommitsNothing(s, steps);
        }
      }
    } else {
      var steps := CanCommit(s);
      hide *;
      assert Commits(s, steps);
    }
  }

  /** A restart that is safe leaves nothing dead. */
  lemma RestartRevives(s: State)
    requires Inv(s) && Safe(s, Crash)
    ensures Inv(Restarted(s)) && !Dead(Restarted(s)) && Restarted(s).l == s.l
  {
    SafeCrash(s);
  }
}
