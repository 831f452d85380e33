/** Copying measurements between backends: the steps of a transfer, in any order they can run (transfer/transfer.go). */
module Transfer {

  /** A measurement of a database, a backend by its URL, and the place that a backend has for a measurement. */
  datatype Meas = Meas(db: string, name: string)

  type Url = string

  datatype Place = Place(url: Url, meas: Meas)

  /** A stored point, with its retention policy and its time in nanoseconds. */
  datatype Fact = Fact(rp: string, time: int, line: string)

  /** What all backends hold. A measurement exists where it has points, and nowhere else. */
  type Store = map<Place, set<Fact>>

  function At(store: Store, p: Place): set<Fact> {
    if p in store then store[p] else {}
  }

  predicate Kept(store: Store) { forall p | p in store :: store[p] != {} }

  /** Points written to a place. */
  function Write(store: Store, to: Place, facts: set<Fact>): Store { store[to := At(store, to) + facts] }

  // ---------- what an operation asks for ----------

  /**
   * Which backends are read, for which databases, where each is to send a measurement, and which points it sends: those
   * not older than a given time, or all.
   */
  datatype Plan = Plan(sources: set<Url>, dbs: set<string>, route: (Url, Meas) -> set<Url>, moved: Fact -> bool)

  function Dests(plan: Plan, p: Place): set<Url> {
    if p.url in plan.sources && p.meas.db in plan.dbs then plan.route(p.url, p.meas) else {}
  }

  function Moved(plan: Plan, facts: set<Fact>): set<Fact> { set f | f in facts && plan.moved(f) }

  /** No backend is read for a measurement that is being sent to it. */
  ghost predicate NoLoop(plan: Plan) {
    forall p: Place, d: Url :: d in Dests(plan, p) ==> Dests(plan, Place(d, p.meas)) == {}
  }

  /** What is brought to a place from elsewhere. */
  ghost function Brought(plan: Plan, store: Store, p: Place): set<Fact> {
    set s, f
      | s in plan.sources && p.url in Dests(plan, Place(s, p.meas)) && f in Moved(plan, At(store, Place(s, p.meas)))
      :: f
  }

  // ---------- steps ----------

  /** A point of a place on its way to one of its destinations. */
  datatype Parcel = Parcel(from: Place, to: Url, fact: Fact)

  function Parcels(from: Place, to: Url, facts: set<Fact>): set<Parcel> { set f | f in facts :: Parcel(from, to, f) }

  /**
   * A running operation: what the backends hold, whose measurements of which databases have been listed, the transfers
   * under way, finished and given up, and the points that have arrived and that have been lost on the way. A transfer
   * covers all retention policies of its measurement; its batches come in any order, at each destination in another.
   */
  datatype State = State(store: Store, listed: set<(Url, string)>, running: set<Place>, finished: set<Place>,
                         failed: set<Place>, sent: set<Parcel>, lost: set<Parcel>)

  datatype Step =
    | List(url: Url, db: string)                        // its measurements are listed, its transfers submitted
    | Deliver(from: Place, to: Url, facts: set<Fact>)   // points that have been read are written to one destination
    | Lose(from: Place, to: Url, facts: set<Fact>)      // a write of them has failed too often: that is only logged
    | Finish(from: Place)                               // all has been read and each write is over: reported as done
    | GiveUp(from: Place)                               // a query failed too often: reported as an error

  function Submitted(plan: Plan, store: Store, url: Url, db: string): set<Place> {
    set p | p in store && p.url == url && p.meas.db == db && Dests(plan, p) != {}
  }

  /** What a transfer is to bring to one of its destinations. */
  predicate Due(plan: Plan, store: Store, l: Parcel) {
    l.to in Dests(plan, l.from) && l.fact in Moved(plan, At(store, l.from))
  }

  ghost predicate Settled(plan: Plan, store: Store, from: Place, over: set<Parcel>) {
    forall l: Parcel | l.from == from && Due(plan, store, l) :: l in over
  }

  /** A transfer that is given up leaves writes behind that still go on. */
  predicate Writing(plan: Plan, s: State, from: Place, to: Url, facts: set<Fact>) {
    && from in s.running + s.failed && to in Dests(plan, from)
    && facts != {} && facts <= Moved(plan, At(s.store, from))
  }

  ghost predicate Enabled(plan: Plan, s: State, step: Step) {
    match step
    case List(url, db) => url in plan.sources && db in plan.dbs && (url, db) !in s.listed
    case Deliver(from, to, facts) => Writing(plan, s, from, to, facts)
    case Lose(from, to, facts) => Writing(plan, s, from, to, facts)
    case Finish(from) => from in s.running && Settled(plan, s.store, from, s.sent + s.lost)
    case GiveUp(from) => from in s.running
  }

  function Apply(plan: Plan, s: State, step: Step): State {
    match step
    case List(url, db) =>
      s.(listed := s.listed + {(url, db)}, running := s.running + Submitted(plan, s.store, url, db))
    case Deliver(from, to, facts) =>
      s.(store := Write(s.store, Place(to, from.meas), facts), sent := s.sent + Parcels(from, to, facts))
    case Lose(from, to, facts) => s.(lost := s.lost + Parcels(from, to, facts))
    case Finish(from) => s.(running := s.running - {from}, finished := s.finished + {from})
    case GiveUp(from) => s.(running := s.running - {from}, failed := s.failed + {from})
  }

  function Begin(store: Store): State { State(store, {}, {}, {}, {}, {}, {}) }

  ghost predicate Legal(plan: Plan, s: State, steps: seq<Step>)
    decreases |steps|
  {
    steps == [] || (Enabled(plan, s, steps[0]) && Legal(plan, Apply(plan, s, steps[0]), steps[1..]))
  }

  ghost function Run(plan: Plan, s: State, steps: seq<Step>): State
    requires Legal(plan, s, steps)
    decreases |steps|
  {
    if steps == [] then s else Run(plan, Apply(plan, s, steps[0]), steps[1..])
  }

  // ---------- what every step keeps ----------

  /** What has arrived at a place. */
  function Received(sent: set<Parcel>, p: Place): set<Fact> {
    set l | l in sent && l.to == p.url && l.from.meas == p.meas :: l.fact
  }

  /** Each place holds what it held and what has arrived, and nothing else. */
  ghost predicate Exact(init: Store, store: Store, sent: set<Parcel>) {
    forall p: Place :: At(store, p) == At(init, p) + Received(sent, p)
  }

  /** What is read in this operation stays as it was. */
  ghost predicate SourcesFixed(plan: Plan, init: Store, store: Store) {
    forall p: Place :: Dests(plan, p) != {} ==> At(store, p) == At(init, p)
  }

  ghost predicate AllDue(plan: Plan, init: Store, parcels: set<Parcel>) {
    forall l | l in parcels :: Due(plan, init, l)
  }

  ghost predicate FinishedOk(plan: Plan, init: Store, finished: set<Place>, over: set<Parcel>) {
    forall p | p in finished :: Settled(plan, init, p, over)
  }

  ghost predicate ListedOk(plan: Plan, init: Store, listed: set<(Url, string)>, submitted: set<Place>) {
    forall p | p in init && (p.url, p.meas.db) in listed && Dests(plan, p) != {} :: p in submitted
  }

  ghost predicate Inv(plan: Plan, init: Store, s: State) {
    && Kept(init) && Kept(s.store)
    && Exact(init, s.store, s.sent)
    && AllDue(plan, init, s.sent) && AllDue(plan, init, s.lost)
    && FinishedOk(plan, init, s.finished, s.sent + s.lost)
    && ListedOk(plan, init, s.listed, s.running + s.finished + s.failed)
  }

  lemma BeginInv(plan: Plan, init: Store)
    requires Kept(init)
    ensures Inv(plan, init, Begin(init))
  {
    assert forall p: Place :: Received({}, p) == {};
  }

  /** Nothing is sent to a place that is read. */
  lemma Fixed(plan: Plan, init: Store, store: Store, sent: set<Parcel>)
    requires NoLoop(plan) && Exact(init, store, sent) && AllDue(plan, init, sent)
    ensures SourcesFixed(plan, init, store)
  {
    forall p: Place | Dests(plan, p) != {} ensures Received(sent, p) == {} {
      forall l | l in sent ensures Place(l.to, l.from.meas) != p {
        assert Dests(plan, Place(l.to, l.from.meas)) == {};
      }
    }
  }

  lemma DueFixed(plan: Plan, init: Store, store: Store, from: Place)
    requires SourcesFixed(plan, init, store)
    ensures forall l: Parcel | l.from == from :: Due(plan, store, l) <==> Due(plan, init, l)
  {
  }

  lemma ListKeeps(plan: Plan, init: Store, s: State, url: Url, db: string)
    requires NoLoop(plan) && Inv(plan, init, s)
    ensures
      ListedOk(plan, init, s.listed + {(url, db)},
               s.running + Submitted(plan, s.store, url, db) + s.finished + s.failed)
  {
    Fixed(plan, init, s.store, s.sent);
    OfInv(plan, init, s);
    hide Exact, AllDue, FinishedOk, Dests, NoLoop, Inv;
    ListStays(plan, init, s.store);
    ListMore(plan, init, s.store, s.listed, s.running + s.finished + s.failed, url, db);
    assert s.running + Submitted(plan, s.store, url, db) + s.finished + s.failed
      == s.running + s.finished + s.failed + Submitted(plan, s.store, url, db) by { hide *; }
  }

  lemma ListStays(plan: Plan, init: Store, store: Store)
    requires SourcesFixed(plan, init, store) && Kept(init)
    ensures forall p | p in init && Dests(plan, p) != {} :: p in store
  {
    hide Dests;
    forall p | p in init && Dests(plan, p) != {} ensures p in store {
      assert At(store, p) == At(init, p);
    }
  }

  lemma ListMore(plan: Plan, init: Store, store: Store, listed: set<(Url, string)>, submitted: set<Place>, url: Url,
                 db: string)
    requires ListedOk(plan, init, listed, submitted)
    requires forall p | p in init && Dests(plan, p) != {} :: p in store
    ensures ListedOk(plan, init, listed + {(url, db)}, submitted + Submitted(plan, store, url, db))
  {
    hide Dests;
  }

  lemma ParcelsAt(from: Place, to: Url, facts: set<Fact>, sent: set<Parcel>, p: Place)
    ensures Received(sent + Parcels(from, to, facts), p)
      == Received(sent, p) + if p == Place(to, from.meas) then facts else {}
  {
    forall f | f in facts && p == Place(to, from.meas) ensures f in Received(sent + Parcels(from, to, facts), p) {
      assert Parcel(from, to, f) in Parcels(from, to, facts);
    }
  }

  lemma DeliverExact(init: Store, store: Store, sent: set<Parcel>, from: Place, to: Url, facts: set<Fact>)
    requires Exact(init, store, sent)
    ensures Exact(init, Write(store, Place(to, from.meas), facts), sent + Parcels(from, to, facts))
  {
    forall p: Place
      ensures At(Write(store, Place(to, from.meas), facts), p)
        == At(init, p) + Received(sent + Parcels(from, to, facts), p)
    {
      ParcelsAt(from, to, facts, sent, p);
      assert At(store, p) == At(init, p) + Received(sent, p);
    }
  }

  lemma MoreOver(plan: Plan, init: Store, finished: set<Place>, over: set<Parcel>, more: set<Parcel>)
    requires FinishedOk(plan, init, finished, over) && over <= more
    ensures FinishedOk(plan, init, finished, more)
  {
    hide Due;
  }

  lemma MoreDue(plan: Plan, init: Store, s: State, from: Place, to: Url, facts: set<Fact>, parcels: set<Parcel>)
    requires NoLoop(plan) && Inv(plan, init, s) && Writing(plan, s, from, to, facts) && AllDue(plan, init, parcels)
    ensures AllDue(plan, init, parcels + Parcels(from, to, facts))
  {
    Fixed(plan, init, s.store, s.sent);
    hide Exact, FinishedOk, NoLoop, Kept, Moved;
    assert At(s.store, from) == At(init, from);
  }

  lemma WriteStays(store: Store, p: Place, facts: set<Fact>)
    requires Kept(store) && facts != {}
    ensures Kept(Write(store, p, facts))
  {
  }

  lemma OverGrows(sent: set<Parcel>, lost: set<Parcel>, more: set<Parcel>)
    ensures sent + lost <= (sent + more) + lost && sent + lost <= sent + (lost + more)
  {
  }

  /** The invariant from its parts. */
  lemma InvOf(plan: Plan, init: Store, s: State)
    requires Kept(init) && Kept(s.store) && Exact(init, s.store, s.sent)
    requires AllDue(plan, init, s.sent) && AllDue(plan, init, s.lost)
    requires FinishedOk(plan, init, s.finished, s.sent + s.lost)
    requires ListedOk(plan, init, s.listed, s.running + s.finished + s.failed)
    ensures Inv(plan, init, s)
  {
  }

  lemma OfInv(plan: Plan, init: Store, s: State)
    requires Inv(plan, init, s)
    ensures Kept(init) && Kept(s.store) && Exact(init, s.store, s.sent)
    ensures AllDue(plan, init, s.sent) && AllDue(plan, init, s.lost)
    ensures FinishedOk(plan, init, s.finished, s.sent + s.lost)
    ensures ListedOk(plan, init, s.listed, s.running + s.finished + s.failed)
  {
  }

  lemma WriteKeeps(plan: Plan, init: Store, s: State, from: Place, to: Url, facts: set<Fact>)
    requires NoLoop(plan) && Inv(plan, init, s) && Writing(plan, s, from, to, facts)
    ensures Inv(plan, init, Apply(plan, s, Deliver(from, to, facts)))
    ensures Inv(plan, init, Apply(plan, s, Lose(from, to, facts)))
  {
    assert facts != {};
    hide *;
    var parcels := Parcels(from, to, facts);
    OfInv(plan, init, s);
    MoreDue(plan, init, s, from, to, facts, s.sent);
    MoreDue(plan, init, s, from, to, facts, s.lost);
    WriteStays(s.store, Place(to, from.meas), facts);
    DeliverExact(init, s.store, s.sent, from, to, facts);
    OverGrows(s.sent, s.lost, parcels);
    MoreOver(plan, init, s.finished, s.sent + s.lost, s.sent + parcels + s.lost);
    MoreOver(plan, init, s.finished, s.sent + s.lost, s.sent + (s.lost + parcels));
    WriteApplied(plan, s, from, to, facts);
    InvOf(plan, init, Apply(plan, s, Deliver(from, to, facts)));
    InvOf(plan, init, Apply(plan, s, Lose(from, to, facts)));
  }

  lemma WriteApplied(plan: Plan, s: State, from: Place, to: Url, facts: set<Fact>)
    ensures Apply(plan, s, Deliver(from, to, facts))
      == s.(store := Write(s.store, Place(to, from.meas), facts), sent := s.sent + Parcels(from, to, facts))
    ensures Apply(plan, s, Lose(from, to, facts)) == s.(lost := s.lost + Parcels(from, to, facts))
  {
  }

  lemma OneOver(running: set<Place>, finished: set<Place>, failed: set<Place>, p: Place)
    requires p in running
    ensures (running - {p}) + (finished + {p}) + failed == running + finished + failed
    ensures (running - {p}) + finished + (failed + {p}) == running + finished + failed
  {
  }

  lemma OneFinished(plan: Plan, init: Store, store: Store, finished: set<Place>, over: set<Parcel>, p: Place)
    requires SourcesFixed(plan, init, store) && FinishedOk(plan, init, finished, over) && Settled(plan, store, p, over)
    ensures FinishedOk(plan, init, finished + {p}, over)
  {
    DueFixed(plan, init, store, p);
    hide Due, SourcesFixed;
  }

  lemma EndApplied(plan: Plan, s: State, from: Place)
    ensures Apply(plan, s, Finish(from)) == s.(running := s.running - {from}, finished := s.finished + {from})
    ensures Apply(plan, s, GiveUp(from)) == s.(running := s.running - {from}, failed := s.failed + {from})
  {
  }

  lemma EndKeeps(plan: Plan, init: Store, s: State, from: Place)
    requires NoLoop(plan) && Inv(plan, init, s) && from in s.running
    ensures Settled(plan, s.store, from, s.sent + s.lost) ==> Inv(plan, init, Apply(plan, s, Finish(from)))
    ensures Inv(plan, init, Apply(plan, s, GiveUp(from)))
  {
    hide *;
    OfInv(plan, init, s);
    Fixed(plan, init, s.store, s.sent);
    OneOver(s.running, s.finished, s.failed, from);
    EndApplied(plan, s, from);
    InvOf(plan, init, Apply(plan, s, GiveUp(from)));
    if Settled(plan, s.store, from, s.sent + s.lost) {
      OneFinished(plan, init, s.store, s.finished, s.sent + s.lost, from);
      InvOf(plan, init, Apply(plan, s, Finish(from)));
    }
  }

  lemma StepKeeps(plan: Plan, init: Store, s: State, step: Step)
    requires NoLoop(plan) && Inv(plan, init, s) && Enabled(plan, s, step)
    ensures Inv(plan, init, Apply(plan, s, step))
  {
    match step {
      case List(url, db) =>
        ListKeeps(plan, init, s, url, db);
        hide Submitted, ListedOk, Exact, AllDue, FinishedOk, Kept;
      case Deliver(from, to, facts) =>
        hide Inv, Writing, Apply, NoLoop;
        WriteKeeps(plan, init, s, from, to, facts);
      case Lose(from, to, facts) =>
        hide Inv, Writing, Apply, NoLoop;
        WriteKeeps(plan, init, s, from, to, facts);
      case Finish(from) =>
        hide Inv, Apply, NoLoop, Settled;
        EndKeeps(plan, init, s, from);
      case GiveUp(from) =>
        hide Inv, Apply, NoLoop;
        EndKeeps(plan, init, s, from);
    }
  }

  lemma {:induction false} RunKeeps(plan: Plan, init: Store, s: State, steps: seq<Step>)
    requires NoLoop(plan) && Inv(plan, init, s) && Legal(plan, s, steps)
    ensures Inv(plan, init, Run(plan, s, steps))
    decreases |steps|
  {
    hide Inv, Enabled, Apply, NoLoop;
    if steps != [] {
      StepKeeps(plan, init, s, steps[0]);
      RunKeeps(plan, init, Apply(plan, s, steps[0]), steps[1..]);
    }
  }

  // ---------- whole runs ----------

  /** Nothing is lost anywhere, and nothing turns up where it was not sent. */
  ghost predicate Between(plan: Plan, init: Store, store: Store) {
    forall p: Place :: At(init, p) <= At(store, p) <= At(init, p) + Brought(plan, init, p)
  }

  lemma ReceivedBrought(plan: Plan, init: Store, sent: set<Parcel>, p: Place)
    requires AllDue(plan, init, sent)
    ensures Received(sent, p) <= Brought(plan, init, p)
  {
    forall l | l in sent && l.to == p.url && l.from.meas == p.meas ensures l.fact in Brought(plan, init, p) {
      assert l.from == Place(l.from.url, p.meas);
    }
  }

  /** At any moment, even of an operation that never completes, no point is lost and none is where it was not sent. */
  lemma NothingLost(plan: Plan, init: Store, steps: seq<Step>)
    requires NoLoop(plan) && Kept(init) && Legal(plan, Begin(init), steps)
    ensures Between(plan, init, Run(plan, Begin(init), steps).store)
  {
    var s := Run(plan, Begin(init), steps);
    BeginInv(plan, init);
    RunKeeps(plan, init, Begin(init), steps);
    hide NoLoop, Legal, Run, Brought, AllDue, Kept;
    forall p: Place ensures At(init, p) <= At(s.store, p) <= At(init, p) + Brought(plan, init, p) {
      ReceivedBrought(plan, init, s.sent, p);
    }
  }

  /** Every backend has been listed for every database, and every transfer is over and was reported as done. */
  predicate Reported(plan: Plan, s: State) {
    (forall u, db | u in plan.sources && db in plan.dbs :: (u, db) in s.listed) && s.running == {} && s.failed == {}
  }

  /** And no write was lost on the way. */
  predicate Complete(plan: Plan, s: State) { Reported(plan, s) && s.lost == {} }

  /** Each place has got all that was sent to it. */
  ghost predicate Full(plan: Plan, init: Store, store: Store) {
    forall p: Place :: At(store, p) == At(init, p) + Brought(plan, init, p)
  }

  /** In an operation reported as done, each write has arrived or was lost. */
  lemma AllOver(plan: Plan, init: Store, s: State, l: Parcel)
    requires Inv(plan, init, s) && Reported(plan, s) && Due(plan, init, l)
    ensures l in s.sent + s.lost
  {
    hide Exact, Kept, AllDue;
    assert l.from in init && (l.from.url, l.from.meas.db) in s.listed;
    assert l.from in s.finished;
  }

  lemma AllBrought(plan: Plan, init: Store, s: State, p: Place)
    requires Inv(plan, init, s) && Reported(plan, s)
    requires forall l | l in s.lost :: l.fact in At(s.store, Place(l.to, l.from.meas))
    ensures Brought(plan, init, p) <= At(s.store, p)
  {
    hide Inv, Reported;
    forall src, f
      | src in plan.sources && p.url in Dests(plan, Place(src, p.meas))
        && f in Moved(plan, At(init, Place(src, p.meas)))
      ensures f in At(s.store, p)
    {
      var l := Parcel(Place(src, p.meas), p.url, f);
      AllOver(plan, init, s, l);
      if l in s.sent {
        SentIsThere(plan, init, s, l);
      }
      assert Place(p.url, p.meas) == p;
    }
  }

  lemma SentIsThere(plan: Plan, init: Store, s: State, l: Parcel)
    requires Inv(plan, init, s) && l in s.sent
    ensures l.fact in At(s.store, Place(l.to, l.from.meas))
  {
    assert l.fact in Received(s.sent, Place(l.to, l.from.meas));
  }

  /**
   * An operation whose transfers were all reported as done has brought everything exactly when each point that was lost
   * on the way is at its destination all the same: from the start, or from elsewhere, or by a write that only seemed
   * to fail.
   */
  lemma ReportedExact(plan: Plan, init: Store, steps: seq<Step>)
    requires NoLoop(plan) && Kept(init) && Legal(plan, Begin(init), steps)
    requires Reported(plan, Run(plan, Begin(init), steps))
    ensures
      var s := Run(plan, Begin(init), steps);
      Full(plan, init, s.store) <==> forall l | l in s.lost :: l.fact in At(s.store, Place(l.to, l.from.meas))
  {
    var s := Run(plan, Begin(init), steps);
    BeginInv(plan, init);
    RunKeeps(plan, init, Begin(init), steps);
    NothingLost(plan, init, steps);
    hide *;
    if forall l | l in s.lost :: l.fact in At(s.store, Place(l.to, l.from.meas)) {
      forall p: Place ensures Brought(plan, init, p) <= At(s.store, p) {
        AllBrought(plan, init, s, p);
      }
      FullIs(plan, init, s.store);
    } else {
      var l :| l in s.lost && l.fact !in At(s.store, Place(l.to, l.from.meas));
      LostIsDue(plan, init, s, l);
      NotFull(plan, init, s.store, l);
    }
  }

  lemma FullIs(plan: Plan, init: Store, store: Store)
    requires Between(plan, init, store) && forall p: Place :: Brought(plan, init, p) <= At(store, p)
    ensures Full(plan, init, store)
  {
    hide Brought, At;
  }

  lemma NotFull(plan: Plan, init: Store, store: Store, l: Parcel)
    requires Due(plan, init, l) && l.fact !in At(store, Place(l.to, l.from.meas))
    ensures !Full(plan, init, store)
  {
    hide Dests, Moved;
    var p := Place(l.to, l.from.meas);
    assert l.from == Place(l.from.url, p.meas);
    DestsOfSource(plan, l.from);
    assert l.fact in Brought(plan, init, p);
  }

  lemma DestsOfSource(plan: Plan, p: Place)
    ensures Dests(plan, p) != {} ==> p.url in plan.sources
  {
  }

  lemma LostIsDue(plan: Plan, init: Store, s: State, l: Parcel)
    requires Inv(plan, init, s) && l in s.lost
    ensures Due(plan, init, l)
  {
  }

  /** A complete operation ends the same way in whatever order it ran: each place has got all that was sent to it. */
  lemma Outcome(plan: Plan, init: Store, steps: seq<Step>)
    requires NoLoop(plan) && Kept(init) && Legal(plan, Begin(init), steps)
    requires Complete(plan, Run(plan, Begin(init), steps))
    ensures Kept(Run(plan, Begin(init), steps).store)
    ensures forall p: Place ::
      At(Run(plan, Begin(init), steps).store, p) == At(init, p) + Brought(plan, init, p)
  {
    BeginInv(plan, init);
    RunKeeps(plan, init, Begin(init), steps);
    hide Run, Legal, NoLoop, Kept;
    ReportedExact(plan, init, steps);
  }

  // ---------- how one transfer can go ----------

  lemma RunThree(plan: Plan, s: State, a: Step, b: Step, c: Step)
    requires Enabled(plan, s, a)
    requires var s1 := Apply(plan, s, a); Enabled(plan, s1, b)
    requires var s2 := Apply(plan, Apply(plan, s, a), b); Enabled(plan, s2, c)
    ensures Legal(plan, s, [a, b, c])
    ensures Run(plan, s, [a, b, c]) == Apply(plan, Apply(plan, Apply(plan, s, a), b), c)
  {
    hide Apply, Enabled;
    var s1 := Apply(plan, s, a);
    var s2 := Apply(plan, s1, b);
    var s3 := Apply(plan, s2, c);
    assert [c][1..] == [] && [b, c][1..] == [c] && [a, b, c][1..] == [b, c];
    assert Legal(plan, s3, []) && Run(plan, s3, []) == s3;
    assert Legal(plan, s2, [c]) && Run(plan, s2, [c]) == s3;
    assert Legal(plan, s1, [b, c]) && Run(plan, s1, [b, c]) == s3;
  }

  lemma Listed(plan: Plan, init: Store, p: Place, d: Url)
    requires p in init && Dests(plan, p) == {d}
    ensures
      var s := Apply(plan, Begin(init), List(p.url, p.meas.db));
      && Enabled(plan, Begin(init), List(p.url, p.meas.db))
      && s.store == init && p in s.running && s.sent == {} && s.lost == {} && s.finished == {} && s.failed == {}
  {
  }

  lemma AllParcels(plan: Plan, store: Store, now: Store, p: Place, d: Url, facts: set<Fact>)
    requires Dests(plan, p) == {d} && At(now, p) == At(store, p) && facts == Moved(plan, At(store, p))
    ensures Settled(plan, now, p, Parcels(p, d, facts))
  {
    forall l: Parcel | l.from == p && Due(plan, now, l) ensures l in Parcels(p, d, facts) {
      assert l == Parcel(p, d, l.fact);
    }
  }

  /**
   * A transfer to one backend, as it can go: its points are written and it is reported as done; every write of them is
   * given up, nothing has arrived, and it is reported as done all the same; or it is given up itself, and a write that
   * was under way still arrives.
   */
  lemma ThreeWays(plan: Plan, init: Store, p: Place, d: Url)
    requires Kept(init) && NoLoop(plan) && p in init && Dests(plan, p) == {d} && Moved(plan, init[p]) != {}
    ensures
      var facts := set f | f in init[p] && plan.moved(f);
      var steps := [List(p.url, p.meas.db), Deliver(p, d, facts), Finish(p)];
      && Legal(plan, Begin(init), steps)
      && var s := Run(plan, Begin(init), steps);
      p in s.finished && At(s.store, Place(d, p.meas)) == At(init, Place(d, p.meas)) + facts
    ensures
      var facts := set f | f in init[p] && plan.moved(f);
      var steps := [List(p.url, p.meas.db), Lose(p, d, facts), Finish(p)];
      && Legal(plan, Begin(init), steps)
      && var s := Run(plan, Begin(init), steps);
      p in s.finished && s.store == init
    ensures
      var facts := set f | f in init[p] && plan.moved(f);
      var steps := [List(p.url, p.meas.db), GiveUp(p), Deliver(p, d, facts)];
      && Legal(plan, Begin(init), steps)
      && var s := Run(plan, Begin(init), steps);
      p in s.failed && p !in s.finished && At(s.store, Place(d, p.meas)) == At(init, Place(d, p.meas)) + facts
  {
    var facts := set f | f in init[p] && plan.moved(f);
    assert facts == Moved(plan, init[p]);
    var s1 := Apply(plan, Begin(init), List(p.url, p.meas.db));
    Listed(plan, init, p, d);
    var put := Write(init, Place(d, p.meas), facts);
    NotItself(plan, p, d);
    assert At(put, p) == At(init, p);
    AllParcels(plan, init, put, p, d, facts);
    AllParcels(plan, init, init, p, d, facts);
    assert Apply(plan, s1, Deliver(p, d, facts)) == s1.(store := put, sent := Parcels(p, d, facts));
    assert Apply(plan, s1, Lose(p, d, facts)) == s1.(lost := Parcels(p, d, facts));
    assert At(put, Place(d, p.meas)) == At(init, Place(d, p.meas)) + facts;
    hide Settled, Dests, Moved, NoLoop, Parcels, Write, At, Kept;
    RunThree(plan, Begin(init), List(p.url, p.meas.db), Deliver(p, d, facts), Finish(p));
    RunThree(plan, Begin(init), List(p.url, p.meas.db), Lose(p, d, facts), Finish(p));
    RunThree(plan, Begin(init), List(p.url, p.meas.db), GiveUp(p), Deliver(p, d, facts));
  }

  lemma NotItself(plan: Plan, p: Place, d: Url)
    requires NoLoop(plan) && Dests(plan, p) == {d}
    ensures Place(d, p.meas) != p
  {
    assert d in Dests(plan, p);
  }
}
