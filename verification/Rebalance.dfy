/**
 * What Rebalance, Cleanup and Recovery leave in the backends (transfer/transfer.go), and how GetHealth of
 * backend/backend.go sees it.
 */
module Rebalance {
  import opened Transfer
  import Routing

  /** The backends of a circle and the one that each measurement belongs to. */
  datatype Circle = Circle(urls: set<Url>, home: Meas -> Url)

  ghost predicate Homed(c: Circle) { forall m: Meas :: c.home(m) in c.urls }

  /** The circle that the router makes of its backends. */
  function Routed(ring: Routing.Ring, bs: seq<Routing.Node>, hashKey: string, measureOnly: bool): Circle {
    Circle(set b | b in bs :: b.url, (m: Meas) =>
      match Routing.HomeIn(ring, bs, hashKey, Routing.GetKey(m.db, m.name, measureOnly))
      case Some(b) => b.url
      case None => "")
  }

  /** With a lawful ring and any backends at all, each measurement belongs to a backend of the circle. */
  lemma RoutedHomed(ring: Routing.Ring, bs: seq<Routing.Node>, hashKey: string, measureOnly: bool)
    requires Routing.Lawful(ring) && bs != []
    ensures Homed(Routed(ring, bs, hashKey, measureOnly))
    ensures forall m: Meas ::
      var key := if measureOnly then m.name else m.db + "," + m.name;
      var h := Routing.HomeIn(ring, bs, hashKey, key);
      h.Some? && h.value in bs && Routed(ring, bs, hashKey, measureOnly).home(m) == h.value.url
  {
    hide Routing.HomeIn, Routing.Lawful;
    var c := Routed(ring, bs, hashKey, measureOnly);
    forall m: Meas
      ensures
        var key := if measureOnly then m.name else m.db + "," + m.name;
        var h := Routing.HomeIn(ring, bs, hashKey, key);
        h.Some? && h.value in bs && c.home(m) == h.value.url
    {
      Routing.HomeIsListed(ring, bs, hashKey, if measureOnly then m.name else m.db + "," + m.name);
    }
  }

  /** All points of a measurement that some backends hold. */
  function Total(store: Store, urls: set<Url>, m: Meas): set<Fact> {
    set u, f | u in urls && f in At(store, Place(u, m)) :: f
  }

  // ---------- Rebalance ----------

  function RebalancePlan(c: Circle, backends: set<Url>, dbs: set<string>): Plan {
    Plan(backends, dbs, (u: Url, m: Meas) => if c.home(m) != u then {c.home(m)} else {}, _ => true)
  }

  lemma RebalanceNoLoop(c: Circle, backends: set<Url>, dbs: set<string>)
    ensures NoLoop(RebalancePlan(c, backends, dbs))
  {
  }

  /** A rebalance brings the points of the backends read to the home of their measurement, and changes nothing else. */
  lemma Rebalanced(c: Circle, backends: set<Url>, dbs: set<string>, init: Store, steps: seq<Step>)
    requires var plan := RebalancePlan(c, backends, dbs);
      Kept(init) && Legal(plan, Begin(init), steps) && Complete(plan, Run(plan, Begin(init), steps))
    ensures
      var end := Run(RebalancePlan(c, backends, dbs), Begin(init), steps).store;
      && Kept(end)
      && (forall u, m ::
            At(end, Place(u, m))
            == At(init, Place(u, m)) + if u == c.home(m) && m.db in dbs then Total(init, backends, m) else {})
  {
    var plan := RebalancePlan(c, backends, dbs);
    RebalanceNoLoop(c, backends, dbs);
    Outcome(plan, init, steps);
    hide Run, Legal, Complete, Kept, NoLoop;
    forall u, m
      ensures At(init, Place(u, m)) + Brought(plan, init, Place(u, m))
        == At(init, Place(u, m)) + if u == c.home(m) && m.db in dbs then Total(init, backends, m) else {}
    {
      RebalanceBrought(c, backends, dbs, init, u, m);
    }
  }

  lemma RebalanceBrought(c: Circle, backends: set<Url>, dbs: set<string>, init: Store, u: Url, m: Meas)
    ensures At(init, Place(u, m)) + Brought(RebalancePlan(c, backends, dbs), init, Place(u, m))
      == At(init, Place(u, m)) + if u == c.home(m) && m.db in dbs then Total(init, backends, m) else {}
  {
    var plan := RebalancePlan(c, backends, dbs);
    var brought := Brought(plan, init, Place(u, m));
    if u == c.home(m) && m.db in dbs {
      forall s, f | s in backends && f in At(init, Place(s, m)) ensures f in At(init, Place(u, m)) + brought {
        if s != u {
          assert u in Dests(plan, Place(s, m)) && f in Moved(plan, At(init, Place(s, m)));
          assert Place(u, m).url in Dests(plan, Place(s, Place(u, m).meas));
        }
      }
    } else {
      assert forall s :: u !in Dests(plan, Place(s, m));
      assert brought == {};
    }
  }

  // ---------- Cleanup ----------

  predicate Misplaced(c: Circle, p: Place) { p.url in c.urls && c.home(p.meas) != p.url }

  datatype Sweep = Sweep(store: Store, listed: set<(Url, string)>, running: set<Place>)

  datatype SweepStep = ListAll(url: Url, db: string) | Drop(p: Place)

  predicate SweepEnabled(c: Circle, s: Sweep, step: SweepStep) {
    match step
    case ListAll(url, db) => url in c.urls && (url, db) !in s.listed
    case Drop(p) => p in s.running
  }

  function SweepApply(c: Circle, s: Sweep, step: SweepStep): Sweep {
    match step
    case ListAll(url, db) =>
      s.(listed := s.listed + {(url, db)},
         running := s.running + set p | p in s.store && p.url == url && p.meas.db == db && Misplaced(c, p))
    case Drop(p) => s.(store := s.store - {p}, running := s.running - {p})
  }

  ghost predicate SweepLegal(c: Circle, s: Sweep, steps: seq<SweepStep>)
    decreases |steps|
  {
    steps == [] || (SweepEnabled(c, s, steps[0]) && SweepLegal(c, SweepApply(c, s, steps[0]), steps[1..]))
  }

  ghost function SweepRun(c: Circle, s: Sweep, steps: seq<SweepStep>): Sweep
    requires SweepLegal(c, s, steps)
    decreases |steps|
  {
    if steps == [] then s else SweepRun(c, SweepApply(c, s, steps[0]), steps[1..])
  }

  function SweepBegin(store: Store): Sweep { Sweep(store, {}, {}) }

  /** Each backend of the circle has been listed for each of its databases, and no drop is outstanding. */
  predicate SweepComplete(c: Circle, init: Store, s: Sweep) {
    (forall p | p in init && p.url in c.urls :: (p.url, p.meas.db) in s.listed) && s.running == {}
  }

  /** Only what is misplaced goes, and what has been listed and is misplaced is gone or about to go. */
  ghost predicate SweepInv(c: Circle, init: Store, s: Sweep) {
    && (forall p | p in s.store :: p in init && s.store[p] == init[p])
    && (forall p | p in init && !Misplaced(c, p) :: p in s.store)
    && (forall p | p in s.running :: Misplaced(c, p))
    && (forall p | p in s.store && Misplaced(c, p) && (p.url, p.meas.db) in s.listed :: p in s.running)
  }

  lemma SweepStepKeeps(c: Circle, init: Store, s: Sweep, step: SweepStep)
    requires SweepInv(c, init, s) && SweepEnabled(c, s, step)
    ensures SweepInv(c, init, SweepApply(c, s, step))
  {
  }

  lemma {:induction false} SweepKeeps(c: Circle, init: Store, s: Sweep, steps: seq<SweepStep>)
    requires SweepInv(c, init, s) && SweepLegal(c, s, steps)
    ensures SweepInv(c, init, SweepRun(c, s, steps))
    decreases |steps|
  {
    hide SweepInv, SweepApply;
    if steps != [] {
      SweepStepKeeps(c, init, s, steps[0]);
      SweepKeeps(c, init, SweepApply(c, s, steps[0]), steps[1..]);
    }
  }

  /** A cleanup drops just the misplaced measurements of its circle, in whatever order. */
  lemma Cleaned(c: Circle, init: Store, steps: seq<SweepStep>)
    requires SweepLegal(c, SweepBegin(init), steps)
    requires SweepComplete(c, init, SweepRun(c, SweepBegin(init), steps))
    ensures SweepRun(c, SweepBegin(init), steps).store
      == map p | p in init && !(p.url in c.urls && c.home(p.meas) != p.url) :: init[p]
  {
    SweepKeeps(c, init, SweepBegin(init), steps);
    hide SweepRun, SweepLegal;
  }

  /** Any misplaced measurement can be dropped as soon as its backend has been listed for its database. */
  lemma DropReached(c: Circle, init: Store, p: Place)
    requires p in init && p.url in c.urls && c.home(p.meas) != p.url
    ensures
      var steps := [ListAll(p.url, p.meas.db), Drop(p)];
      SweepLegal(c, SweepBegin(init), steps) && SweepRun(c, SweepBegin(init), steps).store == init - {p}
  {
    var steps := [ListAll(p.url, p.meas.db), Drop(p)];
    assert steps[1..] == [Drop(p)] && steps[1..][1..] == [];
    var s1 := SweepApply(c, SweepBegin(init), steps[0]);
    assert p in s1.running && s1.store == init;
    var s2 := SweepApply(c, s1, Drop(p));
    assert SweepLegal(c, s2, []);
    assert SweepLegal(c, s1, steps[1..]) && SweepRun(c, s1, steps[1..]) == s2;
  }

  // ---------- both ----------

  /** A complete cleanup leads from the one store to the other. */
  ghost predicate SweptTo(c: Circle, middle: Store, sweep: seq<SweepStep>, end: Store) {
    && SweepLegal(c, SweepBegin(middle), sweep) && SweepComplete(c, middle, SweepRun(c, SweepBegin(middle), sweep))
    && end == SweepRun(c, SweepBegin(middle), sweep).store
  }

  /** What a circle holds after a complete rebalance and a complete cleanup. */
  ghost predicate RebalancedAndCleaned(c: Circle, backends: set<Url>, dbs: set<string>, init: Store, steps: seq<Step>,
                                       sweep: seq<SweepStep>, end: Store) {
    var plan := RebalancePlan(c, backends, dbs);
    && Kept(init) && Legal(plan, Begin(init), steps) && Complete(plan, Run(plan, Begin(init), steps))
    && SweptTo(c, Run(plan, Begin(init), steps).store, sweep, end)
  }

  /**
   * Afterwards a measurement is only on its home in the circle, which holds what it held and, for the databases
   * covered, what all backends read held.
   */
  lemma OnlyAtHome(c: Circle, backends: set<Url>, dbs: set<string>, init: Store, steps: seq<Step>,
                   sweep: seq<SweepStep>, end: Store)
    requires Homed(c) && RebalancedAndCleaned(c, backends, dbs, init, steps, sweep, end)
    ensures forall p | p in end && p.url in c.urls :: p.url == c.home(p.meas)
    ensures forall m ::
      At(end, Place(c.home(m), m))
      == At(init, Place(c.home(m), m)) + if m.db in dbs then Total(init, backends, m) else {}
    ensures forall m :: Total(end, c.urls, m) == At(end, Place(c.home(m), m))
  {
    var middle := Run(RebalancePlan(c, backends, dbs), Begin(init), steps).store;
    Rebalanced(c, backends, dbs, init, steps);
    Cleaned(c, middle, sweep);
    hide Run, Legal, Complete, SweepRun, SweepLegal, SweepComplete, RebalancePlan;
    forall m ensures At(end, Place(c.home(m), m)) == At(middle, Place(c.home(m), m)) {
      assert !Misplaced(c, Place(c.home(m), m));
    }
    forall m ensures Total(end, c.urls, m) == At(end, Place(c.home(m), m)) {
      TotalAtHome(c, end, m);
    }
  }

  lemma TotalAtHome(c: Circle, store: Store, m: Meas)
    requires Homed(c) && forall p | p in store && p.url in c.urls :: p.url == c.home(p.meas)
    ensures Total(store, c.urls, m) == At(store, Place(c.home(m), m))
  {
    forall u, f | u in c.urls && f in At(store, Place(u, m)) ensures f in At(store, Place(c.home(m), m)) {
      assert Place(u, m) in store;
    }
  }

  /** What a misplaced measurement finds at home after the rebalance: more than before if its database is covered. */
  function AtHome(c: Circle, backends: set<Url>, dbs: set<string>, init: Store, m: Meas): set<Fact> {
    At(init, Place(c.home(m), m)) + if m.db in dbs then Total(init, backends, m) else {}
  }

  /** Read in the rebalance: its backend is one of those given and active, and its database is covered. */
  predicate Covered(backends: set<Url>, dbs: set<string>, p: Place) { p.url in backends && p.meas.db in dbs }

  /**
   * The circle has kept all its points exactly when every misplaced measurement that was not read, because its backend
   * was not active or its database not covered, is at home anyway.
   */
  lemma Conserved(c: Circle, backends: set<Url>, dbs: set<string>, init: Store, steps: seq<Step>,
                  sweep: seq<SweepStep>, end: Store)
    requires Homed(c) && RebalancedAndCleaned(c, backends, dbs, init, steps, sweep, end)
    ensures (forall m :: Total(init, c.urls, m) <= Total(end, c.urls, m))
      <==>
      (forall p | p in init && Misplaced(c, p) && !Covered(backends, dbs, p) ::
         init[p] <= AtHome(c, backends, dbs, init, p.meas))
  {
    OnlyAtHome(c, backends, dbs, init, steps, sweep, end);
    hide RebalancedAndCleaned;
    assert forall m :: Total(end, c.urls, m) == AtHome(c, backends, dbs, init, m);
    if forall m :: Total(init, c.urls, m) <= Total(end, c.urls, m) {
      forall p | p in init && Misplaced(c, p) && !Covered(backends, dbs, p)
        ensures init[p] <= AtHome(c, backends, dbs, init, p.meas)
      {
        assert p == Place(p.url, p.meas);
        var m := p.meas;
        forall f | f in init[p] ensures f in Total(init, c.urls, m) {
          assert f in At(init, Place(p.url, m));
        }
        assert Total(init, c.urls, m) <= Total(end, c.urls, m);
      }
    } else {
      var m :| !(Total(init, c.urls, m) <= Total(end, c.urls, m));
      var f :| f in Total(init, c.urls, m) && f !in Total(end, c.urls, m);
      var u :| u in c.urls && f in At(init, Place(u, m));
      var p := Place(u, m);
      assert f in init[p] && f !in AtHome(c, backends, dbs, init, m);
      assert u in backends ==> f in Total(init, backends, m);
      assert Misplaced(c, p) && !Covered(backends, dbs, p);
    }
  }

  /** What a circle holds after a rebalance whose transfers were all reported as done, and a complete cleanup. */
  ghost predicate ReportedAndCleaned(c: Circle, backends: set<Url>, dbs: set<string>, init: Store, steps: seq<Step>,
                                     sweep: seq<SweepStep>, end: Store) {
    var plan := RebalancePlan(c, backends, dbs);
    && Kept(init) && Legal(plan, Begin(init), steps) && Reported(plan, Run(plan, Begin(init), steps))
    && SweptTo(c, Run(plan, Begin(init), steps).store, sweep, end)
  }

  /** All points of place p are at the home of its measurement. */
  predicate Safe(c: Circle, init: Store, store: Store, p: Place) {
    At(init, p) <= At(store, Place(c.home(p.meas), p.meas))
  }

  /** The cleanup leaves in the circle what is at home. */
  lemma CleanedTotal(c: Circle, middle: Store, sweep: seq<SweepStep>, end: Store, m: Meas)
    requires Homed(c) && SweptTo(c, middle, sweep, end)
    ensures Total(end, c.urls, m) == At(middle, Place(c.home(m), m))
  {
    Cleaned(c, middle, sweep);
    hide SweepRun, SweepLegal, SweepComplete;
    assert !Misplaced(c, Place(c.home(m), m));
    TotalAtHome(c, end, m);
  }

  /** A misplaced measurement that was read is at home but for the points that were lost. */
  lemma ReadIsSafe(c: Circle, backends: set<Url>, dbs: set<string>, init: Store, s: State, p: Place)
    requires var plan := RebalancePlan(c, backends, dbs); Inv(plan, init, s) && Reported(plan, s)
    requires Misplaced(c, p) && Covered(backends, dbs, p)
    ensures forall f | f in At(init, p) && f !in At(s.store, Place(c.home(p.meas), p.meas)) ::
      Parcel(p, c.home(p.meas), f) in s.lost
  {
    var plan := RebalancePlan(c, backends, dbs);
    forall f | f in At(init, p) && f !in At(s.store, Place(c.home(p.meas), p.meas))
      ensures Parcel(p, c.home(p.meas), f) in s.lost
    {
      var l := Parcel(p, c.home(p.meas), f);
      assert Due(plan, init, l);
      AllOver(plan, init, s, l);
      if l in s.sent {
        SentIsThere(plan, init, s, l);
      }
    }
  }

  /** The circle holds what it held exactly when all that was misplaced is at home. */
  lemma TotalsKept(c: Circle, init: Store, store: Store)
    requires Homed(c) && forall p: Place :: At(init, p) <= At(store, p)
    ensures (forall m :: Total(init, c.urls, m) <= At(store, Place(c.home(m), m)))
      <==> forall p | Misplaced(c, p) :: Safe(c, init, store, p)
  {
    if forall m :: Total(init, c.urls, m) <= At(store, Place(c.home(m), m)) {
      forall p | Misplaced(c, p) ensures Safe(c, init, store, p) {
        var m := p.meas;
        assert Place(p.url, m) == p && Total(init, c.urls, m) <= At(store, Place(c.home(m), m));
        forall f | f in At(init, p) ensures f in Total(init, c.urls, m) {
        }
      }
    }
    if forall p | Misplaced(c, p) :: Safe(c, init, store, p) {
      forall m, u | u in c.urls ensures At(init, Place(u, m)) <= At(store, Place(c.home(m), m)) {
        var p := Place(u, m);
        if u != c.home(m) {
          assert Misplaced(c, p) && Safe(c, init, store, p);
        }
      }
    }
  }

  /**
   * After a rebalance that reported every transfer as done, a cleanup takes points from the circle exactly when one
   * that was lost on the way, or one of a measurement that was not read, is not at home.
   */
  lemma ReportedConserved(c: Circle, backends: set<Url>, dbs: set<string>, init: Store, steps: seq<Step>,
                          sweep: seq<SweepStep>, end: Store)
    requires Homed(c) && ReportedAndCleaned(c, backends, dbs, init, steps, sweep, end)
    ensures
      var s := Run(RebalancePlan(c, backends, dbs), Begin(init), steps);
      (forall m :: Total(init, c.urls, m) <= Total(end, c.urls, m))
      <==>
      && (forall l | l in s.lost && l.from.url in c.urls :: l.fact in At(s.store, Place(l.to, l.from.meas)))
      && (forall p | Misplaced(c, p) && !Covered(backends, dbs, p) :: Safe(c, init, s.store, p))
  {
    var plan := RebalancePlan(c, backends, dbs);
    var s := Run(plan, Begin(init), steps);
    RebalanceNoLoop(c, backends, dbs);
    BeginInv(plan, init);
    RunKeeps(plan, init, Begin(init), steps);
    NothingLost(plan, init, steps);
    forall m ensures Total(end, c.urls, m) == At(s.store, Place(c.home(m), m)) {
      CleanedTotal(c, s.store, sweep, end, m);
    }
    assert forall p: Place :: At(init, p) <= At(s.store, p) by { hide *; BetweenLow(plan, init, s.store); }
    hide *;
    TotalsKept(c, init, s.store);
    LostOrSafe(c, backends, dbs, init, s);
  }

  lemma BetweenLow(plan: Plan, init: Store, store: Store)
    requires Between(plan, init, store)
    ensures forall p: Place :: At(init, p) <= At(store, p)
  {
  }

  lemma LostOrSafe(c: Circle, backends: set<Url>, dbs: set<string>, init: Store, s: State)
    requires var plan := RebalancePlan(c, backends, dbs); Inv(plan, init, s) && Reported(plan, s)
    ensures (forall p | Misplaced(c, p) :: Safe(c, init, s.store, p))
      <==>
      && (forall l | l in s.lost && l.from.url in c.urls :: l.fact in At(s.store, Place(l.to, l.from.meas)))
      && (forall p | Misplaced(c, p) && !Covered(backends, dbs, p) :: Safe(c, init, s.store, p))
  {
    var plan := RebalancePlan(c, backends, dbs);
    hide Inv, Reported;
    if forall p | Misplaced(c, p) :: Safe(c, init, s.store, p) {
      forall l | l in s.lost && l.from.url in c.urls ensures l.fact in At(s.store, Place(l.to, l.from.meas)) {
        LostIsDue(plan, init, s, l);
        assert Misplaced(c, l.from) && Safe(c, init, s.store, l.from);
      }
    } else {
      var p :| Misplaced(c, p) && !Safe(c, init, s.store, p);
      if Covered(backends, dbs, p) {
        var f :| f in At(init, p) && f !in At(s.store, Place(c.home(p.meas), p.meas));
        ReadIsSafe(c, backends, dbs, init, s, p);
        assert Parcel(p, c.home(p.meas), f) in s.lost;
      }
    }
  }

  // ---------- GetHealth ----------

  /** The numbers of one database: its measurements, those in place and those that belong elsewhere. */
  datatype Counts = Counts(measurements: nat, inplace: nat, incorrect: nat)

  function Astray(url: Url, db: string, names: seq<string>, home: Meas -> Url): (n: nat)
    ensures n <= |names|
  {
    if names == [] then 0
    else
      Astray(url, db, names[..|names| - 1], home)
      + if home(Meas(db, names[|names| - 1])) != url then 1 else 0
  }

  lemma {:induction false} AstrayNone(url: Url, db: string, names: seq<string>, home: Meas -> Url)
    ensures Astray(url, db, names, home) == 0 <==> forall i | 0 <= i < |names| :: home(Meas(db, names[i])) == url
  {
    if names != [] {
      var front := names[..|names| - 1];
      AstrayNone(url, db, front, home);
      assert forall i | 0 <= i < |front| :: front[i] == names[i];
    }
  }

  lemma {:induction false} AstrayCount(url: Url, db: string, names: seq<string>, home: Meas -> Url)
    ensures Astray(url, db, names, home) == |set i | 0 <= i < |names| && home(Meas(db, names[i])) != url|
  {
    var all := set i | 0 <= i < |names| && home(Meas(db, names[i])) != url;
    if names != [] {
      var n: nat := |names| - 1;
      var front := set i | 0 <= i < n && home(Meas(db, names[..n][i])) != url;
      AstrayCount(url, db, names[..n], home);
      assert front == set i | 0 <= i < |names[..n]| && home(Meas(db, names[..n][i])) != url;
      assert all == front + if home(Meas(db, names[n])) != url then {n} else {};
    } else {
      assert all == {};
    }
  }

  /** A backend is healthy exactly when none of its measurements belongs to another. */
  method GetHealth(url: Url, dbs: seq<string>, measurements: string -> seq<string>, home: Meas -> Url)
    returns (healthy: bool, stats: map<string, Counts>)
    ensures stats.Keys == set db | db in dbs
    ensures forall db | db in dbs ::
      var n := Astray(url, db, measurements(db), home);
      stats[db] == Counts(|measurements(db)|, |measurements(db)| - n, n)
    ensures healthy <==>
      forall i, j | 0 <= i < |dbs| && 0 <= j < |measurements(dbs[i])| ::
        home(Meas(dbs[i], measurements(dbs[i])[j])) == url
  {
    stats, healthy := map[], true;
    for i := 0 to |dbs|
      invariant stats.Keys == set db | db in dbs[..i]
      invariant forall db | db in dbs[..i] ::
        var n := Astray(url, db, measurements(db), home);
        stats[db] == Counts(|measurements(db)|, |measurements(db)| - n, n)
      invariant healthy <==> forall k | 0 <= k < i :: Astray(url, dbs[k], measurements(dbs[k]), home) == 0
    {
      var db, names := dbs[i], measurements(dbs[i]);
      var counts := CountPlaces(url, db, names, home);
      stats := stats[db := counts];
      healthy := healthy && counts.incorrect == 0;
      assert dbs[..i + 1] == dbs[..i] + [db];
    }
    assert dbs[..|dbs|] == dbs;
    forall k | 0 <= k < |dbs|
      ensures Astray(url, dbs[k], measurements(dbs[k]), home) == 0
        <==> forall j | 0 <= j < |measurements(dbs[k])| :: home(Meas(dbs[k], measurements(dbs[k])[j])) == url
    {
      AstrayNone(url, dbs[k], measurements(dbs[k]), home);
    }
  }

  method CountPlaces(url: Url, db: string, names: seq<string>, home: Meas -> Url) returns (counts: Counts)
    ensures var n := Astray(url, db, names, home); counts == Counts(|names|, |names| - n, n)
  {
    var inplace, incorrect: nat := 0, 0;
    for i := 0 to |names|
      invariant incorrect == Astray(url, db, names[..i], home) && inplace + incorrect == i
    {
      assert names[..i + 1][..i] == names[..i];
      if home(Meas(db, names[i])) == url {
        inplace := inplace + 1;
      } else {
        incorrect := incorrect + 1;
      }
    }
    assert names[..|names|] == names;
    counts := Counts(|names|, inplace, incorrect);
  }

  /** After a rebalance and a cleanup no backend of the circle counts an incorrect measurement. */
  lemma AllHealthy(c: Circle, backends: set<Url>, dbs: set<string>, init: Store, steps: seq<Step>,
                   sweep: seq<SweepStep>, end: Store, url: Url, db: string, names: seq<string>)
    requires Homed(c) && RebalancedAndCleaned(c, backends, dbs, init, steps, sweep, end)
    requires url in c.urls && forall i | 0 <= i < |names| :: Place(url, Meas(db, names[i])) in end
    ensures Astray(url, db, names, c.home) == 0
  {
    OnlyAtHome(c, backends, dbs, init, steps, sweep, end);
    AstrayNone(url, db, names, c.home);
    hide RebalancedAndCleaned, Astray;
  }

  // ---------- Recovery ----------

  function RecoveryPlan(from: Circle, to: Circle, chosen: set<Url>, dbs: set<string>): Plan {
    Plan(from.urls, dbs, (u: Url, m: Meas) => if to.home(m) in chosen then {to.home(m)} else {}, _ => true)
  }

  /** A recovery brings all points of the one circle to their homes in the other, as far as these were chosen. */
  lemma Recovered(from: Circle, to: Circle, chosen: set<Url>, dbs: set<string>, init: Store, steps: seq<Step>)
    requires var plan := RecoveryPlan(from, to, chosen, dbs);
      Kept(init) && Legal(plan, Begin(init), steps) && Complete(plan, Run(plan, Begin(init), steps))
    requires Homed(to) && from.urls !! to.urls
    ensures
      var end := Run(RecoveryPlan(from, to, chosen, dbs), Begin(init), steps).store;
      forall u, m ::
        At(end, Place(u, m))
        == At(init, Place(u, m))
           + if u == to.home(m) && u in chosen && m.db in dbs then Total(init, from.urls, m) else {}
  {
    var plan := RecoveryPlan(from, to, chosen, dbs);
    assert NoLoop(plan);
    Outcome(plan, init, steps);
    hide Run, Legal, Complete, Kept, NoLoop;
    forall u, m
      ensures Brought(plan, init, Place(u, m))
        == if u == to.home(m) && u in chosen && m.db in dbs then Total(init, from.urls, m) else {}
    {
      RecoveryBrought(from, to, chosen, dbs, init, u, m);
    }
  }

  lemma RecoveryBrought(from: Circle, to: Circle, chosen: set<Url>, dbs: set<string>, init: Store, u: Url, m: Meas)
    ensures Brought(RecoveryPlan(from, to, chosen, dbs), init, Place(u, m))
      == if u == to.home(m) && u in chosen && m.db in dbs then Total(init, from.urls, m) else {}
  {
    var plan := RecoveryPlan(from, to, chosen, dbs);
    if u == to.home(m) && u in chosen && m.db in dbs {
      forall s, f | s in from.urls && f in At(init, Place(s, m)) ensures f in Brought(plan, init, Place(u, m)) {
        assert Place(u, m).url in Dests(plan, Place(s, Place(u, m).meas));
        assert f in Moved(plan, At(init, Place(s, m)));
      }
    } else {
      assert forall s :: u !in Dests(plan, Place(s, m));
    }
  }
}
