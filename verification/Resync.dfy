/** What Resync leaves in the circles (transfer/transfer.go). */
module Resync {
  import opened Transfer
  import opened Rebalance

  /** Circles without a backend in common. */
  ghost predicate Apart(circles: seq<Circle>) {
    (forall i | 0 <= i < |circles| :: Homed(circles[i]))
    && forall i, j | 0 <= i < |circles| && 0 <= j < |circles| && i != j :: circles[i].urls !! circles[j].urls
  }

  const SECOND := 1_000_000_000

  /** With a tick, only points not older than it; without one, all. */
  function Recent(tick: int, f: Fact): bool { tick <= 0 || f.time >= tick * SECOND }

  function RecentOf(tick: int, fs: set<Fact>): (r: set<Fact>)
    ensures forall f :: f in r <==> f in fs && (tick <= 0 || f.time >= tick * 1_000_000_000)
  {
    set f | f in fs && Recent(tick, f)
  }

  function OtherHomes(circles: seq<Circle>, c: nat, m: Meas): set<Url> {
    set j | 0 <= j < |circles| && j != c :: circles[j].home(m)
  }

  /** One circle's turn: all it holds goes to the homes in all other circles. */
  function ResyncPlan(circles: seq<Circle>, c: nat, dbs: set<string>, tick: int): Plan
    requires c < |circles|
  {
    Plan(circles[c].urls, dbs, (u: Url, m: Meas) => OtherHomes(circles, c, m), f => Recent(tick, f))
  }

  lemma ResyncNoLoop(circles: seq<Circle>, c: nat, dbs: set<string>, tick: int)
    requires Apart(circles) && c < |circles|
    ensures NoLoop(ResyncPlan(circles, c, dbs, tick))
  {
    var plan := ResyncPlan(circles, c, dbs, tick);
    forall p: Place, d: Url | d in Dests(plan, p) ensures Dests(plan, Place(d, p.meas)) == {} {
      var j :| 0 <= j < |circles| && j != c && d == circles[j].home(p.meas);
      assert Homed(circles[j]);
    }
  }

  lemma ResyncBrought(circles: seq<Circle>, c: nat, dbs: set<string>, tick: int, init: Store, u: Url, m: Meas)
    requires c < |circles|
    ensures Brought(ResyncPlan(circles, c, dbs, tick), init, Place(u, m))
      == if u in OtherHomes(circles, c, m) && m.db in dbs then RecentOf(tick, Total(init, circles[c].urls, m)) else {}
  {
    var plan := ResyncPlan(circles, c, dbs, tick);
    hide OtherHomes;
    if u in OtherHomes(circles, c, m) && m.db in dbs {
      forall s, f | s in circles[c].urls && f in At(init, Place(s, m)) && Recent(tick, f)
        ensures f in Brought(plan, init, Place(u, m))
      {
        assert Place(u, m).url in Dests(plan, Place(s, Place(u, m).meas));
        assert f in Moved(plan, At(init, Place(s, m)));
      }
    } else {
      assert forall s :: u !in Dests(plan, Place(s, m));
    }
  }

  /** The end of a complete turn. */
  ghost predicate Turn(circles: seq<Circle>, c: nat, dbs: set<string>, tick: int, init: Store, steps: seq<Step>,
                       end: Store)
    requires c < |circles|
  {
    var plan := ResyncPlan(circles, c, dbs, tick);
    Legal(plan, Begin(init), steps)
    && Complete(plan, Run(plan, Begin(init), steps))
    && end == Run(plan, Begin(init), steps).store
  }

  lemma TurnAt(circles: seq<Circle>, c: nat, dbs: set<string>, tick: int, init: Store, steps: seq<Step>, end: Store)
    requires Apart(circles) && c < |circles| && Kept(init) && Turn(circles, c, dbs, tick, init, steps, end)
    ensures Kept(end)
    ensures forall u, m ::
      At(end, Place(u, m))
      == At(init, Place(u, m))
         + if u in OtherHomes(circles, c, m) && m.db in dbs then RecentOf(tick, Total(init, circles[c].urls, m)) else {}
  {
    ResyncNoLoop(circles, c, dbs, tick);
    var plan := ResyncPlan(circles, c, dbs, tick);
    Outcome(plan, init, steps);
    hide Run, Legal, Complete, Kept, NoLoop, ResyncPlan, OtherHomes, RecentOf;
    forall u, m {
      ResyncBrought(circles, c, dbs, tick, init, u, m);
    }
  }

  /** A circle's turn adds its recent points to every other circle and changes none of its own. */
  lemma TurnTotal(circles: seq<Circle>, c: nat, dbs: set<string>, tick: int, init: Store, steps: seq<Step>, end: Store,
                  j: nat, m: Meas)
    requires Apart(circles) && c < |circles| && j < |circles|
    requires Kept(init) && Turn(circles, c, dbs, tick, init, steps, end)
    ensures Total(end, circles[j].urls, m)
      == Total(init, circles[j].urls, m)
         + if j != c && m.db in dbs then RecentOf(tick, Total(init, circles[c].urls, m)) else {}
  {
    TurnAt(circles, c, dbs, tick, init, steps, end);
    hide Turn, RecentOf, Kept;
    var extra := RecentOf(tick, Total(init, circles[c].urls, m));
    var urls, home := circles[j].urls, circles[j].home(m);
    assert Homed(circles[j]);
    HomesApart(circles, c, j, m);
    hide OtherHomes, Apart;
    forall u, f | u in urls && f in At(end, Place(u, m))
      ensures f in Total(init, urls, m) + if j != c && m.db in dbs then extra else {}
    {
    }
    if j != c && m.db in dbs {
      forall f | f in extra ensures f in Total(end, urls, m) {
        assert f in At(end, Place(home, m));
      }
    }
    forall u, f | u in urls && f in At(init, Place(u, m)) ensures f in Total(end, urls, m) {
      assert f in At(end, Place(u, m));
    }
  }

  lemma HomesApart(circles: seq<Circle>, c: nat, j: nat, m: Meas)
    requires Apart(circles) && c < |circles| && j < |circles|
    ensures j == c ==> forall u | u in circles[j].urls :: u !in OtherHomes(circles, c, m)
    ensures j != c ==> circles[j].home(m) in OtherHomes(circles, c, m)
  {
    forall i | 0 <= i < |circles| && i != c ensures circles[i].home(m) !in circles[c].urls {
      assert Homed(circles[i]);
    }
  }

  // ---------- all turns ----------

  /** The stores between the turns of the first k circles, in order, each turn complete. */
  ghost predicate Turns(circles: seq<Circle>, dbs: set<string>, tick: int, stores: seq<Store>, runs: seq<seq<Step>>,
                        k: nat)
    requires k <= |circles|
  {
    |stores| == k + 1 && |runs| == k
    && forall c | 0 <= c < k :: Turn(circles, c, dbs, tick, stores[c], runs[c], stores[c + 1])
  }

  /** What the first k circles held of a measurement. */
  function AllOf(circles: seq<Circle>, init: Store, m: Meas, k: nat): set<Fact>
    requires k <= |circles|
  {
    if k == 0 then {} else AllOf(circles, init, m, k - 1) + Total(init, circles[k - 1].urls, m)
  }

  lemma {:induction false} TurnsTotal(circles: seq<Circle>, dbs: set<string>, tick: int, stores: seq<Store>,
                                      runs: seq<seq<Step>>, k: nat, j: nat, m: Meas)
    requires Apart(circles) && k <= |circles| && j < |circles|
    requires Turns(circles, dbs, tick, stores, runs, k) && Kept(stores[0])
    ensures Kept(stores[k])
    ensures Total(stores[k], circles[j].urls, m)
      == Total(stores[0], circles[j].urls, m)
         + if m.db in dbs then RecentOf(tick, AllOf(circles, stores[0], m, k)) else {}
    decreases k
  {
    if k > 0 {
      var c := k - 1;
      FewerTurns(circles, dbs, tick, stores, runs, k);
      TurnsTotal(circles, dbs, tick, stores[..k], runs[..c], c, j, m);
      TurnsTotal(circles, dbs, tick, stores[..k], runs[..c], c, c, m);
      assert Turn(circles, c, dbs, tick, stores[c], runs[c], stores[k]);
      hide Turns, Turn, Apart, Total, RecentOf, Kept;
      TurnAt(circles, c, dbs, tick, stores[c], runs[c], stores[k]);
      TurnTotal(circles, c, dbs, tick, stores[c], runs[c], stores[k], j, m);
      TurnSum(tick, Total(stores[0], circles[j].urls, m), Total(stores[0], circles[c].urls, m),
              AllOf(circles, stores[0], m, c), j == c);
    } else {
      assert RecentOf(tick, {}) == {};
    }
  }

  lemma FewerTurns(circles: seq<Circle>, dbs: set<string>, tick: int, stores: seq<Store>, runs: seq<seq<Step>>, k: nat)
    requires 0 < k <= |circles| && Turns(circles, dbs, tick, stores, runs, k)
    ensures Turns(circles, dbs, tick, stores[..k], runs[..k - 1], k - 1)
    ensures stores[..k][k - 1] == stores[k - 1] && stores[..k][0] == stores[0]
  {
    hide Turn;
    var ss, rs := stores[..k], runs[..k - 1];
    forall c | 0 <= c < k - 1 ensures Turn(circles, c, dbs, tick, ss[c], rs[c], ss[c + 1]) {
      assert Turn(circles, c, dbs, tick, stores[c], runs[c], stores[c + 1]);
    }
  }

  lemma TurnSum(tick: int, a: set<Fact>, b: set<Fact>, rest: set<Fact>, same: bool)
    requires same ==> a == b
    ensures a + RecentOf(tick, rest) + (if same then {} else RecentOf(tick, b + RecentOf(tick, rest)))
      == a + RecentOf(tick, rest + b)
  {
  }

  lemma AllRecent(fs: set<Fact>, tick: int)
    requires tick <= 0
    ensures RecentOf(tick, fs) == fs
  {
  }

  lemma {:induction false} AllOfHas(circles: seq<Circle>, init: Store, m: Meas, k: nat, j: nat)
    requires j < k <= |circles|
    ensures Total(init, circles[j].urls, m) <= AllOf(circles, init, m, k)
  {
    if j < k - 1 {
      AllOfHas(circles, init, m, k - 1, j);
    }
  }

  /**
   * After a resync of all circles, whatever their order and wherever the points were, each circle holds what it held
   * and the recent points of all of them: without a tick, the same points as every other, the union of all.
   */
  lemma Resynced(circles: seq<Circle>, dbs: set<string>, tick: int, stores: seq<Store>, runs: seq<seq<Step>>, j: nat,
                 m: Meas)
    requires Apart(circles) && j < |circles| && m.db in dbs
    requires Turns(circles, dbs, tick, stores, runs, |circles|) && Kept(stores[0])
    ensures
      var n := |circles|;
      var end := Total(stores[n], circles[j].urls, m);
      && end == Total(stores[0], circles[j].urls, m) + RecentOf(tick, AllOf(circles, stores[0], m, n))
      && (tick <= 0 ==> end == AllOf(circles, stores[0], m, n))
  {
    var n := |circles|;
    TurnsTotal(circles, dbs, tick, stores, runs, n, j, m);
    hide Turns, Turn, Apart, Total, RecentOf, Kept;
    AllOfHas(circles, stores[0], m, n, j);
    if tick <= 0 {
      AllRecent(AllOf(circles, stores[0], m, n), tick);
    }
  }

  // ---------- backends that are not read and writes that are lost ----------

  /** A circle's turn with only some of its backends active. */
  function ActivePlan(circles: seq<Circle>, c: nat, active: set<Url>, dbs: set<string>, tick: int): Plan
    requires c < |circles|
  {
    ResyncPlan(circles, c, dbs, tick).(sources := circles[c].urls * active)
  }

  /** Such a turn from one store to the end of a run whose transfers were all reported as done. */
  ghost predicate ReportedTurn(circles: seq<Circle>, c: nat, active: set<Url>, dbs: set<string>, tick: int, init: Store,
                               steps: seq<Step>, s: State)
    requires c < |circles|
  {
    var plan := ActivePlan(circles, c, active, dbs, tick);
    Legal(plan, Begin(init), steps) && s == Run(plan, Begin(init), steps) && Reported(plan, s)
  }

  /** A resync: which backends were active in each turn, what each ran through and where it ended. */
  datatype Course = Course(actives: seq<set<Url>>, runs: seq<seq<Step>>, ends: seq<State>)

  /** The store in front of the k-th turn. */
  function StoreAt(init: Store, course: Course, k: nat): Store
    requires k <= |course.ends|
  {
    if k == 0 then init else course.ends[k - 1].store
  }

  predicate Sized(circles: seq<Circle>, course: Course) {
    |course.actives| == |course.runs| == |course.ends| == |circles|
  }

  /** The first k turns were reported as done. */
  ghost predicate FirstTurns(circles: seq<Circle>, dbs: set<string>, tick: int, init: Store, course: Course, k: nat)
    requires k <= |circles|
  {
    && Sized(circles, course)
    && (k > 0 ==>
          && FirstTurns(circles, dbs, tick, init, course, k - 1)
          && ReportedTurn(circles, k - 1, course.actives[k - 1], dbs, tick, StoreAt(init, course, k - 1),
                          course.runs[k - 1], course.ends[k - 1]))
  }

  lemma ActiveNoLoop(circles: seq<Circle>, c: nat, active: set<Url>, dbs: set<string>, tick: int)
    requires Apart(circles) && c < |circles|
    ensures NoLoop(ActivePlan(circles, c, active, dbs, tick))
  {
    ResyncNoLoop(circles, c, dbs, tick);
    var plan, all := ActivePlan(circles, c, active, dbs, tick), ResyncPlan(circles, c, dbs, tick);
    forall p: Place, d: Url | d in Dests(plan, p) ensures Dests(plan, Place(d, p.meas)) == {} {
      assert d in Dests(all, p) && Dests(all, Place(d, p.meas)) == {};
    }
  }

  /** What a turn can bring to a place: recent points of its circle. */
  lemma BroughtRecent(circles: seq<Circle>, c: nat, active: set<Url>, dbs: set<string>, tick: int, init: Store,
                      p: Place)
    requires c < |circles|
    ensures Brought(ActivePlan(circles, c, active, dbs, tick), init, p)
      <= RecentOf(tick, Total(init, circles[c].urls, p.meas))
  {
    hide OtherHomes;
  }

  /** A reported turn keeps what there is and adds recent points of its circle at most. */
  lemma TurnKeeps(circles: seq<Circle>, c: nat, active: set<Url>, dbs: set<string>, tick: int, init: Store,
                  steps: seq<Step>, s: State)
    requires Apart(circles) && c < |circles| && Kept(init)
    requires ReportedTurn(circles, c, active, dbs, tick, init, steps, s)
    ensures Inv(ActivePlan(circles, c, active, dbs, tick), init, s) && Kept(s.store)
    ensures forall p: Place ::
      At(init, p) <= At(s.store, p) <= At(init, p) + RecentOf(tick, Total(init, circles[c].urls, p.meas))
  {
    var plan := ActivePlan(circles, c, active, dbs, tick);
    ActiveNoLoop(circles, c, active, dbs, tick);
    BeginInv(plan, init);
    RunKeeps(plan, init, Begin(init), steps);
    OfInv(plan, init, s);
    NothingLost(plan, init, steps);
    hide Run, Legal, Reported, NoLoop, Inv, Kept, ActivePlan, Total, RecentOf, Brought;
    forall p: Place
      ensures At(init, p) <= At(s.store, p) <= At(init, p) + RecentOf(tick, Total(init, circles[c].urls, p.meas))
    {
      BroughtRecent(circles, c, active, dbs, tick, init, p);
      assert At(init, p) <= At(s.store, p) <= At(init, p) + Brought(plan, init, p);
    }
  }

  lemma SizeOf(circles: seq<Circle>, dbs: set<string>, tick: int, init: Store, course: Course)
    requires FirstTurns(circles, dbs, tick, init, course, |circles|)
    ensures Sized(circles, course)
  {
  }

  lemma {:induction false} TurnOf(circles: seq<Circle>, dbs: set<string>, tick: int, init: Store, course: Course,
                                  k: nat, c: nat)
    requires c < k <= |circles| && FirstTurns(circles, dbs, tick, init, course, k)
    ensures Sized(circles, course)
    ensures
      ReportedTurn(circles, c, course.actives[c], dbs, tick, StoreAt(init, course, c), course.runs[c], course.ends[c])
    ensures StoreAt(init, course, c + 1) == course.ends[c].store
  {
    hide ReportedTurn;
    if c < k - 1 {
      TurnOf(circles, dbs, tick, init, course, k - 1, c);
    }
  }

  /** Each place holds at least what it held. */
  ghost predicate Below(x: Store, y: Store) { forall p: Place :: At(x, p) <= At(y, p) }

  lemma BelowTwice(x: Store, y: Store, z: Store)
    requires Below(x, y) && Below(y, z)
    ensures Below(x, z)
  {
    hide At;
    forall p: Place ensures At(x, p) <= At(z, p) {
      assert At(x, p) <= At(y, p) <= At(z, p);
    }
  }

  lemma TurnGrows(circles: seq<Circle>, dbs: set<string>, tick: int, init: Store, course: Course, c: nat)
    requires Apart(circles) && FirstTurns(circles, dbs, tick, init, course, |circles|) && c < |circles|
    requires c < |course.ends| && Kept(StoreAt(init, course, c))
    ensures Kept(StoreAt(init, course, c + 1)) && Below(StoreAt(init, course, c), StoreAt(init, course, c + 1))
  {
    TurnOf(circles, dbs, tick, init, course, |circles|, c);
    hide Apart, Kept, FirstTurns, ReportedTurn, At, StoreAt, Total, RecentOf;
    TurnKeeps(circles, c, course.actives[c], dbs, tick, StoreAt(init, course, c), course.runs[c], course.ends[c]);
  }

  lemma {:induction false} KeptAt(circles: seq<Circle>, dbs: set<string>, tick: int, init: Store, course: Course,
                                  k: nat)
    requires Apart(circles) && Kept(init) && FirstTurns(circles, dbs, tick, init, course, |circles|) && k <= |circles|
    ensures k <= |course.ends| && Kept(StoreAt(init, course, k))
  {
    SizeOf(circles, dbs, tick, init, course);
    StoreFirst(init, course);
    hide Apart, Kept, FirstTurns, At, StoreAt, Below;
    if k > 0 {
      KeptAt(circles, dbs, tick, init, course, k - 1);
      TurnGrows(circles, dbs, tick, init, course, k - 1);
    }
  }

  lemma BelowSelf(x: Store)
    ensures Below(x, x)
  {
  }

  /** From turn to turn nothing gets lost. */
  lemma {:induction false} Grows(circles: seq<Circle>, dbs: set<string>, tick: int, init: Store, course: Course, a: nat,
                                 b: nat)
    requires Apart(circles) && Kept(init) && FirstTurns(circles, dbs, tick, init, course, |circles|)
    requires a <= b <= |circles|
    ensures b <= |course.ends|
    ensures Kept(StoreAt(init, course, b)) && Below(StoreAt(init, course, a), StoreAt(init, course, b))
    decreases b
  {
    KeptAt(circles, dbs, tick, init, course, b);
    hide *;
    var x, z := StoreAt(init, course, a), StoreAt(init, course, b);
    if a == b {
      BelowSelf(x);
    } else {
      Grows(circles, dbs, tick, init, course, a, b - 1);
      TurnGrows(circles, dbs, tick, init, course, b - 1);
      BelowTwice(x, StoreAt(init, course, b - 1), z);
    }
  }

  lemma StoreFirst(init: Store, course: Course)
    ensures StoreAt(init, course, 0) == init
  {
  }

  lemma TotalHas(store: Store, urls: set<Url>, u: Url, m: Meas, f: Fact)
    ensures u in urls && f in At(store, Place(u, m)) ==> f in Total(store, urls, m)
  {
  }

  /** At any time a circle holds what it held at first and recent points that some circle held at first. */
  lemma {:induction false} Bounded(circles: seq<Circle>, dbs: set<string>, tick: int, init: Store, course: Course,
                                   k: nat, u: Url, c: nat, m: Meas)
    requires Apart(circles) && Kept(init) && FirstTurns(circles, dbs, tick, init, course, |circles|) && k <= |circles|
    requires c < |circles| && u in circles[c].urls
    ensures k <= |course.ends|
    ensures At(StoreAt(init, course, k), Place(u, m))
      <= Total(init, circles[c].urls, m) + RecentOf(tick, AllOf(circles, init, m, |circles|))
    decreases k, 0
  {
    hide Apart, Kept, FirstTurns, ReportedTurn, RecentOf, Total;
    if k > 0 {
      var i := k - 1;
      TurnOf(circles, dbs, tick, init, course, |circles|, i);
      Grows(circles, dbs, tick, init, course, 0, i);
      TurnKeeps(circles, i, course.actives[i], dbs, tick, StoreAt(init, course, i), course.runs[i], course.ends[i]);
      Bounded(circles, dbs, tick, init, course, i, u, c, m);
      TotalBounded(circles, dbs, tick, init, course, i, i, m);
    } else {
      SizeOf(circles, dbs, tick, init, course);
      forall f | f in At(init, Place(u, m)) ensures f in Total(init, circles[c].urls, m) {
        TotalHas(init, circles[c].urls, u, m, f);
      }
    }
  }

  /** So the recent points that a circle then holds are some circle's recent points of the start. */
  lemma {:induction false} TotalBounded(circles: seq<Circle>, dbs: set<string>, tick: int, init: Store, course: Course,
                                        k: nat, c: nat, m: Meas)
    requires Apart(circles) && Kept(init) && FirstTurns(circles, dbs, tick, init, course, |circles|) && k <= |circles|
    requires c < |circles|
    ensures k <= |course.ends|
    ensures RecentOf(tick, Total(StoreAt(init, course, k), circles[c].urls, m))
      <= RecentOf(tick, AllOf(circles, init, m, |circles|))
    decreases k, 1
  {
    hide Apart, Kept, FirstTurns, ReportedTurn, StoreAt, At;
    SizeOf(circles, dbs, tick, init, course);
    AllOfHas(circles, init, m, |circles|, c);
    forall u, f | u in circles[c].urls && f in At(StoreAt(init, course, k), Place(u, m)) && Recent(tick, f)
      ensures f in AllOf(circles, init, m, |circles|)
    {
      Bounded(circles, dbs, tick, init, course, k, u, c, m);
    }
  }

  // ---------- exactly what such a resync brings ----------

  /** In a turn each recent point of an active backend gets to each other circle or is lost on the way there. */
  lemma Delivered(circles: seq<Circle>, c: nat, active: set<Url>, dbs: set<string>, tick: int, init: Store,
                  steps: seq<Step>, s: State, u: Url, m: Meas, f: Fact, j: nat)
    requires Apart(circles) && c < |circles| && Kept(init) && j < |circles| && j != c && m.db in dbs
    requires ReportedTurn(circles, c, active, dbs, tick, init, steps, s)
    requires u in circles[c].urls && u in active && f in At(init, Place(u, m)) && Recent(tick, f)
    ensures
      var l := Parcel(Place(u, m), circles[j].home(m), f);
      l in s.lost || f in At(s.store, Place(circles[j].home(m), m))
  {
    var plan := ActivePlan(circles, c, active, dbs, tick);
    TurnKeeps(circles, c, active, dbs, tick, init, steps, s);
    var l := Parcel(Place(u, m), circles[j].home(m), f);
    assert circles[j].home(m) in OtherHomes(circles, c, m);
    assert Due(plan, init, l);
    hide Inv, Due, ActivePlan, Run, Legal;
    AllOver(plan, init, s, l);
    if l in s.sent {
      SentIsThere(plan, init, s, l);
    }
  }

  /** Every circle has the recent points of all. */
  ghost predicate InStep(circles: seq<Circle>, dbs: set<string>, tick: int, init: Store, end: Store) {
    forall j, m: Meas | 0 <= j < |circles| && m.db in dbs ::
      RecentOf(tick, AllOf(circles, init, m, |circles|)) <= Total(end, circles[j].urls, m)
  }

  /** Each point that was lost on the way to a circle is there in the end. */
  ghost predicate LostThere(circles: seq<Circle>, course: Course, end: Store) {
    forall c, l: Parcel, j
      | 0 <= c < |course.ends| && l in course.ends[c].lost && 0 <= j < |circles| && l.to in circles[j].urls
      :: l.fact in Total(end, circles[j].urls, l.from.meas)
  }

  /** So is each recent point that a backend held at first that was not active in its circle's turn. */
  ghost predicate UnreadThere(circles: seq<Circle>, dbs: set<string>, tick: int, init: Store, course: Course,
                              end: Store)
  {
    forall c, u: Url, m: Meas, j
      | 0 <= c < |circles| && c < |course.actives| && u in circles[c].urls - course.actives[c] && m.db in dbs
        && 0 <= j < |circles|
      :: RecentOf(tick, At(init, Place(u, m))) <= Total(end, circles[j].urls, m)
  }

  lemma {:induction false} AllOfFrom(circles: seq<Circle>, init: Store, m: Meas, k: nat, f: Fact) returns (i: nat)
    requires k <= |circles| && f in AllOf(circles, init, m, k)
    ensures i < k && f in Total(init, circles[i].urls, m)
  {
    i := k - 1;
    if f !in Total(init, circles[i].urls, m) {
      i := AllOfFrom(circles, init, m, k - 1, f);
    }
  }

  lemma HomeThere(circles: seq<Circle>, j: nat, m: Meas, end: Store, f: Fact)
    requires Apart(circles) && j < |circles| && f in At(end, Place(circles[j].home(m), m))
    ensures f in Total(end, circles[j].urls, m)
  {
    assert Homed(circles[j]);
  }

  /** What a turn delivers, stays; so it gets to the other circle or has been lost. */
  lemma ReadArrives(circles: seq<Circle>, dbs: set<string>, tick: int, init: Store, course: Course, i: nat, u: Url,
                    m: Meas, f: Fact, j: nat)
    requires Apart(circles) && Kept(init) && FirstTurns(circles, dbs, tick, init, course, |circles|)
    requires |course.ends| == |course.actives| == |circles| && i < |circles| && j < |circles| && i != j && m.db in dbs
    requires u in circles[i].urls && u in course.actives[i] && f in At(init, Place(u, m)) && Recent(tick, f)
    ensures Parcel(Place(u, m), circles[j].home(m), f) in course.ends[i].lost
      || f in At(StoreAt(init, course, i + 1), Place(circles[j].home(m), m))
  {
    var store := StoreAt(init, course, i);
    TurnOf(circles, dbs, tick, init, course, |circles|, i);
    Grows(circles, dbs, tick, init, course, 0, i);
    StoreFirst(init, course);
    assert f in At(store, Place(u, m));
    hide *;
    Delivered(circles, i, course.actives[i], dbs, tick, store, course.runs[i], course.ends[i], u, m, f, j);
  }

  lemma ReadThere(circles: seq<Circle>, dbs: set<string>, tick: int, init: Store, course: Course, i: nat, u: Url,
                  m: Meas, f: Fact, j: nat)
    requires Apart(circles) && Kept(init) && FirstTurns(circles, dbs, tick, init, course, |circles|)
    requires |course.ends| == |course.actives| == |circles| && i < |circles| && j < |circles| && i != j && m.db in dbs
    requires u in circles[i].urls && u in course.actives[i] && f in At(init, Place(u, m)) && Recent(tick, f)
    requires LostThere(circles, course, StoreAt(init, course, |circles|))
    ensures f in Total(StoreAt(init, course, |circles|), circles[j].urls, m)
  {
    var n, d := |circles|, circles[j].home(m);
    var mid, end := StoreAt(init, course, i + 1), StoreAt(init, course, n);
    ReadArrives(circles, dbs, tick, init, course, i, u, m, f, j);
    hide *;
    if Parcel(Place(u, m), d, f) in course.ends[i].lost {
      LostIn(circles, course, end, i, Parcel(Place(u, m), d, f), j);
    } else {
      Grows(circles, dbs, tick, init, course, i + 1, n);
      BelowAt(mid, end, Place(d, m), f);
      HomeThere(circles, j, m, end, f);
    }
  }

  lemma BelowAt(x: Store, y: Store, p: Place, f: Fact)
    requires Below(x, y) && f in At(x, p)
    ensures f in At(y, p)
  {
  }

  lemma LostIn(circles: seq<Circle>, course: Course, end: Store, c: nat, l: Parcel, j: nat)
    requires LostThere(circles, course, end) && c < |course.ends| && j < |circles| && Apart(circles)
    ensures l in course.ends[c].lost && l.to == circles[j].home(l.from.meas) ==>
      l.fact in Total(end, circles[j].urls, l.from.meas)
  {
    assert Homed(circles[j]);
    hide Total;
  }

  /** A recent point of one circle is in another in the end, if those lost and those not read are. */
  lemma PointThere(circles: seq<Circle>, dbs: set<string>, tick: int, init: Store, course: Course, i: nat, u: Url,
                   m: Meas, f: Fact, j: nat)
    requires Apart(circles) && Kept(init) && FirstTurns(circles, dbs, tick, init, course, |circles|)
    requires |course.ends| == |course.actives| == |circles| && i < |circles| && j < |circles| && m.db in dbs
    requires u in circles[i].urls && f in At(init, Place(u, m)) && Recent(tick, f)
    requires LostThere(circles, course, StoreAt(init, course, |circles|))
    requires UnreadThere(circles, dbs, tick, init, course, StoreAt(init, course, |circles|))
    ensures f in Total(StoreAt(init, course, |circles|), circles[j].urls, m)
  {
    var n := |circles|;
    hide Apart, Kept, FirstTurns, StoreAt, At, LostThere;
    if i == j {
      StoreFirst(init, course);
      Grows(circles, dbs, tick, init, course, 0, n);
    } else if u in course.actives[i] {
      ReadThere(circles, dbs, tick, init, course, i, u, m, f, j);
    } else {
      assert f in RecentOf(tick, At(init, Place(u, m)));
    }
  }

  /** What was lost was a recent point of the start. */
  lemma LostIsRecent(circles: seq<Circle>, dbs: set<string>, tick: int, init: Store, course: Course, c: nat, l: Parcel)
    requires Apart(circles) && Kept(init) && FirstTurns(circles, dbs, tick, init, course, |circles|)
    requires |course.ends| == |circles| && c < |circles| && l in course.ends[c].lost
    ensures l.from.meas.db in dbs && l.fact in RecentOf(tick, AllOf(circles, init, l.from.meas, |circles|))
  {
    var store := StoreAt(init, course, c);
    TurnOf(circles, dbs, tick, init, course, |circles|, c);
    Grows(circles, dbs, tick, init, course, 0, c);
    TurnKeeps(circles, c, course.actives[c], dbs, tick, store, course.runs[c], course.ends[c]);
    LostIsDue(ActivePlan(circles, c, course.actives[c], dbs, tick), store, course.ends[c], l);
    TotalBounded(circles, dbs, tick, init, course, c, c, l.from.meas);
    hide Apart, Kept, FirstTurns, ReportedTurn, StoreAt, At, AllOf, Inv;
    assert l.from == Place(l.from.url, l.from.meas);
    TotalHas(store, circles[c].urls, l.from.url, l.from.meas, l.fact);
  }

  /**
   * A resync whose transfers were all reported as done has brought every circle the recent points of all exactly when
   * each point that was lost on the way to a circle, and each recent one of a backend that was not active in its
   * circle's turn, is there in the end all the same.
   */
  lemma ResyncExact(circles: seq<Circle>, dbs: set<string>, tick: int, init: Store, course: Course)
    requires Apart(circles) && Kept(init) && FirstTurns(circles, dbs, tick, init, course, |circles|)
    ensures |course.ends| == |circles|
    ensures
      var end := StoreAt(init, course, |circles|);
      InStep(circles, dbs, tick, init, end)
      <==> LostThere(circles, course, end) && UnreadThere(circles, dbs, tick, init, course, end)
  {
    SizeOf(circles, dbs, tick, init, course);
    var n := |circles|;
    var end := StoreAt(init, course, n);
    hide Apart, Kept, FirstTurns, StoreAt, At, AllOf;
    if LostThere(circles, course, end) && UnreadThere(circles, dbs, tick, init, course, end) {
      forall j, m: Meas, f | 0 <= j < n && m.db in dbs && f in AllOf(circles, init, m, n) && Recent(tick, f)
        ensures f in Total(end, circles[j].urls, m)
      {
        var i := AllOfFrom(circles, init, m, n, f);
        var u :| u in circles[i].urls && f in At(init, Place(u, m));
        PointThere(circles, dbs, tick, init, course, i, u, m, f, j);
      }
    }
    if InStep(circles, dbs, tick, init, end) {
      InStepHas(circles, dbs, tick, init, course);
    }
  }

  lemma InStepHas(circles: seq<Circle>, dbs: set<string>, tick: int, init: Store, course: Course)
    requires Apart(circles) && Kept(init) && FirstTurns(circles, dbs, tick, init, course, |circles|)
    requires |course.ends| == |circles| && InStep(circles, dbs, tick, init, StoreAt(init, course, |circles|))
    ensures LostThere(circles, course, StoreAt(init, course, |circles|))
    ensures UnreadThere(circles, dbs, tick, init, course, StoreAt(init, course, |circles|))
  {
    hide Apart, Kept, FirstTurns, StoreAt, At, AllOf;
    forall c, l: Parcel | 0 <= c < |circles| && l in course.ends[c].lost
      ensures l.from.meas.db in dbs && l.fact in RecentOf(tick, AllOf(circles, init, l.from.meas, |circles|))
    {
      LostIsRecent(circles, dbs, tick, init, course, c, l);
    }
    forall c, u: Url, m: Meas, f | 0 <= c < |circles| && u in circles[c].urls && f in At(init, Place(u, m))
      ensures f in AllOf(circles, init, m, |circles|)
    {
      AllOfHas(circles, init, m, |circles|, c);
      TotalHas(init, circles[c].urls, u, m, f);
    }
  }
}
