/**
 * How one backend's part of a transfer is submitted and counted (transfer/transfer.go, transfer/circlestate.go).
 */
module Progress {
  import opened Transfer

  function MeasOf(db: string, names: seq<string>): seq<Meas> {
    seq(|names|, i requires 0 <= i < |names| => Meas(db, names[i]))
  }

  /** All measurements listed, database by database. */
  function Listing(dbs: seq<string>, measurements: string -> seq<string>): seq<Meas> {
    if dbs == [] then []
    else
      var db := dbs[|dbs| - 1];
      Listing(dbs[..|dbs| - 1], measurements) + MeasOf(db, measurements(db))
  }

  /** What is listed are the measurements of the databases. */
  lemma {:induction false} ListingExact(dbs: seq<string>, measurements: string -> seq<string>, m: Meas)
    ensures m in Listing(dbs, measurements) <==> m.db in dbs && m.name in measurements(m.db)
  {
    if dbs != [] {
      var n: nat := |dbs| - 1;
      ListingExact(dbs[..n], measurements, m);
      assert dbs == dbs[..n] + [dbs[n]];
      var names := measurements(dbs[n]);
      if m.db == dbs[n] && m.name in names {
        var i :| 0 <= i < |names| && names[i] == m.name;
        assert MeasOf(dbs[n], names)[i] == m;
      }
    }
  }

  /** Those that a transfer is submitted for. */
  function Wanted(ms: seq<Meas>, require_: Meas -> bool): (w: seq<Meas>)
    ensures |w| <= |ms|
  {
    if ms == [] then []
    else Wanted(ms[..|ms| - 1], require_) + if require_(ms[|ms| - 1]) then [ms[|ms| - 1]] else []
  }

  lemma WantedSnoc(ms: seq<Meas>, m: Meas, require_: Meas -> bool)
    ensures Wanted(ms + [m], require_) == Wanted(ms, require_) + if require_(m) then [m] else []
  {
    assert (ms + [m])[..|ms|] == ms;
  }

  lemma {:induction false} WantedConcat(a: seq<Meas>, b: seq<Meas>, require_: Meas -> bool)
    ensures Wanted(a + b, require_) == Wanted(a, require_) + Wanted(b, require_)
  {
    if b == [] {
      assert a + b == a;
    } else {
      var n: nat := |b| - 1;
      WantedConcat(a, b[..n], require_);
      WantedSnoc(a + b[..n], b[n], require_);
      WantedSnoc(b[..n], b[n], require_);
      hide Wanted;
      assert a + b == a + b[..n] + [b[n]] && b == b[..n] + [b[n]];
    }
  }

  /** Each measurement listed is submitted if and only if it is required. */
  lemma {:induction false} WantedExact(ms: seq<Meas>, require_: Meas -> bool, m: Meas)
    ensures m in Wanted(ms, require_) <==> m in ms && require_(m)
  {
    if ms != [] {
      var n: nat := |ms| - 1;
      WantedExact(ms[..n], require_, m);
      assert ms == ms[..n] + [ms[n]];
    }
  }

  class Stats {
    var databaseTotal: nat
    var databaseDone: nat
    var measurementTotal: nat
    var measurementDone: nat
    var transferCount: nat
    var inPlaceCount: nat

    constructor ()
      ensures IsReset()
    {
      databaseTotal, databaseDone, measurementTotal, measurementDone, transferCount, inPlaceCount := 0, 0, 0, 0, 0, 0;
    }

    predicate IsReset()
      reads this
    {
      databaseTotal == databaseDone == measurementTotal == measurementDone == transferCount == inPlaceCount == 0
    }

    method Reset()
      modifies this
      ensures IsReset()
    {
      databaseTotal, databaseDone, measurementTotal, measurementDone, transferCount, inPlaceCount := 0, 0, 0, 0, 0, 0;
    }
  }

  /** The loop over the measurements of one database. */
  method RunDatabase(stats: Stats, db: string, names: seq<string>, require_: Meas -> bool)
    returns (submitted: seq<Meas>)
    modifies stats`transferCount, stats`inPlaceCount, stats`measurementDone, stats`databaseDone
    ensures submitted == Wanted(MeasOf(db, names), require_)
    ensures stats.transferCount == old(stats.transferCount) + |submitted|
    ensures stats.inPlaceCount == old(stats.inPlaceCount) + |names| - |submitted|
    ensures stats.measurementDone == old(stats.measurementDone) + |names|
    ensures stats.databaseDone == old(stats.databaseDone) + 1
  {
    submitted := [];
    ghost var ms := MeasOf(db, names);
    WantedNothing(require_);
    assert ms[..0] == [];
    hide Wanted;
    for j := 0 to |names|
      invariant submitted == Wanted(ms[..j], require_)
      invariant stats.transferCount == old(stats.transferCount) + |submitted|
      invariant stats.inPlaceCount == old(stats.inPlaceCount) + j - |submitted|
      invariant stats.measurementDone == old(stats.measurementDone) + j
      invariant stats.databaseDone == old(stats.databaseDone)
    {
      var m := Meas(db, names[j]);
      WantedSnoc(ms[..j], m, require_);
      assert ms[..j + 1] == ms[..j] + [m];
      if require_(m) {
        submitted := submitted + [m];
        stats.transferCount := stats.transferCount + 1;
      } else {
        stats.inPlaceCount := stats.inPlaceCount + 1;
      }
      stats.measurementDone := stats.measurementDone + 1;
    }
    assert ms[..|names|] == ms;
    stats.databaseDone := stats.databaseDone + 1;
  }

  /**
   * A backend that is not active is left alone. Otherwise just the measurements that are required are submitted, in the
   * order listed, and the counts come out even: all done that was to be done, each transferred or in place.
   */
  method RunTransfer(stats: Stats, active: bool, dbs: seq<string>, measurements: string -> seq<string>,
                     require_: Meas -> bool)
    returns (submitted: seq<Meas>)
    requires stats.IsReset()
    modifies stats
    ensures !active ==> submitted == [] && stats.IsReset()
    ensures active ==>
      && submitted == Wanted(Listing(dbs, measurements), require_)
      && stats.databaseDone == stats.databaseTotal == |dbs|
      && stats.measurementDone == stats.measurementTotal == |Listing(dbs, measurements)|
      && stats.transferCount == |submitted|
      && stats.inPlaceCount == stats.measurementTotal - stats.transferCount
  {
    hide Wanted;
    submitted := [];
    if !active {
      return;
    }
    stats.databaseTotal := |dbs|;
    for i := 0 to |dbs|
      invariant stats.measurementTotal == |Listing(dbs[..i], measurements)|
      invariant stats.databaseDone == stats.measurementDone == stats.transferCount == stats.inPlaceCount == 0
      invariant stats.databaseTotal == |dbs|
    {
      assert dbs[..i + 1][..i] == dbs[..i];
      stats.measurementTotal := stats.measurementTotal + |measurements(dbs[i])|;
    }
    assert dbs[..|dbs|] == dbs;
    WantedNothing(require_);
    for i := 0 to |dbs|
      invariant stats.databaseTotal == |dbs| && stats.databaseDone == i
      invariant stats.measurementTotal == |Listing(dbs, measurements)|
      invariant stats.measurementDone == |Listing(dbs[..i], measurements)|
      invariant submitted == Wanted(Listing(dbs[..i], measurements), require_)
      invariant stats.transferCount == |submitted| && stats.inPlaceCount == stats.measurementDone - |submitted|
    {
      assert dbs[..i + 1][..i] == dbs[..i];
      WantedConcat(Listing(dbs[..i], measurements), MeasOf(dbs[i], measurements(dbs[i])), require_);
      var more := RunDatabase(stats, dbs[i], measurements(dbs[i]), require_);
      submitted := submitted + more;
    }
  }

  /** An operation starts its counts afresh: whatever an earlier one has left, they are its own. */
  method RunAgain(stats: Stats, active: bool, dbs: seq<string>, measurements: string -> seq<string>,
                  require_: Meas -> bool)
    returns (submitted: seq<Meas>)
    modifies stats
    ensures submitted == if active then Wanted(Listing(dbs, measurements), require_) else []
    ensures stats.databaseDone == stats.databaseTotal == if active then |dbs| else 0
    ensures stats.measurementDone == stats.measurementTotal == if active then |Listing(dbs, measurements)| else 0
    ensures stats.transferCount == |submitted| && stats.inPlaceCount == stats.measurementTotal - |submitted|
  {
    hide Wanted;
    stats.Reset();
    submitted := RunTransfer(stats, active, dbs, measurements, require_);
  }

  lemma WantedNothing(require_: Meas -> bool)
    ensures Wanted([], require_) == []
  {
  }
}
