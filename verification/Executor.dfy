/** Choosing the backend to ask, and merging the answers of many (backend/executor.go). */
module Executor {
  import opened Prelude

  // ---------- asking one backend ----------

  /** The home of a key in one circle, as a query finds it. */
  datatype Home = Home(active: bool, rewriting: bool, writeOnly: bool)

  predicate Readable(h: Home) { h.active && !h.rewriting && !h.writeOnly }

  predicate Lagging(h: Home) { h.active && (h.rewriting || h.writeOnly) }

  datatype Failure = BackendError(text: string) | BackendsUnavailable

  /** An order in which each of n circles comes once. */
  ghost predicate Permutation(perm: seq<nat>, n: nat) {
    |perm| == n && (forall i | 0 <= i < n :: perm[i] < n) && (forall j: nat | j < n :: j in perm)
  }

  /** The last answer, when it was a failure. */
  function LastError(tried: seq<nat>, ask: nat -> Result<string, string>): Option<string> {
    if tried == [] then None
    else
      match ask(tried[|tried| - 1])
      case Ok(_) => None
      case Err(e) => Some(e)
  }

  /** The circles of an order whose home is up to date, or those whose home is being caught up. */
  function Picked(homes: seq<Home>, order: seq<nat>, lagging: bool): (p: seq<nat>)
    ensures forall k | 0 <= k < |p| :: p[k] in order && p[k] < |homes|
  {
    if order == [] then []
    else
      var i := order[|order| - 1];
      Picked(homes, order[..|order| - 1], lagging)
      + if i < |homes| && (if lagging then Lagging(homes[i]) else Readable(homes[i])) then [i] else []
  }

  function Upward(n: nat): (r: seq<nat>)
    ensures |r| == n && forall i | 0 <= i < n :: r[i] == i
  {
    seq(n, i => i)
  }

  /** The homes that a query may come to, in the order it does: up-to-date ones as drawn, then the others in turn. */
  function Candidates(homes: seq<Home>, perm: seq<nat>): seq<nat> {
    Picked(homes, perm, false) + Picked(homes, Upward(|homes|), true)
  }

  lemma {:induction false} PickedExact(homes: seq<Home>, order: seq<nat>, lagging: bool, i: nat)
    ensures i in Picked(homes, order, lagging)
      <==> i in order && i < |homes| && if lagging then Lagging(homes[i]) else Readable(homes[i])
  {
    if order != [] {
      PickedExact(homes, order[..|order| - 1], lagging, i);
      assert order == order[..|order| - 1] + [order[|order| - 1]];
    }
  }

  /** They are just the active homes. */
  lemma CandidatesExact(homes: seq<Home>, perm: seq<nat>, i: nat)
    requires Permutation(perm, |homes|)
    ensures i in Candidates(homes, perm) <==> i < |homes| && homes[i].active
  {
    PickedExact(homes, perm, false, i);
    PickedExact(homes, Upward(|homes|), true, i);
    if i < |homes| {
      assert Upward(|homes|)[i] == i;
    }
  }

  /** A home that is active and up to date. */
  predicate UpToDate(homes: seq<Home>, i: nat) {
    i < |homes| && homes[i].active && !homes[i].rewriting && !homes[i].writeOnly
  }

  /** One that is active and is being caught up or only written to. */
  predicate Behind(homes: seq<Home>, i: nat) {
    i < |homes| && homes[i].active && (homes[i].rewriting || homes[i].writeOnly)
  }

  /** The first of these positions holds the one, and a later one the other. */
  ghost predicate Earlier(order: seq<nat>, x: nat, y: nat) {
    exists i, j :: 0 <= i < j < |order| && order[i] == x && order[j] == y
  }

  /**
   * An order to ask in: up-to-date homes as they come in perm, each before any that is behind, and those by number.
   * When one that is behind is asked, every up-to-date one has been.
   */
  ghost predicate FirstUpToDate(homes: seq<Home>, perm: seq<nat>, tried: seq<nat>) {
    && (forall a | 0 <= a < |tried| :: UpToDate(homes, tried[a]) || Behind(homes, tried[a]))
    && (forall a, b | 0 <= a < b < |tried| && UpToDate(homes, tried[b]) ::
          UpToDate(homes, tried[a]) && Earlier(perm, tried[a], tried[b]))
    && (forall a, b | 0 <= a < b < |tried| && Behind(homes, tried[a]) :: tried[a] < tried[b])
    && (forall a, i: nat | 0 <= a < |tried| && Behind(homes, tried[a]) && UpToDate(homes, i) && i in perm ::
          i in tried[..a])
  }

  /** In what is picked, the order is kept. */
  lemma {:induction false} PickedOrder(homes: seq<Home>, order: seq<nat>, lagging: bool, a: nat, b: nat)
    requires a < b < |Picked(homes, order, lagging)|
    ensures Earlier(order, Picked(homes, order, lagging)[a], Picked(homes, order, lagging)[b])
    decreases |order|
  {
    var n: nat := |order| - 1;
    var p, front := Picked(homes, order, lagging), Picked(homes, order[..n], lagging);
    if b < |front| {
      PickedOrder(homes, order[..n], lagging, a, b);
      var i, j :| 0 <= i < j < n && order[..n][i] == p[a] && order[..n][j] == p[b];
      assert order[i] == p[a] && order[j] == p[b];
    } else {
      assert p[a] in order[..n];
      var i :| 0 <= i < n && order[..n][i] == p[a];
      assert order[i] == p[a] && order[n] == p[b];
    }
  }

  lemma UpwardOrder(n: nat, x: nat, y: nat)
    requires Earlier(Upward(n), x, y)
    ensures x < y
  {
  }

  lemma PickedKinds(homes: seq<Home>, perm: seq<nat>)
    ensures forall i: nat :: i in Picked(homes, perm, false) <==> i in perm && UpToDate(homes, i)
    ensures forall i: nat | i in Picked(homes, Upward(|homes|), true) :: Behind(homes, i)
  {
    forall i: nat ensures i in Picked(homes, perm, false) <==> i in perm && UpToDate(homes, i) {
      PickedExact(homes, perm, false, i);
    }
    forall i: nat ensures i in Picked(homes, Upward(|homes|), true) ==> Behind(homes, i) {
      PickedExact(homes, Upward(|homes|), true, i);
    }
  }

  /** The candidates come in this order, and so does what they start with. */
  lemma CandidatesInOrder(homes: seq<Home>, perm: seq<nat>, tried: seq<nat>)
    requires tried <= Candidates(homes, perm)
    ensures FirstUpToDate(homes, perm, tried)
  {
    var first, second := Picked(homes, perm, false), Picked(homes, Upward(|homes|), true);
    PickedKinds(homes, perm);
    hide Picked, UpToDate, Behind, FirstUpToDate, Earlier;
    forall a, b | 0 <= a < b < |first| ensures Earlier(perm, first[a], first[b]) {
      PickedOrder(homes, perm, false, a, b);
    }
    forall a, b | 0 <= a < b < |second| ensures second[a] < second[b] {
      PickedOrder(homes, Upward(|homes|), true, a, b);
      UpwardOrder(|homes|, second[a], second[b]);
    }
    OneThenOther(homes, perm, first, second, tried);
  }

  lemma OneThenOther(homes: seq<Home>, perm: seq<nat>, first: seq<nat>, second: seq<nat>, tried: seq<nat>)
    requires tried <= first + second
    requires forall i: nat :: i in first <==> i in perm && UpToDate(homes, i)
    requires forall i: nat | i in second :: Behind(homes, i)
    requires forall a, b | 0 <= a < b < |first| :: Earlier(perm, first[a], first[b])
    requires forall a, b | 0 <= a < b < |second| :: second[a] < second[b]
    ensures FirstUpToDate(homes, perm, tried)
  {
    hide Earlier;
    var n := |first|;
    forall a | 0 <= a < |tried| ensures if a < n then tried[a] in first else tried[a] in second {
      assert tried[a] == if a < n then first[a] else second[a - n];
    }
    forall a, b | 0 <= a < b < |tried| && UpToDate(homes, tried[b])
      ensures UpToDate(homes, tried[a]) && Earlier(perm, tried[a], tried[b])
    {
      assert b < n && tried[a] == first[a] && tried[b] == first[b];
    }
    forall a, b | 0 <= a < b < |tried| && Behind(homes, tried[a]) ensures tried[a] < tried[b] {
      assert a >= n && tried[a] == second[a - n] && tried[b] == second[b - n];
    }
    forall a, i: nat | 0 <= a < |tried| && Behind(homes, tried[a]) && UpToDate(homes, i) && i in perm
      ensures i in tried[..a]
    {
      assert a >= n;
      assert i in first;
      assert tried[..a][..n] == first;
    }
  }

  ghost predicate AllFailed(tried: seq<nat>, ask: nat -> Result<string, string>) {
    forall k | 0 <= k < |tried| :: ask(tried[k]).Err?
  }

  /** All but the last of those asked have failed, and that one has answered. */
  ghost predicate Answered(tried: seq<nat>, ask: nat -> Result<string, string>, body: string) {
    tried != [] && AllFailed(tried[..|tried| - 1], ask) && ask(tried[|tried| - 1]) == Ok(body)
  }

  lemma AskOne(tried: seq<nat>, i: nat, ask: nat -> Result<string, string>)
    requires AllFailed(tried, ask)
    ensures ask(i).Ok? ==> Answered(tried + [i], ask, ask(i).value)
    ensures ask(i).Err? ==> AllFailed(tried + [i], ask) && LastError(tried + [i], ask) == Some(ask(i).error)
  {
    assert (tried + [i])[..|tried|] == tried;
  }

  /** The loop over the circles as drawn. */
  method AskReadable(homes: seq<Home>, perm: seq<nat>, ask: nat -> Result<string, string>)
    returns (r: Option<string>, last: Option<string>, tried: seq<nat>)
    requires forall i | 0 <= i < |perm| :: perm[i] < |homes|
    ensures tried <= Picked(homes, perm, false)
    ensures r.Some? ==> Answered(tried, ask, r.value)
    ensures r.None? ==> tried == Picked(homes, perm, false) && AllFailed(tried, ask) && last == LastError(tried, ask)
  {
    r, last, tried := None, None, [];
    for k := 0 to |perm|
      invariant tried == Picked(homes, perm[..k], false)
      invariant AllFailed(tried, ask) && last == LastError(tried, ask)
    {
      var p := perm[k];
      PickedNext(homes, perm, k, false);
      if !homes[p].active || homes[p].rewriting || homes[p].writeOnly {
        continue;
      }
      AskOne(tried, p, ask);
      tried := tried + [p];
      match ask(p) {
        case Ok(body) => return Some(body), None, tried;
        case Err(e) => last := Some(e);
      }
    }
    assert perm[..|perm|] == perm;
  }

  /** The loop over the homes that the first one left out. */
  method AskLagging(homes: seq<Home>, ask: nat -> Result<string, string>)
    returns (r: Option<string>, last: Option<string>, tried: seq<nat>)
    ensures tried <= Picked(homes, Upward(|homes|), true)
    ensures r.Some? ==> Answered(tried, ask, r.value)
    ensures r.None? ==>
      tried == Picked(homes, Upward(|homes|), true) && AllFailed(tried, ask) && last == LastError(tried, ask)
  {
    r, last, tried := None, None, [];
    ghost var up := Upward(|homes|);
    for i := 0 to |homes|
      invariant tried == Picked(homes, up[..i], true)
      invariant AllFailed(tried, ask) && last == LastError(tried, ask)
    {
      PickedNext(homes, up, i, true);
      if !homes[i].active || !(homes[i].rewriting || homes[i].writeOnly) {
        continue;
      }
      AskOne(tried, i, ask);
      tried := tried + [i];
      match ask(i) {
        case Ok(body) => return Some(body), None, tried;
        case Err(e) => last := Some(e);
      }
    }
    assert up[..|homes|] == up;
  }

  /**
   * query: it asks the candidates in order up to the first that answers, and returns that answer; when none does, the
   * last one's error, or that there was none to ask. The circles asked, in order, are tried.
   */
  method Query(homes: seq<Home>, perm: seq<nat>, ask: nat -> Result<string, string>)
    returns (r: Result<string, Failure>, tried: seq<nat>)
    requires forall i | 0 <= i < |perm| :: perm[i] < |homes|
    ensures FirstUpToDate(homes, perm, tried)
    ensures r.Ok? ==> Answered(tried, ask, r.value)
    ensures r.Err? ==> AllFailed(tried, ask)
    ensures r.Err? && Permutation(perm, |homes|) ==> forall i | 0 <= i < |homes| :: homes[i].active ==> i in tried
    ensures r == Err(BackendsUnavailable) <==> tried == []
    ensures r.Err? && r.error.BackendError? ==> tried != [] && ask(tried[|tried| - 1]) == Err(r.error.text)
    ensures tried <= Candidates(homes, perm)
  {
    hide Picked, FirstUpToDate, Permutation;
    AnyStart(homes, perm);
    var body, last, first := AskReadable(homes, perm, ask);
    tried := first;
    if body.Some? {
      return Ok(body.value), tried;
    }
    var body2, last2, second := AskLagging(homes, ask);
    tried := first + second;
    TwoPasses(first, second, ask);
    if body2.Some? {
      return Ok(body2.value), tried;
    }
    last := if last2.Some? then last2 else last;
    r := Err(if last.Some? then BackendError(last.value) else BackendsUnavailable);
  }

  lemma AnyStart(homes: seq<Home>, perm: seq<nat>)
    ensures forall t | t <= Candidates(homes, perm) :: FirstUpToDate(homes, perm, t)
    ensures Permutation(perm, |homes|) ==>
      forall i: nat :: i in Candidates(homes, perm) <==> i < |homes| && homes[i].active
  {
    hide FirstUpToDate;
    forall t | t <= Candidates(homes, perm) ensures FirstUpToDate(homes, perm, t) {
      CandidatesInOrder(homes, perm, t);
    }
    if Permutation(perm, |homes|) {
      forall i: nat ensures i in Candidates(homes, perm) <==> i < |homes| && homes[i].active {
        CandidatesExact(homes, perm, i);
      }
    }
  }

  lemma TwoPasses(first: seq<nat>, second: seq<nat>, ask: nat -> Result<string, string>)
    requires AllFailed(first, ask)
    ensures forall body :: Answered(second, ask, body) ==> Answered(first + second, ask, body)
    ensures AllFailed(second, ask) ==>
      && AllFailed(first + second, ask)
      && LastError(first + second, ask) == (if second != [] then LastError(second, ask) else LastError(first, ask))
      && (LastError(first + second, ask) == None <==> first + second == [])
  {
    if second == [] {
      assert first + second == first;
    } else {
      assert (first + second)[..|first + second| - 1] == first + second[..|second| - 1];
    }
  }

  /** One more circle of an order. */
  lemma PickedNext(homes: seq<Home>, order: seq<nat>, k: nat, lagging: bool)
    requires k < |order| && order[k] < |homes|
    ensures Picked(homes, order[..k + 1], lagging)
      == Picked(homes, order[..k], lagging)
         + if (if lagging then Lagging(homes[order[k]]) else Readable(homes[order[k]])) then [order[k]] else []
    ensures Picked(homes, order[..k + 1], lagging) <= Picked(homes, order, lagging)
  {
    assert order[..k + 1][..k] == order[..k];
    PickedStart(homes, order, k + 1, lagging);
  }

  lemma {:induction false} PickedStart(homes: seq<Home>, order: seq<nat>, k: nat, lagging: bool)
    requires k <= |order|
    ensures Picked(homes, order[..k], lagging) <= Picked(homes, order, lagging)
    decreases |order|
  {
    if k < |order| {
      var n: nat := |order| - 1;
      assert order[..n][..k] == order[..k];
      PickedStart(homes, order[..n], k, lagging);
    } else {
      assert order[..k] == order;
    }
  }

  // ---------- merging ----------

  /** A row of an answer: the text in its first column, and the rest. */
  datatype Value = Value(key: string, rest: seq<string>)

  datatype Series = Series(name: string, values: seq<Value>)

  /** The series in a body, or an error in decoding it. */
  datatype Body = Body(series: seq<Series>) | BadBody(error: string)

  ghost predicate Decodes(bodies: seq<Body>) { forall i | 0 <= i < |bodies| :: bodies[i].Body? }

  predicate Single(b: Body) { b.Body? && |b.series| == 1 }

  function KeysOf(vs: seq<Value>): set<string> { set v | v in vs :: v.key }

  predicate Distinct(vs: seq<Value>) { forall i, j | 0 <= i < j < |vs| :: vs[i].key != vs[j].key }

  /** The rows of a body that counts: one of a single series. */
  function Rows(b: Body): seq<Value> { if Single(b) then b.series[0].values else [] }

  function RowsOf(bodies: seq<Body>): seq<Value> {
    if bodies == [] then [] else RowsOf(bodies[..|bodies| - 1]) + Rows(bodies[|bodies| - 1])
  }

  /** The last body of one series, and the first. */
  function LastSingle(bodies: seq<Body>): Option<Series> {
    if bodies == [] then None
    else
      var b := bodies[|bodies| - 1];
      if Single(b) then Some(b.series[0]) else LastSingle(bodies[..|bodies| - 1])
  }

  function FirstSingle(bodies: seq<Body>): Option<Series> {
    if bodies == [] then None
    else
      var b, f := bodies[|bodies| - 1], FirstSingle(bodies[..|bodies| - 1]);
      if f.Some? then f else if Single(b) then Some(b.series[0]) else None
  }

  /** The last row with a key. */
  function LastRow(vs: seq<Value>, key: string): Option<Value> {
    if vs == [] then None
    else if vs[|vs| - 1].key == key then Some(vs[|vs| - 1])
    else LastRow(vs[..|vs| - 1], key)
  }

  /** The rows of bodies in order: those of the bodies of just one series. */
  lemma {:induction false} RowsOfConcat(a: seq<Body>, b: seq<Body>)
    ensures RowsOf(a + b) == RowsOf(a) + RowsOf(b)
    decreases |b|
  {
    hide Rows;
    if b == [] {
      assert a + b == a;
    } else {
      var n: nat := |b| - 1;
      RowsOfConcat(a, b[..n]);
      assert (a + b)[..|a + b| - 1] == a + b[..n];
    }
  }

  lemma RowsOfOne(b: Body)
    ensures RowsOf([b]) == if b.Body? && |b.series| == 1 then b.series[0].values else []
  {
    assert [b][..0] == [];
  }

  /** The body at this place is a series alone, and none before it, or none behind, is. */
  ghost predicate SingleAt(bodies: seq<Body>, i: nat, s: Series) { i < |bodies| && bodies[i] == Body([s]) }

  ghost predicate NoSingle(bodies: seq<Body>) {
    forall i | 0 <= i < |bodies| :: bodies[i].BadBody? || |bodies[i].series| != 1
  }

  lemma {:induction false} LastSingleExact(bodies: seq<Body>)
    ensures LastSingle(bodies).None? <==> NoSingle(bodies)
    ensures LastSingle(bodies).Some? ==>
      exists i: nat :: SingleAt(bodies, i, LastSingle(bodies).value) && NoSingle(bodies[i + 1..])
  {
    if bodies != [] {
      var n: nat := |bodies| - 1;
      var front := bodies[..n];
      LastSingleExact(front);
      if Single(bodies[n]) {
        assert SingleAt(bodies, n, bodies[n].series[0]) && bodies[n + 1..] == [];
      } else if LastSingle(front).Some? {
        var i: nat :| SingleAt(front, i, LastSingle(front).value) && NoSingle(front[i + 1..]);
        assert SingleAt(bodies, i, LastSingle(front).value) && bodies[i + 1..] == front[i + 1..] + [bodies[n]];
      } else {
        assert bodies == front + [bodies[n]];
      }
    }
  }

  lemma {:induction false} FirstSingleExact(bodies: seq<Body>)
    ensures FirstSingle(bodies).None? <==> NoSingle(bodies)
    ensures FirstSingle(bodies).Some? ==>
      exists i: nat :: SingleAt(bodies, i, FirstSingle(bodies).value) && NoSingle(bodies[..i])
  {
    if bodies != [] {
      var n: nat := |bodies| - 1;
      var front := bodies[..n];
      FirstSingleExact(front);
      assert bodies == front + [bodies[n]];
      if FirstSingle(front).Some? {
        var i: nat :| SingleAt(front, i, FirstSingle(front).value) && NoSingle(front[..i]);
        assert SingleAt(bodies, i, FirstSingle(front).value) && bodies[..i] == front[..i];
      } else if Single(bodies[n]) {
        assert SingleAt(bodies, n, bodies[n].series[0]);
      }
    }
  }

  /** The row found last with a key has it, and none behind has. */
  ghost predicate LastAt(vs: seq<Value>, i: nat, key: string) {
    i < |vs| && vs[i].key == key && forall j | i < j < |vs| :: vs[j].key != key
  }

  lemma {:induction false} LastRowExact(vs: seq<Value>, key: string)
    ensures LastRow(vs, key).None? <==> key !in KeysOf(vs)
    ensures LastRow(vs, key).Some? ==> exists i: nat :: LastAt(vs, i, key) && vs[i] == LastRow(vs, key).value
  {
    if vs != [] {
      var n: nat := |vs| - 1;
      LastRowExact(vs[..n], key);
      KeysSnoc(vs[..n], vs[n]);
      assert vs == vs[..n] + [vs[n]];
      if vs[n].key == key {
        assert LastAt(vs, n, key);
      } else if LastRow(vs[..n], key).Some? {
        var i: nat :| LastAt(vs[..n], i, key) && vs[..n][i] == LastRow(vs[..n], key).value;
        assert LastAt(vs, i, key);
      }
    }
  }

  lemma KeysSnoc(vs: seq<Value>, v: Value)
    ensures KeysOf(vs + [v]) == KeysOf(vs) + {v.key}
    ensures Distinct(vs + [v]) <==> Distinct(vs) && v.key !in KeysOf(vs)
  {
    var more := vs + [v];
    assert more[|vs|] == v;
    forall w | w in vs ensures w.key in KeysOf(more) {
      assert w in more;
    }
    if Distinct(more) {
      forall i, j | 0 <= i < j < |vs| ensures vs[i].key != vs[j].key {
        assert more[i].key != more[j].key;
      }
      forall i | 0 <= i < |vs| ensures vs[i].key != v.key {
        assert more[i].key != more[|vs|].key;
      }
    }
  }

  lemma KeysConcat(a: seq<Value>, b: seq<Value>)
    ensures KeysOf(a + b) == KeysOf(a) + KeysOf(b)
  {
    forall v | v in a + b ensures v.key in KeysOf(a) + KeysOf(b) {
    }
    forall v | v in a || v in b ensures v.key in KeysOf(a + b) {
      assert v in a + b;
    }
  }

  /** Whether some body of one series has a row with this key. */
  ghost predicate HasKey(bodies: seq<Body>, key: string) {
    exists b | b in bodies :: b.Body? && |b.series| == 1 && exists v | v in b.series[0].values :: v.key == key
  }

  lemma {:induction false} RowsOfKeys(bodies: seq<Body>, key: string)
    ensures key in KeysOf(RowsOf(bodies)) <==> HasKey(bodies, key)
  {
    assert forall b: Body ::
      key in KeysOf(Rows(b)) <==> b.Body? && |b.series| == 1 && exists v | v in b.series[0].values :: v.key == key;
    hide Rows, KeysOf;
    if bodies == [] {
      KeysNothing();
    } else {
      var n: nat := |bodies| - 1;
      RowsOfKeys(bodies[..n], key);
      KeysConcat(RowsOf(bodies[..n]), Rows(bodies[n]));
      assert bodies == bodies[..n] + [bodies[n]];
    }
  }

  lemma KeysNothing()
    ensures KeysOf([]) == {} && Distinct([])
  {
  }

  /** The order in which the bodies arrive does not change which keys they have. */
  lemma AnyOrder(a: seq<Body>, b: seq<Body>)
    requires multiset(a) == multiset(b)
    ensures KeysOf(RowsOf(a)) == KeysOf(RowsOf(b))
  {
    assert forall x :: x in a <==> x in multiset(a);
    assert forall x :: x in b <==> x in multiset(b);
    forall key: string ensures key in KeysOf(RowsOf(a)) <==> key in KeysOf(RowsOf(b)) {
      RowsOfKeys(a, key);
      RowsOfKeys(b, key);
    }
  }

  /** One series with these values, or none. */
  datatype Merged = Merged(series: Option<Series>) | Failed(error: string)

  // ---------- reduceByValues ----------

  /** The last row of each key. */
  ghost predicate Tabled(m: map<string, Value>, rows: seq<Value>) {
    m.Keys == KeysOf(rows) && forall k | k in m :: m[k].key == k && LastRow(rows, k) == Some(m[k])
  }

  lemma TabledPut(m: map<string, Value>, rows: seq<Value>, v: Value)
    requires Tabled(m, rows)
    ensures Tabled(m[v.key := v], rows + [v])
  {
    KeysSnoc(rows, v);
    hide KeysOf;
    assert (rows + [v])[..|rows|] == rows;
  }

  lemma TabledStart()
    ensures Tabled(map[], [])
  {
  }

  /** What a table says, row by row. */
  lemma TabledRows(m: map<string, Value>, rows: seq<Value>, vs: seq<Value>)
    requires Tabled(m, rows) && forall i | 0 <= i < |vs| :: vs[i].key in m && m[vs[i].key] == vs[i]
    ensures forall i | 0 <= i < |vs| :: LastRow(rows, vs[i].key) == Some(vs[i])
  {
  }

  lemma TabledKeys(m: map<string, Value>, rows: seq<Value>)
    requires Tabled(m, rows)
    ensures m.Keys == KeysOf(rows) && forall k | k in m :: m[k].key == k
  {
  }

  /**
   * reduceByValues: each key of the single-series bodies once, with the last row that came with it, under the name of
   * the last such series; the order is what ranging over a map happens to give.
   */
  method ReduceByValues(bodies: seq<Body>) returns (r: Merged)
    ensures r.Failed? <==> !Decodes(bodies)
    ensures r.Failed? ==> exists i :: 0 <= i < |bodies| && bodies[i] == BadBody(r.error) && Decodes(bodies[..i])
    ensures r.Merged? ==> (r.series.None? <==> KeysOf(RowsOf(bodies)) == {})
    ensures r.Merged? && r.series.Some? ==>
      var vs := r.series.value.values;
      && KeysOf(vs) == KeysOf(RowsOf(bodies)) && Distinct(vs)
      && (forall i | 0 <= i < |vs| :: LastRow(RowsOf(bodies), vs[i].key) == Some(vs[i]))
      && LastSingle(bodies).Some? && r.series.value.name == LastSingle(bodies).value.name
  {
    hide Tabled, KeysOf, Distinct;
    var last: Option<Series> := None;
    var m: map<string, Value> := map[];
    TabledStart();
    for i := 0 to |bodies|
      invariant forall j | 0 <= j < i :: bodies[j].Body?
      invariant Tabled(m, RowsOf(bodies[..i])) && last == LastSingle(bodies[..i])
      invariant last.None? ==> m == map[]
    {
      var b := bodies[i];
      if b.BadBody? {
        return Failed(b.error);
      }
      assert bodies[..i + 1][..i] == bodies[..i];
      if |b.series| == 1 {
        last := Some(b.series[0]);
        m := PutValues(m, b.series[0].values, RowsOf(bodies[..i]));
      } else {
        NoMore(RowsOf(bodies[..i]));
      }
    }
    assert bodies[..|bodies|] == bodies;
    TabledKeys(m, RowsOf(bodies));
    if last.None? {
      return Merged(None);
    }
    var vs := Range(m);
    TabledRows(m, RowsOf(bodies), vs);
    KeysNothing();
    FirstKey(vs);
    r := Merged(if |vs| > 0 then Some(Series(last.value.name, vs)) else None);
  }

  lemma NoMore(vs: seq<Value>)
    ensures vs + [] == vs
  {
  }

  lemma FirstKey(vs: seq<Value>)
    ensures vs != [] ==> vs[0].key in KeysOf(vs)
  {
  }

  method PutValues(m: map<string, Value>, values: seq<Value>, ghost rows: seq<Value>) returns (n: map<string, Value>)
    requires Tabled(m, rows)
    ensures Tabled(n, rows + values)
  {
    hide Tabled;
    n := m;
    assert rows + values[..0] == rows;
    for i := 0 to |values|
      invariant Tabled(n, rows + values[..i])
    {
      TabledPut(n, rows + values[..i], values[i]);
      assert rows + values[..i + 1] == rows + values[..i] + [values[i]];
      n := n[values[i].key := values[i]];
    }
    assert values[..|values|] == values;
  }

  /** Ranging over a map: each value once, in some order. */
  method Range(m: map<string, Value>) returns (vs: seq<Value>)
    requires forall k | k in m :: m[k].key == k
    ensures KeysOf(vs) == m.Keys && Distinct(vs)
    ensures forall i | 0 <= i < |vs| :: vs[i].key in m && m[vs[i].key] == vs[i]
  {
    hide KeysOf, Distinct;
    vs := [];
    var left := m.Keys;
    KeysNothing();
    while left != {}
      invariant left <= m.Keys && KeysOf(vs) == m.Keys - left && Distinct(vs)
      invariant forall i | 0 <= i < |vs| :: vs[i].key in m && m[vs[i].key] == vs[i]
      decreases |left|
    {
      var k :| k in left;
      KeysSnoc(vs, m[k]);
      vs := vs + [m[k]];
      left := left - {k};
    }
  }

  // ---------- attachByValues ----------

  /** The rows behind those of the first body of one series. */
  function LaterRows(bodies: seq<Body>): seq<Value> {
    if bodies == [] || FirstSingle(bodies[..|bodies| - 1]).None? then []
    else LaterRows(bodies[..|bodies| - 1]) + Rows(bodies[|bodies| - 1])
  }

  lemma {:induction false} RowsSplit(bodies: seq<Body>)
    ensures RowsOf(bodies)
      == if FirstSingle(bodies).Some? then FirstSingle(bodies).value.values + LaterRows(bodies) else []
  {
    if bodies != [] {
      RowsSplit(bodies[..|bodies| - 1]);
    }
  }

  /** The rows, in order, whose key is not among those seen and on no row before. */
  function Unseen(seen: set<string>, vs: seq<Value>): seq<Value> {
    if vs == [] then []
    else
      var n: nat := |vs| - 1;
      Unseen(seen, vs[..n]) + if vs[n].key in seen + KeysOf(vs[..n]) then [] else [vs[n]]
  }

  /** They are one row for each key not seen. */
  lemma {:induction false} UnseenExact(seen: set<string>, vs: seq<Value>)
    ensures KeysOf(Unseen(seen, vs)) == KeysOf(vs) - seen && Distinct(Unseen(seen, vs))
  {
    if vs != [] {
      var n: nat := |vs| - 1;
      UnseenExact(seen, vs[..n]);
      assert vs == vs[..n] + [vs[n]];
      UnseenStep(seen, vs[..n], Unseen(seen, vs[..n]), vs[n]);
    } else {
      KeysNothing();
    }
  }

  /** The first row with its key. */
  ghost predicate FirstAt(vs: seq<Value>, i: nat) {
    i < |vs| && forall j | 0 <= j < i :: vs[j].key != vs[i].key
  }

  ghost predicate IsFirst(vs: seq<Value>, v: Value) { exists i: nat :: FirstAt(vs, i) && vs[i] == v }

  /** The first of these rows comes before the other, and each is the first with its key. */
  ghost predicate FirstsInOrder(vs: seq<Value>, v: Value, w: Value) {
    exists i: nat, j: nat :: i < j && FirstAt(vs, i) && FirstAt(vs, j) && vs[i] == v && vs[j] == w
  }

  /** Each is the first row with its key, and they come in the order of the rows. */
  lemma {:induction false} UnseenInOrder(seen: set<string>, vs: seq<Value>)
    ensures forall a | 0 <= a < |Unseen(seen, vs)| :: IsFirst(vs, Unseen(seen, vs)[a])
    ensures forall a, b | 0 <= a < b < |Unseen(seen, vs)| ::
      FirstsInOrder(vs, Unseen(seen, vs)[a], Unseen(seen, vs)[b])
  {
    if vs != [] {
      var n: nat := |vs| - 1;
      var front := vs[..n];
      var u, w := Unseen(seen, front), Unseen(seen, vs);
      UnseenInOrder(seen, front);
      if |w| > |u| {
        forall j | 0 <= j < n ensures vs[j].key != vs[n].key {
          assert front[j] in front;
        }
        assert FirstAt(vs, n);
      }
      assert w == u || (w == u + [vs[n]] && FirstAt(vs, n));
      hide Unseen;
      forall i: nat | FirstAt(front, i) ensures FirstAt(vs, i) && vs[i] == front[i] {
      }
      forall a | 0 <= a < |w| ensures IsFirst(vs, w[a]) {
        if a < |u| {
          assert w[a] == u[a] && IsFirst(front, u[a]);
          var i: nat :| FirstAt(front, i) && front[i] == u[a];
          assert FirstAt(vs, i);
        }
      }
      forall a, b | 0 <= a < b < |w| ensures FirstsInOrder(vs, w[a], w[b]) {
        if b < |u| {
          assert FirstsInOrder(front, u[a], u[b]);
          var i: nat, j: nat :| i < j && FirstAt(front, i) && FirstAt(front, j) && front[i] == u[a] && front[j] == u[b];
          assert FirstAt(vs, i) && FirstAt(vs, j);
        } else {
          assert IsFirst(front, u[a]);
          var i: nat :| FirstAt(front, i) && front[i] == u[a];
          assert FirstAt(vs, i) && i < n;
        }
      }
    }
  }

  lemma UnseenStep(seen: set<string>, vs: seq<Value>, u: seq<Value>, v: Value)
    requires KeysOf(u) == KeysOf(vs) - seen && Distinct(u)
    ensures
      var w := u + if v.key in seen + KeysOf(vs) then [] else [v];
      KeysOf(w) == KeysOf(vs + [v]) - seen && Distinct(w)
  {
    KeysSnoc(vs, v);
    KeysSnoc(u, v);
    NoMore(u);
    hide KeysOf, Distinct;
  }

  /**
   * attachByValues: the rows of the first single-series body as they are, then the first row of each key that only
   * later bodies have, in the order they arrived. Whichever body comes first, the keys are those of all.
   */
  method AttachByValues(bodies: seq<Body>) returns (r: Merged)
    ensures r.Failed? <==> !Decodes(bodies)
    ensures r.Failed? ==> exists i :: 0 <= i < |bodies| && bodies[i] == BadBody(r.error) && Decodes(bodies[..i])
    ensures r.Merged? && FirstSingle(bodies).None? ==> r.series == None
    ensures r.Merged? && FirstSingle(bodies).Some? ==>
      var first := FirstSingle(bodies).value;
      && r.series == Some(Series(first.name, first.values + Unseen(KeysOf(first.values), LaterRows(bodies))))
      && KeysOf(r.series.value.values) == KeysOf(RowsOf(bodies))
  {
    hide KeysOf, Unseen;
    var series: Option<Series> := None;
    var seen: set<string> := {};
    KeysNothing();
    for i := 0 to |bodies|
      invariant forall j | 0 <= j < i :: bodies[j].Body?
      invariant series.Some? == FirstSingle(bodies[..i]).Some?
      invariant series.Some? ==> Attached(FirstSingle(bodies[..i]).value, LaterRows(bodies[..i]), series.value, seen)
    {
      var b := bodies[i];
      if b.BadBody? {
        return Failed(b.error);
      }
      assert bodies[..i + 1][..i] == bodies[..i];
      if |b.series| == 1 {
        if series.None? {
          series := Some(b.series[0]);
          seen := KeysIn(b.series[0].values);
          AttachedStart(b.series[0]);
        } else {
          var s;
          s, seen := AttachValues(
            FirstSingle(bodies[..i]).value, LaterRows(bodies[..i]), series.value, b.series[0].values, seen);
          series := Some(s);
        }
      } else {
        NoMore(LaterRows(bodies[..i]));
      }
    }
    assert bodies[..|bodies|] == bodies;
    RowsSplit(bodies);
    if series.Some? {
      AttachedKeys(FirstSingle(bodies).value, LaterRows(bodies));
    }
    r := Merged(series);
  }

  ghost predicate Attached(first: Series, later: seq<Value>, s: Series, seen: set<string>) {
    && s == Series(first.name, first.values + Unseen(KeysOf(first.values), later))
    && seen == KeysOf(first.values) + KeysOf(later)
  }

  lemma AttachedStart(s: Series)
    ensures Attached(s, [], s, KeysOf(s.values))
  {
    assert s.values + [] == s.values;
  }

  lemma AttachedKeys(first: Series, later: seq<Value>)
    ensures KeysOf(first.values + Unseen(KeysOf(first.values), later)) == KeysOf(first.values + later)
  {
    UnseenExact(KeysOf(first.values), later);
    KeysConcat(first.values, Unseen(KeysOf(first.values), later));
    KeysConcat(first.values, later);
  }

  /** One row more of a later body. */
  lemma AttachedNext(first: Series, later: seq<Value>, s: Series, seen: set<string>, v: Value)
    requires Attached(first, later, s, seen)
    ensures v.key in seen ==> Attached(first, later + [v], s, seen)
    ensures v.key !in seen ==> Attached(first, later + [v], s.(values := s.values + [v]), seen + {v.key})
  {
    KeysSnoc(later, v);
    hide KeysOf;
    assert (later + [v])[..|later|] == later;
    var u := Unseen(KeysOf(first.values), later);
    assert first.values + (u + [v]) == first.values + u + [v] && u + [] == u;
  }

  method KeysIn(values: seq<Value>) returns (keys: set<string>)
    ensures keys == KeysOf(values)
  {
    keys := {};
    for i := 0 to |values|
      invariant keys == KeysOf(values[..i])
    {
      KeysSnoc(values[..i], values[i]);
      assert values[..i + 1] == values[..i] + [values[i]];
      keys := keys + {values[i].key};
    }
    assert values[..|values|] == values;
  }

  method AttachValues(ghost first: Series, ghost later: seq<Value>, s: Series, values: seq<Value>, seen: set<string>)
    returns (s2: Series, seen2: set<string>)
    requires Attached(first, later, s, seen)
    ensures Attached(first, later + values, s2, seen2)
  {
    hide Attached;
    s2, seen2 := s, seen;
    assert later + values[..0] == later;
    for i := 0 to |values|
      invariant Attached(first, later + values[..i], s2, seen2)
    {
      var v := values[i];
      AttachedNext(first, later + values[..i], s2, seen2, v);
      assert later + values[..i + 1] == later + values[..i] + [v];
      if v.key !in seen2 {
        s2 := s2.(values := s2.values + [v]);
        seen2 := seen2 + {v.key};
      }
    }
    assert values[..|values|] == values;
  }
}
