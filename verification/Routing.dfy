/** From a measurement to the backends that hold it (backend/circle.go, GetKey and WriteRow of backend/proxy.go). */
module Routing {
  import opened Prelude
  import opened Escape
  import opened InfluxQL
  import opened LineProto
  import Flux

  /** A backend, as far as routing tells one from another. */
  datatype Node = Node(name: string, url: string)

  function GetKey(db: string, meas: string, measureOnly: bool): string {
    if measureOnly then meas else db + "," + meas
  }

  /** What a backend is called on the ring. */
  function Label(be: Node, idx: nat, hashKey: string): string {
    if hashKey == "name" then be.name
    else if hashKey == "url" then be.url
    else if hashKey == "exi" then "|" + FormatNat(idx)
    else FormatNat(idx)
  }

  function Labels(bs: seq<Node>, hashKey: string): set<string> {
    if bs == [] then {}
    else
      var n: nat := |bs| - 1;
      Labels(bs[..n], hashKey) + {Label(bs[n], n, hashKey)}
  }

  function Routes(bs: seq<Node>, hashKey: string): (m: map<string, Node>)
    ensures m.Keys == Labels(bs, hashKey)
  {
    if bs == [] then map[]
    else
      var n: nat := |bs| - 1;
      Routes(bs[..n], hashKey)[Label(bs[n], n, hashKey) := bs[n]]
  }

  /**
   * The ring: which of its labels a key falls to, and the empty text when it has none. Nothing else is known about it,
   * but that it depends on nothing else.
   */
  type Ring = (set<string>, string) -> string

  ghost predicate Lawful(ring: Ring) {
    forall labels: set<string>, key: string ::
      if labels == {} then ring(labels, key) == "" else ring(labels, key) in labels
  }

  function Lookup(m: map<string, Node>, mark: string): Option<Node> {
    if mark in m then Some(m[mark]) else None
  }

  /** The backend of a key in a circle of these backends. */
  function HomeIn(ring: Ring, bs: seq<Node>, hashKey: string, key: string): Option<Node> {
    Lookup(Routes(bs, hashKey), ring(Labels(bs, hashKey), key))
  }

  class Circle {
    const ring: Ring
    const hashKey: string
    var backends: seq<Node>
    var labels: set<string>
    var mapToBackend: map<string, Node>
    var routerCache: map<string, Option<Node>>

    ghost function Home(key: string): Option<Node>
      reads this
    {
      HomeIn(ring, backends, hashKey, key)
    }

    /** The ring and the map are those of the backends, and the cache holds only what a lookup would find. */
    ghost predicate Valid()
      reads this
    {
      labels == Labels(backends, hashKey) && mapToBackend == Routes(backends, hashKey)
      && forall k | k in routerCache :: routerCache[k] == Home(k)
    }

    constructor (bs: seq<Node>, hashKey: string, ring: Ring)
      ensures Valid() && backends == bs && this.hashKey == hashKey && this.ring == ring
    {
      this.ring, this.hashKey := ring, hashKey;
      backends, labels, mapToBackend, routerCache := [], {}, map[], map[];
      new;
      for idx := 0 to |bs|
        invariant Valid() && backends == bs[..idx] && routerCache == map[]
      {
        assert bs[..idx + 1] == bs[..idx] + [bs[idx]];
        AddRouter(bs[idx], idx);
      }
      assert bs[..|bs|] == bs;
    }

    /** Backends are added only before the first lookup. */
    method AddRouter(be: Node, idx: nat)
      requires Valid() && idx == |backends| && routerCache == map[]
      modifies this
      ensures Valid() && backends == old(backends) + [be] && routerCache == map[]
    {
      var mark := Label(be, idx, hashKey);
      assert (backends + [be])[..idx] == backends;
      backends := backends + [be];
      labels := labels + {mark};
      mapToBackend := mapToBackend[mark := be];
    }

    /** The cache in front of the ring changes no answer. */
    method GetBackend(key: string) returns (be: Option<Node>)
      requires Valid()
      modifies this`routerCache
      ensures Valid() && be == Home(key)
      ensures routerCache == old(routerCache)[key := be]
    {
      if key in routerCache {
        assert routerCache == routerCache[key := routerCache[key]];
        return routerCache[key];
      }
      be := Lookup(mapToBackend, ring(labels, key));
      routerCache := routerCache[key := be];
    }
  }

  lemma {:induction false} RoutesFrom(bs: seq<Node>, hashKey: string, mark: string)
    requires mark in Labels(bs, hashKey)
    ensures Routes(bs, hashKey)[mark] in bs
  {
    var n: nat := |bs| - 1;
    if mark != Label(bs[n], n, hashKey) {
      RoutesFrom(bs[..n], hashKey, mark);
      assert Routes(bs, hashKey)[mark] in bs[..n];
    }
  }

  /** In a circle with backends every key has a home, one of them. */
  lemma HomeIsListed(ring: Ring, bs: seq<Node>, hashKey: string, key: string)
    requires Lawful(ring) && bs != []
    ensures HomeIn(ring, bs, hashKey, key).Some? && HomeIn(ring, bs, hashKey, key).value in bs
  {
    var labels := Labels(bs, hashKey);
    assert labels != {};
    assert ring(labels, key) in labels;
    RoutesFrom(bs, hashKey, ring(labels, key));
  }

  lemma IndexLabels(a: Node, b: Node, i: nat, j: nat, hashKey: string)
    requires hashKey != "name" && hashKey != "url" && i != j
    ensures Label(a, i, hashKey) != Label(b, j, hashKey)
  {
    hide FormatNat;
    assert Value(FormatNat(i)) == i && Value(FormatNat(j)) == j;
    if hashKey == "exi" {
      assert ("|" + FormatNat(i))[1..] == FormatNat(i) && ("|" + FormatNat(j))[1..] == FormatNat(j);
    }
  }

  /** A label leads to the last backend that has it. */
  lemma {:induction false} LastOfLabel(bs: seq<Node>, hashKey: string, i: nat)
    requires i < |bs| && forall j | i < j < |bs| :: Label(bs[j], j, hashKey) != Label(bs[i], i, hashKey)
    ensures Label(bs[i], i, hashKey) in Labels(bs, hashKey)
    ensures Routes(bs, hashKey)[Label(bs[i], i, hashKey)] == bs[i]
  {
    hide Label;
    var n: nat := |bs| - 1;
    if i < n {
      assert forall j | i < j < n :: bs[..n][j] == bs[j];
      LastOfLabel(bs[..n], hashKey, i);
    }
  }

  /**
   * By hash mode: each backend is reached under its name, or its URL, unless a later one has the same, or under its
   * index, which no two backends share.
   */
  lemma OwnLabel(bs: seq<Node>, hashKey: string, i: nat)
    requires i < |bs|
    ensures hashKey == "name" && (forall j | i < j < |bs| :: bs[j].name != bs[i].name) ==>
      Lookup(Routes(bs, hashKey), bs[i].name) == Some(bs[i])
    ensures hashKey == "url" && (forall j | i < j < |bs| :: bs[j].url != bs[i].url) ==>
      Lookup(Routes(bs, hashKey), bs[i].url) == Some(bs[i])
    ensures hashKey == "exi" ==> Lookup(Routes(bs, hashKey), "|" + FormatNat(i)) == Some(bs[i])
    ensures hashKey !in {"name", "url", "exi"} ==> Lookup(Routes(bs, hashKey), FormatNat(i)) == Some(bs[i])
  {
    hide FormatNat;
    if hashKey != "name" && hashKey != "url" {
      forall j | i < j < |bs| ensures Label(bs[j], j, hashKey) != Label(bs[i], i, hashKey) {
        IndexLabels(bs[i], bs[j], i, j, hashKey);
      }
    }
    if forall j | i < j < |bs| :: Label(bs[j], j, hashKey) != Label(bs[i], i, hashKey) {
      LastOfLabel(bs, hashKey, i);
    }
  }

  function NamesOf(bs: seq<Node>): set<string> { set b | b in bs :: b.name }

  function UrlsOf(bs: seq<Node>): set<string> { set b | b in bs :: b.url }

  /** The numbers below n behind a prefix. */
  function Numbered(prefix: string, n: nat): set<string> { set k | 0 <= k < n :: prefix + FormatNat(k) }

  lemma SetsSnoc(bs: seq<Node>, b: Node, prefix: string, n: nat)
    ensures NamesOf(bs + [b]) == NamesOf(bs) + {b.name} && UrlsOf(bs + [b]) == UrlsOf(bs) + {b.url}
    ensures Numbered(prefix, n + 1) == Numbered(prefix, n) + {prefix + FormatNat(n)}
  {
    hide FormatNat;
    assert forall x: Node :: x in bs + [b] <==> x in bs || x == b;
  }

  /** The labels on the ring are those of the backends and no others. */
  lemma {:induction false} LabelsAre(bs: seq<Node>, hashKey: string)
    ensures hashKey == "name" ==> Labels(bs, hashKey) == NamesOf(bs)
    ensures hashKey == "url" ==> Labels(bs, hashKey) == UrlsOf(bs)
    ensures hashKey == "exi" ==> Labels(bs, hashKey) == Numbered("|", |bs|)
    ensures hashKey !in {"name", "url", "exi"} ==> Labels(bs, hashKey) == Numbered("", |bs|)
  {
    if bs != [] {
      var n: nat := |bs| - 1;
      LabelsAre(bs[..n], hashKey);
      assert bs == bs[..n] + [bs[n]];
      SetsSnoc(bs[..n], bs[n], if hashKey == "exi" then "|" else "", n);
      hide FormatNat, NamesOf, UrlsOf, Numbered;
      assert "" + FormatNat(n) == FormatNat(n);
    }
  }

  /** So the home of a key is the backend whose label the ring gives. */
  lemma HomeByLabel(ring: Ring, bs: seq<Node>, hashKey: string, key: string, i: nat)
    requires i < |bs|
    ensures
      hashKey == "name" && ring(NamesOf(bs), key) == bs[i].name && (forall j | i < j < |bs| :: bs[j].name != bs[i].name)
      ==> HomeIn(ring, bs, hashKey, key) == Some(bs[i])
    ensures
      hashKey == "url" && ring(UrlsOf(bs), key) == bs[i].url && (forall j | i < j < |bs| :: bs[j].url != bs[i].url)
      ==> HomeIn(ring, bs, hashKey, key) == Some(bs[i])
    ensures hashKey == "exi" && ring(Numbered("|", |bs|), key) == "|" + FormatNat(i) ==>
      HomeIn(ring, bs, hashKey, key) == Some(bs[i])
    ensures hashKey !in {"name", "url", "exi"} && ring(Numbered("", |bs|), key) == FormatNat(i) ==>
      HomeIn(ring, bs, hashKey, key) == Some(bs[i])
  {
    LabelsAre(bs, hashKey);
    OwnLabel(bs, hashKey, i);
    hide Labels, Routes, FormatNat, Lookup, NamesOf, UrlsOf, Numbered;
  }

  // ---------- a point on its way in ----------

  function RapidOk(buf: string): bool {
    (buf == "" || buf[|buf| - 1] != ' ') && LastGap(buf) - FirstGap(buf) > 3
  }

  lemma {:induction false} FirstGapAt(head: string, rest: string)
    requires ' ' !in head && BACKSLASH !in head
    requires |rest| > 1 && rest[0] == ' ' && rest[1] != ' ' && rest[|rest| - 1] != ' '
    ensures FirstGap(head + rest) == |head|
  {
    if head == "" {
      assert head + rest == rest;
    } else {
      assert head[0] in head && (head + rest)[1..] == head[1..] + rest;
      FirstGapAt(head[1..], rest);
    }
  }

  lemma {:induction false} LastGapAt(s: string, time: string)
    requires ' ' !in time && |s| > 1 && s[|s| - 1] == ' ' && s[|s| - 2] != ' '
    ensures LastGap(s + time) == |s| - 1
  {
    var n := |time|;
    if n == 0 {
      assert s + time == s;
      assert RunStart(s, |s| - 1) == |s| - 1;
    } else {
      assert time[n - 1] in time && (s + time)[..|s + time| - 1] == s + time[..n - 1];
      LastGapAt(s, time[..n - 1]);
    }
  }

  /** A line of three parts that single spaces part passes the quick check exactly with three characters of fields. */
  lemma RapidExact(head: string, fields: string, time: string)
    requires ' ' !in head + fields + time && BACKSLASH !in head && fields != "" && time != ""
    ensures RapidOk(head + " " + fields + " " + time) <==> |fields| >= 3
  {
    var all := head + fields + time;
    assert forall c | c in head || c in fields || c in time :: c in all;
    assert fields[0] in fields && fields[|fields| - 1] in fields && time[|time| - 1] in time;
    var rest, front := " " + fields + " " + time, head + " " + fields + " ";
    assert head + " " + fields + " " + time == head + rest == front + time;
    FirstGapAt(head, rest);
    LastGapAt(front, time);
  }

  lemma {:induction false} KeyFits(s: string)
    ensures ScanKey(s).Key? ==> |ScanKey(s).key| <= |s|
    decreases |s|
  {
    if s != "" {
      if s[0] == BACKSLASH && |s| > 1 {
        KeyFits(s[2..]);
      } else {
        KeyFits(s[1..]);
      }
    }
  }

  /** The key that WriteRow stores a line under, unless it turns the line away. */
  function Accepted(line: string, precision: string, multiplier: string -> int, now: int): Option<string> {
    var l := AppendNano(line, precision, multiplier, now);
    var k := ScanKey(l);
    if k.Key? && |k.key| <= |l| && RapidOk(l[|k.key|..]) then Some(k.key) else None
  }

  class Proxy {
    const circles: seq<Circle>
    const measureOnly: bool

    constructor (circles: seq<Circle>, measureOnly: bool)
      ensures this.circles == circles && this.measureOnly == measureOnly
    {
      this.circles, this.measureOnly := circles, measureOnly;
    }

    ghost predicate Valid()
      reads circles
    {
      forall c | c in circles :: c.Valid()
    }

    /** The home of a key in each circle. */
    ghost function Homes(key: string): (bs: seq<Option<Node>>)
      reads circles
      ensures |bs| == |circles|
    {
      seq(|circles|, i requires 0 <= i < |circles| reads circles => circles[i].Home(key))
    }

    method GetBackends(key: string) returns (bs: seq<Option<Node>>)
      requires Valid()
      modifies circles`routerCache
      ensures Valid() && bs == Homes(key) && |bs| == |circles|
      ensures forall i | 0 <= i < |bs| ::
        bs[i] == HomeIn(circles[i].ring, circles[i].backends, circles[i].hashKey, key)
    {
      bs := [];
      for i := 0 to |circles|
        invariant Valid() && |bs| == i
        invariant forall j | 0 <= j < i :: bs[j] == circles[j].Home(key)
      {
        var be := circles[i].GetBackend(key);
        bs := bs + [be];
      }
    }

    /**
     * WriteRow up to the backends: whatever the line is, nothing in it runs out of range, and a point that is not
     * turned away goes to the homes of its key.
     */
    method WriteRow(line: string, db: string, precision: string, multiplier: string -> int, now: int)
      returns (to: Option<seq<Option<Node>>>)
      requires Valid()
      modifies circles`routerCache
      ensures Valid()
      ensures
        var k := Accepted(line, precision, multiplier, now);
        to == if k.Some? && circles != [] then Some(Homes(GetKey(db, k.value, measureOnly))) else None
    {
      hide AppendNano, ScanKey, FirstGap, LastGap;
      var nanoLine := AppendNano(line, precision, multiplier, now);
      EndsInDigit(line, precision, multiplier, now);
      NanoLineHasKey(line, precision, multiplier, now);
      KeyFits(nanoLine);
      var k := ScanKeyLoop(nanoLine);
      assert k != KeyPanic;
      if k == NoKey {
        return None;
      }
      var ok := RapidCheck(nanoLine[|k.key|..]);
      if !ok {
        return None;
      }
      var bs := GetBackends(GetKey(db, k.key, measureOnly));
      to := if |bs| == 0 then None else Some(bs);
    }
  }

  // ---------- reads find what writes stored ----------

  const BLANKS := "\t\n\U{B}\U{C}\r"

  /** A point: its measurement, a comma before tags or a space before fields, and something more. */
  function PointLine(m: string, sep: char, rest: string): string { EscapeMeasurement(m) + [sep] + rest }

  predicate Point(m: string, sep: char, rest: string) {
    m != "" && m[0] !in BLANKS && (sep == ' ' || sep == ',') && TrimRight(rest, WHITESPACE) != ""
  }

  lemma EscapeFirst(m: string)
    requires m != "" && m[0] !in BLANKS
    ensures EscapeMeasurement(m) != "" && EscapeMeasurement(m)[0] !in WHITESPACE
  {
    EscaperIs(MEASUREMENT, m);
  }

  lemma {:induction false} TrimRightBehind(head: string, s: string, cs: string)
    requires TrimRight(s, cs) != ""
    ensures TrimRight(head + s, cs) == head + TrimRight(s, cs)
    decreases |s|
  {
    var t := head + s;
    if s[|s| - 1] in cs {
      assert t[..|t| - 1] == head + s[..|s| - 1];
      TrimRightBehind(head, s[..|s| - 1], cs);
    }
  }

  lemma {:induction false} DigitsWithin(s: string, i: nat)
    requires i < |s| && !Digit(s[i])
    ensures |s| - 1 - Digits(s) >= i
  {
    if Digit(s[|s| - 1]) {
      DigitsWithin(s[..|s| - 1], i);
    }
  }

  /** Completing the timestamp leaves a point with its measurement in front. */
  lemma NanoPoint(m: string, sep: char, rest: string, precision: string, multiplier: string -> int, now: int)
    returns (rest2: string)
    requires Point(m, sep, rest)
    ensures AppendNano(PointLine(m, sep, rest), precision, multiplier, now) == PointLine(m, sep, rest2)
  {
    hide EscapeMeasurement, FormatInt, FormatNat, Value, Digits;
    var e := EscapeMeasurement(m);
    var line, trimmed := PointLine(m, sep, rest), TrimRight(rest, WHITESPACE);
    EscapeFirst(m);
    assert TrimLeft(line, WHITESPACE) == line;
    TrimRightBehind(e + [sep], rest, WHITESPACE);
    var l := e + [sep] + trimmed;
    assert TrimSpace(line) == l;
    assert l[|e|] == sep;
    DigitsWithin(l, |e|);
    var r := AppendNano(line, precision, multiplier, now);
    assert e + [sep] <= r;
    rest2 := r[|e| + 1..];
    assert r == r[..|e| + 1] + rest2;
  }

  /** The key WriteRow reads from a point is its measurement exactly when that has no backslash. */
  lemma WrittenKey(m: string, sep: char, rest: string, precision: string, multiplier: string -> int, now: int)
    requires Point(m, sep, rest)
    ensures ScanKey(AppendNano(PointLine(m, sep, rest), precision, multiplier, now)) == Key(m) <==> BACKSLASH !in m
  {
    var rest2 := NanoPoint(m, sep, rest, precision, multiplier, now);
    hide AppendNano, ScanKey;
    ScanKeyExact(m, sep, rest2);
  }

  /** With its backslashes in pairs, a Flux filter still finds the measurement, but its points have another key. */
  lemma PairedBackslashes(m: string, sep: char, rest: string, precision: string, multiplier: string -> int, now: int,
                          pre: string, gap: string, gap2: string, post: string)
    requires Point(m, sep, rest) && BACKSLASH in m && Flux.Doubled(m) && Flux.Free(m, Flux.DOTTED)
    requires Flux.Free(pre, Flux.DOTTED) && Flux.Free(post, Flux.DOTTED) && Flux.Gaps(gap, gap2)
    ensures Flux.ParseQueryMeasurement(Flux.Filter(pre, gap, gap2, m, post)) == Flux.Found(m)
    ensures ScanKey(AppendNano(PointLine(m, sep, rest), precision, multiplier, now)) != Key(m)
  {
    hide Flux.Doubled, Flux.Free, ScanKey, AppendNano;
    WrittenKey(m, sep, rest, precision, multiplier, now);
    Flux.FilterExact(pre, gap, gap2, m, post);
  }
}
