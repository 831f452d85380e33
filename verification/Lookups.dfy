/**
 * Exactly what the three lookups of backend/influxql.go find in a select from a source, whatever its names hold: in a
 * name with a backslash a quote is taken for its end too early or its own end is taken for a quote.
 */
module Lookups {
  import opened Prelude
  import opened Escape
  import opened Quote
  import opened InfluxQL
  import opened Subquery
  import opened Qualified
  import opened Backslash
  import opened Nesting

  // ---------- where a quoted text ends ----------

  function Last(s: string): char
    requires s != ""
  {
    s[|s| - 1]
  }

  /** An escaped text ends in the character that the text ends in. */
  lemma {:induction false} EscapedLast(cs: string, s: string)
    requires s != ""
    ensures EscapeBy(cs, s) != "" && Last(EscapeBy(cs, s)) == Last(s)
  {
    if |s| > 1 {
      EscapedLast(cs, s[1..]);
    } else {
      assert EscapeBy(cs, s[1..]) == "";
    }
  }

  /** Each quote in an escaped text has its backslash in front of it. */
  lemma {:induction false} SlashInFront(cs: string, s: string, i: nat)
    requires '"' in cs && i < |EscapeBy(cs, s)| && EscapeBy(cs, s)[i] == '"'
    ensures i > 0 && EscapeBy(cs, s)[i - 1] == BACKSLASH
  {
    var t := EscapeBy(cs, s[1..]);
    var n := |EscapeBy(cs, s)| - |t|;
    assert EscapeBy(cs, s)[n..] == t;
    if i >= n {
      assert t[i - n] == '"';
      SlashInFront(cs, s[1..], i - n);
      assert t[i - n - 1] == EscapeBy(cs, s)[i - 1];
    }
  }

  /** What stands behind a name: nothing with a quote in it, or dots and another name. */
  datatype Behind = NoMore(r: string) | Another(dots: string, more: string)

  function BehindText(b: Behind): string {
    match b
    case NoMore(r) => r
    case Another(dots, more) => dots + "\"" + more
  }

  predicate BehindOk(b: Behind) {
    match b
    case NoMore(r) => '"' !in r && (r != "" ==> Last(r) != BACKSLASH)
    case Another(dots, _) => dots != "" && forall i | 0 <= i < |dots| :: dots[i] == '.'
  }

  /** A text that is taken for a name, and is not: and if it looks like a subquery, it is shorter. */
  predicate Wrong(text: string, x: string) {
    text != x && text != "" && (IsSubquery(text) ==> |text| < |x| && Last(x) == ')')
  }

  /** The stream from behind an opening quote: the name, its closing quote, and what follows. */
  function Stream(x: string, b: Behind): string { EscapeBy(IDENTIFIER, x) + ("\"" + BehindText(b)) }

  /** A quote in it is escaped by a backslash, is the closing one, or comes later, the first of those behind a dot. */
  lemma StreamQuote(x: string, b: Behind, c: nat)
    requires BehindOk(b) && c < |Stream(x, b)| && Stream(x, b)[c] == '"'
    ensures
      var n := |EscapeBy(IDENTIFIER, x)|;
      && (c < n ==> c > 0 && Stream(x, b)[c - 1] == BACKSLASH)
      && (c > n ==> b.Another? && c >= n + 1 + |b.dots|)
      && (c > n && c == n + 1 + |b.dots| ==> Stream(x, b)[c - 1] == '.')
  {
    var e := EscapeBy(IDENTIFIER, x);
    if c < |e| {
      SlashInFront(IDENTIFIER, x, c);
    } else if c > |e| {
      assert BehindText(b)[c - |e| - 1] == '"';
    }
  }

  /** So where a text read from it ends. */
  lemma EndsWhere(x: string, b: Behind, text: string, rest: string)
    requires BehindOk(b) && Stream(x, b) == Quoting('"', text) + ("\"" + rest)
    ensures
      var e, t := EscapeBy(IDENTIFIER, x), Quoting('"', text);
      || (|t| < |e| && text != "" && Last(text) == BACKSLASH)
      || (t == e && rest == BehindText(b))
      || (|t| > |e| && b.Another? && text != "" && Last(text) == '.' && e != "" && Last(e) == BACKSLASH)
  {
    var s, e, t := Stream(x, b), EscapeBy(IDENTIFIER, x), Quoting('"', text);
    var c := |t|;
    assert s[c] == '"';
    StreamQuote(x, b, c);
    if c < |e| {
      assert t[c - 1] == s[c - 1];
      if text != "" {
        EscapedLast(['"', BACKSLASH], text);
      }
    } else if c == |e| {
      assert s[..c] == e && s[c + 1..] == BehindText(b) && s[..c] == t && s[c + 1..] == rest;
    } else {
      assert s[|e|] == '"' && t[|e|] == '"';
      SlashInFront(['"', BACKSLASH], text, |e|);
      assert t[|e| - 1] == s[|e| - 1] == e[|e| - 1];
      FirstLater(x, b, text, rest);
    }
  }

  lemma FirstLater(x: string, b: Behind, text: string, rest: string)
    requires BehindOk(b) && Stream(x, b) == Quoting('"', text) + ("\"" + rest)
    requires |Quoting('"', text)| > |EscapeBy(IDENTIFIER, x)|
    ensures b.Another? && text != "" && Last(text) == '.'
  {
    var s, e, t := Stream(x, b), EscapeBy(IDENTIFIER, x), Quoting('"', text);
    var c := |t|;
    assert s[c] == '"';
    StreamQuote(x, b, c);
    var k := |e| + 1 + |b.dots|;
    assert s[k] == '"' by { assert BehindText(b)[|b.dots|] == '"'; }
    StreamQuote(x, b, k);
    if c > k {
      SlashInFront(['"', BACKSLASH], text, k);
      assert false;
    }
    assert t[c - 1] == s[c - 1];
    EscapedLast(['"', BACKSLASH], text);
  }

  lemma {:induction false} EscapedLength(s: string)
    ensures |EscapeBy(IDENTIFIER, s)| == |s| + Quotes(s)
  {
    if s != "" {
      EscapedLength(s[1..]);
    }
  }

  /** Two texts, one quoted and one with its quotes escaped only, that come to the same. */
  lemma ShorterSame(text: string, x: string)
    requires Quoting('"', text) == EscapeBy(IDENTIFIER, x) && BACKSLASH in x
    ensures |text| < |x|
  {
    EscapedIs(x);
    if BACKSLASH in text {
      QuotingLonger(text);
      EscapedLength(text);
      EscapedLength(x);
      QuotesEscaped(['"', BACKSLASH], text);
      QuotesEscaped(IDENTIFIER, x);
    } else {
      QuotingNoBackslash(text);
      EscapesInvert(text);
      EscapesInvert(x);
    }
  }

  /** What is read for a name with a backslash is wrong, and where it does not end with the name it ends oddly. */
  lemma ReadWrong(x: string, b: Behind, text: string, rest: string)
    requires BehindOk(b) && BACKSLASH in x && Stream(x, b) == Quoting('"', text) + ("\"" + rest)
    ensures Wrong(text, x)
    ensures rest == BehindText(b) || Last(text) == BACKSLASH || (b.Another? && Last(text) == '.')
  {
    var e, t := EscapeBy(IDENTIFIER, x), Quoting('"', text);
    EndsWhere(x, b, text, rest);
    EscapedLast(IDENTIFIER, x);
    QuotingLonger(x);
    assert text == "" ==> t == "";
    if t == e {
      ShorterSame(text, x);
      EscapedLast(['"', BACKSLASH], text);
    }
  }

  /** The same of an unclosed name, of which only the start is left. */
  lemma ReadOpen(kept: string, x: string, text: string, rest: string)
    requires EscapeBy(IDENTIFIER, kept) == Quoting('"', text) + ("\"" + rest) && kept <= x
    ensures Wrong(text, x) && Last(text) == BACKSLASH && Quotes(rest) < Quotes(x)
  {
    var e, t := EscapeBy(IDENTIFIER, kept), Quoting('"', text);
    ReadEarly(kept, text, rest, x);
    assert e[|t|] == '"';
    SlashInFront(IDENTIFIER, kept, |t|);
    assert t[|t| - 1] == e[|t| - 1];
    assert text == "" ==> t == "";
    EscapedLast(['"', BACKSLASH], text);
  }

  // ---------- what the lookups then find ----------

  /** The database is looked for where it is the first name, and not found there. */
  lemma DbWrong(q: string, text: string, more: seq<string>, db: string)
    requires ScanTokens(q, 0) == Some(Sel([InQuotes(text)] + more)) && Wrong(text, db) && db != ""
    ensures DatabaseFromInfluxQL(q) != Answer(db)
  {
    var rest := [InQuotes(text)] + more;
    var found := "";
    RestOk(q, rest);
    if TokensOk(rest, |q|) {
      found := DatabaseAt(rest, INTO, |q|);
      FirstAtDb(text, more, |q|);
    }
    hide ScanTokens, DatabaseAt, DatabaseFromInfluxQL, InQuotes, TokensOk, IsSubquery, Sel;
    DatabaseIs(q, rest, found);
    if IsSubquery(found) {
      NotEmptySubquery(found);
      DatabaseFits(found[1..]);
    }
  }

  lemma NotEmptySubquery(t: string)
    ensures IsSubquery(t) ==> t != "" && t[|t| - 1] == ')'
  {
  }

  lemma FirstAtDb(text: string, more: seq<string>, size: nat)
    requires TokensOk([InQuotes(text)] + more, size)
    ensures
      var ts := [InQuotes(text)] + more;
      DatabaseAt(ts, INTO, size)
      == if (|ts| >= 4 && Dot(ts, 1) && Dot(ts, 3)) || (Dot(ts, 1) && Dot(ts, 2)) then text else ""
  {
    hide InQuotes;
  }

  lemma FirstAtRp(text: string, more: seq<string>, size: nat)
    requires TokensOk([InQuotes(text)] + more, size)
    ensures
      var ts := [InQuotes(text)] + more;
      RetentionPolicyAt(ts, size)
      == if Dot(ts, 1) && Dot(ts, 2) then "" else if |ts| >= 5 && Dot(ts, 1) && Dot(ts, 3) then Unquoted(ts[2])
         else if |ts| >= 3 && Dot(ts, 1) then text else ""
  {
    hide InQuotes;
  }

  /** When the text read for a policy looks like a subquery, what is read for the measurement does not pass for one. */
  predicate Third(text: string, more: seq<string>) {
    IsSubquery(text) && |more| >= 4 && more[0] == "." && more[2] == "." ==>
      TokenOk(more[1]) && Unquoted(more[1]) != "" && Last(Unquoted(more[1])) == BACKSLASH
  }

  lemma NotBoth(text: string, more: seq<string>, rp: string, size: nat)
    requires Wrong(text, rp) && rp != "" && Third(text, more) && TokensOk([InQuotes(text)] + more, size)
    ensures
      var ts := [InQuotes(text)] + more;
      var db, found := DatabaseAt(ts, INTO, size), RetentionPolicyAt(ts, size);
      || (db == text && !IsSubquery(text))
      || (found != rp && (IsSubquery(found) ==> |found| < |rp|))
  {
    FirstAtDb(text, more, size);
    FirstAtRp(text, more, size);
    var ts := [InQuotes(text)] + more;
    assert forall i | 1 <= i < |ts| :: ts[i] == more[i - 1];
    hide InQuotes, Unquoted, DatabaseAt, RetentionPolicyAt, TokensOk;
    var found := RetentionPolicyAt(ts, size);
    NotEmptySubquery(found);
    hide IsSubquery;
  }

  /** A policy that is the first name is not found, or a database is where there is none. */
  lemma RpFirstWrong(q: string, text: string, more: seq<string>, rp: string)
    requires ScanTokens(q, 0) == Some(Sel([InQuotes(text)] + more))
    requires Wrong(text, rp) && rp != "" && Third(text, more)
    ensures !(DatabaseFromInfluxQL(q) == Answer("") && RetentionPolicyFromInfluxQL(q) == Answer(rp))
  {
    var rest := [InQuotes(text)] + more;
    RestOk(q, rest);
    NotBoth(text, more, rp, |q|);
    var db, found := DatabaseAt(rest, INTO, |q|), RetentionPolicyAt(rest, |q|);
    hide ScanTokens, DatabaseAt, RetentionPolicyAt, DatabaseFromInfluxQL, RetentionPolicyFromInfluxQL, InQuotes,
      TokensOk, IsSubquery, Sel, Third;
    DatabaseIs(q, rest, db);
    PolicyIs(q, rest, found);
    if IsSubquery(found) {
      NotEmptySubquery(found);
      PolicyFits(found[1..]);
    }
  }

  lemma ThirdAt(db: string, text: string, more: seq<string>, size: nat)
    requires TokensOk([InQuotes(db), ".", InQuotes(text)] + more, size)
    ensures
      var ts := [InQuotes(db), ".", InQuotes(text)] + more;
      && (DatabaseAt(ts, INTO, size) == if Dot(ts, 3) then db else "")
      && (RetentionPolicyAt(ts, size) == if |ts| >= 5 && Dot(ts, 3) then text else db)
  {
    var ts := [InQuotes(db), ".", InQuotes(text)] + more;
    assert ts[0] == InQuotes(db) && ts[1] == "." && ts[2] == InQuotes(text);
    hide InQuotes;
  }

  /** A policy behind a database is not found, or the database is not. */
  lemma RpThirdWrong(q: string, db: string, text: string, more: seq<string>, rp: string)
    requires ScanTokens(q, 0) == Some(Sel([InQuotes(db), ".", InQuotes(text)] + more))
    requires Wrong(text, rp) && db != rp
    ensures !(DatabaseFromInfluxQL(q) == Answer(db) && RetentionPolicyFromInfluxQL(q) == Answer(rp))
  {
    var rest := [InQuotes(db), ".", InQuotes(text)] + more;
    RestOk(q, rest);
    ThirdAt(db, text, more, |q|);
    var found, policy := DatabaseAt(rest, INTO, |q|), RetentionPolicyAt(rest, |q|);
    hide ScanTokens, DatabaseAt, RetentionPolicyAt, DatabaseFromInfluxQL, RetentionPolicyFromInfluxQL, InQuotes,
      TokensOk, IsSubquery, Sel;
    DatabaseIs(q, rest, found);
    PolicyIs(q, rest, policy);
    if IsSubquery(db) {
      Itself(db);
      NotEmptySubquery(db);
    }
    NotEmptySubquery("");
    if IsSubquery(text) {
      NotEmptySubquery(text);
      PolicyFits(text[1..]);
    }
  }

  // ---------- the place of a misread name ----------

  /** How the tokens go on from a name that is misread: not at all, or with a wrong text. */
  ghost predicate Misread(ts: Option<seq<string>>, x: string, third: bool) {
    || ts == None || ts == Some([])
    || exists text, more :: ts == Some([InQuotes(text)] + more) && Wrong(text, x) && (third ==> Third(text, more))
  }

  /** Of a measurement: with no later token that could be it. */
  ghost predicate MisreadLast(ts: Option<seq<string>>, x: string) {
    || ts == None || ts == Some([])
    || exists text, more :: ts == Some([InQuotes(text)] + more) && text != x && Fewer(more, x)
  }

  /** The lookups find what the source names, the measurement in a query of its own. */
  predicate AllThree(q1: string, q0: string, s: Source) {
    && DatabaseFromInfluxQL(q1) == Answer(Db(s))
    && RetentionPolicyFromInfluxQL(q1) == Answer(Rp(s))
    && MeasurementFromInfluxQL(q0) == Answer(s.m)
  }

  /** A query of a source whose tokens are those of its front and then these. */
  predicate ReadAs(q: string, front: seq<Item>, ts: Option<seq<string>>) {
    ScanTokens(q, 0) == Lead(Prefixed(ItemTokens(front), ts))
  }

  lemma GoesNowhere(q: string, front: seq<Item>)
    requires ReadAs(q, front, None)
    ensures AllFail(q)
  {
    hide ScanTokens, ItemTokens, AllFail;
    NoSource(q);
  }

  lemma GoesNoFurther(q: string, front: seq<Item>)
    requires ReadAs(q, front, Some([]))
    ensures ScanTokens(q, 0) == Some(Sel(ItemTokens(front))) && (front == [] ==> AllFail(q))
  {
    hide ScanTokens, AllFail;
    assert ItemTokens(front) + [] == ItemTokens(front);
    hide Sel;
    if front == [] {
      assert ItemTokens(front) == [];
      NoSource(q);
    }
  }

  lemma GoesOn(q: string, front: seq<Item>, text: string, more: seq<string>)
    requires ReadAs(q, front, Some([InQuotes(text)] + more))
    ensures ScanTokens(q, 0) == Some(Sel(ItemTokens(front) + [InQuotes(text)] + more))
  {
    hide ScanTokens, ItemTokens, InQuotes, Sel;
    assert ItemTokens(front) + ([InQuotes(text)] + more) == ItemTokens(front) + [InQuotes(text)] + more;
  }

  lemma FailedIs(q1: string, q0: string, s: Source)
    requires AllFail(q1)
    ensures !AllThree(q1, q0, s)
  {
    hide DatabaseFromInfluxQL, RetentionPolicyFromInfluxQL, MeasurementFromInfluxQL;
  }

  lemma FirstMisread(s: Source, x: string, q1: string, text: string, more: seq<string>)
    requires Items(s)[0] == Name(x) && !s.Alone? && x != "" && ReadAs(q1, [], Some([InQuotes(text)] + more))
    requires Wrong(text, x) && (s.InPolicy? ==> Third(text, more))
    ensures !(DatabaseFromInfluxQL(q1) == Answer(Db(s)) && RetentionPolicyFromInfluxQL(q1) == Answer(Rp(s)))
  {
    hide ReadAs, ScanTokens, Third, Wrong, InQuotes, DatabaseFromInfluxQL, RetentionPolicyFromInfluxQL;
    GoesOn(q1, [], text, more);
    NoFront(text, more);
    if s.InPolicy? {
      RpFirstWrong(q1, text, more, x);
    } else {
      DbWrong(q1, text, more, x);
    }
  }

  /** A database, or a policy in its place. */
  lemma FailsAtFirst(s: Source, x: string, q1: string, q0: string, ts: Option<seq<string>>)
    requires Items(s)[0] == Name(x) && !s.Alone? && x != "" && ReadAs(q1, [], ts) && Misread(ts, x, s.InPolicy?)
    ensures !AllThree(q1, q0, s)
  {
    hide ReadAs, DatabaseFromInfluxQL, RetentionPolicyFromInfluxQL, MeasurementFromInfluxQL, Wrong, Third, InQuotes,
      Items;
    if ts == None {
      GoesNowhere(q1, []);
      FailedIs(q1, q0, s);
    } else if ts == Some([]) {
      GoesNoFurther(q1, []);
      FailedIs(q1, q0, s);
    } else {
      var text, more :| ts == Some([InQuotes(text)] + more) && Wrong(text, x) && (s.InPolicy? ==> Third(text, more));
      FirstMisread(s, x, q1, text, more);
    }
  }

  lemma ThirdMisread(s: Source, q1: string, text: string, more: seq<string>)
    requires s.Full? && s.db != s.rp && Wrong(text, s.rp)
    requires ReadAs(q1, [Name(s.db), Period], Some([InQuotes(text)] + more))
    ensures !(DatabaseFromInfluxQL(q1) == Answer(Db(s)) && RetentionPolicyFromInfluxQL(q1) == Answer(Rp(s)))
  {
    var front := [Name(s.db), Period];
    assert ItemTokens(front) == [InQuotes(s.db), "."];
    hide ReadAs, ScanTokens, Wrong, InQuotes, ItemTokens, DatabaseFromInfluxQL, RetentionPolicyFromInfluxQL;
    GoesOn(q1, front, text, more);
    assert ItemTokens(front) + [InQuotes(text)] + more == [InQuotes(s.db), ".", InQuotes(text)] + more;
    RpThirdWrong(q1, s.db, text, more, s.rp);
  }

  /** A policy behind a database. */
  lemma FailsAtThird(s: Source, q1: string, q0: string, ts: Option<seq<string>>)
    requires s.Full? && s.db != s.rp && s.rp != "" && ReadAs(q1, [Name(s.db), Period], ts) && Misread(ts, s.rp, false)
    ensures !AllThree(q1, q0, s)
  {
    var front := [Name(s.db), Period];
    hide ReadAs, DatabaseFromInfluxQL, RetentionPolicyFromInfluxQL, MeasurementFromInfluxQL, Wrong, Third, InQuotes;
    if ts == None {
      GoesNowhere(q1, front);
      FailedIs(q1, q0, s);
    } else if ts == Some([]) {
      GoesNoFurther(q1, front);
      PolicyOfOne(q1, s.db);
    } else {
      var text, more :| ts == Some([InQuotes(text)] + more) && Wrong(text, s.rp);
      ThirdMisread(s, q1, text, more);
    }
  }

  lemma PolicyOfOne(q: string, db: string)
    requires ScanTokens(q, 0) == Some(Sel(ItemTokens([Name(db), Period])))
    ensures RetentionPolicyFromInfluxQL(q) == Answer("")
  {
    var rest := ItemTokens([Name(db), Period]);
    NotEmptySubquery("");
    hide ScanTokens, RetentionPolicyFromInfluxQL, ItemTokens, Sel, IsSubquery;
    if TokensOk(rest, |q|) {
      AtOne(db, |q|);
    }
    PolicyIs(q, rest, "");
  }

  /** What is found for a measurement when the tokens stop in front of it: a name in front, or a dot. */
  lemma StopsBefore(q: string, front: seq<Item>) returns (mm: string)
    requires InFront(front) && front != [] && ScanTokens(q, 0) == Some(Sel(ItemTokens(front)))
    ensures MeasurementFromInfluxQL(q) == Answer(mm)
    ensures mm == "." || exists i :: 0 <= i < |front| && front[i] == Name(mm)
  {
    var rest := ItemTokens(front);
    assert Extra(0) == [] && rest + [] == rest;
    NoneOpens(front, 0);
    mm := if |front| == 2 then front[0].name else if |front| == 3 then "." else front[2].name;
    assert |front| == 2 ==> front == [Name(mm), Period];
    assert |front| == 3 ==> front == [front[0], Period, Period];
    assert |front| == 4 ==> front == [front[0], Period, Name(mm), Period];
    hide ScanTokens, MeasurementFromInfluxQL, Sel, NoOpen, MeasurementAt, TokensOk, ItemTokens;
    if TokensOk(rest, |q|) {
      if |front| == 2 {
        AtOne(mm, |q|);
      } else if |front| == 3 {
        AtOneDotted(front[0].name, |q|);
      } else {
        AtTwo(front[0].name, mm, |q|);
      }
    }
    MeasurementIs(q, rest, mm);
  }

  /** A measurement, which is always the last name. */
  lemma FailsAtLast(s: Source, front: seq<Item>, q0: string, ts: Option<seq<string>>)
    requires InFront(front) && ClearItems(front) && BACKSLASH in s.m && ReadAs(q0, front, ts) && MisreadLast(ts, s.m)
    ensures MeasurementFromInfluxQL(q0) != Answer(s.m)
  {
    hide ReadAs, MeasurementFromInfluxQL, DatabaseFromInfluxQL, RetentionPolicyFromInfluxQL, InQuotes, Fewer, InFront,
      Unquoted;
    if ts == None {
      GoesNowhere(q0, front);
    } else if ts == Some([]) {
      GoesNoFurther(q0, front);
      if front != [] {
        var mm := StopsBefore(q0, front);
        assert mm != s.m;
      }
    } else {
      var text, more :| ts == Some([InQuotes(text)] + more) && text != s.m && Fewer(more, s.m);
      GoesOn(q0, front, text, more);
      LostBehind(s.m, q0, front, text, more);
    }
  }

  /** Where in a source a name stands. */
  lemma Places(s: Source, front: seq<Item>, x: string, back: seq<Item>)
    requires Items(s) == front + [Name(x)] + back
    ensures back == [] ==> x == s.m && InFront(front)
    ensures back != [] && front == [] ==> !s.Alone? && Items(s)[0] == Name(x)
    ensures back != [] && front != [] ==> s.Full? && front == [Name(s.db), Period] && x == s.rp
  {
    var k := |front|;
    assert Items(s)[k] == Name(x) && front == Items(s)[..k] && back == Items(s)[k + 1..];
  }

  lemma Different(s: Source, front: seq<Item>)
    requires s.Full? && front == [Name(s.db), Period] && ClearItems(front) && BACKSLASH in s.rp
    ensures s.db != s.rp
  {
    assert front[0] == Name(s.db);
  }

  /** In each place a misread name is reason enough. */
  lemma PlaceFails(s: Source, front: seq<Item>, x: string, back: seq<Item>, q1: string, q0: string,
                   ts1: Option<seq<string>>, ts0: Option<seq<string>>)
    requires Items(s) == front + [Name(x)] + back && ClearItems(front) && BACKSLASH in x
    requires back != [] ==> ReadAs(q1, front, ts1) && Misread(ts1, x, s.InPolicy?)
    requires back == [] ==> ReadAs(q0, front, ts0) && MisreadLast(ts0, x)
    ensures !AllThree(q1, q0, s)
  {
    Places(s, front, x, back);
    hide Items, ReadAs, Misread, MisreadLast, InFront, ClearItems, DatabaseFromInfluxQL, RetentionPolicyFromInfluxQL,
      MeasurementFromInfluxQL;
    if back == [] {
      FailsAtLast(s, front, q0, ts0);
    } else if front == [] {
      FailsAtFirst(s, x, q1, q0, ts1);
    } else {
      Different(s, front);
      MisreadLess(ts1, x, s.InPolicy?);
      FailsAtThird(s, q1, q0, ts1);
    }
  }

  lemma MisreadLess(ts: Option<seq<string>>, x: string, third: bool)
    requires Misread(ts, x, third)
    ensures Misread(ts, x, false)
  {
    hide Wrong, Third, InQuotes;
  }

  // ---------- reading a name with a backslash ----------

  /** Of the tokens behind a policy: a measurement with a dot behind it ends in a backslash. */
  predicate RestThird(ts: Option<seq<string>>) {
    ts.Some? ==>
      var more := ts.value;
      |more| >= 4 && more[0] == "." && more[2] == "." ==>
        TokenOk(more[1]) && Unquoted(more[1]) != "" && Last(Unquoted(more[1])) == BACKSLASH
  }

  lemma MisreadIs(text: string, more: seq<string>, x: string, third: bool)
    requires Wrong(text, x) && (third ==> Third(text, more))
    ensures Misread(Some([InQuotes(text)] + more), x, third)
  {
    hide Wrong, Third, InQuotes;
  }

  /** Behind a closed name with a backslash. */
  lemma ClosedMisread(x: string, b: Behind, third: bool)
    requires BACKSLASH in x && BehindOk(b) && (third ==> RestThird(Tokens(BehindText(b), 0)))
    ensures Misread(Tokens(Ident(x) + BehindText(b), 0), x, third)
  {
    EscapedIs(x);
    var s := Stream(x, b);
    assert Ident(x) + BehindText(b) == "\"" + s;
    hide EscapeIdentifier, Stream, Tokens;
    var r := ReadStream(s);
    if r.Reads? {
      ReadWrong(x, b, r.text, r.rest);
      var ts := Tokens(r.rest, 0);
      if ts.Some? {
        ThirdThen(r.text, r.rest, b, ts.value, third);
        MisreadIs(r.text, ts.value, x, third);
      }
    }
  }

  lemma ThirdThen(text: string, rest: string, b: Behind, more: seq<string>, third: bool)
    requires text != "" && Tokens(rest, 0) == Some(more)
    requires rest == BehindText(b) || Last(text) == BACKSLASH || Last(text) == '.'
    requires third ==> RestThird(Tokens(BehindText(b), 0))
    ensures third ==> Third(text, more)
  {
    NotEmptySubquery(text);
    hide IsSubquery, Tokens, Unquoted;
  }

  /** Behind the start of an unclosed one. */
  lemma OpenMisread(kept: string, x: string)
    requires kept <= x
    ensures Misread(Tokens("\"" + EscapeIdentifier(kept), 0), x, true)
    ensures MisreadLast(Tokens("\"" + EscapeIdentifier(kept), 0), x)
  {
    EscapedIs(kept);
    var s := EscapeIdentifier(kept);
    hide EscapeIdentifier, Tokens, Third, Wrong, Fewer;
    var r := ReadStream(s);
    if r.Reads? {
      ReadOpen(kept, x, r.text, r.rest);
      var ts := Tokens(r.rest, 0);
      if ts.Some? {
        NoThird(r.text, ts.value);
        WrongIs(r.text, x);
        FewerInTokens(x, r.rest, ts.value);
        MisreadIs(r.text, ts.value, x, true);
      }
    }
  }

  lemma WrongIs(text: string, x: string)
    requires Wrong(text, x)
    ensures text != x
  {
  }

  lemma NoThird(text: string, more: seq<string>)
    requires text != "" && Last(text) == BACKSLASH
    ensures Third(text, more)
  {
  }

  /** A measurement that ends the query. */
  lemma LastMisread(x: string)
    requires BACKSLASH in x
    ensures MisreadLast(Tokens(Ident(x), 0), x)
  {
    EscapedIs(x);
    var s := EscapeIdentifier(x) + "\"";
    assert Ident(x) == "\"" + s;
    hide EscapeIdentifier, Tokens, Fewer;
    var r := ReadStream(s);
    if r.Reads? {
      QuotingLonger(x);
      CountRest(x, r.text, r.rest);
      var ts := Tokens(r.rest, 0);
      if ts.Some? {
        MoreFewer(x, r.rest, ts.value);
      }
    }
  }

  // ---------- what stands behind a policy ----------

  lemma DotThen(r: string)
    requires
      var ts := Tokens(r, 0);
      ts.Some? && |ts.value| >= 3 && ts.value[1] == "." ==>
        TokenOk(ts.value[0]) && Unquoted(ts.value[0]) != "" && Last(Unquoted(ts.value[0])) == BACKSLASH
    ensures RestThird(Tokens("." + r, 0))
  {
    DotToken(r);
    hide Tokens, Unquoted, TokenOk;
  }

  /** A measurement of its own and closing parentheses. */
  lemma ThirdClosed(m: string, k: nat)
    ensures RestThird(Tokens("." + (Ident(m) + Closers(k)), 0))
  {
    ClosersToken(k);
    if BACKSLASH !in m {
      NameToken(m, Closers(k));
    } else {
      var b := NoMore(Closers(k));
      EscapedIs(m);
      var s := Stream(m, b);
      assert Ident(m) + Closers(k) == "\"" + s;
      hide EscapeIdentifier, Stream, Tokens, Closers;
      var r := ReadStream(s);
      if r.Reads? {
        ClosersBehind(k);
        ReadWrong(m, b, r.text, r.rest);
      }
    }
    hide Tokens, Closers;
    DotThen(Ident(m) + Closers(k));
  }

  lemma ClosersBehind(k: nat)
    ensures BehindOk(NoMore(Closers(k)))
  {
  }

  /** The start of one. */
  lemma ThirdOpen(kept: string)
    ensures RestThird(Tokens("." + ("\"" + EscapeIdentifier(kept)), 0))
  {
    EscapedIs(kept);
    var s := EscapeIdentifier(kept);
    hide EscapeIdentifier, Tokens;
    var r := ReadStream(s);
    if r.Reads? {
      ReadOpen(kept, kept, r.text, r.rest);
    }
    DotThen("\"" + s);
  }

  // ---------- the queries ----------

  lemma {:induction false} FirstDirty(items: seq<Item>) returns (front: seq<Item>, x: string, back: seq<Item>)
    requires !ClearItems(items)
    ensures items == front + [Name(x)] + back && ClearItems(front) && BACKSLASH in x
  {
    if items[0].Name? && BACKSLASH in items[0].name {
      front, x, back := [], items[0].name, items[1..];
    } else {
      front, x, back := FirstDirty(items[1..]);
      assert items == ([items[0]] + front) + [Name(x)] + back;
      front := [items[0]] + front;
    }
  }

  lemma FirstText(items: seq<Item>)
    requires items != []
    ensures ItemsText(items) == ItemText(items[0]) + ItemsText(items[1..])
  {
  }

  predicate QuoteComes(items: seq<Item>, t: string) {
    (t != "" && t[0] == '"') || exists i :: 0 <= i < |items| && items[i].Name?
  }

  lemma QuoteLater(items: seq<Item>, t: string)
    requires items != [] && items[0] == Period && QuoteComes(items, t)
    ensures QuoteComes(items[1..], t)
  {
    if !(t != "" && t[0] == '"') {
      var i :| 0 <= i < |items| && items[i].Name?;
      assert items[1..][i - 1].Name?;
    }
  }

  lemma OneDot(t: string) returns (b: Behind)
    requires t != "" && t[0] == '"'
    ensures BehindOk(b) && b.Another? && BehindText(b) == "." + t
  {
    b := Another(".", t[1..]);
    assert t == "\"" + t[1..];
  }

  lemma MoreDots(b: Behind) returns (c: Behind)
    requires BehindOk(b) && b.Another?
    ensures BehindOk(c) && c.Another? && BehindText(c) == "." + BehindText(b)
  {
    c := Another("." + b.dots, b.more);
  }

  /** Behind a name come dots and a quote, of another name or of what is left of one. */
  lemma {:induction false} DotsThen(items: seq<Item>, t: string) returns (b: Behind)
    requires items != [] && items[0] == Period && QuoteComes(items, t)
    ensures BehindOk(b) && b.Another? && BehindText(b) == ItemsText(items) + t
  {
    var more := items[1..];
    FirstText(items);
    QuoteLater(items, t);
    if more == [] || more[0].Name? {
      if more != [] {
        FirstText(more);
      }
      hide EscapeIdentifier;
      assert ItemsText(items) + t == "." + (ItemsText(more) + t);
      b := OneDot(ItemsText(more) + t);
    } else {
      hide ItemsText, QuoteComes, BehindText, BehindOk;
      b := DotsThen(more, t);
      b := MoreDots(b);
      assert ItemsText(items) + t == "." + (ItemsText(more) + t);
    }
  }

  lemma ThreeTexts(front: seq<Item>, x: string, back: seq<Item>, r: string)
    ensures ItemsText(front + [Name(x)] + back) + r == ItemsText(front) + (Ident(x) + (ItemsText(back) + r))
  {
    ItemsConcat(front + [Name(x)], back);
    ItemsConcat(front, [Name(x)]);
    ItemsOne(Name(x));
    hide ItemsText, Ident;
  }

  /** At the top of a query. */
  lemma ClosedReadAs(s: Source, front: seq<Item>, x: string, back: seq<Item>, k: nat)
    requires Items(s) == front + [Name(x)] + back && ClearItems(front)
    ensures ReadAs(SELECT + (Text(s) + Closers(k)), front, Tokens(Ident(x) + (ItemsText(back) + Closers(k)), 0))
  {
    var y := Text(s) + Closers(k);
    TextEnds(s);
    ThreeTexts(front, x, back, Closers(k));
    assert y[0] == '"' && y[|y| - 1] in "\")";
    hide Tokens, ScanTokens, ItemsText, Ident, Lead;
    SelectScan(y);
    ItemsTokens(front, Ident(x) + (ItemsText(back) + Closers(k)));
  }

  /** What stands behind a name in a source begins with a dot and ends in a name. */
  lemma BackIs(s: Source, front: seq<Item>, x: string, back: seq<Item>)
    requires Items(s) == front + [Name(x)] + back && back != []
    ensures back[0] == Period && back[|back| - 1].Name?
    ensures s.InPolicy? ==> back == [Period, Name(s.m)]
  {
    var k := |front|;
    assert Items(s)[k] == Name(x) && back == Items(s)[k + 1..];
  }

  lemma TwoTexts(m: string, r: string)
    ensures ItemsText([Period, Name(m)]) + r == "." + (Ident(m) + r)
  {
    FirstText([Period, Name(m)]);
    ItemsOne(Name(m));
    assert [Period, Name(m)][1..] == [Name(m)];
    hide ItemsText, Ident;
  }

  lemma ClosedFails(s: Source, front: seq<Item>, x: string, back: seq<Item>, k: nat)
    requires Items(s) == front + [Name(x)] + back && BACKSLASH in x && back != []
    ensures Misread(Tokens(Ident(x) + (ItemsText(back) + Closers(k)), 0), x, s.InPolicy?)
  {
    BackIs(s, front, x, back);
    assert QuoteComes(back, Closers(k));
    var b := DotsThen(back, Closers(k));
    if s.InPolicy? {
      ThirdClosed(s.m, k);
      TwoTexts(s.m, Closers(k));
    }
    hide *;
    ClosedMisread(x, b, s.InPolicy?);
  }

  lemma DirtyIs(s: Source)
    requires !Clear(s)
    ensures !ClearItems(Items(s))
  {
    var n := |Items(s)| - 1;
    assert Items(s)[n] == Name(s.m);
    assert Db(s) != "" ==> Items(s)[0] == Name(Db(s));
    assert Rp(s) != "" ==> Items(s)[n - 2] == Name(Rp(s));
  }

  /** With a backslash in one of its names a source is not all found at the top of a query. */
  lemma TopFails(s: Source, k: nat)
    requires !Clear(s)
    ensures !AllThree(SELECT + (Text(s) + Closers(k)), SELECT + (Text(s) + Closers(0)), s)
  {
    DirtyIs(s);
    var front, x, back := FirstDirty(Items(s));
    ClosedReadAs(s, front, x, back, k);
    ClosedReadAs(s, front, x, back, 0);
    var ts1 := Tokens(Ident(x) + (ItemsText(back) + Closers(k)), 0);
    var ts0 := Tokens(Ident(x) + (ItemsText(back) + Closers(0)), 0);
    if back == [] {
      assert Ident(x) + (ItemsText(back) + Closers(0)) == Ident(x);
      hide *;
      LastMisread(x);
      PlaceFails(s, front, x, back, SELECT + (Text(s) + Closers(k)), SELECT + (Text(s) + Closers(0)), ts1, ts0);
    } else {
      hide *;
      ClosedFails(s, front, x, back, k);
      PlaceFails(s, front, x, back, SELECT + (Text(s) + Closers(k)), SELECT + (Text(s) + Closers(0)), ts1, ts0);
    }
  }

  /** In a query that ends in an unclosed name, from a name in front of that. */
  lemma OpenReadAs(pre: seq<Item>, x: string, mid: seq<Item>, a: string) returns (kept: string)
    requires ClearItems(pre)
    ensures kept <= a
    ensures
      var front := pre + [Name(x)] + mid;
      ReadAs(SELECT + Open(front, a), pre,
             Tokens(Ident(x) + (ItemsText(mid) + ("\"" + EscapeIdentifier(kept))), 0))
  {
    var front := pre + [Name(x)] + mid;
    kept := OpenScanned(front, a);
    var t := "\"" + EscapeIdentifier(kept);
    ThreeTexts(pre, x, mid, t);
    assert Open(front, kept) == ItemsText(front) + t;
    hide Tokens, ScanTokens, ItemsText, Ident, Lead, EscapeIdentifier, Open;
    ItemsTokens(pre, Ident(x) + (ItemsText(mid) + t));
  }

  lemma MidFails(s: Source, pre: seq<Item>, x: string, mid: seq<Item>, back: seq<Item>, kept: string)
    requires Items(s) == pre + [Name(x)] + (mid + back) && BACKSLASH in x && mid != [] && back != []
    requires back[0].Name?
    ensures Misread(Tokens(Ident(x) + (ItemsText(mid) + ("\"" + EscapeIdentifier(kept))), 0), x, s.InPolicy?)
  {
    var t := "\"" + EscapeIdentifier(kept);
    BackIs(s, pre, x, mid + back);
    assert mid[0] == (mid + back)[0];
    var b := DotsThen(mid, t);
    if s.InPolicy? {
      assert |mid| == 1 && mid == [Period];
      OnePeriod(t);
      ThirdOpen(kept);
    }
    hide *;
    ClosedMisread(x, b, s.InPolicy?);
  }

  lemma OnePeriod(t: string)
    ensures ItemsText([Period]) + t == "." + t
  {
    ItemsOne(Period);
  }

  lemma OpenAt(front: seq<Item>, a: string, name: string)
    requires ClearItems(front) && a <= name
    ensures exists ts :: ReadAs(SELECT + Open(front, a), front, ts) && Misread(ts, name, true) && MisreadLast(ts, name)
  {
    var kept := OpenScanned(front, a);
    var t := "\"" + EscapeIdentifier(kept);
    assert Open(front, kept) == ItemsText(front) + t;
    OpenMisread(kept, name);
    hide Tokens, ScanTokens, ItemsText, Lead, EscapeIdentifier, Open, Misread, MisreadLast;
    ItemsTokens(front, t);
    assert ReadAs(SELECT + Open(front, a), front, Tokens(t, 0));
  }

  /** An unclosed name, with a backslash somewhere in it. */
  lemma NameFails(s: Source, front: seq<Item>, back: seq<Item>, a: string, b: string)
    requires Items(s) == front + [Name(a + ")" + b)] + back && ClearItems(front) && BACKSLASH in a + ")" + b
    ensures !AllThree(SELECT + Open(front, a + ")"), SELECT + Open(front, a), s)
  {
    var name := a + ")" + b;
    hide Open, ReadAs, Misread, MisreadLast, AllThree, ClearItems;
    OpenAt(front, a + ")", name);
    OpenAt(front, a, name);
    var ts1 :| ReadAs(SELECT + Open(front, a + ")"), front, ts1) && Misread(ts1, name, true);
    var ts0 :| ReadAs(SELECT + Open(front, a), front, ts0) && MisreadLast(ts0, name);
    if !s.InPolicy? {
      MisreadLess(ts1, name, true);
    }
    PlaceFails(s, front, name, back, SELECT + Open(front, a + ")"), SELECT + Open(front, a), ts1, ts0);
  }

  /** A name with a backslash in front of the unclosed one. */
  lemma FrontFails(s: Source, front: seq<Item>, back: seq<Item>, a: string, b: string)
    requires Items(s) == front + [Name(a + ")" + b)] + back && !ClearItems(front)
    ensures !AllThree(SELECT + Open(front, a + ")"), SELECT + Open(front, a), s)
  {
    var name := Name(a + ")" + b);
    var pre, x, mid := FirstDirty(front);
    var rest := [name] + back;
    assert Items(s) == pre + [Name(x)] + (mid + rest);
    MidNotEmpty(s, pre, x, mid, rest);
    hide Items, Open, Tokens, Misread, ReadAs, AllThree, ClearItems, ItemsText, Ident, EscapeIdentifier;
    var kept := OpenReadAs(pre, x, mid, a + ")");
    MidFails(s, pre, x, mid, rest, kept);
    PlaceFails(s, pre, x, mid + rest, SELECT + Open(front, a + ")"), SELECT + Open(front, a),
               Tokens(Ident(x) + (ItemsText(mid) + ("\"" + EscapeIdentifier(kept))), 0), None);
  }

  lemma MidNotEmpty(s: Source, pre: seq<Item>, x: string, mid: seq<Item>, rest: seq<Item>)
    requires Items(s) == pre + [Name(x)] + (mid + rest) && rest != [] && rest[0].Name?
    ensures mid != []
  {
    BackIs(s, pre, x, mid + rest);
  }

  /** Where a name closes too much the lookups never find all, whatever the names. */
  lemma OpenFails(s: Source, front: seq<Item>, back: seq<Item>, a: string, b: string)
    requires Items(s) == front + [Name(a + ")" + b)] + back
    requires Depth(ItemsText(front), 0) >= 0 && Depth(a, Depth(ItemsText(front), 0)) == 0
    ensures !AllThree(SELECT + Open(front, a) + ")", SELECT + Open(front, a), s)
  {
    OpenMore(front, a);
    hide Items, Open, Depth, ItemsText, AllThree;
    if !ClearItems(front) {
      FrontFails(s, front, back, a, b);
    } else if BACKSLASH in a + ")" + b {
      NameFails(s, front, back, a, b);
    } else {
      assert forall i | 0 <= i < |a| :: a[i] == (a + ")" + b)[i];
      NotAllIs(s, front, back, a, b);
    }
  }

  lemma NotAllIs(s: Source, front: seq<Item>, back: seq<Item>, a: string, b: string)
    requires Items(s) == front + [Name(a + ")" + b)] + back && ClearItems(front) && BACKSLASH !in a
    requires Depth(ItemsText(front), 0) >= 0 && Depth(a, Depth(ItemsText(front), 0)) == 0
    ensures !AllThree(SELECT + Open(front, a) + ")", SELECT + Open(front, a), s)
  {
    NotAll(s, front, back, a, b);
    hide DatabaseFromInfluxQL, RetentionPolicyFromInfluxQL, MeasurementFromInfluxQL;
  }

  // ---------- the theorems ----------

  lemma AllIs(q: string, s: Source)
    ensures FindsAll(q, s) <==> AllThree(q, q, s)
  {
    hide DatabaseFromInfluxQL, RetentionPolicyFromInfluxQL, MeasurementFromInfluxQL;
  }

  /**
   * At the top of a query the three lookups find what the source names exactly when none of its names has a backslash
   * and neither the database nor the policy looks like a subquery.
   */
  lemma TopExact(s: Source)
    ensures FindsAll(SELECT + Text(s), s) <==> Clear(s) && !IsSubquery(Db(s)) && !IsSubquery(Rp(s))
  {
    hide *;
    NoClosers(s);
    if Clear(s) {
      ClearTop(s, 0);
    } else {
      TopFails(s, 0);
      AllIs(SELECT + Text(s), s);
    }
  }

  lemma NoClosers(s: Source)
    ensures Text(s) + Closers(0) == Text(s) && Under(0, s) == SELECT + Text(s)
  {
    hide Text;
  }

  lemma SeenFails(q: string, last: string, closed: string, s: Source)
    requires Seen(q, last, closed) && !AllThree(closed, last, s)
    ensures !FindsAll(q, s)
  {
    hide DatabaseFromInfluxQL, RetentionPolicyFromInfluxQL, MeasurementFromInfluxQL;
  }

  lemma ThroughFails(n: nat, s: Source)
    requires n > 0 && !Clear(s) && Depth(Text(s), 0) == 0
    ensures !FindsAll(Under(n, s), s)
  {
    Through(n, s, 0);
    assert Under(0, s) == SELECT + Text(s);
    ClosersFew(Under(n, s));
    ClosersFew(Under(0, s));
    TopFails(s, 1);
    hide DatabaseFromInfluxQL, RetentionPolicyFromInfluxQL, MeasurementFromInfluxQL, Under, Text, Closers, Depth;
    Regroup(SELECT, Text(s), Closers(0));
    Regroup(SELECT, Text(s), Closers(1));
  }

  lemma NestedFails(n: nat, s: Source)
    requires n > 0 && (!Clear(s) || Depth(Text(s), 0) != 0)
    ensures !FindsAll(Under(n, s), s)
  {
    hide Under, Text, Depth, Clear, FindsAll, Open, ItemsText;
    if Depth(Text(s), 0) == 0 {
      ThroughFails(n, s);
    } else if Depth(Text(s), 0) > 0 {
      LeftOpen(n, s);
      FailedIs(Under(n, s), Under(n, s), s);
      AllIs(Under(n, s), s);
    } else {
      var front, back, a, b := ClosedEarly(n, s);
      OpenFails(s, front, back, a, b);
      SeenFails(Under(n, s), SELECT + Open(front, a), SELECT + Open(front, a) + ")", s);
    }
  }

  /**
   * All three lookups find what the innermost source names, its database, its retention policy and its measurement, and
   * nothing where it names none, exactly when none of the names has a backslash, neither the database nor the policy
   * looks like a subquery itself and, under subqueries, the parentheses of the names balance.
   */
  lemma AllFound(n: nat, s: Source)
    ensures FindsAll(Under(n, s), s)
      <==> Clear(s) && (n == 0 || Even(s)) && !IsSubquery(Db(s)) && !IsSubquery(Rp(s))
  {
    EvenIs(s);
    if n == 0 {
      hide *;
      TopExact(s);
      NoClosers(s);
    } else if Clear(s) && Depth(Text(s), 0) == 0 {
      hide FindsAll, IsSubquery, Under, Text, Depth;
      ThroughFinds(n, s);
    } else {
      hide FindsAll, IsSubquery, Under, Text, Depth;
      NestedFails(n, s);
    }
  }
}
