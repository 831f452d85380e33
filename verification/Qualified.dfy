/**
 * What the three lookups of backend/influxql.go find in a query over a measurement that is named with or without its
 * database and retention policy, under any number of subqueries.
 */
module Qualified {
  import opened Prelude
  import opened Escape
  import opened Quote
  import opened InfluxQL
  import opened Subquery

  /** The four ways to name a measurement. */
  datatype Source =
    | Alone(m: string) | InPolicy(rp: string, m: string) | InDatabase(db: string, m: string)
    | Full(db: string, rp: string, m: string)

  /** What a source is written as: names in double quotes and dots. */
  datatype Item = Name(name: string) | Period

  function Items(s: Source): seq<Item> {
    match s
    case Alone(m) => [Name(m)]
    case InPolicy(rp, m) => [Name(rp), Period, Name(m)]
    case InDatabase(db, m) => [Name(db), Period, Period, Name(m)]
    case Full(db, rp, m) => [Name(db), Period, Name(rp), Period, Name(m)]
  }

  function ItemText(i: Item): string { if i.Name? then Ident(i.name) else "." }

  function ItemsText(items: seq<Item>): string {
    if items == [] then "" else ItemText(items[0]) + ItemsText(items[1..])
  }

  function Text(s: Source): string { ItemsText(Items(s)) }

  function InQuotes(m: string): (t: string)
    ensures TokenOk(t) && Unquoted(t) == m && t[0] == '"'
  {
    "\"" + m + "\""
  }

  function ItemToken(i: Item): string { if i.Name? then InQuotes(i.name) else "." }

  function ItemTokens(items: seq<Item>): (ts: seq<string>)
    ensures |ts| == |items| && forall i | 0 <= i < |items| :: ts[i] == ItemToken(items[i])
  {
    if items == [] then [] else [ItemToken(items[0])] + ItemTokens(items[1..])
  }

  predicate ClearItems(items: seq<Item>) {
    forall i | 0 <= i < |items| && items[i].Name? :: BACKSLASH !in items[i].name
  }

  /** The database and the policy named, or none. */
  function Db(s: Source): string { if s.Full? || s.InDatabase? then s.db else "" }

  function Rp(s: Source): string { if s.Full? || s.InPolicy? then s.rp else "" }

  predicate Clear(s: Source) { BACKSLASH !in s.m && BACKSLASH !in Db(s) && BACKSLASH !in Rp(s) }

  lemma ClearIs(s: Source)
    requires Clear(s)
    ensures ClearItems(Items(s))
  {
  }

  // ---------- tokens ----------

  lemma NameToken(m: string, rest: string)
    requires BACKSLASH !in m
    ensures Tokens(Ident(m) + rest, 0) == Prefixed([InQuotes(m)], Tokens(rest, 0))
  {
    NameTokenAt(m, rest);
    hide TokenAt, Quoting, Ident, InQuotes;
    FirstToken(Ident(m), rest, InQuotes(m));
  }

  lemma NameTokenAt(m: string, rest: string)
    requires BACKSLASH !in m
    ensures Ident(m) != "" && Ident(m)[0] == '"' && TokenAt(Ident(m) + rest) == Token(|Ident(m)|, InQuotes(m))
  {
    NameRead(m, rest);
    hide FindEndWithQuote, EscapeIdentifier;
    assert (Ident(m) + rest)[0] == '"';
  }

  lemma NameRead(m: string, rest: string)
    requires BACKSLASH !in m
    ensures FindEndWithQuote(Ident(m) + rest, '"') == Quoted(|Ident(m)|, InQuotes(m), None)
  {
    var body := Quoting('"', m);
    QuotingNoBackslash(m);
    ScanQuoting('"', m, rest);
    ReadFrom("\"" + body + "\"" + rest, body + ['"'] + rest, |body| + 1, m + ['"']);
    assert ['"'] + (m + ['"']) == InQuotes(m);
  }

  lemma ReadFrom(x: string, s: string, n: nat, text: string)
    requires x != "" && x[0] == '"' && x[1..] == s && Scan(s, '"') == Quoted(n, text, None)
    ensures FindEndWithQuote(x, '"') == Quoted(1 + n, ['"'] + text, None)
  {
    hide Scan;
  }

  lemma FirstToken(x: string, rest: string, text: string)
    requires x != "" && x[0] != ' ' && TokenAt(x + rest) == Token(|x|, text)
    ensures Tokens(x + rest, 0) == Prefixed([text], Tokens(rest, 0))
  {
    hide TokenAt;
    var s := x + rest;
    assert Spaces(s) == 0 && s[0..] == s && s[|x|..] == rest;
  }

  lemma DotToken(rest: string)
    ensures Tokens("." + rest, 0) == Prefixed(["."], Tokens(rest, 0))
  {
    var x := "." + rest;
    assert x[0] == '.' && x[..1] == ".";
    assert TokenAt(x) == Token(1, ".");
    hide TokenAt, Tokens;
    FirstToken(".", rest, ".");
  }

  /** The closing parentheses that the database and policy lookups leave behind an inner query. */
  function Closers(k: nat): (c: string)
    ensures |c| == k && forall i | 0 <= i < k :: c[i] == ')'
  {
    seq(k, i => ')')
  }

  function Extra(k: nat): seq<string> { if k == 0 then [] else [Closers(k)] }

  lemma ClosersToken(k: nat)
    ensures Tokens(Closers(k), 0) == Some(Extra(k))
  {
    TokensNothing();
    if k > 0 {
      assert Closers(k) + "" == Closers(k);
      WordToken(Closers(k), "");
      PrefixedTwice([Closers(k)], [], Some([]));
    }
  }

  lemma ItemThen(i: Item, rest: string)
    requires ClearItems([i])
    ensures Tokens(ItemText(i) + rest, 0) == Prefixed([ItemToken(i)], Tokens(rest, 0))
  {
    assert i == [i][0];
    hide Tokens, Ident, InQuotes;
    if i.Name? {
      NameToken(i.name, rest);
    } else {
      DotToken(rest);
    }
  }

  /** Every item is one token, whatever comes behind them. */
  lemma {:induction false} ItemsTokens(items: seq<Item>, rest: string)
    requires ClearItems(items)
    ensures Tokens(ItemsText(items) + rest, 0) == Prefixed(ItemTokens(items), Tokens(rest, 0))
  {
    hide Tokens, ItemText, ItemToken;
    if items == [] {
      assert "" + rest == rest;
      PrefixedTwice([], [], Tokens(rest, 0));
    } else {
      var front, more := ItemText(items[0]), ItemsText(items[1..]);
      Regroup(front, more, rest);
      ItemThen(items[0], more + rest);
      ItemsTokens(items[1..], rest);
      PrefixedTwice([ItemToken(items[0])], ItemTokens(items[1..]), Tokens(rest, 0));
    }
  }

  /** The tokens of a select. */
  function Sel(rest: seq<string>): seq<string> { ["select", "*", "from"] + rest }

  /** The tokens of a select, if those behind its words can be read. */
  function Lead(r: Option<seq<string>>): Option<seq<string>> { if r.Some? then Some(Sel(r.value)) else None }

  /** A select from x, with the words in front of it. */
  lemma SelectScan(x: string)
    requires x != "" && x[0] != ' ' && x[|x| - 1] in "\")"
    ensures ScanTokens(SELECT + x, 0) == Lead(Tokens(x, 0))
  {
    TrimmedSelect(x);
    SelectTokens(x);
    hide *;
    ScanTokensIs(SELECT + x);
    LeadIs(Tokens(x, 0));
  }

  lemma LeadIs(r: Option<seq<string>>)
    ensures Prefixed(["select", "*", "from"], r) == Lead(r)
  {
  }

  lemma PrefixedSome(a: seq<string>, b: seq<string>)
    ensures Prefixed(a, Some(b)) == Some(a + b)
  {
  }

  lemma {:induction false} ItemsEnd(items: seq<Item>)
    requires items != [] && items[|items| - 1].Name?
    ensures |ItemsText(items)| >= 2 && ItemsText(items)[|ItemsText(items)| - 1] == '"'
    ensures ItemsText(items)[0] in "\"."
  {
    hide EscapeIdentifier;
    if |items| > 1 {
      ItemsEnd(items[1..]);
    } else {
      assert ItemsText(items[1..]) == "";
    }
  }

  lemma TextEnds(s: Source)
    ensures |Text(s)| >= 2 && Text(s)[0] == '"' && Text(s)[|Text(s)| - 1] == '"'
  {
    ItemsEnd(Items(s));
    hide EscapeIdentifier;
    assert Text(s)[0] == ItemText(Items(s)[0])[0];
  }

  lemma SourceScan(s: Source, k: nat)
    requires Clear(s)
    ensures ScanTokens(SELECT + (Text(s) + Closers(k)), 0) == Some(Sel(ItemTokens(Items(s)) + Extra(k)))
  {
    var x := Text(s) + Closers(k);
    TextEnds(s);
    ClearIs(s);
    ItemsTokens(Items(s), Closers(k));
    ClosersToken(k);
    PrefixedSome(ItemTokens(Items(s)), Extra(k));
    hide Tokens, ScanTokens, Items, ItemsText, Extra;
    assert x[0] == '"' && x[|x| - 1] in "\")";
    SelectScan(x);
  }

  // ---------- lookups ----------

  /** The keyword of a select is its third token, whichever lookup is made. */
  lemma Keywords(rest: seq<string>)
    requires rest != []
    ensures
      var all := Sel(rest);
      && FindKeyword(all, MMWORDS) == Some(2)
      && FindKeyword(all, DBWORDS) == Some(2)
      && FindKeyword(all, RPWORDS) == Some(2)
      && all[3..] == rest && ToLower(all[2]) == INTO
  {
    LowerWords();
    hide ToLower, FindKeyword;
    var all := Sel(rest);
    KeywordIn(all);
    assert "from" in DBWORDS && "select" !in DBWORDS && "*" !in DBWORDS;
    ThirdKeyword(all, DBWORDS);
    ThirdKeyword(all, RPWORDS);
  }

  lemma RestOk(q: string, rest: seq<string>)
    requires ScanTokens(q, 0) == Some(Sel(rest))
    ensures TokensOk(Sel(rest), |q|) && TokensOk(rest, |q|)
  {
    hide ScanTokens;
    var all := Sel(rest);
    assert TokensOk(all, |q|);
    assert forall i | 0 <= i < |rest| :: rest[i] == all[3 + i];
  }

  lemma DatabaseAfter(q: string, ts: seq<string>, db: string)
    requires ScanTokens(q, 0) == Some(ts) && FindKeyword(ts, DBWORDS) == Some(2) && ToLower(ts[2]) == INTO
    requires TokensOk(ts, |q|) && TokensOk(ts[3..], |q|) && DatabaseAt(ts[3..], INTO, |q|) == db
    ensures DatabaseFromInfluxQL(q) == if IsSubquery(db) then DatabaseFromInfluxQL(db[1..]) else Answer(db)
  {
    hide ScanTokens, FindKeyword, DatabaseAt, IsSubquery, TokensOk, ToLower;
  }

  lemma PolicyAfter(q: string, ts: seq<string>, rp: string)
    requires ScanTokens(q, 0) == Some(ts) && FindKeyword(ts, RPWORDS) == Some(2)
    requires TokensOk(ts, |q|) && TokensOk(ts[3..], |q|) && RetentionPolicyAt(ts[3..], |q|) == rp
    ensures
      RetentionPolicyFromInfluxQL(q) == if IsSubquery(rp) then RetentionPolicyFromInfluxQL(rp[1..]) else Answer(rp)
  {
    hide ScanTokens, FindKeyword, RetentionPolicyAt, IsSubquery, TokensOk, ToLower;
  }

  lemma DatabaseIs(q: string, rest: seq<string>, db: string)
    requires rest != [] && ScanTokens(q, 0) == Some(Sel(rest))
    requires TokensOk(rest, |q|) ==> DatabaseAt(rest, INTO, |q|) == db
    ensures DatabaseFromInfluxQL(q) == if IsSubquery(db) then DatabaseFromInfluxQL(db[1..]) else Answer(db)
  {
    hide *;
    RestOk(q, rest);
    Keywords(rest);
    DatabaseAfter(q, Sel(rest), db);
  }

  lemma PolicyIs(q: string, rest: seq<string>, rp: string)
    requires rest != [] && ScanTokens(q, 0) == Some(Sel(rest))
    requires TokensOk(rest, |q|) ==> RetentionPolicyAt(rest, |q|) == rp
    ensures
      RetentionPolicyFromInfluxQL(q) == if IsSubquery(rp) then RetentionPolicyFromInfluxQL(rp[1..]) else Answer(rp)
  {
    hide *;
    RestOk(q, rest);
    Keywords(rest);
    PolicyAfter(q, Sel(rest), rp);
  }

  predicate NoOpen(ts: seq<string>) { forall i | 0 <= i < |ts| :: ts[i] != "" && ts[i][0] != '(' }

  lemma MeasurementIs(q: string, rest: seq<string>, m: string)
    requires rest != [] && ScanTokens(q, 0) == Some(Sel(rest))
    requires TokensOk(rest, |q|) ==> MeasurementAt(rest, |q|) == Answer(m)
    requires NoOpen(rest)
    ensures MeasurementFromInfluxQL(q) == Answer(m)
  {
    hide *;
    NoneIs(rest, m);
    RestOk(q, rest);
    Keywords(rest);
    LookupIs(q, Sel(rest), m);
  }

  lemma LookupIs(q: string, ts: seq<string>, mm: string)
    requires ScanTokens(q, 0) == Some(ts) && FindKeyword(ts, MMWORDS) == Some(2)
    requires TokensOk(ts, |q|) && TokensOk(ts[3..], |q|) && MeasurementAt(ts[3..], |q|) == Answer(mm)
    ensures
      MeasurementFromInfluxQL(q)
      == if IsSubquery(mm) && mm in ts then MeasurementFromInfluxQL(mm[1..|mm| - 1]) else Answer(mm)
  {
    hide ScanTokens, FindKeyword, MeasurementAt, IsSubquery, TokensOk;
  }

  lemma NoKeyword()
    ensures FindKeyword(Sel([]), MMWORDS) == None
    ensures FindKeyword(Sel([]), DBWORDS) == None
    ensures FindKeyword(Sel([]), RPWORDS) == None
  {
    LowerWords();
    hide ToLower;
    var a, b, c := Sel([]), ["*", "from"], ["from"];
    assert a == ["select", "*", "from"] && a[1..] == b && b[1..] == c;
    assert "select" !in DBWORDS && "*" !in DBWORDS;
  }

  /** The lookups all fail the same way. */
  predicate AllFail(q: string) {
    && DatabaseFromInfluxQL(q) == RetentionPolicyFromInfluxQL(q) == MeasurementFromInfluxQL(q)
    && (MeasurementFromInfluxQL(q) == Illegal || MeasurementFromInfluxQL(q) == Crashed)
  }

  /** With nothing read behind the words of a select they are illegal; an index out of range ends them all. */
  lemma NoSource(q: string)
    requires ScanTokens(q, 0) == Some(Sel([])) || ScanTokens(q, 0) == None
    ensures AllFail(q) && (ScanTokens(q, 0).Some? ==> MeasurementFromInfluxQL(q) == Illegal)
  {
    NoKeyword();
    hide ScanTokens, FindKeyword, Sel;
    if ScanTokens(q, 0) == None {
      assert MeasurementFromInfluxQL(q) == DatabaseFromInfluxQL(q) == RetentionPolicyFromInfluxQL(q) == Crashed;
    } else {
      assert MeasurementFromInfluxQL(q) == DatabaseFromInfluxQL(q) == RetentionPolicyFromInfluxQL(q) == Illegal;
    }
  }

  lemma NoneIs(rest: seq<string>, m: string)
    requires NoOpen(rest)
    ensures IsSubquery(m) ==> m !in Sel(rest)
  {
    hide ToLower, TrimLeft;
  }

  /** What stands where in the names, with or without closing parentheses behind them. */
  lemma AtNames(s: Source, k: nat, size: nat)
    requires TokensOk(ItemTokens(Items(s)) + Extra(k), size)
    ensures DatabaseAt(ItemTokens(Items(s)) + Extra(k), INTO, size) == Db(s)
    ensures RetentionPolicyAt(ItemTokens(Items(s)) + Extra(k), size) == Rp(s)
    ensures MeasurementAt(ItemTokens(Items(s)) + Extra(k), size) == Answer(s.m)
  {
    var names := ItemTokens(Items(s));
    var ts := names + Extra(k);
    hide InQuotes, Unquoted, ItemTokens;
    assert forall i | 0 <= i < |names| :: ts[i] == names[i] == ItemToken(Items(s)[i]);
    assert |ts| > |names| ==> ts[|names|][0] == ')';
  }

  lemma NoneOpens(items: seq<Item>, k: nat)
    ensures NoOpen(ItemTokens(items) + Extra(k))
  {
    hide InQuotes;
  }

  /** At the top of a query, with closing parentheses left behind it or not. */
  lemma AtTop(s: Source, k: nat)
    requires Clear(s)
    ensures
      var q := SELECT + (Text(s) + Closers(k));
      && DatabaseFromInfluxQL(q) == (if IsSubquery(Db(s)) then DatabaseFromInfluxQL(Db(s)[1..]) else Answer(Db(s)))
      && RetentionPolicyFromInfluxQL(q)
         == (if IsSubquery(Rp(s)) then RetentionPolicyFromInfluxQL(Rp(s)[1..]) else Answer(Rp(s)))
      && MeasurementFromInfluxQL(q) == Answer(s.m)
  {
    var q, rest := SELECT + (Text(s) + Closers(k)), ItemTokens(Items(s)) + Extra(k);
    SourceScan(s, k);
    NoneOpens(Items(s), k);
    assert rest != [];
    hide *;
    if TokensOk(rest, |q|) {
      AtNames(s, k, |q|);
    }
    DatabaseIs(q, rest, Db(s));
    PolicyIs(q, rest, Rp(s));
    MeasurementIs(q, rest, s.m);
  }

  // ---------- names that look like a subquery ----------

  /** What is looked up is never longer than the query. */
  lemma {:induction false} DatabaseFits(q: string)
    ensures DatabaseFromInfluxQL(q).Answer? ==> |DatabaseFromInfluxQL(q).text| <= |q|
    decreases |q|
  {
    hide ScanTokens, FindKeyword, DatabaseAt, TokensOk;
    match ScanTokens(q, 0) {
      case None =>
      case Some(ts) =>
        match FindKeyword(ts, DBWORDS) {
          case None =>
          case Some(i) =>
            RestFits(ts, i + 1, |q|);
            var db := DatabaseAt(ts[i + 1..], ToLower(ts[i]), |q|);
            if IsSubquery(db) {
              DatabaseFits(db[1..]);
            }
        }
    }
  }

  lemma {:induction false} PolicyFits(q: string)
    ensures RetentionPolicyFromInfluxQL(q).Answer? ==> |RetentionPolicyFromInfluxQL(q).text| <= |q|
    decreases |q|
  {
    hide ScanTokens, FindKeyword, RetentionPolicyAt, TokensOk;
    match ScanTokens(q, 0) {
      case None =>
      case Some(ts) =>
        match FindKeyword(ts, RPWORDS) {
          case None =>
          case Some(i) =>
            RestFits(ts, i + 1, |q|);
            var rp := RetentionPolicyAt(ts[i + 1..], |q|);
            if IsSubquery(rp) {
              PolicyFits(rp[1..]);
            }
        }
    }
  }

  lemma RestFits(ts: seq<string>, i: nat, size: nat)
    requires i <= |ts| && TokensOk(ts, size)
    ensures TokensOk(ts[i..], size)
  {
  }

  /** So the name of a database or policy that looks like a subquery is never the one found. */
  lemma Itself(name: string)
    requires IsSubquery(name)
    ensures DatabaseFromInfluxQL(name[1..]) != Answer(name) && RetentionPolicyFromInfluxQL(name[1..]) != Answer(name)
  {
    DatabaseFits(name[1..]);
    PolicyFits(name[1..]);
  }

  /** All three lookups find what the source names. */
  predicate FindsAll(q: string, s: Source) {
    && DatabaseFromInfluxQL(q) == Answer(Db(s))
    && RetentionPolicyFromInfluxQL(q) == Answer(Rp(s))
    && MeasurementFromInfluxQL(q) == Answer(s.m)
  }

  lemma FindsIs(q: string, s: Source)
    requires MeasurementFromInfluxQL(q) == Answer(s.m)
    requires DatabaseFromInfluxQL(q) == if IsSubquery(Db(s)) then DatabaseFromInfluxQL(Db(s)[1..]) else Answer(Db(s))
    requires RetentionPolicyFromInfluxQL(q)
      == if IsSubquery(Rp(s)) then RetentionPolicyFromInfluxQL(Rp(s)[1..]) else Answer(Rp(s))
    ensures FindsAll(q, s) <==> !IsSubquery(Db(s)) && !IsSubquery(Rp(s))
  {
    hide DatabaseFromInfluxQL, RetentionPolicyFromInfluxQL, MeasurementFromInfluxQL, IsSubquery;
    if IsSubquery(Db(s)) {
      Itself(Db(s));
    }
    if IsSubquery(Rp(s)) {
      Itself(Rp(s));
    }
  }

  lemma ClearTop(s: Source, k: nat)
    requires Clear(s)
    ensures FindsAll(SELECT + (Text(s) + Closers(k)), s) <==> !IsSubquery(Db(s)) && !IsSubquery(Rp(s))
  {
    hide *;
    AtTop(s, k);
    FindsIs(SELECT + (Text(s) + Closers(k)), s);
  }
}
