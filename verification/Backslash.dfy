/** A measurement with a backslash in its name: what an InfluxQL select written for it is found to be about. */
module Backslash {
  import opened Prelude
  import opened Escape
  import opened Quote
  import opened InfluxQL
  import opened Subquery
  import opened Qualified

  // ---------- counting quotes ----------

  function Quotes(s: string): nat {
    if s == "" then 0 else (if s[0] == '"' then 1 else 0) + Quotes(s[1..])
  }

  lemma {:induction false} QuotesConcat(a: string, b: string)
    ensures Quotes(a + b) == Quotes(a) + Quotes(b)
  {
    if a == "" {
      assert a + b == b;
    } else {
      assert (a + b)[1..] == a[1..] + b;
      QuotesConcat(a[1..], b);
    }
  }

  lemma QuotesSplit(s: string, n: nat)
    requires n <= |s|
    ensures Quotes(s) == Quotes(s[..n]) + Quotes(s[n..])
  {
    assert s == s[..n] + s[n..];
    QuotesConcat(s[..n], s[n..]);
  }

  lemma QuotesPart(s: string, i: nat, j: nat)
    requires i <= j <= |s|
    ensures Quotes(s[i..j]) <= Quotes(s)
  {
    QuotesSplit(s, j);
    QuotesSplit(s[..j], i);
    assert s[..j][i..] == s[i..j];
  }

  lemma {:induction false} QuotesEscaped(cs: string, s: string)
    ensures Quotes(EscapeBy(cs, s)) == Quotes(s)
  {
    if s != "" {
      var t := EscapeBy(cs, s[1..]);
      QuotesEscaped(cs, s[1..]);
      if s[0] in cs {
        assert ([BACKSLASH, s[0]] + t)[1..] == [s[0]] + t && ([s[0]] + t)[1..] == t;
      } else {
        assert ([s[0]] + t)[1..] == t;
      }
    }
  }

  /** A part that stops before a final quote has one less. */
  lemma QuotesShort(s: string, n: nat)
    requires s != "" && s[|s| - 1] == '"' && n < |s|
    ensures Quotes(s[..n]) < Quotes(s)
  {
    var k := |s| - 1;
    QuotesSplit(s, k);
    assert s[k..] == "\"" && "\""[1..] == "";
    QuotesPart(s[..k], 0, n);
    assert s[..k][0..n] == s[..n];
  }

  // ---------- tokens have no more quotes than they were read from ----------

  /** One character read, from one or two of the text. */
  lemma BeforeQuotes(s: string, k: nat, t: Quoted)
    requires 1 <= k <= 2 && k <= |s| && t.Quoted? && t.used <= |s| - k && Quotes(t.text) <= Quotes(s[k..][..t.used])
    ensures Quotes(Before(s[k - 1], k, t).text) <= Quotes(s[..k + t.used])
  {
    var u := s[..k + t.used];
    assert u[k..] == s[k..][..t.used];
    QuotesSplit(u, k);
    QuotesConcat([s[k - 1]], t.text);
    assert [s[k - 1]][1..] == [];
    assert u[..k][k - 1..] == [s[k - 1]];
    QuotesSplit(u[..k], k - 1);
  }

  lemma {:induction false} ScanQuotes(s: string, q: char)
    ensures Scan(s, q).Quoted? ==> Quotes(Scan(s, q).text) <= Quotes(s[..Scan(s, q).used])
    ensures Scan(s, q).Quoted? && Scan(s, q).err.None? ==>
      Scan(s, q).used > 0 && s[Scan(s, q).used - 1] == q && Scan(s, q).text[|Scan(s, q).text| - 1] == q
    decreases |s|
  {
    if s == "" || Scan(s, q).Panic? {
    } else if s[0] == q {
      assert s[..1] == [q];
    } else if s[0] == BACKSLASH {
      if s[1] == q || s[1] == BACKSLASH {
        ScanQuotes(s[2..], q);
        hide Quotes;
        BeforeQuotes(s, 2, Scan(s[2..], q));
      }
    } else {
      ScanQuotes(s[1..], q);
      hide Quotes;
      BeforeQuotes(s, 1, Scan(s[1..], q));
    }
  }

  lemma EndQuotes(t: string, q: char)
    requires t != ""
    ensures
      var r := FindEndWithQuote(t, q);
      r.Quoted? && r.err.None? ==>
        && Quotes(r.text) <= Quotes(t[..r.used]) && t[r.used - 1] == q
        && r.text[0] == t[0] && r.text[|r.text| - 1] == q
  {
    ScanQuotes(t[1..], q);
    var r := FindEndWithQuote(t, q);
    if r.Quoted? {
      assert r.text[1..] == Scan(t[1..], q).text;
      assert t[..r.used][1..] == t[1..][..r.used - 1];
    }
  }

  lemma UnquotedQuotes(t: string)
    requires TokenOk(t)
    ensures Quotes(Unquoted(t)) <= Quotes(t)
    ensures t[0] == '"' && t[|t| - 1] == '"' ==> Quotes(Unquoted(t)) + 2 == Quotes(t)
  {
    if t[0] == '"' || t[0] == '\'' {
      var n: nat := |t| - 1;
      QuotesSplit(t, n);
      QuotesSplit(t[..n], 1);
      assert t[..n][1..] == t[1..n] && t[n..][1..] == "" && t[..n][..1] == [t[0]] && [t[0]][1..] == "";
    }
  }

  /** A token that is not in quotes is a part of the text, and stops before a final quote. */
  lemma PlainToken(t: string)
    requires t != "" && t[0] != ' ' && t[0] != '"' && t[0] != '\'' && TokenAt(t).Token?
    ensures
      var r := TokenAt(t);
      r.text == t[..r.advance] && Unquoted(r.text) == r.text && (t[|t| - 1] == '"' ==> r.advance < |t|)
  {
    CloseLast(t, 0);
    hide Close;
  }

  lemma {:induction false} CloseLast(s: string, b: int)
    ensures Close(s, b).Some? && (b > 0 || (b == 0 && s[0] == '(')) ==> s[Close(s, b).value - 1] == ')'
    decreases |s|
  {
    if s != "" {
      var c := if s[0] == '(' then b + 1 else if s[0] == ')' then b - 1 else b;
      if c != 0 {
        CloseLast(s[1..], c);
      }
    }
  }

  lemma QuotedToken(t: string)
    requires t != "" && (t[0] == '"' || t[0] == '\'') && TokenAt(t).Token?
    ensures
      var r := TokenAt(t);
      && Quotes(r.text) <= Quotes(t[..r.advance]) && t[r.advance - 1] == t[0]
      && r.text[0] == t[0] && r.text[|r.text| - 1] == t[0]
  {
    EndQuotes(t, t[0]);
    hide FindEndWithQuote, Quotes;
  }

  lemma TokenIn(t: string)
    requires t != "" && t[0] != ' ' && TokenAt(t).Token?
    ensures
      var r := TokenAt(t);
      && TokenOk(r.text) && 0 < r.advance <= |t| && Quotes(r.text) <= Quotes(t[..r.advance])
      && (t[|t| - 1] == '"' ==> r.advance < |t| || (r.text[0] == '"' && r.text[|r.text| - 1] == '"'))
  {
    hide Quotes;
    if t[0] == '"' || t[0] == '\'' {
      QuotedToken(t);
    } else {
      PlainToken(t);
    }
  }

  lemma TokenQuotes(t: string)
    requires t != "" && t[0] != ' '
    ensures TokenAt(t).Token? ==> Quotes(TokenAt(t).text) <= Quotes(t[..TokenAt(t).advance])
    ensures TokenAt(t).Token? && t[|t| - 1] == '"' ==> Quotes(Unquoted(TokenAt(t).text)) < Quotes(t)
  {
    hide *;
    if TokenAt(t).Token? {
      var n, text := TokenAt(t).advance, TokenAt(t).text;
      TokenIn(t);
      UnquotedQuotes(text);
      QuotesSplit(t, n);
      if t[|t| - 1] == '"' && n < |t| {
        QuotesShort(t, n);
      }
    }
  }

  /** The first token of a text and what is left. */
  lemma FirstScanned(s: string) returns (adv: nat, text: string, more: seq<string>)
    requires Tokens(s, 0).Some? && Tokens(s, 0).value != []
    ensures ScanToken(s) == Token(adv, text) && 0 < adv <= |s|
    ensures Tokens(s[adv..], 0) == Some(more) && Tokens(s, 0).value == [text] + more
  {
    hide ScanToken;
    adv, text := ScanToken(s).advance, ScanToken(s).text;
    more := Tokens(s[adv..], 0).value;
  }

  lemma ScannedAt(s: string) returns (k: nat, n: nat, text: string)
    requires ScanToken(s).Token?
    ensures k + n == ScanToken(s).advance <= |s| && n > 0 && s[k..] != "" && s[k] != ' '
    ensures TokenAt(s[k..]) == Token(n, text) && text == ScanToken(s).text
  {
    k := Spaces(s);
    hide TokenAt;
    n, text := TokenAt(s[k..]).advance, TokenAt(s[k..]).text;
  }

  /** All tokens together have no more quotes than the text, and each, unquoted, fewer than a text that ends in one. */
  lemma {:induction false} TokensQuotes(s: string)
    requires Tokens(s, 0).Some?
    ensures Quotes(Concat(Tokens(s, 0).value)) <= Quotes(s)
    ensures s != "" && s[|s| - 1] == '"' ==>
      forall i | 0 <= i < |Tokens(s, 0).value| :: Quotes(Unquoted(Tokens(s, 0).value[i])) < Quotes(s)
    decreases |s|
  {
    hide Tokens, TokenAt, Unquoted, ScanToken;
    var ts := Tokens(s, 0).value;
    if ts == [] {
      assert Quotes(Concat([])) == 0;
    } else {
      var adv, text, more := FirstScanned(s);
      var k, n, _ := ScannedAt(s);
      var t, rest := s[k..], s[adv..];
      assert t[n..] == rest;
      hide Quotes, Concat;
      TokenQuotes(t);
      TokensQuotes(rest);
      QuotesSplit(s, k);
      QuotesSplit(t, n);
      ConcatCons(text, more);
      QuotesConcat(text, Concat(more));
      TokensNothing();
      forall i | 0 <= i < |ts| && s[|s| - 1] == '"' ensures Quotes(Unquoted(ts[i])) < Quotes(s) {
        assert i > 0 ==> ts[i] == more[i - 1];
      }
    }
  }

  lemma ConcatCons(t: string, ts: seq<string>)
    ensures Concat([t] + ts) == t + Concat(ts)
  {
    assert ([t] + ts)[1..] == ts;
  }

  lemma {:induction false} ConcatHas(ts: seq<string>, i: nat)
    requires i < |ts|
    ensures Quotes(ts[i]) <= Quotes(Concat(ts)) && Quotes(Concat(ts[i..])) <= Quotes(Concat(ts))
  {
    QuotesConcat(ts[0], Concat(ts[1..]));
    if i > 0 {
      ConcatHas(ts[1..], i - 1);
      assert ts[1..][i - 1..] == ts[i..];
    } else {
      assert ts[0..] == ts;
    }
  }

  lemma {:induction false} TrimQuotes(q: string, cs: string)
    ensures Quotes(TrimLeft(q, cs)) <= Quotes(q) && Quotes(TrimRight(q, cs)) <= Quotes(q)
  {
    TrimLeftQuotes(q, cs);
    var t := TrimRight(q, cs);
    QuotesPart(q, 0, |t|);
    assert q[0..|t|] == t;
  }

  lemma {:induction false} TrimLeftQuotes(q: string, cs: string)
    ensures Quotes(TrimLeft(q, cs)) <= Quotes(q)
  {
    if q != "" && q[0] in cs {
      TrimLeftQuotes(q[1..], cs);
    }
  }

  lemma ScanTokensQuotes(q: string)
    requires ScanTokens(q, 0).Some?
    ensures Quotes(Concat(ScanTokens(q, 0).value)) <= Quotes(q)
  {
    hide Quotes, Concat, Tokens;
    TrimQuotes(q, WHITESPACE);
    TrimQuotes(TrimLeft(q, WHITESPACE), WHITESPACE);
    TrimQuotes(TrimSpace(q), "; ");
    TokensQuotes(Trimmed(q));
  }

  // ---------- the lookup ----------

  /** What is picked is a token without its quotes, a token in parentheses, or a part of all tokens from there on. */
  lemma PickedQuotes(ts: seq<string>, size: nat)
    requires TokensOk(ts, size) && MeasurementAt(ts, size).Answer?
    ensures Quotes(MeasurementAt(ts, size).text) <= Quotes(Concat(ts))
  {
    var mm := MeasurementAt(ts, size);
    if ts == [] {
    } else if ts[0][0] == '(' {
      ConcatHas(ts, 0);
    } else if ts[0][0] == '/' {
      QuotesPart(Concat(ts), 0, |mm.text|);
      assert Concat(ts)[0..|mm.text|] == mm.text;
    } else {
      hide Quotes, Concat, Unquoted;
      var i := if |ts| >= 5 && Dot(ts, 1) && Dot(ts, 3) then 4 else if |ts| >= 4 && Dot(ts, 1) && Dot(ts, 2) then 3
        else if |ts| >= 3 && Dot(ts, 1) then 2 else 0;
      assert mm == Answer(Unquoted(ts[i]));
      UnquotedQuotes(ts[i]);
      ConcatHas(ts, i);
    }
  }

  lemma TokenFits(ts: seq<string>, t: string, size: nat)
    requires TokensOk(ts, size) && t in ts
    ensures |t| <= size
  {
  }

  /** No measurement found has more quotes than the query, however deep it is found. */
  lemma {:induction false} FoundQuotes(q: string)
    ensures MeasurementFromInfluxQL(q).Answer? ==> Quotes(MeasurementFromInfluxQL(q).text) <= Quotes(q)
    decreases |q|
  {
    hide ScanTokens, FindKeyword, MeasurementAt, TokensOk, Quotes, Concat;
    match ScanTokens(q, 0) {
      case None =>
      case Some(ts) =>
        ScanTokensQuotes(q);
        match FindKeyword(ts, MMWORDS) {
          case None =>
          case Some(i) =>
            RestFits(ts, i + 1, |q|);
            var mm := MeasurementAt(ts[i + 1..], |q|);
            if mm.Answer? {
              PickedQuotes(ts[i + 1..], |q|);
              ConcatHas(ts, i + 1);
              if IsSubquery(mm.text) && mm.text in ts {
                QuotesPart(mm.text, 1, |mm.text| - 1);
                TokenFits(ts, mm.text, |q|);
                FoundQuotes(mm.text[1..|mm.text| - 1]);
              }
            }
        }
    }
  }

  // ---------- a quoted measurement that holds a backslash ----------

  lemma {:induction false} QuotingLonger(m: string)
    ensures |Quoting('"', m)| >= |EscapeBy(IDENTIFIER, m)|
    ensures BACKSLASH in m ==> |Quoting('"', m)| > |EscapeBy(IDENTIFIER, m)|
  {
    if m != "" {
      QuotingLonger(m[1..]);
    }
  }

  /** How reading goes on behind an opening quote: it fails, runs out of range, or reads a text and leaves a rest. */
  datatype Reading = Fails | Breaks | Reads(text: string, rest: string)

  lemma ReadStream(s: string) returns (r: Reading)
    ensures r.Fails? ==> Tokens("\"" + s, 0) == Some([])
    ensures r.Breaks? ==> Tokens("\"" + s, 0) == None
    ensures r.Reads? ==>
      && Tokens("\"" + s, 0) == Prefixed([InQuotes(r.text)], Tokens(r.rest, 0))
      && s == Quoting('"', r.text) + ("\"" + r.rest)
  {
    var x := "\"" + s;
    var text, e := Decompose('"', s);
    ScanExact('"', text, e);
    assert x[1..] == s && Spaces(x) == 0 && x[0..] == x;
    match e {
      case Closed(rest) =>
        r := Reads(text, rest);
        ReadToken(s, text, rest);
      case Ended => r := Fails;
      case Dangling => r := Breaks;
      case Wrong(_, _) => r := Fails;
    }
    hide Scan, Quoting;
  }

  lemma ReadToken(s: string, text: string, rest: string)
    requires s == Quoting('"', text) + StopText('"', Closed(rest))
    requires Scan(s, '"') == Outcome('"', text, Closed(rest))
    ensures Tokens("\"" + s, 0) == Prefixed([InQuotes(text)], Tokens(rest, 0))
  {
    var x := "\"" + Quoting('"', text) + "\"";
    hide Scan, Quoting;
    assert "\"" + s == x + rest;
    assert (x + rest)[1..] == s;
    ReadFrom(x + rest, s, |Quoting('"', text)| + 1, text + ['"']);
    assert ['"'] + (text + ['"']) == InQuotes(text);
    assert TokenAt(x + rest) == Token(|x|, InQuotes(text));
    hide TokenAt;
    FirstToken(x, rest, InQuotes(text));
  }

  lemma CountRest(m: string, text: string, rest: string)
    requires EscapeBy(IDENTIFIER, m) + "\"" == Quoting('"', text) + ("\"" + rest)
    ensures Quotes(rest) <= Quotes(m) && (rest != "" ==> rest[|rest| - 1] == '"')
    ensures |Quoting('"', text)| <= |EscapeBy(IDENTIFIER, m)|
  {
    var s, e, t := EscapeBy(IDENTIFIER, m) + "\"", EscapeBy(IDENTIFIER, m), Quoting('"', text);
    QuotesEscaped(IDENTIFIER, m);
    QuotesConcat(e, "\"");
    QuotesConcat(t, ['"'] + rest);
    QuotesConcat(['"'], rest);
    assert "\""[1..] == "" && ['"'][1..] == [];
    hide Quotes, EscapeBy, Quoting;
    assert |s| == |t| + 1 + |rest|;
    assert rest != "" ==> rest[|rest| - 1] == s[|s| - 1];
  }

  /** Tokens that, unquoted, have fewer quotes than a name. */
  predicate Fewer(more: seq<string>, m: string) {
    forall i | 0 <= i < |more| :: TokenOk(more[i]) && Quotes(Unquoted(more[i])) < Quotes(m)
  }

  /** In front of the measurement: nothing, or names and dots. */
  predicate InFront(front: seq<Item>) {
    || front == []
    || (|front| == 2 && front[0].Name? && front[1] == Period)
    || (|front| == 3 && front[0].Name? && front[1] == front[2] == Period)
    || (|front| == 4 && front[0].Name? && front[1] == Period && front[2].Name? && front[3] == Period)
  }

  /** What is picked for a measurement that was misread: that text or a later token, and none of the names in front. */
  lemma PickedBehind(front: seq<Item>, text: string, more: seq<string>, size: nat) returns (mm: string)
    requires InFront(front) && TokensOk(ItemTokens(front) + [InQuotes(text)] + more, size)
    ensures MeasurementAt(ItemTokens(front) + [InQuotes(text)] + more, size) == Answer(mm)
    ensures mm == text || exists i :: 0 <= i < |more| && TokenOk(more[i]) && mm == Unquoted(more[i])
  {
    var ts := ItemTokens(front) + [InQuotes(text)] + more;
    var n := |front|;
    assert forall i | 0 <= i < n :: ts[i] == ItemToken(front[i]);
    assert ts[n] == InQuotes(text) && forall i | n < i < |ts| :: ts[i] == more[i - n - 1];
    mm := MeasurementAt(ts, size).text;
    hide Unquoted, InQuotes, ItemTokens;
    var i := if |ts| >= 5 && Dot(ts, 1) && Dot(ts, 3) then 4 else if |ts| >= 4 && Dot(ts, 1) && Dot(ts, 2) then 3
      else if |ts| >= 3 && Dot(ts, 1) then 2 else 0;
    assert mm == Unquoted(ts[i]) && i >= n;
    if i > n {
      assert TokenOk(more[i - n - 1]);
    }
  }

  lemma InMore(front: seq<Item>, text: string, more: seq<string>, mm: string)
    requires mm != "" && mm[0] == '(' && mm in Sel(ItemTokens(front) + [InQuotes(text)] + more)
    ensures mm in more
  {
    var names := ItemTokens(front);
    assert forall k | 0 <= k < |names| :: names[k] == ItemToken(front[k]) && names[k][0] != '(';
    assert InQuotes(text)[0] == '"';
    hide InQuotes, ItemTokens, ItemToken;
    SelIn(names + [InQuotes(text)] + more, mm);
  }

  lemma SelIn(ts: seq<string>, mm: string)
    requires mm in Sel(ts) && mm != "" && mm[0] == '('
    ensures mm in ts
  {
  }

  /** And none of them leads to the measurement by way of a subquery. */
  lemma NotIt(m: string, front: seq<Item>, text: string, more: seq<string>, mm: string)
    requires text != m && Fewer(more, m)
    requires mm == text || exists i :: 0 <= i < |more| && mm == Unquoted(more[i])
    ensures mm != m
    ensures IsSubquery(mm) && mm in Sel(ItemTokens(front) + [InQuotes(text)] + more) ==>
      MeasurementFromInfluxQL(mm[1..|mm| - 1]) != Answer(m)
  {
    hide Quotes, MeasurementFromInfluxQL, InQuotes, ItemTokens, Sel;
    if IsSubquery(mm) && mm in Sel(ItemTokens(front) + [InQuotes(text)] + more) {
      assert mm[0] == '(';
      InMore(front, text, more, mm);
      assert Unquoted(mm) == mm;
      QuotesPart(mm, 1, |mm| - 1);
      FoundQuotes(mm[1..|mm| - 1]);
    }
  }

  lemma MoreFewer(m: string, rest: string, more: seq<string>)
    requires Quotes(rest) <= Quotes(m) && (rest != "" ==> rest[|rest| - 1] == '"')
    requires Tokens(rest, 0) == Some(more)
    ensures Fewer(more, m)
  {
    TokensQuotes(rest);
    TokensNothing();
    assert TokensOk(more, |rest|);
    hide Tokens, Quotes, Unquoted, Concat;
  }

  lemma NoFront(text: string, more: seq<string>)
    ensures InFront([]) && ItemTokens([]) + [InQuotes(text)] + more == [InQuotes(text)] + more
  {
    hide InQuotes;
  }

  /** It is never found to be about that measurement. */
  lemma Lost(m: string)
    requires BACKSLASH in m
    ensures MeasurementFromInfluxQL(SELECT + Ident(m)) != Answer(m)
  {
    var x, q, s := Ident(m), SELECT + Ident(m), EscapeIdentifier(m) + "\"";
    assert x == "\"" + s && x[0] == '"' && x[|x| - 1] == '"';
    var r := ReadStream(s);
    SelectScan(x);
    if r.Reads? && Tokens(r.rest, 0).Some? {
      var more := Tokens(r.rest, 0).value;
      EscapedIs(m);
      QuotingLonger(m);
      CountRest(m, r.text, r.rest);
      hide *;
      PrefixedSome([InQuotes(r.text)], more);
      MoreFewer(m, r.rest, more);
      NoFront(r.text, more);
      LostBehind(m, q, [], r.text, more);
    } else {
      hide Tokens, ScanTokens, DatabaseFromInfluxQL, RetentionPolicyFromInfluxQL, MeasurementFromInfluxQL, Sel;
      NoSource(q);
    }
  }

  lemma LostBehind(m: string, q: string, front: seq<Item>, text: string, more: seq<string>)
    requires ScanTokens(q, 0) == Some(Sel(ItemTokens(front) + [InQuotes(text)] + more)) && InFront(front) && text != m
    requires Fewer(more, m)
    ensures MeasurementFromInfluxQL(q) != Answer(m)
  {
    hide *;
    var rest := ItemTokens(front) + [InQuotes(text)] + more;
    RestOk(q, rest);
    Keywords(rest);
    var mm := PickedBehind(front, text, more, |q|);
    NotIt(m, front, text, more, mm);
    LookupIs(q, Sel(rest), mm);
  }

  lemma OneItem(m: string)
    ensures Text(Alone(m)) + Closers(0) == Ident(m)
  {
    assert ItemsText([Name(m)][1..]) == "";
  }

  /** A select from a quoted measurement is found to be about it exactly when it has no backslash. */
  lemma IdentExact(m: string)
    ensures MeasurementFromInfluxQL(SELECT + Ident(m)) == Answer(m) <==> BACKSLASH !in m
  {
    if BACKSLASH in m {
      Lost(m);
    } else {
      AtTop(Alone(m), 0);
      OneItem(m);
    }
  }
}
