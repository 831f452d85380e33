/**
 * What the lookups of backend/influxql.go find in statements of all kinds: words and quoted names, a keyword, and what
 * it stands in front of, with more behind that or not.
 */
module Statements {
  import opened Prelude
  import opened Escape
  import opened Quote
  import opened InfluxQL
  import opened Subquery
  import opened Qualified

  // ---------- statements and their tokens ----------

  /** What stands in front of the keyword, each with a space behind it: plain words and names in double quotes. */
  datatype Piece = Word(w: string) | Named(name: string)

  function PieceText(p: Piece): string { if p.Word? then p.w else Ident(p.name) }

  function PieceToken(p: Piece): string { if p.Word? then p.w else InQuotes(p.name) }

  function Phrase(ps: seq<Piece>, x: string): string {
    if ps == [] then x else PieceText(ps[0]) + (" " + Phrase(ps[1..], x))
  }

  function PhraseTokens(ps: seq<Piece>): (ts: seq<string>)
    ensures |ts| == |ps| && forall i | 0 <= i < |ps| :: ts[i] == PieceToken(ps[i])
  {
    seq(|ps|, i requires 0 <= i < |ps| => PieceToken(ps[i]))
  }

  predicate PieceOk(p: Piece) { if p.Word? then IsWord(p.w) && p.w[0] !in WHITESPACE else BACKSLASH !in p.name }

  predicate PiecesOk(ps: seq<Piece>) { forall i | 0 <= i < |ps| :: PieceOk(ps[i]) }

  /** None of the words is this keyword, in any case. */
  predicate Without(ps: seq<Piece>, keyword: string) {
    forall i | 0 <= i < |ps| && ps[i].Word? :: ToLower(ps[i].w) != keyword
  }

  lemma PieceThen(p: Piece, s: string)
    requires PieceOk(p) && Starts(s)
    ensures Tokens(PieceText(p) + (" " + s), 0) == Prefixed([PieceToken(p)], Tokens(s, 0))
    ensures Starts(PieceText(p) + (" " + s))
  {
    hide Tokens, EscapeIdentifier;
    if p.Word? {
      WordThen(p.w, s);
    } else {
      NameToken(p.name, " " + s);
      SkipSpace(s);
    }
  }

  lemma {:induction false} PhraseScan(ps: seq<Piece>, x: string)
    requires PiecesOk(ps) && Starts(x)
    ensures Tokens(Phrase(ps, x), 0) == Prefixed(PhraseTokens(ps), Tokens(x, 0)) && Starts(Phrase(ps, x))
  {
    hide Tokens, PieceText, PieceToken, PieceOk;
    if ps == [] {
      PrefixedTwice([], [], Tokens(x, 0));
      assert PhraseTokens(ps) == [];
    } else {
      PhraseScan(ps[1..], x);
      PieceThen(ps[0], Phrase(ps[1..], x));
      PrefixedTwice([PieceToken(ps[0])], PhraseTokens(ps[1..]), Tokens(x, 0));
      assert [PieceToken(ps[0])] + PhraseTokens(ps[1..]) == PhraseTokens(ps);
    }
  }

  /** A text that trimming leaves as it is. */
  predicate Tight(q: string) { q != "" && q[0] !in WHITESPACE && q[|q| - 1] !in WHITESPACE && q[|q| - 1] !in "; " }

  lemma TightTrimmed(q: string)
    requires Tight(q)
    ensures Trimmed(q) == q
  {
  }

  lemma {:induction false} PhraseEnds(ps: seq<Piece>, x: string)
    requires PiecesOk(ps) && x != ""
    ensures Phrase(ps, x) != "" && Phrase(ps, x)[|Phrase(ps, x)| - 1] == x[|x| - 1]
    ensures ps != [] ==> Phrase(ps, x)[0] !in WHITESPACE
  {
    hide EscapeIdentifier;
    if ps != [] {
      PhraseEnds(ps[1..], x);
      assert PieceText(ps[0]) != "" && PieceText(ps[0])[0] !in WHITESPACE;
    }
  }

  /** The tokens of a statement: those in front, and those of what follows. */
  lemma StatementScan(ps: seq<Piece>, x: string)
    requires PiecesOk(ps) && ps != [] && Starts(x) && x[|x| - 1] !in WHITESPACE && x[|x| - 1] != ';'
    ensures ScanTokens(Phrase(ps, x), 0) == Prefixed(PhraseTokens(ps), Tokens(x, 0))
  {
    PhraseEnds(ps, x);
    PhraseScan(ps, x);
    assert ' ' in WHITESPACE;
    hide Tokens, Phrase, PhraseTokens;
    TightTrimmed(Phrase(ps, x));
  }

  lemma {:induction false} TrimLeftOver(pre: string, s: string, cs: string)
    requires (forall i | 0 <= i < |pre| :: pre[i] in cs) && (s != "" ==> s[0] !in cs)
    ensures TrimLeft(pre + s, cs) == s
  {
    if pre == "" {
      assert pre + s == s;
    } else {
      assert (pre + s)[1..] == pre[1..] + s;
      TrimLeftOver(pre[1..], s, cs);
    }
  }

  /** Trimming takes away a part of what consists of semicolons and spaces, or all of it. */
  lemma {:induction false} TrimRightPart(s: string, post: string, cs: string) returns (kept: string)
    requires s != "" && s[|s| - 1] !in cs && forall i | 0 <= i < |post| :: post[i] in "; "
    ensures TrimRight(s + post, cs) == s + kept && kept <= post
    ensures cs == "; " ==> kept == ""
  {
    var t := s + post;
    if post == "" || post[|post| - 1] !in cs {
      kept := post;
      assert t[|t| - 1] !in cs;
    } else {
      assert t[..|t| - 1] == s + post[..|post| - 1];
      kept := TrimRightPart(s, post[..|post| - 1], cs);
    }
  }

  /** White space in front of a statement and semicolons and spaces behind it do not matter. */
  lemma SurroundedSame(pre: string, q: string, post: string, n: nat)
    requires Tight(q) && forall i | 0 <= i < |pre| :: pre[i] in "\t\n\U{B}\U{C}\r "
    requires forall i | 0 <= i < |post| :: post[i] in "; "
    ensures ScanTokens(pre + q + post, n) == ScanTokens(q, n)
  {
    Regroup(pre, q, post);
    TrimLeftOver(pre, q + post, WHITESPACE);
    var kept := TrimRightPart(q, post, WHITESPACE);
    var none := TrimRightPart(q, kept, "; ");
    assert q + "" == q;
    TightTrimmed(q);
    hide Tokens, TrimLeft, TrimRight;
  }

  /** Scanning up to a limit gives the first tokens. */
  lemma {:induction false} LimitTakes(s: string, n: nat)
    requires n > 0 && Tokens(s, 0).Some?
    ensures
      var all := Tokens(s, 0).value;
      Tokens(s, n) == Some(if n < |all| then all[..n] else all)
    decreases |s|
  {
    hide ScanToken;
    if ScanToken(s).Token? {
      var t := ScanToken(s);
      var rest := Tokens(s[t.advance..], 0).value;
      assert Tokens(s, 0) == Some([t.text] + rest);
      if n > 1 {
        LimitTakes(s[t.advance..], n - 1);
        assert n < 1 + |rest| ==> ([t.text] + rest)[..n] == [t.text] + rest[..n - 1];
      } else {
        assert rest == [] ==> [t.text] + rest == [t.text];
        assert ([t.text] + rest)[..1] == [t.text];
      }
    }
  }

  // ---------- keywords ----------

  lemma {:induction false} KeywordBehind(front: seq<string>, rest: seq<string>, keywords: seq<string>)
    requires forall i | 0 <= i < |front| :: ToLower(front[i]) !in keywords
    ensures FindKeyword(front + rest, keywords) ==
      match FindKeyword(rest, keywords)
      case None => None
      case Some(i) => Some(|front| + i)
  {
    hide ToLower;
    if front == [] {
      assert front + rest == rest;
    } else {
      assert (front + rest)[1..] == front[1..] + rest;
      KeywordBehind(front[1..], rest, keywords);
    }
  }

  lemma NotInQuotes(name: string, keyword: string)
    requires keyword in {"on", "database", "from", "measurement"}
    ensures ToLower(InQuotes(name)) != keyword
  {
    assert ToLower(InQuotes(name))[0] == '"';
  }

  /** Of the words in front, none is a keyword. */
  predicate NoneOf(ps: seq<Piece>, keywords: seq<string>) { forall k | k in keywords :: Without(ps, k) }

  predicate Keywords(ks: seq<string>) { forall k | k in ks :: k in {"on", "database", "from", "measurement"} }

  lemma NoneOfThem(ps: seq<Piece>)
    ensures Without(ps, "from") ==> NoneOf(ps, RPWORDS)
    ensures Without(ps, "from") && Without(ps, "measurement") ==> NoneOf(ps, MMWORDS)
    ensures Without(ps, "on") && Without(ps, "database") && Without(ps, "from") ==> NoneOf(ps, DBWORDS)
    ensures Keywords(RPWORDS) && Keywords(MMWORDS) && Keywords(DBWORDS)
  {
    hide Without;
  }

  lemma KeywordFor(k: string)
    ensures k in {"on", "database"} ==> k in DBWORDS && k != INTO
    ensures k == "from" ==> k in DBWORDS && k in RPWORDS && k in MMWORDS && k == INTO
    ensures k == "measurement" ==> k in MMWORDS
  {
  }

  lemma FrontPlain(ps: seq<Piece>, keywords: seq<string>)
    requires NoneOf(ps, keywords) && Keywords(keywords)
    ensures forall i | 0 <= i < |ps| :: ToLower(PhraseTokens(ps)[i]) !in keywords
  {
    hide ToLower, InQuotes;
    forall i | 0 <= i < |ps| ensures ToLower(PhraseTokens(ps)[i]) !in keywords {
      var t := PhraseTokens(ps)[i];
      if ps[i].Word? {
        assert forall k | k in keywords :: Without(ps, k);
      } else {
        forall k | k in keywords ensures ToLower(t) != k {
          NotInQuotes(ps[i].name, k);
        }
      }
    }
  }

  /** The words, one keyword behind them, and something behind that. */
  lemma KeywordFound(ps: seq<Piece>, kw: string, rest: seq<string>, keywords: seq<string>)
    requires NoneOf(ps, keywords) && Keywords(keywords)
    requires ToLower(kw) in keywords && rest != []
    ensures
      var all := PhraseTokens(ps + [Word(kw)]) + rest;
      FindKeyword(all, keywords) == Some(|ps|) && all[|ps|] == kw && all[|ps| + 1..] == rest
  {
    FrontPlain(ps, keywords);
    hide ToLower;
    var all := PhraseTokens(ps + [Word(kw)]) + rest;
    assert all == PhraseTokens(ps) + ([kw] + rest);
    KeywordBehind(PhraseTokens(ps), [kw] + rest, keywords);
    assert all[|ps| + 1..] == rest;
  }

  // ---------- what is looked up ----------

  lemma DatabaseLooked(q: string, ts: seq<string>, i: nat, db: string)
    requires ScanTokens(q, 0) == Some(ts) && FindKeyword(ts, DBWORDS) == Some(i)
    requires TokensOk(ts, |q|) && TokensOk(ts[i + 1..], |q|) && DatabaseAt(ts[i + 1..], ToLower(ts[i]), |q|) == db
    requires !IsSubquery(db)
    ensures DatabaseFromInfluxQL(q) == Answer(db)
  {
    hide ScanTokens, FindKeyword, DatabaseAt, IsSubquery, TokensOk, ToLower;
  }

  lemma PolicyLooked(q: string, ts: seq<string>, i: nat, rp: string)
    requires ScanTokens(q, 0) == Some(ts) && FindKeyword(ts, RPWORDS) == Some(i)
    requires TokensOk(ts, |q|) && TokensOk(ts[i + 1..], |q|) && RetentionPolicyAt(ts[i + 1..], |q|) == rp
    requires !IsSubquery(rp)
    ensures RetentionPolicyFromInfluxQL(q) == Answer(rp)
  {
    hide ScanTokens, FindKeyword, RetentionPolicyAt, IsSubquery, TokensOk;
  }

  lemma MeasurementLooked(q: string, ts: seq<string>, i: nat, mm: string)
    requires ScanTokens(q, 0) == Some(ts) && FindKeyword(ts, MMWORDS) == Some(i)
    requires TokensOk(ts, |q|) && TokensOk(ts[i + 1..], |q|) && MeasurementAt(ts[i + 1..], |q|) == Answer(mm)
    requires !IsSubquery(mm)
    ensures MeasurementFromInfluxQL(q) == Answer(mm)
  {
    hide ScanTokens, FindKeyword, MeasurementAt, IsSubquery, TokensOk;
  }

  /** What may stand behind a source: nothing, or a space and tokens the first of which is no dot. */
  predicate Behind(rest: string, more: seq<string>) {
    && (rest != "" ==> rest[0] == ' ' && rest[|rest| - 1] !in WHITESPACE && rest[|rest| - 1] != ';')
    && Tokens(rest, 0) == Some(more) && (more != [] ==> more[0] != ".")
  }

  lemma SourceTokens(s: Source, rest: string, more: seq<string>)
    requires Clear(s) && Behind(rest, more)
    ensures Tokens(Text(s) + rest, 0) == Some(ItemTokens(Items(s)) + more)
  {
    ClearIs(s);
    hide Tokens, Items, ItemsText;
    ItemsTokens(Items(s), rest);
    PrefixedSome(ItemTokens(Items(s)), more);
  }

  lemma SourceAt(s: Source, more: seq<string>, size: nat)
    requires TokensOk(ItemTokens(Items(s)) + more, size) && (more != [] ==> more[0] != ".")
    ensures DatabaseAt(ItemTokens(Items(s)) + more, INTO, size) == Db(s)
    ensures RetentionPolicyAt(ItemTokens(Items(s)) + more, size) == Rp(s)
    ensures MeasurementAt(ItemTokens(Items(s)) + more, size) == Answer(s.m)
  {
    var names := ItemTokens(Items(s));
    var ts := names + more;
    hide InQuotes, Unquoted, ItemTokens;
    assert forall i | 0 <= i < |names| :: ts[i] == names[i] == ItemToken(Items(s)[i]);
    assert |ts| > |names| ==> ts[|names|] == more[0];
  }

  lemma OkBehind(ts: seq<string>, i: nat, size: nat)
    requires TokensOk(ts, size) && i <= |ts|
    ensures TokensOk(ts[i..], size)
  {
  }

  /** The statement of some pieces, a keyword and a source, and its tokens. */
  lemma SourceScanned(ps: seq<Piece>, kw: string, s: Source, rest: string, more: seq<string>)
    requires PiecesOk(ps + [Word(kw)]) && Clear(s) && Behind(rest, more)
    ensures
      var q := Phrase(ps + [Word(kw)], Text(s) + rest);
      && ScanTokens(q, 0) == Some(PhraseTokens(ps + [Word(kw)]) + (ItemTokens(Items(s)) + more))
      && TokensOk(PhraseTokens(ps + [Word(kw)]) + (ItemTokens(Items(s)) + more), |q|)
  {
    SourceTokens(s, rest, more);
    TextEnds(s);
    TextLast(s, rest, more);
    hide *;
    StatementScan(ps + [Word(kw)], Text(s) + rest);
    PrefixedSome(PhraseTokens(ps + [Word(kw)]), ItemTokens(Items(s)) + more);
  }

  lemma TextLast(s: Source, rest: string, more: seq<string>)
    requires Behind(rest, more)
    ensures
      var x := Text(s) + rest;
      Starts(x) && x[|x| - 1] !in WHITESPACE && x[|x| - 1] != ';'
  {
    TextEnds(s);
    hide Text, Tokens;
    var x := Text(s) + rest;
    assert x[|x| - 1] == if rest == "" then '"' else rest[|rest| - 1];
  }

  lemma DatabaseFrom(ps: seq<Piece>, kw: string, s: Source, rest: string, more: seq<string>)
    requires PiecesOk(ps + [Word(kw)]) && ToLower(kw) == "from" && Clear(s) && Behind(rest, more)
    requires Without(ps, "on") && Without(ps, "database") && Without(ps, "from") && !IsSubquery(Db(s))
    ensures DatabaseFromInfluxQL(Phrase(ps + [Word(kw)], Text(s) + rest)) == Answer(Db(s))
  {
    var q, ts := Phrase(ps + [Word(kw)], Text(s) + rest), ItemTokens(Items(s)) + more;
    SourceScanned(ps, kw, s, rest, more);
    NoneOfThem(ps);
    KeywordFor(ToLower(kw));
    hide *;
    KeywordFound(ps, kw, ts, DBWORDS);
    OkBehind(PhraseTokens(ps + [Word(kw)]) + ts, |ps| + 1, |q|);
    MoreBehind(rest, more);
    SourceAt(s, more, |q|);
    DatabaseLooked(q, PhraseTokens(ps + [Word(kw)]) + ts, |ps|, Db(s));
  }

  lemma MoreBehind(rest: string, more: seq<string>)
    requires Behind(rest, more)
    ensures more != [] ==> more[0] != "."
  {
  }

  lemma PolicyFrom(ps: seq<Piece>, kw: string, s: Source, rest: string, more: seq<string>)
    requires PiecesOk(ps + [Word(kw)]) && ToLower(kw) == "from" && Clear(s) && Behind(rest, more)
    requires Without(ps, "from") && !IsSubquery(Rp(s))
    ensures RetentionPolicyFromInfluxQL(Phrase(ps + [Word(kw)], Text(s) + rest)) == Answer(Rp(s))
  {
    var q, ts := Phrase(ps + [Word(kw)], Text(s) + rest), ItemTokens(Items(s)) + more;
    SourceScanned(ps, kw, s, rest, more);
    NoneOfThem(ps);
    KeywordFor(ToLower(kw));
    hide *;
    KeywordFound(ps, kw, ts, RPWORDS);
    OkBehind(PhraseTokens(ps + [Word(kw)]) + ts, |ps| + 1, |q|);
    MoreBehind(rest, more);
    SourceAt(s, more, |q|);
    PolicyLooked(q, PhraseTokens(ps + [Word(kw)]) + ts, |ps|, Rp(s));
  }

  /**
   * Behind from or measurement, in any case and whatever statement of words and quoted names it is in, with more behind
   * it or not, the measurement of the source is found.
   */
  lemma MeasurementFound(ps: seq<Piece>, kw: string, s: Source, rest: string, more: seq<string>)
    requires PiecesOk(ps + [Word(kw)]) && ToLower(kw) in {"from", "measurement"} && Clear(s) && Behind(rest, more)
    requires Without(ps, "from") && Without(ps, "measurement") && !IsSubquery(s.m)
    ensures MeasurementFromInfluxQL(Phrase(ps + [Word(kw)], Text(s) + rest)) == Answer(s.m)
  {
    var q, ts := Phrase(ps + [Word(kw)], Text(s) + rest), ItemTokens(Items(s)) + more;
    SourceScanned(ps, kw, s, rest, more);
    NoneOfThem(ps);
    KeywordFor(ToLower(kw));
    hide *;
    KeywordFound(ps, kw, ts, MMWORDS);
    OkBehind(PhraseTokens(ps + [Word(kw)]) + ts, |ps| + 1, |q|);
    MoreBehind(rest, more);
    SourceAt(s, more, |q|);
    MeasurementLooked(q, PhraseTokens(ps + [Word(kw)]) + ts, |ps|, s.m);
  }

  /** Behind from, the policy is that of the source, and the database too where neither on nor database comes first. */
  lemma QualifiersFound(ps: seq<Piece>, kw: string, s: Source, rest: string, more: seq<string>)
    requires PiecesOk(ps + [Word(kw)]) && ToLower(kw) == "from" && Clear(s) && Behind(rest, more)
    requires Without(ps, "from") && !IsSubquery(Db(s)) && !IsSubquery(Rp(s))
    ensures
      var q := Phrase(ps + [Word(kw)], Text(s) + rest);
      && RetentionPolicyFromInfluxQL(q) == Answer(Rp(s))
      && (Without(ps, "on") && Without(ps, "database") ==> DatabaseFromInfluxQL(q) == Answer(Db(s)))
  {
    hide *;
    PolicyFrom(ps, kw, s, rest, more);
    if Without(ps, "on") && Without(ps, "database") {
      DatabaseFrom(ps, kw, s, rest, more);
    }
  }

  /** Behind on or database it is the name that follows. */
  lemma DatabaseFound(ps: seq<Piece>, kw: string, db: string, rest: string, more: seq<string>)
    requires PiecesOk(ps + [Word(kw)]) && ToLower(kw) in {"on", "database"} && BACKSLASH !in db && Behind(rest, more)
    requires Without(ps, "on") && Without(ps, "database") && Without(ps, "from") && !IsSubquery(db)
    ensures DatabaseFromInfluxQL(Phrase(ps + [Word(kw)], Ident(db) + rest)) == Answer(db)
  {
    var s := Alone(db);
    NameAlone(db);
    var q, ts := Phrase(ps + [Word(kw)], Text(s) + rest), ItemTokens(Items(s)) + more;
    SourceScanned(ps, kw, s, rest, more);
    NoneOfThem(ps);
    KeywordFor(ToLower(kw));
    hide *;
    KeywordFound(ps, kw, ts, DBWORDS);
    OkBehind(PhraseTokens(ps + [Word(kw)]) + ts, |ps| + 1, |q|);
    FirstIsName(db, ToLower(kw), more, |q|);
    DatabaseLooked(q, PhraseTokens(ps + [Word(kw)]) + ts, |ps|, db);
  }

  lemma NameAlone(db: string)
    ensures Text(Alone(db)) == Ident(db) && Items(Alone(db)) == [Name(db)]
  {
    hide EscapeIdentifier;
    assert [Name(db)][1..] == [];
    assert ItemsText([Name(db)]) == Ident(db) + "";
  }

  lemma FirstIsName(db: string, kw: string, more: seq<string>, size: nat)
    requires TokensOk(ItemTokens(Items(Alone(db))) + more, size) && kw != INTO
    ensures DatabaseAt(ItemTokens(Items(Alone(db))) + more, kw, size) == db
  {
    assert (ItemTokens(Items(Alone(db))) + more)[0] == InQuotes(db);
    hide ItemTokens;
  }

  lemma WordScanned(ps: seq<Piece>, kw: string, w: string, rest: string, more: seq<string>)
    requires PiecesOk(ps + [Word(kw)]) && PieceOk(Word(w)) && w[|w| - 1] !in WHITESPACE && w[|w| - 1] != ';'
    requires Behind(rest, more)
    ensures
      var q := Phrase(ps + [Word(kw)], w + rest);
      && ScanTokens(q, 0) == Some(PhraseTokens(ps + [Word(kw)]) + ([w] + more))
      && TokensOk(PhraseTokens(ps + [Word(kw)]) + ([w] + more), |q|)
  {
    WordStarts(w);
    hide Tokens, ScanTokens, Phrase, PiecesOk, IsWord;
    WordToken(w, rest);
    PrefixedSome([w], more);
    var x := w + rest;
    assert x[|x| - 1] == if rest == "" then w[|w| - 1] else rest[|rest| - 1];
    StatementScan(ps + [Word(kw)], x);
    PrefixedSome(PhraseTokens(ps + [Word(kw)]), [w] + more);
  }

  lemma WordAt(w: string, more: seq<string>, kw: string, size: nat)
    requires IsWord(w) && TokensOk([w] + more, size) && (more != [] ==> more[0] != ".")
    ensures kw != INTO ==> DatabaseAt([w] + more, kw, size) == w
    ensures w[0] != '/' ==> MeasurementAt([w] + more, size) == Answer(w)
    ensures !IsSubquery(w)
  {
    assert Plain(w[0]);
    assert |more| > 0 ==> ([w] + more)[1] == more[0];
  }

  /** Names without quotes are found as well, where they are plain words. */
  lemma WordFound(ps: seq<Piece>, kw: string, w: string, rest: string, more: seq<string>)
    requires PiecesOk(ps + [Word(kw)]) && PieceOk(Word(w)) && w[|w| - 1] !in WHITESPACE && w[|w| - 1] != ';'
    requires Behind(rest, more)
    ensures
      var q := Phrase(ps + [Word(kw)], w + rest);
      && (Without(ps, "from") && Without(ps, "measurement") && ToLower(kw) in {"from", "measurement"} && w[0] != '/' ==>
            MeasurementFromInfluxQL(q) == Answer(w))
      && (Without(ps, "on") && Without(ps, "database") && Without(ps, "from") && ToLower(kw) in {"on", "database"} ==>
            DatabaseFromInfluxQL(q) == Answer(w))
  {
    var q, ts := Phrase(ps + [Word(kw)], w + rest), [w] + more;
    assert IsWord(w);
    WordScanned(ps, kw, w, rest, more);
    NoneOfThem(ps);
    KeywordFor(ToLower(kw));
    MoreBehind(rest, more);
    hide *;
    OkBehind(PhraseTokens(ps + [Word(kw)]) + ts, |PhraseTokens(ps + [Word(kw)])|, |q|);
    assert (PhraseTokens(ps + [Word(kw)]) + ts)[|PhraseTokens(ps + [Word(kw)])|..] == ts;
    WordAt(w, more, ToLower(kw), |q|);
    if Without(ps, "from") && Without(ps, "measurement") && ToLower(kw) in {"from", "measurement"} && w[0] != '/' {
      KeywordFound(ps, kw, ts, MMWORDS);
      MeasurementLooked(q, PhraseTokens(ps + [Word(kw)]) + ts, |ps|, w);
    }
    if Without(ps, "on") && Without(ps, "database") && Without(ps, "from") && ToLower(kw) in {"on", "database"} {
      KeywordFound(ps, kw, ts, DBWORDS);
      DatabaseLooked(q, PhraseTokens(ps + [Word(kw)]) + ts, |ps|, w);
    }
  }

  // ---------- the other tokens ----------

  /** Brackets reach to the first that closes them, parentheses as far as they balance, quotes as far as they go. */
  lemma OtherTokens(r: string, rest: string)
    ensures ']' !in r ==> TokenAt("[" + r + "]" + rest) == Token(|r| + 2, "[" + r + "]")
    ensures '}' !in r ==> TokenAt("{" + r + "}" + rest) == Token(|r| + 2, "{" + r + "}")
    ensures Balanced(r) ==> TokenAt("(" + r + ")" + rest) == Token(|r| + 2, "(" + r + ")")
    ensures
      var q := Quoting('\'', r);
      TokenAt("'" + q + "'" + rest) == Token(|q| + 2, "'" + r + "'")
    ensures TokenAt("," + rest) == Token(1, ",") && TokenAt("." + rest) == Token(1, ".")
  {
    if ']' !in r {
      Bracketed("[", r, "]", rest);
    }
    if '}' !in r {
      Bracketed("{", r, "}", rest);
    }
    if Balanced(r) {
      Parenthesised(r, rest);
    }
    SingleQuoted(r, rest);
    assert ("," + rest)[..1] == "," && ("." + rest)[..1] == ".";
  }

  lemma Bracketed(a: string, r: string, b: string, rest: string)
    requires (a == "[" && b == "]") || (a == "{" && b == "}")
    requires b[0] !in r
    ensures TokenAt(a + r + b + rest) == Token(|r| + 2, a + r + b)
  {
    var t := a + r + b + rest;
    BracketEnds(a, r, b, rest);
    hide Until;
    assert t[..|r| + 2] == a + r + b && t[0] == a[0];
  }

  lemma BracketEnds(a: string, r: string, b: string, rest: string)
    requires |a| == 1 && |b| == 1 && a[0] != b[0] && b[0] !in r
    ensures Until(a + r + b + rest, b) == |r| + 1
  {
    Regroup(a + r, b, rest);
    hide Until;
    UntilAll(a + r, b + rest, b);
  }

  lemma Parenthesised(r: string, rest: string)
    requires Balanced(r)
    ensures TokenAt("(" + r + ")" + rest) == Token(|r| + 2, "(" + r + ")")
  {
    var t := "(" + r + ")" + rest;
    assert t[1..] == r + (")" + rest);
    CloseOver(r, ")" + rest, 1, 0);
    assert (")" + rest)[1..] == rest;
    assert t[..|r| + 2] == "(" + r + ")";
  }

  lemma SingleQuoted(r: string, rest: string)
    ensures
      var q := Quoting('\'', r);
      TokenAt("'" + q + "'" + rest) == Token(|q| + 2, "'" + r + "'")
  {
    var q := Quoting('\'', r);
    var t := "'" + q + "'" + rest;
    ScanQuoting('\'', r, rest);
    hide Quoting, Scan;
    assert t[1..] == q + ['\''] + rest && t[0] == '\'';
    assert ['\''] + (r + ['\'']) == "'" + r + "'";
  }

  /** Without a keyword that has something behind it, a lookup is an error. */
  lemma NothingFound(ps: seq<Piece>, x: string)
    requires PiecesOk(ps) && IsWord(x) && x[|x| - 1] !in WHITESPACE && x[|x| - 1] != ';' && ps != []
    ensures Without(ps, "from") && Without(ps, "measurement") ==> MeasurementFromInfluxQL(Phrase(ps, x)) == Illegal
    ensures Without(ps, "from") ==> RetentionPolicyFromInfluxQL(Phrase(ps, x)) == Illegal
    ensures Without(ps, "on") && Without(ps, "database") && Without(ps, "from") ==>
      DatabaseFromInfluxQL(Phrase(ps, x)) == Illegal
  {
    assert x + "" == x;
    WordToken(x, "");
    PrefixedSome([x], []);
    assert Tokens("", 0) == Some([]);
    assert [x] + [] == [x];
    hide Tokens, ToLower, ScanTokens, Phrase, IsWord, Trimmed, PiecesOk;
    assert Starts(x) by {
      WordStarts(x);
    }
    StatementScan(ps, x);
    PrefixedSome(PhraseTokens(ps), [x]);
    NoneBehind(ps, x);
  }

  lemma WordStarts(x: string)
    requires IsWord(x)
    ensures Starts(x)
  {
    assert Plain(x[0]);
  }

  lemma NoneBehind(ps: seq<Piece>, x: string)
    ensures Without(ps, "from") && Without(ps, "measurement") ==> FindKeyword(PhraseTokens(ps) + [x], MMWORDS) == None
    ensures Without(ps, "from") ==> FindKeyword(PhraseTokens(ps) + [x], RPWORDS) == None
    ensures Without(ps, "on") && Without(ps, "database") && Without(ps, "from") ==>
      FindKeyword(PhraseTokens(ps) + [x], DBWORDS) == None
  {
    if Without(ps, "from") && Without(ps, "measurement") {
      NoneHere(ps, x, MMWORDS);
    }
    if Without(ps, "from") {
      NoneHere(ps, x, RPWORDS);
    }
    if Without(ps, "on") && Without(ps, "database") && Without(ps, "from") {
      NoneHere(ps, x, DBWORDS);
    }
  }

  lemma NoneHere(ps: seq<Piece>, x: string, keywords: seq<string>)
    requires NoneOf(ps, keywords) && Keywords(keywords)
    ensures FindKeyword(PhraseTokens(ps) + [x], keywords) == None
  {
    FrontPlain(ps, keywords);
    KeywordBehind(PhraseTokens(ps), [x], keywords);
  }

  // ---------- names that look like subqueries ----------

  /** A name in the form of a select in parentheses is taken for a subquery when it has 17 characters or more. */
  lemma LooksLikeSelect(x: string)
    ensures IsSubquery("(select " + x + ")") <==> |x| >= 8
    ensures forall t: string | |t| <= 16 :: !IsSubquery(t)
  {
    var t := "(select " + x + ")";
    var u := "select " + x + ")";
    assert t[1..] == u;
    assert TrimLeft(u, "( ") == u;
    assert TrimLeft(t, "( ") == u;
    assert ToLower(u)[..7] == "select ";
  }

  /** A database of such a name is found exactly when it is shorter. */
  lemma SelectNameExact(x: string, m: string)
    requires BACKSLASH !in x && BACKSLASH !in m
    ensures
      DatabaseFromInfluxQL(SELECT + Text(InDatabase("(select " + x + ")", m))) == Answer("(select " + x + ")")
      <==> |x| < 8
  {
    var s := InDatabase("(select " + x + ")", m);
    LooksLikeSelect(x);
    assert BACKSLASH !in "(select " && BACKSLASH !in ")";
    assert Clear(s);
    hide *;
    SelectName(s);
  }

  lemma SelectName(s: Source)
    requires Clear(s) && s.InDatabase?
    ensures DatabaseFromInfluxQL(SELECT + Text(s)) == Answer(s.db) <==> !IsSubquery(s.db)
  {
    hide DatabaseFromInfluxQL, IsSubquery, Text;
    AtTop(s, 0);
    assert Text(s) + Closers(0) == Text(s);
    if IsSubquery(s.db) {
      Itself(s.db);
    }
  }

  // ---------- regular expressions ----------

  predicate Dotted(s: string) { forall i | 0 <= i < |s| :: Plain(s[i]) || s[i] == '.' }

  /** Tokens that put together are a text, and begin as it does. */
  predicate Makes(r: Option<seq<string>>, s: string) {
    r.Some? && Concat(r.value) == s && (s != "" ==> r.value != [] && r.value[0] != "" && r.value[0][0] == s[0])
  }

  lemma MakesCons(t: string, r: Option<seq<string>>, rest: string)
    requires t != "" && Makes(r, rest)
    ensures Makes(Prefixed([t], r), t + rest)
  {
    assert ([t] + r.value)[1..] == r.value;
  }

  lemma DottedRest(s: string, n: nat)
    requires Dotted(s) && n <= |s|
    ensures Dotted(s[n..]) && s == s[..n] + s[n..]
  {
    hide Plain;
  }

  /** So it is with the tokens of words and dots. */
  lemma {:induction false} DottedTokens(s: string)
    requires Dotted(s)
    ensures Makes(Tokens(s, 0), s)
    decreases |s|
  {
    if s == "" {
      TokensNothing();
    } else {
      var n := FirstOfDotted(s);
      DottedRest(s, n);
      hide Tokens, Dotted, Makes;
      DottedTokens(s[n..]);
      MakesCons(s[..n], Tokens(s[n..], 0), s[n..]);
    }
  }

  lemma FirstOfDotted(s: string) returns (n: nat)
    requires s != "" && Dotted(s)
    ensures 0 < n <= |s| && Tokens(s, 0) == Prefixed([s[..n]], Tokens(s[n..], 0))
  {
    n := if s[0] == '.' then 1 else Until(s, " .\"");
    assert s[0] != ' ' && s[..n] + s[n..] == s;
    assert TokenAt(s) == Token(n, s[..n]);
    hide TokenAt, Until, Tokens, Plain;
    FirstToken(s[..n], s[n..], s[..n]);
  }

  lemma {:induction false} RegexEnds(r: string)
    requires '/' !in r && BACKSLASH !in r
    ensures Scan(r + "/", '/').Quoted? && Scan(r + "/", '/').used == |r| + 1
  {
    if r != "" {
      RegexEnds(r[1..]);
      assert r[0] in r && (r + "/")[1..] == r[1..] + "/";
    }
  }

  lemma RegexAt(x: string, ts: seq<string>, size: nat)
    requires |x| >= 2 && x[0] == '/' && x[|x| - 1] == '/' && '/' !in x[1..|x| - 1] && BACKSLASH !in x
    requires TokensOk(ts, size) && ts != [] && ts[0][0] == '/' && Concat(ts) == x
    ensures MeasurementAt(ts, size) == Answer(x)
    ensures RetentionPolicyAt(ts, size) == ""
    ensures !IsSubquery(x) && !IsSubquery("")
  {
    var r := x[1..|x| - 1];
    assert x[1..] == r + "/" && x[..|x|] == x;
    RegexEnds(r);
    hide Scan, Concat, Unquoted;
  }

  lemma RegexTokens(r: string)
    requires forall i | 0 <= i < |r| :: r[i] !in " \"'/\\([{,"
    ensures
      var x := "/" + r + "/";
      && Tokens(x, 0).Some? && Concat(Tokens(x, 0).value) == x
      && Tokens(x, 0).value != [] && Tokens(x, 0).value[0][0] == '/'
      && Starts(x) && x[|x| - 1] == '/' && '/' !in x[1..|x| - 1] && BACKSLASH !in x
  {
    var x := "/" + r + "/";
    assert x[1..|x| - 1] == r;
    forall i | 0 <= i < |x| ensures (Plain(x[i]) || x[i] == '.') && x[i] != BACKSLASH {
      assert x[i] == if i == 0 || i == |x| - 1 then '/' else r[i - 1];
    }
    hide Plain, Tokens, Concat;
    DottedTokens(x);
  }

  /**
   * A regular expression without spaces, quotes, slashes, backslashes, commas and opening brackets is found with its
   * slashes, dots and all, and it has no policy.
   */
  lemma RegexFound(ps: seq<Piece>, kw: string, r: string)
    requires PiecesOk(ps + [Word(kw)]) && ToLower(kw) == "from" && Without(ps, "from") && Without(ps, "measurement")
    requires forall i | 0 <= i < |r| :: r[i] !in " \"'/\\([{,"
    ensures
      var q := Phrase(ps + [Word(kw)], "/" + r + "/");
      && MeasurementFromInfluxQL(q) == Answer("/" + r + "/")
      && RetentionPolicyFromInfluxQL(q) == Answer("")
  {
    var x := "/" + r + "/";
    var q := Phrase(ps + [Word(kw)], x);
    RegexTokens(r);
    var ts := Tokens(x, 0).value;
    assert '/' !in WHITESPACE;
    NoneOfThem(ps);
    KeywordFor(ToLower(kw));
    hide *;
    KeywordFound(ps, kw, ts, MMWORDS);
    KeywordFound(ps, kw, ts, RPWORDS);
    StatementScan(ps + [Word(kw)], x);
    PrefixedSome(PhraseTokens(ps + [Word(kw)]), ts);
    ScannedOk(q, PhraseTokens(ps + [Word(kw)]) + ts);
    OkBehind(PhraseTokens(ps + [Word(kw)]) + ts, |ps| + 1, |q|);
    RegexAt(x, ts, |q|);
    MeasurementLooked(q, PhraseTokens(ps + [Word(kw)]) + ts, |ps|, x);
    PolicyLooked(q, PhraseTokens(ps + [Word(kw)]) + ts, |ps|, "");
  }

  lemma ScannedOk(q: string, ts: seq<string>)
    requires ScanTokens(q, 0) == Some(ts)
    ensures TokensOk(ts, |q|)
  {
  }
}
