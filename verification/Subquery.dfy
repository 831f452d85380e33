/** Selects, their tokens, and parentheses that balance: what the lookups in queries and subqueries rest on. */
module Subquery {
  import opened Prelude
  import opened Escape
  import opened Quote
  import opened InfluxQL

  const SELECT := "select * from "

  /** The measurement as an identifier in double quotes. */
  function Ident(m: string): string { "\"" + EscapeIdentifier(m) + "\"" }

  // ---------- scanning ----------

  /** A character that starts a plain word and does not end one. */
  predicate Plain(c: char) { c !in " .\"'([{," }

  lemma {:induction false} UntilAll(w: string, rest: string, cs: string)
    requires forall i | 0 <= i < |w| :: w[i] !in cs
    requires rest != "" ==> rest[0] in cs
    ensures Until(w + rest, cs) == |w|
  {
    if w == "" {
      assert w + rest == rest;
    } else {
      assert (w + rest)[1..] == w[1..] + rest;
      UntilAll(w[1..], rest, cs);
    }
  }

  lemma WordToken(w: string, rest: string)
    requires w != "" && (forall i | 0 <= i < |w| :: Plain(w[i])) && (rest != "" ==> rest[0] == ' ')
    ensures Tokens(w + rest, 0) == Prefixed([w], Tokens(rest, 0))
  {
    var s := w + rest;
    UntilAll(w, rest, " .\"");
    assert s[0] == w[0] && Plain(w[0]);
    assert Spaces(s) == 0 && s[0..] == s;
    assert s[..|w|] == w && s[|w|..] == rest;
    assert ScanToken(s) == Token(|w|, w);
  }

  lemma SpaceScanned(s: string)
    requires s != "" && s[0] != ' '
    ensures
      ScanToken(" " + s) ==
      match ScanToken(s)
      case Token(n, text) => Token(1 + n, text)
      case t => t
  {
    hide TokenAt;
    var t := " " + s;
    assert t[1..] == s && Spaces(s) == 0 && Spaces(t) == 1 && s[0..] == s;
  }

  lemma TokensStep(s: string)
    ensures ScanToken(s).Crash? ==> Tokens(s, 0) == None
    ensures ScanToken(s).Nothing? || ScanToken(s).Failed? ==> Tokens(s, 0) == Some([])
    ensures ScanToken(s).Token? ==>
      Tokens(s, 0) == Prefixed([ScanToken(s).text], Tokens(s[ScanToken(s).advance..], 0))
  {
    hide ScanToken;
  }

  lemma SkipSpace(s: string)
    requires s != "" && s[0] != ' '
    ensures Tokens(" " + s, 0) == Tokens(s, 0)
  {
    var t := " " + s;
    SpaceScanned(s);
    TokensStep(s);
    TokensStep(t);
    hide ScanToken, Tokens, Prefixed;
    if ScanToken(s).Token? {
      var n := ScanToken(s).advance;
      assert t[1 + n..] == s[n..];
    }
  }

  predicate IsWord(w: string) { w != "" && forall i | 0 <= i < |w| :: Plain(w[i]) }

  /** A word and a space in front of something that starts a token. */
  function Led(w: string, s: string): string { w + (" " + s) }

  predicate Starts(s: string) { s != "" && s[0] != ' ' }

  lemma WordThen(w: string, s: string)
    requires IsWord(w) && Starts(s)
    ensures Tokens(Led(w, s), 0) == Prefixed([w], Tokens(s, 0)) && Starts(Led(w, s))
  {
    hide Tokens;
    WordToken(w, " " + s);
    SkipSpace(s);
  }

  lemma SelectWords(x: string)
    ensures IsWord("select") && IsWord("*") && IsWord("from")
    ensures SELECT + x == Led("select", Led("*", Led("from", x)))
  {
  }

  /** The three words in front of what is selected from. */
  lemma SelectTokens(x: string)
    requires x != "" && x[0] != ' '
    ensures Tokens(SELECT + x, 0) == Prefixed(["select", "*", "from"], Tokens(x, 0))
  {
    assert Starts(x);
    SelectWords(x);
    hide *;
    WordThen("from", x);
    WordThen("*", Led("from", x));
    WordThen("select", Led("*", Led("from", x)));
    PrefixedThrice("select", "*", "from", Tokens(x, 0));
  }

  lemma PrefixedThrice(a: string, b: string, c: string, r: Option<seq<string>>)
    ensures Prefixed([a], Prefixed([b], Prefixed([c], r))) == Prefixed([a, b, c], r)
  {
    PrefixedTwice([b], [c], r);
    PrefixedTwice([a], [b, c], r);
    assert [b] + [c] == [b, c] && [a] + [b, c] == [a, b, c];
  }

  lemma TokensNothing()
    ensures Tokens("", 0) == Some([])
  {
  }

  /** Without backslashes, escaping quotes is all the quoting there is. */
  lemma {:induction false} QuotingNoBackslash(m: string)
    requires BACKSLASH !in m
    ensures Quoting('"', m) == EscapeIdentifier(m)
  {
    EscaperIs(IDENTIFIER, m);
    SameEscapes(m);
  }

  lemma {:induction false} SameEscapes(m: string)
    requires BACKSLASH !in m
    ensures EscapeBy(['"', BACKSLASH], m) == EscapeBy(IDENTIFIER, m)
  {
    if m != "" {
      SameEscapes(m[1..]);
    }
  }

  // ---------- parentheses ----------

  function Plus(n: nat, r: Option<nat>): Option<nat> {
    if r.Some? then Some(n + r.value) else None
  }

  /** The depth after s, or -1 if a parenthesis is closed in s that was not opened in it. */
  function Depth(s: string, d: nat): (r: int)
    ensures r >= -1
  {
    if s == "" then d
    else if s[0] == '(' then Depth(s[1..], d + 1)
    else if s[0] == ')' then (if d == 0 then -1 else Depth(s[1..], d - 1))
    else Depth(s[1..], d)
  }

  predicate Balanced(s: string) { Depth(s, 0) == 0 }

  /** Counting passes over a text that closes nothing it has not opened. */
  lemma {:induction false} CloseOver(s: string, rest: string, base: nat, d: nat)
    requires base > 0 && Depth(s, d) >= 0
    ensures Close(s + rest, base + d) == Plus(|s|, Close(rest, base + Depth(s, d)))
    decreases |s|
  {
    if s == "" {
      assert s + rest == rest;
    } else {
      assert (s + rest)[1..] == s[1..] + rest;
      CloseOver(s[1..], rest, base, if s[0] == '(' then d + 1 else if s[0] == ')' then d - 1 else d);
    }
  }

  /** What does not close more than it opens goes on not to, started deeper. */
  lemma {:induction false} DepthLift(s: string, d: nat, e: nat)
    requires Depth(s, d) >= 0
    ensures Depth(s, d + e) == Depth(s, d) + e
    decreases |s|
  {
    if s != "" {
      DepthLift(s[1..], if s[0] == '(' then d + 1 else if s[0] == ')' then d - 1 else d, e);
    }
  }

  /** Escaping adds no parentheses. */
  lemma {:induction false} EscapedDepth(m: string, d: nat)
    ensures Depth(EscapeBy(IDENTIFIER, m), d) == Depth(m, d)
    decreases |m|
  {
    if m != "" {
      var t := EscapeBy(IDENTIFIER, m[1..]);
      var e := EscapeBy(IDENTIFIER, m);
      if m[0] == '"' {
        assert e == ['\\', '"'] + t && e[1..] == ['"'] + t && e[1..][1..] == t;
      } else {
        assert e[1..] == t;
      }
      if m[0] == '(' {
        EscapedDepth(m[1..], d + 1);
      } else if m[0] == ')' {
        if d > 0 {
          EscapedDepth(m[1..], d - 1);
        }
      } else {
        EscapedDepth(m[1..], d);
      }
    }
  }

  lemma {:induction false} PlainDepth(s: string, d: nat)
    requires '(' !in s && ')' !in s
    ensures Depth(s, d) == d
  {
    if s != "" {
      PlainDepth(s[1..], d);
    }
  }

  // ---------- the lookup ----------

  lemma TrimmedSelect(x: string)
    requires x != "" && x[|x| - 1] in "\")"
    ensures Trimmed(SELECT + x) == SELECT + x
  {
    var s := SELECT + x;
    assert s[0] == 's' && s[|s| - 1] == x[|x| - 1];
    assert TrimLeft(s, WHITESPACE) == s && TrimRight(s, WHITESPACE) == s && TrimRight(s, "; ") == s;
  }

  lemma LowerWords()
    ensures ToLower("select") == "select" && ToLower("*") == "*" && ToLower("from") == "from"
  {
  }

  lemma ScanTokensIs(q: string)
    ensures Trimmed(q) == q ==> ScanTokens(q, 0) == Tokens(q, 0)
  {
    hide Trimmed, Tokens;
  }

  lemma SubqueryText(q: string)
    requires |q| >= 15 && SELECT <= q
    ensures IsSubquery("(" + q + ")") && TokenOk("(" + q + ")")
  {
    var t := "(" + q + ")";
    assert t[0] == '(' && t[1..] == q + ")" && q[0] == 's';
    var u := q + ")";
    assert u[0] == 's' && TrimLeft(u, "( ") == u && TrimLeft(t, "( ") == TrimLeft(t[1..], "( ");
    var l := ToLower(u);
    assert forall i | 0 <= i < 7 :: u[i] == SELECT[i];
    assert SELECT[..7] == "select ";
    assert l[..7] == "select ";
  }

  lemma FailedFirst(x: string)
    requires x != "" && x[0] == '(' && Close(x, 0) == None
    ensures Tokens(x, 0) == Some([])
  {
    hide Close;
    assert Spaces(x) == 0 && x[0..] == x;
  }

  // ---------- a measurement that closes what it has not opened ----------

  /** Up to the first parenthesis that closes too much. */
  lemma {:induction false} FirstExcess(s: string, d: nat) returns (a: string, b: string)
    requires Depth(s, d) < 0
    ensures s == a + ")" + b && Depth(a, d) == 0
    decreases |s|
  {
    if s[0] == ')' && d == 0 {
      a, b := "", s[1..];
      assert s == "" + ")" + b;
    } else {
      a, b := FirstExcess(s[1..], if s[0] == '(' then d + 1 else if s[0] == ')' then d - 1 else d);
      assert s == [s[0]] + a + ")" + b;
      assert ([s[0]] + a)[1..] == a;
      a := [s[0]] + a;
    }
  }

  lemma {:induction false} EscapeTrim(a: string, cs: string)
    requires '"' !in cs && BACKSLASH !in cs
    ensures TrimRight(EscapeBy(IDENTIFIER, a), cs) == EscapeBy(IDENTIFIER, TrimRight(a, cs))
    decreases |a|
  {
    if a != "" {
      var b, c := a[..|a| - 1], a[|a| - 1];
      assert a == b + [c];
      EscapeByConcat(IDENTIFIER, b, [c]);
      assert [c][1..] == "" && EscapeBy(IDENTIFIER, "") == "";
      var e := EscapeBy(IDENTIFIER, b);
      assert EscapeBy(IDENTIFIER, a) == if c == '"' then e + ['\\', '"'] else e + [c];
      if c in cs {
        assert (e + [c])[..|e + [c]| - 1] == e;
        EscapeTrim(b, cs);
      }
    }
  }

  lemma {:induction false} TrimRightKeeps(head: string, s: string, cs: string)
    requires head != "" && head[|head| - 1] !in cs
    ensures TrimRight(head + s, cs) == head + TrimRight(s, cs)
    decreases |s|
  {
    if s == "" {
      assert head + s == head;
    } else if s[|s| - 1] in cs {
      var t := head + s;
      assert t[..|t| - 1] == head + s[..|s| - 1];
      TrimRightKeeps(head, s[..|s| - 1], cs);
    }
  }

  lemma EscapedIs(a: string)
    ensures EscapeIdentifier(a) == EscapeBy(IDENTIFIER, a)
  {
    EscaperIs(IDENTIFIER, a);
  }

  lemma UnclosedToken(a: string)
    requires BACKSLASH !in a
    ensures Tokens("\"" + EscapeBy(IDENTIFIER, a), 0) == Some([])
  {
    var x := "\"" + EscapeBy(IDENTIFIER, a);
    SameEscapes(a);
    ScanExact('"', a, Ended);
    assert Quoting('"', a) + "" == x[1..];
    assert Spaces(x) == 0 && x[0..] == x;
  }

  /** A balanced query in parentheses is one token, whatever follows. */
  lemma EarlyToken(q: string, rest: string)
    requires Balanced(q)
    ensures Tokens("(" + q + ")" + rest, 0) == Prefixed(["(" + q + ")"], Tokens(rest, 0))
  {
    var t := "(" + q + ")";
    var x := t + rest;
    assert x[1..] == q + (")" + rest);
    DepthLift(q, 0, 1);
    CloseOver(q, ")" + rest, 1, 0);
    assert (")" + rest)[1..] == rest;
    assert Close(x, 0) == Some(|t|);
    assert x[..|t|] == t && x[|t|..] == rest;
    assert Spaces(x) == 0 && x[0..] == x;
  }

  lemma ThirdKeyword(all: seq<string>, words: seq<string>)
    requires |all| >= 4 && ToLower(all[0]) !in words && ToLower(all[1]) !in words && ToLower(all[2]) in words
    ensures FindKeyword(all, words) == Some(2)
  {
    hide ToLower;
    var a1, a2 := all[1..], all[2..];
    assert a1[0] == all[1] && a1[1..] == a2 && a2[0] == all[2];
    assert FindKeyword(a2, words) == Some(0);
    assert FindKeyword(a1, words) == Some(1);
  }

  lemma KeywordIn(all: seq<string>)
    requires |all| >= 4 && all[0] == "select" && all[1] == "*" && all[2] == "from"
    ensures FindKeyword(all, MMWORDS) == Some(2)
  {
    LowerWords();
    hide ToLower, FindKeyword;
    assert "from" in MMWORDS;
    ThirdKeyword(all, MMWORDS);
  }
}
