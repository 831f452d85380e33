/**
 * Exactly when the lookups of backend/influxql.go see through subqueries: parentheses are counted in names, too, so it
 * depends on whether those of the names balance.
 */
module Nesting {
  import opened Prelude
  import opened Escape
  import opened InfluxQL
  import opened Subquery
  import opened Qualified
  import opened Quote
  import opened Backslash

  /** A select from the source, under n subqueries. */
  function Under(n: nat, s: Source): string {
    SELECT + if n == 0 then Text(s) else "(" + Under(n - 1, s) + ")"
  }

  /** n subqueries opened, and then a select from x. */
  function Front(n: nat, x: string): string { SELECT + if n == 0 then x else "(" + Front(n - 1, x) }

  lemma {:induction false} UnderFront(n: nat, s: Source)
    ensures Under(n, s) == Front(n, Text(s)) + Closers(n)
  {
    hide Text;
    if n == 0 {
      assert Closers(0) == "" && Front(0, Text(s)) + "" == Front(0, Text(s));
    } else {
      UnderFront(n - 1, s);
      assert Closers(n) == Closers(n - 1) + ")";
      var f := Front(n - 1, Text(s));
      hide Closers;
      assert "(" + (f + Closers(n - 1)) + ")" == ("(" + f) + (Closers(n - 1) + ")");
      Regroup(SELECT, "(" + f, Closers(n));
    }
  }

  lemma {:induction false} FrontAppend(n: nat, x: string, y: string)
    ensures Front(n, x + y) == Front(n, x) + y
  {
    if n == 0 {
      Regroup(SELECT, x, y);
    } else {
      FrontAppend(n - 1, x, y);
      var f := Front(n - 1, x);
      Regroup("(", f, y);
      Regroup(SELECT, "(" + f, y);
    }
  }

  lemma FrontStart(n: nat, x: string)
    requires x != ""
    ensures SELECT <= Front(n, x) && |Front(n, x)| >= 15
  {
  }

  // ---------- depth ----------

  lemma {:induction false} DepthOver(a: string, b: string, d: nat)
    ensures Depth(a + b, d) == if Depth(a, d) < 0 then -1 else Depth(b, Depth(a, d))
    decreases |a|
  {
    if a == "" {
      assert a + b == b;
    } else {
      assert (a + b)[1..] == a[1..] + b;
      if a[0] == '(' {
        DepthOver(a[1..], b, d + 1);
      } else if a[0] == ')' {
        if d > 0 {
          DepthOver(a[1..], b, d - 1);
        }
      } else {
        DepthOver(a[1..], b, d);
      }
    }
  }

  lemma {:induction false} FrontDepth(n: nat, x: string, d: nat)
    ensures Depth(Front(n, x), d) == Depth(x, d + n)
  {
    PlainDepth(SELECT, d);
    if n == 0 {
      DepthOver(SELECT, x, d);
    } else {
      var f := Front(n - 1, x);
      DepthOver(SELECT, "(" + f, d);
      assert ("(" + f)[1..] == f;
      FrontDepth(n - 1, x, d + 1);
    }
  }

  /** The names of a source, one behind the other. */
  function Cat(items: seq<Item>): string {
    if items == [] then "" else (if items[0].Name? then items[0].name else "") + Cat(items[1..])
  }

  lemma IdentDepth(m: string, d: nat)
    ensures Depth(Ident(m), d) == Depth(m, d)
  {
    EscapedIs(m);
    EscapedDepth(m, d);
    var e := EscapeBy(IDENTIFIER, m);
    assert ("\"" + e + "\"")[1..] == e + "\"";
    DepthOver(e, "\"", d);
    assert "\""[1..] == "";
  }

  lemma ItemDepth(i: Item, d: nat)
    ensures Depth(ItemText(i), d) == if i.Name? then Depth(i.name, d) else d
  {
    if i.Name? {
      IdentDepth(i.name, d);
    } else {
      PlainDepth(".", d);
    }
  }

  /** Quotes, dots and escapes aside, the depth of what is written is that of the names. */
  lemma {:induction false} ItemsDepth(items: seq<Item>, d: nat)
    ensures Depth(ItemsText(items), d) == Depth(Cat(items), d)
  {
    if items != [] {
      var i, more := items[0], items[1..];
      hide Depth, ItemText;
      ItemDepth(i, d);
      DepthOver(ItemText(i), ItemsText(more), d);
      if i.Name? {
        DepthOver(i.name, Cat(more), d);
        if Depth(i.name, d) >= 0 {
          ItemsDepth(more, Depth(i.name, d));
        }
      } else {
        assert "" + Cat(more) == Cat(more);
        ItemsDepth(more, d);
      }
    }
  }

  lemma CatCons(i: Item, more: seq<Item>)
    ensures Cat([i] + more) == if i.Name? then i.name + Cat(more) else Cat(more)
  {
    assert ([i] + more)[1..] == more;
    assert "" + Cat(more) == Cat(more);
  }

  lemma CatOne(m: string)
    ensures Cat([Name(m)]) == m
  {
    assert [Name(m)][1..] == [];
    assert m + "" == m;
  }

  lemma CatIs(s: Source)
    ensures Cat(Items(s)) == Db(s) + Rp(s) + s.m
  {
    CatOne(s.m);
    var last := [Name(s.m)];
    CatCons(Period, last);
    CatCons(Period, [Period] + last);
    hide Cat;
    match s {
      case Alone(m) => assert Items(s) == last && "" + "" + m == m;
      case InPolicy(rp, m) =>
        CatCons(Name(rp), [Period] + last);
        assert Items(s) == [Name(rp)] + ([Period] + last) && "" + rp == rp;
      case InDatabase(db, m) =>
        CatCons(Name(db), [Period] + ([Period] + last));
        assert Items(s) == [Name(db)] + ([Period] + ([Period] + last)) && db + "" == db;
      case Full(db, rp, m) =>
        CatCons(Name(rp), [Period] + last);
        CatCons(Period, [Name(rp)] + ([Period] + last));
        CatCons(Name(db), [Period] + ([Name(rp)] + ([Period] + last)));
        assert Items(s) == [Name(db)] + ([Period] + ([Name(rp)] + ([Period] + last)));
        Regroup(db, rp, m);
    }
  }

  /** The parentheses of the names, one name behind the other, balance. */
  predicate Even(s: Source) { Balanced(Db(s) + Rp(s) + s.m) }

  lemma EvenIs(s: Source)
    ensures Depth(Text(s), 0) == Depth(Db(s) + Rp(s) + s.m, 0)
  {
    ItemsDepth(Items(s), 0);
    CatIs(s);
  }

  // ---------- names that leave a parenthesis open ----------

  lemma {:induction false} ClosersOpen(k: nat, b: nat)
    requires b > k
    ensures Close(Closers(k), b) == None
  {
    if k > 0 {
      assert Closers(k)[1..] == Closers(k - 1);
      ClosersOpen(k - 1, b - 1);
    }
  }

  lemma NeverCloses(n: nat, t: string)
    requires n >= 1 && Depth(t, 0) > 0
    ensures Close("(" + Front(n - 1, t) + Closers(n), 0) == None
  {
    hide *;
    var f := Front(n - 1, t);
    FrontDepth(n - 1, t, 0);
    DepthLift(t, 0, n - 1);
    PlusNone(|f|);
    CloseOver(f, Closers(n), 1, 0);
    ClosersOpen(n, 1 + Depth(f, 0));
    OpenStep(f + Closers(n));
    Regroup("(", f, Closers(n));
  }

  lemma PlusNone(k: nat)
    ensures Plus(1, Plus(k, None)) == None
  {
  }

  lemma PlusThrice(k: nat, r: Option<nat>)
    ensures Plus(1, Plus(k, Plus(1, r))) == Plus(k + 2, r)
  {
  }

  lemma OpenStep(y: string)
    ensures Close("(" + y, 0) == Plus(1, Close(y, 1))
  {
    assert ("(" + y)[1..] == y;
  }

  lemma LeftOpen(n: nat, s: Source)
    requires n >= 1 && Depth(Text(s), 0) > 0
    ensures AllFail(Under(n, s))
  {
    var f := Front(n - 1, Text(s));
    var x := ("(" + f) + Closers(n);
    UnderFront(n, s);
    NeverCloses(n, Text(s));
    FailedFirst(x);
    assert x[0] == '(' && x[|x| - 1] == ')' && Front(n, Text(s)) == SELECT + ("(" + f);
    hide *;
    Regroup(SELECT, "(" + f, Closers(n));
    SelectScan(x);
    NoSource(SELECT + x);
  }

  // ---------- names that close one too many ----------

  lemma {:induction false} CloseEnds(s: string, b: int)
    requires b > 0 && Close(s, b).Some?
    ensures s[Close(s, b).value - 1] == ')'
    decreases |s|
  {
    var c := if s[0] == '(' then b + 1 else if s[0] == ')' then b - 1 else b;
    if c != 0 {
      CloseEnds(s[1..], c);
    }
  }

  /** Only what follows the closed parenthesis can be lost in trimming. */
  lemma TrimTail(head: string, rest: string) returns (kept: string)
    requires SELECT <= head && head[|head| - 1] == ')'
    ensures Trimmed(head + rest) == head + kept && kept <= rest
  {
    var q, r1 := head + rest, TrimRight(rest, WHITESPACE);
    assert q[0] == 's' && TrimLeft(q, WHITESPACE) == q;
    TrimRightKeeps(head, rest, WHITESPACE);
    TrimRightKeeps(head, r1, "; ");
    kept := TrimRight(r1, "; ");
  }

  /** One of the failures, or what another lookup says. */
  predicate Or(a: Answer, b: Answer) { a == Illegal || a == Crashed || a == b }

  /** The outermost parenthesis of n + 1, when x closes none: never closed, or with another query in it. */
  datatype Outer = Never | Closed(inner: string, length: nat)

  predicate Closes(y: string, o: Outer) {
    match o
    case Never => Close(y, 0) == None
    case Closed(inner, length) => Close(y, 0) == Some(length) && y[..length] == "(" + inner + ")"
  }

  lemma OuterCount(n: nat, x: string, rest: string)
    requires Depth(x, 0) == 0
    ensures Close("(" + Front(n, x) + ")" + rest, 0)
      == Plus(|Front(n, x)| + 2, if n == 0 then Some(0) else Close(rest, n))
  {
    hide *;
    var f := Front(n, x);
    FrontDepth(n, x, 0);
    DepthLift(x, 0, n);
    PlusThrice(|f|, if n == 0 then Some(0) else Close(rest, n));
    CloseOver(f, ")" + rest, 1, 0);
    CloseStep(rest, n);
    OpenStep(f + (")" + rest));
    ParenApart(f, rest);
  }

  lemma ParenApart(f: string, rest: string)
    ensures "(" + f + ")" + rest == "(" + (f + (")" + rest))
  {
  }

  lemma CloseStep(rest: string, n: nat)
    ensures Close(")" + rest, 1 + n) == Plus(1, if n == 0 then Some(0) else Close(rest, n))
  {
    assert (")" + rest)[1..] == rest;
  }

  lemma OuterClose(n: nat, x: string, rest: string) returns (o: Outer, r: string)
    requires Depth(x, 0) == 0
    ensures Closes("(" + Front(n, x) + ")" + rest, o)
    ensures o.Closed? ==> o.inner == if n == 0 then Front(0, x) else Front(n, x) + (")" + r)
  {
    var f := Front(n, x);
    OuterCount(n, x, rest);
    hide Front, Depth;
    r := "";
    if n == 0 {
      o := Outer.Closed(f, |f| + 2);
      FirstPart(f, "", rest);
    } else if Close(rest, n).None? {
      o := Never;
    } else {
      var k := Close(rest, n).value;
      CloseEnds(rest, n);
      hide Close;
      r := rest[..k - 1];
      o := Outer.Closed(f + (")" + r), |f| + 2 + k);
      assert rest[..k] == r + ")";
      LongPart(f, r, rest, k);
    }
  }

  lemma FirstPart(f: string, r: string, rest: string)
    ensures ("(" + f + ")" + rest)[..|f| + 2] == "(" + f + ")"
  {
  }

  lemma LongPart(f: string, r: string, rest: string, k: nat)
    requires k <= |rest| && rest[..k] == r + ")"
    ensures ("(" + f + ")" + rest)[..|f| + 2 + k] == "(" + (f + (")" + r)) + ")"
  {
    assert ("(" + f + ")" + rest)[..|f| + 2 + k] == "(" + f + ")" + rest[..k];
  }

  lemma OuterTokens(y: string, length: nat)
    requires y != "" && y[0] == '(' && Close(y, 0) == Some(length)
    ensures Tokens(y, 0) == Prefixed([y[..length]], Tokens(y[length..], 0))
  {
    hide Close;
    assert TokenAt(y) == Token(length, y[..length]);
    hide TokenAt;
    assert y == y[..length] + y[length..];
    FirstToken(y[..length], y[length..], y[..length]);
  }

  /** The tokens behind the words of a select, when the end of the query may be trimmed. */
  lemma ScanBehind(y: string, rest: string, kept: string)
    requires y != "" && y[0] == '(' && Trimmed(SELECT + (y + rest)) == SELECT + (y + kept)
    ensures ScanTokens(SELECT + (y + rest), 0) == Lead(Tokens(y + kept, 0))
  {
    SelectTokens(y + kept);
    LeadIs(Tokens(y + kept, 0));
    hide Trimmed, Tokens, Lead;
  }

  /** Lookups in a select from a subquery go on inside it. */
  lemma GoInside(q: string, inner: string, more: seq<string>)
    requires SELECT <= inner && |inner| >= 15 && ScanTokens(q, 0) == Some(Sel(["(" + inner + ")"] + more))
    ensures DatabaseFromInfluxQL(q) == DatabaseFromInfluxQL(inner + ")")
    ensures RetentionPolicyFromInfluxQL(q) == RetentionPolicyFromInfluxQL(inner + ")")
    ensures MeasurementFromInfluxQL(q) == MeasurementFromInfluxQL(inner)
  {
    var t := "(" + inner + ")";
    SubqueryText(inner);
    assert t[0] == '(' && t[1..] == inner + ")" && t[1..|t| - 1] == inner;
    SelHas(t, more);
    ParenFirst(t, more);
    hide *;
    DatabaseIs(q, [t] + more, t);
    PolicyIs(q, [t] + more, t);
    RestOk(q, [t] + more);
    Keywords([t] + more);
    LookupIs(q, Sel([t] + more), t);
  }

  lemma ParenFirst(t: string, more: seq<string>)
    requires t != "" && t[0] == '('
    ensures forall size: nat | TokensOk([t] + more, size) ::
      DatabaseAt([t] + more, INTO, size) == t && RetentionPolicyAt([t] + more, size) == t
  {
  }

  lemma SelHas(t: string, more: seq<string>)
    requires t != "" && t[0] == '('
    ensures t in Sel([t] + more)
    ensures forall size: nat | TokensOk([t] + more, size) :: MeasurementAt([t] + more, size) == Answer(t)
  {
    assert Sel([t] + more)[3] == t;
  }

  /** Each lookup of q fails or is that of the one query, for the measurement, or of the other. */
  predicate Seen(q: string, last: string, closed: string) {
    && Or(MeasurementFromInfluxQL(q), MeasurementFromInfluxQL(last))
    && Or(DatabaseFromInfluxQL(q), DatabaseFromInfluxQL(closed))
    && Or(RetentionPolicyFromInfluxQL(q), RetentionPolicyFromInfluxQL(closed))
  }

  /** The lookups of q are those of the two. */
  predicate Goes(q: string, last: string, closed: string) {
    && MeasurementFromInfluxQL(q) == MeasurementFromInfluxQL(last)
    && DatabaseFromInfluxQL(q) == DatabaseFromInfluxQL(closed)
    && RetentionPolicyFromInfluxQL(q) == RetentionPolicyFromInfluxQL(closed)
  }

  /** The outermost of n + 1 subqueries, when its tokens are known. */
  lemma OneInside(q: string, y: string, o: Outer)
    requires y != "" && y[0] == '(' && ScanTokens(q, 0) == Lead(Tokens(y, 0))
    requires Closes(y, o) && (o.Closed? ==> SELECT <= o.inner && |o.inner| >= 15)
    ensures AllFail(q) || (o.Closed? && Goes(q, o.inner, o.inner + ")"))
  {
    match o {
      case Never =>
        FailedFirst(y);
        hide Tokens, ScanTokens, AllFail, Sel, Close;
        NoSource(q);
      case Closed(inner, length) =>
        OuterTokens(y, length);
        var later := Tokens(y[length..], 0);
        hide Tokens, ScanTokens, AllFail, Sel, Close, DatabaseFromInfluxQL, RetentionPolicyFromInfluxQL,
          MeasurementFromInfluxQL;
        if later == None {
          NoSource(q);
        } else {
          GoInside(q, inner, later.value);
        }
    }
  }

  lemma OuterScan(n: nat, x: string, rest: string) returns (kept: string)
    requires x != ""
    ensures
      var y := "(" + Front(n, x) + ")";
      && Front(n + 1, x) + (")" + rest) == SELECT + (y + rest)
      && ScanTokens(SELECT + (y + rest), 0) == Lead(Tokens(y + kept, 0))
  {
    var f := Front(n, x);
    var y := "(" + f + ")";
    assert Front(n + 1, x) == SELECT + ("(" + f);
    hide Front, Tokens, ScanTokens, Trimmed;
    assert SELECT + ("(" + f) + (")" + rest) == SELECT + (y + rest);
    kept := TrimTail(SELECT + y, rest);
    Regroup(SELECT, y, rest);
    Regroup(SELECT, y, kept);
    ScanBehind(y, rest, kept);
  }

  lemma InsideOne(n: nat, x: string, rest: string) returns (inner: string, r: string)
    requires Depth(x, 0) == 0 && x != ""
    ensures
      var q := Front(n + 1, x) + (")" + rest);
      AllFail(q) || (Goes(q, inner, inner + ")") && inner == if n == 0 then Front(0, x) else Front(n, x) + (")" + r))
  {
    var q, f := Front(n + 1, x) + (")" + rest), Front(n, x);
    FrontStart(n, x);
    hide *;
    var kept := OuterScan(n, x, rest);
    var o;
    o, r := OuterClose(n, x, kept);
    ParenStart(f, kept);
    inner := "";
    if o.Closed? {
      inner := o.inner;
      InnerStart(inner, f, r);
    }
    OneInside(q, "(" + f + ")" + kept, o);
  }

  lemma ParenStart(f: string, kept: string)
    ensures "(" + f + ")" + kept != "" && ("(" + f + ")" + kept)[0] == '('
  {
  }

  lemma {:induction false} Inside(n: nat, x: string, rest: string)
    requires Depth(x, 0) == 0 && x != ""
    ensures Seen(Front(n + 1, x) + (")" + rest), Front(0, x), Front(0, x) + ")")
    decreases n
  {
    hide DatabaseFromInfluxQL, RetentionPolicyFromInfluxQL, MeasurementFromInfluxQL, Depth, Front;
    var q := Front(n + 1, x) + (")" + rest);
    var inner, r := InsideOne(n, x, rest);
    if !AllFail(q) && n > 0 {
      Inside(n - 1, x, r);
      Inside(n - 1, x, r + ")");
      InnerClosed(Front(n, x), r);
    }
  }

  lemma InnerClosed(f: string, r: string)
    ensures f + (")" + r) + ")" == f + (")" + (r + ")"))
  {
  }

  lemma InnerStart(inner: string, f: string, r: string)
    requires SELECT <= f && |f| >= 15 && (inner == f || inner == f + (")" + r))
    ensures SELECT <= inner && |inner| >= 15
  {
  }

  // ---------- what is left of the query inside ----------

  /** Whole items, and a name whose closing quote is missing. */
  function Open(front: seq<Item>, a: string): string { ItemsText(front) + ("\"" + EscapeIdentifier(a)) }

  /** Trimming shortens the unclosed name. */
  lemma TrimOpen(head: string, a: string) returns (kept: string)
    requires SELECT <= head && head[|head| - 1] == '"'
    ensures Trimmed(head + EscapeIdentifier(a)) == head + EscapeIdentifier(kept) && kept <= a
  {
    var e := EscapeBy(IDENTIFIER, a);
    var a1 := TrimRight(a, WHITESPACE);
    kept := TrimRight(a1, "; ");
    EscapedIs(a);
    EscapedIs(kept);
    hide EscapeIdentifier, EscapeBy, TrimRight;
    TrimRightKeeps(head, e, WHITESPACE);
    EscapeTrim(a, WHITESPACE);
    TrimRightKeeps(head, EscapeBy(IDENTIFIER, a1), "; ");
    EscapeTrim(a1, "; ");
    var q := head + e;
    assert q[0] == 's' && TrimLeft(q, WHITESPACE) == q;
  }

  lemma OpenStart(front: seq<Item>, a: string)
    ensures Open(front, a) != "" && Open(front, a)[0] != ' '
  {
    hide EscapeIdentifier;
  }

  lemma OpenTokens(front: seq<Item>, a: string)
    requires ClearItems(front) && BACKSLASH !in a
    ensures Tokens(Open(front, a), 0) == Some(ItemTokens(front))
  {
    EscapedIs(a);
    UnclosedToken(a);
    var rest := "\"" + EscapeIdentifier(a);
    hide EscapeIdentifier, EscapeBy, Tokens, ItemsText, ItemTokens;
    ItemsTokens(front, rest);
    PrefixedSome(ItemTokens(front), []);
    assert ItemTokens(front) + [] == ItemTokens(front);
  }

  lemma OpenHead(front: seq<Item>, a: string)
    ensures SELECT + Open(front, a) == SELECT + ItemsText(front) + "\"" + EscapeIdentifier(a)
  {
    hide ItemsText, EscapeIdentifier;
  }

  lemma ScanTrimmed(q: string, t: string)
    requires Trimmed(q) == t
    ensures ScanTokens(q, 0) == Tokens(t, 0)
  {
    hide Trimmed, Tokens;
  }

  /** What is read is the unclosed name without what is trimmed from its end. */
  lemma OpenScanned(front: seq<Item>, a: string) returns (kept: string)
    ensures kept <= a && ScanTokens(SELECT + Open(front, a), 0) == Lead(Tokens(Open(front, kept), 0))
  {
    var head := SELECT + ItemsText(front) + "\"";
    kept := TrimOpen(head, a);
    hide *;
    OpenHead(front, a);
    OpenHead(front, kept);
    OpenStart(front, kept);
    SelectTokens(Open(front, kept));
    LeadIs(Tokens(Open(front, kept), 0));
    ScanTrimmed(SELECT + Open(front, a), SELECT + Open(front, kept));
  }

  /** Without backslashes it is no token, and ends them. */
  lemma OpenScan(front: seq<Item>, a: string)
    requires ClearItems(front) && BACKSLASH !in a
    ensures ScanTokens(SELECT + Open(front, a), 0) == Some(Sel(ItemTokens(front)))
  {
    var kept := OpenScanned(front, a);
    assert BACKSLASH !in kept;
    hide Tokens, ScanTokens, Open, ItemTokens;
    OpenTokens(front, kept);
  }

  /** Escaping on both sides of a parenthesis. */
  lemma EscapedApart(a: string, b: string)
    ensures EscapeIdentifier(a + ")" + b) == EscapeIdentifier(a) + ")" + EscapeIdentifier(b)
  {
    EscapedIs(a + ")" + b);
    EscapedIs(a);
    EscapedIs(b);
    EscapeByConcat(IDENTIFIER, a + ")", b);
    EscapeByConcat(IDENTIFIER, a, ")");
    assert EscapeBy(IDENTIFIER, ")") == ")" by {
      assert ")"[1..] == "";
    }
  }

  /** A closing parenthesis behind it is part of the unclosed name. */
  lemma OpenMore(front: seq<Item>, a: string)
    ensures SELECT + Open(front, a) + ")" == SELECT + Open(front, a + ")")
  {
    EscapedApart(a, "");
    assert a + ")" + "" == a + ")" && EscapeIdentifier("") == "";
    hide EscapeIdentifier, ItemsText;
  }

  lemma {:induction false} ItemsConcat(a: seq<Item>, b: seq<Item>)
    ensures ItemsText(a + b) == ItemsText(a) + ItemsText(b)
  {
    if a == [] {
      assert a + b == b;
    } else {
      assert (a + b)[1..] == a[1..] + b;
      ItemsConcat(a[1..], b);
    }
  }

  lemma OpenText(front: seq<Item>, back: seq<Item>, a: string, b: string)
    ensures ItemsText(front + [Name(a + ")" + b)] + back)
      == Open(front, a) + (")" + (EscapeIdentifier(b) + "\"" + ItemsText(back)))
  {
    var n := Name(a + ")" + b);
    ItemsConcat(front + [n], back);
    ItemsConcat(front, [n]);
    ItemsOne(n);
    EscapedApart(a, b);
    hide ItemsText, EscapeIdentifier;
    Reshape(ItemsText(front), EscapeIdentifier(a), EscapeIdentifier(b), ItemsText(back));
  }

  lemma ItemsOne(i: Item)
    ensures ItemsText([i]) == ItemText(i)
  {
    assert [i][1..] == [] && ItemText(i) + "" == ItemText(i);
  }

  lemma Reshape(front: string, a: string, b: string, back: string)
    ensures front + ("\"" + (a + ")" + b) + "\"") + back == front + ("\"" + a) + (")" + (b + "\"" + back))
  {
  }

  lemma OneMoreItem(i: Item, front: seq<Item>, d: nat)
    requires Depth(ItemText(i), d) >= 0
    ensures Depth(ItemsText([i] + front), d) == Depth(ItemsText(front), Depth(ItemText(i), d))
  {
    ItemsConcat([i], front);
    ItemsOne(i);
    hide ItemsText, ItemText, Depth;
    DepthOver(ItemText(i), ItemsText(front), d);
  }

  /** The first name that closes more than has been opened, up to that. */
  lemma {:induction false} ItemsExcess(items: seq<Item>, d: nat)
    returns (front: seq<Item>, back: seq<Item>, a: string, b: string)
    requires Depth(ItemsText(items), d) < 0
    ensures items == front + [Name(a + ")" + b)] + back
    ensures Depth(ItemsText(front), d) >= 0 && Depth(a, Depth(ItemsText(front), d)) == 0
    decreases |items|
  {
    var i, more := items[0], items[1..];
    assert items == [i] + more;
    ItemDepth(i, d);
    if Depth(ItemText(i), d) < 0 {
      a, b := FirstExcess(i.name, d);
      front, back := [], more;
      assert items == [] + [i] + more;
    } else {
      OneMoreItem(i, more, d);
      hide ItemsText, Depth;
      front, back, a, b := ItemsExcess(more, Depth(ItemText(i), d));
      OneMoreItem(i, front, d);
      assert items == ([i] + front) + [Name(a + ")" + b)] + back;
      front := [i] + front;
    }
  }

  lemma OpenDepth(front: seq<Item>, a: string, d: nat)
    requires Depth(ItemsText(front), d) >= 0 && Depth(a, Depth(ItemsText(front), d)) == 0
    ensures Depth(Open(front, a), d) == 0
  {
    var e := Depth(ItemsText(front), d);
    EscapedIs(a);
    EscapedDepth(a, e);
    DepthOver(ItemsText(front), "\"" + EscapeIdentifier(a), d);
    assert ("\"" + EscapeIdentifier(a))[1..] == EscapeIdentifier(a);
  }

  /** What the lookups find in such a rest, with a closing parenthesis behind it or not. */
  lemma OpenLookups(front: seq<Item>, a: string, db: string, rp: string, m: string)
    requires ClearItems(front) && BACKSLASH !in a && front != []
    requires forall size: nat | TokensOk(ItemTokens(front), size) ::
      && DatabaseAt(ItemTokens(front), INTO, size) == db && RetentionPolicyAt(ItemTokens(front), size) == rp
      && MeasurementAt(ItemTokens(front), size) == Answer(m)
    ensures
      var q1 := SELECT + Open(front, a) + ")";
      && DatabaseFromInfluxQL(q1) == (if IsSubquery(db) then DatabaseFromInfluxQL(db[1..]) else Answer(db))
      && RetentionPolicyFromInfluxQL(q1)
         == (if IsSubquery(rp) then RetentionPolicyFromInfluxQL(rp[1..]) else Answer(rp))
      && MeasurementFromInfluxQL(SELECT + Open(front, a)) == Answer(m)
  {
    OpenMore(front, a);
    OpenScan(front, a);
    OpenScan(front, a + ")");
    var ts := ItemTokens(front);
    assert ts != [];
    NoneOpens(front, 0);
    assert ts + Extra(0) == ts;
    hide *;
    DatabaseIs(SELECT + Open(front, a + ")"), ts, db);
    PolicyIs(SELECT + Open(front, a + ")"), ts, rp);
    MeasurementIs(SELECT + Open(front, a), ts, m);
  }

  // ---------- exactly when ----------

  /** The four places where a name can close too much, and what the lookups then find: never all that is named. */
  lemma NotAll(s: Source, front: seq<Item>, back: seq<Item>, a: string, b: string)
    requires Items(s) == front + [Name(a + ")" + b)] + back && ClearItems(front) && BACKSLASH !in a
    requires Depth(ItemsText(front), 0) >= 0 && Depth(a, Depth(ItemsText(front), 0)) == 0
    ensures
      var x := Open(front, a);
      !(&& DatabaseFromInfluxQL(SELECT + x + ")") == Answer(Db(s))
        && RetentionPolicyFromInfluxQL(SELECT + x + ")") == Answer(Rp(s))
        && MeasurementFromInfluxQL(SELECT + x) == Answer(s.m))
  {
    if front == [] {
      OpenScan(front, a);
      assert ItemTokens(front) == [];
      hide *;
      NoSource(SELECT + Open(front, a));
    } else {
      FrontAt(s, front, back, a, b);
    }
  }

  lemma AtOne(x: string, size: nat)
    requires TokensOk(ItemTokens([Name(x), Period]), size)
    ensures DatabaseAt(ItemTokens([Name(x), Period]), INTO, size) == ""
    ensures RetentionPolicyAt(ItemTokens([Name(x), Period]), size) == ""
    ensures MeasurementAt(ItemTokens([Name(x), Period]), size) == Answer(x)
  {
    var ts := ItemTokens([Name(x), Period]);
    hide InQuotes, Unquoted, ItemTokens;
    assert ts[0] == InQuotes(x) && ts[1] == ".";
  }

  lemma AtOneDotted(x: string, size: nat)
    requires TokensOk(ItemTokens([Name(x), Period, Period]), size)
    ensures DatabaseAt(ItemTokens([Name(x), Period, Period]), INTO, size) == x
    ensures RetentionPolicyAt(ItemTokens([Name(x), Period, Period]), size) == ""
    ensures MeasurementAt(ItemTokens([Name(x), Period, Period]), size) == Answer(".")
  {
    var ts := ItemTokens([Name(x), Period, Period]);
    assert Unquoted(".") == ".";
    hide InQuotes, Unquoted, ItemTokens;
    assert ts[0] == InQuotes(x) && ts[1] == "." == ts[2];
  }

  lemma AtTwo(x: string, y: string, size: nat)
    requires TokensOk(ItemTokens([Name(x), Period, Name(y), Period]), size)
    ensures DatabaseAt(ItemTokens([Name(x), Period, Name(y), Period]), INTO, size) == x
    ensures RetentionPolicyAt(ItemTokens([Name(x), Period, Name(y), Period]), size) == x
    ensures MeasurementAt(ItemTokens([Name(x), Period, Name(y), Period]), size) == Answer(y)
  {
    var ts := ItemTokens([Name(x), Period, Name(y), Period]);
    hide InQuotes, Unquoted, ItemTokens;
    assert ts[0] == InQuotes(x) && ts[1] == "." == ts[3] && ts[2] == InQuotes(y);
  }

  /** The front of a source before one of its names. */
  lemma Fronts(s: Source, front: seq<Item>, name: string, back: seq<Item>)
    requires Items(s) == front + [Name(name)] + back && front != []
    ensures
      || (s.InPolicy? && front == [Name(s.rp), Period] && name == s.m)
      || (s.InDatabase? && front == [Name(s.db), Period, Period] && name == s.m)
      || (s.Full? && front == [Name(s.db), Period] && name == s.rp)
      || (s.Full? && front == [Name(s.db), Period, Name(s.rp), Period] && name == s.m)
  {
    var k := |front|;
    assert Items(s)[k] == Name(name) && front == Items(s)[..k];
  }

  /** The same name twice closes no more at the third time than at the first. */
  lemma SameTwice(w: string)
    requires Depth(ItemsText([Name(w), Period, Name(w), Period]), 0) >= 0
    ensures Depth(w, Depth(ItemsText([Name(w), Period, Name(w), Period]), 0)) >= 0
  {
    var front := [Name(w), Period, Name(w), Period];
    ItemsDepth(front, 0);
    CatTwice(w);
    hide ItemsText, Cat, Depth;
    DepthOver(w, w, 0);
    DepthLift(w, 0, Depth(ItemsText(front), 0));
  }

  lemma CatTwice(w: string)
    ensures Cat([Name(w), Period, Name(w), Period]) == w + w
  {
    CatCons(Period, []);
    CatCons(Name(w), [Period]);
    CatCons(Period, [Name(w), Period]);
    CatCons(Name(w), [Period, Name(w), Period]);
    assert Cat([]) == "" && w + "" == w;
    hide Cat;
    assert [Name(w), Period, Name(w), Period] == [Name(w)] + [Period, Name(w), Period];
    assert [Period, Name(w), Period] == [Period] + [Name(w), Period];
    assert [Name(w), Period] == [Name(w)] + [Period] && [Period] == [Period] + [];
  }

  lemma ExcessDepth(a: string, b: string, d: nat)
    requires Depth(a, d) == 0
    ensures Depth(a + ")" + b, d) < 0
  {
    DepthOver(a + ")", b, d);
    DepthOver(a, ")", d);
  }

  lemma FrontAt(s: Source, front: seq<Item>, back: seq<Item>, a: string, b: string)
    requires Items(s) == front + [Name(a + ")" + b)] + back && front != [] && ClearItems(front) && BACKSLASH !in a
    requires Depth(ItemsText(front), 0) >= 0 && Depth(a, Depth(ItemsText(front), 0)) == 0
    ensures
      var x := Open(front, a);
      !(&& DatabaseFromInfluxQL(SELECT + x + ")") == Answer(Db(s))
        && RetentionPolicyFromInfluxQL(SELECT + x + ")") == Answer(Rp(s))
        && MeasurementFromInfluxQL(SELECT + x) == Answer(s.m))
  {
    var name := a + ")" + b;
    assert name[|a|] == ')' && ')' in name && ')' !in "." && ')' !in "";
    assert !IsSubquery("");
    Fronts(s, front, name, back);
    hide DatabaseFromInfluxQL, RetentionPolicyFromInfluxQL, MeasurementFromInfluxQL, IsSubquery, ItemsText, Open;
    hide ItemTokens, TokensOk, DatabaseAt, RetentionPolicyAt, MeasurementAt, Items, Depth, ClearItems;
    if |front| == 2 {
      var x := if s.InPolicy? then s.rp else s.db;
      forall size: nat | TokensOk(ItemTokens(front), size) {
        AtOne(x, size);
      }
      OpenLookups(front, a, "", "", x);
    } else if |front| == 3 {
      forall size: nat | TokensOk(ItemTokens(front), size) {
        AtOneDotted(s.db, size);
      }
      OpenLookups(front, a, s.db, "", ".");
    } else {
      forall size: nat | TokensOk(ItemTokens(front), size) {
        AtTwo(s.db, s.rp, size);
      }
      OpenLookups(front, a, s.db, s.db, s.rp);
      if IsSubquery(s.db) {
        Itself(s.db);
      } else if s.db == s.rp == s.m {
        SameTwice(s.m);
        ExcessDepth(a, b, Depth(ItemsText(front), 0));
      }
    }
  }

  // ---------- the theorems ----------

  lemma SelectsAreBalanced(n: nat, s: Source)
    requires Depth(Text(s), 0) == 0
    ensures Balanced(Under(n, s)) && SELECT <= Under(n, s) && |Under(n, s)| >= 15
  {
    UnderFront(n, s);
    FrontDepth(n, Text(s), 0);
    DepthLift(Text(s), 0, n);
    TextEnds(s);
    FrontStart(n, Text(s));
    hide Depth, Front, Text;
    DepthOver(Front(n, Text(s)), Closers(n), 0);
    ClosersDepth(n, n);
  }

  lemma {:induction false} ClosersDepth(k: nat, d: nat)
    requires k <= d
    ensures Depth(Closers(k), d) == d - k
  {
    if k > 0 {
      assert Closers(k)[1..] == Closers(k - 1);
      ClosersDepth(k - 1, d - 1);
    }
  }

  /** A select from another one in parentheses. */
  function Enclosed(u: string): string { SELECT + ("(" + u + ")") }

  lemma UnderIs(n: nat, s: Source)
    requires n > 0
    ensures Under(n, s) == Enclosed(Under(n - 1, s))
  {
  }

  /** A select from a balanced select in parentheses is about what that is about, whatever parentheses follow. */
  lemma FromSubquery(u: string, k: nat)
    requires Balanced(u) && SELECT <= u && |u| >= 15
    ensures Goes(Enclosed(u) + Closers(k), u, u + ")")
  {
    hide Balanced, DatabaseFromInfluxQL, RetentionPolicyFromInfluxQL, MeasurementFromInfluxQL, ScanTokens, Closers,
      Extra, Sel;
    Regroup(SELECT, "(" + u + ")", Closers(k));
    BalancedScan(u, k);
    GoInside(SELECT + (("(" + u + ")") + Closers(k)), u, Extra(k));
  }

  lemma OneThrough(n: nat, s: Source, k: nat)
    requires n > 0 && Depth(Text(s), 0) == 0
    ensures Goes(Under(n, s) + Closers(k), Under(n - 1, s), Under(n - 1, s) + ")")
  {
    SelectsAreBalanced(n - 1, s);
    UnderIs(n, s);
    hide Under, Closers, DatabaseFromInfluxQL, RetentionPolicyFromInfluxQL, MeasurementFromInfluxQL, Text, Depth,
      Balanced, Enclosed;
    FromSubquery(Under(n - 1, s), k);
  }

  /** Through balanced names the lookups come to the innermost select, two of them with closing parentheses behind. */
  lemma {:induction false} Through(n: nat, s: Source, k: nat)
    requires n > 0 && Depth(Text(s), 0) == 0
    ensures Goes(Under(n, s) + Closers(k), Under(0, s), Under(0, s) + ")")
  {
    var u := Under(n - 1, s);
    hide Under, Closers, DatabaseFromInfluxQL, RetentionPolicyFromInfluxQL, MeasurementFromInfluxQL, Text, Depth;
    OneThrough(n, s, k);
    if n > 1 {
      ClosersFew(u);
      Through(n - 1, s, 0);
      Through(n - 1, s, 1);
    }
  }

  lemma ClosersFew(u: string)
    ensures u + Closers(0) == u && u + Closers(1) == u + ")"
  {
    assert Closers(1) == ")" && Closers(0) == "";
  }

  lemma BalancedScan(u: string, k: nat)
    requires Balanced(u)
    ensures ScanTokens(SELECT + (("(" + u + ")") + Closers(k)), 0) == Some(Sel(["(" + u + ")"] + Extra(k)))
  {
    var t := "(" + u + ")";
    EarlyToken(u, Closers(k));
    ClosersToken(k);
    PrefixedSome([t], Extra(k));
    hide Tokens, ScanTokens, Extra, Balanced;
    var x := t + Closers(k);
    assert x[0] == '(' && x[|x| - 1] in "\")";
    SelectScan(x);
  }

  /** What is found through n subqueries when the names balance: as at the top of a query. */
  lemma ThroughFinds(n: nat, s: Source)
    requires n > 0 && Clear(s) && Depth(Text(s), 0) == 0
    ensures MeasurementFromInfluxQL(Under(n, s)) == Answer(s.m)
    ensures FindsAll(Under(n, s), s) <==> !IsSubquery(Db(s)) && !IsSubquery(Rp(s))
  {
    assert Under(0, s) == SELECT + Text(s);
    hide *;
    Through(n, s, 0);
    ClosersFew(Under(n, s));
    ClosersFew(Under(0, s));
    Regroup(SELECT, Text(s), Closers(0));
    Regroup(SELECT, Text(s), Closers(1));
    AtTop(s, 0);
    AtTop(s, 1);
    FindsIs(Under(n, s), s);
  }

  /** Under subqueries, where a name closes too much. */
  lemma ClosedEarly(n: nat, s: Source)
    returns (front: seq<Item>, back: seq<Item>, a: string, b: string)
    requires n >= 1 && Depth(Text(s), 0) < 0
    ensures Items(s) == front + [Name(a + ")" + b)] + back
    ensures Depth(ItemsText(front), 0) >= 0 && Depth(a, Depth(ItemsText(front), 0)) == 0
    ensures Seen(Under(n, s), SELECT + Open(front, a), SELECT + Open(front, a) + ")")
  {
    assert Text(s) == ItemsText(Items(s));
    hide *;
    front, back, a, b := ItemsExcess(Items(s), 0);
    OpenDepth(front, a, 0);
    OpenStart(front, a);
    OpenText(front, back, a, b);
    UnderFront(n, s);
    SeenEarly(n, Text(s), Open(front, a), EscapeIdentifier(b) + "\"" + ItemsText(back), Closers(n));
  }

  lemma SeenEarly(n: nat, t: string, x: string, rest: string, c: string)
    requires n >= 1 && t == x + (")" + rest) && Depth(x, 0) == 0 && x != ""
    ensures Seen(Front(n, t) + c, Front(0, x), Front(0, x) + ")")
  {
    hide *;
    FrontAppend(n, x, ")" + rest);
    Regroup(Front(n, x), ")" + rest, c);
    Regroup(")", rest, c);
    Inside(n - 1, x, rest + c);
  }

  lemma UnderTop(s: Source)
    ensures Under(0, s) == SELECT + (Text(s) + Closers(0))
  {
    assert Text(s) + Closers(0) == Text(s);
  }

  /** How an unclosed name is read up to a quote that closes it early: not as the name that it is the start of. */
  lemma ReadEarly(kept: string, text: string, rest: string, m: string)
    requires EscapeBy(IDENTIFIER, kept) == Quoting('"', text) + ("\"" + rest) && kept <= m
    ensures text != m && Quotes(rest) < Quotes(m)
  {
    var t, b := Quoting('"', text), m[|kept|..];
    assert m == kept + b;
    EscapeByConcat(['"', BACKSLASH], kept, b);
    QuotingLonger(kept);
    QuotesEscaped(IDENTIFIER, kept);
    QuotesConcat(t, ['"'] + rest);
    QuotesConcat(['"'], rest);
    QuotesConcat(kept, b);
    assert ['"'][1..] == [];
    hide Quotes, EscapeBy;
  }

  lemma FewerInTokens(m: string, rest: string, more: seq<string>)
    requires Quotes(rest) < Quotes(m) && Tokens(rest, 0) == Some(more)
    ensures Fewer(more, m)
  {
    TokensQuotes(rest);
    assert TokensOk(more, |rest|);
    hide Tokens, Quotes, Unquoted, Concat;
    forall i | 0 <= i < |more| ensures Quotes(Unquoted(more[i])) < Quotes(m) {
      ConcatHas(more, i);
      UnquotedQuotes(more[i]);
    }
  }

  /** A select from an unclosed name is not about a name that it is the start of. */
  lemma OpenLost(a: string, m: string)
    requires a <= m
    ensures MeasurementFromInfluxQL(SELECT + Open([], a)) != Answer(m)
  {
    var q := SELECT + Open([], a);
    var kept := OpenScanned([], a);
    OpenNothing(kept);
    EscapedIs(kept);
    var r := ReadStream(EscapeIdentifier(kept));
    if r.Reads? && Tokens(r.rest, 0).Some? {
      var more := Tokens(r.rest, 0).value;
      ReadEarly(kept, r.text, r.rest, m);
      hide *;
      PrefixedSome([InQuotes(r.text)], more);
      FewerInTokens(m, r.rest, more);
      NoFront(r.text, more);
      LostBehind(m, q, [], r.text, more);
    } else {
      hide Tokens, ScanTokens, DatabaseFromInfluxQL, RetentionPolicyFromInfluxQL, MeasurementFromInfluxQL, Sel, Open;
      NoSource(q);
    }
  }

  lemma OpenNothing(a: string)
    ensures Open([], a) == "\"" + EscapeIdentifier(a)
  {
    hide EscapeIdentifier;
  }

  /**
   * Through n subqueries the lookup finds a measurement exactly when it has no backslash and the parentheses in its
   * name balance; at the top of a query the parentheses do not matter.
   */
  lemma NestedExact(n: nat, m: string)
    ensures
      MeasurementFromInfluxQL(Under(n, Alone(m))) == Answer(m) <==> BACKSLASH !in m && (n == 0 || Balanced(m))
  {
    var s := Alone(m);
    OneItem(m);
    UnderTop(s);
    IdentExact(m);
    if n > 0 {
      EvenIs(s);
      assert "" + "" + m == m;
      hide DatabaseFromInfluxQL, RetentionPolicyFromInfluxQL, MeasurementFromInfluxQL, Under, Depth, Text, Closers,
        Front, Open;
      if Depth(Text(s), 0) == 0 {
        Through(n, s, 0);
        ClosersFew(Under(n, s));
      } else if Depth(Text(s), 0) > 0 {
        LeftOpen(n, s);
      } else {
        var front, back, a, b := ClosedEarly(n, s);
        AloneFront(m, front, a + ")" + b, back);
        OpenLost(a, m);
      }
    }
  }

  lemma AloneFront(m: string, front: seq<Item>, name: string, back: seq<Item>)
    requires Items(Alone(m)) == front + [Name(name)] + back
    ensures front == [] && name == m
  {
    assert |Items(Alone(m))| == 1 && Items(Alone(m))[0] == Name(m);
  }
}
