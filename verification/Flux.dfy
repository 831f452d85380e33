/** The measurement of a Flux query (backend/flux.go). */
module Flux {
  import opened Prelude
  import opened Escape
  import opened Quote
  import opened InfluxQL
  import opened Subquery

  // ---------- finding and splitting ----------

  predicate At(s: string, sep: string, i: nat) { i + |sep| <= |s| && s[i..i + |sep|] == sep }

  ghost predicate Free(s: string, sep: string) { forall i: nat :: !At(s, sep, i) }

  /** strings.Index: the first occurrence. */
  function Index(s: string, sep: string): (r: Option<nat>)
    ensures r.Some? ==> At(s, sep, r.value)
    ensures forall i: nat | r.Some? ==> i < r.value :: !At(s, sep, i)
  {
    if sep <= s then Some(0)
    else if s == "" then None
    else
      var r := Index(s[1..], sep);
      assert forall i: nat | i > 0 :: At(s, sep, i) ==> At(s[1..], sep, i - 1) by {
        forall i: nat | i > 0 && At(s, sep, i) ensures At(s[1..], sep, i - 1) {
          assert s[1..][i - 1..i - 1 + |sep|] == s[i..i + |sep|];
        }
      }
      if r.Some? then
        assert s[1..][r.value..r.value + |sep|] == s[1 + r.value..1 + r.value + |sep|];
        Some(1 + r.value)
      else None
  }

  function Split(s: string, sep: string): (items: seq<string>)
    requires sep != ""
    ensures items != []
    decreases |s|
  {
    match Index(s, sep)
    case None => [s]
    case Some(i) => [s[..i]] + Split(s[i + |sep|..], sep)
  }

  const DOTTED := "._measurement"
  const BRACKETED := "[\"_measurement\"]"

  function Items(query: string): seq<string> {
    var items := Split(query, DOTTED);
    if |items| < 2 then Split(query, BRACKETED) else items
  }

  // ---------- the lookup ----------

  datatype FluxError = GetMeasurement | EqualMeasurement | MultiMeasurements | BadQuote(error: Error)

  /** The measurement, an error, or an index out of range when nothing follows the comparison. */
  datatype Lookup = Found(meas: string) | NotFound(error: FluxError) | OutOfRange

  function ParseComparison(item: string): Lookup {
    var str := TrimSpace(item);
    if !("==" <= str) then NotFound(EqualMeasurement)
    else
      var s := TrimLeft(str, "= ");
      if s == "" then OutOfRange
      else if s[0] != '"' then NotFound(GetMeasurement)
      else
        match FindEndWithQuote(s, '"')
        case Panic => OutOfRange
        case Quoted(n, _, err) =>
          if err.Some? then NotFound(BadQuote(err.value)) else Found(UnescapeIdentifier(s[1..n - 1]))
  }

  function ParseQueryMeasurement(query: string): Lookup {
    var items := Items(query);
    if |items| < 2 then NotFound(GetMeasurement)
    else if |items| > 2 then NotFound(MultiMeasurements)
    else ParseComparison(items[1])
  }

  // ---------- what is read between the quotes ----------

  /** Every run of backslashes is even: they can be read in pairs. */
  predicate Doubled(m: string)
    decreases |m|
  {
    if m == "" then true
    else if m[0] == BACKSLASH then |m| > 1 && m[1] == BACKSLASH && Doubled(m[2..])
    else Doubled(m[1..])
  }

  function Prep(a: string, r: Option<string>): Option<string> {
    if r.Some? then Some(a + r.value) else None
  }

  /** The text of a measurement whose opening quote has been passed: it is not what Scan reads, but unescaped again. */
  function Raw(s: string): Option<string> {
    match Scan(s, '"')
    case Panic => None
    case Quoted(n, _, err) => if err.None? then Some(UnescapeBy(IDENTIFIER, s[..n - 1])) else None
  }

  lemma RawStep(c: char, s: string)
    ensures Raw("\"" + s) == Some("")
    ensures c == '"' ==> Raw([BACKSLASH, c] + s) == Prep([c], Raw(s))
    ensures c == BACKSLASH ==> Raw([BACKSLASH, c] + s) == Prep([BACKSLASH, c], Raw(s))
    ensures c != '"' && c != BACKSLASH ==> Raw([BACKSLASH, c] + s) == None && Raw([c] + s) == Prep([c], Raw(s))
  {
    var t, u := [c] + s, [BACKSLASH, c] + s;
    assert t[1..] == s && u[2..] == s && ("\"" + s)[..0] == "";
    match Scan(s, '"') {
      case Panic =>
      case Quoted(n, _, err) =>
        if err.None? {
          RawEscapes(c, s[..n - 1]);
          assert t[..n] == [c] + s[..n - 1] && u[..n + 1] == [BACKSLASH, c] + s[..n - 1];
        }
    }
  }

  lemma RawEscapes(c: char, raw: string)
    ensures c == '"' ==> UnescapeBy(IDENTIFIER, [BACKSLASH, c] + raw) == [c] + UnescapeBy(IDENTIFIER, raw)
    ensures c == BACKSLASH && (raw != "" ==> raw[0] != '"') ==>
      UnescapeBy(IDENTIFIER, [BACKSLASH, c] + raw) == [BACKSLASH, c] + UnescapeBy(IDENTIFIER, raw)
    ensures c != BACKSLASH ==> UnescapeBy(IDENTIFIER, [c] + raw) == [c] + UnescapeBy(IDENTIFIER, raw)
  {
    var t, u := [c] + raw, [BACKSLASH, c] + raw;
    assert t[1..] == raw && u[2..] == raw && u[1..] == t;
  }

  lemma PrepIs(a: string, r: Option<string>, m: string)
    ensures a <= m ==> (Prep(a, r) == Some(m) <==> r == Some(m[|a|..]))
    ensures !(a <= m) ==> Prep(a, r) != Some(m)
  {
    if a <= m {
      assert m == a + m[|a|..];
      if r.Some? {
        assert (a + r.value)[|a|..] == r.value;
      }
    } else if r.Some? {
      assert a <= a + r.value;
    }
  }

  lemma EscapeCons(m: string, tail: string)
    requires m != ""
    ensures EscapeBy(IDENTIFIER, m) + tail
      == (if m[0] == '"' then [BACKSLASH, m[0]] else [m[0]]) + (EscapeBy(IDENTIFIER, m[1..]) + tail)
  {
    EscapeHead(m);
    hide *;
    Regroup(if m[0] == '"' then [BACKSLASH, m[0]] else [m[0]], EscapeBy(IDENTIFIER, m[1..]), tail);
  }

  lemma EscapeHead(m: string)
    requires m != ""
    ensures EscapeBy(IDENTIFIER, m)
      == (if m[0] == '"' then [BACKSLASH, m[0]] else [m[0]]) + EscapeBy(IDENTIFIER, m[1..])
  {
  }

  /** Between the quotes the measurement itself is found exactly when its backslashes come in pairs. */
  lemma {:induction false} RawExact(m: string, post: string)
    ensures Raw(EscapeBy(IDENTIFIER, m) + ("\"" + post)) == Some(m) <==> Doubled(m)
    decreases |m|
  {
    hide Raw, EscapeBy;
    var tail := "\"" + post;
    if m == "" {
      EscapeNothing(tail);
      RawStep('"', post);
    } else {
      var s := EscapeBy(IDENTIFIER, m[1..]) + tail;
      EscapeCons(m, tail);
      if m[0] != BACKSLASH {
        RawStep(m[0], s);
        PrepIs([m[0]], Raw(s), m);
        RawExact(m[1..], post);
      } else if |m| == 1 {
        EscapeNothing(tail);
        assert [BACKSLASH] + tail == [BACKSLASH, '"'] + post;
        RawStep('"', post);
        PrepIs("\"", Raw(post), m);
      } else {
        EscapeCons(m[1..], tail);
        assert m[1..][1..] == m[2..];
        var c, u := m[1], EscapeBy(IDENTIFIER, m[2..]) + tail;
        if c == '"' {
          assert [BACKSLASH] + s == [BACKSLASH, BACKSLASH] + ([c] + u);
          RawStep(BACKSLASH, [c] + u);
          PrepIs([BACKSLASH, BACKSLASH], Raw([c] + u), m);
        } else {
          assert [BACKSLASH] + s == [BACKSLASH, c] + u;
          RawStep(c, u);
          PrepIs([BACKSLASH, c], Raw(u), m);
          RawExact(m[2..], post);
        }
      }
    }
  }

  lemma EscapeNothing(tail: string)
    ensures EscapeBy(IDENTIFIER, "") + tail == tail
  {
  }

  // ---------- a comparison ----------

  lemma {:induction false} TrimLeftGap(gap: string, s: string, cs: string)
    requires forall i | 0 <= i < |gap| :: gap[i] in cs
    requires s != "" && s[0] !in cs
    ensures TrimLeft(gap + s, cs) == s
  {
    if gap == "" {
      assert gap + s == s;
    } else {
      assert (gap + s)[1..] == gap[1..] + s;
      TrimLeftGap(gap[1..], s, cs);
    }
  }

  /** What follows the name of the column: any whitespace, the comparison, spaces, the identifier and the rest. */
  function Compared(gap: string, gap2: string, m: string, post: string): string {
    gap + ("==" + gap2 + Ident(m) + post)
  }

  predicate Gaps(gap: string, gap2: string) {
    (forall i | 0 <= i < |gap| :: gap[i] in WHITESPACE) && (forall i | 0 <= i < |gap2| :: gap2[i] == ' ')
  }

  lemma ParseIs(item: string, s: string, m: string)
    requires "==" <= TrimSpace(item) && TrimLeft(TrimSpace(item), "= ") == "\"" + s
    ensures ParseComparison(item) == Found(m) <==> Raw(s) == Some(m)
  {
    hide TrimSpace, TrimLeft, FindEndWithQuote, Raw, UnescapeIdentifier;
    QuotedRaw(s);
  }

  lemma ComparedIs(gap: string, gap2: string, m: string, post: string)
    requires Gaps(gap, gap2)
    ensures ParseComparison(Compared(gap, gap2, m, post)) == Found(m) <==> Doubled(m)
  {
    hide EscapeIdentifier, Doubled, ParseComparison, Raw, EscapeBy, TrimLeft, TrimRight;
    var head := "==" + gap2 + Ident(m);
    var post2 := TrimRight(post, WHITESPACE);
    var s := EscapeBy(IDENTIFIER, m) + ("\"" + post2);
    TrimLeftGap(gap, head + post, WHITESPACE);
    TrimRightKeeps(head, post, WHITESPACE);
    EscapedIs(m);
    var str := head + post2;
    assert TrimSpace(Compared(gap, gap2, m, post)) == str;
    assert str == ("==" + gap2) + ("\"" + s);
    TrimLeftGap("==" + gap2, "\"" + s, "= ");
    RawExact(m, post2);
    ParseIs(Compared(gap, gap2, m, post), s, m);
  }

  lemma QuotedRaw(s: string)
    ensures
      (match FindEndWithQuote("\"" + s, '"')
       case Panic => Raw(s) == None
       case Quoted(n, _, err) =>
         Raw(s) == if err.Some? then None else Some(UnescapeIdentifier(("\"" + s)[1..n - 1])))
  {
    assert ("\"" + s)[1..] == s;
    match Scan(s, '"') {
      case Panic =>
      case Quoted(n, _, err) =>
        if err.None? {
          assert ("\"" + s)[1..n] == s[..n - 1];
          UnescapeIs(IDENTIFIER, s[..n - 1]);
        }
    }
  }

  // ---------- where the name of the column is ----------

  lemma AtChar(s: string, sep: string, i: nat, k: int)
    ensures At(s, sep, i) && 0 <= k < |sep| ==> s[i + k] == sep[k]
  {
    if At(s, sep, i) && 0 <= k < |sep| {
      assert s[i..i + |sep|][k] == s[i + k];
    }
  }

  /** An occurrence lies on one side of a character that it does not contain. */
  lemma FreeAcross(a: string, c: char, b: string, sep: string)
    requires c !in sep && sep != ""
    ensures Free(a + [c] + b, sep) <==> Free(a, sep) && Free(b, sep)
  {
    var s, n := a + [c] + b, |sep|;
    forall i: nat
      ensures i + n <= |a| ==> (At(s, sep, i) <==> At(a, sep, i))
      ensures i > |a| ==> (At(s, sep, i) <==> At(b, sep, i - |a| - 1))
      ensures i <= |a| < i + n ==> !At(s, sep, i)
    {
      if i + n <= |a| {
        assert s[i..i + n] == a[i..i + n];
      } else if i > |a| && i + n <= |s| {
        assert s[i..i + n] == b[i - |a| - 1..i - |a| - 1 + n];
      } else {
        AtChar(s, sep, i, |a| - i);
      }
    }
    if !Free(b, sep) {
      var i: nat :| At(b, sep, i);
      assert At(s, sep, |a| + 1 + i);
    }
    if !Free(a, sep) {
      var i: nat :| At(a, sep, i);
      assert At(s, sep, i);
    }
    if !Free(s, sep) {
      var i: nat :| At(s, sep, i);
      if i > |a| {
        assert At(b, sep, i - |a| - 1);
      }
    }
  }

  lemma FreeWithout(s: string, sep: string)
    requires sep != "" && forall i | 0 <= i < |s| :: s[i] != sep[0]
    ensures Free(s, sep)
  {
    forall i: nat ensures !At(s, sep, i) {
      AtChar(s, sep, i, 0);
    }
  }

  lemma {:induction false} FirstQuote(m: string) returns (k: nat)
    ensures k <= |m| && '"' !in m[..k] && (k < |m| ==> m[k] == '"')
  {
    if m == "" || m[0] == '"' {
      k := 0;
    } else {
      k := FirstQuote(m[1..]);
      k := k + 1;
      assert m[..k] == [m[0]] + m[1..][..k - 1];
    }
  }

  lemma {:induction false} EscapePlain(a: string)
    requires '"' !in a
    ensures EscapeBy(IDENTIFIER, a) == a
  {
    if a != "" {
      EscapePlain(a[1..]);
    }
  }

  /** Escaping quotes neither makes nor breaks an occurrence of a text without quotes and backslashes. */
  lemma {:induction false} FreeEscaped(m: string, sep: string)
    requires sep != "" && '"' !in sep && BACKSLASH !in sep
    ensures Free(EscapeBy(IDENTIFIER, m), sep) <==> Free(m, sep)
    decreases |m|
  {
    var k := FirstQuote(m);
    hide Free;
    if k == |m| {
      assert m[..k] == m;
      EscapePlain(m);
    } else {
      var a, b := m[..k], m[k + 1..];
      assert m == a + ['"'] + b;
      EscapePlain(a);
      EscapeByConcat(IDENTIFIER, a + ['"'], b);
      EscapeByConcat(IDENTIFIER, a, ['"']);
      QuoteEscaped();
      var e := EscapeBy(IDENTIFIER, b);
      assert EscapeBy(IDENTIFIER, m) == a + [BACKSLASH] + ("" + ['"'] + e);
      FreeEscaped(b, sep);
      FreeAcross(a, '"', b, sep);
      FreeAcross(a, BACKSLASH, "" + ['"'] + e, sep);
      FreeAcross("", '"', e, sep);
      FreeWithout("", sep);
    }
  }

  lemma QuoteEscaped()
    ensures EscapeBy(IDENTIFIER, ['"']) == [BACKSLASH, '"']
  {
    assert ['"'][1..] == "";
  }

  lemma ComparedFree(gap: string, gap2: string, m: string, post: string)
    requires Gaps(gap, gap2) && Free(post, DOTTED)
    ensures Free(Compared(gap, gap2, m, post), DOTTED) <==> Free(m, DOTTED)
  {
    hide Free, EscapeIdentifier;
    var a, e := gap + ("==" + gap2), EscapeBy(IDENTIFIER, m);
    EscapedIs(m);
    FreeWithout(a, DOTTED);
    FreeEscaped(m, DOTTED);
    FreeAcross(e, '"', post, DOTTED);
    FreeAcross(a, '"', e + ['"'] + post, DOTTED);
    assert Compared(gap, gap2, m, post) == a + ['"'] + (e + ['"'] + post);
  }

  /** A text that starts with a character it does not have again. */
  predicate OneStart(sep: string) { sep != "" && sep[0] !in sep[1..] }

  /** The first occurrence is then the one put there. */
  lemma FirstAt(pre: string, sep: string, rest: string)
    requires Free(pre, sep) && OneStart(sep)
    ensures Index(pre + sep + rest, sep) == Some(|pre|)
  {
    var s := pre + sep + rest;
    assert s[|pre|..|pre| + |sep|] == sep;
    assert At(s, sep, |pre|);
    forall i: nat | i < |pre| ensures !At(s, sep, i) {
      if i + |sep| <= |pre| {
        assert pre[i..i + |sep|] == s[i..i + |sep|];
        assert !At(pre, sep, i);
      } else {
        AtChar(s, sep, i, |pre| - i);
        assert sep[|pre| - i] == sep[1..][|pre| - i - 1];
        assert sep[|pre| - i] != sep[0] == s[|pre|];
      }
    }
  }

  lemma SplitFree(s: string, sep: string)
    requires sep != ""
    ensures Free(s, sep) <==> Split(s, sep) == [s]
    ensures !Free(s, sep) ==> |Split(s, sep)| >= 2
  {
  }

  lemma SplitOnce(pre: string, sep: string, rest: string)
    requires Free(pre, sep) && OneStart(sep)
    ensures Split(pre + sep + rest, sep) == [pre] + Split(rest, sep)
  {
    hide Free, OneStart;
    var s := pre + sep + rest;
    FirstAt(pre, sep, rest);
    assert s[..|pre|] == pre && s[|pre| + |sep|..] == rest;
  }

  /** A query that compares a column by this name once: its text in front, the comparison and its text behind. */
  function Filter(pre: string, gap: string, gap2: string, m: string, post: string): string {
    pre + DOTTED + Compared(gap, gap2, m, post)
  }

  /**
   * A Flux filter on a measurement is found to be about it exactly when the name of the column is not in the
   * measurement again and the backslashes of the measurement come in pairs.
   */
  lemma FilterExact(pre: string, gap: string, gap2: string, m: string, post: string)
    requires Free(pre, DOTTED) && Free(post, DOTTED) && Gaps(gap, gap2)
    ensures ParseQueryMeasurement(Filter(pre, gap, gap2, m, post)) == Found(m) <==> Free(m, DOTTED) && Doubled(m)
  {
    hide Free, Doubled, ParseComparison;
    var rest := Compared(gap, gap2, m, post);
    SplitOnce(pre, DOTTED, rest);
    ComparedFree(gap, gap2, m, post);
    SplitFree(rest, DOTTED);
    ComparedIs(gap, gap2, m, post);
  }

  /** Every quote in an escaped measurement has its backslash in front of it. */
  lemma {:induction false} QuotesEscaped(m: string)
    ensures forall j | 0 <= j < |EscapeBy(IDENTIFIER, m)| && EscapeBy(IDENTIFIER, m)[j] == '"' ::
      j > 0 && EscapeBy(IDENTIFIER, m)[j - 1] == BACKSLASH
  {
    if m != "" {
      QuotesEscaped(m[1..]);
    }
  }

  lemma ComparedUnbracketed(gap: string, gap2: string, m: string, post: string)
    requires Gaps(gap, gap2) && Free(post, BRACKETED) && (post != "" ==> post[0] != '_')
    ensures Free(Compared(gap, gap2, m, post), BRACKETED)
  {
    hide EscapeIdentifier, EscapeBy;
    var a, e := gap + "==" + gap2, EscapeBy(IDENTIFIER, m);
    EscapedIs(m);
    QuotesEscaped(m);
    var s := Compared(gap, gap2, m, post);
    var before := |a| + 1 + |e|;
    assert s == a + "\"" + e + "\"" + post;
    forall i: nat ensures !At(s, BRACKETED, i) {
      if i > before && i + |BRACKETED| <= |s| {
        assert s[i..i + |BRACKETED|] == post[i - before - 1..i - before - 1 + |BRACKETED|];
        assert !At(post, BRACKETED, i - before - 1);
      } else {
        AtChar(s, BRACKETED, i, 0);
        AtChar(s, BRACKETED, i, 1);
        AtChar(s, BRACKETED, i, 2);
        hide At, Free;
      }
    }
  }

  lemma BracketedUndotted(pre: string, rest: string)
    requires Free(pre, DOTTED) && Free(rest, DOTTED)
    ensures Free(pre + BRACKETED + rest, DOTTED)
  {
    var inner := "\"_measurement\"";
    assert BRACKETED == ['['] + (inner + [']']);
    FreeWithout(inner, DOTTED);
    hide Free;
    FreeAcross(inner, ']', rest, DOTTED);
    FreeAcross(pre, '[', inner + [']'] + rest, DOTTED);
    Bracketing(pre, inner, rest);
  }

  lemma Bracketing(pre: string, inner: string, rest: string)
    ensures pre + (['['] + (inner + [']'])) + rest == pre + ['['] + (inner + [']'] + rest)
  {
  }

  lemma BracketedItems(pre: string, rest: string)
    requires Free(pre, DOTTED) && Free(rest, DOTTED) && Free(pre, BRACKETED) && Free(rest, BRACKETED)
    ensures Items(pre + BRACKETED + rest) == [pre, rest]
  {
    BracketedUndotted(pre, rest);
    hide Free;
    SplitFree(pre + BRACKETED + rest, DOTTED);
    SplitOnce(pre, BRACKETED, rest);
    SplitFree(rest, BRACKETED);
  }

  // ---------- a measurement that has the dotted name in it ----------

  lemma PartOfPart(s: string, i: nat, j: nat, k: nat, n: nat)
    requires i <= j <= |s| && k + n <= j - i
    ensures s[i..j][k..k + n] == s[i + k..i + k + n]
  {
    var a, b := s[i..j][k..k + n], s[i + k..i + k + n];
    assert |a| == |b| && forall x | 0 <= x < n :: a[x] == s[i + k + x] == b[x];
  }

  lemma FreePart(s: string, sep: string, i: nat, j: nat)
    requires i <= j <= |s| && Free(s, sep)
    ensures Free(s[i..j], sep) && (j == |s| ==> Free(s[i..], sep))
  {
    var v, n := s[i..j], |sep|;
    forall k: nat ensures !At(v, sep, k) {
      if k + n <= |v| {
        PartOfPart(s, i, j, k, n);
        assert !At(s, sep, i + k);
      }
    }
    assert j == |s| ==> s[i..] == v;
  }

  /** A text without quotes at the front of what has been unescaped was there before. */
  lemma {:induction false} UnescapedFront(raw: string, p: string)
    requires '"' !in p && p <= UnescapeBy(IDENTIFIER, raw)
    ensures p <= raw
    decreases |p|
  {
    if p != "" {
      assert p[0] == UnescapeBy(IDENTIFIER, raw)[0] && p[0] in p;
      UnescapeOne(raw);
      UnescapedFront(raw[1..], p[1..]);
    }
  }

  lemma UnescapeOne(raw: string)
    ensures raw != "" && UnescapeBy(IDENTIFIER, raw)[0] != '"' ==>
      UnescapeBy(IDENTIFIER, raw) == [raw[0]] + UnescapeBy(IDENTIFIER, raw[1..])
  {
  }

  /** Unescaping does not make an occurrence of a text without quotes. */
  lemma {:induction false} FreeUnescaped(raw: string, sep: string)
    requires sep != "" && '"' !in sep && Free(raw, sep)
    ensures Free(UnescapeBy(IDENTIFIER, raw), sep)
    decreases |raw|
  {
    var u := UnescapeBy(IDENTIFIER, raw);
    if raw == "" {
    } else if raw[0] == BACKSLASH && |raw| > 1 && raw[1] in IDENTIFIER {
      FreePart(raw, sep, 2, |raw|);
      FreeUnescaped(raw[2..], sep);
      FreeWithout("", sep);
      assert raw[1] == '"';
      var v := UnescapeBy(IDENTIFIER, raw[2..]);
      assert u == [raw[1]] + v;
      hide Free;
      FreeAcross("", '"', v, sep);
      assert "" + ['"'] + v == [raw[1]] + v;
    } else {
      FreePart(raw, sep, 1, |raw|);
      FreeUnescaped(raw[1..], sep);
      FreeCons(raw[0], UnescapeBy(IDENTIFIER, raw[1..]), sep);
      assert At(raw, sep, 0) <==> sep <= raw;
      if sep <= u {
        UnescapedFront(raw, sep);
      }
    }
  }

  lemma FreeCons(c: char, s: string, sep: string)
    requires Free(s, sep)
    ensures Free([c] + s, sep) <==> !(sep <= [c] + s)
  {
    var t := [c] + s;
    forall i: nat | i > 0 ensures !At(t, sep, i) {
      if i + |sep| <= |t| {
        assert t[i..i + |sep|] == s[i - 1..i - 1 + |sep|];
        assert !At(s, sep, i - 1);
      }
    }
    assert At(t, sep, 0) <==> sep <= t;
  }

  /** What is trimmed is a part of the text. */
  lemma {:induction false} TrimLeftFree(s: string, cs: string, sep: string)
    requires Free(s, sep)
    ensures Free(TrimLeft(s, cs), sep)
  {
    if s != "" && s[0] in cs {
      FreePart(s, sep, 1, |s|);
      TrimLeftFree(s[1..], cs, sep);
    }
  }

  lemma TrimRightFree(s: string, cs: string, sep: string)
    requires Free(s, sep)
    ensures Free(TrimRight(s, cs), sep)
  {
    var t := TrimRight(s, cs);
    FreePart(s, sep, 0, |t|);
    assert s[0..|t|] == t;
  }

  /** What is found in a part of the query that is free of a name is free of it, too. */
  lemma FoundFree(item: string, sep: string)
    requires sep != "" && '"' !in sep && Free(item, sep)
    ensures ParseComparison(item).Found? ==> Free(ParseComparison(item).meas, sep)
  {
    hide Free, TrimLeft, TrimRight, UnescapeBy, FindEndWithQuote, Unescape;
    TrimLeftFree(item, WHITESPACE, sep);
    TrimRightFree(TrimLeft(item, WHITESPACE), WHITESPACE, sep);
    TrimLeftFree(TrimSpace(item), "= ", sep);
    var s := TrimLeft(TrimSpace(item), "= ");
    if ParseComparison(item).Found? {
      var n := FindEndWithQuote(s, '"').used;
      FreePart(s, sep, 1, n - 1);
      UnescapeIs(IDENTIFIER, s[1..n - 1]);
      FreeUnescaped(s[1..n - 1], sep);
    }
  }

  lemma {:induction false} LastItemFree(s: string, sep: string)
    requires sep != ""
    ensures var items := Split(s, sep); Free(items[|items| - 1], sep)
    decreases |s|
  {
    match Index(s, sep) {
      case None =>
      case Some(i) => LastItemFree(s[i + |sep|..], sep);
    }
  }

  /** A query with the dotted name in it is never found to be about a measurement with the dotted name in it. */
  lemma DottedNotFound(query: string, m: string)
    requires !Free(query, DOTTED) && !Free(m, DOTTED)
    ensures ParseQueryMeasurement(query) != Found(m)
  {
    SplitFree(query, DOTTED);
    LastItemFree(query, DOTTED);
    hide Free, ParseComparison, Split;
    var items := Split(query, DOTTED);
    if |items| == 2 {
      FoundFree(items[1], DOTTED);
    }
  }

  /** The other way to name the column leads to the same: only the occurrences of the dotted name count. */
  lemma BracketedExact(pre: string, gap: string, gap2: string, m: string, post: string)
    requires Free(pre, DOTTED) && Free(post, DOTTED) && Gaps(gap, gap2)
    requires Free(pre, BRACKETED) && Free(post, BRACKETED) && (post != "" ==> post[0] != '_')
    ensures
      ParseQueryMeasurement(pre + BRACKETED + Compared(gap, gap2, m, post)) == Found(m)
      <==> Free(m, DOTTED) && Doubled(m)
  {
    var rest := Compared(gap, gap2, m, post);
    ComparedFree(gap, gap2, m, post);
    ComparedUnbracketed(gap, gap2, m, post);
    if Free(m, DOTTED) {
      hide Free, Doubled, ParseComparison, Compared, Items, Gaps;
      BracketedItems(pre, rest);
      ComparedIs(gap, gap2, m, post);
    } else {
      NotFreeBehind(pre + BRACKETED, rest, DOTTED);
      hide Free, ParseQueryMeasurement, Compared, Gaps, Doubled;
      DottedNotFound(pre + BRACKETED + rest, m);
    }
  }

  lemma NotFreeBehind(a: string, b: string, sep: string)
    requires !Free(b, sep)
    ensures !Free(a + b, sep)
  {
    var i: nat :| At(b, sep, i);
    assert (a + b)[|a| + i..|a| + i + |sep|] == b[i..i + |sep|];
    assert At(a + b, sep, |a| + i);
  }

  lemma {:induction false} PlainDoubled(m: string)
    requires BACKSLASH !in m
    ensures Doubled(m)
  {
    if m != "" {
      PlainDoubled(m[1..]);
    }
  }

  // ---------- the body of a filter in a specification ----------

  /** How many more braces s opens than it closes, those in strings included. */
  function Excess(s: string): int {
    if s == "" then 0
    else
      var c := s[|s| - 1];
      Excess(s[..|s| - 1]) + if c == '{' then 1 else if c == '}' then -1 else 0
  }

  /** A text whose braces are all closed at its end and not before. */
  predicate Object(s: string) {
    s != "" && Excess(s) == 0 && forall k | 0 < k < |s| :: Excess(s[..k]) > 0
  }

  /** Where the body is looked for: the first brace behind the name. */
  function BodyStart(spec: string): (r: Option<nat>)
    ensures r.Some? ==> r.value < |spec| && spec[r.value] == '{'
  {
    match Index(spec, "\"body\"")
    case None => None
    case Some(i) =>
      var k := i + Until(spec[i..], "{");
      if i + 7 >= |spec| || k == |spec| then None else Some(k)
  }

  /** Brace matching in ParseSpecMeasurement: the body it cuts out is the only object that starts there. */
  method FindBody(spec: string) returns (r: Option<string>)
    ensures BodyStart(spec).None? ==> r == None
    ensures BodyStart(spec).Some? ==>
      var s := spec[BodyStart(spec).value..];
      && (r.Some? ==> r.value <= s && Object(r.value))
      && (forall n: nat | n <= |s| && Object(s[..n]) :: r == Some(s[..n]))
  {
    hide Index, Until;
    var start := BodyStart(spec);
    if start.None? {
      return None;
    }
    var i := start.value;
    ghost var s := spec[i..];
    var j, bracket := i, 0;
    assert s[..0] == "" && Excess("") == 0;
    hide BodyStart;
    while j < |spec|
      invariant i <= j <= |spec|
      invariant bracket == Excess(s[..j - i])
      invariant forall k | 0 < k <= j - i :: Excess(s[..k]) > 0
    {
      assert s[..j - i + 1][..j - i] == s[..j - i];
      if spec[j] == '{' {
        bracket := bracket + 1;
      } else if spec[j] == '}' {
        bracket := bracket - 1;
      }
      if bracket <= 0 {
        ghost var b := s[..j - i + 1];
        assert b == spec[i..j + 1];
        assert forall k | 0 < k < |b| :: b[..k] == s[..k];
        forall n: nat | n <= |s| && Object(s[..n]) ensures n == |b| {
          ObjectEnd(s, n, |b|);
        }
        return Some(spec[i..j + 1]);
      }
      j := j + 1;
    }
    r := None;
  }

  lemma ObjectEnd(s: string, n: nat, k: nat)
    requires 0 < k <= |s| && Excess(s[..k]) <= 0 && forall l | 0 < l < k :: Excess(s[..l]) > 0
    requires n <= |s| && Object(s[..n])
    ensures n == k
  {
    if k <= n {
      assert s[..n][..k] == s[..k];
    }
  }
}
