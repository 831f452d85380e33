/**
 * Text as Go holds it, one char for each byte, and the escaping of identifiers, measurements and tags (util/escape.go).
 */
module Escape {
  import opened Prelude

  /** One pair of a strings.Replacer. */
  datatype Rule = Rule(find: string, put: string)

  function FirstMatch(rules: seq<Rule>, s: string): (r: Option<Rule>)
    ensures r.Some? ==> r.value in rules && r.value.find <= s
  {
    if rules == [] then None
    else if rules[0].find <= s then Some(rules[0])
    else FirstMatch(rules[1..], s)
  }

  predicate AllNonEmpty(rules: seq<Rule>) { forall r | r in rules :: r.find != "" }

  /** Replace: from the left, without overlaps, the pairs tried in the order given. */
  function Replace(rules: seq<Rule>, s: string): string
    requires AllNonEmpty(rules)
    decreases |s|
  {
    if s == "" then ""
    else
      match FirstMatch(rules, s)
      case None => [s[0]] + Replace(rules, s[1..])
      case Some(r) => r.put + Replace(rules, s[|r.find|..])
  }

  const BACKSLASH := '\\'

  /** The replacer that puts a backslash before each of the characters given. */
  function Escaper(cs: string): (rules: seq<Rule>)
    ensures AllNonEmpty(rules)
  {
    if cs == "" then [] else [Rule([cs[0]], [BACKSLASH, cs[0]])] + Escaper(cs[1..])
  }

  /** The replacer that takes it away. */
  function Unescaper(cs: string): (rules: seq<Rule>)
    ensures AllNonEmpty(rules)
  {
    if cs == "" then [] else [Rule([BACKSLASH, cs[0]], [cs[0]])] + Unescaper(cs[1..])
  }

  const IDENTIFIER := "\""
  const MEASUREMENT := ", "
  const TAG := ", ="

  function EscapeIdentifier(s: string): string { Replace(Escaper(IDENTIFIER), s) }
  function EscapeMeasurement(s: string): string { Replace(Escaper(MEASUREMENT), s) }
  function EscapeTag(s: string): string { Replace(Escaper(TAG), s) }

  /** All three look for a backslash first and leave a text without one as it is. */
  function Unescape(cs: string, s: string): string {
    if BACKSLASH !in s then s else Replace(Unescaper(cs), s)
  }

  function UnescapeIdentifier(s: string): string { Unescape(IDENTIFIER, s) }
  function UnescapeMeasurement(s: string): string { Unescape(MEASUREMENT, s) }
  function UnescapeTag(s: string): string { Unescape(TAG, s) }

  // ---------- what the replacers do, character by character ----------

  function EscapeBy(cs: string, s: string): string {
    if s == "" then ""
    else (if s[0] in cs then [BACKSLASH, s[0]] else [s[0]]) + EscapeBy(cs, s[1..])
  }

  function UnescapeBy(cs: string, s: string): string
    decreases |s|
  {
    if s == "" then ""
    else if s[0] == BACKSLASH && |s| > 1 && s[1] in cs then [s[1]] + UnescapeBy(cs, s[2..])
    else [s[0]] + UnescapeBy(cs, s[1..])
  }

  lemma {:induction false} EscaperMatch(cs: string, s: string)
    requires s != ""
    ensures FirstMatch(Escaper(cs), s) == if s[0] in cs then Some(Rule([s[0]], [BACKSLASH, s[0]])) else None
  {
    if cs != "" {
      EscaperMatch(cs[1..], s);
      assert [cs[0]] <= s <==> cs[0] == s[0];
    }
  }

  lemma {:induction false} UnescaperMatch(cs: string, s: string)
    requires s != ""
    ensures FirstMatch(Unescaper(cs), s)
      == if s[0] == BACKSLASH && |s| > 1 && s[1] in cs then Some(Rule([BACKSLASH, s[1]], [s[1]])) else None
  {
    if cs != "" {
      UnescaperMatch(cs[1..], s);
      assert [BACKSLASH, cs[0]] <= s <==> s[0] == BACKSLASH && |s| > 1 && s[1] == cs[0];
    }
  }

  lemma {:induction false} EscaperIs(cs: string, s: string)
    ensures Replace(Escaper(cs), s) == EscapeBy(cs, s)
  {
    if s != "" {
      EscaperMatch(cs, s);
      EscaperIs(cs, s[1..]);
    }
  }

  lemma {:induction false} UnescaperIs(cs: string, s: string)
    ensures Replace(Unescaper(cs), s) == UnescapeBy(cs, s)
    decreases |s|
  {
    if s != "" {
      UnescaperMatch(cs, s);
      UnescaperIs(cs, s[1..]);
      if |s| > 1 {
        UnescaperIs(cs, s[2..]);
      }
    }
  }

  lemma {:induction false} UnescapeByPlain(cs: string, s: string)
    requires BACKSLASH !in s
    ensures UnescapeBy(cs, s) == s
  {
    if s != "" {
      UnescapeByPlain(cs, s[1..]);
    }
  }

  /** The look for a backslash is only a shortcut. */
  lemma UnescapeIs(cs: string, s: string)
    ensures Unescape(cs, s) == UnescapeBy(cs, s)
  {
    UnescaperIs(cs, s);
    if BACKSLASH !in s {
      UnescapeByPlain(cs, s);
    }
  }

  lemma {:induction false} UnescapeEscapeBy(cs: string, s: string)
    requires BACKSLASH !in cs
    ensures UnescapeBy(cs, EscapeBy(cs, s)) == s
  {
    if s != "" {
      var t := EscapeBy(cs, s[1..]);
      UnescapeEscapeBy(cs, s[1..]);
      if s[0] in cs {
        assert ([BACKSLASH, s[0]] + t)[2..] == t;
      } else {
        assert ([s[0]] + t)[1..] == t;
        EscapedStart(cs, s[1..]);
      }
    }
  }

  /** Escaped text never starts with a special character. */
  lemma EscapedStart(cs: string, s: string)
    requires BACKSLASH !in cs
    ensures EscapeBy(cs, s) != "" ==> EscapeBy(cs, s)[0] !in cs
  {
  }

  /** Unescaping undoes escaping, for all three pairs and every text, with backslashes in it or not. */
  lemma EscapesInvert(s: string)
    ensures UnescapeIdentifier(EscapeIdentifier(s)) == s
    ensures UnescapeMeasurement(EscapeMeasurement(s)) == s
    ensures UnescapeTag(EscapeTag(s)) == s
  {
    EscapePairInverts(IDENTIFIER, s);
    EscapePairInverts(MEASUREMENT, s);
    EscapePairInverts(TAG, s);
  }

  lemma EscapePairInverts(cs: string, s: string)
    requires BACKSLASH !in cs
    ensures Unescape(cs, Replace(Escaper(cs), s)) == s
  {
    EscaperIs(cs, s);
    UnescapeIs(cs, EscapeBy(cs, s));
    UnescapeEscapeBy(cs, s);
  }

  lemma {:induction false} EscapeByConcat(cs: string, a: string, b: string)
    ensures EscapeBy(cs, a + b) == EscapeBy(cs, a) + EscapeBy(cs, b)
  {
    if a == "" {
      assert a + b == b;
    } else {
      assert (a + b)[1..] == a[1..] + b;
      EscapeByConcat(cs, a[1..], b);
    }
  }
}
