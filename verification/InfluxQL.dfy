/** Tokens of InfluxQL and the lookups made in them (backend/influxql.go). */
module InfluxQL {
  import opened Prelude
  import opened Quote

  // ---------- library functions on text ----------

  const WHITESPACE := "\t\n\U{B}\U{C}\r "

  function TrimLeft(s: string, cs: string): (r: string)
    ensures |r| <= |s|
    ensures r != "" ==> r[0] !in cs
  {
    if s != "" && s[0] in cs then TrimLeft(s[1..], cs) else s
  }

  function TrimRight(s: string, cs: string): (r: string)
    ensures r <= s
    ensures r != "" ==> r[|r| - 1] !in cs
  {
    if s != "" && s[|s| - 1] in cs then TrimRight(s[..|s| - 1], cs) else s
  }

  function TrimSpace(s: string): (r: string)
    ensures |r| <= |s|
  {
    TrimRight(TrimLeft(s, WHITESPACE), WHITESPACE)
  }

  function Lower(c: char): (r: char)
    ensures r as int == c as int + if 65 <= c as int <= 90 then 32 else 0
  {
    if 'A' <= c <= 'Z' then c - 'A' + 'a' else c
  }

  function ToLower(s: string): (r: string)
    ensures |r| == |s| && forall i | 0 <= i < |s| :: r[i] == Lower(s[i])
  {
    seq(|s|, i requires 0 <= i < |s| => Lower(s[i]))
  }

  function Concat(ss: seq<string>): string {
    if ss == [] then "" else ss[0] + Concat(ss[1..])
  }

  /** How many characters come before the first one in cs: all of them when there is none. */
  function Until(s: string, cs: string): (n: nat)
    ensures n <= |s|
    ensures forall i | 0 <= i < n :: s[i] !in cs
    ensures n < |s| ==> s[n] in cs
  {
    if s == "" || s[0] in cs then 0 else 1 + Until(s[1..], cs)
  }

  // ---------- one token ----------

  /** No more tokens, a token and how far it reaches, an error, or an index out of range. */
  datatype Token = Nothing | Token(advance: nat, text: string) | Failed(error: Error) | Crash

  function Spaces(s: string): (n: nat)
    ensures n <= |s|
    ensures n < |s| ==> s[n] != ' '
  {
    if s != "" && s[0] == ' ' then 1 + Spaces(s[1..]) else 0
  }

  /** How far the parenthesis opened at the front reaches, counting parentheses and nothing else. */
  function Close(s: string, bracket: int): (r: Option<nat>)
    ensures r.Some? ==> 0 < r.value <= |s|
  {
    if s == "" then None
    else
      var b := if s[0] == '(' then bracket + 1 else if s[0] == ')' then bracket - 1 else bracket;
      if b == 0 then Some(1)
      else
        match Close(s[1..], b)
        case None => None
        case Some(n) => Some(1 + n)
  }

  /** A token: never empty, and in quotes on both sides when it starts with one. */
  predicate TokenOk(t: string) {
    t != "" && (t[0] == '"' || t[0] == '\'' ==> |t| >= 2)
  }

  function ScanToken(s: string): (r: Token)
    ensures r.Token? ==> 0 < r.advance <= |s| && TokenOk(r.text) && |r.text| <= |s|
  {
    var k := Spaces(s);
    var t := s[k..];
    if t == "" then Nothing
    else
      match TokenAt(t)
      case Token(n, text) => Token(k + n, text)
      case e => e
  }

  /** The token at the front of t, which starts with one. */
  function TokenAt(t: string): (r: Token)
    requires t != "" && t[0] != ' '
    ensures r.Token? ==> 0 < r.advance <= |t| && TokenOk(r.text) && |r.text| <= |t|
    ensures r != Nothing
  {
    if t[0] == '"' || t[0] == '\'' then
      match FindEndWithQuote(t, t[0])
      case Panic => Crash
      case Quoted(n, text, err) => if err.Some? then Failed(err.value) else Token(n, text)
    else if t[0] == '(' then
      match Close(t, 0)
      case None => Failed(Unclosed)
      case Some(n) => Token(n, t[..n])
    else if t[0] == '[' || t[0] == '{' then
      var n := Until(t, if t[0] == '[' then "]" else "}");
      if n == |t| then Failed(Unclosed) else Token(n + 1, t[..n + 1])
    else if t[0] == ',' || t[0] == '.' then Token(1, t[..1])
    else
      var n := Until(t, " .\"");
      Token(n, t[..n])
  }

  // ---------- all tokens ----------

  ghost predicate TokensOk(ts: seq<string>, size: nat) {
    forall i | 0 <= i < |ts| :: TokenOk(ts[i]) && |ts[i]| <= size
  }

  function Prefixed(a: seq<string>, r: Option<seq<string>>): Option<seq<string>> {
    if r.Some? then Some(a + r.value) else None
  }

  /** The tokens of s, at most limit of them unless that is 0; None when scanning one runs out of range. */
  function Tokens(s: string, limit: nat): (r: Option<seq<string>>)
    ensures r.Some? ==> TokensOk(r.value, |s|)
    decreases |s|
  {
    match ScanToken(s)
    case Nothing => Some([])
    case Failed(_) => Some([])
    case Crash => None
    case Token(n, text) =>
      if limit == 1 then Some([text])
      else
        Prefixed([text], Tokens(s[n..], if limit == 0 then 0 else limit - 1))
  }

  function Trimmed(q: string): (r: string)
    ensures |r| <= |q|
  {
    TrimRight(TrimSpace(q), "; ")
  }

  function ScanTokens(q: string, n: nat): (r: Option<seq<string>>)
    ensures r.Some? ==> TokensOk(r.value, |q|)
  {
    Tokens(Trimmed(q), n)
  }

  lemma PrefixedTwice(a: seq<string>, b: seq<string>, r: Option<seq<string>>)
    ensures Prefixed(a, Prefixed(b, r)) == Prefixed(a + b, r)
    ensures Prefixed([], r) == r && Prefixed(a, Some([])) == Some(a)
  {
    if r.Some? {
      assert a + (b + r.value) == a + b + r.value;
      assert [] + r.value == r.value;
    }
    assert a + [] == a;
  }

  /** ScanTokens as it runs, a token at a time. */
  method ScanTokensLoop(q: string, n: nat) returns (r: Option<seq<string>>)
    ensures r == ScanTokens(q, n)
  {
    hide ScanToken, Trimmed;
    var data := Trimmed(q);
    var tokens: seq<string> := [];
    PrefixedTwice([], [], Tokens(data, n));
    while true
      invariant n == 0 || |tokens| < n
      invariant ScanTokens(q, n) == Prefixed(tokens, Tokens(data, if n == 0 then 0 else n - |tokens|))
      decreases |data|
    {
      var t := ScanToken(data);
      PrefixedTwice(tokens, [], Some([]));
      match t {
        case Nothing => return Some(tokens);
        case Failed(_) => return Some(tokens);
        case Crash => return None;
        case Token(advance, text) =>
          PrefixedTwice(tokens, [text], Tokens(data[advance..], if n == 0 then 0 else n - |tokens| - 1));
          tokens := tokens + [text];
          if n > 0 && |tokens| == n {
            return Some(tokens);
          }
          data := data[advance..];
      }
    }
  }

  // ---------- lookups ----------

  /** A text, ErrIllegalQL, or an index out of range. */
  datatype Answer = Answer(text: string) | Illegal | Crashed

  /** The first token that is one of the keywords, in any case, and is not the last token. */
  function FindKeyword(tokens: seq<string>, keywords: seq<string>): (r: Option<nat>)
    ensures r.Some? ==> r.value + 1 < |tokens| && ToLower(tokens[r.value]) in keywords
  {
    if |tokens| < 2 then None
    else if ToLower(tokens[0]) in keywords then Some(0)
    else
      match FindKeyword(tokens[1..], keywords)
      case None => None
      case Some(i) => Some(1 + i)
  }

  /** GetIdentifierFromTokens's two loops. */
  method FindKeywordLoop(tokens: seq<string>, keywords: seq<string>) returns (r: Option<nat>)
    ensures r == FindKeyword(tokens, keywords)
  {
    var i := 0;
    assert tokens[0..] == tokens;
    while i < |tokens|
      invariant i <= |tokens|
      invariant FindKeyword(tokens, keywords) ==
        match FindKeyword(tokens[i..], keywords)
        case None => None
        case Some(k) => Some(i + k)
    {
      ghost var rest := tokens[i..];
      var j := 0;
      while j < |keywords|
        invariant j <= |keywords|
        invariant i + 1 < |tokens| ==> ToLower(tokens[i]) !in keywords[..j]
      {
        if ToLower(tokens[i]) == keywords[j] {
          if i + 1 < |tokens| {
            return Some(i);
          }
        }
        j := j + 1;
      }
      assert keywords[..j] == keywords;
      assert rest[1..] == tokens[i + 1..];
      i := i + 1;
    }
    r := None;
  }

  /** Without the quotes around it. */
  function Unquoted(t: string): (r: string)
    requires TokenOk(t)
    ensures |r| <= |t|
  {
    if t[0] == '"' || t[0] == '\'' then t[1..|t| - 1] else t
  }

  /** The keywords in front of a database, a retention policy and a measurement. */
  const INTO := "from"
  const DBWORDS := ["on", "database", INTO]
  const RPWORDS := [INTO]
  const MMWORDS := [INTO, "measurement"]

  predicate Dot(tokens: seq<string>, i: nat) { i < |tokens| && tokens[i] == "." }

  function DatabaseAt(tokens: seq<string>, keyword: string, ghost size: nat): (db: string)
    requires TokensOk(tokens, size)
    ensures |db| <= size
  {
    if tokens == [] then ""
    else if tokens[0][0] == '(' then tokens[0]
    else if
      keyword == INTO && !(|tokens| >= 4 && Dot(tokens, 1) && Dot(tokens, 3)) && !(Dot(tokens, 1) && Dot(tokens, 2))
    then
      ""
    else Unquoted(tokens[0])
  }

  function RetentionPolicyAt(tokens: seq<string>, ghost size: nat): (rp: string)
    requires TokensOk(tokens, size)
    ensures |rp| <= size
  {
    if tokens == [] then ""
    else if tokens[0][0] == '(' then tokens[0]
    else if tokens[0][0] == '/' || (Dot(tokens, 1) && Dot(tokens, 2)) then ""
    else if |tokens| >= 5 && Dot(tokens, 1) && Dot(tokens, 3) then Unquoted(tokens[2])
    else if |tokens| >= 3 && Dot(tokens, 1) then Unquoted(tokens[0])
    else ""
  }

  function MeasurementAt(tokens: seq<string>, ghost size: nat): (mm: Answer)
    requires TokensOk(tokens, size)
    ensures mm.Answer? || mm.Crashed?
  {
    if tokens == [] then Answer("")
    else if tokens[0][0] == '(' then Answer(tokens[0])
    else if tokens[0][0] == '/' then
      var mm := Concat(tokens);
      assert mm != "";
      match FindEndWithQuote(mm, '/')
      case Panic => Crashed
      case Quoted(n, _, _) => Answer(mm[..n])
    else if |tokens| >= 5 && Dot(tokens, 1) && Dot(tokens, 3) then Answer(Unquoted(tokens[4]))
    else if |tokens| >= 4 && Dot(tokens, 1) && Dot(tokens, 2) then Answer(Unquoted(tokens[3]))
    else if |tokens| >= 3 && Dot(tokens, 1) then Answer(Unquoted(tokens[2]))
    else Answer(Unquoted(tokens[0]))
  }

  predicate IsSubquery(t: string) {
    |t| > 16 && t[0] == '(' && t[|t| - 1] == ')' && "select " <= ToLower(TrimLeft(t, "( "))
  }

  /**
   * GetMeasurementFromTokens and GetMeasurementFromInfluxQL: they end on subqueries of any depth, because what is
   * looked at next is a token without its parentheses, and no token is longer than the text it was read from.
   */
  function MeasurementFromTokens(tokens: seq<string>, ghost size: nat): Answer
    requires TokensOk(tokens, size)
    decreases size, 0
  {
    match FindKeyword(tokens, MMWORDS)
    case None => Illegal
    case Some(i) =>
      var mm := MeasurementAt(tokens[i + 1..], size);
      if mm.Answer? && IsSubquery(mm.text) && mm.text in tokens then
        MeasurementFromInfluxQL(mm.text[1..|mm.text| - 1])
      else mm
  }

  function MeasurementFromInfluxQL(q: string): Answer
    decreases |q|, 1
  {
    match ScanTokens(q, 0)
    case None => Crashed
    case Some(tokens) => MeasurementFromTokens(tokens, |q|)
  }

  function DatabaseFromTokens(tokens: seq<string>, ghost size: nat): Answer
    requires TokensOk(tokens, size)
    decreases size, 0
  {
    match FindKeyword(tokens, DBWORDS)
    case None => Illegal
    case Some(i) =>
      var db := DatabaseAt(tokens[i + 1..], ToLower(tokens[i]), size);
      if IsSubquery(db) then DatabaseFromInfluxQL(db[1..]) else Answer(db)
  }

  function DatabaseFromInfluxQL(q: string): Answer
    decreases |q|, 1
  {
    match ScanTokens(q, 0)
    case None => Crashed
    case Some(tokens) => DatabaseFromTokens(tokens, |q|)
  }

  function RetentionPolicyFromTokens(tokens: seq<string>, ghost size: nat): Answer
    requires TokensOk(tokens, size)
    decreases size, 0
  {
    match FindKeyword(tokens, RPWORDS)
    case None => Illegal
    case Some(i) =>
      var rp := RetentionPolicyAt(tokens[i + 1..], size);
      if IsSubquery(rp) then RetentionPolicyFromInfluxQL(rp[1..]) else Answer(rp)
  }

  function RetentionPolicyFromInfluxQL(q: string): Answer
    decreases |q|, 1
  {
    match ScanTokens(q, 0)
    case None => Crashed
    case Some(tokens) => RetentionPolicyFromTokens(tokens, |q|)
  }
}
