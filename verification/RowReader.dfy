/**
 * A reader of line protocol that knows nothing of how a transfer writes its rows, and what it reads from them: the
 * columns that were to be tags and fields, with their names, values and types, in order.
 */
module RowReader {
  import opened Prelude
  import opened Escape
  import opened RowFormat

  /** The value of a field by the way it is written. */
  datatype Typed = Number(text: string) | Boolean(text: string) | Integer(text: string) | Text(text: string)

  datatype Point = Point(meas: string, tags: seq<(string, string)>, fields: seq<(string, Typed)>, time: string)

  // ---------- the reader ----------

  /** The text up to the first of the stops, with the escapes of cs taken out, and the rest from that stop on. */
  function Token(s: string, cs: string, stops: string): (r: (string, string))
    ensures |r.1| <= |s|
    decreases |s|
  {
    if s == "" || s[0] in stops then ("", s)
    else
      var n := if s[0] == BACKSLASH && |s| > 1 && s[1] in cs then 2 else 1;
      var (t, rest) := Token(s[n..], cs, stops);
      ([s[n - 1]] + t, rest)
  }

  predicate At(s: string, c: char) { s != "" && s[0] == c }

  function ReadTag(s: string): (r: Option<((string, string), string)>)
    ensures r.Some? ==> |r.value.1| < |s|
  {
    var (name, r1) := Token(s, ", =", ", =");
    if !At(r1, '=') then None
    else
      var (value, r2) := Token(r1[1..], ", =", ", =");
      Some(((name, value), r2))
  }

  function ReadTags(s: string): Option<(seq<(string, string)>, string)>
    decreases |s|
  {
    match ReadTag(s)
    case None => None
    case Some((t, rest)) =>
      if !At(rest, ',') then Some(([t], rest))
      else
        match ReadTags(rest[1..])
        case None => None
        case Some((ts, r)) => Some(([t] + ts, r))
  }

  /** The words for true and false. */
  predicate Word(t: string) { t in {"t", "T", "true", "True", "TRUE", "f", "F", "false", "False", "FALSE"} }

  /** A final i is an integer's, the words are booleans, and the rest is taken for numbers. */
  function TypeOf(t: string): Typed {
    if t != "" && t[|t| - 1] == 'i' then Integer(t[..|t| - 1])
    else if Word(t) then Boolean(t)
    else Number(t)
  }

  function ReadValue(s: string): (r: Option<(Typed, string)>)
    ensures r.Some? ==> |r.value.1| <= |s|
  {
    if At(s, '"') then
      var (t, r) := Token(s[1..], "\"\\", "\"");
      if r == "" then None else Some((Text(t), r[1..]))
    else
      var (t, r) := Token(s, "", ", ");
      Some((TypeOf(t), r))
  }

  function ReadField(s: string): (r: Option<((string, Typed), string)>)
    ensures r.Some? ==> |r.value.1| < |s|
  {
    var (name, r1) := Token(s, ", =", ", =");
    if !At(r1, '=') then None
    else
      match ReadValue(r1[1..])
      case None => None
      case Some((v, r2)) => Some(((name, v), r2))
  }

  function ReadFields(s: string): Option<(seq<(string, Typed)>, string)>
    decreases |s|
  {
    match ReadField(s)
    case None => None
    case Some((f, rest)) =>
      if !At(rest, ',') then Some(([f], rest))
      else
        match ReadFields(rest[1..])
        case None => None
        case Some((fs, r)) => Some(([f] + fs, r))
  }

  function TagsFrom(r: string): Option<(seq<(string, string)>, string)> {
    if At(r, ',') then ReadTags(r[1..]) else Some(([], r))
  }

  function FieldsFrom(r: string): Option<(seq<(string, Typed)>, string)> {
    if At(r, ' ') then Some(([], r)) else ReadFields(r)
  }

  /** Measurement and tags, a space, fields, a space, and the time up to the newline. */
  function ReadLine(s: string): Option<Point> {
    var (meas, r1) := Token(s, ", ", ", ");
    match TagsFrom(r1)
    case None => None
    case Some((tags, r2)) =>
      if !At(r2, ' ') then None
      else
        match FieldsFrom(r2[1..])
        case None => None
        case Some((fields, r3)) =>
          if !At(r3, ' ') then None else Some(Point(meas, tags, fields, Token(r3[1..], "", "\n").0))
  }

  // ---------- tokens ----------

  /** A backslash at the end of a text would take the stop behind it for escaped. */
  predicate Closed(s: string) { s == "" || s[|s| - 1] != BACKSLASH }

  lemma TokenStep(s: string, cs: string, stops: string)
    requires s != "" && s[0] !in stops
    ensures
      var n := if s[0] == BACKSLASH && |s| > 1 && s[1] in cs then 2 else 1;
      Token(s, cs, stops) == ([s[n - 1]] + Token(s[n..], cs, stops).0, Token(s[n..], cs, stops).1)
  {
  }

  /** One character, escaped where need be, in front of more escaped text. */
  lemma TokenCons(cs: string, stops: string, s: string, rest: string)
    requires s != "" && BACKSLASH !in stops && (s[0] in stops ==> s[0] in cs)
    requires s[0] == BACKSLASH && BACKSLASH !in cs ==> |s| > 1
    ensures
      var r := Token(EscapeBy(cs, s[1..]) + rest, cs, stops);
      Token(EscapeBy(cs, s) + rest, cs, stops) == ([s[0]] + r.0, r.1)
  {
    hide Token;
    var e := EscapeBy(cs, s[1..]);
    var t, u := e + rest, EscapeBy(cs, s) + rest;
    TokenStep(u, cs, stops);
    if s[0] in cs {
      assert u == [BACKSLASH, s[0]] + t;
      Drop([BACKSLASH, s[0]], t);
    } else {
      assert u == [s[0]] + t;
      Drop([s[0]], t);
      if s[0] == BACKSLASH {
        EscapedStart(cs, s[1..]);
        assert t[0] == e[0];
      }
    }
  }

  lemma Drop(a: string, b: string)
    ensures (a + b)[|a|..] == b && a <= a + b
  {
  }

  /** Escaped text in front of a stop is read back, when it does not hide that stop. */
  lemma {:induction false} TokenBack(cs: string, stops: string, s: string, rest: string)
    requires rest != "" && rest[0] in stops && BACKSLASH !in stops
    requires forall i | 0 <= i < |s| && s[i] in stops :: s[i] in cs
    requires BACKSLASH in cs || Closed(s)
    ensures Token(EscapeBy(cs, s) + rest, cs, stops) == (s, rest)
  {
    if s == "" {
      assert EscapeBy(cs, s) + rest == rest;
    } else {
      TokenBack(cs, stops, s[1..], rest);
      TokenCons(cs, stops, s, rest);
      assert [s[0]] + s[1..] == s;
    }
  }

  /** When it does hide it, something else is read. */
  lemma {:induction false} TokenOpen(cs: string, stops: string, s: string, rest: string)
    requires rest != "" && rest[0] in stops && rest[0] in cs && BACKSLASH !in stops && BACKSLASH !in cs
    requires forall i | 0 <= i < |s| && s[i] in stops :: s[i] in cs
    requires !Closed(s)
    ensures Token(EscapeBy(cs, s) + rest, cs, stops).0 != s
  {
    var u := EscapeBy(cs, s) + rest;
    if |s| == 1 {
      assert EscapeBy(cs, s) == s;
      TokenStep(u, cs, stops);
    } else {
      TokenOpen(cs, stops, s[1..], rest);
      TokenCons(cs, stops, s, rest);
      var t := Token(EscapeBy(cs, s[1..]) + rest, cs, stops).0;
      assert ([s[0]] + t)[1..] == t;
    }
  }

  lemma {:induction false} EscapeNothing(s: string)
    ensures EscapeBy("", s) == s
  {
    if s != "" {
      EscapeNothing(s[1..]);
    }
  }

  /** Unescaped text is read up to its first stop. */
  lemma {:induction false} TokenCut(stops: string, s: string, rest: string)
    requires BACKSLASH !in stops && exists i :: 0 <= i < |s| && s[i] in stops
    ensures |Token(s + rest, "", stops).0| < |s|
  {
    if s[0] !in stops {
      TokenCut(stops, s[1..], rest);
      TokenStep(s + rest, "", stops);
      assert (s + rest)[1..] == s[1..] + rest;
    }
  }

  lemma {:induction false} TokenPlain(stops: string, s: string, rest: string)
    requires rest != "" && rest[0] in stops
    requires forall i | 0 <= i < |s| :: s[i] !in stops
    ensures Token(s + rest, "", stops) == (s, rest)
  {
    if s == "" {
      assert s + rest == rest;
    } else {
      TokenPlain(stops, s[1..], rest);
      TokenStep(s + rest, "", stops);
      assert (s + rest)[1..] == s[1..] + rest;
      assert [s[0]] + s[1..] == s;
    }
  }

  // ---------- tags ----------

  lemma NameExact(name: string, rest: string)
    requires rest != "" && rest[0] in ", ="
    ensures Closed(name) ==> Token(EscapeTag(name) + rest, ", =", ", =") == (name, rest)
    ensures Token(EscapeTag(name) + rest, ", =", ", =").0 == name ==> Closed(name)
  {
    EscaperIs(TAG, name);
    if Closed(name) {
      TokenBack(TAG, ", =", name, rest);
    } else {
      TokenOpen(TAG, ", =", name, rest);
    }
  }

  lemma TagExact(name: string, value: string, rest: string)
    requires rest != "" && rest[0] in ", "
    ensures Closed(name) && Closed(value) ==> ReadTag(TagText(name, value) + rest) == Some(((name, value), rest))
    ensures
      var r := ReadTag(TagText(name, value) + rest);
      r.Some? && r.value.0 == (name, value) ==> Closed(name) && Closed(value)
  {
    hide Token, EscapeTag;
    var more := "=" + (EscapeTag(value) + rest);
    assert TagText(name, value) + rest == EscapeTag(name) + more;
    assert more[1..] == EscapeTag(value) + rest;
    NameExact(name, more);
    NameExact(value, rest);
  }

  predicate TagTexts(ss: seq<string>, ts: seq<(string, string)>) {
    |ss| == |ts| && forall j | 0 <= j < |ts| :: ss[j] == TagText(ts[j].0, ts[j].1)
  }

  predicate TagsClosed(ts: seq<(string, string)>) {
    forall j | 0 <= j < |ts| :: Closed(ts[j].0) && Closed(ts[j].1)
  }

  lemma JoinNext(ss: seq<string>, rest: string)
    requires |ss| > 1
    ensures Join(ss, ",") + rest == ss[0] + ("," + (Join(ss[1..], ",") + rest))
  {
  }

  lemma JoinLast(ss: seq<string>, rest: string)
    requires |ss| == 1
    ensures Join(ss, ",") + rest == ss[0] + rest
  {
  }

  lemma {:induction false} TagsExact(ss: seq<string>, ts: seq<(string, string)>, rest: string)
    requires TagTexts(ss, ts) && ts != [] && At(rest, ' ')
    ensures TagsClosed(ts) ==> ReadTags(Join(ss, ",") + rest) == Some((ts, rest))
    ensures
      var r := ReadTags(Join(ss, ",") + rest);
      r.Some? && r.value.0 == ts ==> TagsClosed(ts)
  {
    hide ReadTag, TagText, Closed, Join;
    if |ts| == 1 {
      JoinLast(ss, rest);
      TagExact(ts[0].0, ts[0].1, rest);
      assert [ts[0]] == ts;
    } else {
      var tail := Join(ss[1..], ",") + rest;
      JoinNext(ss, rest);
      assert ("," + tail)[1..] == tail;
      TagExact(ts[0].0, ts[0].1, "," + tail);
      TagsExact(ss[1..], ts[1..], rest);
      assert ts == [ts[0]] + ts[1..];
      assert TagsClosed(ts) <==> Closed(ts[0].0) && Closed(ts[0].1) && TagsClosed(ts[1..]);
    }
  }

  // ---------- fields ----------

  /** A column that is to be a field: its name, the text of its value, and its type. */
  datatype Cell = Cell(name: string, value: string, kind: string)

  function Meant(c: Cell): Typed {
    if c.kind == "float" then Number(c.value)
    else if c.kind == "boolean" then Boolean(c.value)
    else if c.kind == "integer" then Integer(c.value)
    else Text(c.value)
  }

  /** Nothing in the text ends it, or makes it a string. */
  predicate Unbroken(s: string) { ',' !in s && ' ' !in s && !At(s, '"') }

  /** The text of a value is one of its type; anything is a text of a string. */
  predicate Legible(value: string, kind: string) {
    && (kind in {"float", "boolean", "integer"} ==> Unbroken(value))
    && (kind == "boolean" ==> Word(value))
    && (kind == "float" ==> !Word(value) && (value == "" || value[|value| - 1] != 'i'))
  }

  lemma TextValue(v: string, rest: string)
    ensures ReadValue("\"" + EscapeStringField(v) + "\"" + rest) == Some((Text(v), rest))
  {
    var s := "\"" + EscapeStringField(v) + "\"" + rest;
    assert s[1..] == EscapeStringField(v) + ("\"" + rest);
    TokenBack("\"\\", "\"", v, "\"" + rest);
    assert ("\"" + rest)[1..] == rest;
  }

  lemma BareValue(t: string, rest: string)
    requires rest != "" && rest[0] in ", "
    ensures Unbroken(t) ==> ReadValue(t + rest) == Some((TypeOf(t), rest))
    ensures
      var r := ReadValue(t + rest);
      !Unbroken(t) && r.Some? ==> r.value.0.Text? || exists u: string :: |u| < |t| && r.value.0 == TypeOf(u)
  {
    hide Token, TypeOf;
    var s := t + rest;
    assert t != "" ==> s[0] == t[0];
    if exists i :: 0 <= i < |t| && t[i] in ", " {
      TokenCut(", ", t, rest);
    } else {
      TokenPlain(", ", t, rest);
    }
  }

  function ValueText(v: string, kind: string): string {
    if kind == "string" then "\"" + EscapeStringField(v) + "\"" else if kind == "integer" then v + "i" else v
  }

  predicate Known(kind: string) { kind in {"float", "boolean", "integer", "string"} }

  lemma FieldTextParts(n: string, v: string)
    ensures n + "=" + v == n + ("=" + v) && n + "=" + v + "i" == n + ("=" + (v + "i"))
    ensures n + "=\"" + v + "\"" == n + ("=" + ("\"" + v + "\""))
  {
    assert "=\"" == "=" + "\"";
  }

  lemma FieldTextIs(c: Cell)
    ensures FieldText(c.name, c.value, c.kind)
      == if Known(c.kind) then Some(EscapeTag(c.name) + ("=" + ValueText(c.value, c.kind))) else None
  {
    hide EscapeTag, EscapeStringField;
    FieldTextParts(EscapeTag(c.name), c.value);
    FieldTextParts(EscapeTag(c.name), EscapeStringField(c.value));
  }

  lemma UnbrokenWith(v: string)
    ensures Unbroken(v + "i") <==> Unbroken(v)
  {
    assert v != "" ==> (v + "i")[0] == v[0];
  }

  lemma WordEnd(t: string)
    requires Word(t)
    ensures t != "" && t[|t| - 1] != 'i'
  {
  }

  lemma TypesAre(v: string)
    ensures TypeOf(v + "i") == Integer(v)
    ensures TypeOf(v) == Boolean(v) <==> Word(v)
    ensures TypeOf(v) == Number(v) <==> !Word(v) && (v == "" || v[|v| - 1] != 'i')
    ensures !TypeOf(v).Text? && |TypeOf(v).text| + (if TypeOf(v).Integer? then 1 else 0) == |v|
  {
    if Word(v) {
      WordEnd(v);
    }
    hide Word;
    assert (v + "i")[..|v|] == v;
  }

  lemma NumberExact(c: Cell, t: string)
    requires c.kind in {"float", "boolean", "integer"} && t == ValueText(c.value, c.kind)
    ensures Unbroken(t) ==> (TypeOf(t) == Meant(c) <==> Legible(c.value, c.kind))
    ensures !Unbroken(t) ==> !Legible(c.value, c.kind) && forall u: string | |u| < |t| :: TypeOf(u) != Meant(c)
    ensures !Meant(c).Text?
  {
    UnbrokenWith(c.value);
    TypesAre(c.value);
    hide Unbroken, Word, TypeOf;
    forall u: string ensures |TypeOf(u).text| + (if TypeOf(u).Integer? then 1 else 0) == |u| {
      TypesAre(u);
    }
  }

  lemma ValueExact(c: Cell, rest: string)
    requires Known(c.kind) && rest != "" && rest[0] in ", "
    ensures Legible(c.value, c.kind) ==> ReadValue(ValueText(c.value, c.kind) + rest) == Some((Meant(c), rest))
    ensures
      var r := ReadValue(ValueText(c.value, c.kind) + rest);
      r.Some? && r.value.0 == Meant(c) ==> Legible(c.value, c.kind)
  {
    hide ReadValue, EscapeStringField, Unbroken;
    if c.kind == "string" {
      TextValue(c.value, rest);
    } else {
      var t := ValueText(c.value, c.kind);
      NumberExact(c, t);
      hide TypeOf, Legible, Meant, ValueText;
      BareValue(t, rest);
    }
  }

  lemma FieldExact(c: Cell, rest: string)
    requires Known(c.kind) && rest != "" && rest[0] in ", "
    ensures Closed(c.name) && Legible(c.value, c.kind) ==>
      ReadField(FieldText(c.name, c.value, c.kind).value + rest) == Some(((c.name, Meant(c)), rest))
    ensures
      var r := ReadField(FieldText(c.name, c.value, c.kind).value + rest);
      r.Some? && r.value.0 == (c.name, Meant(c)) ==> Closed(c.name) && Legible(c.value, c.kind)
  {
    FieldTextIs(c);
    hide Token, EscapeTag, ReadValue, ValueText, FieldText, Legible, Meant;
    var tail := ValueText(c.value, c.kind) + rest;
    var more := "=" + tail;
    assert FieldText(c.name, c.value, c.kind).value + rest == EscapeTag(c.name) + more;
    assert more[1..] == tail;
    NameExact(c.name, more);
    ValueExact(c, rest);
  }

  predicate FieldTexts(ss: seq<string>, cs: seq<Cell>) {
    |ss| == |cs|
    && forall j | 0 <= j < |cs| :: Known(cs[j].kind) && FieldText(cs[j].name, cs[j].value, cs[j].kind) == Some(ss[j])
  }

  function MeantAll(cs: seq<Cell>): (fs: seq<(string, Typed)>)
    ensures |fs| == |cs| && forall j | 0 <= j < |cs| :: fs[j] == (cs[j].name, Meant(cs[j]))
  {
    seq(|cs|, j requires 0 <= j < |cs| => (cs[j].name, Meant(cs[j])))
  }

  predicate FieldsLegible(cs: seq<Cell>) {
    forall j | 0 <= j < |cs| :: Closed(cs[j].name) && Legible(cs[j].value, cs[j].kind)
  }

  /** Of several fields the first and the others are read one by one. */
  lemma FieldsStep(c: Cell, fs: seq<(string, Typed)>, text: string, tail: string, rest: string, ok: bool)
    requires Closed(c.name) && Legible(c.value, c.kind) ==> ReadField(text) == Some(((c.name, Meant(c)), "," + tail))
    requires
      var r := ReadField(text);
      r.Some? && r.value.0 == (c.name, Meant(c)) ==> Closed(c.name) && Legible(c.value, c.kind)
    requires ok ==> ReadFields(tail) == Some((fs, rest))
    requires ReadFields(tail).Some? && ReadFields(tail).value.0 == fs ==> ok
    ensures Closed(c.name) && Legible(c.value, c.kind) && ok ==>
      ReadFields(text) == Some(([(c.name, Meant(c))] + fs, rest))
    ensures
      var r := ReadFields(text);
      r.Some? && r.value.0 == [(c.name, Meant(c))] + fs ==> Closed(c.name) && Legible(c.value, c.kind) && ok
  {
    hide ReadField, Closed, Legible, Meant;
    assert ("," + tail)[1..] == tail;
    var r := ReadFields(text);
    if r.Some? && r.value.0 == [(c.name, Meant(c))] + fs {
      assert ReadField(text).value.0 == r.value.0[0];
      assert r.value.0[1..] == fs;
    }
  }

  lemma {:induction false} FieldsExact(ss: seq<string>, cs: seq<Cell>, rest: string)
    requires FieldTexts(ss, cs) && cs != [] && At(rest, ' ')
    ensures FieldsLegible(cs) ==> ReadFields(Join(ss, ",") + rest) == Some((MeantAll(cs), rest))
    ensures
      var r := ReadFields(Join(ss, ",") + rest);
      r.Some? && r.value.0 == MeantAll(cs) ==> FieldsLegible(cs)
  {
    hide ReadField, FieldText, Closed, Legible, Join, Known, Meant;
    if |cs| == 1 {
      JoinLast(ss, rest);
      FieldExact(cs[0], rest);
      assert [MeantAll(cs)[0]] == MeantAll(cs);
    } else {
      var tail := Join(ss[1..], ",") + rest;
      JoinNext(ss, rest);
      FieldExact(cs[0], "," + tail);
      FieldsExact(ss[1..], cs[1..], rest);
      assert MeantAll(cs) == [(cs[0].name, Meant(cs[0]))] + MeantAll(cs[1..]);
      LegibleCons(cs);
      hide FieldsLegible, ReadFields;
      FieldsStep(cs[0], MeantAll(cs[1..]), Join(ss, ",") + rest, tail, rest, FieldsLegible(cs[1..]));
    }
  }

  lemma LegibleCons(cs: seq<Cell>)
    requires cs != []
    ensures FieldsLegible(cs) <==> Closed(cs[0].name) && Legible(cs[0].value, cs[0].kind) && FieldsLegible(cs[1..])
  {
    hide Closed, Legible;
    assert cs == [cs[0]] + cs[1..];
  }

  // ---------- which columns ----------

  ghost predicate Increasing(at: seq<nat>) { forall a, b | 0 <= a < b < |at| :: at[a] < at[b] }

  /** The tags are the columns that are tags and not null, in order. */
  ghost predicate TagsAre(cols: seq<Column>, tags: set<string>, ts: seq<(string, string)>, at: seq<nat>) {
    && |at| == |ts| && Increasing(at)
    && (forall i: nat :: i in at <==> i < |cols| && cols[i].name in tags && cols[i].value.Some?)
    && (forall j | 0 <= j < |ts| :: at[j] < |cols| && cols[at[j]] == Column(ts[j].0, Some(ts[j].1)))
  }

  /** The cells are the columns that are no tags, have one of the four types, and are not null, in order. */
  ghost predicate CellsAre(
      cols: seq<Column>, tags: set<string>, kinds: map<string, string>, cs: seq<Cell>, at: seq<nat>) {
    && |at| == |cs| && Increasing(at)
    && (forall i: nat :: i in at <==>
          && i < |cols| && cols[i].name !in tags && cols[i].name in kinds
          && kinds[cols[i].name] in {"float", "boolean", "integer", "string"} && cols[i].value.Some?)
    && (forall j | 0 <= j < |cs| ::
          && at[j] < |cols| && cols[at[j]] == Column(cs[j].name, Some(cs[j].value))
          && cs[j].name in kinds && kinds[cs[j].name] == cs[j].kind)
  }

  lemma TagsMore(cols: seq<Column>, c: Column, tags: set<string>, ts: seq<(string, string)>, at: seq<nat>)
    requires TagsAre(cols, tags, ts, at)
    ensures c.name in tags && c.value.Some? ==>
      TagsAre(cols + [c], tags, ts + [(c.name, c.value.value)], at + [|cols|])
    ensures !(c.name in tags && c.value.Some?) ==> TagsAre(cols + [c], tags, ts, at)
  {
    assert forall i | 0 <= i < |at| :: at[i] in at;
  }

  lemma {:induction false} TagColumns(cols: seq<Column>, tags: set<string>)
    returns (ts: seq<(string, string)>, at: seq<nat>)
    ensures TagsAre(cols, tags, ts, at) && TagTexts(TagSet(cols, tags), ts)
  {
    hide TagText;
    if cols == [] {
      ts, at := [], [];
    } else {
      var n: nat := |cols| - 1;
      var c := cols[n];
      ts, at := TagColumns(cols[..n], tags);
      TagsMore(cols[..n], c, tags, ts, at);
      hide TagsAre;
      assert cols == cols[..n] + [c];
      if c.name in tags && c.value.Some? {
        ts, at := ts + [(c.name, c.value.value)], at + [n];
      }
    }
  }

  lemma CellsMore(
      cols: seq<Column>, c: Column, tags: set<string>, kinds: map<string, string>, cs: seq<Cell>, at: seq<nat>)
    requires CellsAre(cols, tags, kinds, cs, at)
    ensures
      var more := c.name !in tags && c.name in kinds && Known(kinds[c.name]) && c.value.Some?;
      && (more ==>
            CellsAre(cols + [c], tags, kinds, cs + [Cell(c.name, c.value.value, kinds[c.name])], at + [|cols|]))
      && (!more ==> CellsAre(cols + [c], tags, kinds, cs, at))
  {
    assert forall i | 0 <= i < |at| :: at[i] in at;
  }

  lemma {:induction false} FieldColumns(cols: seq<Column>, tags: set<string>, kinds: map<string, string>)
    returns (cs: seq<Cell>, at: seq<nat>)
    ensures CellsAre(cols, tags, kinds, cs, at) && FieldTexts(FieldSet(cols, tags, kinds), cs)
  {
    hide FieldText;
    if cols == [] {
      cs, at := [], [];
    } else {
      var n: nat := |cols| - 1;
      var c := cols[n];
      cs, at := FieldColumns(cols[..n], tags, kinds);
      CellsMore(cols[..n], c, tags, kinds, cs, at);
      hide CellsAre, Known;
      assert cols == cols[..n] + [c];
      if c.name !in tags && c.name in kinds && c.value.Some? {
        var cell := Cell(c.name, c.value.value, kinds[c.name]);
        FieldTextIs(cell);
        if Known(cell.kind) {
          cs, at := cs + [cell], at + [n];
        }
      }
    }
  }

  // ---------- rows ----------

  lemma JoinEmptyOr(a: string, ss: seq<string>, rest: string)
    ensures Join([a] + ss, ",") + rest == a + if ss == [] then rest else "," + (Join(ss, ",") + rest)
  {
    assert ([a] + ss)[1..] == ss;
  }

  /** A field never begins with a space. */
  lemma FieldStart(ss: seq<string>, cs: seq<Cell>, rest: string)
    requires FieldTexts(ss, cs) && cs != []
    ensures !At(Join(ss, ",") + rest, ' ')
  {
    FieldTextIs(cs[0]);
    EscaperIs(TAG, cs[0].name);
    EscapedStart(TAG, cs[0].name);
    hide EscapeTag, ValueText, FieldText;
    assert !At(ss[0], ' ') && ss[0] != "";
    assert Join(ss, ",")[0] == ss[0][0];
  }

  lemma MeasurementExact(meas: string, rest: string)
    requires rest != "" && rest[0] in ", "
    ensures Closed(meas) ==> Token(EscapeMeasurement(meas) + rest, ", ", ", ") == (meas, rest)
    ensures Token(EscapeMeasurement(meas) + rest, ", ", ", ").0 == meas ==> Closed(meas)
  {
    EscaperIs(MEASUREMENT, meas);
    if Closed(meas) {
      TokenBack(MEASUREMENT, ", ", meas, rest);
    } else {
      TokenOpen(MEASUREMENT, ", ", meas, rest);
    }
  }

  /** A row put together from the right. */
  lemma RowText(meas: string, cols: seq<Column>, time: string, tags: set<string>, kinds: map<string, string>)
    returns (r1: string, r2: string, r3: string)
    ensures r3 == " " + (time + "\n")
    ensures r2 == " " + (Join(FieldSet(cols, tags, kinds), ",") + r3)
    ensures r1 == if TagSet(cols, tags) == [] then r2 else "," + (Join(TagSet(cols, tags), ",") + r2)
    ensures Row(meas, cols, time, tags, kinds) == EscapeMeasurement(meas) + r1
  {
    hide Join, TagSet, FieldSet, EscapeMeasurement;
    var f := Join(FieldSet(cols, tags, kinds), ",");
    r3 := " " + (time + "\n");
    r2 := " " + (f + r3);
    r1 := if TagSet(cols, tags) == [] then r2 else "," + (Join(TagSet(cols, tags), ",") + r2);
    JoinEmptyOr(EscapeMeasurement(meas), TagSet(cols, tags), r2);
    var h := Join([EscapeMeasurement(meas)] + TagSet(cols, tags), ",");
    assert h + " " + f + " " + time + "\n" == h + r2;
  }

  lemma TagPart(ss: seq<string>, ts: seq<(string, string)>, r1: string, r2: string)
    requires TagTexts(ss, ts) && At(r2, ' ')
    requires r1 == if ss == [] then r2 else "," + (Join(ss, ",") + r2)
    ensures TagsClosed(ts) ==> TagsFrom(r1) == Some((ts, r2))
    ensures TagsFrom(r1).Some? && TagsFrom(r1).value.0 == ts ==> TagsClosed(ts)
  {
    hide ReadTags, Join, TagText;
    if ss != [] {
      TagsExact(ss, ts, r2);
      assert r1[1..] == Join(ss, ",") + r2;
    }
  }

  lemma FieldPart(ss: seq<string>, cs: seq<Cell>, r2: string, r3: string)
    requires FieldTexts(ss, cs) && At(r3, ' ') && r2 == " " + (Join(ss, ",") + r3)
    ensures FieldsLegible(cs) ==> FieldsFrom(r2[1..]) == Some((MeantAll(cs), r3))
    ensures FieldsFrom(r2[1..]).Some? && FieldsFrom(r2[1..]).value.0 == MeantAll(cs) ==> FieldsLegible(cs)
  {
    hide ReadFields, FieldText;
    assert r2[1..] == Join(ss, ",") + r3;
    if ss == [] {
      assert Join(ss, ",") + r3 == r3;
      assert MeantAll(cs) == [];
    } else {
      hide Join;
      FieldsExact(ss, cs, r3);
      FieldStart(ss, cs, r3);
    }
  }

  lemma TimePart(time: string, r3: string)
    requires '\n' !in time && r3 == " " + (time + "\n")
    ensures Token(r3[1..], "", "\n").0 == time
  {
    TokenPlain("\n", time, "\n");
    assert r3[1..] == time + "\n";
  }

  /** A line is read as this point exactly when each part is read as its own. */
  lemma LineExact(s: string, p: Point, r1: string, r2: string, r3: string, c1: bool, c2: bool, c3: bool)
    requires At(r2, ' ') && At(r3, ' ') && Token(r3[1..], "", "\n").0 == p.time
    requires c1 ==> Token(s, ", ", ", ") == (p.meas, r1)
    requires Token(s, ", ", ", ").0 == p.meas ==> c1
    requires c2 ==> TagsFrom(r1) == Some((p.tags, r2))
    requires TagsFrom(r1).Some? && TagsFrom(r1).value.0 == p.tags ==> c2
    requires c3 ==> FieldsFrom(r2[1..]) == Some((p.fields, r3))
    requires FieldsFrom(r2[1..]).Some? && FieldsFrom(r2[1..]).value.0 == p.fields ==> c3
    ensures ReadLine(s) == Some(p) <==> c1 && c2 && c3
  {
    hide Token, TagsFrom, FieldsFrom, At;
  }

  /**
   * What is read from a row is its measurement, its tags and its typed fields in the order of their columns, and its
   * time, exactly when no name and no tag ends in a backslash and each value is a text of its type.
   */
  lemma RowReadExact(meas: string, cols: seq<Column>, time: string, tags: set<string>, kinds: map<string, string>)
    returns (ts: seq<(string, string)>, tagAt: seq<nat>, cs: seq<Cell>, fieldAt: seq<nat>)
    requires '\n' !in time
    ensures TagsAre(cols, tags, ts, tagAt) && CellsAre(cols, tags, kinds, cs, fieldAt)
    ensures ReadLine(Row(meas, cols, time, tags, kinds)) == Some(Point(meas, ts, MeantAll(cs), time))
      <==> Closed(meas) && TagsClosed(ts) && FieldsLegible(cs)
  {
    ts, tagAt := TagColumns(cols, tags);
    cs, fieldAt := FieldColumns(cols, tags, kinds);
    var r1, r2, r3 := RowText(meas, cols, time, tags, kinds);
    MeasurementExact(meas, r1);
    TagPart(TagSet(cols, tags), ts, r1, r2);
    FieldPart(FieldSet(cols, tags, kinds), cs, r2, r3);
    TimePart(time, r3);
    assert At(r2, ' ') && At(r3, ' ');
    hide *;
    LineExact(EscapeMeasurement(meas) + r1, Point(meas, ts, MeantAll(cs), time), r1, r2, r3, Closed(meas),
      TagsClosed(ts), FieldsLegible(cs));
  }
}
