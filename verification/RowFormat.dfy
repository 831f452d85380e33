/**
 * The lines a transfer writes its rows as (transfer/transfer.go), and how the proxy's own scanners take them.
 */
module RowFormat {
  import opened Prelude
  import opened Escape
  import opened InfluxQL
  import opened Lines
  import opened LineProto

  /** One column of a row behind the first, which is the time: its name and the text of its value, None for null. */
  datatype Column = Column(name: string, value: Option<string>)

  const STRINGFIELD := "\"\\"

  /** models.EscapeStringField: quotes and backslashes get a backslash. */
  function EscapeStringField(s: string): string { EscapeBy(STRINGFIELD, s) }

  function Join(ss: seq<string>, sep: string): string {
    if ss == [] then "" else if |ss| == 1 then ss[0] else ss[0] + sep + Join(ss[1..], sep)
  }

  function TagText(name: string, value: string): string { EscapeTag(name) + "=" + EscapeTag(value) }

  /** A field in the text its type asks for; a type that is none of the four is left out. */
  function FieldText(name: string, value: string, kind: string): Option<string> {
    if kind == "float" || kind == "boolean" then Some(EscapeTag(name) + "=" + value)
    else if kind == "integer" then Some(EscapeTag(name) + "=" + value + "i")
    else if kind == "string" then Some(EscapeTag(name) + "=\"" + EscapeStringField(value) + "\"")
    else None
  }

  function TagSet(cols: seq<Column>, tags: set<string>): seq<string> {
    if cols == [] then []
    else
      var c := cols[|cols| - 1];
      TagSet(cols[..|cols| - 1], tags)
      + if c.name in tags && c.value.Some? then [TagText(c.name, c.value.value)] else []
  }

  function FieldSet(cols: seq<Column>, tags: set<string>, kinds: map<string, string>): seq<string> {
    if cols == [] then []
    else
      var c := cols[|cols| - 1];
      FieldSet(cols[..|cols| - 1], tags, kinds)
      + if c.name !in tags && c.name in kinds && c.value.Some? then
          match FieldText(c.name, c.value.value, kinds[c.name])
          case Some(t) => [t]
          case None => []
        else []
  }

  function Row(meas: string, cols: seq<Column>, time: string, tags: set<string>, kinds: map<string, string>): string {
    Join([EscapeMeasurement(meas)] + TagSet(cols, tags), ",") + " " + Join(FieldSet(cols, tags, kinds), ",")
    + " " + time + "\n"
  }

  /** The loop over a row's columns in transfer.write. */
  method RenderRow(meas: string, cols: seq<Column>, time: string, tags: set<string>, kinds: map<string, string>)
    returns (line: string)
    ensures line == Row(meas, cols, time, tags, kinds)
  {
    var mtagSet: seq<string> := [EscapeMeasurement(meas)];
    var fieldSet: seq<string> := [];
    for i := 0 to |cols|
      invariant mtagSet == [EscapeMeasurement(meas)] + TagSet(cols[..i], tags)
      invariant fieldSet == FieldSet(cols[..i], tags, kinds)
    {
      assert cols[..i + 1][..i] == cols[..i];
      var k, v := cols[i].name, cols[i].value;
      if k in tags {
        if v.Some? {
          mtagSet := mtagSet + [TagText(k, v.value)];
        }
      } else if k in kinds {
        if v.Some? {
          var t := FieldText(k, v.value, kinds[k]);
          if t.Some? {
            fieldSet := fieldSet + [t.value];
          }
        }
      }
    }
    assert cols[..|cols|] == cols;
    line := Join(mtagSet, ",") + " " + Join(fieldSet, ",") + " " + time + "\n";
  }

  // ---------- running the line scanner over whole pieces ----------

  /** The scanner's mode after a piece that it takes without ending a line in it or stopping inside an escape. */
  function Over(a: string, m: Mode): Option<Mode>
    decreases |a|
  {
    if a == "" then Some(m)
    else if a[0] == BACKSLASH then (if |a| == 1 then None else Over(a[2..], m))
    else if a[0] == '\n' && !m.quoted then None
    else Over(a[1..], Next(m, a[0]))
  }

  lemma {:induction false} LineOver(a: string, b: string, m: Mode)
    requires Over(a, m).Some? && b != ""
    ensures LineLength(a + b, m) == |a| + LineLength(b, Over(a, m).value)
    decreases |a|
  {
    if a == "" {
      assert a + b == b;
    } else {
      var s := a + b;
      LineStep(s, m);
      OverStep(a, m);
      hide LineLength, Over;
      if a[0] == BACKSLASH {
        assert s[2..] == a[2..] + b;
        LineOver(a[2..], b, m);
      } else {
        assert s[1..] == a[1..] + b;
        LineOver(a[1..], b, Next(m, a[0]));
      }
    }
  }

  lemma OverStep(a: string, m: Mode)
    requires a != "" && Over(a, m).Some?
    ensures a[0] == BACKSLASH ==> |a| >= 2 && Over(a, m) == Over(a[2..], m)
    ensures a[0] != BACKSLASH ==> (a[0] != '\n' || m.quoted) && Over(a, m) == Over(a[1..], Next(m, a[0]))
  {
  }

  lemma {:induction false} OverConcat(a: string, b: string, m: Mode)
    requires Over(a, m).Some?
    ensures Over(a + b, m) == Over(b, Over(a, m).value)
    decreases |a|
  {
    if a == "" {
      assert a + b == b;
    } else if a[0] == BACKSLASH {
      assert (a + b)[2..] == a[2..] + b;
      OverConcat(a[2..], b, m);
    } else {
      assert (a + b)[1..] == a[1..] + b;
      OverConcat(a[1..], b, Next(m, a[0]));
    }
  }

  /** Text without backslashes and newlines. */
  predicate Clean(s: string) { BACKSLASH !in s && '\n' !in s }

  /** Escaped text of which no character in the open changes the mode is passed over in the same mode. */
  lemma {:induction false} OverEscaped(cs: string, s: string, m: Mode)
    requires BACKSLASH !in cs
    requires forall i | 0 <= i < |s| && s[i] !in cs ::
      s[i] != BACKSLASH && (s[i] != '\n' || m.quoted) && Next(m, s[i]) == m
    ensures Over(EscapeBy(cs, s), m) == Some(m)
  {
    if s != "" {
      var t := EscapeBy(cs, s[1..]);
      OverEscaped(cs, s[1..], m);
      if s[0] in cs {
        assert ([BACKSLASH, s[0]] + t)[2..] == t;
      } else {
        assert ([s[0]] + t)[1..] == t;
      }
    }
  }

  lemma OverChar(c: char, m: Mode)
    requires c != BACKSLASH && (c != '\n' || m.quoted)
    ensures Over([c], m) == Some(Next(m, c))
  {
    assert [c][1..] == "";
  }

  // ---------- the two halves of a row ----------

  predicate CleanTags(cols: seq<Column>, tags: set<string>) {
    forall i | 0 <= i < |cols| && cols[i].name in tags ::
      Clean(cols[i].name) && (cols[i].value.Some? ==> Clean(cols[i].value.value))
  }

  /** The text of a number or a boolean. */
  predicate Bare(s: string) { forall i | 0 <= i < |s| :: s[i] !in " ,=\"\\\n" }

  predicate CleanFields(cols: seq<Column>, tags: set<string>, kinds: map<string, string>) {
    forall i | 0 <= i < |cols| && cols[i].name !in tags && cols[i].name in kinds ::
      Clean(cols[i].name) && (cols[i].value.Some? && kinds[cols[i].name] != "string" ==> Bare(cols[i].value.value))
  }

  /** A piece of the part in front of the first space. */
  predicate TagPiece(s: string) { Over(s, START) == Some(START) }

  lemma TagTextPiece(name: string, value: string)
    requires Clean(name) && Clean(value)
    ensures TagPiece(TagText(name, value))
  {
    EscaperIs(TAG, name);
    EscaperIs(TAG, value);
    OverEscaped(TAG, name, START);
    OverEscaped(TAG, value, START);
    var n, v := EscapeBy(TAG, name), EscapeBy(TAG, value);
    OverChar('=', START);
    OverConcat(n, "=", START);
    OverConcat(n + "=", v, START);
  }

  lemma {:induction false} TagSetPieces(cols: seq<Column>, tags: set<string>)
    requires CleanTags(cols, tags)
    ensures forall i | 0 <= i < |TagSet(cols, tags)| :: TagPiece(TagSet(cols, tags)[i])
  {
    hide TagPiece, TagText;
    if cols != [] {
      TagSetPieces(cols[..|cols| - 1], tags);
      var c := cols[|cols| - 1];
      if c.name in tags && c.value.Some? {
        TagTextPiece(c.name, c.value.value);
      }
    }
  }

  lemma {:induction false} JoinTags(ss: seq<string>)
    requires ss != [] && forall i | 0 <= i < |ss| :: TagPiece(ss[i])
    ensures TagPiece(Join(ss, ","))
  {
    if |ss| > 1 {
      var rest := Join(ss[1..], ",");
      JoinTags(ss[1..]);
      OverChar(',', START);
      OverConcat(ss[0], ",", START);
      OverConcat(ss[0] + ",", rest, START);
    }
  }

  /** A field, read when as many commas as equal signs have been: it adds one equal sign. */
  ghost predicate FieldPiece(s: string) {
    forall k: nat :: Over(s, Mode(false, true, k, k)) == Some(Mode(false, true, k + 1, k))
  }

  lemma FieldTextPiece(name: string, value: string, kind: string)
    requires Clean(name) && (kind != "string" ==> Bare(value)) && FieldText(name, value, kind).Some?
    ensures FieldPiece(FieldText(name, value, kind).value)
  {
    forall k: nat
      ensures Over(FieldText(name, value, kind).value, Mode(false, true, k, k)) == Some(Mode(false, true, k + 1, k))
    {
      FieldNamePart(name, k);
      if kind == "string" {
        StringPart(value, k);
        var head := EscapeTag(name) + "=";
        OverConcat(head, "\"" + EscapeStringField(value) + "\"", Mode(false, true, k, k));
        assert head + ("\"" + EscapeStringField(value) + "\"")
          == EscapeTag(name) + "=\"" + EscapeStringField(value) + "\"";
      } else {
        BarePart(value, Mode(false, true, k + 1, k));
        OverConcat(EscapeTag(name) + "=", value, Mode(false, true, k, k));
        if kind == "integer" {
          OverChar('i', Mode(false, true, k + 1, k));
          OverConcat(EscapeTag(name) + "=" + value, "i", Mode(false, true, k, k));
        }
      }
    }
  }

  lemma FieldNamePart(name: string, k: nat)
    requires Clean(name)
    ensures Over(EscapeTag(name) + "=", Mode(false, true, k, k)) == Some(Mode(false, true, k + 1, k))
  {
    var m := Mode(false, true, k, k);
    EscaperIs(TAG, name);
    OverEscaped(TAG, name, m);
    OverChar('=', m);
    OverConcat(EscapeBy(TAG, name), "=", m);
  }

  lemma {:induction false} BarePart(s: string, m: Mode)
    requires Bare(s) && m.fields
    ensures Over(s, m) == Some(m)
  {
    if s != "" {
      BarePart(s[1..], m);
    }
  }

  /** A string value: whatever is in it, commas and newlines included, its closing quote is where it should be. */
  lemma StringPart(value: string, k: nat)
    ensures Over("\"" + EscapeStringField(value) + "\"", Mode(false, true, k + 1, k))
      == Some(Mode(false, true, k + 1, k))
  {
    var m, q := Mode(false, true, k + 1, k), Mode(true, true, k + 1, k);
    OverChar('"', m);
    OverChar('"', q);
    OverString(value, q);
    OverConcat("\"", EscapeStringField(value), m);
    OverConcat("\"" + EscapeStringField(value), "\"", m);
  }

  lemma {:induction false} OverString(value: string, q: Mode)
    requires q.quoted && q.fields
    ensures Over(EscapeStringField(value), q) == Some(q)
  {
    if value != "" {
      var t := EscapeStringField(value[1..]);
      OverString(value[1..], q);
      if value[0] in STRINGFIELD {
        assert ([BACKSLASH, value[0]] + t)[2..] == t;
      } else {
        assert ([value[0]] + t)[1..] == t;
      }
    }
  }

  lemma {:induction false} FieldSetPieces(cols: seq<Column>, tags: set<string>, kinds: map<string, string>)
    requires CleanFields(cols, tags, kinds)
    ensures forall i | 0 <= i < |FieldSet(cols, tags, kinds)| :: FieldPiece(FieldSet(cols, tags, kinds)[i])
  {
    hide FieldPiece, FieldText;
    if cols != [] {
      FieldSetPieces(cols[..|cols| - 1], tags, kinds);
      var c := cols[|cols| - 1];
      if c.name !in tags && c.name in kinds && c.value.Some? {
        if FieldText(c.name, c.value.value, kinds[c.name]).Some? {
          FieldTextPiece(c.name, c.value.value, kinds[c.name]);
        }
      }
    }
  }

  lemma {:induction false} JoinFields(ss: seq<string>, k: nat)
    requires forall i | 0 <= i < |ss| :: FieldPiece(ss[i])
    ensures Over(Join(ss, ","), Mode(false, true, k, k)).Some?
    ensures var m := Over(Join(ss, ","), Mode(false, true, k, k)).value; !m.quoted && m.fields
  {
    var m := Mode(false, true, k, k);
    if ss != [] {
      assert FieldPiece(ss[0]);
      if |ss| > 1 {
        var rest := Join(ss[1..], ",");
        JoinFields(ss[1..], k + 1);
        OverChar(',', Mode(false, true, k + 1, k));
        OverConcat(ss[0], ",", m);
        OverConcat(ss[0] + ",", rest, m);
      }
    }
  }

  // ---------- whole rows ----------

  /** Columns as a transfer reads them: tags and field names without backslashes and newlines, numbers as numbers. */
  predicate CleanRow(meas: string, cols: seq<Column>, time: string, tags: set<string>, kinds: map<string, string>) {
    Clean(meas) && CleanTags(cols, tags) && CleanFields(cols, tags, kinds) && Bare(time)
  }

  function Head(meas: string, cols: seq<Column>, tags: set<string>): string {
    Join([EscapeMeasurement(meas)] + TagSet(cols, tags), ",")
  }

  lemma HeadPiece(meas: string, cols: seq<Column>, tags: set<string>)
    requires Clean(meas) && CleanTags(cols, tags)
    ensures TagPiece(Head(meas, cols, tags))
  {
    EscaperIs(MEASUREMENT, meas);
    OverEscaped(MEASUREMENT, meas, START);
    TagSetPieces(cols, tags);
    hide TagPiece, Join;
    var ss := [EscapeMeasurement(meas)] + TagSet(cols, tags);
    assert TagPiece(ss[0]) by {
      assert Over(EscapeMeasurement(meas), START) == Some(START);
      TagPieceIs(EscapeMeasurement(meas));
    }
    JoinTags(ss);
  }

  lemma TagPieceIs(s: string)
    ensures TagPiece(s) <==> Over(s, START) == Some(START)
  {
  }

  /** The row up to its newline is passed over and leaves the scanner outside strings. */
  lemma RowOver(meas: string, cols: seq<Column>, time: string, tags: set<string>, kinds: map<string, string>)
    returns (body: string, m: Mode)
    requires CleanRow(meas, cols, time, tags, kinds)
    ensures Row(meas, cols, time, tags, kinds) == body + "\n" && Over(body, START) == Some(m) && !m.quoted
  {
    hide Over, Clean, CleanTags, CleanFields, Bare, Join, TagSet, FieldSet, EscapeMeasurement, TagPiece, FieldPiece;
    var head, fields := Head(meas, cols, tags), Join(FieldSet(cols, tags, kinds), ",");
    var m0 := Mode(false, true, 0, 0);
    HeadPiece(meas, cols, tags);
    TagPieceIs(head);
    OverChar(' ', START);
    OverConcat(head, " ", START);
    FieldSetPieces(cols, tags, kinds);
    JoinFields(FieldSet(cols, tags, kinds), 0);
    OverConcat(head + " ", fields, START);
    m := Over(fields, m0).value;
    OverChar(' ', m);
    OverConcat(head + " " + fields, " ", START);
    BarePart(time, m);
    OverConcat(head + " " + fields + " ", time, START);
    body := head + " " + fields + " " + time;
  }

  /** One line, whatever comes behind it: what the scanner cuts off is the row without its newline. */
  ghost predicate OneLine(row: string) {
    row != "" && forall rest: string :: LineLength(row + rest, START) == |row| - 1
  }

  /** The scanner passes over all of it and is outside strings at its end. */
  predicate Sealed(body: string) { Over(body, START).Some? && !Over(body, START).value.quoted }

  function Shorn(row: string): string { if row == "" then "" else row[..|row| - 1] }

  /** A newline behind something that is no backslash. */
  predicate Ends(row: string) { |row| >= 2 && row[|row| - 1] == '\n' && row[|row| - 2] != BACKSLASH }

  /** A text that is not passed over has a newline in the open, if it does not end in a backslash. */
  lemma {:induction false} OverNone(a: string, b: string, m: Mode)
    requires Over(a, m).None? && a[|a| - 1] != BACKSLASH
    ensures LineLength(a + b, m) < |a|
    decreases |a|
  {
    var s := a + b;
    LineStep(s, m);
    if a[0] == BACKSLASH {
      assert s[2..] == a[2..] + b;
      OverNone(a[2..], b, m);
    } else if a[0] != '\n' || m.quoted {
      assert s[1..] == a[1..] + b;
      OverNone(a[1..], b, Next(m, a[0]));
    }
  }

  /** Whatever follows, a row is cut at its newline exactly when it is sealed in front of it. */
  lemma SealedExact(row: string, rest: string)
    requires Ends(row)
    ensures LineLength(row + rest, START) == |row| - 1 <==> Sealed(Shorn(row))
  {
    var body, more := Shorn(row), "\n" + rest;
    assert row + rest == body + more;
    if Over(body, START).Some? {
      LineOver(body, more, START);
      LineStep(more, Over(body, START).value);
    } else {
      OverNone(body, more, START);
    }
  }

  lemma OneLineExact(row: string)
    requires Ends(row)
    ensures OneLine(row) <==> Sealed(Shorn(row))
  {
    hide Sealed, LineLength;
    forall rest: string ensures LineLength(row + rest, START) == |row| - 1 <==> Sealed(Shorn(row)) {
      SealedExact(row, rest);
    }
    assert LineLength(row + "", START) == |row| - 1 <==> Sealed(Shorn(row));
  }

  lemma RowEnds(meas: string, cols: seq<Column>, time: string, tags: set<string>, kinds: map<string, string>)
    requires Bare(time) && time != ""
    ensures Ends(Row(meas, cols, time, tags, kinds))
  {
    hide Join, TagSet, FieldSet, EscapeMeasurement;
    var row := Row(meas, cols, time, tags, kinds);
    assert row[|row| - 2] == time[|time| - 1];
  }

  /** Whatever its columns, a row is one line exactly when the scanner is outside strings at its end. */
  lemma RowExact(meas: string, cols: seq<Column>, time: string, tags: set<string>, kinds: map<string, string>)
    requires Bare(time) && time != ""
    ensures
      OneLine(Row(meas, cols, time, tags, kinds)) <==> Sealed(Shorn(Row(meas, cols, time, tags, kinds)))
  {
    RowEnds(meas, cols, time, tags, kinds);
    hide Row;
    OneLineExact(Row(meas, cols, time, tags, kinds));
  }

  /**
   * So it is with anything in its string fields, newlines, quotes, commas, spaces and backslashes, when there are no
   * backslashes and newlines in its measurement, its tags and the names of its fields.
   */
  lemma RowIsOneLine(meas: string, cols: seq<Column>, time: string, tags: set<string>, kinds: map<string, string>)
    requires CleanRow(meas, cols, time, tags, kinds)
    ensures OneLine(Row(meas, cols, time, tags, kinds))
  {
    hide Row, CleanRow, Over;
    var row := Row(meas, cols, time, tags, kinds);
    var body, m := RowOver(meas, cols, time, tags, kinds);
    forall rest: string ensures LineLength(row + rest, START) == |row| - 1 {
      assert row + rest == body + ("\n" + rest);
      LineOver(body, "\n" + rest, START);
      LineStep("\n" + rest, m);
    }
  }

  // ---------- a tag that ends in a backslash ----------

  /** Text in the open is cut at a newline even if it was meant for a string. */
  lemma {:induction false} OverBreaks(x: string, rest: string, m: Mode)
    requires '\n' in x && !m.quoted
    ensures Over(EscapeStringField(x) + rest, m) == None
  {
    var t := EscapeStringField(x[1..]) + rest;
    var s := EscapeStringField(x) + rest;
    if x[0] in STRINGFIELD {
      assert s == [BACKSLASH, x[0]] + t && s[2..] == t;
      OverBreaks(x[1..], rest, m);
    } else {
      assert s == [x[0]] + t && s[1..] == t;
      if x[0] != '\n' {
        OverBreaks(x[1..], rest, Next(m, x[0]));
      }
    }
  }

  function TwoColumns(t: string, v: string, f: string, x: string): seq<Column> {
    [Column(t, Some(v)), Column(f, Some(x))]
  }

  lemma TwoColumnSets(t: string, v: string, f: string, x: string)
    requires t != f
    ensures TagSet(TwoColumns(t, v, f, x), {t}) == [TagText(t, v)]
    ensures FieldSet(TwoColumns(t, v, f, x), {t}, map[f := "string"])
      == [EscapeTag(f) + "=\"" + EscapeStringField(x) + "\""]
  {
    var cols, kinds := TwoColumns(t, v, f, x), map[f := "string"];
    hide EscapeTag, EscapeStringField, TagText;
    var one := cols[..1];
    assert one == [Column(t, Some(v))] && one[..0] == [] && one[0].name == t;
    assert TagSet([], {t}) == [] && FieldSet([], {t}, kinds) == [];
    assert TagSet(one, {t}) == [TagText(t, v)] && FieldSet(one, {t}, kinds) == [];
    assert cols[..|cols| - 1] == one && cols[1] == Column(f, Some(x));
  }

  lemma JoinTwo(a: string, b: string)
    ensures Join([a] + [b], ",") == a + "," + b && Join([b], ",") == b
  {
    assert ([a] + [b])[1..] == [b];
  }

  lemma TwoColumnRow(meas: string, t: string, v: string, f: string, x: string, time: string)
    requires t != f
    ensures Shorn(Row(meas, TwoColumns(t, v, f, x), time, {t}, map[f := "string"]))
      == EscapeMeasurement(meas) + "," + TagText(t, v) + " " + (EscapeTag(f) + "=\"" + EscapeStringField(x) + "\"")
         + " " + time
  {
    TwoColumnSets(t, v, f, x);
    JoinTwo(EscapeMeasurement(meas), TagText(t, v));
    hide EscapeMeasurement, EscapeTag, EscapeStringField, TagText, TwoColumns, TagSet, FieldSet;
    var text := EscapeTag(f) + "=\"" + EscapeStringField(x) + "\"";
    JoinTwo("", text);
    hide Join;
  }

  lemma EscapedBackslash(w: string)
    ensures EscapeTag(w + "\\") == EscapeTag(w) + "\\"
  {
    EscaperIs(TAG, w + "\\");
    EscaperIs(TAG, w);
    EscapeByConcat(TAG, w, "\\");
    assert EscapeBy(TAG, "\\") == "\\" by { assert "\\"[1..] == ""; }
  }

  lemma TagOver(s: string)
    requires Clean(s)
    ensures Over(EscapeTag(s), START) == Some(START)
  {
    EscaperIs(TAG, s);
    OverEscaped(TAG, s, START);
  }

  lemma MeasurementOver(s: string)
    requires Clean(s)
    ensures Over(EscapeMeasurement(s), START) == Some(START)
  {
    EscaperIs(MEASUREMENT, s);
    OverEscaped(MEASUREMENT, s, START);
  }

  lemma PieceBehind(a: string, b: string)
    requires Over(a, START) == Some(START) && Over(b, START) == Some(START)
    ensures Over(a + b, START) == Some(START)
  {
    OverConcat(a, b, START);
  }

  lemma SmallPieces()
    ensures Over(",", START) == Some(START) && Over("=", START) == Some(START)
    ensures Over("\\ ", START) == Some(START) && Over("=\"", START) == Some(START)
  {
    assert ","[1..] == "" && "="[1..] == "" && "\\ "[2..] == "";
    assert "=\""[1..] == "\"" && "\""[1..] == "";
  }

  /** Behind a backslash the space in front of the fields goes unseen. */
  lemma HiddenSpace(meas: string, t: string, w: string, f: string)
    requires Clean(meas) && Clean(t) && Clean(w) && Clean(f)
    ensures
      Over(EscapeMeasurement(meas) + "," + EscapeTag(t) + "=" + EscapeTag(w) + "\\ " + EscapeTag(f) + "=\"", START)
      == Some(START)
  {
    MeasurementOver(meas);
    TagOver(t);
    TagOver(w);
    TagOver(f);
    SmallPieces();
    hide *;
    var e := EscapeMeasurement(meas) + ",";
    PieceBehind(EscapeMeasurement(meas), ",");
    PieceBehind(e, EscapeTag(t));
    PieceBehind(e + EscapeTag(t), "=");
    PieceBehind(e + EscapeTag(t) + "=", EscapeTag(w));
    PieceBehind(e + EscapeTag(t) + "=" + EscapeTag(w), "\\ ");
    PieceBehind(e + EscapeTag(t) + "=" + EscapeTag(w) + "\\ ", EscapeTag(f));
    PieceBehind(e + EscapeTag(t) + "=" + EscapeTag(w) + "\\ " + EscapeTag(f), "=\"");
  }

  lemma Rejoined(e: string, a: string, b: string, c: string, x: string, time: string)
    ensures e + "," + (a + "=" + (b + "\\")) + " " + (c + "=\"" + x + "\"") + " " + time
      == (e + "," + a + "=" + b + "\\ " + c + "=\"") + (x + ("\"" + " " + time))
  {
  }

  /**
   * A backslash at the end of the last tag hides the space behind it, and the scanner takes no string for one: a row
   * with such a tag is cut inside a string field that has a newline.
   */
  lemma BackslashTagCuts(meas: string, t: string, w: string, f: string, x: string, time: string)
    requires Clean(meas) && Clean(t) && Clean(w) && Clean(f) && t != f && '\n' in x
    ensures !Sealed(Shorn(Row(meas, TwoColumns(t, w + "\\", f, x), time, {t}, map[f := "string"])))
  {
    TwoColumnRow(meas, t, w + "\\", f, x, time);
    HiddenSpace(meas, t, w, f);
    EscapedBackslash(w);
    OverBreaks(x, "\"" + " " + time, START);
    hide EscapeMeasurement, EscapeTag, EscapeStringField, Over, Row, Shorn, TwoColumns;
    Rejoined(EscapeMeasurement(meas), EscapeTag(t), EscapeTag(w), EscapeTag(f), EscapeStringField(x), time);
    var head := EscapeMeasurement(meas) + "," + EscapeTag(t) + "=" + EscapeTag(w) + "\\ " + EscapeTag(f) + "=\"";
    OverConcat(head, EscapeStringField(x) + ("\"" + " " + time), START);
  }

  // ---------- keys, timestamps and batches ----------

  lemma JoinHead(a: string, ss: seq<string>) returns (rest: string)
    ensures Join([a] + ss, ",") == a + rest && (rest != "" ==> rest[0] == ',')
  {
    rest := if ss == [] then "" else "," + Join(ss, ",");
    assert ([a] + ss)[1..] == ss;
  }

  /** The key read from a row is the measurement it was written for exactly when that has no backslash. */
  lemma RowKey(meas: string, cols: seq<Column>, time: string, tags: set<string>, kinds: map<string, string>)
    ensures ScanKey(Row(meas, cols, time, tags, kinds)) == Key(meas) <==> BACKSLASH !in meas
  {
    hide EscapeMeasurement, ScanKey, Join;
    var e, row := EscapeMeasurement(meas), Row(meas, cols, time, tags, kinds);
    var more := JoinHead(e, TagSet(cols, tags));
    var tail := more + (" " + Join(FieldSet(cols, tags, kinds), ",") + " " + time + "\n");
    assert row == e + tail == e + [tail[0]] + tail[1..];
    ScanKeyExact(meas, tail[0], tail[1..]);
  }

  /** ScanTime finds the timestamp of a row when it is not negative, and only then. */
  lemma RowTime(meas: string, cols: seq<Column>, t: int, tags: set<string>, kinds: map<string, string>)
    ensures
      var row := Row(meas, cols, FormatInt(t), tags, kinds);
      var l := row[..|row| - 1];
      var (pos, found) := ScanTime(l);
      (found <==> t >= 0) && (t >= 0 ==> Value(l[pos + 1..]) == t)
  {
    hide EscapeMeasurement, Join, TagSet, FieldSet;
    var time := FormatInt(t);
    var front := Head(meas, cols, tags) + " " + Join(FieldSet(cols, tags, kinds), ",") + " ";
    var row := Row(meas, cols, time, tags, kinds);
    var l := row[..|row| - 1];
    assert l == front + time;
    if t >= 0 {
      DigitsAppend(front, time);
      assert l[|front|..] == time;
    } else {
      var d := FormatNat(-t);
      assert l == front + "-" + d;
      DigitsAppend(front + "-", d);
    }
  }

  function Cut(rows: seq<string>): seq<string> {
    if rows == [] then [] else [Shorn(rows[0])] + Cut(rows[1..])
  }

  /** The first row of a batch is cut off as a block of its own exactly when it is sealed. */
  lemma FirstRow(r: string, more: string)
    requires Ends(r)
    ensures Sealed(Shorn(r)) ==> Blocks(r + more) == [Shorn(r)] + Blocks(more)
    ensures !Sealed(Shorn(r)) ==> Blocks(r + more) != [] && Blocks(r + more)[0] != Shorn(r)
  {
    var p := r + more;
    SealedExact(r, more);
    BlocksCons(p);
    BlocksNothing();
    var n := LineLength(p, START);
    hide LineLength, Blocks, Sealed;
    if n == |r| - 1 {
      assert p[n + 1..] == more && p[..n] == Shorn(r);
    } else {
      assert |p[..n]| != |Shorn(r)|;
    }
  }

  /** A batch of rows is cut back into its rows exactly when each of them is sealed. */
  lemma {:induction false} BatchExact(rows: seq<string>)
    requires forall i | 0 <= i < |rows| :: Ends(rows[i])
    ensures Blocks(Concat(rows)) == Cut(rows) <==> forall i | 0 <= i < |rows| :: Sealed(Shorn(rows[i]))
  {
    hide Ends, Blocks, Sealed, Shorn;
    BlocksNothing();
    if rows != [] {
      BatchExact(rows[1..]);
      FirstRow(rows[0], Concat(rows[1..]));
      assert forall i | 1 <= i < |rows| :: rows[i] == rows[1..][i - 1];
      assert Cut(rows)[0] == Shorn(rows[0]) && Cut(rows)[1..] == Cut(rows[1..]);
    }
  }

  lemma BlocksNothing()
    ensures Blocks("") == []
  {
  }
}
