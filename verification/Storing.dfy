/** From the body of a write to the keys of the points in it: Proxy.Write and WriteRow of backend/proxy.go together. */
module Storing {
  import opened Prelude
  import opened Escape
  import opened InfluxQL
  import opened Lines
  import opened LineProto
  import opened RowFormat
  import opened Routing

  /** Whether a body has a line that is stored under this measurement. */
  predicate StoredAs(body: string, m: string, precision: string, multiplier: string -> int, now: int) {
    var lines := LinesOf(Blocks(body));
    exists i | 0 <= i < |lines| :: Accepted(lines[i], precision, multiplier, now) == Some(m)
  }

  // ---------- what is cut loses a newline ----------

  function Newlines(s: string): nat { multiset(s)['\n'] }

  lemma NewlinesConcat(a: string, b: string)
    ensures Newlines(a + b) == Newlines(a) + Newlines(b)
  {
  }

  lemma NewlinesPart(s: string, i: nat, j: nat)
    requires i <= j <= |s|
    ensures Newlines(s[i..j]) <= Newlines(s)
  {
    assert s == s[..i] + s[i..j] + s[j..];
  }

  lemma NewlinesIn(s: string)
    ensures Newlines(s) == 0 <==> '\n' !in s
  {
    assert '\n' in s <==> '\n' in multiset(s);
  }

  lemma {:induction false} KeyNewlines(s: string)
    ensures ScanKey(s).Key? ==> Newlines(ScanKey(s).key) <= Newlines(s)
    decreases |s|
  {
    if s != "" && ScanKey(s).Key? {
      if s[0] == BACKSLASH && |s| > 1 {
        KeyNewlines(s[2..]);
        NewlinesConcat(s[..1], s[1..2] + s[2..]);
        NewlinesConcat(s[1..2], s[2..]);
        assert s == s[..1] + (s[1..2] + s[2..]) && s[1..2] == [s[1]];
        NewlinesConcat([s[1]], ScanKey(s[2..]).key);
      } else if s[0] != ' ' && s[0] != ',' {
        KeyNewlines(s[1..]);
        assert s == [s[0]] + s[1..];
        NewlinesConcat([s[0]], s[1..]);
        NewlinesConcat([s[0]], ScanKey(s[1..]).key);
      } else {
        assert ScanKey(s).key == "";
      }
    }
  }

  lemma {:induction false} TrimLeftPart(s: string, cs: string) returns (k: nat)
    ensures k <= |s| && TrimLeft(s, cs) == s[k..]
  {
    if s != "" && s[0] in cs {
      k := TrimLeftPart(s[1..], cs);
      k := k + 1;
    } else {
      k := 0;
    }
  }

  lemma NumberPlain(n: int)
    ensures '\n' !in FormatInt(n) && ' ' !in FormatInt(n)
  {
    hide FormatNat, Value;
  }

  /** Completing the timestamp brings no newline. */
  lemma NanoNewlines(line: string, precision: string, multiplier: string -> int, now: int)
    ensures Newlines(AppendNano(line, precision, multiplier, now)) <= Newlines(line)
  {
    TrimmedNewlines(line);
    var head, time := NanoParts(line, precision, multiplier, now);
    hide AppendNano, TrimSpace, Newlines;
    NewlinesFront(TrimSpace(line), head);
    NewlinesConcat(head, time);
    NewlinesIn(time);
  }

  lemma NewlinesFront(s: string, a: string)
    requires a <= s
    ensures Newlines(a) <= Newlines(s)
  {
    NewlinesPart(s, 0, |a|);
    assert s[0..|a|] == a;
  }

  lemma TrimmedNewlines(line: string)
    ensures Newlines(TrimSpace(line)) <= Newlines(line)
  {
    var k := TrimLeftPart(line, WHITESPACE);
    var t := TrimLeft(line, WHITESPACE);
    hide TrimLeft, Newlines;
    NewlinesPart(line, k, |line|);
    assert line[k..|line|] == line[k..];
    NewlinesFront(t, TrimSpace(line));
  }

  /** What AppendNano puts behind a part of the trimmed line. */
  lemma NanoParts(line: string, precision: string, multiplier: string -> int, now: int)
    returns (head: string, time: string)
    ensures AppendNano(line, precision, multiplier, now) == head + time && head <= TrimSpace(line) && '\n' !in time
  {
    hide TrimSpace, FormatInt, Value, Digits, Wrap;
    var l := TrimSpace(line);
    var (pos, found) := ScanTime(l);
    NumberPlain(now);
    NumberPlain(Wrap(Wrap(Value(l[pos + 1..])) * multiplier(precision)));
    if !found {
      head, time := l, " " + FormatInt(now);
    } else if Zeros(precision).Some? {
      head, time := l, Zeros(precision).value;
    } else {
      head, time := l[..pos + 1], FormatInt(Wrap(Wrap(Value(l[pos + 1..])) * multiplier(precision)));
    }
  }

  /** Every line that is passed on comes from a block and has no more newlines than that. */
  lemma {:induction false} LineFrom(bs: seq<string>, i: nat) returns (b: nat)
    requires i < |LinesOf(bs)|
    ensures b < |bs| && LineOf(bs[b]) == Some(LinesOf(bs)[i]) && Newlines(LinesOf(bs)[i]) <= Newlines(bs[b])
  {
    hide LineOf;
    var first := Kept(bs[0]);
    if i < |first| {
      b := 0;
      LineNewlines(bs[0]);
    } else {
      b := LineFrom(bs[1..], i - |first|);
      b := b + 1;
    }
  }

  lemma LineNewlines(block: string)
    ensures LineOf(block).Some? ==> Newlines(LineOf(block).value) <= Newlines(block)
  {
    if LineOf(block).Some? {
      var start := Blank(block);
      var end := if block[|block| - 1] == '\n' then |block| - 1 else |block|;
      NewlinesPart(block, start, end);
    }
  }

  lemma NewlinesCut(p: string, n: nat)
    requires n < |p| && p[n] == '\n'
    ensures Newlines(p) == Newlines(p[..n]) + 1 + Newlines(p[n + 1..])
  {
    assert p == p[..n] + ['\n'] + p[n + 1..];
  }

  /** Once a body is cut, each of its blocks has fewer newlines than it. */
  lemma {:induction false} BlockNewlines(p: string, b: nat)
    requires b < |Blocks(p)|
    ensures Newlines(Blocks(p)[b]) <= Newlines(p)
    ensures LineLength(p, START) < |p| ==> Newlines(Blocks(p)[b]) < Newlines(p)
    decreases |p|
  {
    BlocksCons(p);
    var n := LineLength(p, START);
    hide LineLength, Blocks, Newlines;
    if n == |p| {
      assert p[..n] == p;
    } else {
      NewlinesCut(p, n);
      if b > 0 {
        BlockNewlines(p[n + 1..], b - 1);
      }
    }
  }

  /** So no line of a body that is cut is stored under a measurement with all the newlines of the body. */
  lemma CutIsLost(p: string, m: string, precision: string, multiplier: string -> int, now: int)
    requires LineLength(p, START) < |p| && Newlines(p) <= Newlines(m)
    ensures !StoredAs(p, m, precision, multiplier, now)
  {
    var lines := LinesOf(Blocks(p));
    hide LineLength, Blocks, LinesOf, AppendNano, ScanKey, RapidOk, LineOf, Newlines;
    forall i | 0 <= i < |lines| ensures Accepted(lines[i], precision, multiplier, now) != Some(m) {
      var b := LineFrom(Blocks(p), i);
      BlockNewlines(p, b);
      NanoNewlines(lines[i], precision, multiplier, now);
      KeyNewlines(AppendNano(lines[i], precision, multiplier, now));
    }
  }

  // ---------- a body that is one point ----------

  /** What stands behind the measurement: tags, each with a comma in front, fields, and a timestamp behind a space. */
  datatype Rest = Rest(tags: string, fields: string, stamp: string)

  function PointText(m: string, r: Rest): string { EscapeMeasurement(m) + r.tags + " " + r.fields + r.stamp }

  predicate Timed(fields: string, stamp: string) {
    if stamp == "" then !ScanTime(fields).1 else |stamp| > 1 && stamp[0] == ' ' && AllDigits(stamp[1..])
  }

  /**
   * Tags without a space or newline in the open, at least three characters of fields with an equal sign and with
   * newlines only in strings, and digits for a timestamp or none at all.
   */
  predicate Whole(r: Rest) {
    && TagPiece(r.tags) && (r.tags != "" ==> r.tags[0] == ',')
    && |r.fields| >= 3 && '=' in r.fields && r.fields[0] != ' ' && r.fields[0] != NUL
    && r.fields[|r.fields| - 1] !in WHITESPACE && Over(r.fields, Mode(false, true, 0, 0)).Some?
    && Timed(r.fields, r.stamp)
  }

  /** It begins with nothing that is trimmed away. */
  predicate Leads(m: string) { m != "" && m[0] !in BLANKS && m[0] != NUL }

  lemma PointLast(m: string, r: Rest)
    requires Whole(r)
    ensures var p := PointText(m, r); p != "" && p[|p| - 1] !in WHITESPACE
  {
    hide EscapeMeasurement, Over;
    var p := PointText(m, r);
    assert r.stamp != "" ==> r.stamp[|r.stamp| - 1] == r.stamp[1..][|r.stamp| - 2];
    assert p[|p| - 1] == if r.stamp == "" then r.fields[|r.fields| - 1] else r.stamp[|r.stamp| - 1];
  }

  lemma PointFirst(m: string, r: Rest)
    requires Leads(m)
    ensures
      var p := PointText(m, r);
      p != "" && p[0] !in WHITESPACE && p[0] !in " \t\0" && (p[0] == '#' <==> m[0] == '#')
  {
    EscaperIs(MEASUREMENT, m);
  }

  /** Trimming leaves it as it is. */
  lemma PointTrimmed(m: string, r: Rest)
    requires Leads(m) && Whole(r)
    ensures TrimSpace(PointText(m, r)) == PointText(m, r)
  {
    PointFirst(m, r);
    PointLast(m, r);
    hide PointText, Whole;
  }

  /** The point as it is told apart for the key. */
  lemma PointIs(m: string, r: Rest) returns (sep: char, rest: string)
    requires Leads(m) && Whole(r)
    ensures Point(m, sep, rest) && PointText(m, r) == PointLine(m, sep, rest)
  {
    hide EscapeMeasurement, Over;
    var e, t := EscapeMeasurement(m), r.tags + " " + r.fields + r.stamp;
    sep, rest := t[0], t[1..];
    PointLast(m, r);
    assert PointText(m, r) == e + t && t == [sep] + rest;
    assert rest[|rest| - 1] == PointText(m, r)[|PointText(m, r)| - 1];
  }

  lemma LinesOfOne(b: string)
    ensures LinesOf([b]) == Kept(b)
  {
    hide Kept;
    var bs := [b];
    assert |bs[1..]| == 0;
  }

  /** An uncut body is one line, unless it is a comment. */
  lemma Uncut(m: string, r: Rest)
    requires Leads(m) && Whole(r) && LineLength(PointText(m, r), START) == |PointText(m, r)|
    ensures LinesOf(Blocks(PointText(m, r))) == if m[0] == '#' then [] else [PointText(m, r)]
  {
    var p := PointText(m, r);
    PointFirst(m, r);
    PointLast(m, r);
    hide PointText, Whole, LineLength, WHITESPACE;
    BlocksCons(p);
    assert p[..|p|] == p && Blocks(p) == [p];
    assert Blank(p) == 0;
    hide Blocks, Blank;
    LinesOfOne(p);
  }

  // ---------- where a point is cut ----------

  lemma {:induction false} OverWhole(a: string, m: Mode)
    requires Over(a, m).Some? && (a != "" ==> a[|a| - 1] != '\n')
    ensures LineLength(a, m) == |a|
    decreases |a|
  {
    if a != "" {
      LineStep(a, m);
      if a[0] == BACKSLASH && |a| > 2 {
        OverWhole(a[2..], m);
      } else if a[0] == BACKSLASH {
        LineStep(a[1..], Next(m, BACKSLASH));
        assert a[1..][1..] == "";
      } else {
        OverWhole(a[1..], Next(m, a[0]));
      }
    }
  }

  lemma {:induction false} StampOver(s: string, m: Mode)
    requires forall i | 0 <= i < |s| :: s[i] == ' ' || Digit(s[i])
    ensures Over(s, m).Some?
  {
    if s != "" {
      StampOver(s[1..], Next(m, s[0]));
    }
  }

  /** A point for a clean measurement is not cut, newlines in its strings or not. */
  lemma CleanUncut(m: string, r: Rest)
    requires Clean(m) && Whole(r)
    ensures LineLength(PointText(m, r), START) == |PointText(m, r)|
  {
    var e, fields := EscapeMeasurement(m), Mode(false, true, 0, 0);
    PointLast(m, r);
    MeasurementOver(m);
    StampIs(r);
    hide EscapeMeasurement, Over, Whole, Clean, WHITESPACE;
    OverConcat(e, r.tags, START);
    OverChar(' ', START);
    OverConcat(e + r.tags, " ", START);
    OverConcat(e + r.tags + " ", r.fields, START);
    StampOver(r.stamp, Over(r.fields, fields).value);
    OverConcat(e + r.tags + " " + r.fields, r.stamp, START);
    OverWhole(PointText(m, r), START);
  }

  lemma StampIs(r: Rest)
    requires Whole(r)
    ensures forall i | 0 <= i < |r.stamp| :: r.stamp[i] == ' ' || Digit(r.stamp[i])
    ensures Over(r.tags, START) == Some(START) && Over(r.fields, Mode(false, true, 0, 0)).Some?
  {
    hide Over;
    forall i | 0 <= i < |r.stamp| ensures r.stamp[i] == ' ' || Digit(r.stamp[i]) {
      assert i > 0 ==> r.stamp[i] == r.stamp[1..][i - 1];
    }
  }

  lemma {:induction false} FirstNewline(m: string) returns (a: string, b: string)
    requires '\n' in m
    ensures m == a + "\n" + b && '\n' !in a
  {
    if m[0] == '\n' {
      a, b := "", m[1..];
    } else {
      a, b := FirstNewline(m[1..]);
      a := [m[0]] + a;
    }
  }

  lemma EscapedAt(a: string, b: string)
    ensures EscapeMeasurement(a + "\n" + b) == EscapeMeasurement(a) + "\n" + EscapeMeasurement(b)
  {
    EscaperIs(MEASUREMENT, a + "\n" + b);
    EscaperIs(MEASUREMENT, a);
    EscaperIs(MEASUREMENT, b);
    EscapeByConcat(MEASUREMENT, a + "\n", b);
    EscapeByConcat(MEASUREMENT, a, "\n");
    assert EscapeBy(MEASUREMENT, "\n") == "\n" by { assert "\n"[1..] == ""; }
  }

  /** One with a newline in its measurement is cut there. */
  lemma NewlineCuts(m: string, r: Rest)
    requires '\n' in m && BACKSLASH !in m
    ensures LineLength(PointText(m, r), START) < |PointText(m, r)|
  {
    var a, b := FirstNewline(m);
    var t := r.tags + " " + r.fields + r.stamp;
    assert Clean(a) by { assert forall i | 0 <= i < |a| :: a[i] == m[i]; }
    MeasurementOver(a);
    EscapedAt(a, b);
    hide Over, EscapeMeasurement, LineLength, Clean;
    var e, more := EscapeMeasurement(a), "\n" + (EscapeMeasurement(b) + t);
    assert PointText(m, r) == e + more;
    LineOver(e, more, START);
    LineStep(more, START);
  }

  // ---------- what RapidCheck makes of it ----------

  /** Its backslashes all have a character behind them to escape. */
  predicate Paired(s: string)
    decreases |s|
  {
    if s == "" then true else if s[0] == BACKSLASH then |s| > 1 && Paired(s[2..]) else Paired(s[1..])
  }

  lemma {:induction false} GapBehind(pre: string, t: string)
    requires Paired(pre) && t != "" && t[|t| - 1] != ' '
    ensures (pre + t)[|pre + t| - 1] != ' ' && FirstGap(pre + t) <= |pre| + FirstGap(t)
    decreases |pre|
  {
    if pre == "" {
      assert pre + t == t;
    } else if pre[0] == BACKSLASH {
      assert (pre + t)[2..] == pre[2..] + t;
      GapBehind(pre[2..], t);
    } else {
      assert (pre + t)[1..] == pre[1..] + t;
      GapBehind(pre[1..], t);
    }
  }

  /** Past its first space the scanner stays. */
  lemma {:induction false} FieldsStay(s: string, m: Mode)
    requires m.fields
    ensures Over(s, m).Some? ==> Over(s, m).value.fields
    decreases |s|
  {
    if s != "" {
      if s[0] == BACKSLASH && |s| > 1 {
        FieldsStay(s[2..], m);
      } else {
        FieldsStay(s[1..], Next(m, s[0]));
      }
    }
  }

  /** The first gap is the space behind the tags. */
  lemma {:induction false} TagsGap(tags: string, x: string)
    requires TagPiece(tags) && x != "" && x[0] != ' ' && x[|x| - 1] != ' '
    ensures FirstGap(tags + (" " + x)) == |tags|
    decreases |tags|
  {
    var s := tags + (" " + x);
    if tags == "" {
      assert s == " " + x;
    } else if tags[0] == BACKSLASH {
      assert s[2..] == tags[2..] + (" " + x);
      TagsGap(tags[2..], x);
    } else {
      if tags[0] == ' ' {
        FieldsStay(tags[1..], Next(START, ' '));
      }
      assert s[1..] == tags[1..] + (" " + x);
      TagsGap(tags[1..], x);
    }
  }

  /** The last one is the space in front of the timestamp. */
  lemma {:induction false} TimeGap(u: string, time: string)
    requires u != "" && u[|u| - 1] != ' ' && ' ' !in time
    ensures LastGap(u + " " + time) == |u|
  {
    var s := u + " " + time;
    if time == "" {
      assert s == u + " ";
    } else {
      var t := time[..|time| - 1];
      assert s[..|s| - 1] == u + " " + t;
      TimeGap(u, t);
    }
  }

  /** Any end of an escaped text without backslashes of its own is paired. */
  lemma {:induction false} EscapedPaired(m: string, i: nat)
    requires BACKSLASH !in m && i <= |EscapeBy(MEASUREMENT, m)|
    ensures Paired(EscapeBy(MEASUREMENT, m)[i..])
  {
    if m != "" {
      var e, t := EscapeBy(MEASUREMENT, m), EscapeBy(MEASUREMENT, m[1..]);
      var n := |e| - |t|;
      assert n <= 2 && e[n..] == t && t[0..] == t && e[0..] == e;
      if i >= n {
        EscapedPaired(m[1..], i - n);
        assert e[i..] == t[i - n..];
      } else {
        EscapedPaired(m[1..], 0);
        assert n == 2 ==> e[1..][1..] == t;
      }
    }
  }

  lemma {:induction false} DigitsOf(u: string, f: string)
    requires !AllDigits(f)
    ensures Digits(u + f) == Digits(f) < |f|
    decreases |f|
  {
    var n: nat := |f| - 1;
    assert (u + f)[..|u + f| - 1] == u + f[..n];
    if Digit(f[n]) {
      assert !AllDigits(f[..n]);
      DigitsOf(u, f[..n]);
    }
  }

  /** The point with its timestamp completed: one space, and behind it no other. */
  lemma PointDone(m: string, r: Rest, precision: string, multiplier: string -> int, now: int) returns (time: string)
    requires Leads(m) && Whole(r)
    ensures
      AppendNano(PointText(m, r), precision, multiplier, now)
      == EscapeMeasurement(m) + r.tags + " " + r.fields + " " + time
    ensures ' ' !in time && time != ""
  {
    var p, w := PointText(m, r), EscapeMeasurement(m) + r.tags + " " + r.fields;
    PointTrimmed(m, r);
    if r.stamp == "" {
      Untimed(EscapeMeasurement(m) + r.tags + " ", r.fields);
      hide EscapeMeasurement, Whole, FormatInt, ScanTime, TrimSpace;
      assert p == w;
      time := FormatInt(now);
      NumberPlain(now);
    } else {
      hide EscapeMeasurement, Whole, TrimSpace;
      time := TimedEnd(p, w, r.stamp[1..], precision, multiplier, now);
    }
  }

  lemma Untimed(u: string, f: string)
    requires u != "" && '=' in f && !ScanTime(f).1 && f[0] != ' ' && f[0] != NUL
    ensures !ScanTime(u + f).1
  {
    assert !AllDigits(f);
    DigitsOf(u, f);
  }

  lemma TimedEnd(p: string, w: string, d: string, precision: string, multiplier: string -> int, now: int)
    returns (time: string)
    requires p == w + " " + d && w != "" && d != "" && AllDigits(d) && TrimSpace(p) == p
    ensures AppendNano(p, precision, multiplier, now) == w + " " + time && ' ' !in time && time != ""
  {
    hide FormatInt, Value, TrimSpace, Wrap;
    var head := w + " ";
    assert Digits(head) == 0;
    DigitsAppend(head, d);
    hide Digits;
    assert ScanTime(p) == (|w|, true);
    hide ScanTime;
    assert p[..|w| + 1] == head;
    if Zeros(precision).Some? {
      time := d + Zeros(precision).value;
    } else {
      time := FormatInt(Wrap(Wrap(Value(p[|w| + 1..])) * multiplier(precision)));
      NumberPlain(Wrap(Wrap(Value(p[|w| + 1..])) * multiplier(precision)));
    }
  }

  /** A part of the line from inside the measurement on passes RapidCheck, with three characters of fields. */
  lemma PartPasses(pre: string, r: Rest, time: string)
    requires Paired(pre) && Whole(r) && ' ' !in time && time != ""
    ensures RapidOk(pre + (r.tags + (" " + (r.fields + " " + time))))
  {
    WholeEnds(r);
    hide Whole, Paired, FirstGap, LastGap, TagPiece;
    var x := r.fields + " " + time;
    var t, u := r.tags + (" " + x), pre + r.tags + " " + r.fields;
    assert x[|x| - 1] != ' ' by { hide *; assert x[|x| - 1] == time[|time| - 1]; }
    assert t[|t| - 1] == x[|x| - 1];
    TagsGap(r.tags, x);
    GapBehind(pre, t);
    assert pre + t == u + " " + time && |u| >= |pre| + |r.tags| + 4;
    TimeGap(u, time);
  }

  /** So RapidCheck lets the point pass, from wherever the length of the key leads it. */
  lemma Passes(m: string, r: Rest, precision: string, multiplier: string -> int, now: int)
    requires Leads(m) && Whole(r) && BACKSLASH !in m
    ensures
      var l := AppendNano(PointText(m, r), precision, multiplier, now);
      |m| <= |l| && RapidOk(l[|m|..])
  {
    var time := PointDone(m, r, precision, multiplier, now);
    var l := AppendNano(PointText(m, r), precision, multiplier, now);
    EscaperIs(MEASUREMENT, m);
    var e := EscapeBy(MEASUREMENT, m);
    EscapedLonger(m);
    EscapedPaired(m, |m|);
    hide *;
    SlicedAt(e, |m|, r.tags, r.fields, time);
    PartPasses(e[|m|..], r, time);
  }

  lemma SlicedAt(e: string, n: nat, a: string, b: string, c: string)
    requires n <= |e|
    ensures
      var s := e + a + " " + b + " " + c;
      n <= |s| && s[n..] == e[n..] + (a + (" " + (b + " " + c)))
  {
    var t := a + (" " + (b + " " + c));
    assert e + a + " " + b + " " + c == e + t;
  }

  lemma WholeEnds(r: Rest)
    requires Whole(r)
    ensures TagPiece(r.tags) && |r.fields| >= 3 && r.fields[0] != ' ' && r.fields[|r.fields| - 1] != ' '
  {
  }

  lemma {:induction false} EscapedLonger(m: string)
    ensures |EscapeBy(MEASUREMENT, m)| >= |m|
  {
    if m != "" {
      EscapedLonger(m[1..]);
    }
  }

  // ---------- the theorem ----------

  /** An uncut point for a measurement is stored under it exactly when that has no backslash and is no comment. */
  lemma UncutStored(m: string, r: Rest, precision: string, multiplier: string -> int, now: int)
    requires Leads(m) && Whole(r) && LineLength(PointText(m, r), START) == |PointText(m, r)|
    ensures StoredAs(PointText(m, r), m, precision, multiplier, now) <==> BACKSLASH !in m && m[0] != '#'
  {
    var p := PointText(m, r);
    Uncut(m, r);
    var sep, rest := PointIs(m, r);
    WrittenKey(m, sep, rest, precision, multiplier, now);
    if BACKSLASH !in m {
      Passes(m, r, precision, multiplier, now);
    }
    hide AppendNano, ScanKey, RapidOk, PointText, PointLine, Point, Whole, LineLength, Blocks, LinesOf;
    var lines := LinesOf(Blocks(p));
    if m[0] != '#' {
      assert lines == [p] && lines[0] == p;
      assert Accepted(p, precision, multiplier, now) == Some(m) <==> BACKSLASH !in m;
    }
  }

  /**
   * The body of a write that is a point for a measurement has a line that is stored under it exactly when the
   * measurement has neither a backslash nor a newline and is not taken for a comment. Newlines in strings are another
   * line's text once a measurement cuts the point, so a point that has some is for a clean measurement.
   */
  lemma StoredExact(m: string, r: Rest, precision: string, multiplier: string -> int, now: int)
    requires Leads(m) && Whole(r) && ('\n' in r.tags + r.fields ==> Clean(m))
    ensures StoredAs(PointText(m, r), m, precision, multiplier, now) <==> Clean(m) && m[0] != '#'
    ensures Clean(m) && m[0] != '#' ==> LinesOf(Blocks(PointText(m, r))) == [PointText(m, r)]
  {
    var p := PointText(m, r);
    if Clean(m) {
      CleanUncut(m, r);
      Uncut(m, r);
      UncutStored(m, r, precision, multiplier, now);
    } else {
      if BACKSLASH !in m {
        NewlineCuts(m, r);
      }
      hide StoredAs, PointText, Whole, LineLength;
      if LineLength(p, START) == |p| {
        UncutStored(m, r, precision, multiplier, now);
      } else {
        PointNewlines(m, r);
        CutIsLost(p, m, precision, multiplier, now);
      }
    }
  }

  lemma PointNewlines(m: string, r: Rest)
    requires '\n' !in r.tags + r.fields && Whole(r)
    ensures Newlines(PointText(m, r)) == Newlines(m)
  {
    StampIs(r);
    EscaperIs(MEASUREMENT, m);
    EscapedNewlines(m);
    NewlinesIn(r.tags + r.fields);
    NewlinesIn(r.stamp);
    hide EscapeMeasurement, Whole, EscapeBy;
  }

  lemma {:induction false} EscapedNewlines(m: string)
    ensures Newlines(EscapeBy(MEASUREMENT, m)) == Newlines(m)
  {
    if m != "" {
      EscapedNewlines(m[1..]);
      assert m == [m[0]] + m[1..];
    }
  }

  // ---------- bodies of many points ----------

  lemma {:induction false} LinesOfConcat(a: seq<string>, b: seq<string>)
    ensures LinesOf(a + b) == LinesOf(a) + LinesOf(b)
  {
    hide Kept;
    if a == [] {
      assert a + b == b;
    } else {
      assert (a + b)[1..] == a[1..] + b;
      LinesOfConcat(a[1..], b);
    }
  }

  /** A text that the scanner passes over, with a newline behind it, is a block of its own. */
  lemma LinesApart(p: string, q: string)
    requires p != "" && p[|p| - 1] != BACKSLASH && p[|p| - 1] != '\n' && Sealed(p)
    ensures LinesOf(Blocks(p + "\n" + q)) == LinesOf(Blocks(p)) + LinesOf(Blocks(q))
  {
    FirstRow(p + "\n", q);
    assert Shorn(p + "\n") == p;
    OverWhole(p, START);
    BlocksCons(p);
    hide Blocks, LineLength, LinesOf, Sealed;
    assert p[..|p|] == p && Blocks(p) == [p];
    LinesOfConcat([p], Blocks(q));
  }

  /** So each point of a body is stored as if it were alone. */
  lemma StoredApart(p: string, q: string, m: string, precision: string, multiplier: string -> int, now: int)
    requires p != "" && p[|p| - 1] != BACKSLASH && p[|p| - 1] != '\n' && Sealed(p)
    ensures StoredAs(p + "\n" + q, m, precision, multiplier, now)
      <==> StoredAs(p, m, precision, multiplier, now) || StoredAs(q, m, precision, multiplier, now)
  {
    LinesApart(p, q);
    hide Blocks, LinesOf, Accepted, Sealed;
    var a, b := LinesOf(Blocks(p)), LinesOf(Blocks(q));
    if StoredAs(p, m, precision, multiplier, now) {
      var i :| 0 <= i < |a| && Accepted(a[i], precision, multiplier, now) == Some(m);
      assert (a + b)[i] == a[i];
    }
    if StoredAs(q, m, precision, multiplier, now) {
      var i :| 0 <= i < |b| && Accepted(b[i], precision, multiplier, now) == Some(m);
      assert (a + b)[|a| + i] == b[i];
    }
  }
}
