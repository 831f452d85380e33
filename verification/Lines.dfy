/** Cutting a body of points into lines: ScanLine of backend/influxql.go and Proxy.Write of backend/proxy.go. */
module Lines {
  import opened Prelude
  import opened Escape

  /** What ScanLine keeps track of: whether it is in a string, past the first space, and the two counts. */
  datatype Mode = Mode(quoted: bool, fields: bool, equals: nat, commas: nat)

  const START := Mode(false, false, 0, 0)

  /** One character that is not skipped as part of an escape. */
  function Next(m: Mode, c: char): Mode {
    var m1 := if c == ' ' then m.(fields := true) else m;
    if !m1.fields then m1
    else if !m1.quoted && c == '=' then m1.(equals := m1.equals + 1)
    else if !m1.quoted && c == ',' then m1.(commas := m1.commas + 1)
    else if c == '"' && m1.equals > m1.commas then m1.(quoted := !m1.quoted)
    else m1
  }

  /** How far the line at the front of s reaches: up to its newline, or to the end. */
  function LineLength(s: string, m: Mode): (n: nat)
    ensures n <= |s|
    ensures n < |s| ==> s[n] == '\n'
    decreases |s|
  {
    if s == "" then 0
    else if s[0] == BACKSLASH && |s| > 2 then 2 + LineLength(s[2..], m)
    else if s[0] == '\n' && !m.quoted then 0
    else 1 + LineLength(s[1..], Next(m, s[0]))
  }

  lemma LineStep(s: string, m: Mode)
    requires s != ""
    ensures s[0] == BACKSLASH && |s| > 2 ==> LineLength(s, m) == 2 + LineLength(s[2..], m)
    ensures !(s[0] == BACKSLASH && |s| > 2) && (s[0] != '\n' || m.quoted) ==>
      LineLength(s, m) == 1 + LineLength(s[1..], Next(m, s[0]))
    ensures s[0] == '\n' && !m.quoted ==> LineLength(s, m) == 0
  {
  }

  method ScanLine(buf: string, start: nat) returns (i: nat, block: string)
    requires start <= |buf|
    ensures i == start + LineLength(buf[start..], START) && i <= |buf| && block == buf[start..i]
  {
    hide LineLength;
    ghost var want := start + LineLength(buf[start..], START);
    i := start;
    var quoted, fields, equals: nat, commas: nat := false, false, 0, 0;
    while i < |buf|
      invariant start <= i <= |buf|
      invariant want == i + LineLength(buf[i..], Mode(quoted, fields, equals, commas))
      decreases |buf| - i
    {
      ghost var was := Mode(quoted, fields, equals, commas);
      LineStep(buf[i..], was);
      assert buf[i..][1..] == buf[i + 1..];
      if buf[i] == BACKSLASH && i + 2 < |buf| {
        assert buf[i..][2..] == buf[i + 2..];
        i := i + 2;
        continue;
      }
      if buf[i] == ' ' {
        fields := true;
      }
      if fields {
        if !quoted && buf[i] == '=' {
          i := i + 1;
          equals := equals + 1;
          continue;
        } else if !quoted && buf[i] == ',' {
          i := i + 1;
          commas := commas + 1;
          continue;
        } else if buf[i] == '"' && equals > commas {
          i := i + 1;
          quoted := !quoted;
          continue;
        }
      }
      if buf[i] == '\n' && !quoted {
        break;
      }
      i := i + 1;
    }
    LineLengthEnd(Mode(quoted, fields, equals, commas));
    block := buf[start..i];
  }

  lemma LineLengthEnd(m: Mode)
    ensures LineLength("", m) == 0
  {
  }

  // ---------- the cuts ----------

  /**
   * How the j-th character of a line is seen: skipped behind a backslash, inside a string, or in the open. A backslash
   * that has only one character behind it escapes nothing.
   */
  datatype Sight = Skipped | InString | Open

  function SightOf(s: string, m: Mode, j: nat): Sight
    requires j < |s|
    decreases |s|
  {
    if s[0] == BACKSLASH && |s| > 2 then
      if j < 2 then Skipped else SightOf(s[2..], m, j - 2)
    else if j == 0 then (if m.quoted then InString else Open)
    else SightOf(s[1..], Next(m, s[0]), j - 1)
  }

  /** A line ends at its first newline in the open, and nowhere else. */
  lemma {:induction false} FirstOpenNewline(s: string, m: Mode)
    ensures var n := LineLength(s, m);
      && (n < |s| ==> s[n] == '\n' && SightOf(s, m, n) == Open)
      && (forall j | 0 <= j < n && s[j] == '\n' :: SightOf(s, m, j) != Open)
    decreases |s|
  {
    var n := LineLength(s, m);
    if s != "" {
      if s[0] == BACKSLASH && |s| > 2 {
        FirstOpenNewline(s[2..], m);
        forall j | 0 <= j < n && s[j] == '\n' ensures SightOf(s, m, j) != Open {
          if j >= 2 {
            assert s[2..][j - 2] == '\n';
          }
        }
      } else if s[0] != '\n' || m.quoted {
        FirstOpenNewline(s[1..], Next(m, s[0]));
        forall j | 0 <= j < n && s[j] == '\n' ensures SightOf(s, m, j) != Open {
          if j >= 1 {
            assert s[1..][j - 1] == '\n';
          }
        }
      }
    }
  }

  /** Without quotes and backslashes every newline ends a line. */
  lemma {:induction false} PlainLine(s: string, m: Mode)
    requires '"' !in s && BACKSLASH !in s && !m.quoted
    ensures forall j | 0 <= j < LineLength(s, m) :: s[j] != '\n'
    decreases |s|
  {
    if s != "" && s[0] != '\n' {
      PlainLine(s[1..], Next(m, s[0]));
      forall j | 0 <= j < LineLength(s, m) ensures s[j] != '\n' {
        if j > 0 {
          assert s[1..][j - 1] != '\n';
        }
      }
    }
  }

  /** The blocks Write cuts a body into. */
  function Blocks(p: string): (bs: seq<string>)
    decreases |p|
  {
    if p == "" then []
    else
      var n := LineLength(p, START);
      [p[..n]] + if n < |p| then Blocks(p[n + 1..]) else []
  }

  function Ended(bs: seq<string>): string {
    if bs == [] then "" else bs[0] + "\n" + Ended(bs[1..])
  }

  /** The blocks, each with a newline behind it, are the body again, up to a final newline. */
  lemma {:induction false} BlocksRejoin(p: string)
    ensures Ended(Blocks(p)) == p || Ended(Blocks(p)) == p + "\n"
    decreases |p|
  {
    if p != "" {
      var n := LineLength(p, START);
      BlocksCons(p);
      EndedCons(p[..n], if n < |p| then Blocks(p[n + 1..]) else []);
      if n < |p| {
        BlocksRejoin(p[n + 1..]);
        RejoinStep(p, n, Ended(Blocks(p[n + 1..])));
      } else {
        hide LineLength, Blocks, Ended;
        assert p[..n] + "\n" + "" == p + "\n";
      }
    }
  }

  lemma RejoinStep(p: string, n: nat, e: string)
    requires n < |p| && p[n] == '\n'
    ensures e == p[n + 1..] ==> p[..n] + "\n" + e == p
    ensures e == p[n + 1..] + "\n" ==> p[..n] + "\n" + e == p + "\n"
  {
  }

  lemma BlocksCons(p: string)
    requires p != ""
    ensures
      var n := LineLength(p, START);
      Blocks(p) == [p[..n]] + if n < |p| then Blocks(p[n + 1..]) else []
  {
  }

  lemma EndedCons(b: string, bs: seq<string>)
    ensures Ended([b] + bs) == b + "\n" + Ended(bs) && Ended([]) == ""
  {
    assert ([b] + bs)[1..] == bs;
  }

  /** SkipWhitespace(s, 0) */
  function Blank(s: string): (n: nat)
    ensures n <= |s|
  {
    if s != "" && s[0] in " \t\0" then 1 + Blank(s[1..]) else 0
  }

  /** What Write passes on of a block: nothing of an empty or blank one, or of a comment. */
  function LineOf(block: string): Option<string> {
    var start := Blank(block);
    if start == |block| || block[start] == '#' then None
    else
      var end := if block[|block| - 1] == '\n' then |block| - 1 else |block|;
      Some(block[start..end])
  }

  /**
   * Of any block, which is blanks and then text that does not begin with one, the text is passed on without the newline
   * it may end in; nothing is when there is no text, or it is a comment.
   */
  lemma LineOfExact(pre: string, text: string)
    requires (forall i | 0 <= i < |pre| :: pre[i] in " \t\0") && (text != "" ==> text[0] !in " \t\0")
    ensures LineOf(pre + text)
      == if text == "" || text[0] == '#' then None
         else if text[|text| - 1] == '\n' then Some(text[..|text| - 1])
         else Some(text)
  {
    BlankOver(pre, text);
    hide Blank;
    var block := pre + text;
    if text != "" {
      assert block[|block| - 1] == text[|text| - 1] && block[|pre|] == text[0];
      assert block[|pre|..|block| - 1] == text[..|text| - 1] && block[|pre|..|block|] == text;
    }
  }

  lemma {:induction false} BlankOver(pre: string, text: string)
    requires (forall i | 0 <= i < |pre| :: pre[i] in " \t\0") && (text != "" ==> text[0] !in " \t\0")
    ensures Blank(pre + text) == |pre|
  {
    if pre == "" {
      assert pre + text == text;
    } else {
      assert (pre + text)[1..] == pre[1..] + text;
      BlankOver(pre[1..], text);
    }
  }

  function LinesOf(bs: seq<string>): seq<string> {
    if bs == [] then []
    else Kept(bs[0]) + LinesOf(bs[1..])
  }

  function Kept(b: string): seq<string> {
    if LineOf(b).Some? then [LineOf(b).value] else []
  }

  lemma {:induction false} LinesOfSnoc(bs: seq<string>, b: string)
    ensures LinesOf(bs + [b]) == LinesOf(bs) + Kept(b)
  {
    hide Kept, LineOf;
    if bs == [] {
      assert (bs + [b])[1..] == [] && LinesOf([]) == [];
    } else {
      assert (bs + [b])[1..] == bs[1..] + [b];
      LinesOfSnoc(bs[1..], b);
    }
  }

  /** The blocks of p from index pos on, which may be one past the end. */
  ghost function BlocksFrom(p: string, pos: nat): seq<string> {
    if pos < |p| then Blocks(p[pos..]) else []
  }

  lemma NextBlock(p: string, pos: nat)
    requires pos < |p|
    ensures
      var i := pos + LineLength(p[pos..], START);
      BlocksFrom(p, pos) == [p[pos..i]] + BlocksFrom(p, i + 1)
  {
    hide LineLength;
    var s := p[pos..];
    var n := LineLength(s, START);
    assert s[..n] == p[pos..pos + n];
    if n < |s| {
      assert s[n + 1..] == p[pos + n + 1..];
      assert pos + n + 1 == |p| ==> s[n + 1..] == "" && Blocks("") == [];
    }
  }

  /** Proxy.Write: the lines it hands to WriteRow, in order. */
  method Write(p: string) returns (lines: seq<string>)
    ensures lines == LinesOf(Blocks(p))
  {
    hide LineLength, LineOf, Blocks, LinesOf;
    lines := [];
    var pos := 0;
    ghost var done: seq<string> := [];
    WriteStart(p);
    while pos < |p|
      invariant pos <= |p| + 1
      invariant Blocks(p) == done + BlocksFrom(p, pos)
      invariant lines == LinesOf(done)
      decreases |p| + 1 - pos
    {
      NextBlock(p, pos);
      var i, block := ScanLine(p, pos);
      pos := i + 1;
      LinesOfSnoc(done, block);
      assert done + ([block] + BlocksFrom(p, pos)) == done + [block] + BlocksFrom(p, pos);
      done := done + [block];
      var line := KeptLine(block);
      if line.Some? {
        lines := lines + [line.value];
      }
    }
    assert done + [] == done;
  }

  lemma WriteStart(p: string)
    ensures Blocks(p) == [] + BlocksFrom(p, 0) && LinesOf([]) == []
  {
    assert p[0..] == p;
    assert p == "" ==> Blocks(p) == [];
  }

  /** The checks Write makes of a block. */
  method KeptLine(block: string) returns (line: Option<string>)
    ensures line == LineOf(block)
  {
    if |block| == 0 {
      return None;
    }
    var start := 0;
    assert block[0..] == block;
    while start < |block| && block[start] in " \t\0"
      invariant start <= |block| && Blank(block) == start + Blank(block[start..])
    {
      assert block[start..][1..] == block[start + 1..];
      start := start + 1;
    }
    assert Blank(block[start..]) == 0;
    if start >= |block| || block[start] == '#' {
      return None;
    }
    var b := block;
    if b[|b| - 1] == '\n' {
      b := b[..|b| - 1];
    }
    assert b[start..] == block[start..|b|];
    line := Some(b[start..]);
  }
}
