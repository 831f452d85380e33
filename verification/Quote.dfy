/** Reading quoted text: FindEndWithQuote of backend/influxql.go, and the quoting it inverts. */
module Quote {
  import opened Prelude
  import opened Escape

  datatype Error = WrongBackslash | UnmatchedQuote | Unclosed | IllegalQL

  /**
   * How reading ends: with how many characters taken, what they stand for and the error if there was one; or by an
   * index out of range, when a backslash is the last character there is.
   */
  datatype Quoted = Quoted(used: nat, text: string, err: Option<Error>) | Panic

  function Before(c: char, n: nat, q: Quoted): Quoted {
    if q.Panic? then Panic else Quoted(n + q.used, [c] + q.text, q.err)
  }

  /** The loop of FindEndWithQuote, on what follows the opening character. */
  function Scan(s: string, q: char): (r: Quoted)
    ensures r.Quoted? ==> r.used <= |s| && |r.text| <= r.used
    ensures r.Quoted? && r.err.None? ==> r.text != ""
    decreases |s|
  {
    if s == "" then Quoted(0, "", Some(UnmatchedQuote))
    else if s[0] == q then Quoted(1, [q], None)
    else if s[0] == BACKSLASH then
      if |s| == 1 then Panic
      else if s[1] == q || s[1] == BACKSLASH then Before(s[1], 2, Scan(s[2..], q))
      else Quoted(0, "", Some(WrongBackslash))
    else Before(s[0], 1, Scan(s[1..], q))
  }

  /** FindEndWithQuote(s, 0, q). */
  function FindEndWithQuote(s: string, q: char): (r: Quoted)
    requires s != ""
    ensures r.Quoted? ==> 1 <= r.used <= |s| && 1 <= |r.text| <= r.used
    ensures r.Quoted? && r.err.None? ==> |r.text| >= 2
  {
    Before(s[0], 1, Scan(s[1..], q))
  }

  // ---------- the quoting that is read ----------

  /** A text with the quote character and the backslash escaped. */
  function Quoting(q: char, text: string): string { EscapeBy([q, BACKSLASH], text) }

  /** Reading a quoted text up to its closing quote gives the text, whatever follows. */
  lemma {:induction false} ScanQuoting(q: char, text: string, rest: string)
    requires q != BACKSLASH
    ensures Scan(Quoting(q, text) + [q] + rest, q) == Quoted(|Quoting(q, text)| + 1, text + [q], None)
  {
    var s := Quoting(q, text) + [q] + rest;
    if text != "" {
      var t := Quoting(q, text[1..]);
      ScanQuoting(q, text[1..], rest);
      if text[0] == q || text[0] == BACKSLASH {
        assert s[2..] == t + [q] + rest;
      } else {
        assert s[1..] == t + [q] + rest;
      }
      assert [text[0]] + (text[1..] + [q]) == text + [q];
    } else {
      assert s[0] == q;
    }
  }

  /** The one decomposition of a text to be read: the quoting of some text, and then what stops the reading. */
  datatype Stop = Closed(rest: string) | Ended | Dangling | Wrong(c: char, rest: string)

  function StopText(q: char, e: Stop): string {
    match e
    case Closed(rest) => [q] + rest
    case Ended => ""
    case Dangling => [BACKSLASH]
    case Wrong(c, rest) => [BACKSLASH, c] + rest
  }

  predicate Stops(q: char, e: Stop) { e.Wrong? ==> e.c != q && e.c != BACKSLASH }

  function Outcome(q: char, text: string, e: Stop): Quoted {
    var n := |Quoting(q, text)|;
    match e
    case Closed(_) => Quoted(n + 1, text + [q], None)
    case Ended => Quoted(n, text, Some(UnmatchedQuote))
    case Dangling => Panic
    case Wrong(_, _) => Quoted(n, text, Some(WrongBackslash))
  }

  lemma QuotingCons(q: char, c: char, t: string, tail: string)
    ensures Quoting(q, [c] + t) + tail
      == (if c == q || c == BACKSLASH then [BACKSLASH, c] else [c]) + (Quoting(q, t) + tail)
    ensures |Quoting(q, [c] + t)| == |Quoting(q, t)| + if c == q || c == BACKSLASH then 2 else 1
  {
    assert ([c] + t)[1..] == t;
  }

  lemma StopAt(q: char, s: string) returns (e: Stop)
    requires q != BACKSLASH
    requires s != "" ==> s[0] == q || (s[0] == BACKSLASH && (|s| > 1 ==> s[1] != q && s[1] != BACKSLASH))
    ensures Stops(q, e) && s == Quoting(q, "") + StopText(q, e)
  {
    e := if s == "" then Ended else if s[0] == q then Closed(s[1..]) else if |s| == 1 then Dangling
      else Wrong(s[1], s[2..]);
  }

  /** Every input is the quoting of some text followed by one of the four stops. */
  lemma {:induction false} Decompose(q: char, s: string) returns (text: string, e: Stop)
    requires q != BACKSLASH
    ensures Stops(q, e) && s == Quoting(q, text) + StopText(q, e)
    decreases |s|
  {
    hide Quoting, StopText;
    if s != "" && s[0] != q && s[0] != BACKSLASH {
      text, e := Decompose(q, s[1..]);
      QuotingCons(q, s[0], text, StopText(q, e));
      assert s == [s[0]] + s[1..];
      text := [s[0]] + text;
    } else if |s| > 1 && s[0] == BACKSLASH && (s[1] == q || s[1] == BACKSLASH) {
      text, e := Decompose(q, s[2..]);
      QuotingCons(q, s[1], text, StopText(q, e));
      assert s == [s[0], s[1]] + s[2..];
      text := [s[1]] + text;
    } else {
      text := "";
      e := StopAt(q, s);
    }
  }

  lemma ScanStop(q: char, e: Stop)
    requires q != BACKSLASH && Stops(q, e)
    ensures Scan(StopText(q, e), q) == Outcome(q, "", e) && Quoting(q, "") + StopText(q, e) == StopText(q, e)
  {
  }

  lemma ScanCons(q: char, c: char, s: string)
    requires q != BACKSLASH
    ensures c == q || c == BACKSLASH ==> Scan([BACKSLASH, c] + s, q) == Before(c, 2, Scan(s, q))
    ensures c != q && c != BACKSLASH ==> Scan([c] + s, q) == Before(c, 1, Scan(s, q))
  {
    assert ([BACKSLASH, c] + s)[2..] == s && ([c] + s)[1..] == s;
  }

  /** And that decides what reading it gives: success, either error, or the index out of range. */
  lemma {:induction false} ScanExact(q: char, text: string, e: Stop)
    requires q != BACKSLASH && Stops(q, e)
    ensures Scan(Quoting(q, text) + StopText(q, e), q) == Outcome(q, text, e)
  {
    if text == "" {
      ScanStop(q, e);
    } else {
      var c, t := text[0], text[1..];
      ScanExact(q, t, e);
      hide Quoting, StopText, Scan;
      assert text == [c] + t;
      QuotingCons(q, c, t, StopText(q, e));
      ScanCons(q, c, Quoting(q, t) + StopText(q, e));
      assert text + [q] == [c] + (t + [q]);
    }
  }

  /** Reading accepts just the quoted texts, and returns the text quoted. */
  lemma ScanAccepts(q: char, s: string, text: string, n: nat)
    requires q != BACKSLASH
    ensures Scan(s, q) == Quoted(n, text + [q], None)
      <==> n == |Quoting(q, text)| + 1 && Quoting(q, text) + [q] <= s
  {
    var t, e := Decompose(q, s);
    ScanExact(q, t, e);
    hide Scan, Quoting;
    SnocEqual(t, text, q);
    if e.Closed? && t == text {
      ClosedStart(Quoting(q, text), q, e.rest);
    }
    var front := Quoting(q, text) + [q];
    if front <= s {
      ScanQuoting(q, text, s[|front|..]);
      assert s == front + s[|front|..];
    }
  }

  lemma SnocEqual(a: string, b: string, c: char)
    ensures a + [c] == b + [c] <==> a == b
  {
    assert (a + [c])[..|a|] == a && (b + [c])[..|b|] == b;
  }

  lemma ClosedStart(a: string, c: char, rest: string)
    ensures a + [c] <= a + ([c] + rest)
  {
    assert a + ([c] + rest) == a + [c] + rest;
  }

  /** The loop itself. */
  method FindEndWithQuoteLoop(data: string, start: nat, endchar: char) returns (r: Quoted)
    requires start < |data|
    ensures r == FindEndWithQuote(data[start..], endchar)
  {
    hide Scan, Behind, Before;
    var unquoted := [data[start]];
    var end := start + 1;
    assert data[start..][1..] == data[start + 1..];
    BehindStart(data[start..], endchar);
    while end < |data|
      invariant start < end <= |data|
      invariant FindEndWithQuote(data[start..], endchar) == Behind(unquoted, end - start, Scan(data[end..], endchar))
      decreases |data| - end
    {
      ghost var s := data[end..];
      BehindStep(unquoted, end - start, s, endchar);
      if data[end] == endchar {
        unquoted := unquoted + [data[end]];
        end := end + 1;
        return Quoted(end - start, unquoted, None);
      } else if data[end] == BACKSLASH {
        if end + 1 == |data| {
          return Panic;
        } else if data[end + 1] == endchar || data[end + 1] == BACKSLASH {
          assert s[2..] == data[end + 2..];
          end := end + 1;
          unquoted := unquoted + [data[end]];
        } else {
          return Quoted(end - start, unquoted, Some(WrongBackslash));
        }
      } else {
        assert s[1..] == data[end + 1..];
        unquoted := unquoted + [data[end]];
      }
      end := end + 1;
    }
    assert data[end..] == "";
    BehindEnd(unquoted, end - start, endchar);
    r := Quoted(end - start, unquoted, Some(UnmatchedQuote));
  }

  function Behind(text: string, n: nat, q: Quoted): Quoted {
    if q.Panic? then Panic else Quoted(n + q.used, text + q.text, q.err)
  }

  lemma BehindBefore(text: string, n: nat, c: char, k: nat, q: Quoted)
    ensures Behind(text, n, Before(c, k, q)) == Behind(text + [c], n + k, q)
  {
    if q.Quoted? {
      assert text + ([c] + q.text) == text + [c] + q.text;
    }
  }

  lemma BehindStart(s: string, q: char)
    requires s != ""
    ensures FindEndWithQuote(s, q) == Behind([s[0]], 1, Scan(s[1..], q))
  {
  }

  lemma BehindEnd(text: string, n: nat, q: char)
    ensures Behind(text, n, Scan("", q)) == Quoted(n, text, Some(UnmatchedQuote))
  {
    assert text + "" == text;
  }

  /** One turn of the loop. */
  lemma BehindStep(text: string, n: nat, s: string, q: char)
    requires s != ""
    ensures s[0] == q ==> Behind(text, n, Scan(s, q)) == Quoted(n + 1, text + [s[0]], None)
    ensures s[0] != q && s[0] != BACKSLASH ==>
      Behind(text, n, Scan(s, q)) == Behind(text + [s[0]], n + 1, Scan(s[1..], q))
    ensures s[0] != q && s[0] == BACKSLASH ==>
      Behind(text, n, Scan(s, q))
      == if |s| == 1 then Panic
         else if s[1] == q || s[1] == BACKSLASH then Behind(text + [s[1]], n + 2, Scan(s[2..], q))
         else Quoted(n, text, Some(WrongBackslash))
  {
    assert text + "" == text;
    if s[0] == q {
    } else if s[0] != BACKSLASH {
      BehindBefore(text, n, s[0], 1, Scan(s[1..], q));
    } else if |s| > 1 && (s[1] == q || s[1] == BACKSLASH) {
      BehindBefore(text, n, s[1], 2, Scan(s[2..], q));
    }
  }
}
