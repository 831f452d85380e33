/** Keys and timestamps of points in line protocol (backend/lineproto.go). */
module LineProto {
  import opened Prelude
  import opened Escape
  import opened InfluxQL

  // ---------- the measurement of a point ----------

  /** The key, io.EOF when the line ends before it does, or an index out of range behind a final backslash. */
  datatype KeyResult = Key(key: string) | NoKey | KeyPanic

  function Behind(text: string, k: KeyResult): KeyResult {
    if k.Key? then Key(text + k.key) else k
  }

  function ScanKey(s: string): KeyResult
    decreases |s|
  {
    if s == "" then NoKey
    else if s[0] == BACKSLASH then (if |s| == 1 then KeyPanic else Behind([s[1]], ScanKey(s[2..])))
    else if s[0] == ' ' || s[0] == ',' then Key("")
    else Behind([s[0]], ScanKey(s[1..]))
  }

  lemma BehindTwice(a: string, c: char, k: KeyResult)
    ensures Behind(a, Behind([c], k)) == Behind(a + [c], k)
    ensures Behind("", k) == k && Behind(a, Key("")) == Key(a)
  {
    if k.Key? {
      assert a + ([c] + k.key) == a + [c] + k.key;
    }
  }

  method ScanKeyLoop(pointbuf: string) returns (r: KeyResult)
    ensures r == ScanKey(pointbuf)
  {
    var b := "";
    var i := 0;
    assert pointbuf[0..] == pointbuf;
    BehindTwice("", ' ', ScanKey(pointbuf));
    while i < |pointbuf|
      invariant i <= |pointbuf|
      invariant ScanKey(pointbuf) == Behind(b, ScanKey(pointbuf[i..]))
    {
      ghost var s := pointbuf[i..];
      var c := pointbuf[i];
      if c == BACKSLASH {
        i := i + 1;
        if i == |pointbuf| {
          return KeyPanic;
        }
        assert s[2..] == pointbuf[i + 1..];
        BehindTwice(b, pointbuf[i], ScanKey(s[2..]));
        b := b + [pointbuf[i]];
      } else if c == ' ' || c == ',' {
        BehindTwice(b, ' ', Key(""));
        return Key(b);
      } else {
        assert s[1..] == pointbuf[i + 1..];
        BehindTwice(b, c, ScanKey(s[1..]));
        b := b + [c];
      }
      i := i + 1;
    }
    r := NoKey;
  }

  function Backslashes(n: nat): string {
    if n == 0 then "" else [BACKSLASH] + Backslashes(n - 1)
  }

  lemma ScanKeyCons(c: char, t: string)
    ensures c != BACKSLASH && c != ' ' && c != ',' ==> ScanKey([c] + t) == Behind([c], ScanKey(t))
    ensures ScanKey([BACKSLASH, c] + t) == Behind([c], ScanKey(t))
    ensures c == ' ' || c == ',' ==> ScanKey([c] + t) == Key("")
  {
    assert ([c] + t)[1..] == t && ([BACKSLASH, c] + t)[2..] == t;
  }

  function Tail(m: string, sep: char, rest: string): string { EscapeBy(MEASUREMENT, m) + [sep] + rest }

  lemma TailCons(m: string, sep: char, rest: string)
    requires m != ""
    ensures Tail(m, sep, rest)
      == (if m[0] in MEASUREMENT then [BACKSLASH, m[0]] else [m[0]]) + Tail(m[1..], sep, rest)
  {
  }

  /** A measurement without backslashes comes back from behind its escapes. */
  lemma {:induction false} KeyBack(m: string, sep: char, rest: string)
    requires BACKSLASH !in m && (sep == ' ' || sep == ',')
    ensures ScanKey(Tail(m, sep, rest)) == Key(m)
  {
    if m == "" {
      assert Tail(m, sep, rest) == [sep] + rest;
      ScanKeyCons(sep, rest);
    } else {
      hide Tail, ScanKey;
      TailCons(m, sep, rest);
      ScanKeyCons(m[0], Tail(m[1..], sep, rest));
      KeyBack(m[1..], sep, rest);
      assert m == [m[0]] + m[1..];
    }
  }

  lemma KeyStart(c: char, k: KeyResult, want: string)
    requires want != "" && want[0] == BACKSLASH && c != BACKSLASH
    ensures Behind([c], k) != Key(want)
  {
    if k.Key? {
      assert ([c] + k.key)[0] == c;
    }
  }

  /** The key read is never the measurement with more backslashes in front of it. */
  lemma {:induction false} KeyGainsNoBackslash(n: nat, m: string, sep: char, rest: string)
    requires sep == ' ' || sep == ','
    requires n > 0 || (m != "" && m[0] == BACKSLASH)
    ensures ScanKey(Tail(m, sep, rest)) != Key(Backslashes(n) + m)
    decreases |m|
  {
    var want := Backslashes(n) + m;
    assert want[0] == BACKSLASH;
    if m == "" {
      assert Tail(m, sep, rest) == [sep] + rest;
      ScanKeyCons(sep, rest);
    } else if m[0] != BACKSLASH {
      hide ScanKey;
      var t := Tail(m[1..], sep, rest);
      TailCons(m, sep, rest);
      ScanKeyCons(m[0], t);
      KeyStart(m[0], ScanKey(t), want);
    } else if |m| == 1 {
      assert Tail(m, sep, rest) == [BACKSLASH, sep] + rest;
      ScanKeyCons(sep, rest);
      KeyStart(sep, ScanKey(rest), want);
    } else {
      KeyAfterBackslash(n, m, sep, rest);
    }
  }

  lemma {:induction false} KeyAfterBackslash(n: nat, m: string, sep: char, rest: string)
    requires (sep == ' ' || sep == ',') && |m| > 1 && m[0] == BACKSLASH
    ensures ScanKey(Tail(m, sep, rest)) != Key(Backslashes(n) + m)
    decreases |m|, 0
  {
    hide ScanKey, Tail;
    var want, c, u := Backslashes(n) + m, m[1], Tail(m[2..], sep, rest);
    TailCons(m, sep, rest);
    TailCons(m[1..], sep, rest);
    assert m[1..][1..] == m[2..];
    if c in MEASUREMENT {
      assert Tail(m, sep, rest) == [BACKSLASH, BACKSLASH] + ([c] + u);
      ScanKeyCons(BACKSLASH, [c] + u);
      ScanKeyCons(c, u);
      assert |want| >= 2;
    } else {
      assert Tail(m, sep, rest) == [BACKSLASH, c] + u;
      ScanKeyCons(c, u);
      if c != BACKSLASH {
        KeyStart(c, ScanKey(u), want);
      } else {
        KeyGainsNoBackslash(n + 1, m[2..], sep, rest);
        assert m == [BACKSLASH, BACKSLASH] + m[2..];
        MoreBackslashes(n, m[2..]);
        var k := ScanKey(u);
        if k.Key? {
          ConsIs(BACKSLASH, k.key, want);
        }
      }
    }
  }

  lemma ConsIs(c: char, k: string, m: string)
    requires m != ""
    ensures [c] + k == m ==> k == m[1..]
  {
    assert ([c] + k)[1..] == k;
  }

  lemma MoreBackslashes(n: nat, t: string)
    ensures (Backslashes(n) + ([BACKSLASH, BACKSLASH] + t))[1..] == Backslashes(n + 1) + t
  {
    assert [BACKSLASH, BACKSLASH] + t == [BACKSLASH] + ([BACKSLASH] + t);
    BackslashLast(n, [BACKSLASH] + t);
    BackslashLast(n + 1, t);
    assert Backslashes(n + 2) + t == [BACKSLASH] + (Backslashes(n + 1) + t);
  }

  lemma {:induction false} BackslashLast(n: nat, t: string)
    ensures Backslashes(n) + ([BACKSLASH] + t) == Backslashes(n + 1) + t
  {
    if n == 0 {
      assert Backslashes(1) == [BACKSLASH] + Backslashes(0);
    } else {
      BackslashLast(n - 1, t);
      assert Backslashes(n) + ([BACKSLASH] + t) == [BACKSLASH] + (Backslashes(n - 1) + ([BACKSLASH] + t));
    }
  }

  /**
   * The key of a point written for a measurement is that measurement exactly when there is no backslash in it, whatever
   * tags and fields follow.
   */
  lemma {:induction false} ScanKeyExact(m: string, sep: char, rest: string)
    requires sep == ' ' || sep == ','
    ensures ScanKey(EscapeMeasurement(m) + [sep] + rest) == Key(m) <==> BACKSLASH !in m
  {
    EscaperIs(MEASUREMENT, m);
    KeyExact(m, sep, rest);
  }

  lemma {:induction false} KeyExact(m: string, sep: char, rest: string)
    requires sep == ' ' || sep == ','
    ensures ScanKey(Tail(m, sep, rest)) == Key(m) <==> BACKSLASH !in m
  {
    if BACKSLASH !in m {
      KeyBack(m, sep, rest);
    } else if m[0] == BACKSLASH {
      KeyGainsNoBackslash(0, m, sep, rest);
      assert Backslashes(0) + m == m;
    } else {
      KeyExact(m[1..], sep, rest);
      hide Tail, ScanKey;
      TailCons(m, sep, rest);
      ScanKeyCons(m[0], Tail(m[1..], sep, rest));
      var k := ScanKey(Tail(m[1..], sep, rest));
      if k.Key? {
        ConsIs(m[0], k.key, m);
      }
    }
  }

  // ---------- timestamps ----------

  predicate Digit(c: char) { '0' <= c <= '9' }

  /** How many digits s ends in. */
  function Digits(s: string): (n: nat)
    ensures n <= |s|
    ensures forall i | |s| - n <= i < |s| :: Digit(s[i])
    ensures n < |s| ==> !Digit(s[|s| - 1 - n])
  {
    if s == "" || !Digit(s[|s| - 1]) then 0 else 1 + Digits(s[..|s| - 1])
  }

  const NUL := '\0'

  /** ScanTime: where the character before the final digits is, and whether they are a timestamp. */
  function ScanTime(s: string): (int, bool) {
    var i := |s| - 1 - Digits(s);
    (i, 0 < i < |s| - 1 && (s[i] == ' ' || s[i] == NUL))
  }

  method ScanTimeLoop(buf: string) returns (pos: int, found: bool)
    ensures (pos, found) == ScanTime(buf)
  {
    pos := |buf| - 1;
    assert buf[..|buf|] == buf;
    while pos >= 0
      invariant -1 <= pos < |buf| || pos == -1
      invariant Digits(buf) == |buf| - 1 - pos + Digits(buf[..pos + 1])
    {
      if buf[pos] < '0' || buf[pos] > '9' {
        break;
      }
      assert buf[..pos + 1][..pos] == buf[..pos];
      pos := pos - 1;
    }
    found := pos > 0 && pos < |buf| - 1 && (buf[pos] == ' ' || buf[pos] == NUL);
  }

  /** An int64 result of an operation that may wrap around. */
  function Wrap(x: int): (y: int)
    ensures -0x8000_0000_0000_0000 <= y < 0x8000_0000_0000_0000
    ensures -0x8000_0000_0000_0000 <= x < 0x8000_0000_0000_0000 ==> y == x
  {
    var m := x % 0x1_0000_0000_0000_0000;
    if m < 0x8000_0000_0000_0000 then m else m - 0x1_0000_0000_0000_0000
  }

  /** The number digits stand for. */
  function Value(s: string): int {
    if s == "" then 0 else 10 * Value(s[..|s| - 1]) + (s[|s| - 1] as int - '0' as int)
  }

  predicate AllDigits(s: string) { forall i | 0 <= i < |s| :: Digit(s[i]) }

  /** BytesToInt64: the same in 64 bits. */
  method BytesToInt64(buf: string) returns (res: int)
    requires AllDigits(buf)
    ensures res == Wrap(Value(buf))
  {
    res := 0;
    for i := 0 to |buf|
      invariant res == Wrap(Value(buf[..i]))
    {
      assert buf[..i + 1][..i] == buf[..i];
      WrapStep(Value(buf[..i]), buf[i] as int - '0' as int);
      res := Wrap(res * 10 + (buf[i] as int - '0' as int));
    }
    assert buf[..|buf|] == buf;
  }

  lemma WrapStep(v: int, d: int)
    ensures Wrap(Wrap(v) * 10 + d) == Wrap(v * 10 + d)
  {
    var k := (v - Wrap(v)) / 0x1_0000_0000_0000_0000;
    assert v == Wrap(v) + k * 0x1_0000_0000_0000_0000;
    assert v * 10 + d == (Wrap(v) * 10 + d) + (10 * k) * 0x1_0000_0000_0000_0000;
    WrapShift(Wrap(v) * 10 + d, 10 * k);
  }

  lemma WrapShift(a: int, k: int)
    ensures Wrap(a + k * 0x1_0000_0000_0000_0000) == Wrap(a)
  {
  }

  /** strconv.FormatInt in base 10. */
  function FormatNat(n: nat): (s: string)
    ensures s != "" && AllDigits(s) && (s[0] == '0' ==> s == "0")
    ensures Value(s) == n
  {
    var d := [('0' as int + n % 10) as char];
    if n < 10 then d
    else
      var s := FormatNat(n / 10) + d;
      assert s[..|s| - 1] == FormatNat(n / 10);
      s
  }

  function FormatInt(n: int): (s: string)
    ensures s != "" && Digit(s[|s| - 1])
  {
    if n < 0 then "-" + FormatNat(-n) else FormatNat(n)
  }

  /** The zeros appended for a precision that is a power of ten of nanoseconds; None for the others. */
  function Zeros(precision: string): Option<string> {
    if precision == "ns" || precision == "n" then Some("")
    else if precision == "us" || precision == "u" then Some("000")
    else if precision == "ms" then Some("000000")
    else if precision == "s" then Some("000000000")
    else None
  }

  /**
   * AppendNano. The precision multiplier is a library's and the clock is the system's: both are parameters, now being
   * the current time in nanoseconds.
   */
  function AppendNano(line: string, precision: string, multiplier: string -> int, now: int): string {
    var l := TrimSpace(line);
    var (pos, found) := ScanTime(l);
    if !found then l + " " + FormatInt(now)
    else if Zeros(precision).Some? then l + Zeros(precision).value
    else l[..pos + 1] + FormatInt(Wrap(Wrap(Value(l[pos + 1..])) * multiplier(precision)))
  }

  /** Whatever it is given, AppendNano returns a line that ends in a digit. */
  lemma EndsInDigit(line: string, precision: string, multiplier: string -> int, now: int)
    ensures
      var r := AppendNano(line, precision, multiplier, now);
      r != "" && Digit(r[|r| - 1])
  {
    hide FormatInt, TrimSpace, Wrap, Value;
  }

  /** Only a final backslash takes ScanKey out of range, so a line from AppendNano never does. */
  lemma {:induction false} ScanKeyPanics(s: string)
    ensures ScanKey(s) == KeyPanic ==> s != "" && s[|s| - 1] == BACKSLASH
    decreases |s|
  {
    if s != "" {
      if s[0] == BACKSLASH && |s| > 1 {
        ScanKeyPanics(s[2..]);
      } else {
        ScanKeyPanics(s[1..]);
      }
    }
  }

  lemma NanoLineHasKey(line: string, precision: string, multiplier: string -> int, now: int)
    ensures ScanKey(AppendNano(line, precision, multiplier, now)) != KeyPanic
  {
    EndsInDigit(line, precision, multiplier, now);
    hide AppendNano;
    ScanKeyPanics(AppendNano(line, precision, multiplier, now));
  }

  function Pow10(n: nat): nat { if n == 0 then 1 else 10 * Pow10(n - 1) }

  lemma {:induction false} ValueShift(s: string, z: string)
    requires forall i | 0 <= i < |z| :: z[i] == '0'
    ensures Value(s + z) == Value(s) * Pow10(|z|)
    decreases |z|
  {
    if z == "" {
      assert s + z == s;
    } else {
      var y := z[..|z| - 1];
      assert (s + z)[..|s + z| - 1] == s + y;
      ValueShift(s, y);
    }
  }

  lemma {:induction false} DigitsAppend(s: string, d: string)
    requires AllDigits(d)
    ensures Digits(s + d) == Digits(s) + |d|
    decreases |d|
  {
    if d == "" {
      assert s + d == s;
    } else {
      var e := d[..|d| - 1];
      assert (s + d)[..|s + d| - 1] == s + e;
      DigitsAppend(s, e);
    }
  }

  /** New digits for the ones a line ends in. */
  lemma NewDigits(l: string, f: string)
    requires ScanTime(l).1 && AllDigits(f) && f != ""
    ensures
      var pos := ScanTime(l).0;
      var r := l[..pos + 1] + f;
      ScanTime(r) == (pos, true) && r[..pos + 1] == l[..pos + 1] && r[pos + 1..] == f
  {
    var pos := ScanTime(l).0;
    var head := l[..pos + 1];
    assert Digits(head) == 0;
    DigitsAppend(head, f);
    assert (head + f)[pos] == l[pos];
  }

  /** A minus sign in front of new digits is where the final digits then begin, and no space. */
  lemma NewNegative(l: string, f: string)
    requires ScanTime(l).1 && AllDigits(f) && f != ""
    ensures
      var pos := ScanTime(l).0;
      ScanTime(l[..pos + 1] + ("-" + f)) == (pos + 1, false)
  {
    var pos := ScanTime(l).0;
    var head := l[..pos + 1] + "-";
    assert Digits(head) == 0;
    DigitsAppend(head, f);
    Regroup(l[..pos + 1], "-", f);
    assert (head + f)[pos + 1] == '-';
  }

  /** A timestamp of these digits that is still found where it was and has been multiplied by k. */
  predicate Scaled(l: string, r: string, k: int) {
    var pos := ScanTime(l).0;
    ScanTime(l).1 && ScanTime(r) == (pos, true) && r[..pos + 1] == l[..pos + 1]
    && Value(r[pos + 1..]) == Value(l[pos + 1..]) * k
  }

  predicate AllZeros(z: string) { forall i | 0 <= i < |z| :: z[i] == '0' }

  lemma Extended(l: string, z: string)
    requires ScanTime(l).1 && AllZeros(z)
    ensures Scaled(l, l + z, Pow10(|z|))
  {
    var pos := ScanTime(l).0;
    var head, d := l[..pos + 1], l[pos + 1..];
    FinalDigits(l);
    ValueShift(d, z);
    hide Digits, Value, Pow10;
    NewDigits(l, d + z);
    assert l == head + d;
    Regroup(head, d, z);
  }

  lemma ZerosAre(precision: string)
    requires Zeros(precision).Some?
    ensures AllZeros(Zeros(precision).value)
    ensures precision in {"ns", "n"} ==> |Zeros(precision).value| == 0
    ensures precision in {"us", "u"} ==> |Zeros(precision).value| == 3
    ensures precision == "ms" ==> |Zeros(precision).value| == 6
    ensures precision == "s" ==> |Zeros(precision).value| == 9
  {
  }

  lemma Thousands()
    ensures Pow10(0) == 1 && Pow10(3) == 1_000 && Pow10(6) == 1_000_000 && Pow10(9) == 1_000_000_000
  {
    assert Pow10(3) == 10 * (10 * (10 * Pow10(0)));
    assert Pow10(6) == 10 * (10 * (10 * Pow10(3)));
    assert Pow10(9) == 10 * (10 * (10 * Pow10(6)));
  }

  /** Appending zeros multiplies a timestamp by the nanoseconds of its precision, for any number of digits. */
  lemma NanoZeros(line: string, precision: string, multiplier: string -> int, now: int)
    requires ScanTime(TrimSpace(line)).1
    ensures precision in {"ns", "n"} ==>
      Scaled(TrimSpace(line), AppendNano(line, precision, multiplier, now), 1)
    ensures precision in {"us", "u"} ==>
      Scaled(TrimSpace(line), AppendNano(line, precision, multiplier, now), 1_000)
    ensures precision == "ms" ==>
      Scaled(TrimSpace(line), AppendNano(line, precision, multiplier, now), 1_000_000)
    ensures precision == "s" ==>
      Scaled(TrimSpace(line), AppendNano(line, precision, multiplier, now), 1_000_000_000)
  {
    assert Zeros(precision).Some? <==> precision in {"ns", "n", "us", "u", "ms", "s"};
    hide TrimSpace, ScanTime, Zeros, Scaled, Pow10;
    if Zeros(precision).Some? {
      assert AppendNano(line, precision, multiplier, now) == TrimSpace(line) + Zeros(precision).value;
      ZerosAre(precision);
      Thousands();
      Extended(TrimSpace(line), Zeros(precision).value);
    }
  }

  /** Exactly these are timestamps: digits, not all of the text, behind a space or a NUL that does not begin it. */
  lemma ScanTimeExact(head: string, c: char, digits: string)
    requires !Digit(c) && AllDigits(digits)
    ensures ScanTime(head + [c] + digits)
      == (|head|, head != "" && digits != "" && (c == ' ' || c == '\0'))
    ensures !ScanTime(digits).1
  {
    DigitsAppend(head + [c], digits);
    DigitsAppend("", digits);
    assert "" + digits == digits;
    assert (head + [c] + digits)[|head|] == c;
  }

  /** A line without a timestamp gets the clock's behind a space, and it is found there with its value. */
  lemma NanoNow(line: string, precision: string, multiplier: string -> int, now: int)
    requires !ScanTime(TrimSpace(line)).1 && now >= 0
    ensures
      var l, r := TrimSpace(line), AppendNano(line, precision, multiplier, now);
      && l + " " <= r && AllDigits(r[|l| + 1..]) && Value(r[|l| + 1..]) == now
      && (l != "" ==> ScanTime(r) == (|l|, true))
  {
    hide TrimSpace, FormatNat, Value, ScanTime;
    var l, t := TrimSpace(line), FormatNat(now);
    assert AppendNano(line, precision, multiplier, now) == l + " " + t;
    assert (l + " " + t)[|l| + 1..] == t;
    ScanTimeExact(l, ' ', t);
  }

  /** Converting it does so exactly when the product is a non-negative number of 64 bits, whatever the multiplier. */
  lemma NanoConverted(line: string, precision: string, multiplier: string -> int, now: int)
    requires ScanTime(TrimSpace(line)).1 && precision !in {"ns", "n", "us", "u", "ms", "s"}
    ensures
      var l := TrimSpace(line);
      var t := Value(l[ScanTime(l).0 + 1..]);
      Scaled(l, AppendNano(line, precision, multiplier, now), multiplier(precision))
      <==> 0 <= t * multiplier(precision) < 0x8000_0000_0000_0000
  {
    var l, k := TrimSpace(line), multiplier(precision);
    hide TrimSpace, FormatNat, Digits, Value, Wrap;
    var pos := ScanTime(l).0;
    var t := Value(l[pos + 1..]);
    FinalDigits(l);
    WrapTwice(t, k);
    var w := Wrap(t * k);
    assert AppendNano(line, precision, multiplier, now) == l[..pos + 1] + FormatInt(w);
    if w >= 0 {
      NewDigits(l, FormatNat(w));
    } else {
      NewNegative(l, FormatNat(-w));
    }
    WrapRange(t * k);
  }

  lemma WrapTwice(t: int, k: int)
    ensures Wrap(Wrap(t) * k) == Wrap(t * k)
  {
    var q := (t - Wrap(t)) / 0x1_0000_0000_0000_0000;
    assert t == Wrap(t) + q * 0x1_0000_0000_0000_0000;
    assert t * k == Wrap(t) * k + (q * k) * 0x1_0000_0000_0000_0000;
    WrapShift(Wrap(t) * k, q * k);
  }

  lemma WrapRange(x: int)
    ensures -0x8000_0000_0000_0000 <= Wrap(x) < 0x8000_0000_0000_0000
    ensures 0 <= x < 0x8000_0000_0000_0000 <==> x >= 0 && Wrap(x) == x
  {
  }

  lemma FinalDigits(l: string)
    requires ScanTime(l).1
    ensures var d := l[ScanTime(l).0 + 1..]; AllDigits(d) && d != ""
  {
  }

  // ---------- the quick check of a line ----------

  /** Where RapidCheck's first loop stops: at the last of the first run of unescaped spaces, or behind the end. */
  function FirstGap(s: string): nat
    requires s != "" ==> s[|s| - 1] != ' '
    decreases |s|
  {
    if s == "" then 0
    else if s[0] == BACKSLASH then (if |s| == 1 then 2 else 2 + FirstGap(s[2..]))
    else if s[0] == ' ' && s[1] != ' ' then 0
    else 1 + FirstGap(s[1..])
  }

  /** Where its second part stops: at the first of the last run of spaces; -1 when there is no space. */
  function LastGap(s: string): (j: int)
    ensures -1 <= j < |s|
  {
    if s == "" then -1
    else if s[|s| - 1] != ' ' then LastGap(s[..|s| - 1])
    else RunStart(s, |s| - 1)
  }

  function RunStart(s: string, j: nat): (k: nat)
    requires j < |s|
    ensures k <= j
  {
    if j > 0 && s[j - 1] == ' ' then RunStart(s, j - 1) else j
  }

  /** How many backslashes stand directly in front of position j. */
  function Slashes(s: string, j: nat): (n: nat)
    requires j <= |s|
    ensures n <= j
  {
    if j == 0 || s[j - 1] != BACKSLASH then 0 else 1 + Slashes(s, j - 1)
  }

  /** A space with an even number of backslashes in front of it. */
  predicate FreeSpace(s: string, j: nat) { j < |s| && s[j] == ' ' && Slashes(s, j) % 2 == 0 }

  /** Escapes are pairs: what comes behind one, or behind a plain character, is escaped or not as it is on its own. */
  lemma {:induction false} SlashesBehind(s: string, k: nat, j: nat)
    requires k + j <= |s| && ((k == 1 && s[0] != BACKSLASH) || (k == 2 && s[0] == BACKSLASH))
    ensures Slashes(s, k + j) % 2 == Slashes(s[k..], j) % 2
    decreases j
  {
    if j == 0 {
      if k == 2 && s[1] == BACKSLASH {
        assert Slashes(s, 2) == 1 + Slashes(s, 1) && Slashes(s, 1) == 1 + Slashes(s, 0);
      }
    } else {
      SlashesBehind(s, k, j - 1);
    }
  }

  lemma FreeSpaceBehind(s: string, k: nat, j: nat)
    requires k + j <= |s| && ((k == 1 && s[0] != BACKSLASH) || (k == 2 && s[0] == BACKSLASH))
    ensures FreeSpace(s, k + j) <==> FreeSpace(s[k..], j)
  {
    SlashesBehind(s, k, j);
  }

  /** The run of spaces from f to g, both included, that ends there. */
  predicate Run(s: string, f: nat, g: nat) {
    f <= g < |s| && (forall i | f <= i <= g :: s[i] == ' ') && (g + 1 < |s| ==> s[g + 1] != ' ')
  }

  /** FirstGap is the end of the run that the first unescaped space begins; behind the end when there is none. */
  lemma {:induction false} FirstGapExact(s: string) returns (f: nat)
    requires s != "" ==> s[|s| - 1] != ' '
    ensures FirstGap(s) < |s| ==>
      FreeSpace(s, f) && Run(s, f, FirstGap(s)) && forall j: nat | j < f :: !FreeSpace(s, j)
    ensures FirstGap(s) >= |s| ==> forall j: nat :: !FreeSpace(s, j)
    decreases |s|
  {
    f := 0;
    if s == "" {
    } else if s[0] == BACKSLASH && |s| > 1 {
      var rest := FirstGapExact(s[2..]);
      f := 2 + rest;
      forall j: nat | 2 <= j <= |s| ensures FreeSpace(s, j) <==> FreeSpace(s[2..], j - 2) {
        FreeSpaceBehind(s, 2, j - 2);
      }
      assert Slashes(s, 1) == 1;
    } else if s[0] == ' ' && s[1] != ' ' {
    } else if s[0] != BACKSLASH {
      var rest := FirstGapExact(s[1..]);
      forall j: nat | 1 <= j <= |s| ensures FreeSpace(s, j) <==> FreeSpace(s[1..], j - 1) {
        FreeSpaceBehind(s, 1, j - 1);
      }
      if s[0] == ' ' {
        assert FreeSpace(s[1..], 0);
      } else {
        f := 1 + rest;
      }
    }
  }

  /** LastGap is the start of the run that the last space of any kind ends; -1 when there is no space. */
  lemma {:induction false} LastGapExact(s: string) returns (l: nat)
    ensures LastGap(s) < 0 ==> ' ' !in s
    ensures LastGap(s) >= 0 ==>
      Run(s, LastGap(s), l) && ' ' !in s[l + 1..] && (LastGap(s) > 0 ==> s[LastGap(s) - 1] != ' ')
  {
    l := 0;
    if s != "" {
      var n: nat := |s| - 1;
      if s[n] == ' ' {
        l := n;
        RunStartExact(s, n);
      } else {
        l := LastGapExact(s[..n]);
        assert s == s[..n] + [s[n]];
        if LastGap(s) >= 0 {
          assert s[l + 1..] == s[..n][l + 1..] + [s[n]];
        }
      }
    }
  }

  lemma {:induction false} RunStartExact(s: string, j: nat)
    requires j < |s| && s[j] == ' '
    ensures forall i | RunStart(s, j) <= i <= j :: s[i] == ' '
    ensures RunStart(s, j) > 0 ==> s[RunStart(s, j) - 1] != ' '
  {
    if j > 0 && s[j - 1] == ' ' {
      RunStartExact(s, j - 1);
    }
  }

  /** RapidCheck ends on every line that does not end in a space, as no line from AppendNano does. */
  method RapidCheck(buf: string) returns (ok: bool)
    requires buf != "" ==> buf[|buf| - 1] != ' '
    ensures ok <==> LastGap(buf) - FirstGap(buf) > 3
  {
    var i := FindFirstGap(buf);
    var j := FindLastGap(buf);
    ok := j - i > 3;
  }

  method FindFirstGap(buf: string) returns (i: nat)
    requires buf != "" ==> buf[|buf| - 1] != ' '
    ensures i == FirstGap(buf)
  {
    i := 0;
    assert buf[0..] == buf;
    while i < |buf|
      invariant i <= |buf| + 1
      invariant FirstGap(buf) == i + if i <= |buf| then FirstGap(buf[i..]) else 0
      decreases |buf| + 1 - i
    {
      ghost var s := buf[i..];
      if buf[i] == BACKSLASH {
        assert |s| > 1 ==> s[2..] == buf[i + 2..];
        i := i + 2;
      } else if buf[i] == ' ' {
        while i < |buf| - 1 && buf[i + 1] == ' '
          invariant i < |buf| && buf[i] == ' '
          invariant FirstGap(buf) == i + FirstGap(buf[i..])
        {
          assert buf[i..][1..] == buf[i + 1..];
          i := i + 1;
        }
        return;
      } else {
        assert s[1..] == buf[i + 1..];
        i := i + 1;
      }
    }
  }

  method FindLastGap(buf: string) returns (j: int)
    ensures j == LastGap(buf)
  {
    j := |buf| - 1;
    assert buf[..j + 1] == buf;
    while j >= 0 && buf[j] != ' '
      invariant -1 <= j < |buf|
      invariant LastGap(buf) == LastGap(buf[..j + 1])
    {
      assert buf[..j + 1][..j] == buf[..j];
      j := j - 1;
    }
    if j >= 0 {
      RunStartPrefix(buf, buf[..j + 1], j);
    }
    while j > 0 && buf[j - 1] == ' '
      invariant -1 <= j < |buf|
      invariant LastGap(buf) == if j < 0 then -1 else RunStart(buf, j)
    {
      j := j - 1;
    }
  }

  lemma {:induction false} RunStartPrefix(s: string, t: string, j: nat)
    requires t <= s && j < |t|
    ensures RunStart(s, j) == RunStart(t, j)
  {
    if j > 0 && s[j - 1] == ' ' {
      RunStartPrefix(s, t, j - 1);
    }
  }
}
