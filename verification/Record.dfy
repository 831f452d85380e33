/** The text form of one backlog record: url-escaped database and retention policy, then the compressed lines. */
module Record {
  import opened Prelude
  import opened Binary

  type Bytes = seq<Byte>

  const SPACE: Byte := 32
  const PERCENT: Byte := 37
  const PLUS: Byte := 43

  // ---------- url.QueryEscape / url.QueryUnescape ----------

  /** Letters, digits, '-', '_', '.' and '~' stand for themselves (RFC 3986, section 2.3). */
  predicate Unreserved(c: Byte) {
    97 <= c <= 122 || 65 <= c <= 90 || 48 <= c <= 57 || c == 45 || c == 95 || c == 46 || c == 126
  }

  function HexDigit(n: nat): (c: Byte)
    requires n < 16
    ensures Unreserved(c) && HexValue(c) == Some(n)
  {
    if n < 10 then 48 + n else 55 + n
  }

  function HexValue(c: Byte): (r: Option<nat>)
    ensures r.Some? ==> r.value < 16
  {
    if 48 <= c <= 57 then Some(c - 48)
    else if 97 <= c <= 102 then Some(c - 87)
    else if 65 <= c <= 70 then Some(c - 55)
    else None
  }

  function EscapeByte(c: Byte): Bytes {
    if Unreserved(c) then [c]
    else if c == SPACE then [PLUS]
    else [PERCENT, HexDigit(c / 16), HexDigit(c % 16)]
  }

  function QueryEscape(s: Bytes): Bytes {
    if s == [] then [] else EscapeByte(s[0]) + QueryEscape(s[1..])
  }

  function QueryUnescape(s: Bytes): (r: Option<Bytes>) {
    if s == [] then Some([])
    else if s[0] == PERCENT then
      if |s| < 3 || HexValue(s[1]).None? || HexValue(s[2]).None? then None
      else
        match QueryUnescape(s[3..])
        case None => None
        case Some(t) => Some([16 * HexValue(s[1]).value + HexValue(s[2]).value] + t)
    else
      match QueryUnescape(s[1..])
      case None => None
      case Some(t) => Some([if s[0] == PLUS then SPACE else s[0]] + t)
  }

  lemma {:induction false} UnescapeEscape(s: Bytes)
    ensures QueryUnescape(QueryEscape(s)) == Some(s)
  {
    if s != [] {
      var e := EscapeByte(s[0]);
      var q := QueryEscape(s[1..]);
      UnescapeEscape(s[1..]);
      assert (e + q)[|e|..] == q;
      assert s == [s[0]] + s[1..];
      if !Unreserved(s[0]) && s[0] != SPACE {
        assert HexValue(e[1]) == Some(s[0] / 16) && HexValue(e[2]) == Some(s[0] % 16);
        assert (e + q)[0] == PERCENT && (e + q)[1] == e[1] && (e + q)[2] == e[2];
      }
    }
  }

  lemma {:induction false} EscapeHasNoSpace(s: Bytes)
    ensures SPACE !in QueryEscape(s)
  {
    if s != [] {
      EscapeHasNoSpace(s[1..]);
      assert SPACE !in EscapeByte(s[0]);
    }
  }

  /** Text is escaped byte by byte: letters, digits and -_.~ as they are, a space as plus, the rest in hexadecimal. */
  lemma EscapeBytes(c: Byte, s: Bytes)
    ensures QueryEscape([c] + s)
      == (if 97 <= c <= 122 || 65 <= c <= 90 || 48 <= c <= 57 || c in {45, 95, 46, 126} then [c]
          else if c == 32 then [43]
          else [37, (if c / 16 < 10 then 48 else 55) + c / 16, (if c % 16 < 10 then 48 else 55) + c % 16])
         + QueryEscape(s)
  {
    assert ([c] + s)[1..] == s;
  }

  // ---------- bytes.Join / bytes.SplitN with a space ----------

  function Join(db: Bytes, rp: Bytes, p: Bytes): Bytes {
    QueryEscape(db) + [SPACE] + QueryEscape(rp) + [SPACE] + p
  }

  /** Position of the first space, or |s| when there is none. */
  function FindSpace(s: Bytes): (n: nat)
    ensures n <= |s|
    ensures SPACE !in s[..n]
    ensures n < |s| ==> s[n] == SPACE
  {
    if s == [] || s[0] == SPACE then 0
    else
      var n := FindSpace(s[1..]);
      assert s[..1 + n] == [s[0]] + s[1..][..n];
      1 + n
  }

  /** bytes.SplitN(s, " ", n) for n >= 1: at most n pieces, the last one keeps its spaces. */
  function SplitN(s: Bytes, n: nat): (ps: seq<Bytes>)
    requires n >= 1
    ensures 1 <= |ps| <= n
  {
    var k := FindSpace(s);
    if n == 1 || k == |s| then [s] else [s[..k]] + SplitN(s[k + 1..], n - 1)
  }

  datatype Point = Point(db: Bytes, rp: Bytes, payload: Bytes)

  /** What Rewrite makes of a record it read: None when it has fewer than three parts or a bad escape. */
  function Parse(b: Bytes): (r: Option<Point>) {
    var p := SplitN(b, 3);
    if |p| < 3 then None
    else
      match (QueryUnescape(p[0]), QueryUnescape(p[1]))
      case (Some(db), Some(rp)) => Some(Point(db, rp, p[2]))
      case _ => None
  }

  lemma {:induction false} FindSpaceAt(a: Bytes, rest: Bytes)
    requires SPACE !in a
    ensures FindSpace(a + [SPACE] + rest) == |a|
  {
    var s := a + [SPACE] + rest;
    if a != [] {
      assert a[0] in a;
      assert s[1..] == a[1..] + [SPACE] + rest;
      FindSpaceAt(a[1..], rest);
    }
  }

  /** Cutting at the first space undoes joining with one. */
  lemma SplitNJoin(a: Bytes, t: Bytes, n: nat)
    requires SPACE !in a && n >= 2
    ensures SplitN(a + [SPACE] + t, n) == [a] + SplitN(t, n - 1)
  {
    var s := a + [SPACE] + t;
    FindSpaceAt(a, t);
    assert s[..|a|] == a && s[|a| + 1..] == t;
  }

  lemma JoinAssoc(d: Bytes, r: Bytes, p: Bytes)
    ensures d + [SPACE] + r + [SPACE] + p == d + [SPACE] + (r + [SPACE] + p)
  {
  }

  /** The record FlushBuffer writes is the one Rewrite reads back: database, policy and payload, spaces and all. */
  lemma ParseJoin(db: Bytes, rp: Bytes, p: Bytes)
    ensures Parse(Join(db, rp, p)) == Some(Point(db, rp, p))
  {
    var d, r := QueryEscape(db), QueryEscape(rp);
    EscapeHasNoSpace(db);
    EscapeHasNoSpace(rp);
    var t := r + [SPACE] + p;
    assert Join(db, rp, p) == d + [SPACE] + t by { JoinAssoc(d, r, p); }
    SplitNJoin(d, t, 3);
    SplitNJoin(r, p, 2);
    var ps := SplitN(d + [SPACE] + t, 3);
    assert ps[0] == d && ps[1] == r && ps[2] == p && |ps| == 3;
    UnescapeEscape(db);
    UnescapeEscape(rp);
  }

  // ---------- length framing ----------

  /** One record on disk: a 32-bit length, truncated as uint32(len(p)) does, and the record. */
  function Frame(p: Bytes): (f: Bytes)
    ensures |f| == 4 + |p|
  {
    PutUint32(|p| % U32) + p
  }

  function FrameAll(rs: seq<Bytes>): Bytes {
    if rs == [] then [] else Frame(rs[0]) + FrameAll(rs[1..])
  }

  predicate Fits(p: Bytes) { |p| < U32 }

  lemma {:induction false} FrameAllConcat(a: seq<Bytes>, b: seq<Bytes>)
    ensures FrameAll(a + b) == FrameAll(a) + FrameAll(b)
  {
    hide PutUint32, GetUint32;
    if a == [] {
      assert a + b == b;
    } else {
      assert (a + b)[1..] == a[1..] + b;
      FrameAllConcat(a[1..], b);
    }
  }

  lemma FrameAllOne(r: Bytes)
    ensures FrameAll([r]) == Frame(r)
  {
    assert FrameAll([r][1..]) == [];
  }

  /** The frame code is prefix-free on records that fit the 32-bit length. */
  lemma FramePrefixFree(p: Bytes, q: Bytes, x: Bytes, y: Bytes)
    requires Fits(p) && Fits(q) && Frame(p) + x == Frame(q) + y
    ensures p == q && x == y
  {
    hide PutUint32, GetUint32;
    assert (Frame(p) + x)[..4] == PutUint32(|p|);
    assert (Frame(q) + y)[..4] == PutUint32(|q|);
    assert |p| == |q|;
    assert (Frame(p) + x)[4..4 + |p|] == p;
    assert (Frame(q) + y)[4..4 + |q|] == q;
    assert (Frame(p) + x)[4 + |p|..] == x;
    assert (Frame(q) + y)[4 + |q|..] == y;
  }

  /** A log is the frames of at most one list of records. */
  lemma {:induction false} FrameAllInjective(a: seq<Bytes>, b: seq<Bytes>)
    requires (forall r | r in a :: Fits(r)) && (forall r | r in b :: Fits(r))
    requires FrameAll(a) == FrameAll(b)
    ensures a == b
  {
    hide PutUint32, GetUint32;
    if a != [] && b != [] {
      FramePrefixFree(a[0], b[0], FrameAll(a[1..]), FrameAll(b[1..]));
      FrameAllInjective(a[1..], b[1..]);
      assert a == [a[0]] + a[1..] && b == [b[0]] + b[1..];
    }
  }

  /** A log that ends in a proper, non-empty part of a frame is not the log of any list of records. */
  lemma {:induction false} TornTailIsNoLog(rs: seq<Bytes>, p: Bytes, n: nat, ws: seq<Bytes>)
    requires Fits(p) && 0 < n < |Frame(p)|
    requires (forall r | r in rs :: Fits(r)) && (forall r | r in ws :: Fits(r))
    ensures FrameAll(rs) + Frame(p)[..n] != FrameAll(ws)
  {
    hide PutUint32, GetUint32;
    var torn, rest := Frame(p)[..n], Frame(p)[n..];
    if ws != [] {
      if rs == [] {
        if torn == FrameAll(ws) {
          assert Frame(p) + [] == Frame(ws[0]) + (FrameAll(ws[1..]) + rest);
          FramePrefixFree(p, ws[0], [], FrameAll(ws[1..]) + rest);
        }
        assert FrameAll(rs) + torn == torn;
      } else {
        TornTailIsNoLog(rs[1..], p, n, ws[1..]);
        var tail := FrameAll(rs[1..]) + torn;
        assert FrameAll(rs) + torn == Frame(rs[0]) + tail;
        if Frame(rs[0]) + tail == Frame(ws[0]) + FrameAll(ws[1..]) {
          FramePrefixFree(rs[0], ws[0], tail, FrameAll(ws[1..]));
        }
      }
    }
  }
}
