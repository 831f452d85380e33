/** Reading a measurement in pages, writing it in batches, and counting what was done (transfer/transfer.go). */
module Paging {
  import opened InfluxQL
  import opened RowFormat

  const RETRYCOUNT: nat := 10

  function Min(a: nat, b: nat): nat { if a <= b then a else b }

  function Flatten<T>(ss: seq<seq<T>>): seq<T> {
    if ss == [] then [] else Flatten(ss[..|ss| - 1]) + ss[|ss| - 1]
  }

  lemma FlattenSnoc<T>(ss: seq<seq<T>>, s: seq<T>)
    ensures Flatten(ss + [s]) == Flatten(ss) + s
  {
    assert (ss + [s])[..|ss|] == ss;
  }

  lemma {:induction false} FlattenConcat<T>(a: seq<seq<T>>, b: seq<seq<T>>)
    ensures Flatten(a + b) == Flatten(a) + Flatten(b)
  {
    if b == [] {
      assert a + b == a;
    } else {
      var c := b[..|b| - 1];
      assert (a + b)[..|a + b| - 1] == a + c;
      FlattenConcat(a, c);
    }
  }

  // ---------- tries ----------

  /** Whether the first n tries of the k-th action fail. */
  predicate AllFail(fails: (nat, nat) -> bool, k: nat, n: nat) { forall i: nat | i < n :: fails(k, i) }

  /** Whether the k-th action is given up. */
  predicate Lost(fails: (nat, nat) -> bool, k: nat): (lost: bool)
    ensures lost <==> forall i: nat | i < 11 :: fails(k, i)
  {
    AllFail(fails, k, RETRYCOUNT + 1)
  }

  /** An action repeated until it succeeds, up to one time and RETRYCOUNT more. */
  method Retry(fails: (nat, nat) -> bool, k: nat) returns (ok: bool, tries: nat)
    ensures ok <==> !Lost(fails, k)
    ensures ok <==> exists i: nat :: i < 11 && !fails(k, i)
    ensures 1 <= tries <= 11 && AllFail(fails, k, tries - 1)
    ensures ok ==> !fails(k, tries - 1)
  {
    tries := 0;
    while tries <= RETRYCOUNT
      invariant tries <= RETRYCOUNT + 1 && AllFail(fails, k, tries)
    {
      tries := tries + 1;
      if !fails(k, tries - 1) {
        return true, tries;
      }
    }
    ok := false;
  }

  // ---------- pages ----------

  datatype PageResult<T> = Rows(rows: seq<T>) | QueryFailed

  /** What a source answers to "limit n offset o": these rows of all that match, which is none behind the end. */
  function PageAt<T>(rows: seq<T>, limit: nat, offset: nat): seq<T> {
    rows[Min(offset, |rows|)..Min(offset + limit, |rows|)]
  }

  /** How many pages it takes: the number of rows over the limit, rounded up. */
  function PagesOf(n: nat, limit: nat): nat
    requires limit >= 1
  {
    (n + limit - 1) / limit
  }

  lemma Monotone(a: nat, b: nat, d: nat)
    requires a <= b
    ensures a * d <= b * d
  {
    assert b * d == a * d + (b - a) * d;
  }

  function Times(a: nat, b: nat): nat { a * b }

  lemma NoTimes(b: nat)
    ensures Times(0, b) == 0
  {
  }

  lemma OneMore(a: nat, d: nat)
    ensures (a + 1) * d == a * d + d && Times(a + 1, d) == Times(a, d) + d
  {
  }

  lemma Quotient(m: nat, k: nat, d: nat)
    requires d >= 1 && k * d <= m < k * d + d
    ensures m / d == k
  {
    var q := m / d;
    DivMod(m, d);
    if q < k {
      Monotone(q + 1, k, d);
      OneMore(q, d);
    } else if q > k {
      Monotone(k + 1, q, d);
      OneMore(k, d);
    }
  }

  lemma DivMod(m: nat, d: nat)
    requires d >= 1
    ensures m == (m / d) * d + m % d && m % d < d
  {
  }

  lemma PageCount(n: nat, limit: nat, k: nat)
    requires limit >= 1 && Times(k, limit) >= n && (k == 0 || Times(k - 1, limit) < n)
    ensures k == PagesOf(n, limit)
  {
    if k > 0 {
      OneMore(k - 1, limit);
    }
    Quotient(n + limit - 1, k, limit);
  }

  /**
   * query on a source that does not change meanwhile. With no query failing for good, its pages are all rows, each once
   * and in order, and it asks once more than there are pages; otherwise the pages are the rows up to where it failed,
   * and a failure comes last.
   */
  method Query<T>(rows: seq<T>, limit: nat, fails: (nat, nat) -> bool)
    returns (pages: seq<seq<T>>, failed: bool, queries: nat)
    requires limit >= 1
    ensures forall i | 0 <= i < |pages| :: 1 <= |pages[i]| <= limit
    ensures Flatten(pages) <= rows
    ensures failed <==> exists k: nat | k <= PagesOf(|rows|, limit) :: Lost(fails, k)
    ensures queries == |pages| + 1
    ensures !failed ==> Flatten(pages) == rows && |pages| == PagesOf(|rows|, limit)
    ensures failed ==> Lost(fails, |pages|)
  {
    hide Flatten, PagesOf, Lost, PageAt, Times, UpTo;
    FlattenNothing<T>();
    NoTimes(limit);
    UpToEnds(rows, 0);
    pages, failed, queries := [], false, 0;
    var offset: nat := 0;
    while true
      invariant |pages| == queries && offset == Times(queries, limit)
      invariant queries == 0 || Times(queries - 1, limit) < |rows|
      invariant forall i | 0 <= i < |pages| :: 1 <= |pages[i]| <= limit
      invariant Flatten(pages) == UpTo(rows, offset)
      invariant forall k: nat | k < queries :: !Lost(fails, k)
      decreases |rows| - offset
    {
      PageRange(|rows|, limit, queries);
      UpToEnds(rows, offset);
      UpToStep(rows, limit, offset);
      var q := queries;
      var ok, _ := Retry(fails, q);
      queries := queries + 1;
      if !ok {
        failed := true;
        return;
      }
      var page := PageAt(rows, limit, offset);
      if |page| == 0 {
        PageCount(|rows|, limit, q);
        return;
      }
      FlattenSnoc(pages, page);
      pages := pages + [page];
      OneMore(q, limit);
      offset := offset + limit;
    }
  }

  /** The rows in front of an offset. */
  function UpTo<T>(rows: seq<T>, offset: nat): seq<T> { rows[..Min(offset, |rows|)] }

  lemma UpToEnds<T>(rows: seq<T>, offset: nat)
    ensures UpTo(rows, offset) <= rows && UpTo(rows, 0) == []
    ensures offset >= |rows| ==> UpTo(rows, offset) == rows
  {
  }

  lemma UpToStep<T>(rows: seq<T>, limit: nat, offset: nat)
    requires limit >= 1
    ensures UpTo(rows, offset) + PageAt(rows, limit, offset) == UpTo(rows, offset + limit)
    ensures |PageAt(rows, limit, offset)| <= limit && (PageAt(rows, limit, offset) == [] <==> offset >= |rows|)
  {
  }

  lemma PageRange(n: nat, limit: nat, q: nat)
    requires limit >= 1 && (q == 0 || Times(q - 1, limit) < n)
    ensures q <= PagesOf(n, limit)
  {
    var k := PagesOf(n, limit);
    DivMod(n + limit - 1, limit);
    if k < q {
      Monotone(k, q - 1, limit);
    }
  }

  // ---------- batches ----------

  /** One row as it is read: the columns behind the time, and the time. */
  datatype Line = Line(cols: seq<Column>, time: string)

  function Rendered(meas: string, rows: seq<Line>, tags: set<string>, kinds: map<string, string>): seq<string> {
    seq(|rows|, i requires 0 <= i < |rows| => Row(meas, rows[i].cols, rows[i].time, tags, kinds))
  }

  /** The rows up to the first failed query. */
  function Received(pages: seq<PageResult<Line>>): seq<Line> {
    if pages == [] || pages[0].QueryFailed? then [] else pages[0].rows + Received(pages[1..])
  }

  predicate Broken(pages: seq<PageResult<Line>>) { exists i | 0 <= i < |pages| :: pages[i].QueryFailed? }

  predicate Sized(batches: seq<seq<string>>, batch: nat) {
    forall i | 0 <= i < |batches| :: 1 <= |batches[i]| <= batch
  }

  /** Whether a try of a batch's write to a destination fails: given the destination, the batch and the try. */
  type Tries = nat -> (nat, nat) -> bool

  /** Which of the writes of these batches, each to every destination, are given up. */
  function LostWrites(from: nat, to: nat, dests: nat, fails: Tries): set<(nat, nat)> {
    set b: nat, d: nat | from <= b < to && d < dests && Lost(fails(d), b) :: (b, d)
  }

  lemma LostSplit(a: nat, b: nat, c: nat, dests: nat, fails: Tries)
    requires a <= b <= c
    ensures LostWrites(a, c, dests, fails) == LostWrites(a, b, dests, fails) + LostWrites(b, c, dests, fails)
    ensures LostWrites(a, a, dests, fails) == {}
  {
    hide Lost;
  }

  /** One batch to all destinations. A write that is given up is only logged. */
  method WriteBatch(b: nat, dests: nat, fails: Tries) returns (lost: set<(nat, nat)>)
    ensures lost == LostWrites(b, b + 1, dests, fails)
  {
    hide Lost;
    lost := {};
    for d := 0 to dests
      invariant lost == LostWrites(b, b + 1, d, fails)
    {
      var ok, _ := Retry(fails(d), b);
      if !ok {
        lost := lost + {(b, d)};
      }
    }
  }

  /** The batches of one page, as few as will do, sent behind those that were sent before. */
  method WritePage(meas: string, rows: seq<Line>, tags: set<string>, kinds: map<string, string>, batch: nat,
                   first: nat, dests: nat, fails: Tries)
    returns (batches: seq<seq<string>>, lost: set<(nat, nat)>)
    requires batch >= 1
    ensures Flatten(batches) == Rendered(meas, rows, tags, kinds)
    ensures Sized(batches, batch) && |batches| == PagesOf(|rows|, batch)
    ensures lost == LostWrites(first, first + |batches|, dests, fails)
  {
    hide Row, Flatten, PagesOf, LostWrites;
    LostSplit(first, first, first, dests, fails);
    lost := {};
    ghost var all := Rendered(meas, rows, tags, kinds);
    batches := [];
    var buf: seq<string> := [];
    var idx: nat := 0;
    FlattenNothing<string>();
    PagesOfNone(batch);
    while idx < |rows|
      invariant idx <= |rows| && Sized(batches, batch)
      invariant Flatten(batches) + buf == all[..idx]
      invariant idx < |rows| ==> idx == |batches| * batch + |buf| && |buf| < batch
      invariant idx == |rows| ==> buf == [] && |batches| == PagesOf(idx, batch)
      invariant lost == LostWrites(first, first + |batches|, dests, fails)
    {
      var line := RenderRow(meas, rows[idx].cols, rows[idx].time, tags, kinds);
      buf := buf + [line];
      assert all[..idx + 1] == all[..idx] + [line];
      LastOfBatch(idx + 1, |batches|, |buf|, batch);
      if (idx + 1) % batch == 0 || idx + 1 == |rows| {
        FlattenSnoc(batches, buf);
        var n := first + |batches|;
        var more := WriteBatch(n, dests, fails);
        LostSplit(first, n, n + 1, dests, fails);
        lost := lost + more;
        batches := batches + [buf];
        buf := [];
      }
      idx := idx + 1;
    }
    assert all[..|rows|] == all;
  }

  lemma PagesOfNone(limit: nat)
    requires limit >= 1
    ensures PagesOf(0, limit) == 0
  {
    Quotient(limit - 1, 0, limit);
  }

  lemma FlattenNothing<T>()
    ensures Flatten<T>([]) == []
  {
  }

  /** With r rows behind q full batches: whether they are another full one, and how many batches it makes. */
  lemma LastOfBatch(n: nat, q: nat, r: nat, batch: nat)
    requires n == q * batch + r && 1 <= r <= batch
    ensures n % batch == 0 <==> r == batch
    ensures r == batch ==> n == (q + 1) * batch
    ensures q + 1 == PagesOf(n, batch)
  {
    OneMore(q, batch);
    PageCount(n, batch, q + 1);
    if r == batch {
      Remainder(n, q + 1, 0, batch);
    } else {
      Remainder(n, q, r, batch);
    }
  }

  lemma Remainder(m: nat, q: nat, r: nat, d: nat)
    requires d >= 1 && m == q * d + r && r < d
    ensures m % d == r
  {
    Quotient(m, q, d);
    DivMod(m, d);
  }

  /**
   * write: the batches it sends, each to every destination, the writes that were given up, and whether it ended in an
   * error: exactly when a query failed, whatever was lost.
   */
  method WriteAll(meas: string, pages: seq<PageResult<Line>>, tags: set<string>, kinds: map<string, string>, batch: nat,
                  dests: nat, fails: Tries)
    returns (batches: seq<seq<string>>, lost: set<(nat, nat)>, err: bool)
    requires batch >= 1
    ensures err <==> Broken(pages)
    ensures Flatten(batches) == Rendered(meas, Received(pages), tags, kinds)
    ensures Sized(batches, batch)
    ensures lost == LostWrites(0, |batches|, dests, fails)
  {
    hide Row, Flatten, Rendered, Received, LostWrites;
    LostSplit(0, 0, 0, dests, fails);
    batches, lost := [], {};
    assert pages[0..] == pages;
    FlattenNothing<string>();
    for p := 0 to |pages|
      invariant forall i | 0 <= i < p :: pages[i].Rows?
      invariant Flatten(batches) + Rendered(meas, Received(pages[p..]), tags, kinds)
        == Rendered(meas, Received(pages), tags, kinds)
      invariant Sized(batches, batch)
      invariant lost == LostWrites(0, |batches|, dests, fails)
    {
      ReceivedStep(meas, pages[p..], tags, kinds);
      if pages[p].QueryFailed? {
        return batches, lost, true;
      }
      var more, gone := WritePage(meas, pages[p].rows, tags, kinds, batch, |batches|, dests, fails);
      FlattenConcat(batches, more);
      LostSplit(0, |batches|, |batches| + |more|, dests, fails);
      assert pages[p..][1..] == pages[p + 1..];
      batches, lost := batches + more, lost + gone;
    }
    ReceivedStep(meas, pages[|pages|..], tags, kinds);
    err := false;
  }

  lemma ReceivedStep(meas: string, pages: seq<PageResult<Line>>, tags: set<string>, kinds: map<string, string>)
    ensures pages == [] || pages[0].QueryFailed? ==> Rendered(meas, Received(pages), tags, kinds) == []
    ensures pages != [] && pages[0].Rows? ==>
      Rendered(meas, Received(pages), tags, kinds)
      == Rendered(meas, pages[0].rows, tags, kinds) + Rendered(meas, Received(pages[1..]), tags, kinds)
  {
    if pages != [] && pages[0].Rows? {
      RenderedConcat(meas, pages[0].rows, Received(pages[1..]), tags, kinds);
    }
  }

  lemma RenderedConcat(meas: string, a: seq<Line>, b: seq<Line>, tags: set<string>, kinds: map<string, string>)
    ensures Rendered(meas, a + b, tags, kinds) == Rendered(meas, a, tags, kinds) + Rendered(meas, b, tags, kinds)
  {
  }

  /**
   * What a page of rows sends is what the next scanner of lines sees, one line for each row, exactly when every row
   * leaves that scanner outside strings at its end.
   */
  lemma BatchIsItsRows(meas: string, rows: seq<Line>, tags: set<string>, kinds: map<string, string>)
    requires forall i | 0 <= i < |rows| :: Bare(rows[i].time) && rows[i].time != ""
    ensures
      var rendered := Rendered(meas, rows, tags, kinds);
      Lines.Blocks(Concat(rendered)) == Cut(rendered)
      <==> forall i | 0 <= i < |rendered| :: Sealed(Shorn(rendered[i]))
  {
    var rendered := Rendered(meas, rows, tags, kinds);
    hide Ends, Row, Sealed, Shorn;
    forall i | 0 <= i < |rendered| ensures Ends(rendered[i]) {
      RowEnds(meas, rows[i].cols, rows[i].time, tags, kinds);
    }
    BatchExact(rendered);
  }
}
