/** The bucket of a Flux query (ParseQueryBucket of backend/flux.go) and of a write (bucket2dbrp of service/http.go). */
module Bucket {
  import opened Prelude
  import opened InfluxQL
  import opened Flux

  function Trim(s: string, cs: string): string { TrimRight(TrimLeft(s, cs), cs) }

  datatype BucketError = GetBucket | IllegalFluxQuery

  const PARENS := " ()"
  const QUOTES := " \"'"

  /** One argument of from: the bucket, if it is that. */
  function ParseItem(item: string): Option<string> {
    var entries := Split(TrimSpace(item), ":");
    if |entries| == 2 && entries[0] == "bucket" then Some(Trim(entries[1], QUOTES)) else None
  }

  function ParseItems(items: seq<string>): Result<string, BucketError> {
    if items == [] then Err(GetBucket)
    else
      match ParseItem(items[0])
      case Some(bucket) => Ok(bucket)
      case None => ParseItems(items[1..])
  }

  function ParseArguments(str: string): Result<string, BucketError> {
    match Index(str, ")")
    case None => Err(IllegalFluxQuery)
    case Some(j) => ParseItems(Split(Trim(str[..j + 1], PARENS), ","))
  }

  function ParseQueryBucket(query: string): Result<string, BucketError> {
    match Index(query, "from")
    case None => Err(GetBucket)
    case Some(i) => if i + 4 >= |query| then Err(GetBucket) else ParseArguments(query[i + 4..])
  }

  /** The loop over the arguments. */
  method ParseItemsLoop(items: seq<string>) returns (r: Result<string, BucketError>)
    ensures r == ParseItems(items)
  {
    assert items[0..] == items;
    for i := 0 to |items|
      invariant ParseItems(items) == ParseItems(items[i..])
    {
      assert items[i..][1..] == items[i + 1..];
      var entries := Split(TrimSpace(items[i]), ":");
      if |entries| == 2 && entries[0] == "bucket" {
        return Ok(Trim(entries[1], QUOTES));
      }
    }
    r := Err(GetBucket);
  }

  // ---------- what a bucket that is found looks like ----------

  predicate Without(s: string, cs: string) { forall i | 0 <= i < |s| :: s[i] !in cs }

  /** Neither a separator of the call nor, at an end, a space or a quote. */
  predicate PlainBucket(b: string) {
    Without(b, "),:") && (b != "" ==> b[0] !in QUOTES && b[|b| - 1] !in QUOTES)
  }

  lemma {:induction false} TrimLeftWithout(s: string, cs: string, ds: string)
    requires Without(s, ds)
    ensures Without(TrimLeft(s, cs), ds)
  {
    if s != "" && s[0] in cs {
      TrimLeftWithout(s[1..], cs, ds);
    }
  }

  lemma TrimWithout(s: string, cs: string, ds: string)
    requires Without(s, ds)
    ensures Without(Trim(s, cs), ds)
  {
    TrimLeftWithout(s, cs, ds);
  }

  lemma IndexOne(s: string, c: char)
    ensures Index(s, [c]).Some? ==> s[Index(s, [c]).value] == c && Without(s[..Index(s, [c]).value], [c])
    ensures Index(s, [c]).None? ==> Without(s, [c])
  {
    var n := match Index(s, [c]) case Some(i) => i case None => |s|;
    forall i | 0 <= i < n ensures s[i] != c {
      assert !At(s, [c], i);
      assert s[i..i + 1] == [s[i]];
    }
    if n < |s| {
      assert s[n..n + 1] == [s[n]];
    }
  }

  /** The parts have no separator, and nothing that the text does not have. */
  lemma {:induction false} SplitWithout(s: string, c: char, ds: string)
    requires Without(s, ds)
    ensures forall k | 0 <= k < |Split(s, [c])| :: Without(Split(s, [c])[k], [c] + ds)
    decreases |s|
  {
    hide Index;
    IndexOne(s, c);
    match Index(s, [c]) {
      case None =>
      case Some(i) => SplitWithout(s[i + 1..], c, ds);
    }
  }

  lemma {:induction false} TrimLeftEnd(s: string, c: char, cs: string)
    requires c in cs
    ensures TrimRight(TrimLeft(s + [c], cs), cs) == TrimRight(TrimLeft(s, cs), cs)
  {
    if s == "" {
      assert (s + [c])[1..] == "";
    } else if s[0] in cs {
      assert (s + [c])[1..] == s[1..] + [c];
      TrimLeftEnd(s[1..], c, cs);
    } else {
      assert (s + [c])[..|s|] == s;
    }
  }

  lemma ItemPlain(item: string)
    requires Without(item, "),")
    ensures ParseItem(item).Some? ==> PlainBucket(ParseItem(item).value)
  {
    hide Split, TrimLeft, TrimRight;
    TrimWithout(item, WHITESPACE, "),");
    SplitWithout(TrimSpace(item), ':', "),");
    var entries := Split(TrimSpace(item), ":");
    if |entries| == 2 {
      assert Without(entries[1], "),:") by {
        assert forall i | 0 <= i < |entries[1]| :: entries[1][i] !in [':'] + "),";
      }
      TrimWithout(entries[1], QUOTES, "),:");
      TrimEnds(entries[1], QUOTES);
    }
  }

  lemma TrimEnds(s: string, cs: string)
    ensures var t := Trim(s, cs); t != "" ==> t[0] !in cs && t[|t| - 1] !in cs
  {
  }

  lemma {:induction false} ItemsPlain(items: seq<string>)
    requires forall k | 0 <= k < |items| :: Without(items[k], "),")
    ensures ParseItems(items).Ok? ==> PlainBucket(ParseItems(items).value)
  {
    hide ParseItem, PlainBucket, Without;
    if items != [] {
      ItemPlain(items[0]);
      ItemsPlain(items[1..]);
    }
  }

  /** Whatever the query, the bucket found is plain. */
  lemma FoundPlain(query: string)
    ensures ParseQueryBucket(query).Ok? ==> PlainBucket(ParseQueryBucket(query).value)
  {
    hide Index, Split, ParseItems, PlainBucket, TrimLeft, TrimRight;
    var i := Index(query, "from");
    if i.Some? && i.value + 4 < |query| {
      var str := query[i.value + 4..];
      IndexOne(str, ')');
      var j := Index(str, ")");
      if j.Some? {
        assert str[..j.value + 1] == str[..j.value] + [')'];
        TrimLeftEnd(str[..j.value], ')', PARENS);
        var t := Trim(str[..j.value + 1], PARENS);
        TrimWithout(str[..j.value], PARENS, ")");
        SplitWithout(t, ',', ")");
        var items := Split(t, ",");
        forall k | 0 <= k < |items| ensures Without(items[k], "),") {
          assert forall i | 0 <= i < |items[k]| :: items[k][i] !in [','] + ")";
        }
        ItemsPlain(items);
      }
    }
  }

  // ---------- a query from a bucket ----------

  /** The call: its arguments begin with the bucket, and more of them may follow. */
  function FromBucket(pre: string, gap: string, gap2: string, b: string, more: string, post: string): string {
    pre + "from" + (Opened(gap, gap2, b) + more + ")" + post)
  }

  function Argument(gap2: string, b: string): string { "bucket:" + gap2 + "\"" + b + "\"" }

  function Opened(gap: string, gap2: string, b: string): string { "(" + gap + Argument(gap2, b) }

  predicate Arguments(gap: string, gap2: string, more: string) {
    Gaps(gap, gap2) && ')' !in more && (more != "" ==> more[0] == ',')
  }

  lemma {:induction false} TrimLeftSome(gap: string, x: string, cs: string) returns (rest: string)
    requires x != "" && x[0] !in cs
    ensures TrimLeft(gap + x, cs) == rest + x
    ensures forall i | 0 <= i < |rest| :: rest[i] in gap
  {
    if gap != "" && gap[0] in cs {
      assert (gap + x)[1..] == gap[1..] + x;
      rest := TrimLeftSome(gap[1..], x, cs);
    } else {
      rest := gap;
      assert gap == "" ==> gap + x == x;
    }
  }

  lemma TrimRightMore(more: string)
    requires more != "" ==> more[0] == ','
    ensures var t := TrimRight(more + ")", PARENS); t != "" ==> t[0] == ','
  {
    if more == "" {
      assert (more + ")")[..0] == "";
    }
  }

  lemma ArgumentWithout(gap: string, gap2: string, b: string, c: char)
    requires Gaps(gap, gap2) && c !in b && (c == ')' || c == ',')
    ensures c !in Opened(gap, gap2, b) && c !in Argument(gap2, b)
  {
  }

  /** The argument is taken apart into the word and the bucket. */
  lemma ItemIs(gap: string, gap2: string, b: string)
    requires Gaps(gap, gap2) && PlainBucket(b)
    ensures ParseItem(gap + Argument(gap2, b)) == Some(b)
  {
    hide TrimLeft, TrimRight, Split;
    var item, v := Argument(gap2, b), gap2 + "\"" + b + "\"";
    assert item == "bucket:" + v;
    TrimLeftGap(gap, item, WHITESPACE);
    Trimmed(item);
    assert item == "bucket" + ":" + v;
    FreeWithout("bucket", ":");
    SplitOnce("bucket", ":", v);
    FreeWithout(v, ":");
    SplitFree(v, ":");
    BucketIs(gap2, b);
  }

  lemma Trimmed(item: string)
    requires item != "" && item[|item| - 1] == '"'
    ensures TrimRight(item, WHITESPACE) == item
  {
  }

  lemma BucketIs(gap2: string, b: string)
    requires (forall i | 0 <= i < |gap2| :: gap2[i] == ' ') && PlainBucket(b)
    ensures Trim(gap2 + "\"" + b + "\"", QUOTES) == b
  {
    TrimAll(b + "\"", b);
    hide TrimRight, TrimLeft;
    var g := gap2 + "\"";
    assert gap2 + "\"" + b + "\"" == g + (b + "\"");
    TrimLeftOver(g, b + "\"", QUOTES);
  }

  lemma TrimAll(t: string, b: string)
    requires t == b + "\"" && (b != "" ==> b[0] !in QUOTES && b[|b| - 1] !in QUOTES)
    ensures Trim(t, QUOTES) == b
  {
    assert t[..|t| - 1] == b;
    if b == "" {
      assert t == "\"" && t[1..] == "";
    } else {
      assert t[0] == b[0];
      assert TrimRight(t, QUOTES) == TrimRight(b, QUOTES);
    }
  }

  lemma {:induction false} TrimLeftOver(gap: string, s: string, cs: string)
    requires forall i | 0 <= i < |gap| :: gap[i] in cs
    ensures TrimLeft(gap + s, cs) == TrimLeft(s, cs)
  {
    if gap == "" {
      assert gap + s == s;
    } else {
      assert (gap + s)[1..] == gap[1..] + s;
      TrimLeftOver(gap[1..], s, cs);
    }
  }

  lemma ArgumentEnds(gap2: string, b: string)
    ensures var a := Argument(gap2, b); |a| > 7 && a[0] == 'b' && a[|a| - 1] == '"'
  {
  }

  lemma TrimArguments(gap: string, item: string, more: string) returns (rest: string, t: string)
    requires item != "" && item[0] == 'b' && item[|item| - 1] == '"' && (more != "" ==> more[0] == ',')
    ensures Trim("(" + gap + item + more + ")", PARENS) == rest + item + t
    ensures (forall i | 0 <= i < |rest| :: rest[i] in gap) && (t != "" ==> t[0] == ',')
  {
    var s, m := "(" + gap + item + more + ")", more + ")";
    assert s[1..] == gap + (item + m);
    assert TrimLeft(s, PARENS) == TrimLeft(s[1..], PARENS);
    hide TrimLeft, TrimRight;
    rest := TrimLeftSome(gap, item + m, PARENS);
    t := TrimRight(m, PARENS);
    TrimRightMore(more);
    EndIs(rest, item);
    Subquery.TrimRightKeeps(rest + item, m, PARENS);
    Regroup(rest, item, m);
  }

  lemma EndIs(rest: string, item: string)
    requires item != ""
    ensures rest + item != "" && (rest + item)[|rest + item| - 1] == item[|item| - 1]
  {
  }

  /** What stands in front of the first comma is the first part. */
  lemma FirstPart(a: string, t: string)
    requires ',' !in a && (t != "" ==> t[0] == ',')
    ensures Split(a + t, ",") != [] && Split(a + t, ",")[0] == a
  {
    hide Split;
    FreeWithout(a, ",");
    if t == "" {
      assert a + t == a;
      SplitFree(a, ",");
    } else {
      assert a + t == a + "," + t[1..];
      SplitOnce(a, ",", t[1..]);
    }
  }

  lemma ArgumentsIs(gap: string, gap2: string, b: string, more: string)
    requires Arguments(gap, gap2, more) && PlainBucket(b)
    ensures ParseItems(Split(Trim(Opened(gap, gap2, b) + more + ")", PARENS), ",")) == Ok(b)
  {
    var item := Argument(gap2, b);
    ArgumentWithout(gap, gap2, b, ',');
    ArgumentEnds(gap2, b);
    hide Trim, Split, ParseItem, PlainBucket, Argument;
    var rest, t := TrimArguments(gap, item, more);
    assert ',' !in rest + item;
    FirstPart(rest + item, t);
    ItemIs(rest, gap2, b);
  }

  /** The bucket of a query is found exactly when it is plain. */
  lemma BucketExact(pre: string, gap: string, gap2: string, b: string, more: string, post: string)
    requires Free(pre, "from") && Arguments(gap, gap2, more)
    ensures ParseQueryBucket(FromBucket(pre, gap, gap2, b, more, post)) == Ok(b) <==> PlainBucket(b)
  {
    FoundPlain(FromBucket(pre, gap, gap2, b, more, post));
    if PlainBucket(b) {
      ArgumentWithout(gap, gap2, b, ')');
      ArgumentsIs(gap, gap2, b, more);
      hide Free, PlainBucket, ParseItems, Split, Trim, Opened, Index;
      var inner := Opened(gap, gap2, b) + more;
      var rest := inner + ")" + post;
      FirstAt(pre, "from", rest);
      FreeWithout(inner, ")");
      FirstAt(inner, ")", post);
      assert (pre + "from" + rest)[|pre| + 4..] == rest;
      assert rest[..|inner| + 1] == inner + ")";
    }
  }

  // ---------- the bucket of a write ----------

  datatype DbRp = DbRp(db: string, rp: string)

  datatype NameError = MissingSlash | EmptyDatabase

  function BucketToDbRp(bucket: string): Result<DbRp, NameError> {
    match Index(bucket, "/")
    case None => if bucket == "" then Err(MissingSlash) else Ok(DbRp(bucket, ""))
    case Some(i) =>
      var db, rp := bucket[..i], bucket[i + 1..];
      if db == "" then Err(EmptyDatabase) else Ok(DbRp(db, rp))
  }

  /** A bucket is taken for a database and a policy exactly when it is the one, or both with the first slash between. */
  lemma DbRpExact(bucket: string, db: string, rp: string)
    ensures
      BucketToDbRp(bucket) == Ok(DbRp(db, rp))
      <==> db != "" && '/' !in db && (bucket == db + "/" + rp || (bucket == db && rp == ""))
  {
    if '/' !in db {
      FreeWithout(db, "/");
      FirstAt(db, "/", rp);
    }
    hide Index;
    IndexOne(bucket, '/');
    var i := Index(bucket, "/");
    if i.Some? {
      assert bucket == bucket[..i.value] + "/" + bucket[i.value + 1..];
    }
  }
}
