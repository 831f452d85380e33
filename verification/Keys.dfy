/**
 * The keys under which a point is stored and looked for: the database comes from the bucket of a write, from the text
 * or the form of an InfluxQL query and from the bucket of a Flux query.
 */
module Keys {
  import opened Prelude
  import opened Escape
  import opened InfluxQL
  import opened Qualified
  import opened Nesting
  import opened Bucket
  import opened Routing
  import opened Lines
  import opened RowFormat
  import opened Storing
  import opened Lookups

  /** A key that the body of a write to a bucket has a point for (HandlerWriteV2 of service/http.go, proxy.go). */
  predicate KeyWritten(bucket: string, body: string, key: string, precision: string, multiplier: string -> int,
                       now: int, measureOnly: bool)
  {
    match BucketToDbRp(bucket)
    case Err(_) => false
    case Ok(d) =>
      var lines := LinesOf(Blocks(body));
      exists i | 0 <= i < |lines| ::
        var m := Accepted(lines[i], precision, multiplier, now);
        m.Some? && GetKey(d.db, m.value, measureOnly) == key
  }

  /** The key of a select, with the database in its form (Query of backend/proxy.go, QueryFromQL of executor.go). */
  function SelectKey(query: string, form: string, measureOnly: bool): Option<string> {
    var q := TrimSpace(query);
    var named := DatabaseFromInfluxQL(q);
    var db := if named.Answer? && named.text != "" then named.text else form;
    if named.Crashed? || db == "" then None
    else
      match MeasurementFromInfluxQL(q)
      case Answer(m) => Some(GetKey(db, m, measureOnly))
      case _ => None
  }

  /** The key of a Flux query (QueryFlux of backend/proxy.go and of backend/executor.go). */
  function FluxKey(query: string, measureOnly: bool): Option<string> {
    match ParseQueryBucket(query)
    case Err(_) => None
    case Ok(b) =>
      match Flux.ParseQueryMeasurement(query)
      case Found(m) => if b == "" || m == "" then None else Some(GetKey(b, m, measureOnly))
      case _ => None
  }

  // ---------- each key ----------

  /** Of one database, the keys are as different as the measurements. */
  lemma KeyOf(db: string, m: string, k: string, measureOnly: bool)
    ensures GetKey(db, k, measureOnly) == GetKey(db, m, measureOnly) <==> k == m
  {
    assert (db + "," + k)[|db| + 1..] == k && (db + "," + m)[|db| + 1..] == m;
  }

  lemma WrittenExact(bucket: string, db: string, rp: string, body: string, m: string, precision: string,
                     multiplier: string -> int, now: int, measureOnly: bool)
    requires BucketToDbRp(bucket) == Ok(DbRp(db, rp))
    ensures KeyWritten(bucket, body, GetKey(db, m, measureOnly), precision, multiplier, now, measureOnly)
      <==> StoredAs(body, m, precision, multiplier, now)
  {
    hide BucketToDbRp, Accepted, LinesOf, Blocks, GetKey;
    forall k: string
      ensures GetKey(db, k, measureOnly) == GetKey(db, m, measureOnly) <==> k == m
    {
      KeyOf(db, m, k, measureOnly);
    }
  }

  /** Whatever database a source names, or the form when it names none. */
  function Named(s: Source, form: string): string { if Db(s) == "" then form else Db(s) }

  lemma SelectTrimmed(n: nat, s: Source)
    ensures TrimSpace(Under(n, s)) == Under(n, s)
  {
    TextEnds(s);
    hide Text;
  }

  lemma SelectKeyIs(n: nat, s: Source, form: string, measureOnly: bool)
    requires Clear(s) && (n == 0 || Even(s)) && !IsSubquery(Db(s)) && !IsSubquery(Rp(s)) && Named(s, form) != ""
    ensures SelectKey(Under(n, s), form, measureOnly) == Some(GetKey(Named(s, form), s.m, measureOnly))
  {
    AllFound(n, s);
    SelectTrimmed(n, s);
    hide Under, TrimSpace, DatabaseFromInfluxQL, MeasurementFromInfluxQL, RetentionPolicyFromInfluxQL, GetKey;
  }

  /** A select that names no database, with none in its form, has no key. */
  lemma NoDatabase(n: nat, s: Source, measureOnly: bool)
    requires Clear(s) && (n == 0 || Even(s)) && !IsSubquery(Rp(s)) && Db(s) == ""
    ensures SelectKey(Under(n, s), "", measureOnly) == None
  {
    AllFound(n, s);
    SelectTrimmed(n, s);
    hide Under, TrimSpace, DatabaseFromInfluxQL, MeasurementFromInfluxQL, RetentionPolicyFromInfluxQL, GetKey;
  }

  /** A bucket with a slash is no database, so in a key it is never the database of that bucket. */
  lemma SlashInKey(bucket: string, db: string, rp: string, m: string, k: string, measureOnly: bool)
    requires BucketToDbRp(bucket) == Ok(DbRp(db, rp))
    ensures
      GetKey(bucket, k, measureOnly) == GetKey(db, m, measureOnly) <==> k == m && (measureOnly || '/' !in bucket)
  {
    DbRpExact(bucket, db, rp);
    KeyOf(db, m, k, measureOnly);
    hide BucketToDbRp;
    if bucket != db && !measureOnly {
      assert (bucket + "," + k)[|db|] == '/' && (db + "," + m)[|db|] == ',';
      assert bucket[|db|] == '/';
    }
  }

  lemma FluxKeyExact(query: string, b: string, db: string, rp: string, m: string, measureOnly: bool)
    requires ParseQueryBucket(query) == Ok(b) && BucketToDbRp(b) == Ok(DbRp(db, rp)) && m != ""
    ensures
      FluxKey(query, measureOnly) == Some(GetKey(db, m, measureOnly))
      <==> Flux.ParseQueryMeasurement(query) == Flux.Found(m) && (measureOnly || '/' !in b)
  {
    DbRpExact(b, db, rp);
    hide ParseQueryBucket, BucketToDbRp, Flux.ParseQueryMeasurement, GetKey;
    match Flux.ParseQueryMeasurement(query) {
      case Found(k) => SlashInKey(b, db, rp, m, k, measureOnly);
      case _ =>
    }
  }

  // ---------- all three ----------

  /** A Flux query around a filter on a measurement: the call of from, what is between, and what is around "==". */
  datatype FluxText = FluxText(pre: string, gap: string, gap2: string, bucket: string, more: string,
                               mid: string, left: string, right: string, post: string)

  function From(x: FluxText): string { FromBucket(x.pre, x.gap, x.gap2, x.bucket, x.more, x.mid) }

  function FluxQuery(x: FluxText, m: string): string { Flux.Filter(From(x), x.left, x.right, m, x.post) }

  /** It calls from first, with a plain bucket, and compares the column once. */
  ghost predicate Proper(x: FluxText) {
    && Flux.Free(x.pre, "from") && Arguments(x.gap, x.gap2, x.more) && PlainBucket(x.bucket)
    && Flux.Free(From(x), Flux.DOTTED) && Flux.Free(x.post, Flux.DOTTED) && Flux.Gaps(x.left, x.right)
  }

  lemma MoreBehind(a: string, b: string, call: string, mid: string, dotted: string, rest: string)
    ensures a + b + (call + ")" + mid) + dotted + rest == a + b + (call + ")" + (mid + (dotted + rest)))
  {
  }

  lemma FluxQueryBucket(x: FluxText, m: string)
    requires Proper(x)
    ensures ParseQueryBucket(FluxQuery(x, m)) == Ok(x.bucket)
  {
    hide ParseQueryBucket, PlainBucket, Flux.Free, Opened, Flux.Compared, Flux.Gaps, Arguments;
    var rest := Flux.Compared(x.left, x.right, m, x.post);
    BucketExact(x.pre, x.gap, x.gap2, x.bucket, x.more, x.mid + (Flux.DOTTED + rest));
    MoreBehind(x.pre, "from", Opened(x.gap, x.gap2, x.bucket) + x.more, x.mid, Flux.DOTTED, rest);
  }

  lemma FluxQueryExact(x: FluxText, m: string)
    requires Proper(x)
    ensures
      Flux.ParseQueryMeasurement(FluxQuery(x, m)) == Flux.Found(m) <==> Flux.Free(m, Flux.DOTTED) && Flux.Doubled(m)
  {
    hide Flux.Free, Flux.Filter, Flux.Doubled;
    Flux.FilterExact(From(x), x.left, x.right, m, x.post);
  }

  /** A Flux query that compares the column with an empty text has none. */
  lemma NoMeasurement(x: FluxText, measureOnly: bool)
    requires Proper(x)
    ensures FluxKey(FluxQuery(x, ""), measureOnly) == None
  {
    FluxQueryBucket(x, "");
    FluxQueryExact(x, "");
    assert Flux.Free("", Flux.DOTTED);
    Flux.PlainDoubled("");
    hide Proper, FluxQuery, ParseQueryBucket, Flux.ParseQueryMeasurement;
  }

  /** What a write stores, an InfluxQL select and a Flux query find for a measurement. */
  predicate AllFind(m: string, body: string, ql: string, flux: string, precision: string, multiplier: string -> int,
                    now: int)
  {
    && StoredAs(body, m, precision, multiplier, now)
    && MeasurementFromInfluxQL(ql) == Answer(m)
    && Flux.ParseQueryMeasurement(flux) == Flux.Found(m)
  }

  /** The column's name, backslashes, newlines and the sign of a comment are what a measurement must do without. */
  ghost predicate Agreeable(m: string) { Clean(m) && !("#" <= m) && Flux.Free(m, Flux.DOTTED) }

  lemma AgreeableIs(m: string)
    requires m != ""
    ensures Agreeable(m) <==> Clean(m) && m[0] != '#' && Flux.Free(m, Flux.DOTTED)
    ensures Clean(m) ==> BACKSLASH !in m
  {
  }

  /**
   * A point, an InfluxQL select and a Flux filter written for the same measurement are all found to be about it exactly
   * when it has neither a backslash nor a newline nor the name of the column that the filter compares, and does not
   * begin like a comment.
   */
  lemma LanguagesAgree(m: string, r: Rest, precision: string, multiplier: string -> int, now: int,
                       pre: string, gap: string, gap2: string, post: string)
    requires Leads(m) && Whole(r) && ('\n' in r.tags + r.fields ==> Clean(m))
    requires Flux.Free(pre, Flux.DOTTED) && Flux.Free(post, Flux.DOTTED) && Flux.Gaps(gap, gap2)
    ensures
      AllFind(m, PointText(m, r), Subquery.SELECT + Subquery.Ident(m), Flux.Filter(pre, gap, gap2, m, post),
              precision, multiplier, now)
      <==> Agreeable(m)
  {
    StoredExact(m, r, precision, multiplier, now);
    Flux.FilterExact(pre, gap, gap2, m, post);
    Backslash.IdentExact(m);
    AgreeableIs(m);
    hide StoredAs, PointText, Whole, MeasurementFromInfluxQL, Flux.ParseQueryMeasurement, Flux.Free, Clean, Agreeable;
    if BACKSLASH !in m {
      Flux.PlainDoubled(m);
    }
  }

  /**
   * A point written to a bucket, an InfluxQL select under any subqueries that names the database or has it in its form,
   * and a Flux query of a bucket of the same database: all have the key of that database and measurement exactly when
   * the measurement has neither a backslash nor a newline nor the name of the column that the filter compares, does not
   * begin like a comment, and the database is no part of keys or the bucket of the Flux query has no slash.
   */
  lemma KeysAgree(s: Source, n: nat, form: string, r: Rest, precision: string, multiplier: string -> int, now: int,
                  bucket: string, rp: string, x: FluxText, rp2: string, measureOnly: bool)
    requires Leads(s.m) && Whole(r) && ('\n' in r.tags + r.fields ==> Clean(s.m))
    requires BACKSLASH !in Db(s) && BACKSLASH !in Rp(s)
    requires (n == 0 || Even(s)) && !IsSubquery(Db(s)) && !IsSubquery(Rp(s)) && Proper(x)
    requires BucketToDbRp(bucket) == Ok(DbRp(Named(s, form), rp))
    requires BucketToDbRp(x.bucket) == Ok(DbRp(Named(s, form), rp2))
    ensures
      var key := if measureOnly then s.m else Named(s, form) + "," + s.m;
      && KeyWritten(bucket, PointText(s.m, r), key, precision, multiplier, now, measureOnly)
      && SelectKey(Under(n, s), form, measureOnly) == Some(key)
      && FluxKey(FluxQuery(x, s.m), measureOnly) == Some(key)
      <==> Agreeable(s.m) && (measureOnly || '/' !in x.bucket)
  {
    var m, db := s.m, Named(s, form);
    KeyText(db, m, measureOnly);
    hide *;
    LeadsIs(m);
    StoredExact(m, r, precision, multiplier, now);
    WrittenExact(bucket, db, rp, PointText(m, r), m, precision, multiplier, now, measureOnly);
    AgreeableIs(m);
    FluxQueryBucket(x, m);
    FluxQueryExact(x, m);
    FluxKeyExact(FluxQuery(x, m), x.bucket, db, rp2, m, measureOnly);
    DbRpExact(x.bucket, db, rp2);
    if BACKSLASH !in m {
      ClearOf(s);
      Flux.PlainDoubled(m);
      SelectKeyIs(n, s, form, measureOnly);
    }
  }

  lemma KeyText(db: string, m: string, measureOnly: bool)
    ensures GetKey(db, m, measureOnly) == if measureOnly then m else db + "," + m
  {
  }

  lemma LeadsIs(m: string)
    requires Leads(m)
    ensures m != ""
  {
  }

  lemma ClearOf(s: Source)
    requires BACKSLASH !in s.m && BACKSLASH !in Db(s) && BACKSLASH !in Rp(s)
    ensures Clear(s)
  {
  }
}
