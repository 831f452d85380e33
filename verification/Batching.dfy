/**
 * How a backend's worker gathers lines into batches, one buffer for each database and retention policy
 * (WriteBuffer, FlushBuffer and Flush of backend/backend.go), and what becomes of a batch in its pool task.
 */
module Batching {
  import opened Prelude
  import opened Binary
  import opened Record
  import opened Backlog

  const NEWLINE: Byte := 10

  type Key = (Bytes, Bytes)

  datatype LinePoint = LinePoint(key: Key, line: Bytes)

  /** A nil Buffer is None. */
  datatype CacheBuffer = CacheBuffer(buffer: Option<Bytes>, counter: nat)

  datatype Batch = Batch(key: Key, lines: Bytes)

  function Terminated(line: Bytes): Bytes {
    if line != [] && line[|line| - 1] == NEWLINE then line else line + [NEWLINE]
  }

  /** What the points of one key amount to, each on lines of its own. */
  function LinesOf(points: seq<LinePoint>, key: Key): Bytes {
    if points == [] then []
    else
      var p := points[|points| - 1];
      LinesOf(points[..|points| - 1], key) + if p.key == key then Terminated(p.line) else []
  }

  /** The same for the key's last c points only. */
  function LastLines(points: seq<LinePoint>, key: Key, c: nat): Bytes {
    if points == [] || c == 0 then []
    else
      var p, before := points[|points| - 1], points[..|points| - 1];
      if p.key == key then LastLines(before, key, c - 1) + Terminated(p.line) else LastLines(before, key, c)
  }

  function BatchesOf(batches: seq<Batch>, key: Key): Bytes {
    if batches == [] then []
    else
      var b := batches[|batches| - 1];
      BatchesOf(batches[..|batches| - 1], key) + if b.key == key then b.lines else []
  }

  // ---------- the worker's desk ----------

  /** The buffers, the batches handed to the pool in order, and whether the flush timer is armed. */
  datatype Desk = Desk(buffers: map<Key, CacheBuffer>, submitted: seq<Batch>, timer: bool)

  function Live(d: Desk, key: Key): Bytes {
    if key in d.buffers && d.buffers[key].buffer.Some? then d.buffers[key].buffer.value else []
  }

  function Counter(d: Desk, key: Key): nat {
    if key in d.buffers then d.buffers[key].counter else 0
  }

  /** WriteBuffer up to the choice between flushing and arming the timer. */
  function Filled(d: Desk, p: LinePoint): Desk {
    d.(buffers := d.buffers[p.key := CacheBuffer(Some(Live(d, p.key) + Terminated(p.line)), Counter(d, p.key) + 1)])
  }

  function FlushedOne(d: Desk, key: Key): Desk
    requires key in d.buffers
  {
    if d.buffers[key].buffer.None? then d
    else
      var d1 := d.(buffers := d.buffers[key := CacheBuffer(None, 0)]);
      if Live(d, key) == [] then d1 else d1.(submitted := d.submitted + [Batch(key, Live(d, key))])
  }

  function Wrote(d: Desk, flushSize: int, p: LinePoint): Desk {
    var d1 := Filled(d, p);
    if Counter(d1, p.key) >= flushSize then FlushedOne(d1, p.key) else d1.(timer := true)
  }

  /** What holds of one key after the points written so far. */
  ghost predicate KeyInv(d: Desk, flushSize: int, written: seq<LinePoint>, key: Key) {
    // nothing lost, doubled or moved to another key: batches, then live buffer, are the lines written, in order
    && BatchesOf(d.submitted, key) + Live(d, key) == LinesOf(written, key)
    // the counter counts the lines points in the live buffer
    && Live(d, key) == LastLines(written, key, Counter(d, key))
    && (Counter(d, key) == 0 <==> Live(d, key) == [])
    && (Counter(d, key) == 0 || Counter(d, key) < flushSize)
    && (Counter(d, key) > 0 ==> d.timer)
  }

  ghost predicate Inv(d: Desk, flushSize: int, written: seq<LinePoint>) {
    forall key: Key :: KeyInv(d, flushSize, written, key)
  }

  /** A flush moves a key's live lines behind its batches and touches no other key. */
  lemma FlushedOneMoves(d: Desk, key: Key, k: Key)
    requires key in d.buffers
    ensures
      var t := FlushedOne(d, key);
      && BatchesOf(t.submitted, k) + Live(t, k) == BatchesOf(d.submitted, k) + Live(d, k)
      && (k != key ==> Live(t, k) == Live(d, k) && Counter(t, k) == Counter(d, k))
      && Live(t, key) == []
  {
    var t := FlushedOne(d, key);
    if Live(d, key) != [] {
      assert t.submitted[..|t.submitted| - 1] == d.submitted;
    }
  }

  lemma FilledAdds(d: Desk, flushSize: int, written: seq<LinePoint>, p: LinePoint, k: Key)
    requires KeyInv(d, flushSize, written, k)
    ensures
      var t := Filled(d, p);
      && BatchesOf(t.submitted, k) + Live(t, k) == LinesOf(written + [p], k)
      && Live(t, k) == LastLines(written + [p], k, Counter(t, k))
      && (k != p.key ==> Live(t, k) == Live(d, k) && Counter(t, k) == Counter(d, k))
      && Live(t, p.key) != []
  {
    assert (written + [p])[..|written + [p]| - 1] == written;
    var b, l, e := BatchesOf(d.submitted, k), Live(d, k), Terminated(p.line);
    assert b + (l + e) == (b + l) + e;
  }

  /** WriteBuffer keeps the invariant of every key. */
  lemma WroteKeeps(d: Desk, flushSize: int, written: seq<LinePoint>, p: LinePoint)
    requires Inv(d, flushSize, written)
    ensures Inv(Wrote(d, flushSize, p), flushSize, written + [p])
  {
    forall k: Key ensures KeyInv(Wrote(d, flushSize, p), flushSize, written + [p], k) {
      assert KeyInv(d, flushSize, written, k);
      FilledAdds(d, flushSize, written, p, k);
      FlushedOneMoves(Filled(d, p), p.key, k);
    }
  }

  lemma FlushedOneKeeps(d: Desk, flushSize: int, written: seq<LinePoint>, key: Key)
    requires Inv(d, flushSize, written) && key in d.buffers && d.buffers[key].counter > 0
    ensures Inv(FlushedOne(d, key), flushSize, written)
    ensures Counter(FlushedOne(d, key), key) == 0
    ensures |FlushedOne(d, key).submitted| == |d.submitted| + 1
  {
    assert KeyInv(d, flushSize, written, key);
    forall k: Key ensures KeyInv(FlushedOne(d, key), flushSize, written, k) {
      assert KeyInv(d, flushSize, written, k);
      FlushedOneMoves(d, key, k);
    }
  }

  /**
   * One point more: its line, ended by a newline unless it has one, is behind those of its key. They are a batch when
   * flushSize points have come, and otherwise wait with the timer armed. No other key is touched.
   */
  lemma WroteExact(d: Desk, flushSize: int, p: LinePoint, k: Key)
    requires p.line != []
    ensures
      var t := Wrote(d, flushSize, p);
      var more := Live(d, p.key) + p.line + if p.line[|p.line| - 1] == 10 then [] else [10];
      && (Counter(d, p.key) + 1 >= flushSize ==>
            && t.submitted == d.submitted + [Batch(p.key, more)] && t.timer == d.timer
            && Live(t, p.key) == [] && Counter(t, p.key) == 0)
      && (Counter(d, p.key) + 1 < flushSize ==>
            && t.submitted == d.submitted && t.timer
            && Live(t, p.key) == more && Counter(t, p.key) == Counter(d, p.key) + 1)
      && (k != p.key ==> Live(t, k) == Live(d, k) && Counter(t, k) == Counter(d, k))
  {
    var ending: Bytes := if p.line[|p.line| - 1] == 10 then [] else [10];
    assert Terminated(p.line) == p.line + ending;
    Regroup(Live(d, p.key), p.line, ending);
  }

  /** A flush makes one batch of what a key's buffer holds, if anything, and touches nothing else. */
  lemma FlushedOneExact(d: Desk, key: Key, k: Key)
    requires key in d.buffers
    ensures
      var t := FlushedOne(d, key);
      && t.submitted == d.submitted + (if Live(d, key) == [] then [] else [Batch(key, Live(d, key))])
      && t.timer == d.timer && Live(t, key) == []
      && (k != key ==> Live(t, k) == Live(d, k) && Counter(t, k) == Counter(d, k))
  {
  }

  /** The keys with something in their buffers. */
  function Waiting(d: Desk): set<Key> {
    set key | key in d.buffers && d.buffers[key].counter > 0
  }

  class Batcher {
    const flushSize: int
    var timer: bool
    var buffers: map<Key, CacheBuffer>
    var submitted: seq<Batch>

    function State(): Desk
      reads this
    {
      Desk(buffers, submitted, timer)
    }

    constructor (flushSize: int)
      ensures this.flushSize == flushSize && Inv(State(), flushSize, [])
    {
      this.flushSize := flushSize;
      timer, buffers, submitted := false, map[], [];
    }

    method WriteBuffer(point: LinePoint, ghost written: seq<LinePoint>)
      requires point.line != [] && Inv(State(), flushSize, written)
      modifies this
      ensures Inv(State(), flushSize, written + [point])
      ensures State() == Wrote(old(State()), flushSize, point)
    {
      var key, line := point.key, point.line;
      WroteKeeps(State(), flushSize, written, point);
      if key !in buffers {
        buffers := buffers[key := CacheBuffer(Some([]), 0)];
      }
      var cb := buffers[key];
      cb := cb.(counter := cb.counter + 1);
      if cb.buffer.None? {
        cb := cb.(buffer := Some([]));
      }
      cb := cb.(buffer := Some(cb.buffer.value + line));
      if line[|line| - 1] != NEWLINE {
        cb := cb.(buffer := Some(cb.buffer.value + [NEWLINE]));
      }
      assert cb.buffer.value == Live(old(State()), key) + Terminated(line);
      buffers := buffers[key := cb];
      assert State() == Filled(old(State()), point);
      if cb.counter >= flushSize {
        FlushBuffer(key);
      } else if !timer {
        timer := true;
      }
    }

    method FlushBuffer(key: Key)
      requires key in buffers
      modifies this`buffers, this`submitted
      ensures State() == FlushedOne(old(State()), key)
    {
      var cb := buffers[key];
      if cb.buffer.None? {
        return;
      }
      var p := cb.buffer.value;
      buffers := buffers[key := CacheBuffer(None, 0)];
      if p == [] {
        return;
      }
      submitted := submitted + [Batch(key, p)];
    }

    /** Flush, visiting the keys in any order: each non-empty buffer becomes one batch, and the timer is disarmed. */
    method Flush(ghost written: seq<LinePoint>)
      requires Inv(State(), flushSize, written)
      modifies this
      ensures Inv(State(), flushSize, written) && !timer
      ensures forall key: Key :: Live(State(), key) == [] && BatchesOf(submitted, key) == LinesOf(written, key)
      ensures |submitted| == |old(submitted)| + |Waiting(old(State()))|
    {
      timer := false;
      ghost var armed := old(timer);
      var todo := buffers.Keys;
      while todo != {}
        invariant todo <= buffers.Keys && !timer
        invariant Inv(State().(timer := armed), flushSize, written)
        invariant Waiting(State()) <= todo
        invariant |submitted| + |Waiting(State())| == |old(submitted)| + |Waiting(old(State()))|
        decreases |todo|
      {
        var key :| key in todo;
        todo := todo - {key};
        if buffers[key].counter > 0 {
          ghost var before := State();
          FlushedOneKeeps(before.(timer := armed), flushSize, written, key);
          FlushBuffer(key);
          assert Waiting(State()) == Waiting(before) - {key};
        }
      }
      ghost var last := State();
      assert Waiting(last) == {};
      forall key: Key
        ensures KeyInv(State(), flushSize, written, key)
        ensures Live(State(), key) == [] && BatchesOf(submitted, key) == LinesOf(written, key)
      {
        assert KeyInv(last.(timer := armed), flushSize, written, key);
        assert key in buffers ==> key !in Waiting(last);
      }
    }
  }

  // ---------- the pool task ----------

  /** A batch is delivered, refused for good, or put in the backlog. */
  datatype Fate = Delivered | Dropped | Logged

  /**
   * What the pool does with one batch: it is in the backlog, behind what was there and readable as the point it was,
   * exactly when the backend was not asked or the send failed; it is gone from here exactly when the backend has taken
   * it or refused it for good; and the fate returned says which.
   */
  method RunTask(
      fb: FileBackend, compress: Bytes -> Bytes, b: Batch, active: bool, send: Point -> Outcome,
      ghost finished: seq<Bytes>, ghost pending: seq<Bytes>)
    returns (fate: Fate)
    requires Holds(fb.State(), finished, pending)
    requires Good(Join(b.key.0, b.key.1, compress(b.lines)))
    modifies fb
    ensures
      var point := Point(b.key.0, b.key.1, compress(b.lines));
      var r := Join(point.db, point.rp, point.payload);
      && Parse(r) == Some(point)
      && (Holds(fb.State(), finished, pending + [r]) <==> !active || send(point).Failed?)
      && (fate.Logged? <==> !active || send(point).Failed?)
      && (fate.Delivered? <==> active && send(point).Accepted?)
      && (fate.Dropped? <==> active && (send(point).BadRequest? || send(point).NotFound?))
    ensures !fate.Logged? ==> fb.State() == old(fb.State())
  {
    var (db, rp) := b.key;
    var p := compress(b.lines);
    ghost var r0 := Join(db, rp, p);
    ParseJoin(db, rp, p);
    if Holds(fb.State(), finished, pending + [r0]) {
      HoldsOneQueue(fb.State(), finished, pending, finished, pending + [r0]);
      assert false;
    }
    if active {
      match send(Point(db, rp, p)) {
        case Accepted => return Delivered;
        case BadRequest => return Dropped;
        case NotFound => return Dropped;
        case Failed =>
      }
    }
    var r := Join(db, rp, p);
    WriteEnqueues(fb.State(), finished, pending, r);
    fb.WriteRecord(r);
    fate := Logged;
  }
}
