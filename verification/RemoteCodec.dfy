/**
 * The generated code of service/prometheus/remote/remote.pb.go as it runs: buffers filled in place from the end, and
 * loops over an index that read them. Each method is tied to the printing and reading functions of Wire and Remote.
 */
module RemoteCodec {
  import opened Prelude
  import opened Binary
  import opened Wire

  // ---------- filling a buffer from the end ----------

  /** The buffer was now the old one with bytes put in its section from start to end. */
  ghost predicate Filled(was: Bytes, now: Bytes, start: nat, end: nat, bytes: Bytes) {
    start + |bytes| == end <= |was| && now == was[..start] + bytes + was[end..]
  }

  /** Two sections filled one after the other, the later one in front, are one. */
  lemma FilledBefore(o: Bytes, a: Bytes, b: Bytes, s2: nat, s1: nat, end: nat, front: Bytes, back: Bytes)
    requires Filled(o, a, s1, end, back) && Filled(a, b, s2, s1, front)
    ensures Filled(o, b, s2, end, front + back)
  {
    assert a[..s2] == o[..s2];
    assert a[s1..] == back + o[end..];
    assert o[..s2] + front + (back + o[end..]) == o[..s2] + (front + back) + o[end..];
  }

  lemma EncStep(w: nat)
    requires w >= 128
    ensures EncVarint(w) == [w % 128 + 128] + EncVarint(w / 128)
  {
  }

  lemma EncLast(w: nat)
    requires w < 128
    ensures EncVarint(w) == [w]
  {
  }

  lemma WriteNext(o: Bytes, now: Bytes, base: nat, written: Bytes, i: nat, b: Byte)
    requires i == base + |written| < |o| && now == o[..base] + written + o[i..]
    ensures now[i := b] == o[..base] + (written + [b]) + o[i + 1..]
  {
  }

  /** encodeVarintRemote: v before offset, in exactly sovRemote(v) bytes. */
  method EncodeVarintRemote(dAtA: array<Byte>, offset: nat, v: Uint64) returns (base: nat)
    requires Sov(v) <= offset <= dAtA.Length
    modifies dAtA
    ensures base + Sov(v) == offset
    ensures Filled(old(dAtA[..]), dAtA[..], base, offset, EncVarint(v))
  {
    hide EncVarint, Sov;
    SovIsLength(v);
    ghost var o := dAtA[..];
    base := offset - Sov(v);
    var i, w: nat := base, v;
    ghost var written: Bytes := [];
    assert o == o[..base] + [] + o[base..] && [] + EncVarint(v) == EncVarint(v);
    while w >= 128
      invariant w < W64 && written + EncVarint(w) == EncVarint(v)
      invariant i == base + |written| && i + |EncVarint(w)| == offset
      invariant dAtA[..] == o[..base] + written + o[i..]
      decreases w
    {
      EncStep(w);
      var b: Byte := w % 128 + 128;
      assert i < offset;
      WriteNext(o, dAtA[..], base, written, i, b);
      ghost var before := dAtA[..];
      dAtA[i] := b;
      assert dAtA[..] == before[i := b];
      assert written + [b] + EncVarint(w / 128) == written + EncVarint(w);
      written := written + [b];
      w := w / 128;
      i := i + 1;
    }
    EncLast(w);
    var b: Byte := w;
    WriteNext(o, dAtA[..], base, written, i, b);
    ghost var before := dAtA[..];
    dAtA[i] := b;
    assert dAtA[..] == before[i := b];
  }

  /** The eight little-endian bytes of a fixed64 field before offset. */
  method PutFixed64(dAtA: array<Byte>, offset: nat, v: Uint64) returns (base: nat)
    requires 8 <= offset <= dAtA.Length
    modifies dAtA
    ensures Filled(old(dAtA[..]), dAtA[..], base, offset, PutUint64(v))
  {
    base := offset - 8;
    base := CopyBefore(dAtA, offset, PutUint64(v));
  }

  /** copy(dAtA[i:], b) after i -= len(b). */
  method CopyBefore(dAtA: array<Byte>, offset: nat, b: Bytes) returns (base: nat)
    requires |b| <= offset <= dAtA.Length
    modifies dAtA
    ensures Filled(old(dAtA[..]), dAtA[..], base, offset, b)
  {
    base := offset - |b|;
    forall k | 0 <= k < |b| {
      dAtA[base + k] := b[k];
    }
    assert dAtA[..] == old(dAtA[..])[..base] + b + old(dAtA[..])[offset..];
  }

  method PutByteBefore(dAtA: array<Byte>, offset: nat, b: Byte) returns (base: nat)
    requires 1 <= offset <= dAtA.Length
    modifies dAtA
    ensures Filled(old(dAtA[..]), dAtA[..], base, offset, [b])
  {
    base := offset - 1;
    dAtA[base] := b;
    assert dAtA[..] == old(dAtA[..])[..base] + [b] + old(dAtA[..])[offset..];
  }

  // ---------- reading ----------

  /** What a reading loop has gathered after k bytes, put together with what is still to come. */
  function Resume(acc: Uint64, k: nat, r: Result<(Uint64, nat), Error>): Result<(Uint64, nat), Error> {
    match r
    case Ok((v, n)) => Ok(((acc + v) % W64, n + k))
    case Err(e) => Err(e)
  }

  lemma AddThrice(a: Uint64, b: Uint64, c: Uint64)
    ensures (a + (b + c) % W64) % W64 == ((a + b) % W64 + c) % W64
  {
  }

  lemma VarintStep(s: Bytes, k: nat, acc: Uint64, n: nat)
    requires k < 10 && s != []
    ensures
      var b := s[0] % 128;
      var next: Uint64 := (acc + Shl(b, k)) % W64;
      Resume(acc, n, Varint(s, k))
      == if s[0] < 128 then Ok((next, n + 1)) else Resume(next, n + 1, Varint(s[1..], k + 1))
  {
    hide Shl;
    var rest := Varint(s[1..], k + 1);
    if s[0] >= 128 && rest.Ok? {
      AddThrice(acc, Shl(s[0] - 128, k), rest.value.0);
      assert s[0] % 128 == s[0] - 128;
    } else {
      assert s[0] < 128 ==> s[0] % 128 == s[0];
    }
  }

  /** The varint loop, at index start of the buffer: the value and the index behind it. */
  method ReadVarint(dAtA: Bytes, start: nat) returns (r: Result<(Uint64, nat), Error>)
    requires start <= |dAtA|
    ensures r == Resume(0, start, Varint(dAtA[start..], 0))
  {
    var v: Uint64, i, k: nat := 0, start, 0;
    while true
      invariant start + k == i <= |dAtA| && k <= 10
      invariant Resume(0, start, Varint(dAtA[start..], 0)) == Resume(v, i, Varint(dAtA[i..], k))
      decreases 10 - k
    {
      if 7 * k >= 64 {
        return Err(Overflow);
      }
      if i >= |dAtA| {
        return Err(Truncated);
      }
      hide Varint, Shl, Resume;
      var b := dAtA[i];
      VarintStep(dAtA[i..], k, v, i);
      assert dAtA[i..][1..] == dAtA[i + 1..];
      i := i + 1;
      v := (v + Shl(b % 128, k)) % W64;
      if b < 128 {
        return Ok((v, i));
      }
      k := k + 1;
    }
  }

  lemma ResumeZero(start: nat, r: Result<(Uint64, nat), Error>)
    ensures Resume(0, start, r) == match r case Ok((v, n)) => Ok((v, start + n)) case Err(e) => Err(e)
  {
  }

  /** What skipRemote does behind a tag. The index it comes to may lie behind the end of the buffer. */
  method SkipPayload(dAtA: Bytes, start: nat, wireType: nat, depth: nat) returns (r: Result<(nat, nat), Error>)
    requires start <= |dAtA|
    ensures
      match SkipBody(wireType, dAtA[start..], depth)
      case Ok((n, d)) => r == Ok((start + n, d))
      case Err(e) => r == Err(e) || (e == Truncated && r.Ok? && r.value.0 > |dAtA|)
  {
    hide Varint, Resume;
    match wireType {
      case 0 =>
        var w := ReadVarint(dAtA, start);
        ResumeZero(start, Varint(dAtA[start..], 0));
        r := if w.Err? then Err(w.error) else Ok((w.value.1, depth));
      case 1 => r := Ok((start + 8, depth));
      case 2 =>
        var w := ReadVarint(dAtA, start);
        ResumeZero(start, Varint(dAtA[start..], 0));
        if w.Err? {
          return Err(w.error);
        }
        if w.value.0 >= W63 {
          return Err(InvalidLength);
        }
        r := Ok((w.value.1 + w.value.0, depth));
      case 3 => r := Ok((start, depth + 1));
      case 4 => r := if depth == 0 then Err(UnexpectedEndGroup) else Ok((start, depth - 1));
      case 5 => r := Ok((start + 4, depth));
      case _ => r := Err(IllegalWireType);
    }
  }

  /**
   * skipRemote at index start. Like the original it may come to an index behind the end of the buffer, and leaves it to
   * the caller to notice.
   */
  method SkipRemote(dAtA: Bytes, start: nat) returns (r: Result<nat, Error>)
    requires start < |dAtA|
    ensures
      match Skip(dAtA[start..], 0)
      case Ok(n) => r == Ok(n)
      case Err(e) => r == Err(e) || (e == Truncated && r.Ok? && start + r.value > |dAtA|)
  {
    hide Varint, Resume, SkipBody, Skip;
    var i, depth: nat := start, 0;
    while i < |dAtA|
      invariant start <= i <= |dAtA|
      invariant i > start ==> depth > 0
      invariant Skip(dAtA[start..], 0) == Plus(i - start, Skip(dAtA[i..], depth))
      decreases |dAtA| - i
    {
      var tag := ReadVarint(dAtA, i);
      ResumeZero(i, Varint(dAtA[i..], 0));
      if tag.Err? {
        SkipNoTag(dAtA[i..], depth);
        return Err(tag.error);
      }
      var (wire, j) := tag.value;
      var after := SkipPayload(dAtA, j, wire % 8, depth);
      if SkipBody(wire % 8, dAtA[j..], depth).Err? {
        SkipFails(dAtA, start, i, j, depth, wire);
      } else {
        SkipTurn(dAtA, start, i, j, after.value.0, depth, after.value.1, wire);
      }
      if after.Err? {
        return Err(after.error);
      }
      if after.value.0 > |dAtA| {
        if after.value.1 == 0 {
          return Ok(after.value.0 - start);
        }
        return Err(Truncated);
      }
      i := after.value.0;
      depth := after.value.1;
      if depth == 0 {
        return Ok(i - start);
      }
    }
    assert dAtA[i..] == [];
    SkipEmpty(depth);
    r := Err(Truncated);
  }

  lemma SkipEmpty(depth: nat)
    ensures Skip([], depth) == Err(Truncated)
  {
  }

  lemma SkipNoTag(s: Bytes, depth: nat)
    requires Varint(s, 0).Err?
    ensures Skip(s, depth) == Err(Varint(s, 0).error)
  {
  }

  /** One turn of skipRemote: the tag at i ends at j, and what follows it at k. */
  lemma SkipTurn(dAtA: Bytes, start: nat, i: nat, j: nat, k: nat, depth: nat, d: nat, tag: Uint64)
    requires start <= i < j <= k <= |dAtA|
    requires Varint(dAtA[i..], 0) == Ok((tag, j - i))
    requires SkipBody(tag % 8, dAtA[j..], depth) == Ok((k - j, d))
    requires Skip(dAtA[start..], 0) == Plus(i - start, Skip(dAtA[i..], depth))
    ensures Skip(dAtA[start..], 0) == if d == 0 then Ok(k - start) else Plus(k - start, Skip(dAtA[k..], d))
  {
    hide Varint, SkipBody;
    assert dAtA[i..][j - i..] == dAtA[j..];
    assert dAtA[i..][k - i..] == dAtA[k..];
  }

  lemma SkipFails(dAtA: Bytes, start: nat, i: nat, j: nat, depth: nat, tag: Uint64)
    requires start <= i < j <= |dAtA|
    requires Varint(dAtA[i..], 0) == Ok((tag, j - i))
    requires SkipBody(tag % 8, dAtA[j..], depth).Err?
    requires Skip(dAtA[start..], 0) == Plus(i - start, Skip(dAtA[i..], depth))
    ensures Skip(dAtA[start..], 0) == Err(SkipBody(tag % 8, dAtA[j..], depth).error)
  {
    hide Varint, SkipBody;
    assert dAtA[i..][j - i..] == dAtA[j..];
  }

  /**
   * A generated Unmarshal. The message types differ in the declared fields and in what storing one does, which is d;
   * the loop, its checks and their order are the same in all.
   */
  method Unmarshal<M>(d: Desc<M>, m0: M, dAtA: Bytes) returns (r: Result<M, Error>)
    ensures r == Decode(d, m0, dAtA)
  {
    hide Varint, Resume, Skip, ReadPayload;
    var m, i := m0, 0;
    assert dAtA[0..] == dAtA;
    while i < |dAtA|
      invariant i <= |dAtA|
      invariant Decode(d, m0, dAtA) == Decode(d, m, dAtA[i..])
      decreases |dAtA| - i
    {
      ghost var s := dAtA[i..];
      var preIndex := i;
      var tag := ReadVarint(dAtA, i);
      ResumeZero(i, Varint(s, 0));
      if tag.Err? {
        return Err(tag.error);
      }
      var wire := tag.value.0;
      i := tag.value.1;
      assert s[i - preIndex..] == dAtA[i..];
      var fieldNum, wireType := Int32(wire / 8), wire % 8;
      if wireType == 4 {
        return Err(EndGroup);
      }
      if fieldNum <= 0 {
        return Err(IllegalTag);
      }
      if fieldNum in d.wires {
        if wireType != d.wires[fieldNum] {
          return Err(WrongWireType);
        }
        var p := ReadField(dAtA, i, wireType);
        if p.Err? {
          return Err(p.error);
        }
        var stored := d.put(m, fieldNum, p.value.0);
        if stored.Err? {
          return Err(stored.error);
        }
        m := stored.value;
        i := p.value.1;
      } else {
        i := preIndex;
        var skippy := SkipRemote(dAtA, i);
        if skippy.Err? {
          return Err(skippy.error);
        }
        if i + skippy.value > |dAtA| {
          return Err(Truncated);
        }
        i := i + skippy.value;
      }
      assert s[i - preIndex..] == dAtA[i..];
    }
    r := Ok(m);
  }

  /** The payload of a declared field at index start, and the index behind it. */
  method ReadField(dAtA: Bytes, start: nat, wireType: nat) returns (r: Result<(Payload, nat), Error>)
    requires start <= |dAtA|
    ensures
      match ReadPayload(wireType, dAtA[start..])
      case Ok((p, n)) => r == Ok((p, start + n))
      case Err(e) => r == Err(e)
  {
    hide Varint, Resume, GetUint64;
    ghost var s := dAtA[start..];
    ResumeZero(start, Varint(s, 0));
    if wireType == 0 {
      var v := ReadVarint(dAtA, start);
      if v.Err? {
        return Err(v.error);
      }
      r := Ok((Num(v.value.0), v.value.1));
    } else if wireType == 1 {
      if start + 8 > |dAtA| {
        return Err(Truncated);
      }
      assert dAtA[start..start + 8] == s[..8];
      r := Ok((Fixed(GetUint64(dAtA[start..start + 8])), start + 8));
    } else if wireType == 2 {
      var v := ReadVarint(dAtA, start);
      if v.Err? {
        return Err(v.error);
      }
      var (length, i) := v.value;
      if length >= W63 {
        return Err(InvalidLength);
      }
      var postIndex := i + length;
      if postIndex > |dAtA| {
        return Err(Truncated);
      }
      assert dAtA[i..postIndex] == s[i - start..postIndex - start];
      r := Ok((Block(dAtA[i..postIndex]), postIndex));
    } else {
      r := Err(WrongWireType);
    }
  }
}
