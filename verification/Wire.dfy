/**
 * The wire format under service/prometheus/remote/remote.pb.go: base 128 varints, length prefixes and field tags
 * (Protocol Buffers encoding specification, sections "Base 128 Varints" and "Message Structure"), as the generated
 * code prints and reads them. Bits or-ed together by the reader never overlap, so the model adds them.
 */
module Wire {
  import opened Prelude
  import opened Binary

  type Bytes = seq<Byte>

  const W63: nat := 0x8000_0000_0000_0000
  const W64: nat := 0x1_0000_0000_0000_0000

  type Uint64 = x: nat | x < W64

  /** A length that leads past the end of the buffer is Truncated like a missing byte, a negative one InvalidLength. */
  datatype Error =
    | Overflow | Truncated | InvalidLength
    | EndGroup | IllegalTag | WrongWireType | UnexpectedEndGroup | IllegalWireType

  // ---------- varints ----------

  function EncVarint(v: nat): (b: Bytes)
    ensures b != []
  {
    if v < 128 then [v] else [v % 128 + 128] + EncVarint(v / 128)
  }

  /** bits.Len64 */
  function BitLen(x: nat): nat {
    if x == 0 then 0 else 1 + BitLen(x / 2)
  }

  /** sovRemote: the bit length of x|1, in sevens, rounded up. */
  function Sov(x: nat): nat {
    (BitLen(if x % 2 == 0 then x + 1 else x) + 6) / 7
  }

  lemma BitLenShift(x: nat)
    requires x >= 128
    ensures BitLen(x) == 7 + BitLen(x / 128)
  {
    var a := x / 2; var b := a / 2; var c := b / 2; var d := c / 2; var e := d / 2; var f := e / 2;
    assert BitLen(x) == 1 + BitLen(a) && BitLen(a) == 1 + BitLen(b) && BitLen(b) == 1 + BitLen(c);
    assert BitLen(c) == 1 + BitLen(d) && BitLen(d) == 1 + BitLen(e) && BitLen(e) == 1 + BitLen(f);
    assert BitLen(f) == 1 + BitLen(f / 2) && f / 2 == x / 128;
  }

  /** sovRemote counts exactly the bytes encodeVarintRemote writes. */
  lemma {:induction false} SovIsLength(v: nat)
    ensures Sov(v) == |EncVarint(v)|
  {
    var odd := if v % 2 == 0 then v + 1 else v;
    if v < 128 {
      assert odd < 128 && odd >= 1;
      SmallBitLen(odd);
    } else {
      var q := v / 128;
      SovIsLength(q);
      BitLenShift(odd);
      assert odd / 128 == q;
      if q % 2 == 0 {
        BitLenOdd(q);
      }
    }
  }

  lemma SmallBitLen(x: nat)
    requires 1 <= x < 128
    ensures 1 <= BitLen(x) <= 7
  {
    var a := x / 2; var b := a / 2; var c := b / 2; var d := c / 2; var e := d / 2; var f := e / 2;
    assert BitLen(f) <= 1 && BitLen(e) <= 1 + BitLen(f) && BitLen(d) <= 1 + BitLen(e);
    assert BitLen(c) <= 1 + BitLen(d) && BitLen(b) <= 1 + BitLen(c) && BitLen(a) <= 1 + BitLen(b);
    assert BitLen(x) == 1 + BitLen(a);
  }

  /** Setting the lowest bit changes the length of 0 only. */
  lemma BitLenOdd(q: nat)
    requires q >= 1 && q % 2 == 0
    ensures BitLen(q + 1) == BitLen(q)
  {
    assert BitLen(q + 1) == 1 + BitLen((q + 1) / 2) && (q + 1) / 2 == q / 2;
    assert BitLen(q) == 1 + BitLen(q / 2);
  }

  function Pow128(k: nat): (p: nat)
    ensures p >= 1
  {
    if k == 0 then 1 else 128 * Pow128(k - 1)
  }

  /** b << 7k in 64 bits. */
  function Shl(b: nat, k: nat): Uint64 {
    (b * Pow128(k)) % W64
  }

  /** The reading loop after k bytes: the value of what is still to come, and how many bytes it takes. */
  function Varint(s: Bytes, k: nat): (r: Result<(Uint64, nat), Error>)
    ensures r.Ok? ==> 0 < r.value.1 <= |s|
  {
    if k >= 10 then Err(Overflow)
    else if s == [] then Err(Truncated)
    else if s[0] < 128 then Ok((Shl(s[0], k), 1))
    else
      match Varint(s[1..], k + 1)
      case Err(e) => Err(e)
      case Ok((v, n)) => Ok(((Shl(s[0] - 128, k) + v) % W64, n + 1))
  }

  lemma PowTen()
    ensures Pow128(9) == W63 && Pow128(10) == 64 * W64
  {
    assert Pow128(4) == 0x1000_0000;
    assert Pow128(8) == 128 * (128 * (128 * (128 * Pow128(4))));
  }

  /** v * p, split at the low seven bits of v. */
  lemma SplitSeven(v: nat, p: nat)
    ensures v * p == (v % 128) * p + (v / 128) * (128 * p)
    ensures (v / 128) * (128 * p) <= v * p && (v % 128) * p <= v * p
  {
    assert v == v % 128 + 128 * (v / 128);
    assert (v % 128 + 128 * (v / 128)) * p == (v % 128) * p + 128 * (v / 128) * p;
    assert 128 * (v / 128) * p == (v / 128) * (128 * p);
    assert (v % 128) * p >= 0 && (v / 128) * (128 * p) >= 0;
  }

  /** A value of more than seven bits, shifted by k sevens within 64 bits, leaves room for the next seven. */
  lemma RoomForNext(v: nat, k: nat)
    requires k < 10 && v >= 128 && v * Pow128(k) < W64
    ensures k + 1 < 10 && (v / 128) * Pow128(k + 1) < W64
    ensures Shl(v % 128, k) + (v / 128) * Pow128(k + 1) == v * Pow128(k)
  {
    var p := Pow128(k);
    SplitSeven(v, p);
    assert v * p >= 128 * p by {
      assert v * p == 128 * p + (v - 128) * p;
    }
    if k == 9 {
      PowTen();
    }
  }

  lemma VarintLast(v: nat, k: nat, rest: Bytes)
    requires k < 10 && v < 128 && v * Pow128(k) < W64
    ensures Varint([v] + rest, k) == Ok((v * Pow128(k), 1))
  {
  }

  lemma VarintCons(b: Byte, t: Bytes, k: nat)
    requires k < 10 && b >= 128
    ensures Varint([b] + t, k) ==
      match Varint(t, k + 1)
      case Err(e) => Err(e)
      case Ok((v, n)) => Ok(((Shl(b - 128, k) + v) % W64, n + 1))
  {
    hide Shl;
    assert ([b] + t)[1..] == t;
  }

  lemma {:induction false} VarintRoundTripAt(v: nat, k: nat, rest: Bytes)
    requires k < 10 && v * Pow128(k) < W64
    ensures Varint(EncVarint(v) + rest, k) == Ok((v * Pow128(k), |EncVarint(v)|))
    decreases v
  {
    hide Pow128, Shl, Varint;
    if v < 128 {
      VarintLast(v, k, rest);
    } else {
      RoomForNext(v, k);
      VarintRoundTripAt(v / 128, k + 1, rest);
      var low, t: Bytes := v % 128, EncVarint(v / 128);
      VarintCons(low + 128, t + rest, k);
      assert [low + 128] + t + rest == [low + 128] + (t + rest);
    }
  }

  /** Reading back any 64-bit value, whatever follows it. */
  lemma VarintRoundTrip(v: nat, rest: Bytes)
    requires v < W64
    ensures Varint(EncVarint(v) + rest, 0) == Ok((v, |EncVarint(v)|))
  {
    VarintRoundTripAt(v, 0, rest);
  }

  // ---------- fixed-width numbers ----------

  function PutUint64(v: Uint64): (b: Bytes)
    ensures |b| == 8
  {
    PutLE(v, 8)
  }

  function PutLE(v: nat, n: nat): (b: Bytes)
    ensures |b| == n
  {
    if n == 0 then [] else [v % 256] + PutLE(v / 256, n - 1)
  }

  function GetLE(b: Bytes): (v: nat)
    ensures v < Pow256(|b|)
  {
    if b == [] then 0 else b[0] as int + 256 * GetLE(b[1..])
  }

  function Pow256(n: nat): (p: nat)
    ensures p >= 1
  {
    if n == 0 then 1 else 256 * Pow256(n - 1)
  }

  lemma {:induction false} GetPutLE(v: nat, n: nat)
    requires v < Pow256(n)
    ensures GetLE(PutLE(v, n)) == v
  {
    if n > 0 {
      assert v / 256 < Pow256(n - 1);
      GetPutLE(v / 256, n - 1);
      assert PutLE(v, n)[1..] == PutLE(v / 256, n - 1);
    }
  }

  lemma Pow256Eight()
    ensures Pow256(8) == W64
  {
    assert Pow256(4) == 0x1_0000_0000;
    assert Pow256(8) == 256 * (256 * (256 * (256 * Pow256(4))));
  }

  function GetUint64(b: Bytes): Uint64
    requires |b| == 8
  {
    Pow256Eight();
    GetLE(b)
  }

  lemma GetPutUint64(v: Uint64)
    ensures GetUint64(PutUint64(v)) == v
  {
    Pow256Eight();
    GetPutLE(v, 8);
  }

  // ---------- fields ----------

  /** What follows a tag, by wire type: a varint, eight bytes, or a length and that many bytes. */
  datatype Payload = Num(v: Uint64) | Fixed(v: Uint64) | Block(b: Bytes)

  datatype Field = Field(num: nat, payload: Payload)

  function WireType(p: Payload): nat {
    match p
    case Num(_) => 0
    case Fixed(_) => 1
    case Block(_) => 2
  }

  function EncPayload(p: Payload): Bytes {
    match p
    case Num(v) => EncVarint(v)
    case Fixed(v) => PutUint64(v)
    case Block(b) => EncVarint(|b|) + b
  }

  function EncField(f: Field): (b: Bytes)
    ensures b != []
  {
    EncVarint(8 * f.num + WireType(f.payload)) + EncPayload(f.payload)
  }

  function EncFields(fs: seq<Field>): Bytes {
    if fs == [] then [] else EncField(fs[0]) + EncFields(fs[1..])
  }

  function ReadPayload(wire: nat, s: Bytes): (r: Result<(Payload, nat), Error>)
    ensures r.Ok? ==> 0 < r.value.1 <= |s| && WireType(r.value.0) == wire
  {
    if wire == 0 then
      match Varint(s, 0)
      case Err(e) => Err(e)
      case Ok((v, n)) => Ok((Num(v), n))
    else if wire == 1 then
      if |s| < 8 then Err(Truncated) else Ok((Fixed(GetUint64(s[..8])), 8))
    else if wire == 2 then
      match Varint(s, 0)
      case Err(e) => Err(e)
      case Ok((v, n)) =>
        if v >= W63 then Err(InvalidLength)
        else if n + v > |s| then Err(Truncated)
        else Ok((Block(s[n..n + v]), n + v))
    else Err(WrongWireType)
  }

  /** skipRemote inside depth open groups: how many bytes up to the end of the field, or of the outermost group. */
  function Skip(s: Bytes, depth: nat): (r: Result<nat, Error>)
    ensures r.Ok? ==> 0 < r.value <= |s|
    decreases |s|
  {
    match Varint(s, 0)
    case Err(e) => Err(e)
    case Ok((tag, n)) =>
      match SkipBody(tag % 8, s[n..], depth)
      case Err(e) => Err(e)
      case Ok((k, d)) =>
        if d == 0 then Ok(n + k)
        else
          match Skip(s[n + k..], d)
          case Err(e) => Err(e)
          case Ok(m) => Ok(n + k + m)
  }

  /** What follows the tag of a field to be skipped: its length, and the number of groups open after it. */
  function SkipBody(wire: nat, s: Bytes, depth: nat): (r: Result<(nat, nat), Error>)
    ensures r.Ok? ==> r.value.0 <= |s|
  {
    match wire
    case 0 =>
      (match Varint(s, 0)
       case Err(e) => Err(e)
       case Ok((_, n)) => Ok((n, depth)))
    case 1 => if |s| < 8 then Err(Truncated) else Ok((8, depth))
    case 2 =>
      (match Varint(s, 0)
       case Err(e) => Err(e)
       case Ok((v, n)) =>
         if v >= W63 then Err(InvalidLength) else if n + v > |s| then Err(Truncated) else Ok((n + v, depth)))
    case 3 => Ok((0, depth + 1))
    case 4 => if depth == 0 then Err(UnexpectedEndGroup) else Ok((0, depth - 1))
    case 5 => if |s| < 4 then Err(Truncated) else Ok((4, depth))
    case _ => Err(IllegalWireType)
  }

  // ---------- messages ----------

  /** A message type: the wire type of each declared field number, and what storing a payload does to the message. */
  datatype Desc<!M> = Desc(wires: map<int, nat>, put: (M, int, Payload) -> Result<M, Error>)

  /** int32(x) */
  function Int32(x: nat): int {
    var y := x % U32;
    if y < 0x8000_0000 then y else y - U32
  }

  /** One turn of a generated Unmarshal loop: the message after the field at the front, and the field's length. */
  function DecodeField<M>(d: Desc<M>, m: M, s: Bytes): (r: Result<(M, nat), Error>)
    ensures r.Ok? ==> 0 < r.value.1 <= |s|
  {
    match Varint(s, 0)
    case Err(e) => Err(e)
    case Ok((tag, n)) =>
      var num, wire := Int32(tag / 8), tag % 8;
      if wire == 4 then Err(EndGroup)
      else if num <= 0 then Err(IllegalTag)
      else if num in d.wires then
        if wire != d.wires[num] then Err(WrongWireType)
        else
          match ReadPayload(wire, s[n..])
          case Err(e) => Err(e)
          case Ok((p, k)) =>
            match d.put(m, num, p)
            case Err(e) => Err(e)
            case Ok(m1) => Ok((m1, n + k))
      else
        match Skip(s, 0)
        case Err(e) => Err(e)
        case Ok(k) => Ok((m, k))
  }

  /** Unmarshal of s into the message m. */
  function Decode<M>(d: Desc<M>, m: M, s: Bytes): Result<M, Error>
    decreases |s|
  {
    if s == [] then Ok(m)
    else
      match DecodeField(d, m, s)
      case Err(e) => Err(e)
      case Ok((m1, n)) => Decode(d, m1, s[n..])
  }

  /** Storing a list of fields one after another. */
  function PutAll<M>(d: Desc<M>, m: M, fs: seq<Field>): Result<M, Error> {
    if fs == [] then Ok(m)
    else
      match d.put(m, fs[0].num, fs[0].payload)
      case Err(e) => Err(e)
      case Ok(m1) => PutAll(d, m1, fs[1..])
  }

  // ---------- what has been read does not depend on what follows ----------

  lemma {:induction false} VarintLocal(s: Bytes, k: nat, t: Bytes)
    requires Varint(s, k).Ok?
    ensures Varint(s + t, k) == Varint(s, k)
  {
    if s[0] >= 128 {
      VarintLocal(s[1..], k + 1, t);
      assert (s + t)[1..] == s[1..] + t;
    }
  }

  lemma ReadPayloadLocal(wire: nat, s: Bytes, t: Bytes)
    requires ReadPayload(wire, s).Ok?
    ensures ReadPayload(wire, s + t) == ReadPayload(wire, s)
  {
    hide Varint, GetUint64;
    if wire == 1 {
      assert (s + t)[..8] == s[..8];
    } else {
      VarintLocal(s, 0, t);
      if wire == 2 {
        var (v, n) := Varint(s, 0).value;
        assert (s + t)[n..n + v] == s[n..n + v];
      }
    }
  }

  lemma SkipBodyLocal(wire: nat, s: Bytes, depth: nat, t: Bytes)
    requires SkipBody(wire, s, depth).Ok?
    ensures SkipBody(wire, s + t, depth) == SkipBody(wire, s, depth)
  {
    hide Varint;
    if wire == 0 || wire == 2 {
      VarintLocal(s, 0, t);
    }
  }

  lemma {:induction false} SkipLocal(s: Bytes, depth: nat, t: Bytes)
    requires Skip(s, depth).Ok?
    ensures Skip(s + t, depth) == Skip(s, depth)
    decreases |s|
  {
    hide Varint, SkipBody;
    VarintLocal(s, 0, t);
    var (tag, n) := Varint(s, 0).value;
    assert (s + t)[n..] == s[n..] + t;
    SkipBodyLocal(tag % 8, s[n..], depth, t);
    var (k, d) := SkipBody(tag % 8, s[n..], depth).value;
    if d != 0 {
      SkipLocal(s[n + k..], d, t);
      assert (s + t)[n + k..] == s[n + k..] + t;
    }
  }

  lemma DecodeFieldLocal<M>(d: Desc<M>, m: M, s: Bytes, t: Bytes)
    requires DecodeField(d, m, s).Ok?
    ensures DecodeField(d, m, s + t) == DecodeField(d, m, s)
  {
    hide Varint, ReadPayload, Skip, Int32;
    VarintLocal(s, 0, t);
    var (tag, n) := Varint(s, 0).value;
    assert (s + t)[n..] == s[n..] + t;
    if Int32(tag / 8) in d.wires {
      ReadPayloadLocal(tag % 8, s[n..], t);
    } else {
      SkipLocal(s, 0, t);
    }
  }

  /** Unmarshalling an accepted buffer with another behind it is unmarshalling the one and then the other. */
  lemma {:induction false} DecodeConcat<M>(d: Desc<M>, m: M, a: Bytes, b: Bytes)
    requires Decode(d, m, a).Ok?
    ensures Decode(d, m, a + b) == Decode(d, Decode(d, m, a).value, b)
    decreases |a|
  {
    hide DecodeField;
    if a == [] {
      assert a + b == b;
    } else {
      DecodeFieldLocal(d, m, a, b);
      var (m1, n) := DecodeField(d, m, a).value;
      assert (a + b)[n..] == a[n..] + b;
      DecodeConcat(d, m1, a[n..], b);
    }
  }

  // ---------- unknown fields ----------

  /** A field of any number and wire type, as the encoding specification builds them; groups nest. */
  datatype Unknown =
    | UVarint(num: nat, v: Uint64) | UFixed64(num: nat, b: Bytes) | UBlock(num: nat, b: Bytes)
    | UGroup(num: nat, inner: seq<Unknown>) | UFixed32(num: nat, b: Bytes)

  predicate Formed(u: Unknown) {
    && 8 * u.num + 5 < W64
    && match u
       case UVarint(_, _) => true
       case UFixed64(_, b) => |b| == 8
       case UBlock(_, b) => |b| < W63
       case UGroup(_, inner) => forall x | x in inner :: Formed(x)
       case UFixed32(_, b) => |b| == 4
  }

  function EncUnknown(u: Unknown): (b: Bytes)
    ensures b != []
  {
    match u
    case UVarint(n, v) => EncVarint(8 * n) + EncVarint(v)
    case UFixed64(n, b) => EncVarint(8 * n + 1) + b
    case UBlock(n, b) => EncVarint(8 * n + 2) + (EncVarint(|b|) + b)
    case UGroup(n, inner) => EncVarint(8 * n + 3) + (EncUnknowns(inner) + EncVarint(8 * n + 4))
    case UFixed32(n, b) => EncVarint(8 * n + 5) + b
  }

  function EncUnknowns(us: seq<Unknown>): Bytes {
    if us == [] then [] else EncUnknown(us[0]) + EncUnknowns(us[1..])
  }

  /** Adding to the bytes skipped so far. */
  function Plus(n: nat, r: Result<nat, Error>): Result<nat, Error> {
    match r
    case Ok(k) => Ok(n + k)
    case Err(e) => Err(e)
  }

  /** Skipping one tag and what follows it. */
  lemma SkipStep(tag: nat, body: Bytes, depth: nat, d: nat, rest: Bytes)
    requires tag < W64 && SkipBody(tag % 8, body + rest, depth) == Ok((|body|, d))
    ensures
      Skip(EncVarint(tag) + body + rest, depth)
      == Plus(|EncVarint(tag) + body|, if d == 0 then Ok(0) else Skip(rest, d))
  {
    hide Varint, EncVarint, SkipBody;
    var e := EncVarint(tag);
    var s := e + body + rest;
    assert s == e + (body + rest);
    VarintRoundTrip(tag, body + rest);
    assert s[|e|..] == body + rest;
    assert s[|e| + |body|..] == rest;
  }

  lemma SkipBlock(n: nat, b: Bytes, depth: nat, rest: Bytes)
    requires 8 * n + 5 < W64 && |b| < W63
    ensures
      var s := EncVarint(8 * n + 2) + (EncVarint(|b|) + b);
      Skip(s + rest, depth) == Plus(|s|, if depth == 0 then Ok(0) else Skip(rest, depth))
  {
    hide Varint, EncVarint, Skip;
    var e := EncVarint(|b|);
    assert e + b + rest == e + (b + rest);
    VarintRoundTrip(|b|, b + rest);
    SkipStep(8 * n + 2, e + b, depth, depth, rest);
  }

  lemma SkipGroup(n: nat, i: Bytes, depth: nat, rest: Bytes)
    requires 8 * n + 5 < W64
    requires
      var t := EncVarint(8 * n + 4) + rest;
      Skip(i + t, depth + 1) == Plus(|i|, Skip(t, depth + 1))
    ensures
      var s := EncVarint(8 * n + 3) + (i + EncVarint(8 * n + 4));
      Skip(s + rest, depth) == Plus(|s|, if depth == 0 then Ok(0) else Skip(rest, depth))
  {
    hide Varint, EncVarint, Skip;
    var opening, closing := EncVarint(8 * n + 3), EncVarint(8 * n + 4);
    GroupAssoc(opening, i, closing, rest);
    SkipStep(8 * n + 3, [], depth, depth + 1, i + (closing + rest));
    SkipStep(8 * n + 4, [], depth + 1, depth, rest);
  }

  /** skipRemote passes over any well-formed field, exactly to its end, at the top level and inside groups. */
  lemma {:induction false} SkipUnknown(u: Unknown, depth: nat, rest: Bytes)
    requires Formed(u)
    ensures
      Skip(EncUnknown(u) + rest, depth)
      == Plus(|EncUnknown(u)|, if depth == 0 then Ok(0) else Skip(rest, depth))
    decreases u
  {
    hide Varint, EncVarint, Skip;
    match u
    case UVarint(n, v) =>
      VarintRoundTrip(v, rest);
      SkipStep(8 * n, EncVarint(v), depth, depth, rest);
    case UFixed64(n, b) => SkipStep(8 * n + 1, b, depth, depth, rest);
    case UBlock(n, b) => SkipBlock(n, b, depth, rest);
    case UFixed32(n, b) => SkipStep(8 * n + 5, b, depth, depth, rest);
    case UGroup(n, inner) =>
      SkipUnknowns(inner, depth + 1, EncVarint(8 * n + 4) + rest);
      SkipGroup(n, EncUnknowns(inner), depth, rest);
  }

  lemma GroupAssoc(a: Bytes, b: Bytes, c: Bytes, rest: Bytes)
    ensures a + (b + c) + rest == a + [] + (b + (c + rest))
    ensures c + rest == c + [] + rest
    ensures a + [] == a && c + [] == c
    ensures [] + (b + (c + rest)) == b + (c + rest) && [] + rest == rest
  {
  }

  lemma {:induction false} SkipUnknowns(us: seq<Unknown>, depth: nat, rest: Bytes)
    requires (forall u | u in us :: Formed(u)) && depth > 0
    ensures Skip(EncUnknowns(us) + rest, depth) == Plus(|EncUnknowns(us)|, Skip(rest, depth))
    decreases us
  {
    hide Skip, EncUnknown;
    if us == [] {
      assert EncUnknowns(us) + rest == rest;
    } else {
      var e, t := EncUnknown(us[0]), EncUnknowns(us[1..]);
      assert e + t + rest == e + (t + rest);
      SkipUnknown(us[0], depth, t + rest);
      SkipUnknowns(us[1..], depth, rest);
    }
  }

  /** The first tag of a field is its own. */
  lemma UnknownTag(u: Unknown, rest: Bytes) returns (w: nat)
    requires Formed(u)
    ensures w < 8 && w != 4
    ensures Varint(EncUnknown(u) + rest, 0) == Ok((8 * u.num + w, |EncVarint(8 * u.num + w)|))
  {
    w := match u case UVarint(_, _) => 0 case UFixed64(_, _) => 1 case UBlock(_, _) => 2 case UGroup(_, _) => 3
      case UFixed32(_, _) => 5;
    hide Varint, EncVarint;
    match u
    case UVarint(n, v) => TagFirst(8 * n, EncVarint(v), rest);
    case UFixed64(n, b) => TagFirst(8 * n + 1, b, rest);
    case UBlock(n, b) => TagFirst(8 * n + 2, EncVarint(|b|) + b, rest);
    case UGroup(n, inner) => TagFirst(8 * n + 3, EncUnknowns(inner) + EncVarint(8 * n + 4), rest);
    case UFixed32(n, b) => TagFirst(8 * n + 5, b, rest);
  }

  lemma TagFirst(tag: nat, body: Bytes, rest: Bytes)
    requires tag < W64
    ensures Varint(EncVarint(tag) + body + rest, 0) == Ok((tag, |EncVarint(tag)|))
  {
    hide Varint, EncVarint;
    assert EncVarint(tag) + body + rest == EncVarint(tag) + (body + rest);
    VarintRoundTrip(tag, body + rest);
  }

  /**
   * A well-formed field of an undeclared positive number, groups included, put in at a field boundary changes nothing
   * that Unmarshal decodes.
   */
  lemma UnknownIgnored<M>(d: Desc<M>, m: M, a: Bytes, u: Unknown, b: Bytes)
    requires Decode(d, m, a).Ok?
    requires Formed(u) && Int32(u.num) > 0 && Int32(u.num) !in d.wires
    ensures Decode(d, m, a + EncUnknown(u) + b) == Decode(d, m, a + b)
  {
    hide Varint, EncVarint, Skip, EncUnknown, Int32;
    var e := EncUnknown(u);
    var m1 := Decode(d, m, a).value;
    DecodeConcat(d, m, a, b);
    DecodeConcat(d, m, a, e + b);
    assert a + e + b == a + (e + b);
    var w := UnknownTag(u, b);
    assert (8 * u.num + w) / 8 == u.num && (8 * u.num + w) % 8 == w;
    SkipUnknown(u, 0, b);
    assert DecodeField(d, m1, e + b) == Ok((m1, |e|));
    assert (e + b)[|e|..] == b;
  }

  // ---------- known fields ----------

  /** A block whose length is an int of Go. */
  predicate Sized(p: Payload) { p.Block? ==> |p.b| < W63 }

  lemma ReadPayloadBack(p: Payload, rest: Bytes)
    requires Sized(p)
    ensures ReadPayload(WireType(p), EncPayload(p) + rest) == Ok((p, |EncPayload(p)|))
  {
    hide Varint, EncVarint, PutUint64, GetUint64;
    match p
    case Num(v) => VarintRoundTrip(v, rest);
    case Fixed(v) =>
      GetPutUint64(v);
      assert (PutUint64(v) + rest)[..8] == PutUint64(v);
    case Block(b) =>
      var e := EncVarint(|b|);
      assert e + b + rest == e + (b + rest);
      VarintRoundTrip(|b|, b + rest);
      assert (e + (b + rest))[|e|..|e| + |b|] == b;
  }

  /** A field of a number and wire type that the message has. */
  predicate Declared<M>(d: Desc<M>, f: Field) {
    0 < f.num < 0x8000_0000 && f.num in d.wires && d.wires[f.num] == WireType(f.payload)
  }

  lemma DecodeFieldBack<M>(d: Desc<M>, m: M, f: Field, rest: Bytes)
    requires Declared(d, f) && Sized(f.payload) && d.put(m, f.num, f.payload).Ok?
    ensures DecodeField(d, m, EncField(f) + rest) == Ok((d.put(m, f.num, f.payload).value, |EncField(f)|))
  {
    hide EncPayload, EncVarint, Varint, Skip, ReadPayload;
    var tag, body := 8 * f.num + WireType(f.payload), EncPayload(f.payload);
    TagFirst(tag, body, rest);
    assert (EncField(f) + rest)[|EncVarint(tag)|..] == body + rest;
    assert tag / 8 == f.num && Int32(f.num) == f.num;
    ReadPayloadBack(f.payload, rest);
  }

  predicate Readable<M>(d: Desc<M>, fs: seq<Field>) {
    forall i | 0 <= i < |fs| :: Declared(d, fs[i]) && Sized(fs[i].payload)
  }

  /** Unmarshal reads printed fields as they were stored, in order. */
  lemma {:induction false} DecodeFieldsBack<M>(d: Desc<M>, m: M, fs: seq<Field>)
    requires Readable(d, fs)
    requires PutAll(d, m, fs).Ok?
    ensures Decode(d, m, EncFields(fs)) == PutAll(d, m, fs)
  {
    if fs != [] {
      var e, t := EncField(fs[0]), EncFields(fs[1..]);
      hide EncField, DecodeField;
      DecodeFieldBack(d, m, fs[0], t);
      assert (e + t)[|e|..] == t;
      DecodeFieldsBack(d, d.put(m, fs[0].num, fs[0].payload).value, fs[1..]);
    }
  }

  // ---------- lists of fields ----------

  lemma {:induction false} EncFieldsConcat(a: seq<Field>, b: seq<Field>)
    ensures EncFields(a + b) == EncFields(a) + EncFields(b)
  {
    hide EncField;
    if a == [] {
      assert a + b == b;
    } else {
      assert (a + b)[1..] == a[1..] + b;
      EncFieldsConcat(a[1..], b);
    }
  }

  lemma {:induction false} PutAllConcat<M>(d: Desc<M>, m: M, a: seq<Field>, b: seq<Field>)
    requires PutAll(d, m, a).Ok?
    ensures PutAll(d, m, a + b) == PutAll(d, PutAll(d, m, a).value, b)
  {
    if a == [] {
      assert a + b == b;
    } else {
      assert (a + b)[1..] == a[1..] + b;
      PutAllConcat(d, d.put(m, a[0].num, a[0].payload).value, a[1..], b);
    }
  }

  /** A block inside printed fields is shorter than the whole. */
  lemma {:induction false} BlockFits(fs: seq<Field>, i: nat)
    requires i < |fs| && fs[i].payload.Block?
    ensures |fs[i].payload.b| < |EncFields(fs)|
  {
    if i > 0 {
      BlockFits(fs[1..], i - 1);
    }
  }
}
