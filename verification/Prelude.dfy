/** Result types shared by every component. */
module Prelude {

  datatype Option<+T> = None | Some(value: T)

  datatype Result<+T, +E> = Ok(value: T) | Err(error: E)

  /** Concatenation is associative, where the verifier has to be told. */
  lemma Regroup<T>(a: seq<T>, b: seq<T>, c: seq<T>)
    ensures a + b + c == a + (b + c)
  {
  }
}

/** Bytes and the fixed-width big-endian numbers that encoding/binary writes. */
module Binary {

  type Byte = x: int | 0 <= x < 256

  const U32: nat := 0x1_0000_0000

  function PutUint32(n: nat): (b: seq<Byte>)
    requires n < U32
    ensures |b| == 4 && GetUint32(b) == n
    ensures n == 0x100_0000 * b[0] as int + 0x1_0000 * b[1] as int + 0x100 * b[2] as int + b[3] as int
  {
    var high, low := n / 0x1_0000, n % 0x1_0000;
    [high / 0x100, high % 0x100, low / 0x100, low % 0x100]
  }

  function GetUint32(b: seq<Byte>): (n: nat)
    requires |b| == 4
    ensures n < U32
  {
    (b[0] as int * 0x100 + b[1] as int) * 0x1_0000 + (b[2] as int * 0x100 + b[3] as int)
  }
}
