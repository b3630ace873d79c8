/**
 * Primitive vocabulary of the DNS wire format: octets, the fixed-width
 * integers that DataOutputStream writes and ByteBuffer reads (big-endian),
 * Java's narrowing casts and the exceptions a decoder or encoder can raise.
 *
 * Fixed-width values are kept as their unsigned bit patterns (a Java
 * `short` -1 is 0xFFFF here); the signed reading is `Signed16`.
 */
module Wire {

  type Byte = b: int | 0 <= b < 0x100
  type U16 = x: int | 0 <= x < 0x1_0000
  type U32 = x: int | 0 <= x < 0x1_0000_0000

  /** The Java exceptions the core can raise, one constructor per kind. */
  datatype Error =
    | BufferUnderflow      // ByteBuffer.get past the limit
    | IllegalPosition      // ByteBuffer.position(p) with p beyond the limit
    | NegativeArraySize    // new byte[n] with n < 0
    | PointerLoop          // a compression-pointer cycle: the Java loop never ends
    | NumberFormat         // Integer.parseInt on text that is not an int
    | IllegalArgument      // DNSHeader.setRCode outside 0..15

  datatype Result<+T> = Success(value: T) | Failure(error: Error) {
    predicate IsFailure() { Failure? }
    function PropagateFailure<U>(): Result<U> requires Failure? { Failure(error) }
    function Extract(): T requires Success? { value }
  }

  datatype Outcome = Pass | Fail(error: Error)

  datatype Option<+T> = None | Some(value: T)

  /** Java's `(short) n`: the low 16 bits of n, as a bit pattern. */
  function Short(n: int): (r: U16)
    ensures 0 <= n < 0x1_0000 ==> r == n
  {
    n % 0x1_0000
  }

  /** The value a Java `short` with bit pattern x holds. */
  function Signed16(x: U16): (r: int)
    ensures -0x8000 <= r < 0x8000
    ensures r < 0 <==> x >= 0x8000
    ensures Short(r) == x
  {
    if x < 0x8000 then x else x - 0x1_0000
  }

  /** DataOutputStream.writeByte(n) keeps the low 8 bits of n. */
  function LowByte(n: int): (r: Byte)
    ensures 0 <= n < 0x100 ==> r == n
  {
    n % 0x100
  }

  /** The unsigned value of two octets read high first. */
  function BigEndian16(b: seq<Byte>): U16
    requires |b| == 2
  {
    (b[0] as int) * 0x100 + b[1] as int
  }

  /** The unsigned value of four octets read high first. */
  function BigEndian32(b: seq<Byte>): U32
    requires |b| == 4
  {
    BigEndian16(b[..2]) * 0x1_0000 + BigEndian16(b[2..])
  }

  /** DataOutputStream.writeShort: two octets, high first. */
  function U16Bytes(x: U16): (r: seq<Byte>)
    ensures |r| == 2 && BigEndian16(r) == x
  {
    [x / 0x100, x % 0x100]
  }

  /** DataOutputStream.writeInt: four octets, high first. */
  function U32Bytes(x: U32): (r: seq<Byte>)
    ensures |r| == 4 && BigEndian32(r) == x
  {
    var hi, lo := U16Bytes(x / 0x1_0000), U16Bytes(x % 0x1_0000);
    assert (hi + lo)[..2] == hi && (hi + lo)[2..] == lo;
    hi + lo
  }

  /** `e` sits in `data` starting at `pos`. */
  predicate IsAt(data: seq<Byte>, pos: nat, e: seq<Byte>) {
    pos + |e| <= |data| && data[pos..pos + |e|] == e
  }

  lemma IsAtWhole(data: seq<Byte>)
    ensures IsAt(data, 0, data)
  {
  }

  lemma IsAtSplit(data: seq<Byte>, pos: nat, a: seq<Byte>, b: seq<Byte>)
    requires IsAt(data, pos, a + b)
    ensures IsAt(data, pos, a) && IsAt(data, pos + |a|, b)
  {
    assert data[pos..pos + |a|] == (a + b)[..|a|];
    assert data[pos + |a|..pos + |a| + |b|] == (a + b)[|a|..];
  }

  lemma IsAtJoin(data: seq<Byte>, pos: nat, a: seq<Byte>, b: seq<Byte>)
    requires IsAt(data, pos, a) && IsAt(data, pos + |a|, b)
    ensures IsAt(data, pos, a + b)
  {
    assert data[pos..pos + |a| + |b|] == data[pos..pos + |a|] + data[pos + |a|..pos + |a| + |b|];
  }

  lemma IsAtHead(data: seq<Byte>, pos: nat, b: Byte, m: seq<Byte>, tail: seq<Byte>)
    requires IsAt(data, pos, [b] + m + tail)
    ensures pos < |data| && data[pos] == b
    ensures IsAt(data, pos + 1, m)
    ensures IsAt(data, pos + 1 + |m|, tail)
  {
    IsAtSplit(data, pos, [b] + m, tail);
    IsAtSplit(data, pos, [b], m);
    assert data[pos] == data[pos..pos + 1][0];
  }

  /** ByteBuffer.getShort at the cursor. */
  function ReadU16(data: seq<Byte>, pos: nat): (r: Result<(U16, nat)>)
    ensures r.Success? ==> r.value.1 == pos + 2
  {
    if pos + 2 > |data| then Failure(BufferUnderflow)
    else Success((BigEndian16(data[pos..pos + 2]), pos + 2))
  }

  /** ByteBuffer.getInt at the cursor. */
  function ReadU32(data: seq<Byte>, pos: nat): (r: Result<(U32, nat)>)
    ensures r.Success? ==> r.value.1 == pos + 4
  {
    if pos + 4 > |data| then Failure(BufferUnderflow)
    else Success((BigEndian32(data[pos..pos + 4]), pos + 4))
  }

  /** ByteBuffer.get(byte[n]) at the cursor. */
  function ReadBytes(data: seq<Byte>, pos: nat, n: nat): (r: Result<(seq<Byte>, nat)>)
    ensures r.Success? <==> pos + n <= |data|
    ensures r.Success? ==> IsAt(data, pos, r.value.0) && |r.value.0| == n && r.value.1 == pos + n
  {
    if pos + n > |data| then Failure(BufferUnderflow)
    else Success((data[pos..pos + n], pos + n))
  }

  lemma ReadU16Bytes(data: seq<Byte>, pos: nat, x: U16)
    requires IsAt(data, pos, U16Bytes(x))
    ensures ReadU16(data, pos) == Success((x, pos + 2))
  {
    assert data[pos] == U16Bytes(x)[0] && data[pos + 1] == U16Bytes(x)[1];
  }

  lemma ReadU32Bytes(data: seq<Byte>, pos: nat, x: U32)
    requires IsAt(data, pos, U32Bytes(x))
    ensures ReadU32(data, pos) == Success((x, pos + 4))
  {
    var e := U32Bytes(x);
    assert data[pos] == e[0] && data[pos + 1] == e[1] && data[pos + 2] == e[2] && data[pos + 3] == e[3];
  }

  lemma ReadBytesAt(data: seq<Byte>, pos: nat, e: seq<Byte>)
    requires IsAt(data, pos, e)
    ensures ReadBytes(data, pos, |e|) == Success((e, pos + |e|))
  {
  }
}
