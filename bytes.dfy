/** Octets and the unsigned 32-bit fields of an SMPP header. */
module Bytes {

  /** One octet of a PDU or of an encoded string. */
  type byte = b: int | 0 <= b < 0x100

  /** An unsigned 32-bit field. */
  type uint32 = n: int | 0 <= n < 0x1_0000_0000

  /** The value of four octets read in network order (most significant first). */
  function Be32(b0: byte, b1: byte, b2: byte, b3: byte): (n: uint32)
  {
    ((b0 * 0x100 + b1) * 0x100 + b2) * 0x100 + b3
  }

  /** The four octets that carry `n` in network order. */
  function Be32Bytes(n: uint32): (r: seq<byte>)
    ensures |r| == 4
  {
    [n / 0x100_0000, (n / 0x1_0000) % 0x100, (n / 0x100) % 0x100, n % 0x100]
  }

  /** Writing a value and reading it back gives the value. */
  lemma Be32OfBytes(n: uint32)
    ensures var r := Be32Bytes(n); Be32(r[0], r[1], r[2], r[3]) == n
  {
    var q1, q2 := n / 0x100, n / 0x1_0000;
    assert n == q1 * 0x100 + n % 0x100;
    assert q1 / 0x100 == q2;
    assert q1 == q2 * 0x100 + q1 % 0x100;
    assert q2 == (n / 0x100_0000) * 0x100 + q2 % 0x100;
  }

  /** Reading four octets and writing the value back gives the same octets. */
  lemma BytesOfBe32(b0: byte, b1: byte, b2: byte, b3: byte)
    ensures Be32Bytes(Be32(b0, b1, b2, b3)) == [b0, b1, b2, b3]
  {
    var x1 := b0 * 0x100 + b1;
    var x2 := x1 * 0x100 + b2;
    var n := Be32(b0, b1, b2, b3);
    assert n == x2 * 0x100 + b3;
    ShiftOut8(x2, b3);
    ShiftOut8(x1, b2);
    ShiftOut8(b0, b1);
    ShiftOut16(x1, b2 * 0x100 + b3);
    ShiftOut24(b0, b1 * 0x1_0000 + b2 * 0x100 + b3);
    assert n == x1 * 0x1_0000 + (b2 * 0x100 + b3);
    assert n == b0 * 0x100_0000 + (b1 * 0x1_0000 + b2 * 0x100 + b3);
    assert n % 0x100 == b3;
    assert n / 0x100 == x2 && x2 % 0x100 == b2;
    assert n / 0x1_0000 == x1 && x1 % 0x100 == b1;
    assert n / 0x100_0000 == b0;
  }

  /** Dividing by 2^8 undoes a shift by eight bits. */
  lemma ShiftOut8(a: int, r: int)
    requires 0 <= r < 0x100
    ensures (a * 0x100 + r) / 0x100 == a && (a * 0x100 + r) % 0x100 == r
  {
  }

  /** Dividing by 2^16 undoes a shift by sixteen bits. */
  lemma ShiftOut16(a: int, r: int)
    requires 0 <= r < 0x1_0000
    ensures (a * 0x1_0000 + r) / 0x1_0000 == a
  {
  }

  /** Dividing by 2^24 undoes a shift by twenty-four bits. */
  lemma ShiftOut24(a: int, r: int)
    requires 0 <= r < 0x100_0000
    ensures (a * 0x100_0000 + r) / 0x100_0000 == a
  {
  }
}
