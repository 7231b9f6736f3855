/** Bytes, little-endian words, and exclusive or on numbers. */
module Words {

  type byte = x: int | 0 <= x < 0x100
  type u32 = x: int | 0 <= x < 0x1_0000_0000
  type u64 = x: int | 0 <= x < 0x1_0000_0000_0000_0000

  const TWO32: int := 0x1_0000_0000

  /** `read_u16_le` at position `at`. */
  function ReadU16(p: seq<byte>, at: nat): (v: int)
    requires at + 2 <= |p|
    ensures 0 <= v < 0x10000
  {
    p[at] as int + 0x100 * (p[at + 1] as int)
  }

  function Word(b0: int, b1: int, b2: int, b3: int): int {
    b0 + 0x100 * (b1 + 0x100 * (b2 + 0x100 * b3))
  }

  /** `read_u32_le` at position `at`. */
  function ReadU32(p: seq<byte>, at: nat): u32
    requires at + 4 <= |p|
  {
    Word(p[at], p[at + 1], p[at + 2], p[at + 3])
  }

  /** `read_u64_le` at position `at`. */
  function ReadU64(p: seq<byte>, at: nat): u64
    requires at + 8 <= |p|
  {
    ReadU32(p, at) + TWO32 * ReadU32(p, at + 4)
  }

  function WriteU32(v: u32): (p: seq<byte>)
    ensures |p| == 4
  {
    [v % 0x100, v / 0x100 % 0x100, v / 0x100 / 0x100 % 0x100, v / 0x100 / 0x100 / 0x100]
  }

  lemma LowDigit(b: int, rest: int)
    requires 0 <= b < 0x100
    ensures (b + 0x100 * rest) % 0x100 == b && (b + 0x100 * rest) / 0x100 == rest
  {
  }

  lemma ReadsWhatWasWritten(v: u32, p: seq<byte>, at: nat)
    requires at + 4 <= |p| && p[at..at + 4] == WriteU32(v)
    ensures ReadU32(p, at) == v
  {
    var w := WriteU32(v);
    var r := p[at..at + 4];
    assert p[at] == r[0] && p[at + 1] == r[1] && p[at + 2] == r[2] && p[at + 3] == r[3];
  }

  lemma WritesWhatWasRead(p: seq<byte>, at: nat)
    requires at + 4 <= |p|
    ensures p[at..at + 4] == WriteU32(ReadU32(p, at))
  {
    var b0: int, b1: int, b2: int, b3: int := p[at], p[at + 1], p[at + 2], p[at + 3];
    LowDigit(b0, b1 + 0x100 * (b2 + 0x100 * b3));
    LowDigit(b1, b2 + 0x100 * b3);
    LowDigit(b2, b3);
    assert p[at..at + 4] == [b0, b1, b2, b3];
  }

  /** A word only depends on its own bytes. */
  lemma ReadsSame(p: seq<byte>, at: nat, q: seq<byte>, to: nat)
    requires at + 4 <= |p| && to + 4 <= |q|
    requires p[at..at + 4] == q[to..to + 4]
    ensures ReadU32(p, at) == ReadU32(q, to)
  {
    var r := p[at..at + 4];
    assert p[at] == r[0] && p[at + 1] == r[1] && p[at + 2] == r[2] && p[at + 3] == r[3];
    assert q[to] == r[0] && q[to + 1] == r[1] && q[to + 2] == r[2] && q[to + 3] == r[3];
  }

  /** Exclusive or, bit by bit. */
  function Xor(a: nat, b: nat): nat
    decreases a + b
  {
    if a == 0 && b == 0 then 0 else (a % 2 + b % 2) % 2 + 2 * Xor(a / 2, b / 2)
  }

  lemma {:induction false} XorZero(a: nat)
    ensures Xor(a, 0) == a && Xor(0, a) == a
  {
    if a != 0 {
      XorZero(a / 2);
    }
  }

  lemma XorHalves(a: nat, b: nat)
    ensures Xor(a, b) / 2 == Xor(a / 2, b / 2)
    ensures Xor(a, b) % 2 == (a % 2 + b % 2) % 2
  {
  }

  /** Applying the same operand twice cancels. */
  lemma {:induction false} XorTwice(a: nat, b: nat)
    ensures Xor(Xor(a, b), b) == a
    decreases a + b
  {
    if a != 0 || b != 0 {
      XorTwice(a / 2, b / 2);
      XorHalves(a, b);
      XorHalves(Xor(a, b), b);
      ParityTwice(a % 2, b % 2);
      SameHalves(Xor(Xor(a, b), b), a);
    }
  }

  lemma ParityTwice(p: nat, q: nat)
    requires p < 2 && q < 2
    ensures ((p + q) % 2 + q) % 2 == p
  {
  }

  lemma SameHalves(x: nat, y: nat)
    requires x / 2 == y / 2 && x % 2 == y % 2
    ensures x == y
  {
  }

  lemma {:induction false} XorCommutes(a: nat, b: nat)
    ensures Xor(a, b) == Xor(b, a)
    decreases a + b
  {
    if a != 0 || b != 0 {
      XorCommutes(a / 2, b / 2);
    }
  }

  lemma XorLeftInjective(a: nat, b: nat, c: nat)
    ensures Xor(a, c) == Xor(b, c) ==> a == b
  {
    XorTwice(a, c);
    XorTwice(b, c);
  }

  lemma XorRightInjective(a: nat, b: nat, c: nat)
    ensures Xor(c, a) == Xor(c, b) ==> a == b
  {
    XorCommutes(c, a);
    XorCommutes(c, b);
    XorLeftInjective(a, b, c);
  }

  /** Numbers below a power of two stay below it. */
  lemma {:induction false} XorBelow(a: nat, b: nat, bits: nat)
    requires a < Pow2(bits) && b < Pow2(bits)
    ensures Xor(a, b) < Pow2(bits)
  {
    if bits != 0 {
      XorBelow(a / 2, b / 2, bits - 1);
    }
  }

  function Pow2(n: nat): nat {
    if n == 0 then 1 else 2 * Pow2(n - 1)
  }

  function XorByte(a: byte, b: byte): byte {
    assert Pow2(8) == 256 by {
      assert Pow2(4) == 16;
    }
    XorBelow(a, b, 8);
    Xor(a, b)
  }
}
