/** Base64 as src/system/crypto.cc writes and reads it (section 4 of RFC 4648). */
module Base64 {
  import opened Words

  // ---------------------------------------------------------------- the alphabet

  type sextet = x: int | 0 <= x < 64

  function Letter(v: sextet): char {
    if v < 26 then 'A' + v as char
    else if v < 52 then 'a' + (v - 26) as char
    else if v < 62 then '0' + (v - 52) as char
    else if v == 62 then '+' else '/'
  }

  /** `kB64Inv`: -1 for what is not in the alphabet. */
  function Inverse(c: char): (v: int)
    ensures -1 <= v < 64
  {
    if 'A' <= c <= 'Z' then (c - 'A') as int
    else if 'a' <= c <= 'z' then (c - 'a') as int + 26
    else if '0' <= c <= '9' then (c - '0') as int + 52
    else if c == '+' then 62
    else if c == '/' then 63
    else -1
  }

  /**
    The alphabet in its ordered ranges: 0 to 25 are 'A' to 'Z', 26 to 51 'a' to 'z', 52 to 61 the
    digits, 62 '+' and 63 '/', each range in its order; and the inverse table is its inverse, with
    -1 for every other character.
   */
  lemma Alphabet(u: sextet, v: sextet, c: char)
    ensures u < 26 <==> 'A' <= Letter(u) <= 'Z'
    ensures 26 <= u < 52 <==> 'a' <= Letter(u) <= 'z'
    ensures 52 <= u < 62 <==> '0' <= Letter(u) <= '9'
    ensures Letter(62) == '+' && Letter(63) == '/'
    ensures u < v < 26 || 26 <= u < v < 52 || 52 <= u < v < 62 ==> Letter(u) < Letter(v)
    ensures Inverse(c) == v <==> Letter(v) == c
    ensures Inverse(c) == -1 <==> !('A' <= c <= 'Z' || 'a' <= c <= 'z' || '0' <= c <= '9' || c == '+' || c == '/')
  {
  }

  lemma InverseOfLetter(v: sextet)
    ensures Inverse(Letter(v)) == v && Letter(v) != '='
  {
  }

  // ---------------------------------------------------------------- encoding

  /** Up to three bytes in one word, missing ones as zero. */
  function Group(data: seq<byte>): int
    requires data != []
  {
    var b0: int, b1: int, b2: int := data[0], if |data| > 1 then data[1] else 0, if |data| > 2 then data[2] else 0;
    b0 * 0x10000 + b1 * 0x100 + b2
  }

  function GroupText(data: seq<byte>): (t: string)
    requires data != []
    ensures |t| == 4
  {
    var n := Group(data);
    [Letter(n / 0x40000 % 64), Letter(n / 0x1000 % 64),
     if |data| > 1 then Letter(n / 0x40 % 64) else '=',
     if |data| > 2 then Letter(n % 64) else '=']
  }

  function Rest(data: seq<byte>): seq<byte> {
    if |data| <= 3 then [] else data[3..]
  }

  function Encoded(data: seq<byte>): string
    decreases |data|
  {
    if data == [] then [] else GroupText(data) + Encoded(Rest(data))
  }

  /** Four letters for every three bytes begun. */
  lemma {:induction false} EncodedLength(data: seq<byte>)
    ensures |Encoded(data)| == 4 * ((|data| + 2) / 3)
    decreases |data|
  {
    if |data| > 3 {
      EncodedLength(Rest(data));
      assert (|data| + 2) / 3 == (|data| - 3 + 2) / 3 + 1;
    } else if data != [] {
      assert (|data| + 2) / 3 == 1 && Encoded(Rest(data)) == [];
    }
  }

  // ---------------------------------------------------------------- decoding

  /** The 32-bit accumulator, how many of its low bits are still to be used, and the bytes produced. */
  datatype Reader = Reader(bits: u32, count: nat, bytes: seq<byte>)

  function Shift(bits: u32, v: sextet): u32 {
    (bits * 64 + v) % 0x1_0000_0000
  }

  function Low(bits: u32, count: nat): byte
    requires count == 0 || count == 2 || count == 4
  {
    bits / (if count == 0 then 1 else if count == 2 then 4 else 16) % 0x100
  }

  predicate Ready(r: Reader) {
    r.count == 0 || r.count == 2 || r.count == 4 || r.count == 6
  }

  /** Six more bits; a byte is produced when eight are on hand. */
  function Take(r: Reader, v: sextet): (r2: Reader)
    requires Ready(r)
    ensures Ready(r2)
  {
    var bits := Shift(r.bits, v);
    if r.count + 6 < 8 then Reader(bits, r.count + 6, r.bytes)
    else Reader(bits, r.count - 2, r.bytes + [Low(bits, r.count - 2)])
  }

  /** The letters up to the end or a padding sign; anything outside the alphabet is skipped. */
  function ReadFrom(r: Reader, text: string): seq<byte>
    requires Ready(r)
    decreases |text|
  {
    if text == [] || text[0] == '=' then r.bytes
    else if Inverse(text[0]) < 0 then ReadFrom(r, text[1..])
    else ReadFrom(Take(r, Inverse(text[0])), text[1..])
  }

  function Decoded(text: string): seq<byte> {
    ReadFrom(Reader(0, 0, []), text)
  }

  // ---------------------------------------------------------------- what does not matter

  /** Characters outside the alphabet, other than the padding sign, may stand anywhere. */
  lemma {:induction false} InsertedIsSkipped(r: Reader, a: string, c: char, b: string)
    requires Ready(r) && Inverse(c) < 0 && c != '='
    ensures ReadFrom(r, a + [c] + b) == ReadFrom(r, a + b)
    decreases |a|
  {
    if a == [] {
      assert (a + [c] + b)[1..] == b && a + b == b;
    } else {
      assert (a + [c] + b)[1..] == a[1..] + [c] + b && (a + b)[1..] == a[1..] + b;
      if a[0] != '=' {
        InsertedIsSkipped(if Inverse(a[0]) < 0 then r else Take(r, Inverse(a[0])), a[1..], c, b);
      }
    }
  }

  lemma InsertionKeepsDecoded(a: string, c: char, b: string)
    requires Inverse(c) < 0 && c != '='
    ensures Decoded(a + [c] + b) == Decoded(a + b)
  {
    InsertedIsSkipped(Reader(0, 0, []), a, c, b);
  }

  /** Nothing behind a padding sign is read. */
  lemma {:induction false} PaddingEnds(r: Reader, a: string, b: string)
    requires Ready(r)
    ensures ReadFrom(r, a + ['='] + b) == ReadFrom(r, a)
    decreases |a|
  {
    if a == [] {
      assert (a + ['='] + b)[0] == '=';
    } else {
      assert (a + ['='] + b)[1..] == a[1..] + ['='] + b;
      if a[0] != '=' {
        PaddingEnds(if Inverse(a[0]) < 0 then r else Take(r, Inverse(a[0])), a[1..], b);
      }
    }
  }

  // ---------------------------------------------------------------- the round trip

  lemma DropHigh(high: int, low: int)
    requires 0 <= low < 0x1_0000_0000
    ensures (high * 0x1_0000_0000 + low) % 0x1_0000_0000 == low
  {
  }

  /** Shifting within 32 bits drops the six oldest. */
  lemma ShiftExact(bits: u32, v: sextet)
    ensures Shift(bits, v) == bits % 0x400_0000 * 64 + v
  {
    var high, low := bits / 0x400_0000, bits % 0x400_0000;
    assert bits * 64 + v == high * 0x1_0000_0000 + (low * 64 + v);
    DropHigh(high, low * 64 + v);
  }

  lemma Split4(q: int, r: int)
    requires 0 <= r < 4
    ensures (q * 4 + r) / 4 == q && (q * 4 + r) % 4 == r
  {
  }

  lemma Split16(q: int, r: int)
    requires 0 <= r < 16
    ensures (q * 16 + r) / 16 == q && (q * 16 + r) % 16 == r
  {
  }

  lemma Split64(q: int, r: int)
    requires 0 <= r < 64
    ensures (q * 64 + r) / 64 == q && (q * 64 + r) % 64 == r
  {
  }

  lemma Split256(q: int, r: int)
    requires 0 <= r < 256
    ensures (q * 256 + r) / 256 == q && (q * 256 + r) % 256 == r
  {
  }

  lemma Split1024(q: int, r: int)
    requires 0 <= r < 1024
    ensures (q * 1024 + r) / 1024 == q && (q * 1024 + r) % 1024 == r
  {
  }

  lemma Split4096(q: int, r: int)
    requires 0 <= r < 4096
    ensures (q * 4096 + r) / 4096 == q && (q * 4096 + r) % 4096 == r
  {
  }

  /** So the last twelve bits are the last two sextets. */
  lemma ShiftLow(bits: u32, v: sextet)
    ensures Shift(bits, v) % 4096 == bits % 64 * 64 + v && Shift(bits, v) % 64 == v
  {
    ShiftExact(bits, v);
    var high, low := bits / 0x400_0000, bits % 0x400_0000;
    var top, six := low / 64, low % 64;
    assert bits == (high * 0x10_0000 + top) * 64 + six;
    Split64(high * 0x10_0000 + top, six);
    Split4096(top, six * 64 + v);
    Split64(top * 64 + six, v);
  }

  /** A byte taken from the accumulator depends on its last twelve bits only. */
  lemma LowOf(bits: u32, last: int)
    requires last == bits % 4096
    ensures Low(bits, 4) == last / 16 && Low(bits, 2) == last % 1024 / 4 && Low(bits, 0) == last % 256
  {
    var high := bits / 4096;
    assert bits == high * 4096 + last;
    LowFour(high, last / 16, last % 16);
    MiddleOf(high, last);
    LastOf(high, last);
  }

  lemma MiddleOf(high: int, last: int)
    requires 0 <= last < 4096
    ensures (high * 4096 + last) / 4 % 256 == last % 1024 / 4
  {
    var u, w := last / 1024, last % 1024;
    assert last == u * 1024 + w;
    LowTwo(high, u, w / 4, w % 4);
  }

  lemma LastOf(high: int, last: int)
    requires 0 <= last < 4096
    ensures (high * 4096 + last) % 256 == last % 256
  {
    var u, w := last / 256, last % 256;
    assert last == u * 256 + w;
    Split256(high * 16 + u, w);
  }

  lemma LowFour(high: int, p: int, q: int)
    requires 0 <= p < 256 && 0 <= q < 16
    ensures (high * 4096 + (p * 16 + q)) / 16 % 256 == p
  {
    Split16(high * 256 + p, q);
    Split256(high, p);
  }

  lemma LowTwo(high: int, u: int, p: int, q: int)
    requires 0 <= p < 256 && 0 <= q < 4
    ensures (high * 4096 + (u * 1024 + (p * 4 + q))) / 4 % 256 == p
  {
    Split4((high * 4 + u) * 256 + p, q);
    Split256(high * 4 + u, p);
  }

  /** The four sextets of a 24-bit word. */
  lemma SextetsOf(n: int)
    requires 0 <= n < 0x100_0000
    ensures var a, b, c, d := n / 0x40000 % 64, n / 0x1000 % 64, n / 0x40 % 64, n % 64;
            n == ((a * 64 + b) * 64 + c) * 64 + d
  {
    assert n / 0x40 == n / 0x1000 * 64 + n / 0x40 % 64;
    assert n / 0x1000 == n / 0x40000 * 64 + n / 0x1000 % 64;
  }

  /** Four sextets give three bytes, whatever was in the accumulator. */
  lemma TakeFour(r: Reader, a: sextet, b: sextet, c: sextet, d: sextet)
    requires r.count == 0
    ensures Take(Take(r, a), b).count == 4 && Take(Take(r, a), b).bytes == r.bytes + [(a * 64 + b) / 16]
    ensures var three := Take(Take(Take(r, a), b), c);
            three.count == 2 && three.bytes == r.bytes + [(a * 64 + b) / 16, (b * 64 + c) % 1024 / 4]
    ensures var four := Take(Take(Take(Take(r, a), b), c), d);
            && four.count == 0
            && four.bytes == r.bytes + [(a * 64 + b) / 16, (b * 64 + c) % 1024 / 4, (c * 64 + d) % 256]
  {
    var r1 := Take(r, a);
    var r2 := Take(r1, b);
    var r3 := Take(r2, c);
    ShiftLow(r.bits, a);
    ShiftLow(r1.bits, b);
    ShiftLow(r2.bits, c);
    ShiftLow(r3.bits, d);
    LowOf(r2.bits, a * 64 + b);
    LowOf(r3.bits, b * 64 + c);
    LowOf(Shift(r3.bits, d), c * 64 + d);
  }

  /** The first and last byte of a word, from its sextets taken in pairs. */
  lemma OuterBytes(b0: int, b1: int, b2: int, ab: int, cd: int)
    requires 0 <= b0 < 256 && 0 <= b1 < 256 && 0 <= b2 < 256 && 0 <= cd < 4096
    requires b0 * 0x10000 + b1 * 256 + b2 == ab * 4096 + cd
    ensures ab / 16 == b0 && cd % 256 == b2
  {
    var p, q := b1 / 16, b1 % 16;
    Split4096(ab, cd);
    Split4096(b0 * 16 + p, q * 256 + b2);
    Split16(b0, p);
    Split256(q, b2);
  }

  /** The byte in the middle. */
  lemma InnerByte(b0: int, b1: int, b2: int, a: int, bc: int, d: int)
    requires 0 <= b0 < 256 && 0 <= b1 < 256 && 0 <= b2 < 256 && 0 <= d < 64 && 0 <= bc < 4096
    requires b0 * 0x10000 + b1 * 256 + b2 == a * 0x40000 + bc * 64 + d
    ensures bc % 1024 / 4 == b1
  {
    var s, t := b2 / 64, b2 % 64;
    Split64(a * 4096 + bc, d);
    Split64(b0 * 1024 + b1 * 4 + s, t);
    var u, w := bc / 1024, bc % 1024;
    Split1024(a * 4 + u, w);
    Split1024(b0, b1 * 4 + s);
    Split4(b1, s);
  }

  lemma BytesOfWord(b0: int, b1: int, b2: int, n: int, a: int, b: int, c: int, d: int)
    requires 0 <= b0 < 256 && 0 <= b1 < 256 && 0 <= b2 < 256 && n == b0 * 0x10000 + b1 * 256 + b2
    requires a == n / 0x40000 % 64 && b == n / 0x1000 % 64 && c == n / 0x40 % 64 && d == n % 64
    ensures (a * 64 + b) / 16 == b0 && (b * 64 + c) % 1024 / 4 == b1 && (c * 64 + d) % 256 == b2
  {
    SextetsOf(n);
    OuterBytes(b0, b1, b2, a * 64 + b, c * 64 + d);
    InnerByte(b0, b1, b2, a, b * 64 + c, d);
  }

  /** A letter at the front is taken. */
  lemma ReadLetter(r: Reader, v: sextet, text: string)
    requires Ready(r) && text != [] && text[0] == Letter(v)
    ensures ReadFrom(r, text) == ReadFrom(Take(r, v), text[1..])
  {
    InverseOfLetter(v);
  }

  function TakeAll(r: Reader, a: sextet, b: sextet, c: sextet, d: sextet): (r2: Reader)
    requires Ready(r)
    ensures Ready(r2)
  {
    Take(Take(Take(Take(r, a), b), c), d)
  }

  lemma ReadFour(r: Reader, a: sextet, b: sextet, c: sextet, d: sextet, text: string)
    requires Ready(r) && |text| >= 4 && text[0] == Letter(a) && text[1] == Letter(b)
    ensures text[2] == '=' ==> ReadFrom(r, text) == Take(Take(r, a), b).bytes
    ensures text[2] == Letter(c) && text[3] == '=' ==> ReadFrom(r, text) == Take(Take(Take(r, a), b), c).bytes
    ensures text[2] == Letter(c) && text[3] == Letter(d) ==> ReadFrom(r, text) == ReadFrom(TakeAll(r, a, b, c, d), text[4..])
  {
    ReadLetter(r, a, text);
    ReadLetter(Take(r, a), b, text[1..]);
    assert text[1..][1..] == text[2..];
    var r2 := Take(Take(r, a), b);
    InverseOfLetter(c);
    InverseOfLetter(d);
    if text[2] == Letter(c) {
      ReadLetter(r2, c, text[2..]);
      assert text[2..][1..] == text[3..];
      if text[3] == Letter(d) {
        ReadLetter(Take(r2, c), d, text[3..]);
        assert text[3..][1..] == text[4..];
      }
    }
  }

  /** Reading a whole group goes on behind it with its bytes added. */
  lemma ReadGroup(r: Reader, data: seq<byte>, rest: string) returns (r2: Reader)
    requires r.count == 0 && data != []
    ensures r2.count == 0
    ensures |data| >= 3 ==>
              r2.bytes == r.bytes + data[..3] && ReadFrom(r, GroupText(data) + rest) == ReadFrom(r2, rest)
    ensures |data| < 3 ==> ReadFrom(r, GroupText(data) + rest) == r.bytes + data
  {
    var b0: int, b1: int, b2: int := data[0], if |data| > 1 then data[1] else 0, if |data| > 2 then data[2] else 0;
    var n := Group(data);
    var a, b, c, d := n / 0x40000 % 64, n / 0x1000 % 64, n / 0x40 % 64, n % 64;
    BytesOfWord(b0, b1, b2, n, a, b, c, d);
    TakeFour(r, a, b, c, d);
    var text := GroupText(data) + rest;
    ReadFour(r, a, b, c, d, text);
    r2 := TakeAll(r, a, b, c, d);
    assert text[4..] == rest;
    if |data| == 1 {
      assert data == [b0];
    } else if |data| == 2 {
      assert data == [b0, b1];
    } else {
      assert data[..3] == [b0, b1, b2];
    }
  }

  lemma Regroup(bytes: seq<byte>, data: seq<byte>)
    requires |data| >= 3
    ensures bytes + data[..3] + Rest(data) == bytes + data
  {
    assert data == data[..3] + Rest(data);
  }

  lemma {:induction false} ReadEncoded(r: Reader, data: seq<byte>)
    requires r.count == 0
    ensures ReadFrom(r, Encoded(data)) == r.bytes + data
    decreases |data|
  {
    if data == [] {
      assert r.bytes + data == r.bytes;
    } else {
      var r2 := ReadGroup(r, data, Encoded(Rest(data)));
      if |data| >= 3 {
        ReadEncoded(r2, Rest(data));
        Regroup(r.bytes, data);
      }
    }
  }

  /** Decoding what was encoded gives it back. */
  lemma RoundTrip(data: seq<byte>)
    ensures Decoded(Encoded(data)) == data
  {
    ReadEncoded(Reader(0, 0, []), data);
    assert [] + data == data;
  }

  // ---------------------------------------------------------------- the loops

  /** `base64_encode`. */
  method Encode(data: seq<byte>) returns (text: string)
    ensures text == Encoded(data)
  {
    text := [];
    var i := 0;
    while i < |data|
      invariant 0 <= i
      invariant text + Encoded(if i <= |data| then data[i..] else []) == Encoded(data)
      decreases |data| - i
    {
      var left := data[i..];
      var n := (data[i] as int) * 0x10000;
      if i + 1 < |data| {
        n := n + (data[i + 1] as int) * 0x100;
      }
      if i + 2 < |data| {
        n := n + data[i + 2];
      }
      assert n == Group(left);
      var group := [Letter(n / 0x40000 % 64), Letter(n / 0x1000 % 64),
                    if i + 1 < |data| then Letter(n / 0x40 % 64) else '=',
                    if i + 2 < |data| then Letter(n % 64) else '='];
      assert group == GroupText(left);
      assert Rest(left) == if i + 3 <= |data| then data[i + 3..] else [];
      text := text + group;
      i := i + 3;
    }
  }

  /** `base64_decode`. */
  method Decode(text: string) returns (bytes: seq<byte>)
    ensures bytes == Decoded(text)
  {
    bytes := [];
    var bits: u32, count, i := 0, 0, 0;
    while i < |text|
      invariant i <= |text| && Ready(Reader(bits, count, bytes))
      invariant ReadFrom(Reader(bits, count, bytes), text[i..]) == Decoded(text)
    {
      assert text[i..][0] == text[i] && text[i..][1..] == text[i + 1..];
      if text[i] == '=' {
        break;
      }
      var v := Inverse(text[i]);
      i := i + 1;
      if v < 0 {
        continue;
      }
      bits := (bits * 64 + v) % 0x1_0000_0000;
      count := count + 6;
      if count >= 8 {
        count := count - 8;
        bytes := bytes + [Low(bits, count)];
      }
    }
  }

  // ---------------------------------------------------------------- bit by bit

  function PowerOfTwo(k: nat): int
    requires k < 8
  {
    if k == 0 then 1 else if k == 1 then 2 else if k == 2 then 4 else if k == 3 then 8
    else if k == 4 then 16 else if k == 5 then 32 else if k == 6 then 64 else 128
  }

  /** Bit `i` of the data, the most significant bit of each byte first; past the end there are zeros. */
  function Bit(data: seq<byte>, i: nat): (bit: int)
    ensures 0 <= bit <= 1
  {
    if i / 8 < |data| then data[i / 8] / PowerOfTwo(7 - i % 8) % 2 else 0
  }

  /** Six bits as a number. */
  function SixBits(data: seq<byte>, i: nat): sextet {
    32 * Bit(data, i) + 16 * Bit(data, i + 1) + 8 * Bit(data, i + 2)
    + 4 * Bit(data, i + 3) + 2 * Bit(data, i + 4) + Bit(data, i + 5)
  }

  /** A byte, or zero where there is none. */
  function ByteAt(data: seq<byte>, i: nat): byte {
    if i < |data| then data[i] else 0
  }

  /** Every bit but the first takes half of what is left. */
  lemma LowHalves(b: byte)
    ensures b == 2 * (b / 2) + b % 2
    ensures b / 2 == 2 * (b / 4) + b / 2 % 2
    ensures b / 4 == 2 * (b / 8) + b / 4 % 2
  {
  }

  lemma MiddleHalves(b: byte)
    ensures b / 8 == 2 * (b / 16) + b / 8 % 2
    ensures b / 16 == 2 * (b / 32) + b / 16 % 2
  {
  }

  lemma HighHalves(b: byte)
    ensures b / 32 == 2 * (b / 64) + b / 32 % 2
    ensures b / 64 == 2 * (b / 128) + b / 64 % 2
    ensures b / 128 == b / 128 % 2
  {
  }

  /** The bits that go into each sextet. */
  lemma ByteBits(b: byte)
    ensures b / 4 == 32 * (b / 128 % 2) + 16 * (b / 64 % 2) + 8 * (b / 32 % 2) + 4 * (b / 16 % 2)
                     + 2 * (b / 8 % 2) + b / 4 % 2
    ensures b % 4 == 2 * (b / 2 % 2) + b % 2
    ensures b / 16 == 8 * (b / 128 % 2) + 4 * (b / 64 % 2) + 2 * (b / 32 % 2) + b / 16 % 2
    ensures b % 16 == 8 * (b / 8 % 2) + 4 * (b / 4 % 2) + 2 * (b / 2 % 2) + b % 2
    ensures b / 64 == 2 * (b / 128 % 2) + b / 64 % 2
    ensures b % 64 == 32 * (b / 32 % 2) + 16 * (b / 16 % 2) + 8 * (b / 8 % 2) + 4 * (b / 4 % 2) + 2 * (b / 2 % 2) + b % 2
  {
    LowHalves(b);
    MiddleHalves(b);
    HighHalves(b);
  }

  lemma BitOfByte(data: seq<byte>, q: nat, k: nat)
    requires k < 8
    ensures Bit(data, 8 * q + k) == ByteAt(data, q) / PowerOfTwo(7 - k) % 2
  {
    assert (8 * q + k) / 8 == q && (8 * q + k) % 8 == k;
  }

  lemma HighBits(data: seq<byte>, q: nat, b: byte)
    requires b == ByteAt(data, q)
    ensures Bit(data, 8 * q) == b / 128 % 2 && Bit(data, 8 * q + 1) == b / 64 % 2
    ensures Bit(data, 8 * q + 2) == b / 32 % 2 && Bit(data, 8 * q + 3) == b / 16 % 2
  {
    BitOfByte(data, q, 0);
    BitOfByte(data, q, 1);
    BitOfByte(data, q, 2);
    BitOfByte(data, q, 3);
  }

  lemma LowBits(data: seq<byte>, q: nat, b: byte)
    requires b == ByteAt(data, q)
    ensures Bit(data, 8 * q + 4) == b / 8 % 2 && Bit(data, 8 * q + 5) == b / 4 % 2
    ensures Bit(data, 8 * q + 6) == b / 2 % 2 && Bit(data, 8 * q + 7) == b % 2
  {
    BitOfByte(data, q, 4);
    BitOfByte(data, q, 5);
    BitOfByte(data, q, 6);
    BitOfByte(data, q, 7);
  }

  /** The sextets that the first three bytes make, from their bits. */
  lemma OuterSextets(data: seq<byte>, b0: byte, b2: byte)
    requires b0 == ByteAt(data, 0) && b2 == ByteAt(data, 2)
    ensures SixBits(data, 0) == b0 / 4 && SixBits(data, 18) == b2 % 64
  {
    HighBits(data, 0, b0);
    LowBits(data, 0, b0);
    HighBits(data, 2, b2);
    LowBits(data, 2, b2);
    ByteBits(b0);
    ByteBits(b2);
  }

  lemma InnerSextets(data: seq<byte>, b0: byte, b1: byte, b2: byte)
    requires b0 == ByteAt(data, 0) && b1 == ByteAt(data, 1) && b2 == ByteAt(data, 2)
    ensures SixBits(data, 6) == b0 % 4 * 16 + b1 / 16 && SixBits(data, 12) == b1 % 16 * 4 + b2 / 64
  {
    LowBits(data, 0, b0);
    HighBits(data, 1, b1);
    LowBits(data, 1, b1);
    HighBits(data, 2, b2);
    ByteBits(b0);
    ByteBits(b1);
    ByteBits(b2);
  }

  lemma SplitWord(q: int, r: int)
    requires 0 <= r < 0x40000
    ensures (q * 0x40000 + r) / 0x40000 == q
  {
  }

  lemma WordSextets(b0: int, b1: int, b2: int, u: int, v: int, w: int, x: int, y: int, z: int, n: int)
    requires 0 <= u < 64 && 0 <= v < 4 && 0 <= w < 16 && 0 <= x < 16 && 0 <= y < 4 && 0 <= z < 64
    requires b0 == 4 * u + v && b1 == 16 * w + x && b2 == 64 * y + z
    requires n == b0 * 0x10000 + b1 * 0x100 + b2
    ensures n / 0x40000 % 64 == u && n / 0x1000 % 64 == 16 * v + w && n / 0x40 % 64 == 4 * x + y && n % 64 == z
  {
    SplitWord(u, v * 0x10000 + b1 * 0x100 + b2);
    Split4096(b0 * 16 + w, x * 0x100 + b2);
    Split64(u, 16 * v + w);
    Split64((b0 * 0x100 + b1) * 4 + y, z);
    Split64(b0 * 16 + w, 4 * x + y);
    assert n == u * 0x40000 + (v * 0x10000 + b1 * 0x100 + b2);
    assert n == (b0 * 16 + w) * 0x1000 + (x * 0x100 + b2) && b0 * 16 + w == u * 64 + (16 * v + w);
    assert n == ((b0 * 0x100 + b1) * 4 + y) * 64 + z && (b0 * 0x100 + b1) * 4 + y == (b0 * 16 + w) * 64 + (4 * x + y);
  }

  /** Three bytes on, the bits are those of the rest. */
  lemma BitOfRest(data: seq<byte>, i: nat)
    requires |data| > 3
    ensures Bit(data, i + 24) == Bit(Rest(data), i)
  {
    assert (i + 24) / 8 == i / 8 + 3 && (i + 24) % 8 == i % 8;
  }

  lemma SixBitsOfRest(data: seq<byte>, i: nat)
    requires |data| > 3
    ensures SixBits(data, i + 24) == SixBits(Rest(data), i)
  {
    BitOfRest(data, i);
    BitOfRest(data, i + 1);
    BitOfRest(data, i + 2);
    BitOfRest(data, i + 3);
    BitOfRest(data, i + 4);
    BitOfRest(data, i + 5);
  }

  lemma GroupOfBits(data: seq<byte>)
    requires data != []
    ensures GroupText(data) == [Letter(SixBits(data, 0)), Letter(SixBits(data, 6)),
                                if |data| > 1 then Letter(SixBits(data, 12)) else '=',
                                if |data| > 2 then Letter(SixBits(data, 18)) else '=']
  {
    var b0, b1, b2 := ByteAt(data, 0), ByteAt(data, 1), ByteAt(data, 2);
    OuterSextets(data, b0, b2);
    InnerSextets(data, b0, b1, b2);
    WordSextets(b0, b1, b2, b0 / 4, b0 % 4, b1 / 16, b1 % 16, b2 / 64, b2 % 64, Group(data));
  }

  /** Letter `p` of the text: the next six bits, or padding when the bits are used up. */
  function LetterAt(data: seq<byte>, p: nat): char {
    if 6 * p < 8 * |data| then Letter(SixBits(data, 6 * p)) else '='
  }

  lemma FirstLetters(data: seq<byte>, p: nat)
    requires data != [] && p < 4
    ensures GroupText(data)[p] == LetterAt(data, p)
  {
    GroupOfBits(data);
  }

  lemma LetterOfRest(data: seq<byte>, p: nat)
    requires |data| > 3 && p >= 4
    ensures LetterAt(data, p) == LetterAt(Rest(data), p - 4)
  {
    var rest, i := Rest(data), 6 * (p - 4);
    SixBitsOfRest(data, i);
    assert i + 24 == 6 * p && 8 * |rest| + 24 == 8 * |data|;
  }

  /**
    The text is the data cut into six bits after six, zeros added to fill the last letter, each
    written as its letter; padding signs follow up to a multiple of four.
   */
  lemma {:induction false} EncodedBits(data: seq<byte>, p: nat)
    requires p < |Encoded(data)|
    ensures Encoded(data)[p] == LetterAt(data, p)
    decreases |data|
  {
    assert Encoded(data) == GroupText(data) + Encoded(Rest(data));
    if p < 4 {
      FirstLetters(data, p);
    } else {
      EncodedBits(Rest(data), p - 4);
      LetterOfRest(data, p);
    }
  }
}
