/**
  The woven parity stream of a `.star` section (src/engine/star_parser.cc).

  Data is cut into blocks of 64 bytes; each block is followed by twelve bytes holding its
  xor, a rolling FNV-1a value chained over the xors so far, and its index.
 */
module StarParity {
  import opened Wrappers
  import opened Words

  const STRIDE: nat := 64
  const TRAILER: nat := 12
  const SEED: u32 := 0xA7C3E91F

  // ---------------------------------------------------------------- the rolling chain

  /** A word xor a zero-extended byte: only the low eight bits change. */
  function XorLow(hash: u32, b: byte): u32 {
    hash - hash % 0x100 + XorByte(hash % 0x100, b)
  }

  /** `fnv1a_step`: 32-bit arithmetic drops the high bits of the product with the FNV prime. */
  function FnvStep(hash: u32, b: byte): u32 {
    XorLow(hash, b) * 0x0100_0193 % 0x1_0000_0000
  }

  /** `fnv1a_u32`. */
  function FnvU32(state: u32, value: u32): u32 {
    var p := WriteU32(value);
    FnvStep(FnvStep(FnvStep(FnvStep(state, p[0]), p[1]), p[2]), p[3])
  }

  /** The prime is odd: 0x359C449B inverts it modulo 2^32, with 0x359C99 multiples of 2^32 to spare. */
  lemma SameProduct(x: int, y: int, p: int, q: int, r: int)
    requires 0 <= x < 0x1_0000_0000 && 0 <= y < 0x1_0000_0000
    requires x * 0x0100_0193 == p * 0x1_0000_0000 + r && y * 0x0100_0193 == q * 0x1_0000_0000 + r
    ensures x == y
  {
    var d, e := x - y, p - q;
    assert d * 0x0100_0193 == e * 0x1_0000_0000;
    assert d * (0x0100_0193 * 0x359C449B) == e * 0x359C449B * 0x1_0000_0000;
    assert 0x0100_0193 * 0x359C449B == 1 + 0x359C99 * 0x1_0000_0000;
    assert d == (e * 0x359C449B - d * 0x359C99) * 0x1_0000_0000;
  }

  lemma PrimeInvertible(x: u32, y: u32)
    requires x * 0x0100_0193 % 0x1_0000_0000 == y * 0x0100_0193 % 0x1_0000_0000
    ensures x == y
  {
    SameProduct(x, y, x * 0x0100_0193 / 0x1_0000_0000, y * 0x0100_0193 / 0x1_0000_0000, x * 0x0100_0193 % 0x1_0000_0000);
  }

  lemma FnvStepInState(h1: u32, h2: u32, b: byte)
    requires FnvStep(h1, b) == FnvStep(h2, b)
    ensures h1 == h2
  {
    PrimeInvertible(XorLow(h1, b), XorLow(h2, b));
    XorLeftInjective(h1 % 0x100, h2 % 0x100, b);
  }

  lemma FnvStepInByte(h: u32, b1: byte, b2: byte)
    requires FnvStep(h, b1) == FnvStep(h, b2)
    ensures b1 == b2
  {
    PrimeInvertible(XorLow(h, b1), XorLow(h, b2));
    XorRightInjective(b1, b2, h % 0x100);
  }

  /** For a fixed block xor the chain is injective in its state. */
  lemma ChainInState(s1: u32, s2: u32, value: u32)
    ensures FnvU32(s1, value) == FnvU32(s2, value) ==> s1 == s2
  {
    if FnvU32(s1, value) == FnvU32(s2, value) {
      var p := WriteU32(value);
      var a1, a2 := FnvStep(s1, p[0]), FnvStep(s2, p[0]);
      var b1, b2 := FnvStep(a1, p[1]), FnvStep(a2, p[1]);
      var c1, c2 := FnvStep(b1, p[2]), FnvStep(b2, p[2]);
      FnvStepInState(c1, c2, p[3]);
      FnvStepInState(b1, b2, p[2]);
      FnvStepInState(a1, a2, p[1]);
      FnvStepInState(s1, s2, p[0]);
    }
  }

  /** The three steps that `FnvU32` makes for the zero bytes of a small value. */
  function ZeroTail(a: u32): u32 {
    FnvStep(FnvStep(FnvStep(a, 0), 0), 0)
  }

  lemma ZeroTailInjective(a1: u32, a2: u32)
    ensures ZeroTail(a1) == ZeroTail(a2) ==> a1 == a2
  {
    if ZeroTail(a1) == ZeroTail(a2) {
      FnvStepInState(FnvStep(FnvStep(a1, 0), 0), FnvStep(FnvStep(a2, 0), 0), 0);
      FnvStepInState(FnvStep(a1, 0), FnvStep(a2, 0), 0);
      FnvStepInState(a1, a2, 0);
    }
  }

  lemma ChainOfByte(s: u32, v: byte)
    ensures FnvU32(s, v) == ZeroTail(FnvStep(s, v))
  {
    assert WriteU32(v) == [v, 0, 0, 0];
  }

  /** For a fixed state the chain tells any two block xors apart: a xor of bytes is below 256. */
  lemma ChainInValue(s: u32, v1: byte, v2: byte)
    ensures FnvU32(s, v1) == FnvU32(s, v2) ==> v1 == v2
  {
    if FnvU32(s, v1) == FnvU32(s, v2) {
      ChainOfByte(s, v1);
      ChainOfByte(s, v2);
      ZeroTailInjective(FnvStep(s, v1), FnvStep(s, v2));
      FnvStepInByte(s, v1, v2);
    }
  }

  /** How the chain goes on from a state over the xor of a block. */
  type Chain = (u32, byte) -> u32

  /** The chain the format uses; nothing below depends on it but the last section. */
  function FnvChain(state: u32, x: byte): u32 {
    FnvU32(state, x)
  }

  // ---------------------------------------------------------------- stripping

  datatype ParityError =
    | Truncated(block: u32)
    | XorMismatch(block: u32)
    | ChainBroken(block: u32)
    | Reordered(block: u32)

  function BlockXor(d: seq<byte>): byte {
    if d == [] then 0 else XorByte(BlockXor(d[..|d| - 1]), d[|d| - 1])
  }

  /** Data bytes in the first block of a stream with `n` bytes to go. */
  function BlockLen(n: nat): (len: nat)
    requires n >= TRAILER
    ensures len + TRAILER <= n && len <= STRIDE
  {
    if n - TRAILER < STRIDE then n - TRAILER else STRIDE
  }

  function NextIndex(i: u32): u32 {
    if i + 1 == TWO32 then 0 else i + 1
  }

  /** The three tests: what is stored against what is expected. */
  function Verdict(storedXor: u32, storedRoll: u32, storedIndex: u32, x: u32, roll: u32, index: u32): Option<ParityError> {
    if storedXor != x then Some(XorMismatch(index))
    else if storedRoll != roll then Some(ChainBroken(index))
    else if storedIndex != index then Some(Reordered(index))
    else None
  }

  /** The verdict on the first block of `w`. */
  function BlockError(chain: Chain, w: seq<byte>, roll: u32, index: u32): Option<ParityError>
    requires |w| >= TRAILER
  {
    var n := BlockLen(|w|);
    var x := BlockXor(w[..n]);
    Verdict(ReadU32(w, n), ReadU32(w, n + 4), ReadU32(w, n + 8), x, chain(roll, x), index)
  }

  /** What stripping does to the rest of a stream, given the chain so far. */
  function StripFrom(chain: Chain, w: seq<byte>, roll: u32, index: u32): Result<seq<byte>, ParityError>
    decreases |w|
  {
    if w == [] then Ok([])
    else if |w| < TRAILER then Err(Truncated(index))
    else
      var error := BlockError(chain, w, roll, index);
      if error.Some? then Err(error.value)
      else
        var n := BlockLen(|w|);
        var rest := StripFrom(chain, w[n + TRAILER..], chain(roll, BlockXor(w[..n])), NextIndex(index));
        if rest.Ok? then Ok(w[..n] + rest.value) else rest
  }

  function Strip(w: seq<byte>): Result<seq<byte>, ParityError> {
    StripFrom(FnvChain, w, SEED, 0)
  }

  method XorOf(w: seq<byte>, lo: nat, hi: nat) returns (x: byte)
    requires lo <= hi <= |w|
    ensures x == BlockXor(w[lo..hi])
  {
    x := 0;
    for i := lo to hi
      invariant x == BlockXor(w[lo..i])
    {
      assert w[lo..i + 1][..i - lo] == w[lo..i];
      x := XorByte(x, w[i]);
    }
  }

  function Prepend(out: seq<byte>, r: Result<seq<byte>, ParityError>): Result<seq<byte>, ParityError> {
    if r.Ok? then Ok(out + r.value) else r
  }

  lemma PrependNothing(out: seq<byte>, r: Result<seq<byte>, ParityError>)
    ensures Prepend([], r) == r && Prepend(out, Ok([])) == Ok(out)
  {
    assert r.Ok? ==> [] + r.value == r.value;
    assert out + [] == out;
  }

  lemma PrependTwice(a: seq<byte>, b: seq<byte>, r: Result<seq<byte>, ParityError>)
    ensures Prepend(a, Prepend(b, r)) == Prepend(a + b, r)
  {
    if r.Ok? {
      assert a + (b + r.value) == a + b + r.value;
    }
  }

  /** The tests on the block at `pos`, read straight from the whole stream. */
  lemma BlockErrorAt(chain: Chain, w: seq<byte>, pos: nat, roll: u32, index: u32)
    requires pos + TRAILER <= |w|
    ensures var end := pos + BlockLen(|w| - pos);
            var x := BlockXor(w[pos..end]);
            BlockError(chain, w[pos..], roll, index)
            == Verdict(ReadU32(w, end), ReadU32(w, end + 4), ReadU32(w, end + 8), x, chain(roll, x), index)
  {
    var v, n := w[pos..], BlockLen(|w| - pos);
    assert v[..n] == w[pos..pos + n];
    assert v[n..n + 4] == w[pos + n..pos + n + 4];
    assert v[n + 4..n + 8] == w[pos + n + 4..pos + n + 8];
    assert v[n + 8..n + 12] == w[pos + n + 8..pos + n + 12];
    ReadsSame(v, n, w, pos + n);
    ReadsSame(v, n + 4, w, pos + n + 4);
    ReadsSame(v, n + 8, w, pos + n + 8);
  }

  /** A passing first block hands its data to the output and its chain value to the rest. */
  lemma StripPassing(chain: Chain, w: seq<byte>, roll: u32, index: u32)
    requires |w| >= TRAILER && BlockError(chain, w, roll, index).None?
    ensures var n := BlockLen(|w|);
            StripFrom(chain, w, roll, index)
            == Prepend(w[..n], StripFrom(chain, w[n + TRAILER..], chain(roll, BlockXor(w[..n])), NextIndex(index)))
  {
  }

  lemma StripAt(chain: Chain, w: seq<byte>, pos: nat, roll: u32, index: u32)
    requires pos + TRAILER <= |w| && BlockError(chain, w[pos..], roll, index).None?
    ensures var end := pos + BlockLen(|w| - pos);
            var next := chain(roll, BlockXor(w[pos..end]));
            StripFrom(chain, w[pos..], roll, index)
            == Prepend(w[pos..end], StripFrom(chain, w[end + TRAILER..], next, NextIndex(index)))
  {
    var v, n := w[pos..], BlockLen(|w| - pos);
    StripPassing(chain, v, roll, index);
    assert v[..n] == w[pos..pos + n];
    assert v[n + TRAILER..] == w[pos + n + TRAILER..];
  }

  /** The tests `star_strip_parity` makes on one block, and the chain value it expects. */
  method CheckBlock(chain: Chain, w: seq<byte>, pos: nat, end: nat, roll: u32, index: u32)
    returns (error: Option<ParityError>, next: u32)
    requires pos + TRAILER <= |w| && end == pos + BlockLen(|w| - pos)
    ensures error == BlockError(chain, w[pos..], roll, index)
    ensures next == chain(roll, BlockXor(w[pos..end]))
  {
    var x := XorOf(w, pos, end);
    next := chain(roll, x);
    BlockErrorAt(chain, w, pos, roll, index);
    if ReadU32(w, end) != x {
      error := Some(XorMismatch(index));
    } else if ReadU32(w, end + 4) != next {
      error := Some(ChainBroken(index));
    } else if ReadU32(w, end + 8) != index {
      error := Some(Reordered(index));
    } else {
      error := None;
    }
  }

  /** The loop of `star_strip_parity`, for any chain. */
  method StripWith(chain: Chain, woven: seq<byte>, seed: u32) returns (r: Result<seq<byte>, ParityError>)
    ensures r == StripFrom(chain, woven, seed, 0)
  {
    var out: seq<byte> := [];
    var rolling: u32, index: u32, pos := seed, 0, 0;
    ghost var whole := StripFrom(chain, woven, seed, 0);
    assert woven[0..] == woven;
    PrependNothing(out, whole);
    while pos < |woven|
      invariant pos <= |woven|
      invariant whole == Prepend(out, StripFrom(chain, woven[pos..], rolling, index))
    {
      if |woven| - pos < TRAILER {
        return Err(Truncated(index));
      }
      var dataEnd := if pos + STRIDE < |woven| - TRAILER then pos + STRIDE else |woven| - TRAILER;
      var error, next := CheckBlock(chain, woven, pos, dataEnd, rolling, index);
      if error.Some? {
        return Err(error.value);
      }
      StripAt(chain, woven, pos, rolling, index);
      PrependTwice(out, woven[pos..dataEnd], StripFrom(chain, woven[dataEnd + TRAILER..], next, NextIndex(index)));
      out := out + woven[pos..dataEnd];
      rolling, index, pos := next, NextIndex(index), dataEnd + TRAILER;
    }
    PrependNothing(out, whole);
    return Ok(out);
  }

  /** `star_strip_parity`. */
  method StripParity(woven: seq<byte>) returns (r: Result<seq<byte>, ParityError>)
    ensures r == Strip(woven)
  {
    r := StripWith(FnvChain, woven, SEED);
  }

  // ---------------------------------------------------------------- weaving, its inverse

  function Trailer(x: u32, roll: u32, index: u32): (t: seq<byte>)
    ensures |t| == TRAILER
  {
    WriteU32(x) + WriteU32(roll) + WriteU32(index)
  }

  /** One block: its data, then its trailer. */
  function Block(chain: Chain, d: seq<byte>, roll: u32, index: u32): seq<byte> {
    d + Trailer(BlockXor(d), chain(roll, BlockXor(d)), index)
  }

  function Head(d: seq<byte>): seq<byte> {
    if |d| <= STRIDE then d else d[..STRIDE]
  }

  function WeaveFrom(chain: Chain, d: seq<byte>, roll: u32, index: u32): seq<byte>
    decreases |d|
  {
    if d == [] then []
    else
      var h := Head(d);
      Block(chain, h, roll, index) + WeaveFrom(chain, d[|h|..], chain(roll, BlockXor(h)), NextIndex(index))
  }

  function Weave(d: seq<byte>): seq<byte> {
    WeaveFrom(FnvChain, d, SEED, 0)
  }

  lemma BlocksOf(n: nat, h: nat)
    requires n > 0 && h == if n <= 64 then n else 64
    ensures (n + 63) / 64 == 1 + (n - h + 63) / 64
  {
  }

  /** Twelve bytes are added for every 64 begun. */
  lemma {:induction false} WovenLength(chain: Chain, d: seq<byte>, roll: u32, index: u32)
    ensures |WeaveFrom(chain, d, roll, index)| == |d| + 12 * ((|d| + 63) / 64)
    decreases |d|
  {
    if d != [] {
      var h := Head(d);
      var rest := d[|h|..];
      WovenLength(chain, rest, chain(roll, BlockXor(h)), NextIndex(index));
      BlocksOf(|d|, |h|);
      assert |Block(chain, h, roll, index)| == |h| + 12;
    }
  }

  /** Byte i of the data stands behind the trailers of the i / 64 blocks before it. */
  lemma {:induction false} WovenAt(chain: Chain, d: seq<byte>, roll: u32, index: u32, i: nat)
    requires i < |d|
    ensures i + i / 64 * 12 < |WeaveFrom(chain, d, roll, index)|
    ensures WeaveFrom(chain, d, roll, index)[i + i / 64 * 12] == d[i]
    decreases |d|
  {
    var h := Head(d);
    var rest := WeaveFrom(chain, d[|h|..], chain(roll, BlockXor(h)), NextIndex(index));
    var block := Block(chain, h, roll, index);
    assert WeaveFrom(chain, d, roll, index) == block + rest && |block| == |h| + 12;
    if i < 64 {
      assert block[i] == h[i] == d[i];
    } else {
      var k := (i - 64) / 64;
      WovenAt(chain, d[|h|..], chain(roll, BlockXor(h)), NextIndex(index), i - 64);
      assert i / 64 == k + 1;
      assert (block + rest)[i + (k + 1) * 12] == rest[i - 64 + k * 12];
    }
  }

  /** The chain value and the block index after weaving `d`. */
  function ChainAfter(chain: Chain, d: seq<byte>, roll: u32, index: u32): (u32, u32)
    decreases |d|
  {
    if d == [] then (roll, index)
    else
      var h := Head(d);
      ChainAfter(chain, d[|h|..], chain(roll, BlockXor(h)), NextIndex(index))
  }

  /** `Weave(d)` with one more block that carries no data. */
  function WeaveOpenFrom(chain: Chain, d: seq<byte>, roll: u32, index: u32): seq<byte> {
    var (r, i) := ChainAfter(chain, d, roll, index);
    WeaveFrom(chain, d, roll, index) + Block(chain, [], r, i)
  }

  function WeaveOpen(d: seq<byte>): seq<byte> {
    WeaveOpenFrom(FnvChain, d, SEED, 0)
  }

  lemma TrailerReads(h: seq<byte>, x: u32, roll: u32, index: u32, rest: seq<byte>)
    ensures var w := h + Trailer(x, roll, index) + rest;
            && w[..|h|] == h && w[|h| + TRAILER..] == rest
            && ReadU32(w, |h|) == x && ReadU32(w, |h| + 4) == roll && ReadU32(w, |h| + 8) == index
  {
    var w := h + Trailer(x, roll, index) + rest;
    assert w[|h|..|h| + 4] == WriteU32(x);
    assert w[|h| + 4..|h| + 8] == WriteU32(roll);
    assert w[|h| + 8..|h| + 12] == WriteU32(index);
    ReadsWhatWasWritten(x, w, |h|);
    ReadsWhatWasWritten(roll, w, |h| + 4);
    ReadsWhatWasWritten(index, w, |h| + 8);
  }

  /** A stream whose first block is well formed passes the three tests and leaves the rest. */
  lemma BlockPasses(chain: Chain, h: seq<byte>, rest: seq<byte>, roll: u32, index: u32)
    requires |h| <= STRIDE && (|h| < STRIDE ==> rest == [])
    ensures var w := Block(chain, h, roll, index) + rest;
            && BlockLen(|w|) == |h| && w[..|h|] == h && w[|h| + TRAILER..] == rest
            && BlockError(chain, w, roll, index).None?
  {
    TrailerReads(h, BlockXor(h), chain(roll, BlockXor(h)), index, rest);
  }

  lemma TrailerParts(w: seq<byte>, n: nat)
    requires n + TRAILER <= |w|
    ensures w == w[..n] + Trailer(ReadU32(w, n), ReadU32(w, n + 4), ReadU32(w, n + 8)) + w[n + TRAILER..]
  {
    WritesWhatWasRead(w, n);
    WritesWhatWasRead(w, n + 4);
    WritesWhatWasRead(w, n + 8);
    assert w[n..n + 12] == w[n..n + 4] + w[n + 4..n + 8] + w[n + 8..n + 12];
    assert w == w[..n] + w[n..n + 12] + w[n + 12..];
  }

  /** Conversely, a stream whose first block passes starts with the block woven from its data. */
  lemma PassingBlock(chain: Chain, w: seq<byte>, roll: u32, index: u32)
    requires |w| >= TRAILER && BlockError(chain, w, roll, index).None?
    ensures var n := BlockLen(|w|);
            w == Block(chain, w[..n], roll, index) + w[n + TRAILER..]
  {
    TrailerParts(w, BlockLen(|w|));
  }

  /** Stripping a well-formed first block gives its data and goes on with the rest. */
  lemma StripBlock(chain: Chain, h: seq<byte>, rest: seq<byte>, roll: u32, index: u32)
    requires |h| <= STRIDE && (|h| < STRIDE ==> rest == [])
    ensures StripFrom(chain, Block(chain, h, roll, index) + rest, roll, index)
            == Prepend(h, StripFrom(chain, rest, chain(roll, BlockXor(h)), NextIndex(index)))
  {
    BlockPasses(chain, h, rest, roll, index);
  }

  lemma {:induction false} StripUndoesWeave(chain: Chain, d: seq<byte>, roll: u32, index: u32)
    ensures StripFrom(chain, WeaveFrom(chain, d, roll, index), roll, index) == Ok(d)
    decreases |d|
  {
    if d != [] {
      var h := Head(d);
      var next := chain(roll, BlockXor(h));
      StripUndoesWeave(chain, d[|h|..], next, NextIndex(index));
      StripBlock(chain, h, WeaveFrom(chain, d[|h|..], next, NextIndex(index)), roll, index);
      assert h + d[|h|..] == d;
    }
  }

  lemma WeaveOpenStep(chain: Chain, d: seq<byte>, roll: u32, index: u32)
    requires d != []
    ensures var h := Head(d);
            WeaveOpenFrom(chain, d, roll, index)
            == Block(chain, h, roll, index) + WeaveOpenFrom(chain, d[|h|..], chain(roll, BlockXor(h)), NextIndex(index))
  {
    var h := Head(d);
    var next, i := chain(roll, BlockXor(h)), NextIndex(index);
    var (r, j) := ChainAfter(chain, d, roll, index);
    var a, b, c := Block(chain, h, roll, index), WeaveFrom(chain, d[|h|..], next, i), Block(chain, [], r, j);
    assert a + b + c == a + (b + c);
  }

  lemma WeaveOpenNothing(chain: Chain, roll: u32, index: u32)
    ensures WeaveOpenFrom(chain, [], roll, index) == Block(chain, [], roll, index)
    ensures Block(chain, [], roll, index) + [] == Block(chain, [], roll, index)
    ensures StripFrom(chain, Block(chain, [], roll, index), roll, index) == Ok([])
  {
    var b := Block(chain, [], roll, index);
    assert [] + b == b && b + [] == b;
    StripBlock(chain, [], [], roll, index);
    PrependNothing([], Ok([]));
  }

  /** A nonempty whole number of blocks starts with a full one. */
  lemma FullHead(d: seq<byte>)
    requires d != [] && |d| % STRIDE == 0
    ensures |Head(d)| == STRIDE && |d[STRIDE..]| % STRIDE == 0
  {
    assert |d| >= STRIDE;
  }

  lemma {:induction false} StripUndoesWeaveOpen(chain: Chain, d: seq<byte>, roll: u32, index: u32)
    requires |d| % STRIDE == 0
    ensures StripFrom(chain, WeaveOpenFrom(chain, d, roll, index), roll, index) == Ok(d)
    decreases |d|
  {
    if d == [] {
      WeaveOpenNothing(chain, roll, index);
    } else {
      FullHead(d);
      var h := Head(d);
      var next := chain(roll, BlockXor(h));
      StripUndoesWeaveOpen(chain, d[|h|..], next, NextIndex(index));
      WeaveOpenStep(chain, d, roll, index);
      StripBlock(chain, h, WeaveOpenFrom(chain, d[|h|..], next, NextIndex(index)), roll, index);
      assert h + d[|h|..] == d;
    }
  }

  ghost predicate Woven(chain: Chain, w: seq<byte>, d: seq<byte>, roll: u32, index: u32) {
    || w == WeaveFrom(chain, d, roll, index)
    || (|d| % STRIDE == 0 && w == WeaveOpenFrom(chain, d, roll, index))
  }

  lemma HeadOf(h: seq<byte>, d: seq<byte>)
    requires 0 < |h| <= STRIDE && (|h| < STRIDE ==> d == [])
    ensures Head(h + d) == h && (h + d)[|h|..] == d && h + d != []
  {
    if |h| < STRIDE {
      assert h + d == h;
    }
  }

  lemma WeaveCons(chain: Chain, h: seq<byte>, d: seq<byte>, roll: u32, index: u32)
    requires 0 < |h| <= STRIDE && (|h| < STRIDE ==> d == [])
    ensures WeaveFrom(chain, h + d, roll, index)
            == Block(chain, h, roll, index) + WeaveFrom(chain, d, chain(roll, BlockXor(h)), NextIndex(index))
    ensures WeaveOpenFrom(chain, h + d, roll, index)
            == Block(chain, h, roll, index) + WeaveOpenFrom(chain, d, chain(roll, BlockXor(h)), NextIndex(index))
  {
    HeadOf(h, d);
    WeaveOpenStep(chain, h + d, roll, index);
  }

  lemma OneMoreBlock(n: nat)
    ensures n % STRIDE == 0 ==> (STRIDE + n) % STRIDE == 0
  {
  }

  /** Putting a block in front of a woven stream: short blocks only come last. */
  lemma WovenCons(chain: Chain, h: seq<byte>, rest: seq<byte>, d: seq<byte>, roll: u32, index: u32)
    requires |h| <= STRIDE && (|h| < STRIDE ==> rest == [] && d == [])
    requires Woven(chain, rest, d, chain(roll, BlockXor(h)), NextIndex(index))
    ensures Woven(chain, Block(chain, h, roll, index) + rest, h + d, roll, index)
  {
    if h == [] {
      WeaveOpenNothing(chain, roll, index);
      assert h + d == [];
    } else {
      WeaveCons(chain, h, d, roll, index);
      OneMoreBlock(|d|);
    }
  }

  lemma {:induction false} AcceptedIsWoven(chain: Chain, w: seq<byte>, d: seq<byte>, roll: u32, index: u32)
    requires StripFrom(chain, w, roll, index) == Ok(d)
    ensures Woven(chain, w, d, roll, index)
    decreases |w|
  {
    if w != [] {
      var n := BlockLen(|w|);
      var h, rest := w[..n], w[n + TRAILER..];
      var next := chain(roll, BlockXor(h));
      var tail := StripFrom(chain, rest, next, NextIndex(index));
      assert d == h + tail.value;
      AcceptedIsWoven(chain, rest, tail.value, next, NextIndex(index));
      PassingBlock(chain, w, roll, index);
      WovenCons(chain, h, rest, tail.value, roll, index);
    }
  }

  /** `star_strip_parity` accepts exactly the weavings of its output. */
  lemma StripAcceptsExactlyWeavings(w: seq<byte>, d: seq<byte>)
    ensures Strip(w) == Ok(d) <==> w == Weave(d) || (|d| % STRIDE == 0 && w == WeaveOpen(d))
  {
    StripUndoesWeave(FnvChain, d, SEED, 0);
    if |d| % STRIDE == 0 {
      StripUndoesWeaveOpen(FnvChain, d, SEED, 0);
    }
    if Strip(w) == Ok(d) {
      AcceptedIsWoven(FnvChain, w, d, SEED, 0);
    }
  }

  // ---------------------------------------------------------------- corruption

  lemma {:induction false} XorFeelsEveryByte(d: seq<byte>, i: nat, b: byte)
    requires i < |d| && b != d[i]
    ensures BlockXor(d[i := b]) != BlockXor(d)
    decreases |d|
  {
    var e := d[i := b];
    var m := |d| - 1;
    if i == m {
      assert e[..m] == d[..m];
      XorRightInjective(b, d[m], BlockXor(d[..m]));
    } else {
      XorFeelsEveryByte(d[..m], i, b);
      assert e[..m] == d[..m][i := b];
      XorLeftInjective(BlockXor(e[..m]), BlockXor(d[..m]), d[m]);
    }
  }

  /** A changed byte changes the word it belongs to. */
  lemma WordFeelsEveryByte(w: seq<byte>, at: nat, i: nat, b: byte)
    requires at <= i < at + 4 <= |w| && b != w[i]
    ensures ReadU32(w[i := b], at) != ReadU32(w, at)
  {
    WritesWhatWasRead(w, at);
    WritesWhatWasRead(w[i := b], at);
    assert w[i := b][at..at + 4][i - at] == b && w[at..at + 4][i - at] == w[i];
  }

  lemma DataByteIsChecked(chain: Chain, w: seq<byte>, roll: u32, index: u32, i: nat, b: byte)
    requires |w| >= TRAILER && i < BlockLen(|w|) && b != w[i]
    requires ReadU32(w, BlockLen(|w|)) == BlockXor(w[..BlockLen(|w|)])
    ensures BlockError(chain, w[i := b], roll, index) == Some(XorMismatch(index))
  {
    var n := BlockLen(|w|);
    var v := w[i := b];
    assert v[..n] == w[..n][i := b];
    XorFeelsEveryByte(w[..n], i, b);
  }

  lemma TrailerByteIsChecked(chain: Chain, w: seq<byte>, roll: u32, index: u32, at: nat, i: nat, b: byte)
    requires |w| >= TRAILER && BlockError(chain, w, roll, index).None?
    requires at == BlockLen(|w|) || at == BlockLen(|w|) + 4 || at == BlockLen(|w|) + 8
    requires at <= i < at + 4 && b != w[i]
    ensures BlockError(chain, w[i := b], roll, index).Some?
  {
    var n := BlockLen(|w|);
    assert w[i := b][..n] == w[..n];
    WordFeelsEveryByte(w, at, i, b);
  }

  /** A changed byte inside the first block breaks one of its three tests. */
  lemma BlockFeelsEveryByte(chain: Chain, w: seq<byte>, roll: u32, index: u32, i: nat, b: byte)
    requires |w| >= TRAILER && i < BlockLen(|w|) + TRAILER && b != w[i]
    requires BlockError(chain, w, roll, index).None?
    ensures BlockError(chain, w[i := b], roll, index).Some?
  {
    var n := BlockLen(|w|);
    if i < n {
      DataByteIsChecked(chain, w, roll, index, i, b);
    } else if i < n + 4 {
      TrailerByteIsChecked(chain, w, roll, index, n, i, b);
    } else if i < n + 8 {
      TrailerByteIsChecked(chain, w, roll, index, n + 4, i, b);
    } else {
      TrailerByteIsChecked(chain, w, roll, index, n + 8, i, b);
    }
  }

  lemma SameTrailer(w: seq<byte>, v: seq<byte>, n: nat)
    requires |w| == |v| && n + TRAILER <= |w| && forall j | n <= j < n + TRAILER :: w[j] == v[j]
    ensures ReadU32(v, n) == ReadU32(w, n) && ReadU32(v, n + 4) == ReadU32(w, n + 4) && ReadU32(v, n + 8) == ReadU32(w, n + 8)
  {
    assert v[n..n + 4] == w[n..n + 4] && v[n + 4..n + 8] == w[n + 4..n + 8] && v[n + 8..n + 12] == w[n + 8..n + 12];
    ReadsSame(v, n, w, n);
    ReadsSame(v, n + 4, w, n + 4);
    ReadsSame(v, n + 8, w, n + 8);
  }

  lemma {:induction false} CorruptionBreaksStrip(chain: Chain, w: seq<byte>, roll: u32, index: u32, i: nat, b: byte)
    requires StripFrom(chain, w, roll, index).Ok? && i < |w| && b != w[i]
    ensures StripFrom(chain, w[i := b], roll, index).Err?
    decreases |w|
  {
    var n := BlockLen(|w|);
    var v, cut := w[i := b], n + TRAILER;
    if i < cut {
      BlockFeelsEveryByte(chain, w, roll, index, i, b);
    } else {
      assert v[cut..] == w[cut..][i - cut := b];
      assert v[..n] == w[..n];
      CorruptionBreaksStrip(chain, w[cut..], chain(roll, BlockXor(w[..n])), NextIndex(index), i - cut, b);
      SameTrailer(w, v, n);
    }
  }

  /** Changing any one byte of an accepted stream makes it rejected. */
  lemma EveryByteIsChecked(w: seq<byte>, i: nat, b: byte)
    requires i < |w| && b != w[i]
    ensures Strip(w).Ok? ==> Strip(w[i := b]).Err?
  {
    if Strip(w).Ok? {
      CorruptionBreaksStrip(FnvChain, w, SEED, 0, i, b);
    }
  }

  // ---------------------------------------------------------------- the chain remembers

  ghost predicate Injective(chain: Chain) {
    && (forall s1: u32, s2: u32, x: byte {:trigger chain(s1, x), chain(s2, x)} :: chain(s1, x) == chain(s2, x) ==> s1 == s2)
    && (forall s: u32, x1: byte, x2: byte {:trigger chain(s, x1), chain(s, x2)} :: chain(s, x1) == chain(s, x2) ==> x1 == x2)
  }

  lemma FnvChainInjective()
    ensures Injective(FnvChain)
  {
    forall s1: u32, s2: u32, x: byte ensures FnvChain(s1, x) == FnvChain(s2, x) ==> s1 == s2 {
      ChainInState(s1, s2, x);
    }
    forall s: u32, x1: byte, x2: byte ensures FnvChain(s, x1) == FnvChain(s, x2) ==> x1 == x2 {
      ChainInValue(s, x1, x2);
    }
  }

  /** The xor of each block of a stream. */
  function Xors(w: seq<byte>): seq<byte>
    decreases |w|
  {
    if |w| < TRAILER then []
    else [BlockXor(w[..BlockLen(|w|)])] + Xors(w[BlockLen(|w|) + TRAILER..])
  }

  /** The rolling value stored in each block of a stream. */
  function Rolls(w: seq<byte>): seq<u32>
    decreases |w|
  {
    if |w| < TRAILER then []
    else [ReadU32(w, BlockLen(|w|) + 4)] + Rolls(w[BlockLen(|w|) + TRAILER..])
  }

  lemma {:induction false} SameShape(w: seq<byte>, v: seq<byte>)
    requires |w| == |v|
    ensures |Xors(w)| == |Xors(v)| == |Rolls(w)| == |Rolls(v)|
    decreases |w|
  {
    if |w| >= TRAILER {
      SameShape(w[BlockLen(|w|) + TRAILER..], v[BlockLen(|v|) + TRAILER..]);
    }
  }

  /** From different states, equal xors keep every stored value different. */
  lemma {:induction false} DifferenceSpreads(chain: Chain, w: seq<byte>, v: seq<byte>, r1: u32, r2: u32, index: u32)
    requires Injective(chain)
    requires |w| == |v| && StripFrom(chain, w, r1, index).Ok? && StripFrom(chain, v, r2, index).Ok?
    requires r1 != r2 && Xors(w) == Xors(v)
    ensures |Rolls(w)| == |Rolls(v)| && forall j | 0 <= j < |Rolls(w)| :: Rolls(w)[j] != Rolls(v)[j]
    decreases |w|
  {
    SameShape(w, v);
    if |w| >= TRAILER {
      var n := BlockLen(|w|);
      var x := BlockXor(w[..n]);
      assert Xors(w)[0] == x && Xors(v)[0] == BlockXor(v[..n]);
      var tw, tv := w[n + TRAILER..], v[n + TRAILER..];
      assert Xors(tw) == Xors(w)[1..] && Xors(tv) == Xors(v)[1..];
      DifferenceSpreads(chain, tw, tv, chain(r1, x), chain(r2, x), NextIndex(index));
      assert Rolls(tw) == Rolls(w)[1..] && Rolls(tv) == Rolls(v)[1..];
    }
  }

  /** Block xors that differ in block `k` only leave different stored values in every block from `k` on. */
  lemma {:induction false} ChainRemembers(chain: Chain, w: seq<byte>, v: seq<byte>, roll: u32, index: u32, k: nat)
    requires Injective(chain)
    requires |w| == |v| && StripFrom(chain, w, roll, index).Ok? && StripFrom(chain, v, roll, index).Ok?
    requires k < |Xors(w)| == |Xors(v)| && Xors(w)[k] != Xors(v)[k]
    requires forall j | 0 <= j < |Xors(w)| && j != k :: Xors(w)[j] == Xors(v)[j]
    ensures |Rolls(w)| == |Rolls(v)| == |Xors(w)|
    ensures forall j | 0 <= j < |Rolls(w)| :: Rolls(w)[j] != Rolls(v)[j] <==> k <= j
    decreases |w|
  {
    SameShape(w, v);
    var n := BlockLen(|w|);
    var x, y := BlockXor(w[..n]), BlockXor(v[..n]);
    var tw, tv := w[n + TRAILER..], v[n + TRAILER..];
    assert Xors(w)[0] == x && Xors(v)[0] == y;
    assert Xors(tw) == Xors(w)[1..] && Xors(tv) == Xors(v)[1..];
    assert Rolls(tw) == Rolls(w)[1..] && Rolls(tv) == Rolls(v)[1..];
    if k == 0 {
      DifferenceSpreads(chain, tw, tv, chain(roll, x), chain(roll, y), NextIndex(index));
    } else {
      ChainRemembers(chain, tw, tv, chain(roll, x), NextIndex(index), k - 1);
    }
  }

  predicate DifferOnlyAt(a: seq<byte>, b: seq<byte>, k: nat) {
    k < |a| == |b| && a[k] != b[k] && forall j | 0 <= j < |a| && j != k :: a[j] == b[j]
  }

  /** Tampering that alters one block's xor is visible in every later block of an accepted stream. */
  lemma StoredChainsDiverge(w: seq<byte>, v: seq<byte>, k: nat)
    requires |w| == |v|
    ensures Strip(w).Ok? && Strip(v).Ok? && DifferOnlyAt(Xors(w), Xors(v), k) ==>
              && |Rolls(w)| == |Rolls(v)| == |Xors(w)|
              && forall j | 0 <= j < |Rolls(w)| :: Rolls(w)[j] != Rolls(v)[j] <==> k <= j
  {
    if Strip(w).Ok? && Strip(v).Ok? && DifferOnlyAt(Xors(w), Xors(v), k) {
      FnvChainInjective();
      ChainRemembers(FnvChain, w, v, SEED, 0, k);
    }
  }
}
