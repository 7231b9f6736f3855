/**
  The `.star` container (src/engine/star_parser.cc): its section table, the bounded read
  that leaves deferred sections on disk, section decoding, and the two readers of the
  assets section, one that parses everything and one that only walks headers.
 */
module StarContainer {
  import opened Wrappers
  import opened Words
  import opened StarParity

  const MAGIC: seq<byte> := [0x53, 0x54, 0x41, 0x52]
  const SEC_ASSETS: byte := 5
  const MAX_SHIM_SIZE: nat := 4 * 1024 * 1024
  const MAX_SECTION_SIZE: nat := 256 * 1024 * 1024
  const XOR_KEY: byte := 0x4D

  datatype Section = Section(id: byte, encodeFlags: byte, metaFlags: u32, offset: u64, length: u64)

  predicate Deferred(s: Section) { s.metaFlags % 2 == 1 }
  predicate Required(s: Section) { s.metaFlags / 2 % 2 == 1 }
  predicate Obfuscated(s: Section) { s.encodeFlags / 0x40 % 2 == 1 }
  predicate Compressed(s: Section) { s.encodeFlags / 0x80 == 1 }

  // ---------------------------------------------------------------- the section table

  datatype Preamble = Preamble(start: nat, count: nat)

  /** Where the container starts and how many sections it declares: a 12-byte header, then 256 bytes each. */
  function ReadPreamble(file: seq<byte>): (p: Option<Preamble>)
    ensures p.Some? ==> p.value.start + 12 + p.value.count * 256 <= |file| && p.value.count <= 32
    ensures p.Some? ==> p.value.start <= MAX_SHIM_SIZE + 4
  {
    if |file| < 8 then None
    else if file[..4] != MAGIC && (ReadU32(file, 0) > MAX_SHIM_SIZE || 4 + ReadU32(file, 0) > |file|) then None
    else
      var start := if file[..4] == MAGIC then 0 else 4 + ReadU32(file, 0);
      if start + 12 > |file| then None
      else if file[start..start + 4] != MAGIC || file[start + 4] != 2 then None
      else
        var count: int := file[start + 6];
        if count > 32 || start + 12 + count * 256 > |file| then None
        else Some(Preamble(start, count))
  }

  function SectionAt(file: seq<byte>, p: Preamble, i: nat): Section
    requires i < p.count && p.start + 12 + p.count * 256 <= |file|
  {
    assert p.start + 12 + (i + 1) * 256 <= |file|;
    var e := p.start + 12 + i * 256;
    Section(file[e], file[e + 1], ReadU32(file, e + 4), ReadU64(file, e + 8), ReadU64(file, e + 16))
  }

  function SectionsUpTo(file: seq<byte>, p: Preamble, n: nat): (ss: seq<Section>)
    requires n <= p.count && p.start + 12 + p.count * 256 <= |file|
    ensures |ss| == n && forall i | 0 <= i < n :: ss[i] == SectionAt(file, p, i)
  {
    seq(n, i requires 0 <= i < n => SectionAt(file, p, i))
  }

  /** The 256 bytes of entry i; entries lie one behind the other inside the file. */
  function EntryBytes(file: seq<byte>, p: Preamble, i: nat): seq<byte>
    requires i < p.count && p.start + 12 + p.count * 256 <= |file|
  {
    assert (i + 1) * 256 <= p.count * 256;
    file[p.start + 12 + i * 256..p.start + 12 + i * 256 + 256]
  }

  /** Two files that agree on the bytes of an entry agree on that section, whatever else they hold. */
  lemma SectionsReadOwnEntries(file: seq<byte>, other: seq<byte>, p: Preamble, i: nat)
    requires i < p.count && p.start + 12 + p.count * 256 <= |file| && p.start + 12 + p.count * 256 <= |other|
    requires EntryBytes(file, p, i) == EntryBytes(other, p, i)
    ensures SectionsUpTo(file, p, p.count)[i] == SectionsUpTo(other, p, p.count)[i]
  {
    var e, d := p.start + 12 + i * 256, EntryBytes(file, p, i);
    assert d == file[e..e + 256] == other[e..e + 256];
    EntryWord(file, other, e, d, 4);
    EntryWord(file, other, e, d, 8);
    EntryWord(file, other, e, d, 12);
    EntryWord(file, other, e, d, 16);
    EntryWord(file, other, e, d, 20);
    assert file[e] == d[0] == other[e] && file[e + 1] == d[1] == other[e + 1];
  }

  lemma EntryWord(file: seq<byte>, other: seq<byte>, e: nat, d: seq<byte>, k: nat)
    requires e + 256 <= |file| && e + 256 <= |other| && d == file[e..e + 256] == other[e..e + 256] && k + 4 <= 256
    ensures ReadU32(file, e + k) == ReadU32(other, e + k)
  {
    SliceIsWindow(file, e, e + 256);
    SliceIsWindow(other, e, e + 256);
    SubSlice(file, e, d, k, k + 4);
    SubSlice(other, e, d, k, k + 4);
    ReadsSame(file, e + k, other, e + k);
  }

  /** A file that carries its container behind a shim, whose length comes first. */
  function Shimmed(shim: seq<byte>, container: seq<byte>): seq<byte>
    requires |shim| < 0x1_0000_0000
  {
    WriteU32(|shim|) + shim + container
  }

  /** A container is found behind a shim, with the same sections, exactly when the shim is at most 4 MiB. */
  lemma FoundBehindShimIff(shim: seq<byte>, container: seq<byte>, count: nat)
    requires |shim| < 0x5241_5453 && ReadPreamble(container) == Some(Preamble(0, count)) && container[..4] == MAGIC
    ensures ReadPreamble(Shimmed(shim, container))
            == if |shim| <= MAX_SHIM_SIZE then Some(Preamble(4 + |shim|, count)) else None
  {
    var file, at := Shimmed(shim, container), 4 + |shim|;
    assert file[0..4] == WriteU32(|shim|);
    ReadsWhatWasWritten(|shim|, file, 0);
    forall k | 0 <= k < |container| ensures file[at + k] == container[k] {
    }
    assert file[at..at + 4] == container[..4];
    assert container[0..4] == container[..4];
    assert file[at + 4] == container[4] && file[at + 6] == container[6];
  }

  // ---------------------------------------------------------------- the bounded read

  /** A section that makes the loader refuse the file. */
  predicate Refused(s: Section) {
    || (Required(s) && !(1 <= s.id <= 5))
    || (!Deferred(s) && s.length > MAX_SECTION_SIZE)
  }

  predicate AnyRefused(ss: seq<Section>) {
    exists i | 0 <= i < |ss| :: Refused(ss[i])
  }

  /** 64-bit unsigned addition. */
  function Add64(a: int, b: int): int
    requires 0 <= a < 0x1_0000_0000_0000_0000 && 0 <= b < 0x1_0000_0000_0000_0000
  {
    if a + b < 0x1_0000_0000_0000_0000 then a + b else a + b - 0x1_0000_0000_0000_0000
  }

  /** The largest end so far, after one more section. */
  function WithEnd(most: u64, s: Section): u64 {
    if !Deferred(s) && Add64(s.offset, s.length) > most then Add64(s.offset, s.length) else most
  }

  function MaxEagerEnd(ss: seq<Section>): u64 {
    if ss == [] then 0 else WithEnd(MaxEagerEnd(ss[..|ss| - 1]), ss[|ss| - 1])
  }

  lemma MaxAppend(ss: seq<Section>, s: Section)
    ensures MaxEagerEnd(ss + [s]) == WithEnd(MaxEagerEnd(ss), s)
  {
    assert (ss + [s])[..|ss|] == ss;
  }

  lemma {:induction false} MaxCovers(ss: seq<Section>, i: nat)
    requires i < |ss| && !Deferred(ss[i])
    ensures Add64(ss[i].offset, ss[i].length) <= MaxEagerEnd(ss)
  {
    if i < |ss| - 1 {
      MaxCovers(ss[..|ss| - 1], i);
    }
  }

  /** 64-bit unsigned subtraction. */
  function Sub64(a: int, b: int): int {
    if a >= b then a - b else a - b + 0x1_0000_0000_0000_0000
  }

  datatype Bounded = Bounded(start: u64, sections: seq<Section>, data: seq<byte>)

  /** Where the bounded read ends, if the file is that long; the sums are 64-bit ones. */
  function Limit(start: nat, ss: seq<Section>): u64
    requires start <= MAX_SHIM_SIZE + 4
  {
    Add64(Add64(start, MaxEagerEnd(ss)), 64)
  }

  /** How much of the file the loader keeps. */
  function ReadLimit(file: seq<byte>, start: nat, ss: seq<Section>): (n: nat)
    requires start <= MAX_SHIM_SIZE + 4
    ensures n <= |file|
  {
    if |file| <= Limit(start, ss) then |file| else Limit(start, ss)
  }

  function Load(file: seq<byte>): Option<Bounded> {
    match ReadPreamble(file)
    case None => None
    case Some(p) =>
      var ss := SectionsUpTo(file, p, p.count);
      if AnyRefused(ss) then None
      else Some(Bounded(p.start, ss, file[..ReadLimit(file, p.start, ss)]))
  }

  /** The loop of `star_load_bounded` over the section table. */
  method ScanSections(table: seq<Section>) returns (ok: bool, maxEagerEnd: u64)
    ensures ok <==> !AnyRefused(table)
    ensures ok ==> maxEagerEnd == MaxEagerEnd(table)
  {
    maxEagerEnd := 0;
    for i := 0 to |table|
      invariant maxEagerEnd == MaxEagerEnd(table[..i])
      invariant forall j | 0 <= j < i :: !Refused(table[j])
    {
      var s := table[i];
      if Required(s) && s.id != 1 && s.id != 2 && s.id != 3 && s.id != 4 && s.id != 5 {
        assert Refused(table[i]);
        return false, 0;
      }
      assert table[..i + 1] == table[..i] + [s];
      MaxAppend(table[..i], s);
      if !Deferred(s) {
        if s.length > MAX_SECTION_SIZE {
          assert Refused(table[i]);
          return false, 0;
        }
        var end := Add64(s.offset, s.length);
        if end > maxEagerEnd {
          maxEagerEnd := end;
        }
      }
    }
    assert table[..|table|] == table;
    ok := true;
  }

  /** `star_load_bounded`. */
  method LoadBounded(file: seq<byte>) returns (r: Option<Bounded>)
    ensures r == Load(file)
  {
    var pre := ReadPreamble(file);
    if pre.None? {
      return None;
    }
    var sections := SectionsUpTo(file, pre.value, pre.value.count);
    var ok, maxEagerEnd := ScanSections(sections);
    if !ok {
      return None;
    }
    var limit := Add64(Add64(pre.value.start, maxEagerEnd), 64);
    r := Some(Bounded(pre.value.start, sections, file[..if |file| <= limit then |file| else limit]));
  }

  /** A table entry that makes the loader refuse, read off the file. */
  predicate RefusedEntry(file: seq<byte>, e: nat)
    requires e + 256 <= |file|
  {
    || (ReadU32(file, e + 4) / 2 % 2 == 1 && (file[e] == 0 || file[e] > 5))
    || (ReadU32(file, e + 4) % 2 == 0 && ReadU64(file, e + 16) > 0x1000_0000)
  }

  /** Where the entries of the section table start. */
  function EntryStart(start: nat, i: nat): nat {
    start + 12 + i * 256
  }

  /**
    A file is refused exactly when it holds no readable table, or an entry is required and of an
    unknown kind, or not deferred and longer than 256 MiB.
   */
  lemma LoadsIff(file: seq<byte>, p: Preamble)
    requires ReadPreamble(file) == Some(p)
    ensures forall i | 0 <= i < p.count :: EntryStart(p.start, i) + 256 <= |file|
    ensures Load(file).Some? <==> forall i | 0 <= i < p.count :: !RefusedEntry(file, EntryStart(p.start, i))
  {
    forall i | 0 <= i < p.count ensures EntryStart(p.start, i) + 256 <= |file| {
      assert (i + 1) * 256 <= p.count * 256;
    }
    var ss := SectionsUpTo(file, p, p.count);
    forall i | 0 <= i < p.count ensures Refused(ss[i]) <==> RefusedEntry(file, EntryStart(p.start, i)) {
      assert ss[i] == SectionAt(file, p, i);
    }
  }

  // ---------------------------------------------------------------- decoding a section

  /** `OutsideRead` is not an exception: both bounds tests pass and yet the bytes lie outside the buffer. */
  datatype SectionError = OutOfBounds | OutsideRead | BadParity(error: ParityError) | BadCompression

  /** `star_decompress`, which is foreign code. */
  type Decompressor = seq<byte> -> Option<seq<byte>>

  function MaskAt(i: nat): byte {
    XorByte(XOR_KEY, i % 0x100)
  }

  function XorDecoded(d: seq<byte>): (e: seq<byte>)
    ensures |e| == |d| && forall i | 0 <= i < |d| :: e[i] == XorByte(d[i], MaskAt(i))
  {
    seq(|d|, i requires 0 <= i < |d| => XorByte(d[i], MaskAt(i)))
  }

  /** `star_xor_decode`, in place. */
  method XorDecode(data: array<byte>)
    modifies data
    ensures data[..] == XorDecoded(old(data[..]))
  {
    for i := 0 to data.Length
      invariant forall j | 0 <= j < i :: data[j] == XorByte(old(data[..])[j], MaskAt(j))
      invariant forall j | i <= j < data.Length :: data[j] == old(data[..])[j]
    {
      data[i] := XorByte(data[i], MaskAt(i));
    }
  }

  lemma XorDecodeTwice(d: seq<byte>)
    ensures XorDecoded(XorDecoded(d)) == d
  {
    var e := XorDecoded(XorDecoded(d));
    forall i | 0 <= i < |d| ensures e[i] == d[i] {
      XorTwice(d[i], MaskAt(i));
    }
  }

  /** The section's bytes within `data`, if they lie inside it. */
  function Slice(data: seq<byte>, start: nat, offset: nat, length: nat): Option<seq<byte>>
    requires start <= |data|
  {
    if offset > |data| - start || length > |data| - (start + offset) then None
    else Some(data[start + offset..start + offset + length])
  }

  /** From the section's bytes to its content. */
  function Unwrap(blob: seq<byte>, s: Section, decompress: Decompressor): Result<seq<byte>, SectionError> {
    if s.encodeFlags == 0 then Ok(blob)
    else
      match Strip(if Obfuscated(s) then XorDecoded(blob) else blob)
      case Err(e) => Err(BadParity(e))
      case Ok(plain) =>
        if !Compressed(s) then Ok(plain)
        else
          match decompress(plain)
          case Some(d) => Ok(d)
          case None => Err(BadCompression)
  }

  /** What the bounds tests of `star_decode_section` come to, and where the bytes then lie. */
  datatype Extent = Beyond | Outside | Inside(at: nat)

  /** The tests on an encoded section: both differences are unsigned 64-bit ones. */
  predicate PassesUnsigned(size: nat, start: u64, s: Section) {
    s.offset <= Sub64(size, start) && s.length <= Sub64(size, Add64(start, s.offset))
  }

  function Locate(size: nat, start: u64, s: Section): Extent {
    if s.encodeFlags == 0 then
      if start > size || s.offset > size - start || s.length > size - (start + s.offset) then Beyond
      else Inside(start + s.offset)
    else
      var at := Add64(start, s.offset);
      if !PassesUnsigned(size, start, s) then Beyond
      else if at + s.length <= size then Inside(at)
      else Outside
  }

  /** `star_decode_section`. */
  function Decode(data: seq<byte>, start: u64, s: Section, decompress: Decompressor): Result<seq<byte>, SectionError>
  {
    match Locate(|data|, start, s)
    case Beyond => Err(OutOfBounds)
    case Outside => Err(OutsideRead)
    case Inside(at) => Unwrap(data[at..at + s.length], s, decompress)
  }

  /** From a start inside the buffer the tests say what they mean: the section is used exactly when it lies inside. */
  lemma LocateInside(size: nat, start: u64, s: Section)
    requires start <= size < 0x1_0000_0000_0000_0000
    ensures Locate(size, start, s)
            == if start + s.offset + s.length <= size then Inside(start + s.offset) else Beyond
  {
  }

  /** The weaver's side: `z` is the content, compressed already if the section says so. */
  function Encode(z: seq<byte>, s: Section): seq<byte> {
    if s.encodeFlags == 0 then z
    else if Obfuscated(s) then XorDecoded(Weave(z)) else Weave(z)
  }

  /** The mask of byte i is 0x4D ^ (i & 0xFF): the key first, starting over every 256 bytes. */
  lemma MaskBytes(i: nat)
    ensures MaskAt(0) == 0x4D && MaskAt(i + 0x100) == MaskAt(i)
    ensures XorByte(MaskAt(i), 0x4D) == i % 0x100
  {
    XorZero(0x4D);
    XorCommutes(0x4D, i % 0x100);
    XorTwice(i % 0x100, 0x4D);
  }

  /** What becomes of content `z` that came through the parity check. */
  predicate Opens(z: seq<byte>, flags: byte, f: Decompressor, r: Result<seq<byte>, SectionError>) {
    if flags < 0x80 then r == Ok(z)
    else match r
         case Ok(d) => f(z) == Some(d)
         case Err(e) => e == BadCompression && f(z) == None
  }

  lemma UnwrapsTo(blob: seq<byte>, z: seq<byte>, s: Section, f: Decompressor)
    requires s.encodeFlags != 0 && Strip(if Obfuscated(s) then XorDecoded(blob) else blob) == Ok(z)
    ensures Opens(z, s.encodeFlags, f, Unwrap(blob, s, f))
  {
  }

  lemma UnwrapUndoesEncode(z: seq<byte>, s: Section, f: Decompressor)
    ensures Opens(z, s.encodeFlags, f, Unwrap(Encode(z, s), s, f))
  {
    if s.encodeFlags != 0 {
      XorDecodeTwice(Weave(z));
      StripAcceptsExactlyWeavings(Weave(z), z);
      UnwrapsTo(Encode(z, s), z, s, f);
    }
  }

  lemma DecodesAsUnwraps(before: seq<byte>, blob: seq<byte>, after: seq<byte>, start: u64, s: Section, f: Decompressor)
    requires start <= |before| && s.offset == |before| - start && s.length == |blob|
    requires |before| + |blob| + |after| < 0x1_0000_0000_0000_0000
    ensures Decode(before + blob + after, start, s, f) == Unwrap(blob, s, f)
  {
    var data := before + blob + after;
    LocateInside(|data|, start, s);
    assert data[start + s.offset..start + s.offset + s.length] == blob;
  }

  /**
    A section that holds `z`, wherever it stands in the file and masked or not, decodes to `z`
    if it is not compressed; if it is, to d exactly when `z` decompresses to d, and to an error
    exactly when `z` does not decompress.
   */
  lemma DecodeUndoesEncode(before: seq<byte>, z: seq<byte>, after: seq<byte>, start: u64, s: Section, f: Decompressor)
    requires start <= |before| && s.offset == |before| - start
    ensures s.length == |Encode(z, s)| && |before| + s.length + |after| < 0x1_0000_0000_0000_0000 ==>
              var r := Decode(before + Encode(z, s) + after, start, s, f);
              && (s.encodeFlags < 0x80 ==> r == Ok(z))
              && (s.encodeFlags >= 0x80 ==> forall d :: r == Ok(d) <==> f(z) == Some(d))
              && (s.encodeFlags >= 0x80 ==> (r == Err(BadCompression) <==> f(z) == None))
  {
    var blob := Encode(z, s);
    if s.length == |blob| && |before| + s.length + |after| < 0x1_0000_0000_0000_0000 {
      DecodesAsUnwraps(before, blob, after, start, s, f);
      UnwrapUndoesEncode(z, s, f);
    }
  }

  /** `w` is a weaving of `z`, the one that leaves the last block open included. */
  predicate Weaves(w: seq<byte>, z: seq<byte>) {
    w == Weave(z) || (|z| % STRIDE == 0 && w == WeaveOpen(z))
  }

  /** The stored bytes hold the content `z`. */
  predicate Carries(blob: seq<byte>, flags: byte, z: seq<byte>) {
    if flags == 0 then blob == z
    else Weaves(if flags / 0x40 % 2 == 1 then XorDecoded(blob) else blob, z)
  }

  lemma CarriesIff(blob: seq<byte>, s: Section, z: seq<byte>)
    requires s.encodeFlags != 0
    ensures Carries(blob, s.encodeFlags, z) <==> Strip(if Obfuscated(s) then XorDecoded(blob) else blob) == Ok(z)
  {
    StripAcceptsExactlyWeavings(if Obfuscated(s) then XorDecoded(blob) else blob, z);
  }

  /** The bytes hold `d`, or a compressed form of it. */
  ghost predicate Yields(blob: seq<byte>, flags: byte, f: Decompressor, d: seq<byte>) {
    match flags < 0x80
    case true => Carries(blob, flags, d)
    case false => exists z :: Carries(blob, flags, z) && f(z) == Some(d)
  }

  /** A section decodes to `d` exactly when its bytes yield `d`. */
  lemma UnwrapsIff(blob: seq<byte>, s: Section, f: Decompressor, d: seq<byte>)
    ensures Unwrap(blob, s, f) == Ok(d) <==> Yields(blob, s.encodeFlags, f, d)
  {
    if s.encodeFlags != 0 {
      var plain := Strip(if Obfuscated(s) then XorDecoded(blob) else blob);
      forall z ensures Carries(blob, s.encodeFlags, z) <==> plain == Ok(z) {
        CarriesIff(blob, s, z);
      }
      if plain.Ok? {
        UnwrapsTo(blob, plain.value, s, f);
        assert Carries(blob, s.encodeFlags, plain.value);
      }
    }
  }

  /** From a start inside the buffer, a section is decoded from its own bytes, and only if all of them are there. */
  lemma DecodesFrom(data: seq<byte>, start: u64, s: Section, f: Decompressor)
    requires start <= |data| < 0x1_0000_0000_0000_0000
    ensures var end := start + s.offset + s.length;
            Decode(data, start, s, f)
            == if end <= |data| then Unwrap(data[start + s.offset..end], s, f) else Err(OutOfBounds)
  {
    LocateInside(|data|, start, s);
  }

  // ---------------------------------------------------------------- the bounded read loses nothing

  /** The loader's 64-bit sums did not wrap. */
  predicate NoWrap(start: nat, ss: seq<Section>) {
    start + MaxEagerEnd(ss) + 64 < 0x1_0000_0000_0000_0000
  }

  lemma UnwrapNeverBounds(blob: seq<byte>, s: Section, f: Decompressor)
    ensures Unwrap(blob, s, f) != Err(OutOfBounds) && Unwrap(blob, s, f) != Err(OutsideRead)
  {
  }

  /**
    When the bounded load decodes a section as the whole file does, in terms of the section
    table and the file's size.  As long as the limit is not below the start of the container,
    and for a raw section always: unless the section lies inside the file but ends behind the
    limit.  Else, for an encoded section, only if it lies outside the file and the unsigned
    tests notice.
   */
  predicate Agrees(size: nat, limit: u64, start: u64, s: Section) {
    var end := start + s.offset + s.length;
    if start <= limit || s.encodeFlags == 0 then end <= size ==> end <= limit
    else end > size && !PassesUnsigned(limit, start, s)
  }

  lemma SameBytes(file: seq<byte>, n: nat, lo: nat, hi: nat)
    requires lo <= hi <= n <= |file|
    ensures file[..n][lo..hi] == file[lo..hi]
  {
  }

  /** From a prefix that holds the container's start. */
  lemma PrefixDecodesIff(file: seq<byte>, n: nat, start: u64, s: Section, f: Decompressor)
    requires start <= n <= |file| < 0x8000_0000_0000_0000
    ensures Decode(file[..n], start, s, f) == Decode(file, start, s, f)
            <==> (start + s.offset + s.length <= |file| ==> start + s.offset + s.length <= n)
  {
    var lo, hi := start + s.offset, start + s.offset + s.length;
    LocateInside(|file|, start, s);
    LocateInside(n, start, s);
    if hi <= n {
      SameBytes(file, n, lo, hi);
    } else if hi <= |file| {
      UnwrapNeverBounds(file[lo..hi], s, f);
    }
  }

  /** From a prefix that ends before it. */
  lemma ShortPrefixDecodesIff(file: seq<byte>, n: nat, start: u64, s: Section, f: Decompressor)
    requires n < start <= |file| < 0x8000_0000_0000_0000 && start < 0x8000_0000_0000_0000
    ensures Decode(file[..n], start, s, f) == Decode(file, start, s, f)
            <==> start + s.offset + s.length > |file| && (s.encodeFlags == 0 || !PassesUnsigned(n, start, s))
  {
    var lo, hi := start + s.offset, start + s.offset + s.length;
    LocateInside(|file|, start, s);
    if hi <= |file| {
      UnwrapNeverBounds(file[lo..hi], s, f);
      if s.encodeFlags != 0 {
        assert Add64(start, s.offset) == lo;
      }
    }
    match Locate(n, start, s)
    case Inside(at) => UnwrapNeverBounds(file[..n][at..at + s.length], s, f);
    case _ =>
  }

  /** For every file the loader accepts, wrapped sums or not, and every section of its table. */
  lemma BoundedLoadAgreesIff(file: seq<byte>, b: Bounded, i: nat, f: Decompressor)
    requires |file| < 0x8000_0000_0000_0000 && Load(file) == Some(b) && i < |b.sections|
    ensures Decode(b.data, b.start, b.sections[i], f) == Decode(file, b.start, b.sections[i], f)
            <==> Agrees(|file|, Limit(b.start, b.sections), b.start, b.sections[i])
  {
    var n := ReadLimit(file, b.start, b.sections);
    assert b.data == file[..n] && b.start <= |file|;
    if b.start <= n {
      PrefixDecodesIff(file, n, b.start, b.sections[i], f);
    } else {
      ShortPrefixDecodesIff(file, n, b.start, b.sections[i], f);
    }
  }

  /** What the loader keeps holds every eager section that lies inside the file. */
  lemma EagerFits(size: nat, start: nat, ss: seq<Section>, i: nat)
    requires start <= MAX_SHIM_SIZE + 4 && NoWrap(start, ss)
    requires i < |ss| && !Deferred(ss[i]) && !Refused(ss[i]) && size < 0x8000_0000_0000_0000
    ensures Agrees(size, Limit(start, ss), start, ss[i])
  {
    MaxCovers(ss, i);
  }

  /**
    Decoding a non-deferred section from the bounded buffer gives the same bytes, or the same
    failure, as decoding it from the whole file.  File sizes are signed 64-bit stream offsets.
   */
  lemma BoundedLoadRefinesFullLoad(file: seq<byte>, b: Bounded, i: nat, f: Decompressor)
    requires |file| < 0x8000_0000_0000_0000 && Load(file) == Some(b) && NoWrap(b.start, b.sections)
    requires i < |b.sections| && !Deferred(b.sections[i])
    ensures b.start <= |b.data| <= |file|
    ensures Decode(b.data, b.start, b.sections[i], f) == Decode(file, b.start, b.sections[i], f)
  {
    EagerFits(|file|, b.start, b.sections, i);
    BoundedLoadAgreesIff(file, b, i, f);
  }

  /** An eager section that no eager section ends behind. */
  predicate EndsLast(ss: seq<Section>, i: nat)
    requires i < |ss|
  {
    && !Deferred(ss[i])
    && forall j | 0 <= j < |ss| && !Deferred(ss[j]) ::
         ss[j].offset + ss[j].length <= ss[i].offset + ss[i].length
  }

  lemma {:induction false} MaxIsAnEnd(ss: seq<Section>) returns (i: nat)
    requires MaxEagerEnd(ss) > 0
    ensures i < |ss| && !Deferred(ss[i]) && MaxEagerEnd(ss) == Add64(ss[i].offset, ss[i].length)
    decreases |ss|
  {
    var n := |ss| - 1;
    if MaxEagerEnd(ss) == MaxEagerEnd(ss[..n]) {
      i := MaxIsAnEnd(ss[..n]);
    } else {
      i := n;
    }
  }

  lemma MaxIsLastEnd(ss: seq<Section>, i: nat)
    requires i < |ss| && EndsLast(ss, i) && ss[i].offset + ss[i].length < 0x1_0000_0000_0000_0000
    ensures MaxEagerEnd(ss) == ss[i].offset + ss[i].length
  {
    MaxCovers(ss, i);
    if MaxEagerEnd(ss) > 0 {
      var k := MaxIsAnEnd(ss);
    }
  }

  /** What is kept of a file: up to 64 bytes, the signature's place, behind the eager section that ends last. */
  lemma KeepsSignature(file: seq<byte>, b: Bounded, i: nat)
    requires Load(file) == Some(b) && i < |b.sections| && EndsLast(b.sections, i)
    requires b.start + b.sections[i].offset + b.sections[i].length + 64 < 0x1_0000_0000_0000_0000
    ensures var kept := b.start + b.sections[i].offset + b.sections[i].length + 64;
            b.data == if |file| <= kept then file else file[..kept]
  {
    MaxIsLastEnd(b.sections, i);
    assert file[..|file|] == file;
  }

  /** A 624-byte file: one 100-byte section that ends the file, and one whose end is 2^64 - 1. */
  function WrappingByte(i: nat): byte {
    if i == 0 then 0x53 else if i == 1 then 0x54 else if i == 2 then 0x41 else if i == 3 then 0x52
    else if i == 4 || i == 6 || i == 21 || i == 268 then 2
    else if i == 12 then 1
    else if i == 20 then 0x0C
    else if i == 28 then 100
    else if 276 <= i < 284 then 0xFF
    else 0
  }

  function WrappingFile(): (f: seq<byte>)
    ensures |f| == 624 && forall i | 0 <= i < 624 :: f[i] == WrappingByte(i)
  {
    seq(624, i requires 0 <= i < 624 => WrappingByte(i))
  }

  lemma WrappingWord(at: nat, b0: byte, b1: byte, b: byte)
    requires at + 4 <= 624
    requires WrappingByte(at) == b0 && WrappingByte(at + 1) == b1 && WrappingByte(at + 2) == b && WrappingByte(at + 3) == b
    ensures ReadU32(WrappingFile(), at) == Word(b0, b1, b, b)
  {
  }

  lemma FirstWrappingSection()
    ensures SectionAt(WrappingFile(), Preamble(0, 2), 0) == Section(1, 0, 0, 524, 100)
  {
    WrappingWord(16, 0, 0, 0);
    WrappingWord(20, 0x0C, 2, 0);
    WrappingWord(24, 0, 0, 0);
    WrappingWord(28, 100, 0, 0);
    WrappingWord(32, 0, 0, 0);
  }

  lemma SecondWrappingSection()
    ensures SectionAt(WrappingFile(), Preamble(0, 2), 1) == Section(2, 0, 0, 0xFFFF_FFFF_FFFF_FFFF, 0)
  {
    WrappingWord(272, 0, 0, 0);
    WrappingWord(276, 0xFF, 0xFF, 0xFF);
    WrappingWord(280, 0xFF, 0xFF, 0xFF);
    WrappingWord(284, 0, 0, 0);
    WrappingWord(288, 0, 0, 0);
  }

  lemma WrappingPreamble()
    ensures ReadPreamble(WrappingFile()) == Some(Preamble(0, 2))
  {
    var f := WrappingFile();
    assert f[..4] == MAGIC;
    assert f[0..4] == MAGIC;
  }

  lemma WrappingLimit(file: seq<byte>, ss: seq<Section>)
    requires |file| == 624 && |ss| == 2
    requires ss[0] == Section(1, 0, 0, 524, 100) && ss[1] == Section(2, 0, 0, 0xFFFF_FFFF_FFFF_FFFF, 0)
    ensures ReadLimit(file, 0, ss) == 63 && !NoWrap(0, ss) && !AnyRefused(ss)
  {
    MaxCovers(ss, 1);
  }

  lemma LostSection(file: seq<byte>, s: Section, f: Decompressor)
    requires |file| == 624 && s == Section(1, 0, 0, 524, 100)
    ensures Decode(file, 0, s, f).Ok? && Decode(file[..63], 0, s, f) == Err(OutOfBounds)
  {
  }

  lemma WrappingLoad(file: seq<byte>, p: Preamble, ss: seq<Section>)
    requires |file| == 624 && ReadPreamble(file) == Some(p) && p == Preamble(0, 2) && ss == SectionsUpTo(file, p, 2)
    requires ss[0] == Section(1, 0, 0, 524, 100) && ss[1] == Section(2, 0, 0, 0xFFFF_FFFF_FFFF_FFFF, 0)
    ensures Load(file) == Some(Bounded(0, ss, file[..63])) && !NoWrap(0, ss) && !Deferred(ss[0])
  {
    WrappingLimit(file, ss);
  }

  /** Without `NoWrap` the refinement fails: the bounded read keeps 63 bytes and loses the section. */
  lemma WrappedLimitLosesSection(f: Decompressor)
    ensures var file := WrappingFile();
            && Load(file).Some?
            && var b := Load(file).value;
               && !NoWrap(b.start, b.sections) && |b.data| == 63 && b.start == 0
               && |b.sections| == 2 && !Deferred(b.sections[0])
               && Decode(file, b.start, b.sections[0], f).Ok?
               && Decode(b.data, b.start, b.sections[0], f) == Err(OutOfBounds)
  {
    var file, p := WrappingFile(), Preamble(0, 2);
    WrappingPreamble();
    FirstWrappingSection();
    SecondWrappingSection();
    var ss := SectionsUpTo(file, p, 2);
    WrappingLoad(file, p, ss);
    LostSection(file, ss[0], f);
  }

  /** A 1000-byte file: a shim of 96 bytes and an encoded section at offset 2^64 - 120, 8 bytes long. */
  function OutsideByte(i: nat): byte {
    if i == 0 then 96
    else if i == 100 then 0x53 else if i == 101 then 0x54 else if i == 102 then 0x41 else if i == 103 then 0x52
    else if i == 104 then 2
    else if i == 106 || i == 112 then 1
    else if i == 113 then 0x40
    else if i == 120 then 0x88
    else if 121 <= i < 128 then 0xFF
    else if i == 128 then 8
    else 0
  }

  function OutsideFile(): (f: seq<byte>)
    ensures |f| == 1000 && forall i | 0 <= i < 1000 :: f[i] == OutsideByte(i)
  {
    seq(1000, i requires 0 <= i < 1000 => OutsideByte(i))
  }

  lemma OutsideWord(f: seq<byte>, at: nat, b0: byte, b: byte)
    requires f == OutsideFile() && at + 4 <= 1000
    requires OutsideByte(at) == b0 && OutsideByte(at + 1) == OutsideByte(at + 2) == OutsideByte(at + 3) == b
    ensures ReadU32(f, at) == Word(b0, b, b, b)
  {
  }

  lemma OutsideTable(f: seq<byte>)
    requires f == OutsideFile()
    ensures ReadPreamble(f) == Some(Preamble(100, 1))
    ensures SectionAt(f, Preamble(100, 1), 0) == Section(1, 0x40, 0, 0xFFFF_FFFF_FFFF_FF88, 8)
  {
    assert f[..4][0] == 96 && f[100..104] == MAGIC;
    OutsideWord(f, 0, 96, 0);
    OutsideWord(f, 116, 0, 0);
    OutsideWord(f, 120, 0x88, 0xFF);
    OutsideWord(f, 124, 0xFF, 0xFF);
    OutsideWord(f, 128, 8, 0);
    OutsideWord(f, 132, 0, 0);
  }

  /** There the loader keeps 52 bytes, less than lie before the container, and both unsigned tests pass. */
  lemma WrappedLimitPassesTests(f: Decompressor)
    ensures var file := OutsideFile();
            && Load(file).Some?
            && var b := Load(file).value;
               && b.start == 100 && |b.data| == 52 && |b.sections| == 1 && !Deferred(b.sections[0])
               && Decode(b.data, b.start, b.sections[0], f) == Err(OutsideRead)
               && Decode(file, b.start, b.sections[0], f) == Err(OutOfBounds)
  {
    var file, p := OutsideFile(), Preamble(100, 1);
    OutsideTable(file);
    var ss := SectionsUpTo(file, p, 1);
    OutsideLoad(file, p, ss);
    OutsideDecodes(file[..52], file, ss[0], f);
  }

  lemma OutsideLoad(file: seq<byte>, p: Preamble, ss: seq<Section>)
    requires |file| == 1000 && ReadPreamble(file) == Some(p) && p == Preamble(100, 1)
    requires ss == SectionsUpTo(file, p, 1) && ss[0] == Section(1, 0x40, 0, 0xFFFF_FFFF_FFFF_FF88, 8)
    ensures Load(file) == Some(Bounded(100, ss, file[..52])) && !Deferred(ss[0])
  {
    OutsideLimit(ss);
  }

  lemma OutsideLimit(ss: seq<Section>)
    requires |ss| == 1 && ss[0] == Section(1, 0x40, 0, 0xFFFF_FFFF_FFFF_FF88, 8)
    ensures !AnyRefused(ss) && !Deferred(ss[0]) && Limit(100, ss) == 52
  {
    assert ss[..0] == [];
    assert MaxEagerEnd(ss) == WithEnd(0, ss[0]) == 0xFFFF_FFFF_FFFF_FF90;
  }

  lemma OutsideDecodes(data: seq<byte>, file: seq<byte>, s: Section, f: Decompressor)
    requires |data| == 52 && |file| == 1000 && s == Section(1, 0x40, 0, 0xFFFF_FFFF_FFFF_FF88, 8)
    ensures Decode(data, 100, s, f) == Err(OutsideRead) && Decode(file, 100, s, f) == Err(OutOfBounds)
  {
    assert Sub64(52, 100) == 0xFFFF_FFFF_FFFF_FFD0 && Add64(100, s.offset) == 0xFFFF_FFFF_FFFF_FFEC;
    assert Locate(52, 100, s) == Outside && Locate(1000, 100, s) == Beyond;
  }

  // ---------------------------------------------------------------- sub-entries

  datatype SubEntry = SubEntry(name: seq<byte>, data: seq<byte>)

  /** Header fields of the sub-entry at `pos`. */
  function NameLen(d: seq<byte>, pos: nat): nat
    requires pos + 6 <= |d|
  {
    ReadU16(d, pos)
  }

  function DataLen(d: seq<byte>, pos: nat): nat
    requires pos + 6 <= |d|
  {
    ReadU32(d, pos + 2)
  }

  /** A whole sub-entry lies at `pos`. */
  predicate EntryFits(d: seq<byte>, pos: nat) {
    pos + 6 <= |d| && pos + 6 + NameLen(d, pos) + DataLen(d, pos) <= |d|
  }

  function EntryAt(d: seq<byte>, pos: nat): SubEntry
    requires EntryFits(d, pos)
  {
    var mid := pos + 6 + NameLen(d, pos);
    SubEntry(d[pos + 6..mid], d[mid..mid + DataLen(d, pos)])
  }

  /** Where the full parser goes next: `name_len + data_len` is added up in 32 bits. */
  function NextPos(d: seq<byte>, pos: nat): nat
    requires pos + 6 <= |d|
  {
    pos + 6 + (NameLen(d, pos) + DataLen(d, pos)) % 0x1_0000_0000
  }

  function ParseFrom(d: seq<byte>, pos: nat, n: nat): Option<seq<SubEntry>>
    decreases n
  {
    if n == 0 then Some([])
    else if !EntryFits(d, pos) then None
    else Prepended(EntryAt(d, pos), ParseFrom(d, NextPos(d, pos), n - 1))
  }

  function Prepended(e: SubEntry, rest: Option<seq<SubEntry>>): Option<seq<SubEntry>> {
    if rest.None? then None else Some([e] + rest.value)
  }

  function ParseSubEntries(d: seq<byte>): Option<seq<SubEntry>> {
    if |d| < 4 then None else ParseFrom(d, 4, ReadU32(d, 0))
  }

  function Onto(out: seq<SubEntry>, r: Option<seq<SubEntry>>): Option<seq<SubEntry>> {
    if r.Some? then Some(out + r.value) else None
  }

  lemma OntoNothing(out: seq<SubEntry>, r: Option<seq<SubEntry>>)
    ensures Onto([], r) == r && Onto(out, Some([])) == Some(out)
  {
    assert r.Some? ==> [] + r.value == r.value;
    assert out + [] == out;
  }

  lemma ParseOne(out: seq<SubEntry>, d: seq<byte>, pos: nat, n: nat)
    requires n > 0 && EntryFits(d, pos)
    ensures Onto(out, ParseFrom(d, pos, n)) == Onto(out + [EntryAt(d, pos)], ParseFrom(d, NextPos(d, pos), n - 1))
  {
    var rest := ParseFrom(d, NextPos(d, pos), n - 1);
    if rest.Some? {
      assert out + ([EntryAt(d, pos)] + rest.value) == out + [EntryAt(d, pos)] + rest.value;
    }
  }

  /** One turn of the parser's loop: the two truncation tests, the entry, and the new position. */
  method ReadEntry(d: seq<byte>, pos: nat) returns (fits: bool, entry: SubEntry, next: nat)
    ensures fits == EntryFits(d, pos)
    ensures fits ==> entry == EntryAt(d, pos) && next == NextPos(d, pos)
  {
    fits, entry, next := false, SubEntry([], []), pos;
    if pos + 6 > |d| {
      return;
    }
    var nameLen, dataLen := ReadU16(d, pos), ReadU32(d, pos + 2);
    if nameLen > |d| - (pos + 6) {
      return;
    }
    var afterName := pos + 6 + nameLen;
    if dataLen > |d| - afterName {
      return;
    }
    fits := true;
    entry := SubEntry(d[pos + 6..afterName], d[afterName..afterName + dataLen]);
    next := pos + 6 + (nameLen + dataLen) % 0x1_0000_0000;
  }

  /** `star_parse_sub_entries`; its exceptions become `None`. */
  method ParseEntries(d: seq<byte>) returns (r: Option<seq<SubEntry>>)
    ensures r == ParseSubEntries(d)
  {
    if |d| < 4 {
      return None;
    }
    var count: nat := ReadU32(d, 0);
    var entries: seq<SubEntry> := [];
    var pos: nat := 4;
    ghost var whole := ParseFrom(d, pos, count);
    OntoNothing(entries, whole);
    var i: nat := 0;
    ghost var left: nat := count;
    while i < count
      invariant i + left == count
      invariant whole == Onto(entries, ParseFrom(d, pos, left))
      decreases left
    {
      var fits, entry, next := ReadEntry(d, pos);
      if !fits {
        return None;
      }
      ParseOne(entries, d, pos, left);
      entries := entries + [entry];
      pos := next;
      i := i + 1;
      left := left - 1;
    }
    OntoNothing(entries, None);
    return Some(entries);
  }

  // ---------------------------------------------------------------- the header-only walk

  /** `AssetEntry`: where the data lies in the file, how long it is, and the size its first word announces. */
  datatype Asset = Asset(offset: nat, length: nat, unpacked: nat)

  type AssetIndex = map<seq<byte>, Asset>

  /** Where the stream stands after one header, name and skip; `None` when the stream has failed. */
  function WalkTo(file: seq<byte>, pos: nat): Option<nat>
    requires pos + 6 <= |file| && pos + 6 + NameLen(file, pos) <= |file|
  {
    var mid := pos + 6 + NameLen(file, pos);
    if DataLen(file, pos) >= 4 && mid + 4 > |file| then None else Some(mid + DataLen(file, pos))
  }

  function AssetAt(file: seq<byte>, pos: nat): Asset
    requires pos + 6 <= |file| && pos + 6 + NameLen(file, pos) <= |file|
  {
    var mid, len := pos + 6 + NameLen(file, pos), DataLen(file, pos);
    Asset(mid, len, if len >= 4 && mid + 4 <= |file| then ReadU32(file, mid) else 0)
  }

  /** The rest of the walk: `n` more headers from `pos`, added to what is indexed already. */
  function WalkFrom(file: seq<byte>, pos: nat, n: nat, index: AssetIndex): AssetIndex
    decreases n
  {
    if n == 0 || pos + 6 > |file| || pos + 6 + NameLen(file, pos) > |file| then index
    else
      var more := index[file[pos + 6..pos + 6 + NameLen(file, pos)] := AssetAt(file, pos)];
      match WalkTo(file, pos)
      case None => more
      case Some(next) => WalkFrom(file, next, n - 1, more)
  }

  /** One header of the walk, its name known to lie inside the file; no next position once the stream has failed. */
  method ReadAsset(file: seq<byte>, pos: nat, nameLen: nat) returns (asset: Asset, next: Option<nat>)
    requires pos + 6 <= |file| && nameLen == NameLen(file, pos) && pos + 6 + nameLen <= |file|
    ensures asset == AssetAt(file, pos) && next == WalkTo(file, pos)
  {
    var dataLen, dataOffset := ReadU32(file, pos + 2), pos + 6 + nameLen;
    var unpacked := 0;
    if dataLen < 4 {
      next := Some(dataOffset + dataLen);
    } else if dataOffset + 4 <= |file| {
      unpacked := ReadU32(file, dataOffset);
      next := Some(dataOffset + 4 + (dataLen - 4));
    } else {
      next := None;
    }
    asset := Asset(dataOffset, dataLen, unpacked);
  }

  /** The loop of `star_read_asset_index`, with the stream's position, if it has not failed. */
  method WalkAssets(file: seq<byte>, start: nat, count: nat) returns (index: AssetIndex)
    ensures index == WalkFrom(file, start, count, map[])
  {
    index := map[];
    var at, left: nat := Some(start), count;
    while left > 0 && at.Some?
      invariant WalkFrom(file, start, count, map[])
                == if at.Some? then WalkFrom(file, at.value, left, index) else index
      decreases left
    {
      var pos := at.value;
      if pos + 6 > |file| {
        return;
      }
      var nameLen := ReadU16(file, pos);
      if pos + 6 + nameLen > |file| {
        return;
      }
      var asset, next := ReadAsset(file, pos, nameLen);
      index := index[file[pos + 6..pos + 6 + nameLen] := asset];
      at, left := next, left - 1;
    }
  }

  function FirstAssets(ss: seq<Section>): Option<Section> {
    if ss == [] then None
    else if ss[0].id == SEC_ASSETS then Some(ss[0])
    else FirstAssets(ss[1..])
  }

  /** The section whose headers the walk reads, with the position of its first byte. */
  function WalkedSection(file: seq<byte>): Option<(Section, nat)> {
    match ReadPreamble(file)
    case None => None
    case Some(p) =>
      match FirstAssets(SectionsUpTo(file, p, p.count))
      case None => None
      case Some(s) =>
        if s.encodeFlags != 0 || s.length == 0 || Slice(file, p.start, s.offset, s.length).None? then None
        else Some((s, p.start + s.offset))
  }

  /** `star_read_asset_index`. */
  function ReadAssetIndex(file: seq<byte>): AssetIndex {
    match WalkedSection(file)
    case None => map[]
    case Some((s, at)) =>
      if at + 4 > |file| || ReadU32(file, at) > 65536 then map[]
      else WalkFrom(file, at + 4, ReadU32(file, at), map[])
  }

  lemma {:induction false} FirstAssetsAt(ss: seq<Section>, i: nat)
    requires i <= |ss| && (forall j | 0 <= j < i :: ss[j].id != 5) && (i < |ss| ==> ss[i].id == 5)
    ensures FirstAssets(ss) == if i < |ss| then Some(ss[i]) else None
    decreases i
  {
    if i > 0 {
      FirstAssetsAt(ss[1..], i - 1);
    }
  }

  /** The walk reads the first section of kind 5, and only one that is stored raw, not empty and all there. */
  lemma WalkedIff(file: seq<byte>, p: Preamble, i: nat)
    requires ReadPreamble(file) == Some(p) && i <= p.count
    requires forall j | 0 <= j < i :: SectionAt(file, p, j).id != 5
    requires i < p.count ==> SectionAt(file, p, i).id == 5
    ensures if i == p.count then WalkedSection(file) == None
            else
              var s := SectionAt(file, p, i);
              WalkedSection(file)
              == if s.encodeFlags == 0 && s.length > 0 && p.start + s.offset + s.length <= |file|
                 then Some((s, p.start + s.offset)) else None
  {
    FirstAssetsAt(SectionsUpTo(file, p, p.count), i);
  }

  predicate Named(es: seq<SubEntry>, name: seq<byte>) {
    exists i | 0 <= i < |es| :: es[i].name == name
  }

  function LastNamed(es: seq<SubEntry>, name: seq<byte>): SubEntry
    requires Named(es, name)
  {
    if Named(es[1..], name) then LastNamed(es[1..], name) else es[0]
  }

  /** The asset lies inside the file and holds the data of `e`. */
  predicate Holds(file: seq<byte>, a: Asset, e: SubEntry) {
    && a.offset + a.length <= |file|
    && file[a.offset..a.offset + a.length] == e.data
    && a.unpacked == if |e.data| >= 4 then ReadU32(e.data, 0) else 0
  }

  /** No entry but the last is so long that the parser's 32-bit sum wraps. */
  predicate ShortEntries(es: seq<SubEntry>) {
    forall i | 0 <= i < |es| - 1 :: |es[i].name| + |es[i].data| < 0x1_0000_0000
  }

  /** `index` is what was there before, overridden by the last entry of each name. */
  ghost predicate Indexes(file: seq<byte>, index: AssetIndex, es: seq<SubEntry>, before: AssetIndex) {
    && (forall name :: name in index <==> name in before || Named(es, name))
    && (forall name | name in index && Named(es, name) :: Holds(file, index[name], LastNamed(es, name)))
    && (forall name | name in index && !Named(es, name) && name in before :: index[name] == before[name])
  }

  /** d is the part of the file that starts at `lo`. */
  predicate Window(file: seq<byte>, lo: nat, d: seq<byte>) {
    lo + |d| <= |file| && forall i | 0 <= i < |d| :: d[i] == file[lo + i]
  }

  lemma SliceIsWindow(file: seq<byte>, lo: nat, hi: nat)
    requires lo <= hi <= |file|
    ensures Window(file, lo, file[lo..hi])
  {
  }

  lemma SubSlice(file: seq<byte>, lo: nat, d: seq<byte>, i: nat, j: nat)
    requires Window(file, lo, d) && i <= j <= |d|
    ensures d[i..j] == file[lo + i..lo + j]
  {
    var a, b := d[i..j], file[lo + i..lo + j];
    forall k | 0 <= k < |a| ensures a[k] == b[k] {
      assert d[i + k] == file[lo + (i + k)];
    }
  }

  lemma FieldsAgree(file: seq<byte>, lo: nat, d: seq<byte>, pos: nat)
    requires Window(file, lo, d) && pos + 6 <= |d|
    ensures NameLen(file, lo + pos) == NameLen(d, pos) && DataLen(file, lo + pos) == DataLen(d, pos)
  {
    assert d[pos] == file[lo + pos] && d[pos + 1] == file[lo + pos + 1];
    SubSlice(file, lo, d, pos + 2, pos + 6);
    ReadsSame(d, pos + 2, file, lo + pos + 2);
  }

  // The section as it lies in the file, from its start to `hi`.

  /** A whole sub-entry lies at `pos` and ends by `hi`. */
  predicate FitsIn(file: seq<byte>, pos: nat, hi: nat) {
    pos + 6 <= hi <= |file| && pos + 6 + NameLen(file, pos) + DataLen(file, pos) <= hi
  }

  function ParseIn(file: seq<byte>, pos: nat, hi: nat, n: nat): Option<seq<SubEntry>>
    decreases n
  {
    if n == 0 then Some([])
    else if !FitsIn(file, pos, hi) then None
    else Prepended(EntryAt(file, pos), ParseIn(file, NextPos(file, pos), hi, n - 1))
  }

  lemma HeaderInFile(file: seq<byte>, lo: nat, d: seq<byte>, pos: nat)
    requires Window(file, lo, d)
    ensures EntryFits(d, pos) <==> FitsIn(file, lo + pos, lo + |d|)
    ensures EntryFits(d, pos) ==>
              && NameLen(file, lo + pos) == NameLen(d, pos) && DataLen(file, lo + pos) == DataLen(d, pos)
              && lo + NextPos(d, pos) == NextPos(file, lo + pos)
  {
    if pos + 6 <= |d| {
      FieldsAgree(file, lo, d, pos);
    }
  }

  lemma EntryInFile(file: seq<byte>, lo: nat, d: seq<byte>, pos: nat)
    requires Window(file, lo, d)
    ensures EntryFits(d, pos) <==> FitsIn(file, lo + pos, lo + |d|)
    ensures EntryFits(d, pos) ==>
              EntryAt(d, pos) == EntryAt(file, lo + pos) && lo + NextPos(d, pos) == NextPos(file, lo + pos)
  {
    HeaderInFile(file, lo, d, pos);
    if EntryFits(d, pos) {
      var mid := pos + 6 + NameLen(d, pos);
      var end := mid + DataLen(d, pos);
      SubSlice(file, lo, d, pos + 6, mid);
      SubSlice(file, lo, d, mid, end);
    }
  }

  /** The entries es stand at ps, each where the parser goes on from the one before. */
  predicate Chained(file: seq<byte>, hi: nat, ps: seq<nat>, es: seq<SubEntry>) {
    |ps| == |es| + 1 && forall i | 0 <= i < |es| :: Link(file, hi, ps[i], es[i], ps[i + 1])
  }

  predicate Link(file: seq<byte>, hi: nat, p: nat, e: SubEntry, next: nat) {
    FitsIn(file, p, hi) && e == EntryAt(file, p) && next == NextPos(file, p)
  }

  lemma {:induction false} ChainOfParse(d: seq<byte>, pos: nat, n: nat, es: seq<SubEntry>) returns (ps: seq<nat>)
    requires ParseFrom(d, pos, n) == Some(es)
    ensures |es| == n && Chained(d, |d|, ps, es) && ps[0] == pos
    decreases n
  {
    if n == 0 {
      ps := [pos];
    } else {
      var rest := ParseFrom(d, NextPos(d, pos), n - 1).value;
      var qs := ChainOfParse(d, NextPos(d, pos), n - 1, rest);
      ps := [pos] + qs;
      forall i | 0 <= i < |es| ensures Link(d, |d|, ps[i], es[i], ps[i + 1]) {
        if i > 0 {
          assert Link(d, |d|, qs[i - 1], rest[i - 1], qs[i]);
        }
      }
    }
  }

  lemma ChainInFile(file: seq<byte>, lo: nat, d: seq<byte>, ps: seq<nat>, es: seq<SubEntry>) returns (qs: seq<nat>)
    requires Window(file, lo, d) && Chained(d, |d|, ps, es)
    ensures Chained(file, lo + |d|, qs, es) && qs[0] == lo + ps[0]
  {
    qs := seq(|ps|, i requires 0 <= i < |ps| => lo + ps[i]);
    forall i | 0 <= i < |es| ensures Link(file, lo + |d|, qs[i], es[i], qs[i + 1]) {
      assert Link(d, |d|, ps[i], es[i], ps[i + 1]);
      EntryInFile(file, lo, d, ps[i]);
    }
  }

  lemma {:induction false} ParseOfChain(file: seq<byte>, hi: nat, ps: seq<nat>, es: seq<SubEntry>)
    requires Chained(file, hi, ps, es)
    ensures ParseIn(file, ps[0], hi, |es|) == Some(es)
    decreases |es|
  {
    if es != [] {
      var qs, rest := ps[1..], es[1..];
      forall i | 0 <= i < |rest| ensures Link(file, hi, qs[i], rest[i], qs[i + 1]) {
        assert Link(file, hi, ps[i + 1], es[i + 1], ps[i + 2]);
      }
      ParseOfChain(file, hi, qs, rest);
      assert Link(file, hi, ps[0], es[0], ps[1]);
      assert es == [es[0]] + rest;
    }
  }

  lemma {:induction false} ParseCounts(file: seq<byte>, pos: nat, hi: nat, n: nat)
    ensures ParseIn(file, pos, hi, n).Some? ==> |ParseIn(file, pos, hi, n).value| == n
    decreases n
  {
    if n > 0 && FitsIn(file, pos, hi) {
      ParseCounts(file, NextPos(file, pos), hi, n - 1);
    }
  }

  lemma ParseStep(file: seq<byte>, pos: nat, hi: nat, n: nat, es: seq<SubEntry>)
    requires n > 0 && ParseIn(file, pos, hi, n) == Some(es)
    ensures FitsIn(file, pos, hi) && |es| == n && es == [EntryAt(file, pos)] + es[1..]
    ensures ParseIn(file, NextPos(file, pos), hi, n - 1) == Some(es[1..])
  {
    ParseCounts(file, pos, hi, n);
    var rest := ParseIn(file, NextPos(file, pos), hi, n - 1).value;
    assert ([EntryAt(file, pos)] + rest)[1..] == rest;
  }

  /** The end of the entry at `pos`, added up without a wrap. */
  function EndOf(file: seq<byte>, pos: nat): nat
    requires pos + 6 <= |file|
  {
    pos + 6 + NameLen(file, pos) + DataLen(file, pos)
  }

  lemma NextPosIff(file: seq<byte>, pos: nat)
    requires EntryFits(file, pos)
    ensures NextPos(file, pos) == EndOf(file, pos)
            <==> |EntryAt(file, pos).name| + |EntryAt(file, pos).data| < 0x1_0000_0000
  {
  }

  lemma FirstWordAgrees(file: seq<byte>, at: nat, data: seq<byte>)
    requires Window(file, at, data) && |data| >= 4
    ensures ReadU32(data, 0) == ReadU32(file, at)
  {
    SubSlice(file, at, data, 0, 4);
    ReadsSame(data, 0, file, at);
  }

  /** What the walk does at a whole entry. */
  lemma WalkAtEntry(file: seq<byte>, pos: nat)
    requires EntryFits(file, pos)
    ensures WalkTo(file, pos) == Some(EndOf(file, pos)) && Holds(file, AssetAt(file, pos), EntryAt(file, pos))
  {
    var e, mid := EntryAt(file, pos), pos + 6 + NameLen(file, pos);
    if |e.data| >= 4 {
      SliceIsWindow(file, mid, mid + DataLen(file, pos));
      FirstWordAgrees(file, mid, e.data);
    }
  }

  lemma NamedCons(e: SubEntry, rest: seq<SubEntry>, name: seq<byte>)
    ensures Named([e] + rest, name) <==> e.name == name || Named(rest, name)
    ensures Named([e] + rest, name) ==> LastNamed([e] + rest, name) == if Named(rest, name) then LastNamed(rest, name) else e
  {
    var es := [e] + rest;
    assert es[1..] == rest;
    if e.name == name {
      assert es[0].name == name;
    }
    if Named(rest, name) {
      var i :| 0 <= i < |rest| && rest[i].name == name;
      assert es[i + 1].name == name;
    }
  }

  /** Walking the rest and then counting the head as already indexed is walking both. */
  lemma IndexesCons(file: seq<byte>, index: AssetIndex, e: SubEntry, a: Asset, rest: seq<SubEntry>, before: AssetIndex)
    requires Holds(file, a, e) && Indexes(file, index, rest, before[e.name := a])
    ensures Indexes(file, index, [e] + rest, before)
  {
    forall name ensures Named([e] + rest, name) <==> e.name == name || Named(rest, name) {
      NamedCons(e, rest, name);
    }
    forall name | name in index && Named([e] + rest, name) ensures Holds(file, index[name], LastNamed([e] + rest, name)) {
      NamedCons(e, rest, name);
    }
  }

  lemma ShortTail(es: seq<SubEntry>, rest: seq<SubEntry>)
    requires |es| > 1 && rest == es[1..]
    ensures ShortEntries(es) <==> ShortEntries(rest) && |es[0].name| + |es[0].data| < 0x1_0000_0000
  {
    if ShortEntries(rest) && |es[0].name| + |es[0].data| < 0x1_0000_0000 {
      forall i | 0 <= i < |es| - 1 ensures |es[i].name| + |es[i].data| < 0x1_0000_0000 {
        assert i > 0 ==> es[i] == rest[i - 1];
      }
    }
    if ShortEntries(es) {
      forall i | 0 <= i < |rest| - 1 ensures |rest[i].name| + |rest[i].data| < 0x1_0000_0000 {
        assert rest[i] == es[i + 1];
      }
    }
  }

  /** Where in the file the parser finds its entries. */
  function ParsePositions(file: seq<byte>, pos: nat, hi: nat, n: nat): seq<nat>
    decreases n
  {
    if n == 0 || !FitsIn(file, pos, hi) then [] else [pos] + ParsePositions(file, NextPos(file, pos), hi, n - 1)
  }

  /** Where the walk reads headers. */
  function WalkPositions(file: seq<byte>, pos: nat, n: nat): seq<nat>
    decreases n
  {
    if n == 0 || pos + 6 > |file| || pos + 6 + NameLen(file, pos) > |file| then []
    else
      match WalkTo(file, pos)
      case None => [pos]
      case Some(next) => [pos] + WalkPositions(file, next, n - 1)
  }

  lemma PositionsStep(file: seq<byte>, pos: nat, hi: nat, n: nat)
    requires n > 0 && FitsIn(file, pos, hi)
    ensures WalkPositions(file, pos, n) == [pos] + WalkPositions(file, EndOf(file, pos), n - 1)
    ensures ParsePositions(file, pos, hi, n) == [pos] + ParsePositions(file, NextPos(file, pos), hi, n - 1)
  {
    WalkAtEntry(file, pos);
  }

  /** Readers that go on from different places visit different ones. */
  lemma PositionsPart(file: seq<byte>, next: nat, at: nat, hi: nat, n: nat)
    requires n > 0 && FitsIn(file, at, hi)
    ensures WalkPositions(file, next, n) == ParsePositions(file, at, hi, n) ==> next == at
  {
    var p, q := WalkPositions(file, next, n), ParsePositions(file, at, hi, n);
    assert q[0] == at;
    assert p != [] ==> p[0] == next;
  }

  lemma Behind(a: nat, p: seq<nat>, q: seq<nat>)
    ensures [a] + p == [a] + q <==> p == q
  {
    assert ([a] + p)[1..] == p && ([a] + q)[1..] == q;
  }

  /** Parser and walk visit the same places exactly when no entry but the last makes the parser's sum wrap. */
  lemma {:induction false} PositionsCoincideIff(file: seq<byte>, pos: nat, hi: nat, n: nat, es: seq<SubEntry>)
    requires ParseIn(file, pos, hi, n) == Some(es)
    ensures WalkPositions(file, pos, n) == ParsePositions(file, pos, hi, n) <==> ShortEntries(es)
    decreases n
  {
    if n > 0 {
      ParseStep(file, pos, hi, n, es);
      var end, at, rest := EndOf(file, pos), NextPos(file, pos), es[1..];
      PositionsStep(file, pos, hi, n);
      Behind(pos, WalkPositions(file, end, n - 1), ParsePositions(file, at, hi, n - 1));
      if n > 1 {
        NextPosIff(file, pos);
        ShortTail(es, rest);
        ParseStep(file, at, hi, n - 1, rest);
        PositionsPart(file, end, at, hi, n - 1);
        PositionsCoincideIff(file, at, hi, n - 1, rest);
      }
    }
  }

  lemma WalkStep(file: seq<byte>, pos: nat, n: nat, before: AssetIndex)
    requires n > 0 && EntryFits(file, pos)
    ensures WalkFrom(file, pos, n, before)
            == WalkFrom(file, EndOf(file, pos), n - 1, before[EntryAt(file, pos).name := AssetAt(file, pos)])
    ensures Holds(file, AssetAt(file, pos), EntryAt(file, pos))
  {
    WalkAtEntry(file, pos);
  }

  /** Where they visit the same places, the walk indexes the entries the parser reads. */
  lemma {:induction false} WalkAgreesFrom(file: seq<byte>, pos: nat, hi: nat, n: nat, es: seq<SubEntry>, before: AssetIndex)
    requires ParseIn(file, pos, hi, n) == Some(es) && ShortEntries(es)
    ensures Indexes(file, WalkFrom(file, pos, n, before), es, before)
    decreases n
  {
    if n > 0 {
      ParseStep(file, pos, hi, n, es);
      var e, a, rest := EntryAt(file, pos), AssetAt(file, pos), es[1..];
      var more := before[e.name := a];
      WalkStep(file, pos, n, before);
      if n > 1 {
        ShortTail(es, rest);
        NextPosIff(file, pos);
        WalkAgreesFrom(file, NextPos(file, pos), hi, n - 1, rest, more);
      }
      IndexesCons(file, WalkFrom(file, EndOf(file, pos), n - 1, more), e, a, rest, before);
    }
  }

  lemma ChainOfSection(d: seq<byte>, es: seq<SubEntry>) returns (ps: seq<nat>)
    requires ParseSubEntries(d) == Some(es)
    ensures |d| >= 4 && ReadU32(d, 0) == |es| && Chained(d, |d|, ps, es) && ps[0] == 4
  {
    ps := ChainOfParse(d, 4, ReadU32(d, 0), es);
  }

  /** The walk over a section whose entries the parser finds at `ps`. */
  lemma WalkAgreesIn(file: seq<byte>, at: nat, hi: nat, ps: seq<nat>, es: seq<SubEntry>)
    requires Chained(file, hi, ps, es) && ps[0] == at
    ensures WalkPositions(file, at, |es|) == ParsePositions(file, at, hi, |es|) <==> ShortEntries(es)
    ensures ShortEntries(es) ==> Indexes(file, WalkFrom(file, at, |es|, map[]), es, map[])
  {
    ParseOfChain(file, hi, ps, es);
    PositionsCoincideIff(file, at, hi, |es|, es);
    if ShortEntries(es) {
      WalkAgreesFrom(file, at, hi, |es|, es, map[]);
    }
  }

  lemma IndexIsWalk(file: seq<byte>, s: Section, at: nat, n: nat)
    requires WalkedSection(file) == Some((s, at)) && at + 4 <= |file| && n == ReadU32(file, at) <= 65536
    ensures ReadAssetIndex(file) == WalkFrom(file, at + 4, n, map[])
  {
  }

  /**
    The walk visits the places the parser visits exactly when no entry but the last makes the
    parser's 32-bit sum wrap; and then it indexes exactly the names of the sub-entries, each
    (offset, length) slicing out of the file the data of the last sub-entry with that name.
   */
  ghost predicate WalkAgrees(file: seq<byte>, at: nat, hi: nat, es: seq<SubEntry>) {
    && (WalkPositions(file, at + 4, |es|) == ParsePositions(file, at + 4, hi, |es|) <==> ShortEntries(es))
    && (ShortEntries(es) ==> Indexes(file, ReadAssetIndex(file), es, map[]))
  }

  lemma CopyIsChained(file: seq<byte>, at: nat, d: seq<byte>, es: seq<SubEntry>) returns (qs: seq<nat>)
    requires Window(file, at, d) && ParseSubEntries(d) == Some(es)
    ensures at + 4 <= |file| && ReadU32(file, at) == |es| && Chained(file, at + |d|, qs, es) && qs[0] == at + 4
  {
    var ps := ChainOfSection(d, es);
    qs := ChainInFile(file, at, d, ps, es);
    FirstWordAgrees(file, at, d);
  }

  lemma IndexAgreesIn(file: seq<byte>, s: Section, at: nat, hi: nat, ps: seq<nat>, es: seq<SubEntry>)
    requires WalkedSection(file) == Some((s, at)) && at + 4 <= |file| && ReadU32(file, at) == |es| <= 65536
    ensures Chained(file, hi, ps, es) && ps[0] == at + 4 ==> WalkAgrees(file, at, hi, es)
  {
    if Chained(file, hi, ps, es) && ps[0] == at + 4 {
      WalkAgreesIn(file, at + 4, hi, ps, es);
      IndexIsWalk(file, s, at, |es|);
    }
  }

  /** For every assets section of at most 65536 entries that the parser accepts. */
  lemma AssetWalkAgreesWithParse(file: seq<byte>, s: Section, at: nat, d: seq<byte>, es: seq<SubEntry>)
    requires WalkedSection(file) == Some((s, at)) && Window(file, at, d) && |d| == s.length
    requires ParseSubEntries(d) == Some(es) && |es| <= 65536
    ensures WalkAgrees(file, at, at + |d|, es)
  {
    var qs := CopyIsChained(file, at, d, es);
    IndexAgreesIn(file, s, at, at + |d|, qs, es);
  }

  /** A section below 4 GiB meets the condition whatever it holds. */
  lemma {:induction false} SmallSectionsHaveShortEntries(d: seq<byte>, pos: nat, n: nat)
    requires ParseFrom(d, pos, n).Some? && |d| < 0x1_0000_0000
    ensures ShortEntries(ParseFrom(d, pos, n).value)
    decreases n
  {
    if n > 0 {
      SmallSectionsHaveShortEntries(d, NextPos(d, pos), n - 1);
      var rest := ParseFrom(d, NextPos(d, pos), n - 1).value;
      var es := [EntryAt(d, pos)] + rest;
      forall i | 0 <= i < |es| - 1 ensures |es[i].name| + |es[i].data| < 0x1_0000_0000 {
        if i > 0 {
          assert es[i] == rest[i - 1];
        }
      }
    }
  }

  /** An assets section of 2^32 + 10 bytes: two entries, the first one 2^32 bytes long. */
  function LongSection(): (d: seq<byte>)
    ensures |d| == 0x1_0000_000A
    ensures forall i | 0 <= i < |d| :: d[i] == LongByte(i)
  {
    seq(0x1_0000_000A, i requires 0 <= i < 0x1_0000_000A => LongByte(i))
  }

  function LongByte(i: nat): byte {
    if i == 0 then 2 else if i == 4 then 1 else if 6 <= i < 10 then 0xFF else 0
  }

  lemma LongHeaders(d: seq<byte>)
    requires d == LongSection()
    ensures ReadU32(d, 0) == 2 && NameLen(d, 4) == 1 && DataLen(d, 4) == 0xFFFF_FFFF
    ensures NameLen(d, 10) == 0 && DataLen(d, 10) == 0
  {
    assert d[0] == 2 && d[1] == 0 && d[2] == 0 && d[3] == 0 && d[4] == 1 && d[5] == 0;
    assert d[6] == 0xFF && d[7] == 0xFF && d[8] == 0xFF && d[9] == 0xFF;
    assert d[10] == 0 && d[11] == 0 && d[12] == 0 && d[13] == 0 && d[14] == 0 && d[15] == 0;
  }

  lemma LongParse(d: seq<byte>)
    requires |d| == 0x1_0000_000A && NameLen(d, 4) == 1 && DataLen(d, 4) == 0xFFFF_FFFF
    requires NameLen(d, 10) == 0 && DataLen(d, 10) == 0
    ensures NextPos(d, 4) == 10 && EntryFits(d, 4) && EntryFits(d, 10)
    ensures ParseFrom(d, 4, 2) == Some([EntryAt(d, 4)] + ([EntryAt(d, 10)] + []))
  {
    assert ParseFrom(d, NextPos(d, 10), 0) == Some([]);
    assert ParseFrom(d, 10, 1) == Some([EntryAt(d, 10)] + []);
  }

  /** A `.star` file of 268 bytes of header and table, and that section. */
  function LongFile(): (f: seq<byte>)
    ensures |f| == 0x1_0000_0116
    ensures forall i | 0 <= i < |f| :: f[i] == LongFileByte(i)
  {
    seq(0x1_0000_0116, i requires 0 <= i < 0x1_0000_0116 => LongFileByte(i))
  }

  function LongFileByte(i: nat): byte {
    if i >= 268 then LongByte(i - 268)
    else if i == 0 then 0x53 else if i == 1 then 0x54 else if i == 2 then 0x41 else if i == 3 then 0x52
    else if i == 4 then 2
    else if i == 6 || i == 21 || i == 32 then 1
    else if i == 12 then 5
    else if i == 20 then 0x0C
    else if i == 28 then 0x0A
    else 0
  }

  lemma LongWord(f: seq<byte>, at: nat, b0: byte, b1: byte)
    requires f == LongFile() && at + 4 <= 268
    requires LongFileByte(at) == b0 && LongFileByte(at + 1) == b1 && LongFileByte(at + 2) == LongFileByte(at + 3) == 0
    ensures ReadU32(f, at) == Word(b0, b1, 0, 0)
  {
  }

  lemma LongTable(f: seq<byte>)
    requires f == LongFile()
    ensures ReadPreamble(f) == Some(Preamble(0, 1))
    ensures SectionAt(f, Preamble(0, 1), 0) == Section(5, 0, 0, 268, 0x1_0000_000A)
  {
    assert f[..4] == MAGIC && f[0..4] == MAGIC;
    LongWord(f, 16, 0, 0);
    LongWord(f, 20, 0x0C, 1);
    LongWord(f, 24, 0, 0);
    LongWord(f, 28, 0x0A, 0);
    LongWord(f, 32, 1, 0);
  }

  lemma LongFileHolds(f: seq<byte>, d: seq<byte>)
    requires f == LongFile() && d == LongSection()
    ensures Window(f, 268, d) && f[268..268 + |d|] == d
  {
    var e := f[268..268 + |d|];
    forall i | 0 <= i < |d| ensures e[i] == d[i] == f[268 + i] {
      assert e[i] == f[268 + i];
    }
  }

  lemma LongIndex(f: seq<byte>, d: seq<byte>)
    requires f == LongFile() && d == LongSection()
    requires Window(f, 268, d) && EntryFits(d, 4) && NameLen(d, 4) == 1 && DataLen(d, 4) == 0xFFFF_FFFF
    ensures [] !in WalkFrom(f, 272, 2, map[])
  {
    EntryInFile(f, 268, d, 4);
    FieldsAgree(f, 268, d, 4);
    WalkStep(f, 272, 2, map[]);
    assert EndOf(f, 272) + 6 > |f|;
    assert |EntryAt(f, 272).name| == 1;
  }

  lemma LongWalked(f: seq<byte>, d: seq<byte>)
    requires f == LongFile() && d == LongSection() && Window(f, 268, d) && ReadU32(d, 0) == 2
    ensures WalkedSection(f) == Some((Section(5, 0, 0, 268, 0x1_0000_000A), 268))
    ensures ReadAssetIndex(f) == WalkFrom(f, 272, 2, map[])
  {
    LongTable(f);
    var ss := SectionsUpTo(f, Preamble(0, 1), 1);
    assert FirstAssets(ss) == Some(ss[0]);
    SubSlice(f, 268, d, 0, 4);
    ReadsSame(d, 0, f, 268);
  }

  /**
    Without `ShortEntries` the two readers part: in this file the parser's sum wraps to zero, so
    it finds a second entry, with an empty name, inside the first; star_read_asset_index does not.
   */
  lemma WrappedSumMisplacesEntry(f: seq<byte>)
    requires f == LongFile()
    ensures WalkedSection(f) == Some((Section(5, 0, 0, 268, 0x1_0000_000A), 268))
    ensures var parsed := ParseSubEntries(f[268..268 + 0x1_0000_000A]);
            parsed.Some? && Named(parsed.value, []) && [] !in ReadAssetIndex(f)
  {
    var d := LongSection();
    LongFileHolds(f, d);
    LongHeaders(d);
    LongParse(d);
    LongParsed(d, EntryAt(d, 4), EntryAt(d, 10));
    LongWalked(f, d);
    LongIndex(f, d);
  }

  lemma LongParsed(d: seq<byte>, first: SubEntry, second: SubEntry)
    requires |d| >= 4 && ReadU32(d, 0) == 2 && ParseFrom(d, 4, 2) == Some([first] + ([second] + [])) && second.name == []
    ensures ParseSubEntries(d).Some? && Named(ParseSubEntries(d).value, [])
  {
    var es := [first] + ([second] + []);
    assert es[1].name == [];
  }
}
