/**
  Building the trampoline of an inline hook (snare_make_trampoline, thirdparty/libsnare.h):
  whole instructions are moved until five bytes are covered, then control goes back.
 */
module SnareTrampoline {
  import opened Wrappers
  import opened Words
  import opened SnareDisasm
  import opened SnareRelocate

  // ---------------------------------------------------------------- writing code bytes

  function Patched(mem: seq<byte>, at: nat, bytes: seq<byte>): seq<byte>
    requires at + |bytes| <= |mem|
  {
    mem[..at] + bytes + mem[at + |bytes|..]
  }

  method CopyInto(mem: array<byte>, at: nat, bytes: seq<byte>)
    requires at + |bytes| <= mem.Length
    modifies mem
    ensures mem[..] == Patched(old(mem[..]), at, bytes)
  {
    var i := 0;
    while i < |bytes|
      invariant i <= |bytes|
      invariant forall k :: 0 <= k < mem.Length ==>
                  mem[k] == if at <= k < at + i then bytes[k - at] else old(mem[k])
    {
      mem[at + i] := bytes[i];
      i := i + 1;
    }
  }

  // ---------------------------------------------------------------- one instruction

  /** Instruction `code` of the original, standing at `from`, is properly placed at offset `t` of `mem`. */
  predicate Placed(mem: seq<byte>, t: nat, code: seq<byte>, from: int, to: int) {
    && Complete(code) && t + NewLen(code) <= |mem|
    && (!IsNear16(code) ==>
          && FitsInt32(NewDisplacement(code, from, to))
          && mem[t..t + NewLen(code)] == Relocated(code, from, to))
  }

  /**
    What one attempt to move `code` to offset `t` leaves: what stands before is untouched, and
    success places the instruction, failure means that its displacement has no room.
   */
  predicate Tried(before: seq<byte>, after: seq<byte>, ok: bool, t: nat, code: seq<byte>, from: int, to: int)
    requires t <= |before| && Complete(code)
  {
    && |after| == |before| && after[..t] == before[..t]
    && (ok ==> Placed(after, t, code, from, to))
    && (!ok ==> IsNear16(code) || !FitsInt32(NewDisplacement(code, from, to)))
  }

  /** The test the builder makes on raw bytes picks out exactly the short branches to rewrite. */
  lemma ShortTestIsExact(code: seq<byte>, pfx: nat)
    requires Complete(code) && pfx == SkipFrom(code, 0, Disasm(code).len)
    ensures Expands(code) <==>
            pfx + 2 == Disasm(code).len && (code[pfx] == 0xEB || 0x70 <= code[pfx] < 0x80)
    ensures Expands(code) ==> pfx == OpcodeAt(code) && !IsNear16(code)
  {
    InsnShape(code);
    SkipFindsOpcode(code, Disasm(code).len);
  }

  method MoveShort(mem: array<byte>, t: nat, code: seq<byte>, from: int, to: int) returns (ok: bool)
    requires Complete(code) && Expands(code) && !IsNear16(code) && t + 6 <= mem.Length
    modifies mem
    ensures Tried(old(mem[..]), mem[..], ok, t, code, from, to)
    ensures ok == FitsInt32(NewDisplacement(code, from, to))
  {
    InsnShape(code);
    var pfx, len := OpcodeAt(code), Disasm(code).len;
    var target := from + len + Signed8(code[pfx + 1]);
    var head: seq<byte> := if code[pfx] == 0xEB then [0xE9] else [0x0F, 0x80 + code[pfx] % 16];
    var diff := target - (to + |head| + 4);
    ok := FitsInt32(diff);
    if ok {
      assert head + WriteI32(diff) == Relocated(code, from, to);
      CopyInto(mem, t, head + WriteI32(diff));
    }
  }

  /** Copying an instruction and then storing a word inside it. */
  lemma CopyThenStore(mem: seq<byte>, t: nat, bytes: seq<byte>, at: nat, word: seq<byte>)
    requires t + |bytes| + 2 <= |mem| && at + 2 <= |bytes| && |word| == 4
    ensures var copied := Patched(mem, t, bytes);
            var stored := Patched(copied, t + at, word);
            && stored[..t] == mem[..t] && copied[..t] == mem[..t] && |copied| == |stored| == |mem|
            && (at + 4 <= |bytes| ==>
                  && copied[t + at..t + at + 4] == bytes[at..at + 4]
                  && stored[t..t + |bytes|] == bytes[..at] + word + bytes[at + 4..])
  {
    var copied := Patched(mem, t, bytes);
    var stored := Patched(copied, t + at, word);
    if at + 4 <= |bytes| {
      assert stored[t..t + at] == bytes[..at];
      assert stored[t + at + 4..t + |bytes|] == bytes[at + 4..];
    }
  }

  /** What a copy with a word stored at its displacement amounts to. */
  lemma StoredIsRelocated(code: seq<byte>, from: int, to: int, len: nat, at: nat, disp: int)
    requires Complete(code) && !Expands(code) && !IsNear16(code)
    requires Disasm(code) == Insn(len, at) && at > 0 && at + 4 <= len
    requires disp == ReadI32(code, at) + (from - to)
    ensures code[..len][..at] + WriteI32(disp) + code[..len][at + 4..] == Relocated(code, from, to)
    ensures disp == NewDisplacement(code, from, to) && NewLen(code) == len
  {
    InsnShape(code);
    assert code[..len][..at] == code[..at];
    assert code[..len][at + 4..] == code[at + 4..len];
  }

  lemma StoredIsPlaced(mem: seq<byte>, t: nat, code: seq<byte>, from: int, to: int, len: nat, at: nat, disp: int)
    requires Complete(code) && !Expands(code) && Disasm(code) == Insn(len, at) && at > 0
    requires t + len + 2 <= |mem| && at + 2 <= len
    requires disp == ReadI32(Patched(mem, t, code[..len]), t + at) + (from - to)
    ensures FitsInt32(disp) ==>
              Placed(Patched(Patched(mem, t, code[..len]), t + at, WriteI32(disp)), t, code, from, to)
    ensures !FitsInt32(disp) ==> IsNear16(code) || !FitsInt32(NewDisplacement(code, from, to))
  {
    InsnShape(code);
    CopyThenStore(mem, t, code[..len], at, WriteI32(disp));
    if !IsNear16(code) {
      assert code[..len][at..at + 4] == code[at..at + 4];
      ReadsSame(Patched(mem, t, code[..len]), t + at, code, at);
      StoredIsRelocated(code, from, to, len, at, disp);
    }
  }

  /** The word at `at` is replaced by `disp` if that fits. */
  function Adjusted(mem: seq<byte>, at: nat, disp: int): seq<byte>
    requires at + 4 <= |mem|
  {
    if FitsInt32(disp) then Patched(mem, at, WriteI32(disp)) else mem
  }

  method CopyAndStore(mem: array<byte>, t: nat, bytes: seq<byte>, at: nat, shift: int) returns (ok: bool, disp: int)
    requires t + |bytes| + 2 <= mem.Length && at + 2 <= |bytes|
    modifies mem
    ensures disp == ReadI32(Patched(old(mem[..]), t, bytes), t + at) + shift
    ensures ok == FitsInt32(disp)
    ensures mem[..] == Adjusted(Patched(old(mem[..]), t, bytes), t + at, disp)
  {
    CopyInto(mem, t, bytes);
    disp := ReadI32(mem[..], t + at) + shift;
    ok := FitsInt32(disp);
    if ok {
      CopyInto(mem, t + at, WriteI32(disp));
    }
  }

  /** The same, for the buffer before, after the copy and after the store. */
  lemma StoreOutcome(mem: seq<byte>, copied: seq<byte>, t: nat, code: seq<byte>,
                     from: int, to: int, len: nat, at: nat, disp: int)
    requires Complete(code) && !Expands(code) && Disasm(code) == Insn(len, at) && at > 0
    requires t + len + 2 <= |mem| && at + 2 <= len
    requires copied == Patched(mem, t, code[..len])
    requires disp == ReadI32(copied, t + at) + (from - to)
    ensures Tried(mem, Adjusted(copied, t + at, disp), FitsInt32(disp), t, code, from, to)
  {
    CopyThenStore(mem, t, code[..len], at, WriteI32(disp));
    StoredIsPlaced(mem, t, code, from, to, len, at, disp);
  }

  /** The displacement is stored over the copy: the fix-up of `reloc`. */
  method StoreDisplacement(mem: array<byte>, t: nat, code: seq<byte>, from: int, to: int, len: nat, at: nat)
    returns (ok: bool)
    requires Complete(code) && !Expands(code) && Disasm(code) == Insn(len, at) && at > 0
    requires t + len + 2 <= mem.Length && at + 2 <= len
    modifies mem
    ensures Tried(old(mem[..]), mem[..], ok, t, code, from, to)
  {
    ghost var before := mem[..];
    ghost var disp: int;
    ok, disp := CopyAndStore(mem, t, code[..len], at, from - to);
    StoreOutcome(before, Patched(before, t, code[..len]), t, code, from, to, len, at, disp);
  }

  method MoveCopy(mem: array<byte>, t: nat, code: seq<byte>, from: int, to: int, d: Decoded) returns (ok: bool)
    requires Complete(code) && !Expands(code) && d == Disasm(code) && t + d.len + 2 <= mem.Length
    modifies mem
    ensures Tried(old(mem[..]), mem[..], ok, t, code, from, to)
  {
    InsnShape(code);
    if d.reloc > 0 {
      ok := StoreDisplacement(mem, t, code, from, to, d.len, d.reloc);
    } else {
      CopyInto(mem, t, code[..d.len]);
      ok := true;
    }
  }

  /** One turn of the loop: the instruction `code` from address `from` goes to offset `t`, address `to`. */
  method MoveInsn(mem: array<byte>, t: nat, code: seq<byte>, from: int, to: int) returns (ok: bool)
    requires Complete(code) && t + Disasm(code).len + 6 <= mem.Length
    modifies mem
    ensures Tried(old(mem[..]), mem[..], ok, t, code, from, to)
  {
    var d := Decode(code);
    var pfx := SkipPrefixes(code, d.len);
    ShortTestIsExact(code, pfx);
    if pfx + 2 == d.len && (code[pfx] == 0xEB || 0x70 <= code[pfx] < 0x80) {
      ok := MoveShort(mem, t, code, from, to);
    } else {
      ok := MoveCopy(mem, t, code, from, to, d);
    }
  }

  // ---------------------------------------------------------------- all instructions

  /**
    What the builder needs of the code at src, instruction by instruction from offset `o` until
    five bytes are covered or an instruction is not supported: each can be read and has at most
    15 bytes.
   */
  predicate SoundFrom(src: seq<byte>, o: nat)
    decreases 5 - o as int
  {
    5 <= o || (o <= |src| && Disasm(src[o..]) != Unreadable && (Disasm(src[o..]).Insn? ==> SoundInsn(src, o)))
  }

  predicate SoundInsn(src: seq<byte>, o: nat)
    requires o < 5 && o <= |src| && Disasm(src[o..]).Insn?
    decreases 5 - o as int, 0
  {
    var len := Disasm(src[o..]).len;
    len <= 15 && o + len <= |src| && (InsnShape(src[o..]); SoundFrom(src, o + len))
  }

  predicate Sound(src: seq<byte>) {
    SoundFrom(src, 0)
  }

  /** Neighbouring boundaries: the instruction between them is moved and properly placed. */
  predicate Linked(mem: seq<byte>, tbase: int, src: seq<byte>, sbase: int, o: nat, t: nat, o2: nat, t2: nat) {
    && o < 5 && o <= |src| && t < t2 <= |mem| && Placed(mem, t, src[o..], sbase + o, tbase + t)
    && o2 == o + Disasm(src[o..]).len && t2 == t + NewLen(src[o..])
  }

  predicate LinkedAt(mem: seq<byte>, tbase: int, src: seq<byte>, sbase: int, os: seq<nat>, ts: seq<nat>, j: nat)
    requires |os| == |ts| && j + 1 < |os|
  {
    Linked(mem, tbase, src, sbase, os[j], ts[j], os[j + 1], ts[j + 1])
  }

  /** `orig_ips` and `tramp_ips` are the boundaries of the instructions moved so far. */
  predicate Moved(mem: seq<byte>, tbase: int, src: seq<byte>, sbase: int, os: seq<nat>, ts: seq<nat>) {
    && |os| == |ts| && |os| > 0 && os[0] == 0 && ts[0] == 0
    && forall j: nat :: j < |os| - 1 ==> LinkedAt(mem, tbase, src, sbase, os, ts, j)
  }

  lemma NewLenBounds(code: seq<byte>)
    requires Complete(code)
    ensures 0 < NewLen(code) <= 3 * Disasm(code).len
    ensures NewLen(code) <= Disasm(code).len || NewLen(code) <= 6
  {
    InsnShape(code);
  }

  lemma LinkGrows(mem: seq<byte>, tbase: int, src: seq<byte>, sbase: int, o: nat, t: nat, o2: nat, t2: nat)
    requires Linked(mem, tbase, src, sbase, o, t, o2, t2)
    ensures o < o2 && t < t2 <= t + 3 * (o2 - o)
    ensures t2 <= t + (o2 - o) || t2 <= t + 6
  {
    InsnShape(src[o..]);
    NewLenBounds(src[o..]);
  }

  /** Both offset lists increase strictly, and the copies are at most three times as long. */
  lemma {:induction false} BoundariesIncrease(mem: seq<byte>, tbase: int, src: seq<byte>, sbase: int,
                                              os: seq<nat>, ts: seq<nat>, j: nat, k: nat)
    requires Moved(mem, tbase, src, sbase, os, ts) && j <= k < |os|
    ensures os[j] + (k - j) <= os[k] && ts[j] + (k - j) <= ts[k] <= ts[j] + 3 * (os[k] - os[j])
    decreases k
  {
    if j < k {
      BoundariesIncrease(mem, tbase, src, sbase, os, ts, j, k - 1);
      assert LinkedAt(mem, tbase, src, sbase, os, ts, k - 1);
      LinkGrows(mem, tbase, src, sbase, os[k - 1], ts[k - 1], os[k], ts[k]);
    }
  }

  lemma SoundNext(src: seq<byte>, o: nat)
    requires o < 5 && o <= |src| && Disasm(src[o..]).Insn? && SoundFrom(src, o)
    ensures SoundFrom(src, o + Disasm(src[o..]).len)
  {
  }

  lemma LinkSound(mem: seq<byte>, tbase: int, src: seq<byte>, sbase: int, o: nat, t: nat, o2: nat, t2: nat)
    requires Linked(mem, tbase, src, sbase, o, t, o2, t2) && SoundFrom(src, o)
    ensures SoundFrom(src, o2)
  {
    SoundNext(src, o);
  }

  /** What holds of the code from its first byte holds from every boundary reached. */
  lemma {:induction false} BoundarySound(mem: seq<byte>, tbase: int, src: seq<byte>, sbase: int,
                                         os: seq<nat>, ts: seq<nat>, j: nat)
    requires Moved(mem, tbase, src, sbase, os, ts) && Sound(src) && j < |os|
    ensures SoundFrom(src, os[j])
  {
    if j > 0 {
      BoundarySound(mem, tbase, src, sbase, os, ts, j - 1);
      assert LinkedAt(mem, tbase, src, sbase, os, ts, j - 1);
      LinkSound(mem, tbase, src, sbase, os[j - 1], ts[j - 1], os[j], ts[j]);
    }
  }

  /** The table of eight never fills up, and code and offsets stay small. */
  lemma BoundariesFit(mem: seq<byte>, tbase: int, src: seq<byte>, sbase: int, os: seq<nat>, ts: seq<nat>)
    requires Moved(mem, tbase, src, sbase, os, ts) && Sound(src)
    ensures |os| <= 6
    ensures forall j :: 0 <= j < |os| ==> os[j] <= 19 && ts[j] <= 27
    ensures os[|os| - 1] < 5 ==> |os| <= 5 && ts[|os| - 1] <= 12
  {
    forall j | 0 <= j < |os| ensures os[j] <= 19 && ts[j] <= 27 {
      if j > 0 {
        BoundaryFits(mem, tbase, src, sbase, os, ts, j - 1);
      }
    }
    if |os| > 1 {
      BoundaryFits(mem, tbase, src, sbase, os, ts, |os| - 2);
    }
    BoundariesIncrease(mem, tbase, src, sbase, os, ts, 0, |os| - 1);
  }

  lemma BoundaryFits(mem: seq<byte>, tbase: int, src: seq<byte>, sbase: int, os: seq<nat>, ts: seq<nat>, j: nat)
    requires Moved(mem, tbase, src, sbase, os, ts) && Sound(src) && j + 1 < |os|
    ensures j <= 4 && os[j + 1] <= 19 && ts[j + 1] <= 27
  {
    BoundarySound(mem, tbase, src, sbase, os, ts, j);
    assert LinkedAt(mem, tbase, src, sbase, os, ts, j);
    LinkGrows(mem, tbase, src, sbase, os[j], ts[j], os[j + 1], ts[j + 1]);
    BoundariesIncrease(mem, tbase, src, sbase, os, ts, 0, j);
  }

  lemma SamePart(mem: seq<byte>, mem2: seq<byte>, end: nat, a: nat, b: nat)
    requires a <= b <= end <= |mem| == |mem2| && mem2[..end] == mem[..end]
    ensures mem2[a..b] == mem[a..b]
  {
    assert mem2[a..b] == mem2[..end][a..b];
    assert mem[a..b] == mem[..end][a..b];
  }

  lemma LinkFrame(mem: seq<byte>, mem2: seq<byte>, tbase: int, src: seq<byte>, sbase: int,
                  o: nat, t: nat, o2: nat, t2: nat)
    requires Linked(mem, tbase, src, sbase, o, t, o2, t2) && |mem2| == |mem|
    requires mem2[t..t2] == mem[t..t2]
    ensures Linked(mem2, tbase, src, sbase, o, t, o2, t2)
  {
  }

  lemma MovedFrameAt(mem: seq<byte>, mem2: seq<byte>, tbase: int, src: seq<byte>, sbase: int,
                     os: seq<nat>, ts: seq<nat>, j: nat)
    requires Moved(mem, tbase, src, sbase, os, ts) && |mem2| == |mem| && j < |os| - 1
    requires ts[|ts| - 1] <= |mem| && mem2[..ts[|ts| - 1]] == mem[..ts[|ts| - 1]]
    ensures LinkedAt(mem2, tbase, src, sbase, os, ts, j)
  {
    BoundariesIncrease(mem, tbase, src, sbase, os, ts, j, j + 1);
    BoundariesIncrease(mem, tbase, src, sbase, os, ts, j + 1, |os| - 1);
    SamePart(mem, mem2, ts[|ts| - 1], ts[j], ts[j + 1]);
    assert LinkedAt(mem, tbase, src, sbase, os, ts, j);
    LinkFrame(mem, mem2, tbase, src, sbase, os[j], ts[j], os[j + 1], ts[j + 1]);
  }

  /** Writing behind the last boundary keeps what has been moved. */
  lemma MovedFrame(mem: seq<byte>, mem2: seq<byte>, tbase: int, src: seq<byte>, sbase: int, os: seq<nat>, ts: seq<nat>)
    requires Moved(mem, tbase, src, sbase, os, ts) && |mem2| == |mem|
    requires ts[|ts| - 1] <= |mem| && mem2[..ts[|ts| - 1]] == mem[..ts[|ts| - 1]]
    ensures Moved(mem2, tbase, src, sbase, os, ts)
  {
    forall j: nat | j < |os| - 1 ensures LinkedAt(mem2, tbase, src, sbase, os, ts, j) {
      MovedFrameAt(mem, mem2, tbase, src, sbase, os, ts, j);
    }
  }

  lemma MovedExtend(mem: seq<byte>, tbase: int, src: seq<byte>, sbase: int, os: seq<nat>, ts: seq<nat>, o2: nat, t2: nat)
    requires Moved(mem, tbase, src, sbase, os, ts)
    requires Linked(mem, tbase, src, sbase, os[|os| - 1], ts[|ts| - 1], o2, t2)
    ensures Moved(mem, tbase, src, sbase, os + [o2], ts + [t2])
  {
    var os2, ts2 := os + [o2], ts + [t2];
    forall j: nat | j < |os2| - 1 ensures LinkedAt(mem, tbase, src, sbase, os2, ts2, j) {
      if j < |os| - 1 {
        assert LinkedAt(mem, tbase, src, sbase, os, ts, j);
      }
    }
  }

  // ---------------------------------------------------------------- jumps

  /** `snare_in_rel32_range`. */
  predicate InRel32Range(a: int, b: int) {
    -0x7FFF_FF00 <= b - a <= 0x7FFF_FF00
  }

  function RelJump(at: int, dst: int): (j: seq<byte>)
    ensures |j| == 5
  {
    [0xE9] + WriteI32(dst - (at + 5))
  }

  function AbsJump(dst: u64): (j: seq<byte>)
    ensures |j| == 14
  {
    [0xFF, 0x25, 0, 0, 0, 0] + WriteU32(dst % 0x1_0000_0000) + WriteU32(dst / 0x1_0000_0000)
  }

  /** `code`, standing at `addr`, transfers control to `target`: by a relative jump, or through the pointer after it. */
  predicate JumpsTo(code: seq<byte>, addr: int, target: int) {
    || (|code| >= 5 && code[0] == 0xE9 && addr + 5 + ReadI32(code, 1) == target)
    || (|code| >= 14 && code[..6] == [0xFF, 0x25, 0, 0, 0, 0] && ReadU64(code, 6) == target)
  }

  lemma AbsJumpMeans(code: seq<byte>, addr: int)
    requires |code| >= 14 && code[..6] == [0xFF, 0x25, 0, 0, 0, 0]
    ensures MeaningAt(code, addr) == Refers([0xFF, 0x25], addr + 6, [])
  {
    var front := code[..6];
    assert code[0] == front[0] && code[1] == front[1] && code[2] == front[2] && code[3] == front[3]
        && code[4] == front[4] && code[5] == front[5];
    assert Legacy(code) == Prefixes(0, 4, 8);
    assert Disasm(code) == Insn(6, 2);
    assert code[..2] == [0xFF, 0x25] && code[6..6] == [] && ReadI32(code, 2) == 0;
  }

  lemma JumpMeans(code: seq<byte>, addr: int, target: int)
    requires JumpsTo(code, addr, target)
    ensures || MeaningAt(code, addr) == Jump(target)
            || (|code| >= 14 && MeaningAt(code, addr) == Refers([0xFF, 0x25], addr + 6, []) && ReadU64(code, 6) == target)
  {
    if code[0] == 0xE9 {
      NearJumpMeaning(code, addr);
    } else {
      assert code[..6][0] == 0xFF;
      AbsJumpMeans(code, addr);
    }
  }

  lemma RelJumpReaches(at: int, dst: int)
    ensures JumpsTo(RelJump(at, dst), at, dst) <==> FitsInt32(dst - (at + 5))
  {
    var j := RelJump(at, dst);
    assert j[1..5] == WriteI32(dst - (at + 5));
    ReadsWrittenI32(dst - (at + 5), j, 1);
  }

  lemma AbsJumpReaches(at: int, dst: u64)
    ensures JumpsTo(AbsJump(dst), at, dst)
  {
    var j := AbsJump(dst);
    assert j[..6] == [0xFF, 0x25, 0, 0, 0, 0];
    assert j[6..10] == WriteU32(dst % 0x1_0000_0000) && j[10..14] == WriteU32(dst / 0x1_0000_0000);
    ReadsWhatWasWritten(dst % 0x1_0000_0000, j, 6);
    ReadsWhatWasWritten(dst / 0x1_0000_0000, j, 10);
  }

  // ---------------------------------------------------------------- the builder

  /** The next instruction cannot be moved. */
  predicate Stuck(src: seq<byte>, from: int, to: int, o: nat) {
    && o <= |src|
    && (Disasm(src[o..]) == Unsupported || IsNear16(src[o..])
        || (Complete(src[o..]) && !FitsInt32(NewDisplacement(src[o..], from, to))))
  }

  /** What the attempt at `o` means for the chain. */
  lemma TriedLinks(before: seq<byte>, after: seq<byte>, ok: bool, tbase: int, src: seq<byte>, sbase: int,
                   o: nat, t: nat)
    requires o < 5 && o <= |src| && t <= |before| && Complete(src[o..])
    requires Tried(before, after, ok, t, src[o..], sbase + o, tbase + t)
    ensures ok ==> Linked(after, tbase, src, sbase, o, t, o + Disasm(src[o..]).len, t + NewLen(src[o..]))
    ensures !ok ==> Stuck(src, sbase + o, tbase + t, o)
  {
    NewLenBounds(src[o..]);
  }

  /** One turn: the instruction at the last boundary is moved, which makes a new boundary. */
  method MoveNext(mem: array<byte>, tbase: int, src: seq<byte>, sbase: int, os: seq<nat>, ts: seq<nat>)
    returns (ok: bool, o2: nat, t2: nat)
    requires Sound(src) && mem.Length >= 59
    requires Moved(mem[..], tbase, src, sbase, os, ts) && os[|os| - 1] < 5
    modifies mem
    ensures Moved(mem[..], tbase, src, sbase, os, ts)
    ensures ok ==> Linked(mem[..], tbase, src, sbase, os[|os| - 1], ts[|ts| - 1], o2, t2)
    ensures !ok ==> Stuck(src, sbase + os[|os| - 1], tbase + ts[|ts| - 1], os[|os| - 1])
  {
    var o, t := os[|os| - 1], ts[|ts| - 1];
    BoundariesFit(mem[..], tbase, src, sbase, os, ts);
    BoundarySound(mem[..], tbase, src, sbase, os, ts, |os| - 1);
    ghost var before := mem[..];
    var code := src[o..];
    var d := Decode(code);
    if !d.Insn? {
      return false, o, t;
    }
    o2, t2 := o + d.len, t + NewLen(code);
    ok := MoveInsn(mem, t, code, sbase + o, tbase + t);
    MovedFrame(before, mem[..], tbase, src, sbase, os, ts);
    TriedLinks(before, mem[..], ok, tbase, src, sbase, o, t);
  }

  /** How the trampoline ends, once whole instructions covering five bytes are moved. */
  predicate Finished(mem: seq<byte>, tbase: int, src: seq<byte>, sbase: int, near: bool,
                     os: seq<nat>, ts: seq<nat>, size: nat)
  {
    && Moved(mem, tbase, src, sbase, os, ts) && 5 <= os[|os| - 1]
    && size == ts[|ts| - 1] + (if near then 5 else 14) && size <= |mem|
    && JumpsTo(mem[ts[|ts| - 1]..size], tbase + ts[|ts| - 1], sbase + os[|os| - 1])
  }

  lemma JumpBackPlaced(mem: seq<byte>, tbase: int, src: seq<byte>, sbase: int, os: seq<nat>, ts: seq<nat>,
                       jump: seq<byte>)
    requires Moved(mem, tbase, src, sbase, os, ts) && Sound(src) && |mem| >= 59 && 5 <= |jump| <= 14
    ensures ts[|ts| - 1] + |jump| <= |mem|
    ensures var mem2 := Patched(mem, ts[|ts| - 1], jump);
            && Moved(mem2, tbase, src, sbase, os, ts)
            && mem2[ts[|ts| - 1]..ts[|ts| - 1] + |jump|] == jump
  {
    BoundariesFit(mem, tbase, src, sbase, os, ts);
    var mem2 := Patched(mem, ts[|ts| - 1], jump);
    MovedFrame(mem, mem2, tbase, src, sbase, os, ts);
  }

  function ReturnJump(near: bool, at: int, dst: u64): (jump: seq<byte>)
    ensures |jump| == if near then 5 else 14
  {
    if near then RelJump(at, dst) else AbsJump(dst)
  }

  /** From a page within range of src the relative jump back is never truncated. */
  lemma ReturnJumpReaches(near: bool, tbase: int, sbase: int, t: nat, o: nat)
    requires near ==> InRel32Range(sbase, tbase)
    requires t <= 27 && o <= 19 && 0 <= sbase + o < 0x1_0000_0000_0000_0000
    ensures JumpsTo(ReturnJump(near, tbase + t, sbase + o), tbase + t, sbase + o)
  {
    if near {
      RelJumpReaches(tbase + t, sbase + o);
    } else {
      AbsJumpReaches(tbase + t, sbase + o);
    }
  }

  method JumpBack(mem: array<byte>, tbase: int, src: seq<byte>, sbase: u64, near: bool, os: seq<nat>, ts: seq<nat>)
    returns (size: nat)
    requires mem.Length >= 59 && Sound(src) && sbase < 0xFFFF_FFFF_FFFF_FF00
    requires near ==> InRel32Range(sbase, tbase)
    requires Moved(mem[..], tbase, src, sbase, os, ts) && 5 <= os[|os| - 1]
    modifies mem
    ensures Finished(mem[..], tbase, src, sbase, near, os, ts, size)
  {
    var o, t := os[|os| - 1], ts[|ts| - 1];
    BoundariesFit(mem[..], tbase, src, sbase, os, ts);
    var jump := ReturnJump(near, tbase + t, sbase + o);
    ReturnJumpReaches(near, tbase, sbase, t, o);
    JumpBackPlaced(mem[..], tbase, src, sbase, os, ts, jump);
    CopyInto(mem, t, jump);
    size := t + |jump|;
  }

  /** `snare_make_trampoline`; size 0 is failure, at the last of the boundaries `pos` and `pts`. */
  method MakeTrampoline(mem: array<byte>, tbase: int, src: seq<byte>, sbase: u64, near: bool)
    returns (size: nat, os: seq<nat>, ts: seq<nat>, ghost pos: seq<nat>, ghost pts: seq<nat>)
    requires mem.Length >= 59 && Sound(src) && sbase < 0xFFFF_FFFF_FFFF_FF00
    requires near ==> InRel32Range(sbase, tbase)
    modifies mem
    ensures Moved(mem[..], tbase, src, sbase, pos, pts)
    ensures size > 0 ==> os == pos && ts == pts && Finished(mem[..], tbase, src, sbase, near, os, ts, size)
    ensures size == 0 ==>
              pos[|pos| - 1] < 5 && Stuck(src, sbase + pos[|pos| - 1], tbase + pts[|pts| - 1], pos[|pos| - 1])
  {
    var o: nat, t: nat := 0, 0;
    os, ts := [], [];
    pos, pts := [o], [t];
    while o < 5
      invariant pos == os + [o] && pts == ts + [t]
      invariant Moved(mem[..], tbase, src, sbase, pos, pts)
      decreases 5 - o as int
    {
      BoundariesFit(mem[..], tbase, src, sbase, pos, pts);
      if |os| < 8 {
        os, ts := os + [o], ts + [t];
      }
      var ok, o2, t2 := MoveNext(mem, tbase, src, sbase, os, ts);
      if !ok {
        size := 0;
        return;
      }
      MovedExtend(mem[..], tbase, src, sbase, os, ts, o2, t2);
      LinkGrows(mem[..], tbase, src, sbase, o, t, o2, t2);
      o, t := o2, t2;
      pos, pts := os + [o], ts + [t];
    }
    BoundariesFit(mem[..], tbase, src, sbase, pos, pts);
    if |os| < 8 {
      os, ts := os + [o], ts + [t];
    }
    size := JumpBack(mem, tbase, src, sbase, near, os, ts);
  }

  /** `copy` starts with `code`, moved from `from` to `to`. */
  predicate CopyOf(copy: seq<byte>, to: int, code: seq<byte>, from: int) {
    && Complete(code)
    && (!IsNear16(code) ==> FitsInt32(NewDisplacement(code, from, to)) && Relocated(code, from, to) <= copy)
  }

  lemma PlacedIsPrefix(mem: seq<byte>, t: nat, moved: seq<byte>)
    requires t + |moved| <= |mem| && mem[t..t + |moved|] == moved
    ensures moved <= mem[t..]
  {
    assert mem[t..][..|moved|] == moved;
  }

  lemma PlacedIsCopy(mem: seq<byte>, t: nat, code: seq<byte>, from: int, to: int, copy: seq<byte>)
    requires Placed(mem, t, code, from, to) && copy == mem[t..]
    ensures CopyOf(copy, to, code, from)
  {
    if !IsNear16(code) {
      PlacedIsPrefix(mem, t, Relocated(code, from, to));
    }
  }

  /** `code` stands at boundary `o` of src, at address `from`, and `copy` at the matching one, at address `to`. */
  predicate MovedPair(mem: seq<byte>, tbase: int, src: seq<byte>, sbase: int, o: nat, t: nat,
                      copy: seq<byte>, to: int, code: seq<byte>, from: int)
  {
    o <= |src| && t <= |mem| && code == src[o..] && from == sbase + o && copy == mem[t..] && to == tbase + t
  }

  lemma PairIsCopy(mem: seq<byte>, tbase: int, src: seq<byte>, sbase: int, os: seq<nat>, ts: seq<nat>,
                   j: nat, copy: seq<byte>, to: int, code: seq<byte>, from: int)
    requires Moved(mem, tbase, src, sbase, os, ts)
    requires j + 1 < |os| && MovedPair(mem, tbase, src, sbase, os[j], ts[j], copy, to, code, from)
    ensures CopyOf(copy, to, code, from)
  {
    assert LinkedAt(mem, tbase, src, sbase, os, ts, j);
    PlacedIsCopy(mem, ts[j], code, from, to, copy);
  }

  /** The copy at `to` means what `code` means at `from`, but for the forms that are copied blindly. */
  predicate KeepsMeaning(copy: seq<byte>, to: int, code: seq<byte>, from: int) {
    && Complete(code)
    && (!IsNear16(code) ==>
          (MeaningAt(copy, to) == MeaningAt(code, from) <==> !PositionBound(code) || to == from))
  }

  lemma CopyKeepsMeaning(copy: seq<byte>, to: int, code: seq<byte>, from: int)
    requires CopyOf(copy, to, code, from)
    ensures KeepsMeaning(copy, to, code, from)
  {
    if !IsNear16(code) {
      MovedKeepsMeaning(code, copy, from, to);
    }
  }

  /**
    What a trampoline is worth: each moved instruction means there what it meant at src, but for
    the forms that are copied blindly.
   */
  lemma TrampolineKeepsMeaning(mem: seq<byte>, tbase: int, src: seq<byte>, sbase: int, os: seq<nat>, ts: seq<nat>,
                               j: nat, copy: seq<byte>, to: int, code: seq<byte>, from: int)
    requires Moved(mem, tbase, src, sbase, os, ts)
    requires j + 1 < |os| && MovedPair(mem, tbase, src, sbase, os[j], ts[j], copy, to, code, from)
    ensures KeepsMeaning(copy, to, code, from)
  {
    PairIsCopy(mem, tbase, src, sbase, os, ts, j, copy, to, code, from);
    CopyKeepsMeaning(copy, to, code, from);
  }

  // ---------------------------------------------------------------- branches into the overwritten bytes

  /** Control may pass into the jump that the hook writes over the first five bytes of src, past its opcode. */
  predicate EntersJump(m: Meaning, sbase: int) {
    (m.Jump? || m.JumpIf? || m.CallTo? || m.LoopTo?) && sbase < m.target < sbase + 5
  }

  /** Where a relative branch goes, counted from its own first byte. */
  function BranchOffset(code: seq<byte>): Option<int>
    requires Complete(code) && !IsNear16(code)
  {
    var s := ShapeOf(code);
    if s.kind == R8 then Some(s.len + Signed8(code[s.at + 1]))
    else if s.kind == RV then Some(s.len + ReadI32(code, s.body))
    else None
  }

  /** The instruction at offset `o` branches to one of the bytes 1 to 4. */
  predicate InnerBranch(code: seq<byte>, o: int) {
    && Complete(code) && !IsNear16(code)
    && BranchOffset(code).Some? && 0 < o + BranchOffset(code).value < 5
  }

  lemma EntersJumpIff(code: seq<byte>, addr: int, sbase: int)
    requires Complete(code)
    ensures EntersJump(MeaningAt(code, addr), sbase) <==> InnerBranch(code, addr - sbase)
  {
  }

  lemma SameShortBranch(code: seq<byte>, copy: seq<byte>, len: nat)
    requires Complete(code) && !IsNear16(code) && PositionBound(code) && len == Disasm(code).len
    requires Complete(copy) && !IsNear16(copy) && ShapeOf(copy) == ShapeOf(code) && copy[..len] == code[..len]
    ensures BranchOffset(copy) == BranchOffset(code)
  {
    InsnShape(code);
    if IsShort(code) {
      SameFront(code, copy, len, OpcodeAt(code) + 1);
    }
  }

  /** A copied LOOP or JCXZ is the same bytes, so it goes as far from its new place. */
  lemma CopiedBranchOffset(copy: seq<byte>, to: int, code: seq<byte>, from: int)
    requires CopyOf(copy, to, code, from) && !IsNear16(code) && PositionBound(code)
    ensures Complete(copy) && !IsNear16(copy) && BranchOffset(copy) == BranchOffset(code)
  {
    InsnShape(code);
    var len := Disasm(code).len;
    assert Relocated(code, from, to) == code[..len];
    assert copy[..len] == code[..len];
    DisasmLocal(code, copy, len);
    SameShortBranch(code, copy, len);
  }

  lemma CopiedEntersJumpIff(copy: seq<byte>, to: int, code: seq<byte>, from: int, sbase: int)
    requires CopyOf(copy, to, code, from) && !IsNear16(code) && PositionBound(code)
    ensures EntersJump(MeaningAt(copy, to), sbase) <==> InnerBranch(code, to - sbase)
  {
    CopiedBranchOffset(copy, to, code, from);
    EntersJumpIff(copy, to, sbase);
  }

  lemma KeptEntersJumpIff(copy: seq<byte>, to: int, code: seq<byte>, from: int, sbase: int)
    requires CopyOf(copy, to, code, from) && !IsNear16(code) && !PositionBound(code)
    ensures EntersJump(MeaningAt(copy, to), sbase) <==> InnerBranch(code, from - sbase)
  {
    CopyKeepsMeaning(copy, to, code, from);
    EntersJumpIff(code, from, sbase);
  }

  /** The copy leads into the hook's jump exactly when the instruction, counted from where it counts, does. */
  predicate EntersAlike(copy: seq<byte>, to: int, code: seq<byte>, from: int, sbase: int) {
    && Complete(code)
    && (!IsNear16(code) ==>
          (EntersJump(MeaningAt(copy, to), sbase) <==>
           InnerBranch(code, (if PositionBound(code) then to else from) - sbase)))
  }

  lemma CopyEntersAlike(copy: seq<byte>, to: int, code: seq<byte>, from: int, sbase: int)
    requires CopyOf(copy, to, code, from)
    ensures EntersAlike(copy, to, code, from, sbase)
  {
    if !IsNear16(code) {
      if PositionBound(code) {
        CopiedEntersJumpIff(copy, to, code, from, sbase);
      } else {
        KeptEntersJumpIff(copy, to, code, from, sbase);
      }
    }
  }

  /**
    A moved branch keeps its target, also when that target is one of the bytes the hook
    overwrites.  This happens exactly when the original branches to one of its own bytes 1 to 4,
    or, for the forms that are copied blindly, when the copy lies that close to src.
   */
  lemma TrampolineEntersJumpIff(mem: seq<byte>, tbase: int, src: seq<byte>, sbase: int, os: seq<nat>, ts: seq<nat>,
                                j: nat, copy: seq<byte>, to: int, code: seq<byte>, from: int)
    requires Moved(mem, tbase, src, sbase, os, ts)
    requires j + 1 < |os| && MovedPair(mem, tbase, src, sbase, os[j], ts[j], copy, to, code, from)
    ensures EntersAlike(copy, to, code, from, sbase)
  {
    PairIsCopy(mem, tbase, src, sbase, os, ts, j, copy, to, code, from);
    CopyEntersAlike(copy, to, code, from, sbase);
  }
}
