/**
  Moving one decoded instruction to another address (the body of the loop in
  snare_make_trampoline, thirdparty/libsnare.h) and what the moved copy means there.
 */
module SnareRelocate {
  import opened Words
  import opened SnareDisasm

  // ---------------------------------------------------------------- signed displacements

  predicate FitsInt32(v: int) {
    -0x8000_0000 <= v <= 0x7FFF_FFFF
  }

  function Signed8(b: byte): int {
    if b < 0x80 then b else b - 0x100
  }

  function Signed32(w: u32): int {
    if w < 0x8000_0000 then w else w - 0x1_0000_0000
  }

  /** The conversion `(int32_t)v`, as the word it stores. */
  function Truncated(v: int): u32 {
    v % 0x1_0000_0000
  }

  function ReadI32(p: seq<byte>, at: nat): int
    requires at + 4 <= |p|
  {
    Signed32(ReadU32(p, at))
  }

  function WriteI32(v: int): (p: seq<byte>)
    ensures |p| == 4
  {
    WriteU32(Truncated(v))
  }

  /** Reading back a stored displacement gives it unchanged exactly when it fits. */
  lemma ReadsWrittenI32(v: int, p: seq<byte>, at: nat)
    requires at + 4 <= |p| && p[at..at + 4] == WriteI32(v)
    ensures ReadI32(p, at) == v <==> FitsInt32(v)
  {
    ReadsWhatWasWritten(Truncated(v), p, at);
  }

  // ---------------------------------------------------------------- what an instruction means

  /** An instruction, with everything it says relative to its own address made absolute. */
  datatype Meaning =
    | Jump(target: int)
    | JumpIf(condition: nat, target: int)
    | CallTo(target: int)
    | LoopTo(opcode: byte, target: int)
    | Refers(head: seq<byte>, address: int, tail: seq<byte>)
    | Verbatim(bytes: seq<byte>)
    | Unclaimed

  predicate IsShort(code: seq<byte>) {
    OpcodeReadable(code) && ClassOf(code) == R8
  }

  predicate Complete(code: seq<byte>) {
    Disasm(code).Insn? && Disasm(code).len <= |code|
  }

  /** EB, 70-7F and E0-E3. */
  function ShortMeaning(op: byte, target: int): Meaning {
    if op == 0xEB then Jump(target) else if op < 0x80 then JumpIf(op % 16, target) else LoopTo(op, target)
  }

  /** E8, E9 and 0F 80-8F. */
  function NearMeaning(op: byte, second: byte, target: int): Meaning {
    if op == 0x0F then JumpIf(second % 16, target) else if op == 0xE9 then Jump(target) else CallTo(target)
  }

  predicate RefersToMemory(code: seq<byte>) {
    && OpcodeReadable(code) && HasModRM(ClassOf(code))
    && BodyAt(code) < |code| && IsRipRelative(code[BodyAt(code)])
  }

  /** What decoding settles about an instruction. */
  datatype Shape = Shape(at: nat, body: nat, kind: OpClass, len: nat)

  /** The bytes the meaning is read from are there. */
  predicate Covers(s: Shape, code: seq<byte>) {
    && s.at < s.body && s.len <= |code| && s.at < s.len
    && (s.kind == R8 ==> s.at + 2 <= s.len)
    && (s.kind == RV ==> s.body + 4 <= s.len)
    && (HasModRM(s.kind) ==> s.body < s.len && (IsRipRelative(code[s.body]) ==> s.body + 5 <= s.len))
  }

  function ShapeOf(code: seq<byte>): (s: Shape)
    requires Complete(code) && !IsNear16(code)
    ensures Covers(s, code)
  {
    InsnShape(code);
    Shape(OpcodeAt(code), BodyAt(code), ClassOf(code), Disasm(code).len)
  }

  function MeaningOf(code: seq<byte>, s: Shape, addr: int): Meaning
    requires Covers(s, code)
  {
    var next := addr + s.len;
    if s.kind == R8 then ShortMeaning(code[s.at], next + Signed8(code[s.at + 1]))
    else if s.kind == RV then NearMeaning(code[s.at], code[s.body - 1], next + ReadI32(code, s.body))
    else if HasModRM(s.kind) && IsRipRelative(code[s.body]) then
      Refers(code[..s.body + 1], next + ReadI32(code, s.body + 1), code[s.body + 5..s.len])
    else Verbatim(code[..s.len])
  }

  function MeaningAt(code: seq<byte>, addr: int): Meaning {
    if !Complete(code) || IsNear16(code) then Unclaimed else MeaningOf(code, ShapeOf(code), addr)
  }

  // ---------------------------------------------------------------- the moved copy

  function NewLen(code: seq<byte>): nat
    requires Complete(code)
  {
    InsnShape(code);
    var op := code[OpcodeAt(code)];
    if !IsShort(code) || 0xE0 <= op < 0xE4 then Disasm(code).len else if op == 0xEB then 5 else 6
  }

  predicate Expands(code: seq<byte>)
    requires Complete(code)
  {
    InsnShape(code);
    IsShort(code) && !(0xE0 <= code[OpcodeAt(code)] < 0xE4)
  }

  /** The displacement stored in the copy; 0 when there is none. */
  function NewDisplacement(code: seq<byte>, from: int, to: int): int
    requires Complete(code) && !IsNear16(code)
  {
    InsnShape(code);
    if Expands(code) then
      from + Disasm(code).len + Signed8(code[OpcodeAt(code) + 1]) - (to + NewLen(code))
    else if Disasm(code).reloc > 0 then ReadI32(code, Disasm(code).reloc) + (from - to)
    else 0
  }

  /** The copy of the instruction at `from`, written at `to`. */
  function Relocated(code: seq<byte>, from: int, to: int): (copy: seq<byte>)
    requires Complete(code) && !IsNear16(code)
    ensures |copy| == NewLen(code)
  {
    InsnShape(code);
    var at, d, disp := OpcodeAt(code), Disasm(code), NewDisplacement(code, from, to);
    if Expands(code) then
      if code[at] == 0xEB then [0xE9] + WriteI32(disp)
      else [0x0F, 0x80 + code[at] % 16] + WriteI32(disp)
    else if d.reloc > 0 then code[..d.reloc] + WriteI32(disp) + code[d.reloc + 4..d.len]
    else code[..d.len]
  }

  /** Copied byte for byte although its meaning depends on where it stands: E0-E3 and F6/F7 on [RIP+disp32]. */
  predicate PositionBound(code: seq<byte>)
    requires Complete(code)
  {
    InsnShape(code);
    (IsShort(code) && !Expands(code)) || (ClassOf(code) == MS && RefersToMemory(code))
  }

  lemma NearJumpMeaning(code: seq<byte>, addr: int)
    requires |code| >= 5 && code[0] == 0xE9
    ensures Disasm(code) == Insn(5, 1)
    ensures MeaningAt(code, addr) == Jump(addr + 5 + ReadI32(code, 1))
  {
    assert Legacy(code) == Prefixes(0, 4, 8);
  }

  lemma NearConditionalMeaning(code: seq<byte>, addr: int)
    requires |code| >= 6 && code[0] == 0x0F && 0x80 <= code[1] < 0x90
    ensures Disasm(code) == Insn(6, 2)
    ensures MeaningAt(code, addr) == JumpIf(code[1] % 16, addr + 6 + ReadI32(code, 2))
  {
    assert Legacy(code) == Prefixes(0, 4, 8);
  }

  lemma ExpandedJump(disp: int, rest: seq<byte>, to: int)
    requires FitsInt32(disp)
    ensures MeaningAt([0xE9] + WriteI32(disp) + rest, to) == Jump(to + 5 + disp)
  {
    var moved := [0xE9] + WriteI32(disp) + rest;
    assert moved[1..5] == WriteI32(disp);
    NearJumpMeaning(moved, to);
    ReadsWrittenI32(disp, moved, 1);
  }

  lemma ExpandedConditional(condition: nat, disp: int, rest: seq<byte>, to: int)
    requires FitsInt32(disp) && condition < 16
    ensures MeaningAt([0x0F, 0x80 + condition] + WriteI32(disp) + rest, to) == JumpIf(condition, to + 6 + disp)
  {
    var moved := [0x0F, 0x80 + condition] + WriteI32(disp) + rest;
    assert moved[2..6] == WriteI32(disp);
    NearConditionalMeaning(moved, to);
    ReadsWrittenI32(disp, moved, 2);
  }

  /** The short branches that are rewritten, and what they say. */
  lemma ShortShape(code: seq<byte>, at: nat, from: int)
    requires Complete(code) && !IsNear16(code) && Expands(code) && at == OpcodeAt(code)
    ensures at + 2 == Disasm(code).len && (code[at] == 0xEB || 0x70 <= code[at] < 0x80)
    ensures MeaningAt(code, from) == ShortMeaning(code[at], from + Disasm(code).len + Signed8(code[at + 1]))
  {
    InsnShape(code);
  }

  lemma MovedShort(code: seq<byte>, rest: seq<byte>, from: int, to: int)
    requires Complete(code) && !IsNear16(code) && Expands(code)
    requires FitsInt32(NewDisplacement(code, from, to))
    ensures MeaningAt(Relocated(code, from, to) + rest, to) == MeaningAt(code, from)
  {
    var at, disp := OpcodeAt(code), NewDisplacement(code, from, to);
    ShortShape(code, at, from);
    var op := code[at];
    if op == 0xEB {
      assert Relocated(code, from, to) == [0xE9] + WriteI32(disp);
      ExpandedJump(disp, rest, to);
    } else {
      assert Relocated(code, from, to) == [0x0F, 0x80 + op % 16] + WriteI32(disp);
      ExpandedConditional(op % 16, disp, rest, to);
    }
  }

  /** What moving does to an instruction with a displacement field, byte by byte. */
  lemma MovedBytes(code: seq<byte>, rest: seq<byte>, from: int, to: int, at: nat, moved: seq<byte>)
    requires Complete(code) && !IsNear16(code) && at == Disasm(code).reloc > 0
    requires FitsInt32(NewDisplacement(code, from, to)) && moved == Relocated(code, from, to) + rest
    ensures Complete(moved) && !IsNear16(moved) && ShapeOf(moved) == ShapeOf(code)
    ensures at + 4 <= Disasm(code).len && moved[..at] == code[..at]
    ensures at == ShapeOf(code).body + (if ClassOf(code) == RV then 0 else 1)
    ensures moved[at + 4..Disasm(code).len] == code[at + 4..Disasm(code).len]
    ensures ReadI32(moved, at) == ReadI32(code, at) + (from - to)
  {
    InsnShape(code);
    var d, disp := Disasm(code), NewDisplacement(code, from, to);
    assert moved[..at] == code[..at];
    DisasmLocal(code, moved, at);
    assert moved[at..at + 4] == WriteI32(disp);
    ReadsWrittenI32(disp, moved, at);
    assert moved[at + 4..d.len] == code[at + 4..d.len];
  }

  lemma SameFront(code: seq<byte>, moved: seq<byte>, at: nat, i: nat)
    requires i < at <= |code| && at <= |moved| && moved[..at] == code[..at]
    ensures moved[i] == code[i]
  {
    assert moved[..at][i] == code[..at][i];
  }

  /** Same bytes but for a displacement that makes up for the move: a near branch has the same target. */
  lemma DisplacedBranch(code: seq<byte>, moved: seq<byte>, s: Shape, from: int, to: int)
    requires Covers(s, code) && Covers(s, moved) && s.kind == RV
    requires moved[..s.body] == code[..s.body]
    requires ReadI32(moved, s.body) == ReadI32(code, s.body) + (from - to)
    ensures MeaningOf(moved, s, to) == MeaningOf(code, s, from)
  {
    SameFront(code, moved, s.body, s.at);
    SameFront(code, moved, s.body, s.body - 1);
  }

  /** And an operand relative to RIP the same address. */
  lemma DisplacedReference(code: seq<byte>, moved: seq<byte>, s: Shape, at: nat, from: int, to: int)
    requires Covers(s, code) && Covers(s, moved) && at == s.body + 1
    requires HasModRM(s.kind) && IsRipRelative(code[s.body])
    requires moved[..at] == code[..at] && moved[at + 4..s.len] == code[at + 4..s.len]
    requires ReadI32(moved, at) == ReadI32(code, at) + (from - to)
    ensures MeaningOf(moved, s, to) == MeaningOf(code, s, from)
  {
    SameFront(code, moved, at, s.body);
  }

  lemma RelocShape(code: seq<byte>)
    requires Complete(code) && !IsNear16(code) && Disasm(code).reloc > 0
    ensures ClassOf(code) == RV || RefersToMemory(code)
    ensures ClassOf(code) != R8
  {
  }

  lemma MovedDisplacement(code: seq<byte>, rest: seq<byte>, from: int, to: int)
    requires Complete(code) && !IsNear16(code) && Disasm(code).reloc > 0
    requires FitsInt32(NewDisplacement(code, from, to))
    ensures MeaningAt(Relocated(code, from, to) + rest, to) == MeaningAt(code, from)
  {
    var moved, at := Relocated(code, from, to) + rest, Disasm(code).reloc;
    MovedBytes(code, rest, from, to, at, moved);
    RelocShape(code);
    if ClassOf(code) == RV {
      DisplacedBranch(code, moved, ShapeOf(code), from, to);
    } else {
      DisplacedReference(code, moved, ShapeOf(code), at, from, to);
    }
  }

  /** The very same bytes elsewhere: the same meaning just when nothing in it is relative, or nothing moved. */
  lemma CopiedMeaning(code: seq<byte>, moved: seq<byte>, s: Shape, from: int, to: int)
    requires Covers(s, code) && Covers(s, moved) && s.kind != RV
    requires moved[..s.len] == code[..s.len]
    ensures MeaningOf(moved, s, to) == MeaningOf(code, s, from)
            <==> from == to || !(s.kind == R8 || (HasModRM(s.kind) && IsRipRelative(code[s.body])))
  {
    forall i | 0 <= i < s.len ensures moved[i] == code[i] {
      assert moved[..s.len][i] == code[..s.len][i];
    }
    if HasModRM(s.kind) && IsRipRelative(code[s.body]) {
      var at := s.body + 1;
      assert moved[at..at + 4] == code[at..at + 4];
      ReadsSame(moved, at, code, at);
      assert moved[at + 4..s.len] == code[at + 4..s.len];
      assert moved[..at] == code[..at];
    }
  }

  lemma VerbatimShape(code: seq<byte>)
    requires Complete(code) && !IsNear16(code) && Disasm(code).reloc == 0 && !Expands(code)
    ensures ClassOf(code) != RV
    ensures PositionBound(code) <==> ClassOf(code) == R8 || RefersToMemory(code)
  {
    InsnShape(code);
  }

  lemma MovedVerbatim(code: seq<byte>, rest: seq<byte>, from: int, to: int)
    requires Complete(code) && !IsNear16(code) && Disasm(code).reloc == 0 && !Expands(code)
    ensures MeaningAt(Relocated(code, from, to) + rest, to) == MeaningAt(code, from)
            <==> !PositionBound(code) || from == to
  {
    InsnShape(code);
    var len, moved := Disasm(code).len, Relocated(code, from, to) + rest;
    assert moved[..len] == code[..len];
    DisasmLocal(code, moved, len);
    VerbatimShape(code);
    CopiedMeaning(code, moved, ShapeOf(code), from, to);
  }

  /**
    The copy at `to` means what the original means at `from`, unless it is one of the forms
    copied byte for byte although they are relative, and is really moved.
   */
  lemma MovedKeepsMeaning(code: seq<byte>, moved: seq<byte>, from: int, to: int)
    requires Complete(code) && !IsNear16(code)
    requires FitsInt32(NewDisplacement(code, from, to)) && Relocated(code, from, to) <= moved
    ensures MeaningAt(moved, to) == MeaningAt(code, from) <==> !PositionBound(code) || from == to
  {
    var copy := Relocated(code, from, to);
    var rest := moved[|copy|..];
    assert moved == copy + rest;
    MovedCopyKeepsMeaning(code, rest, from, to);
  }

  lemma MovedCopyKeepsMeaning(code: seq<byte>, rest: seq<byte>, from: int, to: int)
    requires Complete(code) && !IsNear16(code)
    requires FitsInt32(NewDisplacement(code, from, to))
    ensures MeaningAt(Relocated(code, from, to) + rest, to) == MeaningAt(code, from)
            <==> !PositionBound(code) || from == to
  {
    InsnShape(code);
    if Expands(code) {
      MovedShort(code, rest, from, to);
    } else if Disasm(code).reloc > 0 {
      MovedDisplacement(code, rest, from, to);
    } else {
      MovedVerbatim(code, rest, from, to);
    }
  }

  /** A LOOP instruction is such a form: its copy goes somewhere else. */
  lemma LoopIsNotKept(from: int, to: int)
    requires from != to
    ensures Complete([0xE2, 0xFE]) && !IsNear16([0xE2, 0xFE])
    ensures MeaningAt(Relocated([0xE2, 0xFE], from, to), to) != MeaningAt([0xE2, 0xFE], from)
  {
    var code: seq<byte> := [0xE2, 0xFE];
    assert Legacy(code) == Prefixes(0, 4, 8) && Disasm(code) == Insn(2, 0) && PositionBound(code);
    MovedKeepsMeaning(code, Relocated(code, from, to), from, to);
  }
}
