/**
  The table-driven length disassembler of libsnare (thirdparty/libsnare.h, x86-64), as
  written there, and what the instructions it recognises mean at a given address.
 */
module SnareDisasm {
  import opened Wrappers
  import opened Words

  /** The flag combinations that occur in the two opcode tables. */
  datatype OpClass = Plain | M | MI | MV | MS | I8 | IV | R8 | RV | SP | Escape | Invalid

  /** `snare_op1`. */
  function OneByte(op: byte): OpClass {
    if op < 0x40 then
      var low := op % 8;
      if op == 0x0F then Escape
      else if low < 4 then M else if low == 4 then I8 else if low == 5 then IV else Plain
    else if op < 0x60 then Plain
    else if op < 0x70 then
      if op == 0x62 then Invalid else if op == 0x63 then M else if op == 0x68 then IV else if op == 0x69 then MV
      else if op == 0x6A then I8 else if op == 0x6B then MI else Plain
    else if op < 0x80 then R8
    else if op < 0x90 then if op == 0x81 then MV else if op < 0x84 then MI else M
    else if op < 0xA0 then if op == 0x9A then Invalid else Plain
    else if op < 0xB0 then if op < 0xA4 then SP else if op == 0xA8 then I8 else if op == 0xA9 then IV else Plain
    else if op < 0xC0 then if op < 0xB8 then I8 else IV
    else if op < 0xD0 then
      if op < 0xC2 || op == 0xC6 then MI else if op == 0xC7 then MV
      else if op == 0xC2 || op == 0xC8 || op == 0xCA then SP
      else if op == 0xC4 || op == 0xC5 then Invalid else if op == 0xCD then I8 else Plain
    else if op < 0xE0 then if op < 0xD4 || op >= 0xD8 then M else if op < 0xD6 then I8 else Plain
    else if op < 0xF0 then
      if op < 0xE4 || op == 0xEB then R8 else if op < 0xE8 then I8 else if op < 0xEA then RV
      else if op == 0xEA then Invalid else Plain
    else if op == 0xF6 || op == 0xF7 then MS else if op >= 0xFE then M else Plain
  }

  /** `snare_op2`, for the byte after 0F. */
  function TwoByte(op: byte): OpClass {
    if op < 0x10 then
      if op < 4 || op == 0x0D then M else if op == 4 || op == 0x0A || op == 0x0C then Invalid
      else if op == 0x0F then MI else Plain
    else if op < 0x20 then M
    else if op < 0x30 then if 0x24 <= op < 0x28 then Invalid else M
    else if op < 0x40 then if op < 0x36 then Plain else Invalid
    else if op < 0x70 then M
    else if op < 0x80 then
      if op < 0x74 then MI else if op == 0x77 then Plain else if op == 0x7A || op == 0x7B then Invalid else M
    else if op < 0x90 then RV
    else if op < 0xA0 then M
    else if op < 0xB0 then
      if op < 0xA3 || 0xA8 <= op < 0xAB then Plain else if op == 0xA4 || op == 0xAC then MI
      else if op == 0xA6 || op == 0xA7 then Invalid else M
    else if op < 0xC0 then if op == 0xBA then MI else M
    else if op < 0xD0 then
      if op >= 0xC8 then Plain else if op == 0xC2 || 0xC4 <= op < 0xC7 then MI else M
    else M
  }

  // ---------------------------------------------------------------- prefixes

  predicate IsLegacyPrefix(c: byte) {
    || c == 0xF0 || c == 0xF2 || c == 0xF3 || c == 0x2E || c == 0x36 || c == 0x3E || c == 0x26
    || c == 0x64 || c == 0x65 || c == 0x66 || c == 0x67
  }

  predicate IsRex(c: byte) {
    c / 16 == 4
  }

  /** What the prefix bytes settle: where they end, and the two sizes. */
  datatype Prefixes = Prefixes(end: nat, operand: nat, address: nat)

  function ScanLegacy(code: seq<byte>, p: Prefixes): Prefixes
    decreases |code| - p.end
  {
    if p.end >= |code| || !IsLegacyPrefix(code[p.end]) then p
    else
      var c := code[p.end];
      ScanLegacy(code, Prefixes(p.end + 1, if c == 0x66 then 2 else p.operand, if c == 0x67 then 4 else p.address))
  }

  function Legacy(code: seq<byte>): Prefixes {
    ScanLegacy(code, Prefixes(0, 4, 8))
  }

  predicate HasRex(code: seq<byte>, at: nat) {
    at < |code| && IsRex(code[at])
  }

  /** Offset of the opcode. */
  function OpcodeAt(code: seq<byte>): nat {
    var p := Legacy(code);
    if HasRex(code, p.end) then p.end + 1 else p.end
  }

  predicate RexW(code: seq<byte>) {
    var p := Legacy(code);
    HasRex(code, p.end) && code[p.end] / 8 % 2 == 1
  }

  function OperandSize(code: seq<byte>): nat {
    if RexW(code) then 8 else Legacy(code).operand
  }

  // ---------------------------------------------------------------- length and relocation

  /** `snare_disasm`: the length and the offset of a displacement to fix up (0 when there is none). */
  datatype Decoded = Insn(len: nat, reloc: nat) | Unsupported | Unreadable

  /** The opcode is on hand: one byte, or two after 0F. */
  predicate OpcodeReadable(code: seq<byte>) {
    var at := OpcodeAt(code);
    at < |code| && (code[at] == 0x0F ==> at + 1 < |code|)
  }

  function ClassOf(code: seq<byte>): OpClass
    requires OpcodeReadable(code)
  {
    var at := OpcodeAt(code);
    if code[at] != 0x0F then OneByte(code[at])
    else if code[at + 1] == 0x38 then M
    else if code[at + 1] == 0x3A then MI
    else TwoByte(code[at + 1])
  }

  /** Where the opcode bytes end and ModR/M, immediates and displacements begin. */
  function BodyAt(code: seq<byte>): nat
    requires OpcodeReadable(code)
  {
    var at := OpcodeAt(code);
    if code[at] != 0x0F then at + 1
    else if code[at + 1] == 0x38 || code[at + 1] == 0x3A then at + 3
    else at + 2
  }

  predicate HasModRM(c: OpClass) {
    c == M || c == MI || c == MV || c == MS
  }

  /** Bytes of ModR/M, SIB and displacement. */
  function ModRMLen(modrm: byte): nat {
    var mod, rm := modrm / 64, modrm % 8;
    1 + (if mod != 3 && rm == 4 then 1 else 0)
    + (if mod == 1 then 1 else if mod == 2 || (mod == 0 && rm == 5) then 4 else 0)
  }

  /** [RIP + disp32]. */
  predicate IsRipRelative(modrm: byte) {
    modrm / 64 == 0 && modrm % 8 == 5
  }

  function ImmediateLen(operand: nat): nat {
    if operand == 2 then 2 else 4
  }

  /** F6 and F7: TEST carries an immediate, the others do not. */
  function GroupThreeImmediate(op: byte, modrm: byte, operand: nat): nat {
    if modrm / 8 % 8 > 1 then 0 else if op == 0xF6 then 1 else ImmediateLen(operand)
  }

  function DecodeBody(code: seq<byte>): Decoded
    requires OpcodeReadable(code)
  {
    var at, body, c := OpcodeAt(code), BodyAt(code), ClassOf(code);
    var op, operand := code[at], OperandSize(code);
    match c
    case Invalid => Unsupported
    case Escape => Unsupported
    case SP =>
      if op < 0xB0 then Insn(body + Legacy(code).address, 0)
      else if op == 0xC8 then Insn(body + 3, 0) else Insn(body + 2, 0)
    case Plain => Insn(body, 0)
    case I8 => Insn(body + 1, 0)
    case R8 => Insn(body + 1, 0)
    case IV => Insn(body + (if RexW(code) && op / 8 == 0x17 then 8 else ImmediateLen(operand)), 0)
    case RV => Insn(body + ImmediateLen(operand), body)
    case _ =>
      if body >= |code| then Unreadable
      else
        var m := code[body];
        var tail := match c
          case MI => 1
          case MV => ImmediateLen(operand)
          case MS => GroupThreeImmediate(op, m, operand)
          case _ => 0;
        Insn(body + ModRMLen(m) + tail, if c != MS && IsRipRelative(m) then body + 1 else 0)
  }

  function Disasm(code: seq<byte>): Decoded {
    if OpcodeReadable(code) then DecodeBody(code) else Unreadable
  }

  /** The bytes the disassembler looks at: prefixes, opcode and ModR/M. */
  function Examined(code: seq<byte>): nat
    requires OpcodeReadable(code)
  {
    if HasModRM(ClassOf(code)) then BodyAt(code) + 1
    else OpcodeAt(code) + (if code[OpcodeAt(code)] == 0x0F then 2 else 1)
  }

  lemma {:induction false} LegacyBounds(code: seq<byte>, p: Prefixes)
    requires p.end <= |code|
    ensures p.end <= ScanLegacy(code, p).end <= |code|
    ensures forall i :: p.end <= i < ScanLegacy(code, p).end ==> IsLegacyPrefix(code[i])
    decreases |code| - p.end
  {
    if p.end < |code| && IsLegacyPrefix(code[p.end]) {
      var c := code[p.end];
      LegacyBounds(code, Prefixes(p.end + 1, if c == 0x66 then 2 else p.operand, if c == 0x67 then 4 else p.address));
    }
  }

  lemma {:induction false} LegacyLocal(a: seq<byte>, b: seq<byte>, k: nat, p: Prefixes)
    requires k <= |a| && k <= |b| && a[..k] == b[..k]
    requires ScanLegacy(a, p).end < k
    ensures ScanLegacy(b, p) == ScanLegacy(a, p)
    decreases |a| - p.end
  {
    if p.end < k {
      assert a[..k][p.end] == b[..k][p.end];
      if IsLegacyPrefix(a[p.end]) {
        var c := a[p.end];
        LegacyLocal(a, b, k,
          Prefixes(p.end + 1, if c == 0x66 then 2 else p.operand, if c == 0x67 then 4 else p.address));
      }
    } else {
      EndsAfter(a, p);
    }
  }

  lemma {:induction false} EndsAfter(code: seq<byte>, p: Prefixes)
    ensures p.end <= ScanLegacy(code, p).end
    decreases |code| - p.end
  {
    if p.end < |code| && IsLegacyPrefix(code[p.end]) {
      var c := code[p.end];
      EndsAfter(code, Prefixes(p.end + 1, if c == 0x66 then 2 else p.operand, if c == 0x67 then 4 else p.address));
    }
  }

  /** Code that agrees on the examined bytes decodes alike. */
  lemma DisasmLocal(a: seq<byte>, b: seq<byte>, k: nat)
    requires OpcodeReadable(a) && Examined(a) <= k <= |a| && k <= |b|
    requires a[..k] == b[..k]
    ensures OpcodeReadable(b) && Examined(b) == Examined(a)
    ensures OpcodeAt(b) == OpcodeAt(a) && BodyAt(b) == BodyAt(a) && ClassOf(b) == ClassOf(a)
    ensures OperandSize(b) == OperandSize(a) && Disasm(b) == Disasm(a)
  {
    forall i | 0 <= i < k ensures a[i] == b[i] {
      assert a[..k][i] == b[..k][i];
    }
    LegacyLocal(a, b, k, Prefixes(0, 4, 8));
  }

  /** Where the displacement sits, and how long the two short branches are. */
  lemma InsnShape(code: seq<byte>)
    requires Disasm(code).Insn?
    ensures OpcodeReadable(code) && Examined(code) <= |code|
    ensures 0 < Examined(code) <= Disasm(code).len
    ensures Disasm(code).reloc > 0 ==> Examined(code) <= Disasm(code).reloc
    ensures Disasm(code).reloc > 0 ==>
              Disasm(code).len >= Disasm(code).reloc + (if IsNear16(code) then 2 else 4)
    ensures IsNear16(code) ==> Disasm(code).len == Disasm(code).reloc + 2
    ensures ClassOf(code) == R8 ==> Disasm(code) == Insn(OpcodeAt(code) + 2, 0)
  {
  }

  /** A near call or branch under an operand-size prefix: only two displacement bytes are decoded. */
  predicate IsNear16(code: seq<byte>) {
    OpcodeReadable(code) && ClassOf(code) == RV && OperandSize(code) == 2
  }

  /** `snare_skip_prefixes`: unlike the disassembler it passes any number of REX bytes. */
  function SkipFrom(insn: seq<byte>, p: nat, len: nat): nat
    requires p <= len <= |insn|
    decreases len - p
  {
    if p < len && (IsLegacyPrefix(insn[p]) || IsRex(insn[p])) then SkipFrom(insn, p + 1, len) else p
  }

  method SkipPrefixes(insn: seq<byte>, len: nat) returns (p: nat)
    requires len <= |insn|
    ensures p == SkipFrom(insn, 0, len)
  {
    p := 0;
    while p < len
      invariant p <= len && SkipFrom(insn, p, len) == SkipFrom(insn, 0, len)
    {
      if !IsLegacyPrefix(insn[p]) && !IsRex(insn[p]) {
        return;
      }
      p := p + 1;
    }
  }

  lemma {:induction false} SkipOver(insn: seq<byte>, p: nat, q: nat, len: nat)
    requires p <= q <= len <= |insn|
    requires forall i :: p <= i < q ==> IsLegacyPrefix(insn[i]) || IsRex(insn[i])
    ensures SkipFrom(insn, p, len) == SkipFrom(insn, q, len)
    decreases q - p
  {
    if p < q {
      SkipOver(insn, p + 1, q, len);
    }
  }

  /** The two prefix scans agree, except on a lone opcode byte that looks like a prefix itself. */
  lemma SkipFindsOpcode(code: seq<byte>, len: nat)
    requires Disasm(code).Insn? && len == Disasm(code).len <= |code|
    ensures SkipFrom(code, 0, len) == OpcodeAt(code) || (SkipFrom(code, 0, len) == len && ClassOf(code) == Plain)
  {
    InsnShape(code);
    LegacyBounds(code, Prefixes(0, 4, 8));
    var at := OpcodeAt(code);
    SkipOver(code, 0, at, len);
    if IsLegacyPrefix(code[at]) || IsRex(code[at]) {
      PrefixBytesArePlain(code[at]);
      assert len == at + 1;
    }
  }

  lemma PrefixBytesArePlain(c: byte)
    requires IsLegacyPrefix(c) || IsRex(c)
    ensures OneByte(c) == Plain
  {
  }

  /** `snare_disasm`. */
  method Decode(code: seq<byte>) returns (d: Decoded)
    ensures d == Disasm(code)
  {
    var len, operand, address := 0, 4, 8;
    while len < |code|
      invariant ScanLegacy(code, Prefixes(len, operand, address)) == Legacy(code)
    {
      var c := code[len];
      if c == 0x66 {
        operand := 2;
      } else if c == 0x67 {
        address := 4;
      } else if !IsLegacyPrefix(c) {
        break;
      }
      len := len + 1;
    }
    assert Legacy(code) == Prefixes(len, operand, address);
    if len >= |code| {
      return Unreadable;
    }
    var rexW := false;
    if IsRex(code[len]) {
      if code[len] / 8 % 2 == 1 {
        rexW, operand := true, 8;
      }
      len := len + 1;
      if len >= |code| {
        return Unreadable;
      }
    }
    d := DecodeFrom(code, len, rexW, operand, address);
  }

  /** The part of `snare_disasm` after the prefixes. */
  method DecodeFrom(code: seq<byte>, at: nat, rexW: bool, operand: nat, address: nat) returns (d: Decoded)
    requires at == OpcodeAt(code) < |code| && rexW == RexW(code)
    requires operand == OperandSize(code) && address == Legacy(code).address
    ensures d == Disasm(code)
  {
    var op, c, len := code[at], OneByte(code[at]), at + 1;
    if c == Escape {
      if len >= |code| {
        return Unreadable;
      }
      var second := code[len];
      len := len + 1;
      if second == 0x38 {
        c, len := M, len + 1;
      } else if second == 0x3A {
        c, len := MI, len + 1;
      } else {
        c := TwoByte(second);
      }
    }
    if c == Invalid || c == Escape {
      return Unsupported;
    }
    if c == SP {
      return Insn(len + (if op < 0xB0 then address else if op == 0xC8 then 3 else 2), 0);
    }
    var reloc := 0;
    if HasModRM(c) {
      if len >= |code| {
        return Unreadable;
      }
      var m := code[len];
      if c != MS && IsRipRelative(m) {
        reloc := len + 1;
      }
      len := len + ModRMLen(m);
      if c == MS {
        return Insn(len + GroupThreeImmediate(op, m, operand), 0);
      }
    }
    if c == I8 || c == MI || c == R8 {
      len := len + 1;
    }
    if c == IV || c == MV {
      len := len + (if rexW && op / 8 == 0x17 then 8 else ImmediateLen(operand));
    }
    if c == RV {
      reloc := len;
      len := len + ImmediateLen(operand);
    }
    return Insn(len, reloc);
  }
}
