/**
  The instruction lengths that the opcode tables of libsnare (thirdparty/libsnare.h) amount to,
  family by family, for every opcode of the one-byte and the 0F map.
 */
module SnareLengths {
  import opened Words
  import opened SnareDisasm

  // ---------------------------------------------------------------- one-byte opcodes

  /** Lock, repeat and segment prefixes, which change no length. */
  predicate SizeNeutral(c: byte) {
    c == 0xF0 || c == 0xF2 || c == 0xF3 || c == 0x2E || c == 0x36 || c == 0x3E || c == 0x26 || c == 0x64 || c == 0x65
  }

  predicate Prefix(c: byte) {
    SizeNeutral(c) || c == 0x66 || c == 0x67 || 0x40 <= c <= 0x4F
  }

  /** Code that starts with an opcode, not with a prefix. */
  predicate Bare(code: seq<byte>) {
    code != [] && !Prefix(code[0])
  }

  lemma BareScan(code: seq<byte>)
    requires Bare(code)
    ensures Legacy(code) == Prefixes(0, 4, 8) && OpcodeAt(code) == 0 && !RexW(code) && OperandSize(code) == 4
  {
  }

  /** The eight operations of the first quarter, one per row of eight, in one of their six forms. */
  predicate Arithmetic(op: byte, lo: int, hi: int) {
    op < 0x40 && lo <= op % 8 <= hi
  }

  /** Nothing follows: push and pop, string operations, returns, flags. */
  predicate Lone(op: byte) {
    || (Arithmetic(op, 6, 7) && op != 0x0F) || 0x50 <= op <= 0x61 || 0x6C <= op <= 0x6F
    || (0x90 <= op <= 0x9F && op != 0x9A) || 0xA4 <= op <= 0xA7 || 0xAA <= op <= 0xAF
    || op == 0xC3 || op == 0xC9 || op == 0xCB || op == 0xCC || op == 0xCE || op == 0xCF
    || op == 0xD6 || op == 0xD7 || 0xEC <= op <= 0xEF || op == 0xF1 || op == 0xF4 || op == 0xF5 || 0xF8 <= op <= 0xFD
  }

  /** One byte follows: an immediate or a short branch's distance. */
  predicate WithByte(op: byte) {
    || Arithmetic(op, 4, 4) || op == 0x6A || 0x70 <= op <= 0x7F || op == 0xA8 || 0xB0 <= op <= 0xB7
    || op == 0xCD || op == 0xD4 || op == 0xD5 || 0xE0 <= op <= 0xE7 || op == 0xEB
  }

  /** A full immediate follows. */
  predicate WithWord(op: byte) {
    Arithmetic(op, 5, 5) || op == 0x68 || op == 0xA9 || 0xB8 <= op <= 0xBF
  }

  predicate NearBranch(op: byte) {
    op == 0xE8 || op == 0xE9
  }

  /** Not in 64-bit code, or not understood. */
  predicate Refused(op: byte) {
    op == 0x62 || op == 0x9A || op == 0xC4 || op == 0xC5 || op == 0xEA
  }

  /** A ModR/M byte follows and no immediate. */
  predicate WithOperand(op: byte) {
    || Arithmetic(op, 0, 3) || op == 0x63 || 0x84 <= op <= 0x8F || 0xD0 <= op <= 0xD3 || 0xD8 <= op <= 0xDF
    || op == 0xFE || op == 0xFF
  }

  predicate WithOperandAndByte(op: byte) {
    op == 0x6B || op == 0x80 || op == 0x82 || op == 0x83 || op == 0xC0 || op == 0xC1 || op == 0xC6
  }

  predicate WithOperandAndWord(op: byte) {
    op == 0x69 || op == 0x81 || op == 0xC7
  }

  /** The bytes a ModR/M byte asks for: registers none, else an index byte for 4 and the displacement. */
  function Asked(m: byte): nat {
    if m >= 0xC0 then 0
    else if m < 0x40 then (if m % 8 == 4 then 1 else if m % 8 == 5 then 4 else 0)
    else (if m < 0x80 then 1 else 4) + (if m % 8 == 4 then 1 else 0)
  }

  /** The displacement is taken from the next instruction on. */
  predicate FromNext(m: byte) {
    m < 0x40 && m % 8 == 5
  }

  lemma AskedIsModRM(m: byte)
    ensures ModRMLen(m) == 1 + Asked(m) && (IsRipRelative(m) <==> FromNext(m))
  {
  }

  lemma LengthsWithoutOperand(code: seq<byte>)
    requires Bare(code)
    ensures Lone(code[0]) ==> Disasm(code) == Insn(1, 0)
    ensures WithByte(code[0]) ==> Disasm(code) == Insn(2, 0)
    ensures WithWord(code[0]) ==> Disasm(code) == Insn(5, 0)
    ensures NearBranch(code[0]) ==> Disasm(code) == Insn(5, 1)
    ensures 0xA0 <= code[0] <= 0xA3 ==> Disasm(code) == Insn(9, 0)
    ensures code[0] == 0xC2 || code[0] == 0xCA ==> Disasm(code) == Insn(3, 0)
    ensures code[0] == 0xC8 ==> Disasm(code) == Insn(4, 0)
    ensures Refused(code[0]) ==> Disasm(code) == Unsupported
  {
    BareScan(code);
  }

  lemma LengthsWithOperand(code: seq<byte>)
    requires Bare(code) && |code| >= 2
    ensures var m := code[1];
            && (WithOperand(code[0]) ==> Disasm(code) == Insn(2 + Asked(m), if FromNext(m) then 2 else 0))
            && (WithOperandAndByte(code[0]) ==> Disasm(code) == Insn(3 + Asked(m), if FromNext(m) then 2 else 0))
            && (WithOperandAndWord(code[0]) ==> Disasm(code) == Insn(6 + Asked(m), if FromNext(m) then 2 else 0))
  {
    BareScan(code);
    AskedIsModRM(code[1]);
  }

  /** F6 and F7: an immediate only for the test, which is operation 0 or 1. */
  lemma LengthsOfGroupThree(code: seq<byte>)
    requires |code| >= 2 && (code[0] == 0xF6 || code[0] == 0xF7)
    ensures var m := code[1];
            Disasm(code) == Insn(2 + Asked(m) + if m / 8 % 8 >= 2 then 0 else if code[0] == 0xF6 then 1 else 4, 0)
  {
    BareScan(code);
    AskedIsModRM(code[1]);
  }

  /** Every byte that can start bare code belongs to one of the families. */
  lemma FamiliesAreAll(op: byte)
    requires !Prefix(op)
    ensures Lone(op) || WithByte(op) || WithWord(op) || NearBranch(op) || Refused(op)
            || 0xA0 <= op <= 0xA3 || op == 0xC2 || op == 0xCA || op == 0xC8
            || WithOperand(op) || WithOperandAndByte(op) || WithOperandAndWord(op)
            || op == 0xF6 || op == 0xF7 || op == 0x0F
  {
  }

  // ---------------------------------------------------------------- after 0F

  predicate LoneAfter0F(op: byte) {
    || 0x05 <= op <= 0x09 || op == 0x0B || op == 0x0E || 0x30 <= op <= 0x35 || op == 0x77
    || 0xA0 <= op <= 0xA2 || 0xA8 <= op <= 0xAA || 0xC8 <= op <= 0xCF
  }

  predicate WithOperandAndByteAfter0F(op: byte) {
    || op == 0x0F || 0x70 <= op <= 0x73 || op == 0xA4 || op == 0xAC || op == 0xBA || op == 0xC2 || 0xC4 <= op <= 0xC6
  }

  predicate RefusedAfter0F(op: byte) {
    || op == 0x04 || op == 0x0A || op == 0x0C || 0x24 <= op <= 0x27 || op == 0x36 || op == 0x37 || op == 0x39
    || 0x3B <= op <= 0x3F || op == 0x7A || op == 0x7B || op == 0xA6 || op == 0xA7
  }

  /** All others but the near branches carry a ModR/M byte and nothing else. */
  predicate WithOperandAfter0F(op: byte) {
    && !LoneAfter0F(op) && !WithOperandAndByteAfter0F(op) && !RefusedAfter0F(op)
    && !(0x80 <= op <= 0x8F) && op != 0x38 && op != 0x3A
  }

  lemma LengthsAfter0F(code: seq<byte>)
    requires |code| >= 3 && code[0] == 0x0F
    ensures var op, m := code[1], code[2];
            && (LoneAfter0F(op) ==> Disasm(code) == Insn(2, 0))
            && (0x80 <= op <= 0x8F ==> Disasm(code) == Insn(6, 2))
            && (RefusedAfter0F(op) ==> Disasm(code) == Unsupported)
            && (WithOperandAfter0F(op) ==> Disasm(code) == Insn(3 + Asked(m), if FromNext(m) then 3 else 0))
            && (WithOperandAndByteAfter0F(op) ==> Disasm(code) == Insn(4 + Asked(m), if FromNext(m) then 3 else 0))
  {
    BareScan(code);
    AskedIsModRM(code[2]);
  }

  /** The three-byte maps 0F 38 and 0F 3A. */
  lemma LengthsOfThreeByteMaps(code: seq<byte>)
    requires |code| >= 4 && code[0] == 0x0F
    ensures var m := code[3];
            && (code[1] == 0x38 ==> Disasm(code) == Insn(4 + Asked(m), if FromNext(m) then 4 else 0))
            && (code[1] == 0x3A ==> Disasm(code) == Insn(5 + Asked(m), if FromNext(m) then 4 else 0))
  {
    BareScan(code);
    AskedIsModRM(code[3]);
  }

  // ---------------------------------------------------------------- prefixes

  /** The operand-size prefix halves full immediates and near branches; REX.W doubles the one of B8 to BF. */
  lemma LengthsUnderPrefix(code: seq<byte>)
    requires |code| >= 2 && Bare(code[1..])
    ensures code[0] == 0x66 && WithWord(code[1]) ==> Disasm(code) == Insn(4, 0)
    ensures code[0] == 0x66 && NearBranch(code[1]) ==> Disasm(code) == Insn(4, 2)
    ensures code[0] == 0x67 && 0xA0 <= code[1] <= 0xA3 ==> Disasm(code) == Insn(6, 0)
    ensures 0x48 <= code[0] <= 0x4F && WithWord(code[1]) ==> Disasm(code) == Insn(if code[1] >= 0xB8 then 10 else 6, 0)
    ensures (SizeNeutral(code[0]) || 0x40 <= code[0] <= 0x47) && WithWord(code[1]) ==> Disasm(code) == Insn(6, 0)
  {
    assert code[1..][0] == code[1];
    if IsLegacyPrefix(code[0]) {
      var p := Prefixes(1, if code[0] == 0x66 then 2 else 4, if code[0] == 0x67 then 4 else 8);
      assert ScanLegacy(code, p) == p;
    }
  }
}
