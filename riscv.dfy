/**
 * The RISC-V (RV32I) front end of the jcpu translator: the opcode dispatch
 * of disas_insn with the encodings each decoder accepts, the B/J/S
 * immediate assembly, the rules of the code the branch, jump and
 * immediate-arithmetic decoders emit, and the hard-wired zero register.
 *
 * RISC-V has no delay slots: every decode call is one instruction.
 */
module RiscV {
  import opened VmBase
  import opened Bits
  import Translate

  // ---- Instruction fields: the bit_sub<b, w> instances the decoders use ----

  /** bit_sub<2, 5>: the opcode without its two low bits, which disas_insn switches on. */
  function Kind(insn: bv32): (r: bv32) ensures r < 0x20 { (insn >> 2) & 0x1F }
  /** bit_sub<7, 5>: rd. */
  function Rd(insn: bv32): (r: bv32) ensures r < 0x20 { (insn >> 7) & 0x1F }
  /** bit_sub<12, 3>: funct3. */
  function Funct3(insn: bv32): (r: bv32) ensures r < 8 { (insn >> 12) & 0x7 }
  /** bit_sub<15, 5>: rs1. */
  function Rs1(insn: bv32): (r: bv32) ensures r < 0x20 { (insn >> 15) & 0x1F }
  /** bit_sub<20, 5>: rs2, and the shift amount of the immediate shifts. */
  function Rs2(insn: bv32): (r: bv32) ensures r < 0x20 { (insn >> 20) & 0x1F }
  /** bit_sub<25, 7>: funct7. */
  function Funct7(insn: bv32): (r: bv32) ensures r < 0x80 { (insn >> 25) & 0x7F }
  /** bit_sub<20, 12>: the I-type immediate. */
  function Imm12(insn: bv32): (r: bv32) ensures r < 0x1000 { (insn >> 20) & 0xFFF }

  /** Each named field is the bit_sub instance the decoder writes. */
  lemma FieldsAreBitSub(insn: bv32)
    ensures Kind(insn) == BitSub(insn, 2, 5) && Rd(insn) == BitSub(insn, 7, 5)
    ensures Funct3(insn) == BitSub(insn, 12, 3) && Rs1(insn) == BitSub(insn, 15, 5)
    ensures Rs2(insn) == BitSub(insn, 20, 5) && Funct7(insn) == BitSub(insn, 25, 7)
    ensures Imm12(insn) == BitSub(insn, 20, 12)
  {
  }

  // ---- The opcode dispatch of disas_insn ----

  /** What disas_insn does with an instruction word. */
  datatype InsnClass =
    | Plain       // decoded, the block goes on
    | Terminator  // a branch or jump: it stages PNEXT_PC and ends the block
    | Invalid     // a jcpu_assert fires

  /** disas_insn_integer_imm: SLLI needs funct7 0, SRLI/SRAI funct7 0 or 0x20. */
  predicate OpImmKnown(insn: bv32)
  {
    (Funct3(insn) == 1 ==> Funct7(insn) == 0)
    && (Funct3(insn) == 5 ==> Funct7(insn) == 0 || Funct7(insn) == 0x20)
  }

  /** disas_insn_integer_reg: ADD/SUB and SRL/SRA take funct7 0 or 32, the rest funct7 0. */
  predicate OpKnown(insn: bv32)
  {
    if Funct3(insn) == 0 || Funct3(insn) == 5 then Funct7(insn) == 0 || Funct7(insn) == 32
    else Funct7(insn) == 0
  }

  /**
   * disas_insn_load: LB, LH, LW, LBU, LHU, LWU. LD asserts a 64-bit
   * register width, which a 32-bit target never has, and funct3 7 is the
   * "never comes here" branch.
   */
  predicate LoadKnown(insn: bv32)
  {
    Funct3(insn) in {0, 1, 2, 4, 5, 6}
  }

  /** disas_insn_store: SB, SH, SW, SD (funct3 <= 3). */
  predicate StoreKnown(insn: bv32)
  {
    Funct3(insn) <= 3
  }

  /** disas_insn_cond_branch: funct3 2 and 3 are not branches. */
  predicate BranchKnown(insn: bv32)
  {
    Funct3(insn) != 2 && Funct3(insn) != 3
  }

  /** disas_insn_jump: JALR needs funct3 0; JAL has no further check. */
  predicate JumpKnown(insn: bv32)
  {
    Kind(insn) == 0x1B || Funct3(insn) == 0
  }

  /** The switch of disas_insn on bits 2..6, with the checks of the decoder it calls. */
  function Classify(insn: bv32): (c: InsnClass)
    ensures Kind(insn) !in {0x00, 0x04, 0x05, 0x08, 0x0C, 0x0D, 0x18, 0x19, 0x1B} ==> c == Invalid
    ensures c == Terminator <==> Kind(insn) in {0x18, 0x19, 0x1B} && c != Invalid
    ensures Kind(insn) == 0x05 || Kind(insn) == 0x0D ==> c == Plain
    ensures Kind(insn) == 0x04 ==> (c == Plain <==> OpImmKnown(insn))
    ensures Kind(insn) == 0x0C ==> (c == Plain <==> OpKnown(insn))
    ensures Kind(insn) == 0x00 ==> (c == Plain <==> LoadKnown(insn))
    ensures Kind(insn) == 0x08 ==> (c == Plain <==> StoreKnown(insn))
    ensures Kind(insn) == 0x18 ==> (c == Terminator <==> BranchKnown(insn))
    ensures Kind(insn) in {0x19, 0x1B} ==> (c == Terminator <==> JumpKnown(insn))
  {
    var kind := Kind(insn);
    if kind == 0x0D || kind == 0x05 then Plain                           // LUI, AUIPC
    else if kind == 0x04 then (if OpImmKnown(insn) then Plain else Invalid)
    else if kind == 0x0C then (if OpKnown(insn) then Plain else Invalid)
    else if kind == 0x00 then (if LoadKnown(insn) then Plain else Invalid)
    else if kind == 0x08 then (if StoreKnown(insn) then Plain else Invalid)
    else if kind == 0x18 then (if BranchKnown(insn) then Terminator else Invalid)
    else if kind == 0x19 || kind == 0x1B then (if JumpKnown(insn) then Terminator else Invalid)
    else Invalid
  }

  /**
   * disas_insn(pc, &insn_depth): fetch the word at pc, count one decode
   * call and emit the instruction's code.
   */
  function DisasInsn(fetch: Word -> Option<bv32>, pc: Word): (r: Outcome<Decoded>)
    ensures fetch(pc).None? ==> r == Fail(MemoryFault)
    ensures fetch(pc).Some? ==> (r.Fail? <==> Classify(fetch(pc).value) == Invalid)
    ensures r.Fail? ==> r.fault == MemoryFault || r.fault == Unimplemented
    ensures r.Ok? ==> r.value.depth == 1 && r.value.ops == [Insn(pc)]
    ensures r.Ok? ==> (r.value.done <==> Kind(fetch(pc).value) in {0x18, 0x19, 0x1B})
  {
    match fetch(pc)
    case None => Fail(MemoryFault)
    case Some(insn) =>
      match Classify(insn)
      case Invalid => Fail(Unimplemented)
      case Plain => Ok(Decoded(false, 1, [Insn(pc)]))
      case Terminator => Ok(Decoded(true, 1, [Insn(pc)]))
  }

  /** The RISC-V decoder as the translation loop sees it. */
  function Decoder(fetch: Word -> Option<bv32>): Translate.Decoder
  {
    (pc: Word) => DisasInsn(fetch, pc)
  }

  /**
   * The instruction count of a RISC-V block is the number of outer-loop
   * addresses it decoded, and an uncut block ends on a branch or jump.
   */
  lemma BlockCountIsLength(fetch: Word -> Option<bv32>, start: Word, bp: Option<Word>)
    requires Translate.WholeBlock(Decoder(fetch), start, bp, Translate.Checked).Ok?
    ensures var s := Translate.ScanFrom(Decoder(fetch), start, bp, WORD).value;
      var bb := Translate.WholeBlock(Decoder(fetch), start, bp, Translate.Checked).value;
      && bb.icount == |s.addrs|
      && (!s.cut ==> fetch(bb.end).Some? && Kind(fetch(bb.end).value) in {0x18, 0x19, 0x1B})
  {
    var dec := Decoder(fetch);
    Translate.WholeBlockCount(dec, start, bp, Translate.Checked);
    Translate.WholeBlockEnd(dec, start, bp, Translate.Checked);
    var s := Translate.ScanFrom(dec, start, bp, WORD).value;
    Translate.DepthsOfSingles(dec, s.addrs);
  }

  // ---- The zero register ----

  /** gen_get_reg: x0 reads as the constant 0, any other register as its value. */
  function ReadReg(gprs: seq<bv32>, r: bv32): bv32
    requires r < 32 && |gprs| == 32
  {
    if r == 0 then 0 else gprs[r]
  }

  /** gen_set_reg: a write to x0 is dropped. */
  function WriteReg(gprs: seq<bv32>, r: bv32, v: bv32): (g: seq<bv32>)
    requires r < 32 && |gprs| == 32
    ensures |g| == 32
  {
    if r == 0 then gprs else gprs[r := v]
  }

  /**
   * x0 always reads 0; a write is read back from its register unless that
   * register is x0, and no other register changes.
   */
  lemma ReadAfterWrite(gprs: seq<bv32>, r: bv32, v: bv32, s: bv32)
    requires r < 32 && s < 32 && |gprs| == 32
    ensures ReadReg(gprs, 0) == 0
    ensures ReadReg(WriteReg(gprs, r, v), s) == (if s == r && r != 0 then v else ReadReg(gprs, s))
    ensures WriteReg(gprs, 0, v) == gprs
  {
  }

  // ---- Immediates ----

  /**
   * ICmpSLT, the two's-complement order: flipping the sign bit of both
   * sides turns it into the unsigned order.
   */
  predicate SignedLess(a: bv32, b: bv32)
  {
    (a ^ 0x8000_0000) < (b ^ 0x8000_0000)
  }

  /**
   * SignedLess is the signed order: a negative word (sign bit set) is below
   * every non-negative one, and two words of the same sign compare as
   * unsigned.
   */
  lemma SignedLessIsSignedOrder(a: bv32, b: bv32)
    ensures a >= 0x8000_0000 && b < 0x8000_0000 ==> SignedLess(a, b) && !SignedLess(b, a)
    ensures (a < 0x8000_0000) == (b < 0x8000_0000) ==> (SignedLess(a, b) <==> a < b)
  {
  }

  /**
   * offset_imm of disas_insn_cond_branch: bit 31 to bit 12, bit 7 to bit 11,
   * bits 25..30 to bits 5..10 and bits 8..11 to bits 1..4.
   */
  function BranchRaw(insn: bv32): (o: bv32)
    ensures o < 0x2000 && o & 1 == 0
  {
    (((insn >> 31) & 1) << 12) | (((insn >> 7) & 1) << 11)
    | (((insn >> 25) & 0x3F) << 5) | (((insn >> 8) & 0xF) << 1)
  }

  /** The named assembly is the one the decoder writes with bit_sub. */
  lemma BranchRawIsTemplate(insn: bv32)
    ensures BranchRaw(insn) == (BitSub(insn, 31, 1) << 12) | (BitSub(insn, 7, 1) << 11)
                               | (BitSub(insn, 25, 6) << 5) | (BitSub(insn, 8, 4) << 1)
  {
  }

  /** A B-type word for a given even 13-bit offset, in the layout the decoder takes apart. */
  function EncodeBranch(off: bv32, funct3: bv32, rs1: bv32, rs2: bv32): (insn: bv32)
    requires off < 0x2000 && off & 1 == 0 && funct3 < 8 && rs1 < 32 && rs2 < 32
    ensures Kind(insn) == 0x18 && Funct3(insn) == funct3 && Rs1(insn) == rs1 && Rs2(insn) == rs2
  {
    (((off >> 12) & 1) << 31) | (((off >> 5) & 0x3F) << 25) | (rs2 << 20) | (rs1 << 15)
    | (funct3 << 12) | (((off >> 1) & 0xF) << 8) | (((off >> 11) & 1) << 7) | 0x63
  }

  /** Every even 13-bit offset survives encoding and the decoder's reassembly. */
  lemma BranchRoundTrip(off: bv32, funct3: bv32, rs1: bv32, rs2: bv32)
    requires off < 0x2000 && off & 1 == 0 && funct3 < 8 && rs1 < 32 && rs2 < 32
    ensures BranchRaw(EncodeBranch(off, funct3, rs1, rs2)) == off
  {
  }

  /** The branch offset sign-extended from 13 bits: an even byte distance in [-4096, 4094]. */
  function BranchOffset(insn: bv32): (o: bv32)
    ensures o & 0x1FFF == BranchRaw(insn)
  {
    Sext13(BranchRaw(insn))
  }

  /** The branch offset is even, and backwards exactly when bit 31 of the instruction is set. */
  lemma BranchOffsetSign(insn: bv32)
    ensures BranchOffset(insn) & 1 == 0
    ensures BranchOffset(insn) >= 0x8000_0000 <==> insn >= 0x8000_0000
  {
  }

  /**
   * The comparison a conditional branch makes: BEQ, BNE, BLT, BGE (signed),
   * BLTU, BGEU (unsigned).
   */
  function BranchTaken(funct3: bv32, a: bv32, b: bv32): bool
    requires funct3 < 8 && funct3 != 2 && funct3 != 3
  {
    match funct3
    case 0 => a == b
    case 1 => a != b
    case 4 => SignedLess(a, b)
    case 5 => !SignedLess(a, b)
    case 6 => a < b
    case _ => a >= b
  }

  /** The branches come in pairs whose conditions are each other's negation. */
  lemma BranchPairs(a: bv32, b: bv32)
    ensures BranchTaken(0, a, b) == !BranchTaken(1, a, b)
    ensures BranchTaken(4, a, b) == !BranchTaken(5, a, b)
    ensures BranchTaken(6, a, b) == !BranchTaken(7, a, b)
  {
  }

  /**
   * PNEXT_PC after a conditional branch: pc plus the offset when the
   * condition holds, pc + 4 otherwise, modulo 2^32.
   */
  function BranchNext(insn: bv32, pc: bv32, a: bv32, b: bv32): (next: bv32)
    requires BranchKnown(insn)
    ensures BranchTaken(Funct3(insn), a, b) ==> next == pc + BranchOffset(insn)
    ensures !BranchTaken(Funct3(insn), a, b) ==> next == pc + 4
  {
    // CreateSelect(flag, extended, 4) added to pc
    if BranchTaken(Funct3(insn), a, b) then pc + BranchOffset(insn) else pc + 4
  }

  /**
   * offset_raw of JAL: bit 31 to bit 20, bits 12..19 stay, bit 20 to
   * bit 11 and bits 21..30 to bits 1..10.
   */
  function JalRaw(insn: bv32): (o: bv32)
    ensures o < 0x20_0000 && o & 1 == 0
  {
    (((insn >> 31) & 1) << 20) | (((insn >> 12) & 0xFF) << 12)
    | (((insn >> 20) & 1) << 11) | (((insn >> 21) & 0x3FF) << 1)
  }

  /** The named assembly is the one the decoder writes with bit_sub. */
  lemma JalRawIsTemplate(insn: bv32)
    ensures JalRaw(insn) == (BitSub(insn, 31, 1) << 20) | (BitSub(insn, 12, 8) << 12)
                            | (BitSub(insn, 20, 1) << 11) | (BitSub(insn, 21, 10) << 1)
  {
  }

  /** A J-type word for a given even 21-bit offset. */
  function EncodeJal(off: bv32, rd: bv32): (insn: bv32)
    requires off < 0x20_0000 && off & 1 == 0 && rd < 32
    ensures Kind(insn) == 0x1B && Rd(insn) == rd
  {
    (((off >> 20) & 1) << 31) | (((off >> 1) & 0x3FF) << 21) | (((off >> 11) & 1) << 20)
    | (((off >> 12) & 0xFF) << 12) | (rd << 7) | 0x6F
  }

  /** Every even 21-bit offset survives encoding and the decoder's reassembly. */
  lemma JalRoundTrip(off: bv32, rd: bv32)
    requires off < 0x20_0000 && off & 1 == 0 && rd < 32
    ensures JalRaw(EncodeJal(off, rd)) == off
  {
  }

  /** The JAL offset sign-extended from 21 bits: an even byte distance in [-2^20, 2^20 - 2]. */
  function JalOffset(insn: bv32): (o: bv32)
    ensures o & 0x1F_FFFF == JalRaw(insn)
  {
    Sext21(JalRaw(insn))
  }

  /** The JAL offset is even, and backwards exactly when bit 31 of the instruction is set. */
  lemma JalOffsetSign(insn: bv32)
    ensures JalOffset(insn) & 1 == 0
    ensures JalOffset(insn) >= 0x8000_0000 <==> insn >= 0x8000_0000
  {
  }

  /** offset_tmp of disas_insn_store: bits 25..31 over bits 7..11. */
  function StoreRaw(insn: bv32): (o: bv32)
    ensures o < 0x1000
    ensures o & 0x1F == Rd(insn) && o >> 5 == Funct7(insn)
  {
    (Funct7(insn) << 5) | Rd(insn)
  }

  /** The named assembly is the one the decoder writes with bit_sub. */
  lemma StoreRawIsTemplate(insn: bv32)
    ensures StoreRaw(insn) == (BitSub(insn, 25, 7) << 5) | BitSub(insn, 7, 5)
  {
  }

  /** An S-type word for a given 12-bit offset. */
  function EncodeStore(off: bv32, funct3: bv32, rs1: bv32, rs2: bv32): (insn: bv32)
    requires off < 0x1000 && funct3 < 8 && rs1 < 32 && rs2 < 32
    ensures Kind(insn) == 0x08 && Funct3(insn) == funct3 && Rs1(insn) == rs1 && Rs2(insn) == rs2
  {
    ((off >> 5) << 25) | (rs2 << 20) | (rs1 << 15) | (funct3 << 12) | ((off & 0x1F) << 7) | 0x23
  }

  /** Every 12-bit offset survives encoding and the decoder's reassembly. */
  lemma StoreRoundTrip(off: bv32, funct3: bv32, rs1: bv32, rs2: bv32)
    requires off < 0x1000 && funct3 < 8 && rs1 < 32 && rs2 < 32
    ensures StoreRaw(EncodeStore(off, funct3, rs1, rs2)) == off
  {
  }

  /**
   * The store of disas_insn_store: the address base + sext(offset_tmp) and
   * the width 1 << funct3 bytes.
   */
  datatype Store = Store(addr: bv32, width: nat)

  function StoreAccess(insn: bv32, base: bv32): (s: Store)
    requires StoreKnown(insn)
    ensures s.addr == base + Sext12(StoreRaw(insn))
    ensures s.width in {1, 2, 4, 8}
    ensures s.width == 1 <==> Funct3(insn) == 0
    ensures s.width == 8 <==> Funct3(insn) == 3
  {
    Store(base + Sext12(StoreRaw(insn)), if Funct3(insn) == 0 then 1 else if Funct3(insn) == 1 then 2 else if Funct3(insn) == 2 then 4 else 8)
  }

  /**
   * JAL and JALR: rd := pc + 4 (dropped for x0) and the staged next PC,
   * pc + offset for JAL and rs1 + sext(imm12) for JALR, where rs1 is read
   * before rd is written. The base is not rounded down to an even address.
   */
  datatype JumpEffect = JumpEffect(gprs: seq<bv32>, next: bv32)

  function Jump(insn: bv32, pc: bv32, gprs: seq<bv32>): (e: JumpEffect)
    requires Kind(insn) in {0x19, 0x1B} && |gprs| == 32
    ensures |e.gprs| == 32
    ensures Kind(insn) == 0x1B ==> e.next == pc + JalOffset(insn)
    ensures Kind(insn) == 0x19 ==> e.next == ReadReg(gprs, Rs1(insn)) + Sext12(Imm12(insn))
    ensures Rd(insn) != 0 ==> ReadReg(e.gprs, Rd(insn)) == pc + 4
    ensures forall s: bv32 | s < 32 && s != Rd(insn) :: ReadReg(e.gprs, s) == ReadReg(gprs, s)
  {
    var next :=
      if Kind(insn) == 0x19 then ReadReg(gprs, Rs1(insn)) + Sext12(Imm12(insn))
      else pc + JalOffset(insn);
    JumpEffect(WriteReg(gprs, Rd(insn), pc + 4), next)
  }

  /** JALR with rd == rs1 jumps through the old value of the register, not the link. */
  lemma JalrReadsBeforeWrite(insn: bv32, pc: bv32, gprs: seq<bv32>)
    requires Kind(insn) == 0x19 && |gprs| == 32 && Rd(insn) == Rs1(insn) && Rd(insn) != 0
    ensures Jump(insn, pc, gprs).next == gprs[Rs1(insn)] + Sext12(Imm12(insn))
    ensures Jump(insn, pc, gprs).gprs[Rd(insn)] == pc + 4
  {
  }

  // ---- Immediate arithmetic (OP-IMM) ----

  /** SLLI, SRLI, SRAI. */
  predicate IsShift(insn: bv32)
  {
    Funct3(insn) == 1 || Funct3(insn) == 5
  }

  /** SLTI, SLTIU. */
  predicate IsSetLess(insn: bv32)
  {
    Funct3(insn) == 2 || Funct3(insn) == 3
  }

  /**
   * The second operand disas_insn_integer_imm builds, as written: ADDI,
   * XORI, ORI and ANDI sign-extend the 12-bit immediate, but SLTI, SLTIU
   * and the three shifts take gen_const(bit_sub<20, 12>), the immediate
   * zero-extended, funct7 bits included.
   */
  function OpImmOperandAsWritten(insn: bv32): (v: bv32)
    ensures !IsShift(insn) && !IsSetLess(insn) ==> v == Sext12(Imm12(insn))
    ensures IsShift(insn) || IsSetLess(insn) ==> v == Imm12(insn) && v < 0x1000
  {
    if IsShift(insn) || IsSetLess(insn) then Imm12(insn) else Sext12(Imm12(insn))
  }

  /**
   * The operand as RV32I defines it: every immediate sign-extended, the
   * shifts taking the 5-bit shift amount in bits 20..24.
   */
  function OpImmOperand(insn: bv32): (v: bv32)
    ensures IsShift(insn) ==> v == Rs2(insn) && v < 32
    ensures !IsShift(insn) ==> v == Sext12(Imm12(insn))
  {
    if IsShift(insn) then Rs2(insn) else Sext12(Imm12(insn))
  }

  /** LLVM's shifts give poison for an amount of 32 or more: None stands for it. */
  function Shift(funct3: bv32, arith: bool, src: bv32, amount: bv32): (r: Option<bv32>)
    requires funct3 == 1 || funct3 == 5
    ensures r.Some? <==> amount < 32
  {
    if amount >= 32 then None
    else if funct3 == 1 then Some(src << amount)
    else if !arith then Some(src >> amount)
    else if src < 0x8000_0000 then Some(src >> amount)
    else Some(!((!src) >> amount))
  }

  /** The value an OP-IMM instruction writes to rd, from rs1's value and a given operand. */
  function OpImmWith(insn: bv32, src: bv32, operand: bv32): (r: Option<bv32>)
    requires Kind(insn) == 0x04 && OpImmKnown(insn)
  {
    match Funct3(insn)
    case 0 => Some(src + operand)
    case 2 => Some(if SignedLess(src, operand) then 1 else 0)
    case 3 => Some(if src < operand then 1 else 0)
    case 4 => Some(src ^ operand)
    case 6 => Some(src | operand)
    case 7 => Some(src & operand)
    case _ => Shift(Funct3(insn), Funct7(insn) == 0x20, src, operand)
  }

  /** The source's OP-IMM result: defined for every instruction but SRAI. */
  function OpImmAsWritten(insn: bv32, src: bv32): (r: Option<bv32>)
    requires Kind(insn) == 0x04 && OpImmKnown(insn)
    ensures r.None? <==> Funct3(insn) == 5 && Funct7(insn) == 0x20
  {
    OpImmWith(insn, src, OpImmOperandAsWritten(insn))
  }

  /** The intended OP-IMM result: always defined, the shifts by the 5-bit amount. */
  function OpImm(insn: bv32, src: bv32): (r: Option<bv32>)
    requires Kind(insn) == 0x04 && OpImmKnown(insn)
    ensures r.Some?
    ensures IsShift(insn) ==> r == Shift(Funct3(insn), Funct7(insn) == 0x20, src, Rs2(insn))
  {
    OpImmWith(insn, src, OpImmOperand(insn))
  }

  /** ADDI adds the sign-extended immediate. */
  lemma AddiAddsImmediate(insn: bv32, src: bv32)
    requires Kind(insn) == 0x04 && Funct3(insn) == 0
    ensures OpImm(insn, src) == Some(src + Sext12(Imm12(insn)))
  {
    var imm := Sext12(Imm12(insn));
    assert OpImmOperand(insn) == imm;
    assert OpImmWith(insn, src, imm) == Some(src + imm);
  }

  /** SLTI sets 1 exactly when rs1 is below the sign-extended immediate in the signed order. */
  lemma SltiComparesSigned(insn: bv32, src: bv32)
    requires Kind(insn) == 0x04 && Funct3(insn) == 2
    ensures OpImm(insn, src) == Some(if SignedLess(src, Sext12(Imm12(insn))) then 1 else 0)
  {
  }

  /** SLTIU sets 1 exactly when rs1 is below the sign-extended immediate in the unsigned order. */
  lemma SltiuComparesUnsigned(insn: bv32, src: bv32)
    requires Kind(insn) == 0x04 && Funct3(insn) == 3
    ensures OpImm(insn, src) == Some(if src < Sext12(Imm12(insn)) then 1 else 0)
  {
    var imm := Sext12(Imm12(insn));
    assert OpImmOperand(insn) == imm;
    assert OpImmWith(insn, src, imm) == Some(if src < imm then 1 else 0);
  }

  /** srai x1, x1, 1 (0x4010D093). */
  const SRAI_X1_1: bv32 := 0x4010_D093
  /** slti x1, x0, -1 (0xFFF02093). */
  const SLTI_X1_X0_M1: bv32 := 0xFFF0_2093

  /**
   * As written, every SRAI shifts by funct7 0x20 in bits 5..11 of the
   * amount, 1025 for srai by 1, which has no defined result; the
   * intended shift by bits 20..24 is defined and shifts by 1.
   */
  lemma SraiShiftsTooFar(src: bv32)
    ensures Kind(SRAI_X1_1) == 0x04 && OpImmKnown(SRAI_X1_1) && Funct3(SRAI_X1_1) == 5
    ensures OpImmOperandAsWritten(SRAI_X1_1) == 0x401
    ensures OpImmAsWritten(SRAI_X1_1, src) == None
    ensures OpImm(SRAI_X1_1, src) == Shift(5, true, src, 1)
  {
  }

  /**
   * As written, SLTI compares signed with the zero-extended immediate:
   * slti x1, x0, -1 finds 0 < 4095 and sets x1 to 1, where 0 < -1 is false.
   */
  lemma SltiIgnoresSign()
    ensures Kind(SLTI_X1_X0_M1) == 0x04 && OpImmKnown(SLTI_X1_X0_M1) && Funct3(SLTI_X1_X0_M1) == 2
    ensures Rs1(SLTI_X1_X0_M1) == 0 && Sext12(Imm12(SLTI_X1_X0_M1)) == 0xFFFF_FFFF
    ensures OpImmAsWritten(SLTI_X1_X0_M1, 0) == Some(1)
    ensures OpImm(SLTI_X1_X0_M1, 0) == Some(0)
  {
  }
}
