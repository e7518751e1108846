/**
 * The ARM (A32) front end of the jcpu translator: the class dispatch of
 * disas_insn, the three instruction groups it implements (immediate ADD,
 * immediate-offset LDR/STR, B/BL), the condition check, and the R15
 * rules: a read of R15 gives the address of the instruction being
 * decoded, and a write to R15 goes to PNEXT_PC and ends the block.
 *
 * ARM has no delay slots: every decode call is one instruction.
 */
module Arm {
  import opened VmBase
  import opened Bits
  import Translate

  // arm_arch::reg_e: R0..R15 (R14 the link register, R15 the PC), then SR, CPUCFGR, PNEXT_PC.
  const REG_LINK: bv32 := 14
  const REG_PC: bv32 := 15
  const REG_PNEXT_PC: bv32 := 18
  const NUM_REGS: nat := 19

  /** A register file of the ARM target, as the generated code sees it. */
  predicate IsRegFile(regs: seq<bv32>)
  {
    |regs| == NUM_REGS
  }

  // ---- Instruction fields: the bit_sub<b, w> instances the decoders use ----

  /** bit_sub<28, 4>: the condition. */
  function Cond(insn: bv32): (r: bv32) ensures r < 0x10 { (insn >> 28) & 0xF }
  /** bit_sub<25, 3>: the class disas_insn switches on. */
  function Class(insn: bv32): (r: bv32) ensures r < 8 { (insn >> 25) & 0x7 }
  /** bit_sub<24, 1>: P of a load/store, L (link) of a branch, SWI versus coprocessor in class 7. */
  function Bit24(insn: bv32): (r: bv32) ensures r < 2 { (insn >> 24) & 1 }
  /** bit_sub<23, 1>: U, add (1) or subtract (0) the offset. */
  function UBit(insn: bv32): (r: bv32) ensures r < 2 { (insn >> 23) & 1 }
  /** bit_sub<22, 1>: B, a byte access. */
  function BBit(insn: bv32): (r: bv32) ensures r < 2 { (insn >> 22) & 1 }
  /** bit_sub<21, 1>: W, write back. */
  function WBit(insn: bv32): (r: bv32) ensures r < 2 { (insn >> 21) & 1 }
  /** bit_sub<20, 1>: L (load) of a load/store, S (set flags) of a data-processing instruction. */
  function Bit20(insn: bv32): (r: bv32) ensures r < 2 { (insn >> 20) & 1 }
  /** bit_sub<21, 4>: the data-processing opcode. */
  function Opcode(insn: bv32): (r: bv32) ensures r < 0x10 { (insn >> 21) & 0xF }
  /** bit_sub<16, 4>: Rn. */
  function Rn(insn: bv32): (r: bv32) ensures r < 0x10 { (insn >> 16) & 0xF }
  /** bit_sub<12, 4>: Rd. */
  function Rd(insn: bv32): (r: bv32) ensures r < 0x10 { (insn >> 12) & 0xF }
  /** bit_sub<0, 12>: the 12-bit immediate. */
  function Imm12(insn: bv32): (r: bv32) ensures r < 0x1000 { insn & 0xFFF }
  /** bit_sub<0, 24>: the branch offset in words. */
  function Imm24(insn: bv32): (r: bv32) ensures r < 0x100_0000 { insn & 0xFF_FFFF }

  /** Each named field is the bit_sub instance the decoder writes. */
  lemma FieldsAreBitSub(insn: bv32)
    ensures Cond(insn) == BitSub(insn, 28, 4) && Class(insn) == BitSub(insn, 25, 3)
    ensures Bit24(insn) == BitSub(insn, 24, 1) && UBit(insn) == BitSub(insn, 23, 1)
    ensures BBit(insn) == BitSub(insn, 22, 1) && WBit(insn) == BitSub(insn, 21, 1)
    ensures Bit20(insn) == BitSub(insn, 20, 1) && Opcode(insn) == BitSub(insn, 21, 4)
    ensures Rn(insn) == BitSub(insn, 16, 4) && Rd(insn) == BitSub(insn, 12, 4)
    ensures Imm12(insn) == BitSub(insn, 0, 12)
  {
  }

  lemma Imm24IsBitSub(insn: bv32)
    ensures Imm24(insn) == BitSub(insn, 0, 24)
  {
  }

  // ---- The class dispatch of disas_insn ----

  /** The decoder disas_insn hands an instruction to. */
  datatype InsnGroup =
    | DataProc | DataImm | ImmLdSt | OffsetLdSt | MultiLdSt | Branch | CoproLdSt | Swi | Copro

  /** The switch on bits 25..27, with class 7 split by bit 24. */
  function Group(insn: bv32): (g: InsnGroup)
    ensures g == Swi || g == Copro <==> Class(insn) == 7
    ensures g == Swi <==> Class(insn) == 7 && Bit24(insn) == 1
    ensures g == DataImm <==> Class(insn) == 1
    ensures g == ImmLdSt <==> Class(insn) == 2
    ensures g == Branch <==> Class(insn) == 5
  {
    match Class(insn)
    case 0 => DataProc
    case 1 => DataImm
    case 2 => ImmLdSt
    case 3 => OffsetLdSt
    case 4 => MultiLdSt
    case 5 => Branch
    case 6 => CoproLdSt
    case _ => if Bit24(insn) == 1 then Swi else Copro
  }

  /** Whether an immediate load/store writes the computed address back to Rn: unless P = 1 and W = 0. */
  predicate WritesBack(insn: bv32)
  {
    !(Bit24(insn) == 1 && WBit(insn) == 0)
  }

  /**
   * The encodings the decoders accept. Every register write goes through
   * gen_set_reg_by_cond, which asserts the condition "always" (0xE); a store
   * without write-back writes no register and so is never checked.
   */
  predicate Supported(insn: bv32)
  {
    match Group(insn)
    case DataImm => Bit20(insn) == 0 && Opcode(insn) == 4 && Cond(insn) == 0xE
    case ImmLdSt => BBit(insn) == 0 && (Cond(insn) == 0xE || (Bit20(insn) == 0 && !WritesBack(insn)))
    case Branch => Cond(insn) == 0xE
    case _ => false
  }

  /**
   * What disas_insn returns: true when the instruction writes R15 (so
   * PNEXT_PC), and always for B/BL.
   */
  predicate EndsBlock(insn: bv32)
  {
    match Group(insn)
    case DataImm => Rd(insn) == REG_PC
    case ImmLdSt => (Bit20(insn) == 1 && Rd(insn) == REG_PC) || (WritesBack(insn) && Rn(insn) == REG_PC)
    case _ => true
  }

  /** disas_insn(pc, &insn_depth): fetch, count one decode call, emit the instruction's code. */
  function DisasInsn(fetch: Word -> Option<bv32>, pc: Word): (r: Outcome<Decoded>)
    ensures fetch(pc).None? ==> r == Fail(MemoryFault)
    ensures fetch(pc).Some? ==> (r.Ok? <==> Supported(fetch(pc).value))
    ensures fetch(pc).Some? && Group(fetch(pc).value) !in {DataImm, ImmLdSt, Branch} ==> r == Fail(Unimplemented)
    ensures fetch(pc).Some? && Cond(fetch(pc).value) != 0xE && Group(fetch(pc).value) != ImmLdSt ==> r.Fail?
    ensures r.Ok? ==> r.value.depth == 1 && r.value.ops == [Insn(pc)]
    ensures r.Ok? ==> (r.value.done <==> EndsBlock(fetch(pc).value))
    ensures r.Ok? && Group(fetch(pc).value) == Branch ==> r.value.done
  {
    match fetch(pc)
    case None => Fail(MemoryFault)
    case Some(insn) =>
      if !Supported(insn) then Fail(Unimplemented)
      else Ok(Decoded(EndsBlock(insn), 1, [Insn(pc)]))
  }

  /** The ARM decoder as the translation loop sees it. */
  function Decoder(fetch: Word -> Option<bv32>): Translate.Decoder
  {
    (pc: Word) => DisasInsn(fetch, pc)
  }

  /**
   * The instruction count of an ARM block is the number of outer-loop
   * addresses it decoded, and an uncut block ends on an instruction that
   * writes R15.
   */
  lemma BlockCountIsLength(fetch: Word -> Option<bv32>, start: Word, bp: Option<Word>)
    requires Translate.WholeBlock(Decoder(fetch), start, bp, Translate.ArmStyle).Ok?
    ensures var s := Translate.ScanFrom(Decoder(fetch), start, bp, WORD).value;
      var bb := Translate.WholeBlock(Decoder(fetch), start, bp, Translate.ArmStyle).value;
      && bb.icount == |s.addrs|
      && (!s.cut ==> fetch(bb.end).Some? && EndsBlock(fetch(bb.end).value))
  {
    var dec := Decoder(fetch);
    Translate.WholeBlockCount(dec, start, bp, Translate.ArmStyle);
    Translate.WholeBlockEnd(dec, start, bp, Translate.ArmStyle);
    var s := Translate.ScanFrom(dec, start, bp, WORD).value;
    Translate.DepthsOfSingles(dec, s.addrs);
  }

  // ---- R15 ----

  /** gen_get_reg_pc_check: R15 reads as the address of the instruction being decoded. */
  function ReadChecked(regs: seq<bv32>, r: bv32, pc: bv32): bv32
    requires IsRegFile(regs) && r < 16
  {
    if r == REG_PC then pc else regs[r]
  }

  /** gen_set_reg_pc_check: a write to R15 lands in PNEXT_PC instead. */
  function WriteChecked(regs: seq<bv32>, r: bv32, v: bv32): (w: seq<bv32>)
    requires IsRegFile(regs) && r < 16
    ensures IsRegFile(w)
  {
    if r == REG_PC then regs[REG_PNEXT_PC := v] else regs[r := v]
  }

  /**
   * A write to R15 changes PNEXT_PC and leaves R15 itself alone; a write to
   * any other register changes that register. Nothing else moves, and
   * PNEXT_PC changes only through R15.
   */
  lemma WriteCheckedRedirects(regs: seq<bv32>, r: bv32, v: bv32)
    requires IsRegFile(regs) && r < 16
    ensures var w := WriteChecked(regs, r, v);
      && (r == REG_PC ==> w[REG_PNEXT_PC] == v && w[REG_PC] == regs[REG_PC])
      && (r != REG_PC ==> w[r] == v && w[REG_PNEXT_PC] == regs[REG_PNEXT_PC])
      && (forall i | 0 <= i < NUM_REGS && i != r as int && i != REG_PNEXT_PC as int :: w[i] == regs[i])
  {
  }

  // ---- B / BL ----

  /** The branch offset: sext(imm24) << 2, a whole number of instructions. */
  function BranchOffset(insn: bv32): (o: bv32)
    ensures o & 3 == 0
  {
    Sext24(Imm24(insn)) << 2
  }

  /** The offset is backwards exactly when bit 23 is set. */
  lemma BranchOffsetSign(insn: bv32)
    ensures BranchOffset(insn) >= 0x8000_0000 <==> Imm24(insn) >= 0x80_0000
  {
  }

  /** The named offset is the generic sign extension of bit_sub<0, 24>, shifted by two. */
  lemma BranchOffsetIsTemplate(insn: bv32)
    ensures BranchOffset(insn) == SignExtend(BitSub(insn, 0, 24), 24) << 2
  {
    Imm24IsBitSub(insn);
    assert Sext24(Imm24(insn)) == SignExtend(BitSub(insn, 0, 24), 24);
  }

  /** An always-executed B or BL whose offset is `words` instructions, a signed 24-bit count. */
  function EncodeBranch(link: bool, words: bv32): (insn: bv32)
    requires words < 0x80_0000 || words >= 0xFF80_0000
    ensures Group(insn) == Branch && Cond(insn) == 0xE && (Bit24(insn) == 1 <==> link)
  {
    0xEA00_0000 | (if link then 0x100_0000 else 0) | (words & 0xFF_FFFF)
  }

  lemma ForwardRoundTrip(link: bool, words: bv32)
    requires words < 0x80_0000
    ensures BranchOffset(EncodeBranch(link, words)) == words << 2
  {
  }

  lemma BackwardRoundTrip(link: bool, words: bv32)
    requires words >= 0xFF80_0000
    ensures BranchOffset(EncodeBranch(link, words)) == words << 2
  {
  }

  /** Every offset in range survives encoding: the decoder recovers four times the instruction count. */
  lemma BranchRoundTrip(link: bool, words: bv32)
    requires words < 0x80_0000 || words >= 0xFF80_0000
    ensures BranchOffset(EncodeBranch(link, words)) == words << 2
  {
    if words < 0x80_0000 {
      ForwardRoundTrip(link, words);
    } else {
      BackwardRoundTrip(link, words);
    }
  }

  /**
   * disas_jump: PNEXT_PC := pc + 8 + offset, the PC of the instruction two
   * ahead as the base; BL also sets R14 := pc + 4.
   */
  function BranchEffect(insn: bv32, pc: bv32, regs: seq<bv32>): (w: seq<bv32>)
    requires IsRegFile(regs) && Group(insn) == Branch
    ensures IsRegFile(w)
    ensures w[REG_PNEXT_PC] == pc + 8 + BranchOffset(insn)
    ensures Bit24(insn) == 1 ==> w[REG_LINK] == pc + 4
    ensures Bit24(insn) == 0 ==> w[REG_LINK] == regs[REG_LINK]
    ensures forall i | 0 <= i < NUM_REGS && i != REG_LINK as int && i != REG_PNEXT_PC as int :: w[i] == regs[i]
  {
    var staged := regs[REG_PNEXT_PC := pc + 8 + BranchOffset(insn)];
    if Bit24(insn) == 1 then staged[REG_LINK := pc + 4] else staged
  }

  // ---- LDR / STR with an immediate offset ----

  /** The memory access of a load or a store. */
  datatype Access = Load(addr: bv32) | Store(addr: bv32, val: bv32)

  datatype LdStEffect = LdStEffect(access: Access, regs: seq<bv32>)

  /** Rn plus or minus the 12-bit offset, by U; Rn read with the R15 rule. */
  function OffsetAddr(insn: bv32, pc: bv32, regs: seq<bv32>): bv32
    requires IsRegFile(regs)
  {
    var base := ReadChecked(regs, Rn(insn), pc);
    if UBit(insn) == 1 then base + Imm12(insn) else base - Imm12(insn)
  }

  /**
   * disas_imm_ldst: the access uses the offset address when P is set and
   * Rn when it is clear; a load writes the loaded word to Rd, then the
   * offset address is written back to Rn unless P = 1 and W = 0. Both
   * writes follow the R15 rule.
   */
  function LdSt(insn: bv32, pc: bv32, regs: seq<bv32>, loaded: bv32): (e: LdStEffect)
    requires IsRegFile(regs) && Group(insn) == ImmLdSt
    ensures IsRegFile(e.regs)
    ensures Bit24(insn) == 1 ==> e.access.addr == OffsetAddr(insn, pc, regs)
    ensures Bit24(insn) == 0 ==> e.access.addr == ReadChecked(regs, Rn(insn), pc)
    ensures e.access.Load? <==> Bit20(insn) == 1
    ensures e.access.Store? ==> e.access.val == ReadChecked(regs, Rd(insn), pc)
  {
    var base := ReadChecked(regs, Rn(insn), pc);
    var computed := OffsetAddr(insn, pc, regs);
    var addr := if Bit24(insn) == 1 then computed else base;
    var afterLoad := if Bit20(insn) == 1 then WriteChecked(regs, Rd(insn), loaded) else regs;
    var access := if Bit20(insn) == 1 then Load(addr) else Store(addr, ReadChecked(regs, Rd(insn), pc));
    LdStEffect(access, if WritesBack(insn) then WriteChecked(afterLoad, Rn(insn), computed) else afterLoad)
  }

  /**
   * Write-back: the offset address lands in Rn, or in PNEXT_PC when Rn is
   * R15. It is the last write, so it wins over a load into the same register.
   */
  lemma LdStWriteBack(insn: bv32, pc: bv32, regs: seq<bv32>, loaded: bv32)
    requires IsRegFile(regs) && Group(insn) == ImmLdSt && WritesBack(insn)
    ensures var w := LdSt(insn, pc, regs, loaded).regs;
      w[if Rn(insn) == REG_PC then REG_PNEXT_PC else Rn(insn)] == OffsetAddr(insn, pc, regs)
  {
  }

  /** A load puts the loaded word in Rd, or in PNEXT_PC when Rd is R15, unless write-back overwrites it. */
  lemma LdStLoadsRd(insn: bv32, pc: bv32, regs: seq<bv32>, loaded: bv32)
    requires IsRegFile(regs) && Group(insn) == ImmLdSt && Bit20(insn) == 1
    requires !(WritesBack(insn) && Rn(insn) == Rd(insn))
    ensures var w := LdSt(insn, pc, regs, loaded).regs;
      w[if Rd(insn) == REG_PC then REG_PNEXT_PC else Rd(insn)] == loaded
  {
  }

  /**
   * R15 itself is never written, and PNEXT_PC moves only when the decoder
   * reports the end of the block.
   */
  lemma LdStRedirectsPc(insn: bv32, pc: bv32, regs: seq<bv32>, loaded: bv32)
    requires IsRegFile(regs) && Group(insn) == ImmLdSt
    ensures var w := LdSt(insn, pc, regs, loaded).regs;
      && w[REG_PC] == regs[REG_PC]
      && (!EndsBlock(insn) ==> w[REG_PNEXT_PC] == regs[REG_PNEXT_PC])
  {
  }

  /** Registers other than Rn, Rd and PNEXT_PC keep their values. */
  lemma LdStFrame(insn: bv32, pc: bv32, regs: seq<bv32>, loaded: bv32, i: int)
    requires IsRegFile(regs) && Group(insn) == ImmLdSt
    requires 0 <= i < NUM_REGS && i != Rn(insn) as int && i != Rd(insn) as int && i != REG_PNEXT_PC as int
    ensures LdSt(insn, pc, regs, loaded).regs[i] == regs[i]
  {
  }

  // ---- ADD with an immediate ----

  /**
   * disas_data_imm, as written: Rd := Rn + the raw 12-bit field (Rn with
   * the R15 rule, Rd with the PNEXT_PC redirect).
   */
  function AddImmAsWritten(insn: bv32, pc: bv32, regs: seq<bv32>): (w: seq<bv32>)
    requires IsRegFile(regs)
    ensures IsRegFile(w)
  {
    WriteChecked(regs, Rd(insn), ReadChecked(regs, Rn(insn), pc) + Imm12(insn))
  }

  /**
   * The data-processing immediate operand of the A32 encoding: the low
   * eight bits rotated right by twice the four-bit rotate field.
   */
  function RotatedImm(insn: bv32): (v: bv32)
    ensures (insn >> 8) & 0xF == 0 ==> v == insn & 0xFF
  {
    var imm8 := insn & 0xFF;
    var rot := ((insn >> 8) & 0xF) * 2;
    if rot == 0 then imm8 else (imm8 >> rot) | (imm8 << (32 - rot))
  }

  /** Rotating the operand back left by the same amount gives the eight encoded bits. */
  lemma RotatedImmUndo(insn: bv32)
    ensures var rot := ((insn >> 8) & 0xF) * 2;
      rot != 0 ==> (RotatedImm(insn) << rot) | (RotatedImm(insn) >> (32 - rot)) == insn & 0xFF
  {
  }

  /** ADD with the rotated immediate operand. */
  function AddImm(insn: bv32, pc: bv32, regs: seq<bv32>): (w: seq<bv32>)
    requires IsRegFile(regs)
    ensures IsRegFile(w)
    ensures Rd(insn) != REG_PC ==> w[Rd(insn)] == ReadChecked(regs, Rn(insn), pc) + RotatedImm(insn)
    ensures Rd(insn) == REG_PC ==> w[REG_PNEXT_PC] == ReadChecked(regs, Rn(insn), pc) + RotatedImm(insn)
  {
    WriteChecked(regs, Rd(insn), ReadChecked(regs, Rn(insn), pc) + RotatedImm(insn))
  }

  /** add r0, r0, #0x100: imm8 1 rotated right by 24 (0xE2800C01). */
  const ADD_R0_0x100: bv32 := 0xE280_0C01

  /** The fields of add r0, r0, #0x100: an always-executed, supported ADD immediate from r0 to r0. */
  lemma AddR0Fields()
    ensures Group(ADD_R0_0x100) == DataImm && Supported(ADD_R0_0x100)
    ensures Rd(ADD_R0_0x100) == 0 && Rn(ADD_R0_0x100) == 0 && Imm12(ADD_R0_0x100) == 0xC01
  {
  }

  /** Its operand is imm8 = 1 rotated right by 24 bits. */
  lemma AddR0Operand()
    ensures RotatedImm(ADD_R0_0x100) == 0x100
  {
  }

  /** As written, add r0, r0, #0x100 adds the raw field 0xC01. */
  lemma AddR0AsWritten(regs: seq<bv32>, pc: bv32)
    requires IsRegFile(regs)
    ensures AddImmAsWritten(ADD_R0_0x100, pc, regs)[0] == regs[0] + 0xC01
  {
    AddR0Fields();
  }

  /** With the rotated operand, add r0, r0, #0x100 adds 0x100. */
  lemma AddR0Rotated(regs: seq<bv32>, pc: bv32)
    requires IsRegFile(regs)
    ensures AddImm(ADD_R0_0x100, pc, regs)[0] == regs[0] + 0x100
  {
    AddR0Fields();
    AddR0Operand();
  }

  /**
   * A supported instruction the two readings of the operand disagree on:
   * as written, add r0, r0, #0x100 adds 0xC01 to r0; the A32 operand adds 0x100.
   */
  lemma AddImmIgnoresRotation(regs: seq<bv32>, pc: bv32)
    requires IsRegFile(regs)
    ensures Group(ADD_R0_0x100) == DataImm && Supported(ADD_R0_0x100)
    ensures AddImmAsWritten(ADD_R0_0x100, pc, regs)[0] == regs[0] + 0xC01
    ensures AddImm(ADD_R0_0x100, pc, regs)[0] == regs[0] + 0x100
    ensures AddImmAsWritten(ADD_R0_0x100, pc, regs) != AddImm(ADD_R0_0x100, pc, regs)
  {
    AddR0Fields();
    AddR0AsWritten(regs, pc);
    AddR0Rotated(regs, pc);
  }
}
