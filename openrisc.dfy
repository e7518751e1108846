/**
 * The OpenRISC 1000 (ORBIS32) front end of the jcpu translator: register
 * numbering, the opcode dispatch of disas_insn with its nested delay-slot
 * decode, and the next-PC and status-register rules the branch decoders
 * emit.
 */
module OpenRisc {
  import opened VmBase
  import opened Bits
  import Translate

  // reg_e: GPR 0..31, then the special registers.
  const REG_LR: nat := 9
  const REG_PC: nat := 32
  const REG_SR: nat := 33
  const REG_CPUCFGR: nat := 34
  const REG_EPCR0: nat := 35
  const REG_PNEXT_PC: nat := 36
  const NUM_REGS: nat := 37

  /** What disas_insn does with an instruction word, before any delay slot. */
  datatype InsnClass =
    | Plain              // decoded, the block goes on
    | Delayed(late: bool) // a jump or branch whose delay slot is decoded nested; late when code follows the slot
    | Final              // l.rfe: ends the block with no delay slot
    | Invalid            // jcpu_or_disas_assert

  // ---- Instruction fields: the bit_sub<b, w> instances the decoder uses ----

  /** bit_sub<26, 6>: the major opcode. */
  function Major(insn: bv32): (r: bv32) ensures r < 0x40 { (insn >> 26) & 0x3F }
  /** bit_sub<24, 2>: op1 of l.nop. */
  function Op1(insn: bv32): (r: bv32) ensures r < 4 { (insn >> 24) & 0x3 }
  /** bit_sub<21, 5>: rD, and the sub-opcode of the set-flag instructions. */
  function Field21(insn: bv32): (r: bv32) ensures r < 0x20 { (insn >> 21) & 0x1F }
  /** bit_sub<16, 1>: the bit that separates l.movhi from l.macrc. */
  function Bit16(insn: bv32): (r: bv32) ensures r < 2 { (insn >> 16) & 0x1 }
  /** bit_sub<6, 2>: the shift kind of disas_logical. */
  function ShiftOp(insn: bv32): (r: bv32) ensures r < 4 { (insn >> 6) & 0x3 }
  /** bit_sub<0, 4>, bit_sub<8, 2>, bit_sub<6, 4>: op, op2, op3 of disas_arith. */
  function ArithOp(insn: bv32): (r: bv32) ensures r < 0x10 { insn & 0xF }
  function ArithOp2(insn: bv32): (r: bv32) ensures r < 4 { (insn >> 8) & 0x3 }
  function ArithOp3(insn: bv32): (r: bv32) ensures r < 0x10 { (insn >> 6) & 0xF }
  /** bit_sub<0, 16>, bit_sub<0, 11>, bit_sub<0, 26>: lo16, I11, n26. */
  function Lo16(insn: bv32): (r: bv32) ensures r < 0x1_0000 { insn & 0xFFFF }
  function Lo11(insn: bv32): (r: bv32) ensures r < 0x800 { insn & 0x7FF }
  function N26(insn: bv32): (r: bv32) ensures r < 0x400_0000 { insn & 0x3FF_FFFF }

  /** Each named field is the bit_sub instance the decoder writes. */
  lemma FieldsAreBitSub(insn: bv32)
    ensures Major(insn) == BitSub(insn, 26, 6) && Op1(insn) == BitSub(insn, 24, 2)
    ensures Field21(insn) == BitSub(insn, 21, 5) && Bit16(insn) == BitSub(insn, 16, 1)
    ensures ShiftOp(insn) == BitSub(insn, 6, 2) && ArithOp(insn) == BitSub(insn, 0, 4)
    ensures ArithOp2(insn) == BitSub(insn, 8, 2) && ArithOp3(insn) == BitSub(insn, 6, 4)
    ensures Lo11(insn) == BitSub(insn, 0, 11)
  {
  }

  lemma Lo16IsBitSub(insn: bv32)
    ensures Lo16(insn) == BitSub(insn, 0, 16)
  {
  }

  lemma N26IsBitSub(insn: bv32)
    ensures N26(insn) == BitSub(insn, 0, 26)
  {
  }

  /** disas_logical: l.slli, l.srli, l.srai. */
  predicate LogicalKnown(insn: bv32)
  {
    ShiftOp(insn) in {0, 1, 2}
  }

  /** disas_compare_immediate: l.sfeqi .. l.sflesi. */
  predicate CompareImmKnown(insn: bv32)
  {
    Field21(insn) in {0x0, 0x1, 0x2, 0x5, 0xA, 0xB, 0xC, 0xD}
  }

  /** disas_compare: l.sfeq .. l.sfles. */
  predicate CompareKnown(insn: bv32)
  {
    Field21(insn) in {0x0, 0x1, 0x2, 0x3, 0x4, 0x5, 0xA, 0xB, 0xC, 0xD}
  }

  /** disas_arith: add, sub, and, or, sll/srl (op3 0 or 1), mul. */
  predicate ArithKnown(insn: bv32)
  {
    var op := ArithOp(insn);
    var op2 := ArithOp2(insn);
    (op2 == 0 && (op in {0x0, 0x2, 0x3, 0x4} || (op == 0x8 && ArithOp3(insn) in {0x0, 0x1})))
    || (op2 == 3 && op == 0x6)
  }

  /** disas_others, by the major opcode. */
  function ClassifyOther(insn: bv32): (c: InsnClass)
    ensures c.Delayed? <==> Major(insn) in {0x00, 0x01, 0x03, 0x04, 0x11, 0x12}
    ensures c == Final <==> Major(insn) == 0x09
    ensures c.Delayed? ==> (c.late <==> Major(insn) == 0x12)
    ensures Major(insn) == 0x05 ==> (c == Plain <==> Op1(insn) == 1)
  {
    var op0 := Major(insn);
    if op0 in {0x00, 0x01, 0x03, 0x04, 0x11} then Delayed(false)  // l.j, l.jal, l.bnf, l.bf, l.jr
    else if op0 == 0x12 then Delayed(true)                           // l.jalr: LR is written after the slot
    else if op0 == 0x09 then Final                                   // l.rfe
    else if op0 == 0x05 then (if Op1(insn) == 1 then Plain else Invalid)  // l.nop
    else if op0 == 0x06 then (if Bit16(insn) == 0 then Plain else Invalid)  // l.movhi
    else if op0 in {0x21, 0x23, 0x24, 0x27, 0x29, 0x2A, 0x2B, 0x2C, 0x2D, 0x30, 0x35, 0x36, 0x37} then Plain
    else Invalid
  }

  /** The switch of disas_insn on bits 26..31. */
  function Classify(insn: bv32): (c: InsnClass)
    ensures Major(insn) in {0x08, 0x31, 0x32} ==> c == Invalid
    ensures Major(insn) == 0x2E ==> (c == Plain <==> LogicalKnown(insn)) && c != Final && !c.Delayed?
    ensures Major(insn) == 0x2F ==> (c == Plain <==> CompareImmKnown(insn)) && c != Final && !c.Delayed?
    ensures Major(insn) == 0x38 ==> (c == Plain <==> ArithKnown(insn)) && c != Final && !c.Delayed?
    ensures Major(insn) == 0x39 ==> (c == Plain <==> CompareKnown(insn)) && c != Final && !c.Delayed?
    ensures Major(insn) !in {0x08, 0x2E, 0x2F, 0x31, 0x32, 0x38, 0x39} ==> c == ClassifyOther(insn)
    ensures c.Delayed? || c == Final <==> Major(insn) in {0x00, 0x01, 0x03, 0x04, 0x09, 0x11, 0x12}
  {
    var kind := Major(insn);
    if kind in {0x08, 0x31, 0x32} then Invalid   // system, media, floating point
    else if kind == 0x2E then (if LogicalKnown(insn) then Plain else Invalid)
    else if kind == 0x2F then (if CompareImmKnown(insn) then Plain else Invalid)
    else if kind == 0x38 then (if ArithKnown(insn) then Plain else Invalid)
    else if kind == 0x39 then (if CompareKnown(insn) then Plain else Invalid)
    else ClassifyOther(insn)
  }

  /**
   * disas_insn(pc, &insn_depth): one decode call, which counts itself and,
   * for a jump or branch, decodes the delay slot at pc + 4 nested inside it.
   * A delay-slot instruction that would end the block is fatal. `nest`
   * bounds the nesting (each delay slot that is itself a jump nests once
   * more, until the assertion fires).
   */
  function DisasInsn(fetch: Word -> Option<bv32>, pc: Word, nest: nat): (r: Outcome<Decoded>)
    ensures fetch(pc).None? ==> r == Fail(MemoryFault)
    ensures fetch(pc).Some? && Classify(fetch(pc).value) == Invalid ==> r == Fail(Unimplemented)
    ensures r.Ok? ==> |r.value.ops| >= 1 && r.value.ops[0] == Insn(pc)
    ensures r.Ok? && !r.value.done ==> r.value.depth == 1 && r.value.ops == [Insn(pc)]
    ensures r.Ok? && fetch(pc).Some? && Classify(fetch(pc).value).Delayed? ==> r.value.done && r.value.depth == 2
    ensures r.Ok? && fetch(pc).Some? && Classify(fetch(pc).value) == Final ==> r.value.done && r.value.depth == 1
    decreases nest
  {
    match fetch(pc)
    case None => Fail(MemoryFault)
    case Some(insn) =>
      match Classify(insn)
      case Invalid => Fail(Unimplemented)
      case Plain => Ok(Decoded(false, 1, [Insn(pc)]))
      case Final => Ok(Decoded(true, 1, [Insn(pc)]))
      case Delayed(late) =>
        if nest == 0 then Fail(Runaway)
        else
          match DisasInsn(fetch, AddrAdd(pc, 4), nest - 1)
          case Fail(f) => Fail(f)
          case Ok(slot) =>
            if slot.done then Fail(DelaySlotTerminator)
            else Ok(Decoded(true, 1 + slot.depth, [Insn(pc)] + slot.ops + (if late then [InsnLate(pc)] else [])))
  }

  /**
   * A jump whose delay slot holds another jump, a branch or l.rfe never
   * yields a block: whenever the nested decode succeeds it reports a
   * terminator and the assertion fires.
   */
  lemma DelaySlotTerminatorFatal(fetch: Word -> Option<bv32>, pc: Word, nest: nat)
    requires fetch(pc).Some? && Classify(fetch(pc).value).Delayed?
    requires fetch(AddrAdd(pc, 4)).Some?
    requires Classify(fetch(AddrAdd(pc, 4)).value) == Final || Classify(fetch(AddrAdd(pc, 4)).value).Delayed?
    ensures DisasInsn(fetch, pc, nest).Fail?
    ensures nest > 0 && DisasInsn(fetch, AddrAdd(pc, 4), nest - 1).Ok? ==>
      DisasInsn(fetch, pc, nest) == Fail(DelaySlotTerminator)
  {
  }

  /** The OpenRISC decoder as the translation loop sees it. */
  function Decoder(fetch: Word -> Option<bv32>): Translate.Decoder
  {
    (pc: Word) => DisasInsn(fetch, pc, WORD)
  }

  /**
   * The instruction count of an OpenRISC block sums the insn_depth of each
   * outer decode call: one per outer address, plus one for the delay slot
   * when the block ends on a jump or branch; a block the breakpoint cut
   * counts its addresses, and an uncut block ends on a jump, a branch or
   * l.rfe.
   */
  lemma BlockCountsDelaySlot(fetch: Word -> Option<bv32>, start: Word, bp: Option<Word>)
    requires Translate.WholeBlock(Decoder(fetch), start, bp, Translate.Checked).Ok?
    ensures var s := Translate.ScanFrom(Decoder(fetch), start, bp, WORD).value;
      var bb := Translate.WholeBlock(Decoder(fetch), start, bp, Translate.Checked).value;
      && (s.cut ==> bb.icount == |s.addrs|)
      && (!s.cut ==> fetch(bb.end).Some?)
      && (!s.cut ==> var c := Classify(fetch(bb.end).value);
            (c.Delayed? || c == Final) && bb.icount == |s.addrs| + (if c.Delayed? then 1 else 0))
  {
    var dec := Decoder(fetch);
    Translate.WholeBlockCount(dec, start, bp, Translate.Checked);
    Translate.WholeBlockEnd(dec, start, bp, Translate.Checked);
    Translate.ScanDecodes(dec, start, bp, WORD);
    var s := Translate.ScanFrom(dec, start, bp, WORD).value;
    if s.cut {
      Translate.DepthsOfSingles(dec, s.addrs);
    } else {
      Translate.DepthsOfLast(dec, s.addrs);
    }
  }

  // ---- Rules of the code disas_others emits (on 32-bit words) ----

  /** SR[F] (bit 9), the flag the set-flag instructions write and l.bf / l.bnf read. */
  function FlagBit(sr: bv32): (f: bv32)
    ensures f == 0 || f == 1
  {
    (sr >> 9) & 1
  }

  /** CPUCFGR[ND] (bit 10): the CPU has no delay slot. */
  function NdBit(cpucfgr: bv32): (f: bv32)
    ensures f == 0 || f == 1
  {
    (cpucfgr >> 10) & 1
  }

  /**
   * The offset of l.bf / l.bnf: sext(lo16) << 2, a whole number of
   * instructions, backwards exactly when lo16 is negative.
   */
  function BranchOffset(insn: bv32): (o: bv32)
    ensures o & 3 == 0
    ensures o >= 0x8000_0000 <==> Lo16(insn) >= 0x8000
  {
    Sext16(Lo16(insn)) << 2
  }

  /** The named offset is the generic sign extension of bit_sub<0, 16>, shifted by two. */
  lemma BranchOffsetIsTemplate(insn: bv32)
    ensures BranchOffset(insn) == SignExtend(BitSub(insn, 0, 16), 16) << 2
  {
    Lo16IsBitSub(insn);
    assert Sext16(Lo16(insn)) == SignExtend(BitSub(insn, 0, 16), 16);
  }

  /**
   * The selection of disas_others for l.bf / l.bnf: gen_cond_code on SR[F]
   * between pc + off and pc + 8, with the two swapped for l.bnf.
   */
  function SelectBranch(isBnf: bool, pc: bv32, sr: bv32, off: bv32): (next: bv32)
    ensures !isBnf && FlagBit(sr) == 1 ==> next == pc + off
    ensures !isBnf && FlagBit(sr) == 0 ==> next == pc + 8
    ensures isBnf && FlagBit(sr) == 0 ==> next == pc + off
    ensures isBnf && FlagBit(sr) == 1 ==> next == pc + 8
  {
    var taken := pc + off;
    var notTaken := pc + 8;
    if isBnf then GenCondCode(FlagBit(sr), notTaken, taken)
    else GenCondCode(FlagBit(sr), taken, notTaken)
  }

  /**
   * PNEXT_PC after l.bf (op0 0x04) or l.bnf (op0 0x03): the branch is taken
   * when SR[F] is 1 for l.bf and 0 for l.bnf, and falls through past the
   * delay slot otherwise.
   */
  function BranchNext(insn: bv32, pc: bv32, sr: bv32): (next: bv32)
    requires Major(insn) == 0x03 || Major(insn) == 0x04
    ensures Major(insn) == 0x04 && FlagBit(sr) == 1 ==> next == pc + BranchOffset(insn)
    ensures Major(insn) == 0x04 && FlagBit(sr) == 0 ==> next == pc + 8
    ensures Major(insn) == 0x03 && FlagBit(sr) == 0 ==> next == pc + BranchOffset(insn)
    ensures Major(insn) == 0x03 && FlagBit(sr) == 1 ==> next == pc + 8
  {
    SelectBranch(Major(insn) == 0x03, pc, sr, BranchOffset(insn))
  }

  /** l.bf / l.bnf then clear SR[F]: SR & ~(1 << F); no other bit moves. */
  function ClearFlag(sr: bv32): (r: bv32)
    ensures FlagBit(r) == 0
    ensures r | 0x200 == sr | 0x200
  {
    sr & !((1 as bv32) << 9)
  }

  /** The offset of l.j / l.jal: sext(n26) << 2, backwards exactly when n26 is negative. */
  function JumpOffset(insn: bv32): (o: bv32)
    ensures o & 3 == 0
    ensures o >= 0x8000_0000 <==> N26(insn) >= 0x200_0000
  {
    Sext26(N26(insn)) << 2
  }

  /** The named offset is the generic sign extension of bit_sub<0, 26>, shifted by two. */
  lemma JumpOffsetIsTemplate(insn: bv32)
    ensures JumpOffset(insn) == SignExtend(BitSub(insn, 0, 26), 26) << 2
  {
    N26IsBitSub(insn);
    assert Sext26(N26(insn)) == SignExtend(BitSub(insn, 0, 26), 26);
  }

  /**
   * The link value of l.jal and l.jalr: pc + gen_cond_code(CPUCFGR[ND], 4, 8),
   * the instruction after the delay slot unless the CPU has no delay slot.
   */
  function LinkValue(pc: bv32, cpucfgr: bv32): (lr: bv32)
    ensures NdBit(cpucfgr) == 1 ==> lr == pc + 4
    ensures NdBit(cpucfgr) == 0 ==> lr == pc + 8
  {
    pc + GenCondCode(NdBit(cpucfgr), 4, 8)
  }

  /** SR[IEE] (bit 2), the interrupt-enable bit. */
  function IeeBit(sr: bv32): (f: bv32)
    ensures f == 0 || f == 1
  {
    (sr >> 2) & 1
  }

  /** The flag reads are the bit_sub<F, 1> / bit_sub<ND, 1> / bit_sub<IEE, 1> instances. */
  lemma FlagBitsAreBitSub(v: bv32)
    ensures FlagBit(v) == BitSub(v, 9, 1)
    ensures NdBit(v) == BitSub(v, 10, 1)
    ensures IeeBit(v) == BitSub(v, 2, 1)
  {
  }

  /** The SR flags gen_set_sr is used on. */
  datatype SrFlag = SrF | SrIee

  /**
   * gen_set_sr(flag, val): SR with the flag bit replaced by val (0 or 1),
   * (SR & ~(1 << flag)) | (val << flag); the other bits are kept.
   */
  function GenSetSr(sr: bv32, flag: SrFlag, val: bv32): (r: bv32)
    requires val == 0 || val == 1
    ensures flag == SrF ==> FlagBit(r) == val && r | 0x200 == sr | 0x200
    ensures flag == SrIee ==> IeeBit(r) == val && r | 0x4 == sr | 0x4
  {
    match flag
    case SrF => (sr & !((1 as bv32) << 9)) | (val << 9)
    case SrIee => (sr & !((1 as bv32) << 2)) | (val << 2)
  }

  /**
   * The 16-bit immediate of the stores l.sw / l.sb / l.sh, split in the
   * encoding: bits 21..25 over bits 0..10.
   */
  function StoreImm(insn: bv32): (i: bv32)
    ensures i < 0x1_0000
    ensures i & 0x7FF == Lo11(insn)
    ensures i >> 11 == Field21(insn)
  {
    (Field21(insn) << 11) | Lo11(insn)
  }
}
