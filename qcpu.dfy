/**
 * qcpu, the older OpenRISC translator, as a variant of the jcpu engine: the
 * same block cache, a translation loop that knows no breakpoints, a block
 * count worked out from the addresses, a run loop that always starts at the
 * reset address and never returns, and no breakpoint support at all.
 *
 * Its instruction decoders are seen only through their shape: each
 * instruction is straight-line code or a jump with a delay slot (l.j,
 * l.jal, l.bf, l.bnf, l.jr), and every decode call, nested ones included,
 * ends by setting PC to its own address + 4.
 */
module Qcpu {
  import opened VmBase
  import opened BlockStore
  import Translate

  // The qcpu register file: r0..r31, then PC, SR, CPUCFGR, PNEXT_PC.
  const REG_PC: nat := 32
  const REG_PNEXT_PC: nat := 35
  const NUM_REGS: nat := 36
  /** The constructor's PC and PNEXT_PC, and where run() always begins. */
  const RESET_PC: Word := 0x100
  const LAYOUT: Layout := Layout(REG_PC, REG_PNEXT_PC)

  /** What the instruction at an address is to the translation loop. */
  datatype InsnKind = Straight | Jump

  /** The decoders of qcpu, seen from the loop: the kind of the word at an address, or the fault. */
  type Classifier = Word -> Outcome<InsnKind>

  /**
   * disas_insn(pc): the instruction's code, with a jump's delay slot
   * decoded nested inside it, then PC := pc + 4 as the call returns. A
   * delay slot that is itself a jump is fatal; `nest` bounds the nesting.
   */
  function DisasInsn(cls: Classifier, pc: Word, nest: nat): (r: Outcome<Decoded>)
    ensures cls(pc).Fail? ==> r == Fail(cls(pc).fault)
    ensures r.Ok? ==> (r.value.done <==> cls(pc) == Ok(Jump))
    ensures r.Ok? ==> r.value.depth == (if r.value.done then 2 else 1)
    ensures r.Ok? ==> |r.value.ops| >= 2 && r.value.ops[0] == Insn(pc)
    ensures r.Ok? ==> r.value.ops[|r.value.ops| - 1] == SetPc(AddrAdd(pc, 4))
    ensures r.Ok? && r.value.done ==> r.value.ops[1] == Insn(AddrAdd(pc, 4))
    decreases nest
  {
    match cls(pc)
    case Fail(f) => Fail(f)
    case Ok(Straight) => Ok(Decoded(false, 1, [Insn(pc), SetPc(AddrAdd(pc, 4))]))
    case Ok(Jump) =>
      if nest == 0 then Fail(Runaway)
      else
        match DisasInsn(cls, AddrAdd(pc, 4), nest - 1)
        case Fail(f) => Fail(f)
        case Ok(slot) =>
          if slot.done then Fail(DelaySlotTerminator)
          else Ok(Decoded(true, 1 + slot.depth, [Insn(pc)] + slot.ops + [SetPc(AddrAdd(pc, 4))]))
  }

  /** A jump in the delay slot of a jump never yields a block. */
  lemma JumpInDelaySlotFatal(cls: Classifier, pc: Word, nest: nat)
    requires cls(pc) == Ok(Jump) && cls(AddrAdd(pc, 4)) == Ok(Jump)
    ensures DisasInsn(cls, pc, nest).Fail?
  {
  }

  /** The qcpu decoder as the translation loop sees it. */
  function Decoder(cls: Classifier): Translate.Decoder
  {
    (pc: Word) => DisasInsn(cls, pc, WORD)
  }

  // ---- disas ----

  /**
   * disas(start, -1): decode start, start + 4, ... up to and including the
   * first jump, with no breakpoint test and no start <= end check; the
   * block ends at pc - 4 and counts the decode calls.
   */
  function WholeBlock(cls: Classifier, start: Word): (r: Outcome<BasicBlock>)
    ensures r.Ok? ==> Translate.ScanFrom(Decoder(cls), start, None, WORD).Ok?
    ensures r.Ok? ==> var s := Translate.ScanFrom(Decoder(cls), start, None, WORD).value;
      r.value == BasicBlock(start, AddrSub(s.next, 4), s.count, [CopyPnextToPc] + s.ops)
  {
    match Translate.ScanFrom(Decoder(cls), start, None, WORD)
    case Fail(f) => Fail(f)
    case Ok(s) => Ok(BasicBlock(start, AddrSub(s.next, 4), s.count, [CopyPnextToPc] + s.ops))
  }

  /** Depths of a run of straight instructions closed by one jump. */
  lemma {:induction false} DepthsOfJumpBlock(cls: Classifier, addrs: seq<Word>)
    requires |addrs| > 0 && forall a | a in addrs :: Decoder(cls)(a).Ok?
    requires forall i | 0 <= i < |addrs| - 1 :: !Decoder(cls)(addrs[i]).value.done
    requires Decoder(cls)(addrs[|addrs| - 1]).value.done
    ensures Translate.Depths(Decoder(cls), addrs) == |addrs| + 1
    decreases |addrs|
  {
    if |addrs| > 1 {
      var rest := addrs[1..];
      assert forall a | a in rest :: a in addrs;
      assert forall i | 0 <= i < |rest| - 1 :: rest[i] == addrs[i + 1];
      DepthsOfJumpBlock(cls, rest);
    }
  }

  /**
   * A whole block ends on its first jump: every word before it is straight,
   * the jump is the block's end, and the loop stops on the word after it.
   */
  lemma WholeBlockEndsOnJump(cls: Classifier, start: Word)
    requires WholeBlock(cls, start).Ok?
    ensures var s := Translate.ScanFrom(Decoder(cls), start, None, WORD).value;
      var bb := WholeBlock(cls, start).value;
      && !s.cut && |s.addrs| > 0 && s.next == AddrAdd(bb.end, 4)
      && bb.end == s.addrs[|s.addrs| - 1] && cls(bb.end) == Ok(Jump)
  {
    var dec := Decoder(cls);
    var s := Translate.ScanFrom(dec, start, None, WORD).value;
    Translate.ScanUncut(dec, start, WORD);
    Translate.ScanNext(dec, start, None, WORD);
    Translate.ScanDecodes(dec, start, None, WORD);
    AddrSubAdd(s.addrs[|s.addrs| - 1], 4);
  }

  /** Every word of a whole block before its end is a straight instruction. */
  lemma WholeBlockStraight(cls: Classifier, start: Word)
    requires WholeBlock(cls, start).Ok?
    ensures var s := Translate.ScanFrom(Decoder(cls), start, None, WORD).value;
      forall i | 0 <= i < |s.addrs| - 1 :: cls(s.addrs[i]) == Ok(Straight)
  {
    Translate.ScanDecodes(Decoder(cls), start, None, WORD);
  }

  /** A whole block counts its words plus the delay slot of its jump. */
  lemma WholeBlockCount(cls: Classifier, start: Word)
    requires WholeBlock(cls, start).Ok?
    ensures WholeBlock(cls, start).value.icount
      == |Translate.ScanFrom(Decoder(cls), start, None, WORD).value.addrs| + 1
  {
    var dec := Decoder(cls);
    var s := Translate.ScanFrom(dec, start, None, WORD).value;
    Translate.ScanUncut(dec, start, WORD);
    Translate.ScanDecodes(dec, start, None, WORD);
    Translate.ScanCount(dec, start, None, WORD);
    DepthsOfJumpBlock(cls, s.addrs);
  }

  /**
   * The count as the source writes it: 1 + (pc - start) / 4 in 32-bit
   * arithmetic, where pc is the loop variable after the last instruction.
   */
  function CountAsWritten(start: Word, pc: Word): (n: nat)
    ensures n >= 1
  {
    1 + AddrSub(pc, start) / 4
  }

  /** k words on from start, and back: 4k when 4k fits in 32 bits. */
  lemma StrideDistance(start: Word, k: nat)
    requires 4 * k < WORD
    ensures AddrSub(Translate.Stride(start, k), start) == 4 * k
  {
  }

  /**
   * For a whole block the formula agrees with the decode count (the
   * delay slot is the 1), as long as the block is shorter than 2^30 words.
   */
  lemma WholeCountAsWritten(cls: Classifier, start: Word)
    requires WholeBlock(cls, start).Ok?
    requires |Translate.ScanFrom(Decoder(cls), start, None, WORD).value.addrs| < 0x4000_0000
    ensures CountAsWritten(start, Translate.ScanFrom(Decoder(cls), start, None, WORD).value.next)
      == WholeBlock(cls, start).value.icount
  {
    var dec := Decoder(cls);
    var s := Translate.ScanFrom(dec, start, None, WORD).value;
    var k := |s.addrs|;
    WholeBlockEndsOnJump(cls, start);
    WholeBlockCount(cls, start);
    Translate.ScanAddrs(dec, start, None, WORD);
    Translate.StrideStep(start, k - 1);
    StrideDistance(start, k);
  }

  /**
   * disas(start, 1) as written: one decode call; pc is start + 8 after a
   * jump and start + 4 otherwise; only a straight instruction stages
   * PNEXT_PC = pc; the count is 1 + (pc - start) / 4.
   */
  function StepBlockAsWritten(cls: Classifier, start: Word): (r: Outcome<BasicBlock>)
    ensures DisasInsn(cls, start, WORD).Fail? ==> r == Fail(DisasInsn(cls, start, WORD).fault)
    ensures r.Ok? ==> r.value.start == start && r.value.icount == DisasInsn(cls, start, WORD).value.depth + 1
  {
    match DisasInsn(cls, start, WORD)
    case Fail(f) => Fail(f)
    case Ok(d) =>
      var pc := if d.done then AddrAdd(start, 8) else AddrAdd(start, 4);
      assert AddrSub(pc, start) == if d.done then 8 else 4;
      Ok(BasicBlock(start, AddrSub(pc, 4), CountAsWritten(start, pc),
                    [CopyPnextToPc] + d.ops + (if d.done then [] else [StagePnext(pc)])))
  }

  /**
   * disas(start, 1) as evidently intended: the count is the number of
   * decode calls, and after a jump PC := PNEXT_PC closes the block, so that
   * the PC register holds the next PC whatever the instruction was. The VM
   * below runs the step as written; this is the reference it falls short of.
   */
  function StepBlock(cls: Classifier, start: Word): (r: Outcome<BasicBlock>)
    ensures DisasInsn(cls, start, WORD).Fail? ==> r == Fail(DisasInsn(cls, start, WORD).fault)
    ensures r.Ok? ==> r.value.start == start && r.value.icount == DisasInsn(cls, start, WORD).value.depth
    ensures r.Ok? ==> r.value.end == (if cls(start) == Ok(Jump) then AddrAdd(start, 4) else start)
  {
    match DisasInsn(cls, start, WORD)
    case Fail(f) => Fail(f)
    case Ok(d) =>
      var pc := if d.done then AddrAdd(start, 8) else AddrAdd(start, 4);
      AddrSubAdd(start, 4);
      assert d.done ==> AddrSub(pc, 4) == AddrAdd(start, 4) by {
        if d.done {
          AddrSubAdd(AddrAdd(start, 4), 4);
          assert AddrAdd(AddrAdd(start, 4), 4) == AddrAdd(start, 8);
        }
      }
      Ok(BasicBlock(start, AddrSub(pc, 4), d.depth,
                    [CopyPnextToPc] + d.ops + (if d.done then [CopyPnextToPc] else [StagePnext(pc)])))
  }

  /**
   * As written, a step counts one instruction too many: 2 for a straight
   * instruction and 3 for a jump and its delay slot.
   */
  lemma StepCountsOneExtra(cls: Classifier, start: Word)
    requires DisasInsn(cls, start, WORD).Ok?
    ensures StepBlockAsWritten(cls, start).Ok? && StepBlock(cls, start).Ok?
    ensures StepBlockAsWritten(cls, start).value.icount == StepBlock(cls, start).value.icount + 1
    ensures cls(start) == Ok(Straight) ==> StepBlockAsWritten(cls, start).value.icount == 2
  {
    var d := DisasInsn(cls, start, WORD).value;
    var pc := if d.done then AddrAdd(start, 8) else AddrAdd(start, 4);
    assert AddrSub(pc, start) == if d.done then 8 else 4;
  }

  /** The last operation of a block sets the PC register to v. */
  lemma LastSetsPc(ops: seq<Op>, v: Word, regs: Regs, sem: (Op, Regs) -> Regs)
    requires KeepsWidth(sem) && Fits(LAYOUT, regs)
    requires |ops| > 0 && ops[|ops| - 1] == SetPc(v)
    ensures RunOps(ops, regs, sem, LAYOUT)[REG_PC] == v
  {
    var n := |ops|;
    assert ops == ops[..n - 1] + [SetPc(v)];
    RunOpsAppend(ops[..n - 1], [SetPc(v)], regs, sem, LAYOUT);
  }

  /** The last operation of a block copies PNEXT_PC to PC. */
  lemma LastCopiesPnext(ops: seq<Op>, regs: Regs, sem: (Op, Regs) -> Regs)
    requires KeepsWidth(sem) && Fits(LAYOUT, regs)
    requires |ops| > 0 && ops[|ops| - 1] == CopyPnextToPc
    ensures var after := RunOps(ops, regs, sem, LAYOUT); after[REG_PC] == after[REG_PNEXT_PC]
  {
    var n := |ops|;
    assert ops == ops[..n - 1] + [CopyPnextToPc];
    RunOpsAppend(ops[..n - 1], [CopyPnextToPc], regs, sem, LAYOUT);
  }

  /**
   * As written, stepping a jump leaves the PC register on its delay slot,
   * whatever the jump staged as the next PC; step_exec reads the PC
   * register, so the next step decodes the delay slot again instead of
   * going to the target.
   */
  lemma StepLeavesPcInDelaySlot(cls: Classifier, start: Word, regs: Regs, sem: (Op, Regs) -> Regs)
    requires KeepsWidth(sem) && |regs| == NUM_REGS
    requires DisasInsn(cls, start, WORD).Ok? && cls(start) == Ok(Jump)
    ensures StepBlockAsWritten(cls, start).Ok?
    ensures ExecBlock(StepBlockAsWritten(cls, start).value, regs, sem, LAYOUT).regs[REG_PC] == AddrAdd(start, 4)
  {
    var d := DisasInsn(cls, start, WORD).value;
    var ops := [CopyPnextToPc] + d.ops;
    assert ops[|ops| - 1] == d.ops[|d.ops| - 1];
    assert StepBlockAsWritten(cls, start).value.ops == ops + [];
    assert ops + [] == ops;
    LastSetsPc(ops, AddrAdd(start, 4), regs, sem);
  }

  /** With the corrected step block, the PC register after a step is the next PC it returns. */
  lemma StepPcIsNext(cls: Classifier, start: Word, regs: Regs, sem: (Op, Regs) -> Regs)
    requires KeepsWidth(sem) && |regs| == NUM_REGS
    requires StepBlock(cls, start).Ok?
    ensures var ex := ExecBlock(StepBlock(cls, start).value, regs, sem, LAYOUT);
      ex.regs[REG_PC] == ex.next
  {
    var d := DisasInsn(cls, start, WORD).value;
    var bb := StepBlock(cls, start).value;
    if d.done {
      LastCopiesPnext(bb.ops, regs, sem);
    } else {
      var pc := AddrAdd(start, 4);
      assert bb.ops == ([CopyPnextToPc] + d.ops[..|d.ops| - 1]) + [SetPc(pc), StagePnext(pc)];
      SetPcThenStage([CopyPnextToPc] + d.ops[..|d.ops| - 1], pc, regs, sem, LAYOUT);
    }
  }

  /** disas(start, max_insn): whole-block mode for a negative max_insn, step mode for 1, fatal otherwise. */
  function Translation(cls: Classifier, start: Word, maxInsn: int): (r: Outcome<BasicBlock>)
    ensures maxInsn < 0 ==> r == WholeBlock(cls, start)
    ensures maxInsn == 1 ==> r == StepBlockAsWritten(cls, start)
    ensures maxInsn >= 0 && maxInsn != 1 ==> r == Fail(UnsupportedMaxInsn)
  {
    if maxInsn < 0 then WholeBlock(cls, start)
    else if maxInsn == 1 then StepBlockAsWritten(cls, start)
    else Fail(UnsupportedMaxInsn)
  }

  // ---- The engine state as a value, and the loops as functions of it ----

  /**
   * The register file, the cache (start index and end-index entries) and the
   * global instruction count, an unsigned int of 32 bits.
   */
  datatype Machine = Machine(regs: Regs, cache: map<Word, BasicBlock>, ends: seq<BasicBlock>, icount: Word)

  /** total_icount += n on the 32-bit counter: the sum wraps modulo 2^32. */
  function Count(total: Word, n: nat): (r: Word)
    ensures n < WORD ==> r == AddrAdd(total, n)
    ensures total + n < WORD ==> r == total + n
  {
    (total + n) % WORD
  }

  /** Two additions to the counter are one addition of the sum. */
  lemma CountCount(total: Word, n: nat, k: nat)
    ensures Count(Count(total, n), k) == Count(total, n + k)
  {
    var q := (total + n) / WORD;
    assert total + n == q * WORD + Count(total, n);
    assert Count(total, n) + k == (total + n + k) - q * WORD;
    ModShift(total + n + k, q);
  }

  /** Taking away a multiple of 2^32 leaves the residue as it was. */
  lemma ModShift(x: int, q: int)
    ensures (x - q * WORD) % WORD == x % WORD
  {
  }

  ghost predicate Good(sem: (Op, Regs) -> Regs, m: Machine)
  {
    KeepsWidth(sem) && |m.regs| == NUM_REGS
  }

  /** disas followed by bb_man.add, where a start address already cached is fatal. */
  function DisasSpec(cls: Classifier, m: Machine, start: Word, maxInsn: int): (r: (Outcome<BasicBlock>, Machine))
    ensures r.1.regs == m.regs && r.1.icount == m.icount
    ensures r.0.Ok? ==> r.0.value.start == start && start !in m.cache
    ensures r.0.Ok? ==> r.1.cache == m.cache[start := r.0.value] && r.1.ends == m.ends + [r.0.value]
    ensures r.0.Fail? ==> r.1 == m
  {
    match Translation(cls, start, maxInsn)
    case Fail(f) => (Fail(f), m)
    case Ok(bb) =>
      if bb.start in m.cache then (Fail(DuplicateStart), m)
      else (Ok(bb), m.(cache := m.cache[bb.start := bb], ends := m.ends + [bb]))
  }

  /** How a run ends: it never returns, so only a fault or the end of the block budget stops it. */
  datatype RunEnd = OutOfFuel(pc: Word) | Aborted(fault: Fault)

  /** What one iteration of the run loop does: stop on a fault, or go on from a new PC. */
  datatype Iteration = Stop(fault: Fault, m: Machine) | Go(m: Machine, pc: Word)

  /**
   * One iteration of run() at pc: the cached block or a fresh translation,
   * executed, its count added; the loop goes on from the PC it returns.
   * Blocks already cached stay cached, unchanged.
   */
  function RunIter(cls: Classifier, sem: (Op, Regs) -> Regs, m: Machine, pc: Word): (r: Iteration)
    requires Good(sem, m)
    ensures Good(sem, r.m)
    ensures forall a | a in m.cache :: a in r.m.cache && r.m.cache[a] == m.cache[a]
    ensures r.Stop? ==> r.m == m && pc !in m.cache
    ensures r.Go? ==> pc in r.m.cache && r.m.icount == Count(m.icount, r.m.cache[pc].icount)
  {
    var found := if pc in m.cache then (Ok(m.cache[pc]), m) else DisasSpec(cls, m, pc, -1);
    match found.0
    case Fail(f) => Stop(f, found.1)
    case Ok(bb) =>
      var ex := ExecBlock(bb, found.1.regs, sem, LAYOUT);
      Go(found.1.(regs := ex.regs, icount := Count(found.1.icount, bb.icount)), ex.next)
  }

  /** The blocks a run from pc executes, in order, each as cached when it runs. */
  ghost function Executed(cls: Classifier, sem: (Op, Regs) -> Regs, m: Machine, pc: Word, fuel: nat): seq<BasicBlock>
    requires Good(sem, m)
    decreases fuel
  {
    if fuel == 0 then []
    else
      match RunIter(cls, sem, m, pc)
      case Stop(_, _) => []
      case Go(m1, next) => [m1.cache[pc]] + Executed(cls, sem, m1, next, fuel - 1)
  }

  /** The instructions those blocks count, in unbounded arithmetic. */
  ghost function CountOf(bbs: seq<BasicBlock>): nat
  {
    if bbs == [] then 0 else bbs[0].icount + CountOf(bbs[1..])
  }

  /**
   * run() from pc with at most `fuel` iterations left. The counter ends as
   * its old value plus the counts of the blocks executed, modulo 2^32.
   */
  function RunFrom(cls: Classifier, sem: (Op, Regs) -> Regs, m: Machine, pc: Word, fuel: nat): (r: (RunEnd, Machine))
    requires Good(sem, m)
    ensures Good(sem, r.1)
    ensures r.1.icount == Count(m.icount, CountOf(Executed(cls, sem, m, pc, fuel)))
    decreases fuel
  {
    if fuel == 0 then (OutOfFuel(pc), m)
    else
      match RunIter(cls, sem, m, pc)
      case Stop(f, m1) => (Aborted(f), m1)
      case Go(m1, next) =>
        var r := RunFrom(cls, sem, m1, next, fuel - 1);
        CountsStep(m.icount, m1, pc, r.1.icount, Executed(cls, sem, m1, next, fuel - 1), Executed(cls, sem, m, pc, fuel));
        r
  }

  /** Counting the block at pc, then the rest of the run, is counting the run. */
  lemma CountsStep(x0: Word, m1: Machine, pc: Word, x2: Word, rest: seq<BasicBlock>, all: seq<BasicBlock>)
    requires pc in m1.cache && m1.icount == Count(x0, m1.cache[pc].icount)
    requires x2 == Count(m1.icount, CountOf(rest)) && all == [m1.cache[pc]] + rest
    ensures x2 == Count(x0, CountOf(all))
  {
    assert all[1..] == rest;
    CountCount(x0, m1.cache[pc].icount, CountOf(rest));
  }


  /**
   * A run only adds to the cache: every block cached before is still
   * cached, unchanged.
   */
  lemma {:induction false} RunKeepsCache(cls: Classifier, sem: (Op, Regs) -> Regs, m: Machine, pc: Word, fuel: nat)
    requires Good(sem, m)
    ensures var r := RunFrom(cls, sem, m, pc, fuel).1;
      forall a | a in m.cache :: a in r.cache && r.cache[a] == m.cache[a]
    decreases fuel
  {
    if fuel > 0 {
      match RunIter(cls, sem, m, pc)
      case Stop(_, _) =>
      case Go(m1, next) =>
        RunKeepsCache(cls, sem, m1, next, fuel - 1);
        assert RunFrom(cls, sem, m, pc, fuel) == RunFrom(cls, sem, m1, next, fuel - 1);
    }
  }

  /**
   * step_exec(): from the PC register, empty the cache, translate one
   * instruction, execute it and add its count. Nothing is reported back.
   */
  function StepSpec(cls: Classifier, sem: (Op, Regs) -> Regs, m: Machine): (r: (Outcome<()>, Machine))
    requires Good(sem, m)
    ensures Good(sem, r.1)
  {
    var d := DisasSpec(cls, m.(cache := map[], ends := []), m.regs[REG_PC], 1);
    match d.0
    case Fail(f) => (Fail(f), d.1)
    case Ok(bb) =>
      var ex := ExecBlock(bb, d.1.regs, sem, LAYOUT);
      (Ok(()), d.1.(regs := ex.regs, icount := Count(d.1.icount, bb.icount)))
  }

  /**
   * A step leaves exactly its own block in the cache and adds one more than
   * the number of instructions it decoded to the 32-bit count; after a jump the
   * PC register is left on the delay slot.
   */
  lemma StepCachesOneBlock(cls: Classifier, sem: (Op, Regs) -> Regs, m: Machine)
    requires Good(sem, m)
    requires StepSpec(cls, sem, m).0.Ok?
    ensures var pc := m.regs[REG_PC];
      var r := StepSpec(cls, sem, m).1;
      && DisasInsn(cls, pc, WORD).Ok?
      && r.cache.Keys == {pc} && |r.ends| == 1 && r.ends[0] == r.cache[pc]
      && r.icount == AddrAdd(m.icount, DisasInsn(cls, pc, WORD).value.depth + 1)
      && (cls(pc) == Ok(Jump) ==> r.regs[REG_PC] == AddrAdd(pc, 4))
  {
    var pc := m.regs[REG_PC];
    if cls(pc) == Ok(Jump) {
      StepLeavesPcInDelaySlot(cls, pc, m.regs, sem);
    }
  }

  // ---- The registers as the debugger sees them ----

  /** get_reg_value: the 32 general registers, then PNEXT_PC in slot 32. */
  function RegView(regs: Regs): (v: seq<Word>)
    requires |regs| == NUM_REGS
    ensures |v| == 33
    ensures forall i | 0 <= i < 32 :: v[i] == regs[i]
    ensures v[32] == regs[REG_PNEXT_PC]
  {
    regs[..32] + [regs[REG_PNEXT_PC]]
  }

  /** set_reg_value: the slot must be below 33; the value is cut to 32 bits; slot 32 is PC. */
  function SetSlot(regs: Regs, idx: nat, val: nat): (r: Regs)
    requires |regs| == NUM_REGS && idx < 33
    ensures |r| == NUM_REGS
  {
    regs[idx := val % WORD]
  }

  /**
   * Slots 0..31 read back what was written (cut to 32 bits); slot 32 does
   * not: the write goes to PC and the read comes from PNEXT_PC.
   */
  lemma SlotRoundTrip(regs: Regs, idx: nat, val: nat)
    requires |regs| == NUM_REGS && idx < 33
    ensures idx < 32 ==> RegView(SetSlot(regs, idx, val))[idx] == val % WORD
    ensures idx == 32 ==> RegView(SetSlot(regs, idx, val))[32] == regs[REG_PNEXT_PC]
    ensures idx == 32 ==> SetSlot(regs, idx, val)[REG_PC] == val % WORD
  {
  }

  function InitialReg(i: int): Word
  {
    if i == REG_PC || i == REG_PNEXT_PC then RESET_PC else 0
  }

  /** The constructor's register file: PC and PNEXT_PC at 0x100, every other register 0. */
  function InitialRegs(): (r: Regs)
    ensures |r| == NUM_REGS
    ensures r[REG_PC] == RESET_PC && r[REG_PNEXT_PC] == RESET_PC
    ensures forall i | 0 <= i < |r| && i != REG_PC && i != REG_PNEXT_PC :: r[i] == 0
  {
    seq(NUM_REGS, i => InitialReg(i))
  }

  /** The qcpu virtual machine: its cache, register file and the global instruction count. */
  class Vm {
    const cls: Classifier
    const sem: (Op, Regs) -> Regs
    /** bb_man, the local block cache class with the same add / invalidate rules. */
    const bbMan: BlockManager
    var regs: Regs
    /** The global total_icount. */
    var totalIcount: Word

    ghost predicate Valid()
      reads this, bbMan
    {
      bbMan.Valid() && Good(sem, State())
    }

    function State(): Machine
      reads this, bbMan
    {
      Machine(regs, bbMan.byStart, bbMan.byEnd, totalIcount)
    }

    /** The constructor: PC and PNEXT_PC at 0x100, every other register 0, an empty cache. */
    constructor (cls: Classifier, sem: (Op, Regs) -> Regs)
      requires KeepsWidth(sem)
      ensures Valid() && this.cls == cls && this.sem == sem
      ensures State() == Machine(InitialRegs(), map[], [], 0)
      ensures fresh(bbMan)
    {
      this.cls := cls;
      this.sem := sem;
      bbMan := new BlockManager();
      regs := InitialRegs();
      totalIcount := 0;
    }

    /** disas(start, max_insn): translate and add the block to the cache. */
    method Disas(start: Word, maxInsn: int) returns (r: Outcome<BasicBlock>)
      requires Valid()
      modifies bbMan
      ensures Valid()
      ensures (r, State()) == DisasSpec(cls, old(State()), start, maxInsn)
    {
      var t := Translation(cls, start, maxInsn);
      if t.Fail? {
        return t;
      }
      var ok := bbMan.Add(t.value);
      if !ok {
        return Fail(DuplicateStart);
      }
      r := t;
    }

    /** One iteration of run(): find or translate the block, execute it, count it. */
    method Iterate(pc: Word) returns (r: Iteration)
      requires Valid()
      modifies this, bbMan
      ensures Valid()
      ensures r == RunIter(cls, sem, old(State()), pc) && State() == r.m
    {
      var t: Outcome<BasicBlock>;
      if bbMan.ExistsByStartAddr(pc) {
        t := Ok(bbMan.FindByStartAddr(pc));
      } else {
        t := Disas(pc, -1);
      }
      if t.Fail? {
        return Stop(t.fault, State());
      }
      var ex := ExecBlock(t.value, regs, sem, LAYOUT);
      regs := ex.regs;
      totalIcount := Count(totalIcount, t.value.icount);
      r := Go(State(), ex.next);
    }

    /**
     * run(): from 0x100 whatever the PC register holds, with at most `fuel`
     * iterations standing in for a loop that never returns.
     */
    method Run(fuel: nat) returns (r: RunEnd)
      requires Valid()
      modifies this, bbMan
      ensures Valid()
      ensures (r, State()) == RunFrom(cls, sem, old(State()), RESET_PC, fuel)
    {
      var pc: Word := RESET_PC;
      var n := fuel;
      while true
        invariant Valid()
        invariant RunFrom(cls, sem, State(), pc, n) == RunFrom(cls, sem, old(State()), RESET_PC, fuel)
        decreases n
      {
        if n == 0 {
          return OutOfFuel(pc);
        }
        var it := Iterate(pc);
        if it.Stop? {
          return Aborted(it.fault);
        }
        pc := it.pc;
        n := n - 1;
      }
    }

    /** step_exec(). */
    method StepExec() returns (r: Outcome<()>)
      requires Valid()
      modifies this, bbMan
      ensures Valid()
      ensures (r, State()) == StepSpec(cls, sem, old(State()))
    {
      var pc: Word := regs[REG_PC];
      bbMan.Invalidate(pc, AddrAdd(pc, 4));
      // The cache was just emptied, so the lookup always misses.
      var t := Disas(pc, 1);
      if t.Fail? {
        return Fail(t.fault);
      }
      var ex := ExecBlock(t.value, regs, sem, LAYOUT);
      regs := ex.regs;
      totalIcount := Count(totalIcount, t.value.icount);
      r := Ok(());
    }

    /** run_continue(is_step): one step, or a run. */
    method RunContinue(isStep: bool, fuel: nat) returns (r: Outcome<()>)
      requires Valid()
      modifies this, bbMan
      ensures Valid()
      ensures isStep ==> (r, State()) == StepSpec(cls, sem, old(State()))
      ensures !isStep ==> var run := RunFrom(cls, sem, old(State()), RESET_PC, fuel);
        State() == run.1 && (r.Fail? <==> run.0.Aborted?)
    {
      if isStep {
        r := StepExec();
      } else {
        var e := Run(fuel);
        r := if e.Aborted? then Fail(e.fault) else Ok(());
      }
    }

    /** set_unset_break_point: breakpoints are not supported, so every call is fatal and changes nothing. */
    method SetUnsetBreakPoint(isSet: bool, bid: nat, addr: nat) returns (r: Outcome<()>)
      ensures r == Fail(Unimplemented)
    {
      r := Fail(Unimplemented);
    }

    /** get_reg_value: the loop over the 32 general registers, then PNEXT_PC. */
    method GetRegValue() returns (v: seq<Word>)
      requires Valid()
      ensures v == RegView(regs)
    {
      v := [];
      var i := 0;
      while i < 32
        invariant 0 <= i <= 32
        invariant v == regs[..i]
      {
        v := v + [regs[i]];
        i := i + 1;
      }
      v := v + [regs[REG_PNEXT_PC]];
    }

    /** set_reg_value: a slot at or past 33 fails the assertion (ok false). */
    method SetRegValue(idx: nat, val: nat) returns (ok: bool)
      requires Valid()
      modifies this
      ensures Valid()
      ensures ok == (idx < 33)
      ensures ok ==> regs == SetSlot(old(regs), idx, val)
      ensures !ok ==> regs == old(regs)
      ensures totalIcount == old(totalIcount)
    {
      ok := idx < 33;
      if ok {
        regs := SetSlot(regs, idx, val);
      }
    }
  }
}
