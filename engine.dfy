/**
 * The execution engine of the jcpu targets (jcpu_vm_base and its OpenRISC,
 * RISC-V, ARM and Cortex-M0 subclasses): the translation cache and the
 * breakpoint set, the run loop that looks up or translates a block, runs it
 * and adds its count, the single-instruction step, the breakpoint and
 * interrupt entry points, and the register view offered to the debugger.
 *
 * The four targets share one class; where their loops differ (the order of
 * the breakpoint test, the interrupt injection of OpenRISC, the register
 * numbering) the code branches on the target. A compiled block is run by
 * the reference interpreter of VmBase.
 */
module Engine {
  import opened VmBase
  import opened BlockStore
  import opened BreakpointStore
  import Translate

  datatype Target = OpenRiscVm | RiscVVm | ArmVm | CortexM0Vm

  /** REG_PC of each target's reg_e. */
  function PcReg(t: Target): nat
  {
    match t
    case OpenRiscVm => 32
    case RiscVVm => 32
    case ArmVm => 15
    case CortexM0Vm => 15
  }

  /** REG_PNEXT_PC of each target's reg_e: where a block stages the next PC. */
  function PnextReg(t: Target): nat
  {
    match t
    case OpenRiscVm => 36
    case RiscVVm => 33
    case ArmVm => 18
    case CortexM0Vm => 16
  }

  /** NUM_REGS of each target's reg_e. */
  function NumRegs(t: Target): (n: nat)
    ensures PcReg(t) < n && PnextReg(t) < n
  {
    match t
    case OpenRiscVm => 37
    case RiscVVm => 34
    case ArmVm => 19
    case CortexM0Vm => 17
  }

  function Lay(t: Target): Layout
  {
    Layout(PcReg(t), PnextReg(t))
  }

  // The OpenRISC special registers the interrupt entry touches.
  const OR_REG_SR: nat := 33
  const OR_REG_EPCR0: nat := 35
  /** The OpenRISC exception vector of an external interrupt. */
  const OR_IRQ_VECTOR: Word := 0x800

  /** How the target's disas finishes a block. */
  function FinishOf(t: Target): Translate.Finish
  {
    if t.ArmVm? then Translate.ArmStyle else Translate.Checked
  }

  /** The value the constructor gives PC and PNEXT_PC. */
  function ResetPc(t: Target): Word
  {
    match t
    case OpenRiscVm => 0x100
    case RiscVVm => 0x1_0000
    case ArmVm => 0
    case CortexM0Vm => 0
  }

  function InitialReg(t: Target, i: int): Word
  {
    if i == PcReg(t) || i == PnextReg(t) then ResetPc(t) else 0
  }

  /** The register file the constructor builds: PC and PNEXT_PC at the reset address, the rest 0. */
  function InitialRegs(t: Target): (r: Regs)
    ensures |r| == NumRegs(t)
    ensures r[PcReg(t)] == ResetPc(t) && r[PnextReg(t)] == ResetPc(t)
    ensures forall i | 0 <= i < |r| && i != PcReg(t) && i != PnextReg(t) :: r[i] == 0
  {
    seq(NumRegs(t), i => InitialReg(t, i))
  }

  /** Whether step_exec tests for a breakpoint at the PC before translating (RISC-V, Cortex-M0). */
  predicate StepChecksFirst(t: Target)
  {
    t.RiscVVm? || t.CortexM0Vm?
  }

  // ---- The engine state as a value, and the loops as functions of it ----

  /**
   * Everything run and step_exec read or write: the register file, the
   * cache (start index and end-index entries), the breakpoints, the count
   * of executed instructions and the pending interrupt.
   */
  datatype Machine = Machine(
    regs: Regs,
    cache: map<Word, BasicBlock>,
    ends: seq<BasicBlock>,
    bps: seq<Word>,
    icount: nat,
    irq: bool)

  /** What stays fixed for the life of a VM: the target, its decoder and the meaning of generated code. */
  datatype Env = Env(target: Target, dec: Translate.Decoder, sem: (Op, Regs) -> Regs)

  ghost predicate Good(env: Env, m: Machine)
  {
    KeepsWidth(env.sem) && |m.regs| == NumRegs(env.target) && Increasing(m.bps)
  }

  /**
   * disas followed by bb_man.add: the translated block is filed under its
   * start address, and a start address already cached is fatal.
   */
  function DisasSpec(env: Env, m: Machine, start: Word, maxInsn: int, bp: Option<Word>): (r: (Outcome<BasicBlock>, Machine))
    ensures r.1.regs == m.regs && r.1.bps == m.bps && r.1.icount == m.icount && r.1.irq == m.irq
    ensures r.0.Ok? ==> r.0.value.start == start && start !in m.cache
    ensures r.0.Ok? ==> r.1.cache == m.cache[start := r.0.value] && r.1.ends == m.ends + [r.0.value]
    ensures r.0.Fail? ==> r.1 == m
    ensures r.0.Fail? && start !in m.cache ==> Translate.Disas(env.dec, start, maxInsn, bp, FinishOf(env.target)).Fail?
  {
    match Translate.Disas(env.dec, start, maxInsn, bp, FinishOf(env.target))
    case Fail(f) => (Fail(f), m)
    case Ok(bb) =>
      if bb.start in m.cache then (Fail(DuplicateStart), m)
      else (Ok(bb), m.(cache := m.cache[bb.start := bb], ends := m.ends + [bb]))
  }

  /** The block run executes at pc: the cached one, or a fresh whole-block translation. */
  function Lookup(env: Env, m: Machine, pc: Word, nearest: Option<Word>): (r: (Outcome<BasicBlock>, Machine))
  {
    if pc in m.cache then (Ok(m.cache[pc]), m)
    else DisasSpec(env, m, pc, -1, nearest)
  }

  /** An OpenRISC external interrupt is taken while SR[IEE] (bit 2) is clear. */
  predicate IeeClear(sr: Word)
  {
    (sr / 4) % 2 == 0
  }

  /**
   * The interrupt entry of the OpenRISC run loop: EPCR0 := PNEXT_PC,
   * PNEXT_PC := 0x800 and SR |= IEE; every other register keeps its value.
   */
  function IrqEntry(regs: Regs): (r: Regs)
    requires |regs| == NumRegs(OpenRiscVm) && IeeClear(regs[OR_REG_SR])
    ensures |r| == |regs|
    ensures r[OR_REG_EPCR0] == regs[PnextReg(OpenRiscVm)]
    ensures r[PnextReg(OpenRiscVm)] == OR_IRQ_VECTOR
    ensures !IeeClear(r[OR_REG_SR]) && r[OR_REG_SR] - 4 == regs[OR_REG_SR]
    ensures forall i | 0 <= i < |r| && i != OR_REG_EPCR0 && i != PnextReg(OpenRiscVm) && i != OR_REG_SR :: r[i] == regs[i]
  {
    var sr := regs[OR_REG_SR];
    SetIeeFits(sr);
    regs[OR_REG_EPCR0 := regs[PnextReg(OpenRiscVm)]][PnextReg(OpenRiscVm) := OR_IRQ_VECTOR][OR_REG_SR := sr + 4]
  }

  /** Setting a clear bit 2 of a 32-bit word stays within 32 bits and sets the bit. */
  lemma SetIeeFits(sr: Word)
    requires IeeClear(sr)
    ensures sr + 4 < WORD && !IeeClear(sr + 4)
  {
    var q := sr / 8;
    assert sr == 8 * q + sr % 8;
    assert sr % 8 < 4;
    assert 8 * q < WORD;
    assert q < WORD / 8;
    assert (sr + 4) / 4 == 2 * q + 1;
  }

  /**
   * The part of a run iteration after the block is found: execute it, add
   * its count, and on OpenRISC take a pending interrupt when SR[IEE] is
   * clear. The result is the new state and the loop's next PC.
   */
  function Advance(env: Env, m: Machine, bb: BasicBlock): (r: (Machine, Word))
    requires Good(env, m)
    ensures Good(env, r.0)
    ensures r.0.cache == m.cache && r.0.ends == m.ends && r.0.bps == m.bps && r.0.irq == m.irq
    ensures r.0.icount == m.icount + bb.icount
  {
    var ex := ExecBlock(bb, m.regs, env.sem, Lay(env.target));
    var m2 := m.(regs := ex.regs, icount := m.icount + bb.icount);
    if env.target.OpenRiscVm? && m.irq && IeeClear(ex.regs[OR_REG_SR]) then
      (m2.(regs := IrqEntry(ex.regs)), OR_IRQ_VECTOR)
    else (m2, ex.next)
  }

  /** How a run ends: at a breakpoint, with the block budget spent, or on a fault. */
  datatype RunEnd = Broke(at: Word) | OutOfFuel(pc: Word) | Aborted(fault: Fault)

  /** What run() hands back to its caller: BREAK, the fault, or nothing yet. */
  function Reported(e: RunEnd): (r: Option<Outcome<RunState>>)
    ensures r.None? <==> e.OutOfFuel?
    ensures e.Broke? ==> r == Some(Ok(Break))
    ensures e.Aborted? ==> r == Some(Fail(e.fault))
  {
    match e
    case Broke(_) => Some(Ok(Break))
    case OutOfFuel(_) => None
    case Aborted(f) => Some(Fail(f))
  }

  /** What one iteration of the run loop does: stop with a result, or go on from a new PC. */
  datatype Iteration = Stop(end: RunEnd, m: Machine) | Go(m: Machine, pc: Word)

  /**
   * One iteration of run() at pc. It finds the nearest breakpoint at or
   * after pc; a breakpoint exactly at pc stops the loop with BREAK, tested
   * before the block is found except on ARM, which looks up or translates
   * the block first. Otherwise the block is executed and the loop goes on
   * from the PC it returns.
   */
  function RunIter(env: Env, m: Machine, pc: Word): (r: Iteration)
    requires Good(env, m)
    ensures Good(env, r.m)
    ensures r.m.bps == m.bps && r.m.irq == m.irq && r.m.icount >= m.icount
    ensures r.Stop? ==> !r.end.OutOfFuel?
    ensures r.Stop? && r.end.Broke? ==> r.end.at == pc && pc in m.bps
    ensures r.Go? ==> pc !in m.bps
  {
    var nearest := LowerBound(m.bps, pc);
    LowerBoundHit(m.bps, pc);
    if nearest == Some(pc) && !env.target.ArmVm? then Stop(Broke(pc), m)
    else
      var found := Lookup(env, m, pc, nearest);
      if found.0.Fail? then Stop(Aborted(found.0.fault), found.1)
      else if nearest == Some(pc) then Stop(Broke(pc), found.1)
      else
        var next := Advance(env, found.1, found.0.value);
        Go(next.0, next.1)
  }

  /** run() from pc with at most `fuel` iterations left. */
  function RunFrom(env: Env, m: Machine, pc: Word, fuel: nat): (r: (RunEnd, Machine))
    requires Good(env, m)
    ensures Good(env, r.1)
    decreases fuel
  {
    if fuel == 0 then (OutOfFuel(pc), m)
    else
      match RunIter(env, m, pc)
      case Stop(e, m1) => (e, m1)
      case Go(m1, next) => RunFrom(env, m1, next, fuel - 1)
  }

  /**
   * step_exec from the PC register: RISC-V and Cortex-M0 stop with BREAK
   * at a breakpoint on the PC without running anything; otherwise the cache
   * is emptied, one instruction is translated and executed and its count
   * added. OpenRISC then asserts that no interrupt is pending; OpenRISC and
   * ARM report BREAK when the nearest breakpoint at or after the old PC is
   * the new PC, the other two always report NORMAL.
   */
  function StepSpec(env: Env, m: Machine): (r: (Outcome<RunState>, Machine))
    requires Good(env, m)
    ensures Good(env, r.1)
  {
    var pc := m.regs[PcReg(env.target)];
    var nearest := LowerBound(m.bps, pc);
    if StepChecksFirst(env.target) && nearest == Some(pc) then (Ok(Break), m)
    else
      var d := DisasSpec(env, m.(cache := map[], ends := []), pc, 1, nearest);
      if d.0.Fail? then (Fail(d.0.fault), d.1)
      else StepFinish(env, d.1, d.0.value, nearest)
  }

  /** The end of step_exec once the one-instruction block is translated and cached. */
  function StepFinish(env: Env, m: Machine, bb: BasicBlock, nearest: Option<Word>): (r: (Outcome<RunState>, Machine))
    requires Good(env, m)
    ensures Good(env, r.1)
  {
    var ex := ExecBlock(bb, m.regs, env.sem, Lay(env.target));
    var m2 := m.(regs := ex.regs, icount := m.icount + bb.icount);
    if env.target.OpenRiscVm? && m.irq then (Fail(IrqPending), m2)
    else if StepChecksFirst(env.target) then (Ok(Normal), m2)
    else (Ok(if nearest == Some(ex.next) then Break else Normal), m2)
  }

  // ---- What run and step_exec promise ----

  /**
   * A run stops with BREAK only at a breakpoint, never changes the
   * breakpoints or the pending interrupt, and never lowers the count.
   */
  lemma {:induction false} RunBreaksAtBreakpoint(env: Env, m: Machine, pc: Word, fuel: nat)
    requires Good(env, m)
    ensures var r := RunFrom(env, m, pc, fuel);
      && (r.0.Broke? ==> r.0.at in m.bps)
      && r.1.bps == m.bps && r.1.irq == m.irq && r.1.icount >= m.icount
    decreases fuel
  {
    if fuel > 0 && RunIter(env, m, pc).Go? {
      var it := RunIter(env, m, pc);
      RunBreaksAtBreakpoint(env, it.m, it.pc, fuel - 1);
    }
  }

  /**
   * OpenRISC, RISC-V and Cortex-M0 stop at a breakpoint on the PC before
   * anything else: the state is left exactly as it was.
   */
  lemma RunStopsBeforeBreakpoint(env: Env, m: Machine, pc: Word, fuel: nat)
    requires Good(env, m) && !env.target.ArmVm?
    requires pc in m.bps && fuel > 0
    ensures RunFrom(env, m, pc, fuel) == (Broke(pc), m)
  {
    LowerBoundHit(m.bps, pc);
  }

  /**
   * ARM looks the block up before testing the breakpoint: at an uncached
   * breakpoint address it translates a block cut at its own start, with no
   * instruction in it, and caches it before stopping.
   */
  lemma ArmBreakCachesEmptyBlock(env: Env, m: Machine, pc: Word, fuel: nat)
    requires Good(env, m) && env.target.ArmVm?
    requires pc in m.bps && pc !in m.cache && fuel > 0
    ensures var e := Translate.EmptyBlock(pc);
      RunFrom(env, m, pc, fuel) == (Broke(pc), m.(cache := m.cache[pc := e], ends := m.ends + [e]))
  {
    LowerBoundHit(m.bps, pc);
    Translate.BreakAtStartIsEmpty(env.dec, pc);
  }

  /**
   * Once that empty block is cached and the breakpoint removed (removing a
   * breakpoint leaves the cache alone), an ARM run executes it again and
   * again: the next PC is always pc itself and no instruction is counted.
   */
  lemma {:induction false} ArmEmptyBlockSpins(env: Env, m: Machine, pc: Word, fuel: nat)
    requires Good(env, m) && env.target.ArmVm?
    requires pc !in m.bps && pc in m.cache && m.cache[pc] == Translate.EmptyBlock(pc)
    ensures var r := RunFrom(env, m, pc, fuel);
      r.0 == OutOfFuel(pc) && r.1.icount == m.icount && r.1.cache == m.cache
    decreases fuel
  {
    if fuel > 0 {
      LowerBoundHit(m.bps, pc);
      var e := Translate.EmptyBlock(pc);
      var lay := Lay(env.target);
      assert e.ops == [CopyPnextToPc] + [StagePnext(pc)];
      RunOpsAppend([CopyPnextToPc], [StagePnext(pc)], m.regs, env.sem, lay);
      var it := RunIter(env, m, pc);
      assert it == Go(m.(regs := ExecBlock(e, m.regs, env.sem, lay).regs), pc);
      ArmEmptyBlockSpins(env, it.m, pc, fuel - 1);
    }
  }

  /** Cortex-M0's disas_insn is a stub that always aborts. */
  function CortexM0Decode(pc: Word): (r: Outcome<Decoded>)
    ensures r.Fail?
  {
    Fail(Unimplemented)
  }

  /** So on Cortex-M0 a run that reaches an uncached block, and every step that runs, aborts. */
  lemma CortexM0Aborts(env: Env, m: Machine, pc: Word, fuel: nat)
    requires Good(env, m) && env.target.CortexM0Vm? && env.dec == CortexM0Decode
    requires pc !in m.bps && pc !in m.cache && fuel > 0
    ensures RunFrom(env, m, pc, fuel) == (Aborted(Unimplemented), m)
    ensures m.regs[PcReg(env.target)] !in m.bps ==> StepSpec(env, m).0 == Fail(Unimplemented)
  {
    LowerBoundHit(m.bps, pc);
    LowerBoundHit(m.bps, m.regs[PcReg(env.target)]);
  }

  /** RISC-V and Cortex-M0 step nothing at a breakpoint on the PC. */
  lemma StepStopsBeforeBreakpoint(env: Env, m: Machine)
    requires Good(env, m) && StepChecksFirst(env.target)
    requires m.regs[PcReg(env.target)] in m.bps
    ensures StepSpec(env, m) == (Ok(Break), m)
  {
    LowerBoundHit(m.bps, m.regs[PcReg(env.target)]);
  }

  /**
   * Every step that translates leaves exactly one block in the cache, the
   * one at the old PC, and adds that block's count, which is the decode
   * count of the instruction there.
   */
  lemma StepCachesOneBlock(env: Env, m: Machine)
    requires Good(env, m)
    requires !(StepChecksFirst(env.target) && m.regs[PcReg(env.target)] in m.bps)
    requires StepSpec(env, m).0.Ok?
    ensures var pc := m.regs[PcReg(env.target)];
      var r := StepSpec(env, m).1;
      && env.dec(pc).Ok?
      && r.cache.Keys == {pc} && r.ends == [r.cache[pc]]
      && r.icount == m.icount + env.dec(pc).value.depth
      && r.bps == m.bps && r.irq == m.irq
  {
    LowerBoundHit(m.bps, m.regs[PcReg(env.target)]);
  }

  /**
   * On OpenRISC and ARM a step reports BREAK exactly when the PC it staged
   * is the nearest breakpoint at or after the old PC.
   */
  lemma StepBreakIsNearest(env: Env, m: Machine)
    requires Good(env, m) && !StepChecksFirst(env.target)
    requires StepSpec(env, m).0.Ok?
    ensures var r := StepSpec(env, m);
      r.0.value.Break? <==> LowerBound(m.bps, m.regs[PcReg(env.target)]) == Some(r.1.regs[PnextReg(env.target)])
  {
  }

  /**
   * Stepping an instruction that does not end a block moves PC and
   * PNEXT_PC to the next word (OpenRISC, RISC-V, Cortex-M0; OpenRISC only
   * with no interrupt pending, which it asserts).
   */
  lemma StepPlainAdvances(env: Env, m: Machine)
    requires Good(env, m) && !env.target.ArmVm?
    requires !(env.target.OpenRiscVm? && m.irq)
    requires m.regs[PcReg(env.target)] !in m.bps || !StepChecksFirst(env.target)
    requires env.dec(m.regs[PcReg(env.target)]).Ok? && !env.dec(m.regs[PcReg(env.target)]).value.done
    ensures var pc := m.regs[PcReg(env.target)];
      var r := StepSpec(env, m);
      && r.0.Ok?
      && r.1.regs[PcReg(env.target)] == AddrAdd(pc, 4)
      && r.1.regs[PnextReg(env.target)] == AddrAdd(pc, 4)
  {
    var t := env.target;
    var pc := m.regs[PcReg(t)];
    var nearest := LowerBound(m.bps, pc);
    LowerBoundHit(m.bps, pc);
    var d := env.dec(pc).value;
    var next := AddrAdd(pc, 4);
    var head := [CopyPnextToPc] + d.ops;
    var bb := BasicBlock(pc, pc, d.depth, head + [SetPc(next), StagePnext(next)]);
    Translate.StepBlockPlain(env.dec, pc);
    var m0 := m.(cache := map[], ends := []);
    assert Translate.Disas(env.dec, pc, 1, nearest, FinishOf(t)) == Ok(bb);
    assert m0.ends + [bb] == [bb];
    assert DisasSpec(env, m0, pc, 1, nearest) == (Ok(bb), m0.(cache := map[pc := bb], ends := [bb]));
    SetPcThenStage(head, next, m.regs, env.sem, Lay(t));
  }

  // ---- The register view of the debugger ----

  /** The number of slots set_reg_value accepts (the index is asserted below it). */
  function SlotLimit(t: Target): nat
  {
    match t
    case OpenRiscVm => 33
    case RiscVVm => 33
    case ArmVm => 19
    case CortexM0Vm => 17
  }

  /**
   * get_reg_value: OpenRISC reports the 32 general registers and PNEXT_PC,
   * RISC-V the 32 general registers and PC, ARM its whole register file,
   * and Cortex-M0 R0..R15 followed by PC once more.
   */
  function RegView(t: Target, regs: Regs): (v: seq<Word>)
    requires |regs| == NumRegs(t)
    ensures |v| == SlotLimit(t)
    ensures forall i | 0 <= i < |v| - 1 :: v[i] == regs[i]
    ensures t.ArmVm? ==> v == regs
    ensures v[|v| - 1] == regs[if t.OpenRiscVm? then PnextReg(t) else if t.ArmVm? then NumRegs(t) - 1 else PcReg(t)]
  {
    match t
    case OpenRiscVm => regs[..32] + [regs[PnextReg(t)]]
    case RiscVVm => regs[..32] + [regs[PcReg(t)]]
    case ArmVm => regs
    case CortexM0Vm => regs[..16] + [regs[PcReg(t)]]
  }

  /** set_reg_value(idx, val) once the index check passed: register idx takes val truncated to 32 bits. */
  function SetSlot(t: Target, regs: Regs, idx: nat, val: nat): (r: Regs)
    requires |regs| == NumRegs(t) && idx < SlotLimit(t)
    ensures |r| == |regs| && r[idx] == val % WORD
    ensures forall j | 0 <= j < |r| && j != idx :: r[j] == regs[j]
  {
    regs[idx := val % WORD]
  }

  /**
   * Writing a debugger slot and reading it back gives the written value on
   * every slot except the last one of OpenRISC (written to PC, read from
   * PNEXT_PC) and of Cortex-M0 (written to PNEXT_PC, read from PC), which
   * keep reporting what they reported before.
   */
  lemma RegSlotRoundTrip(t: Target, regs: Regs, idx: nat, val: nat)
    requires |regs| == NumRegs(t) && idx < SlotLimit(t)
    ensures var last := idx == SlotLimit(t) - 1 && (t.OpenRiscVm? || t.CortexM0Vm?);
      RegView(t, SetSlot(t, regs, idx, val))[idx] == if last then RegView(t, regs)[idx] else val % WORD
  {
    var after := SetSlot(t, regs, idx, val);
    if idx == SlotLimit(t) - 1 {
      assert RegView(t, after)[idx] == after[if t.OpenRiscVm? then PnextReg(t) else if t.ArmVm? then NumRegs(t) - 1 else PcReg(t)];
    }
  }

  // ---- The VM object ----

  class Vm {
    const target: Target
    const dec: Translate.Decoder
    const sem: (Op, Regs) -> Regs
    /** bb_man */
    const bbMan: BlockManager
    /** bp_man */
    const bpMan: BreakpointManager
    /** The register file the generated code and get_reg/set_reg work on. */
    var regs: Regs
    var totalIcount: nat
    var irqStatus: bool

    ghost predicate Valid()
      reads this, bbMan, bpMan
    {
      bbMan.Valid() && bpMan.Valid() && Good(Setup(), State())
    }

    function Setup(): Env
      reads this
    {
      Env(target, dec, sem)
    }

    function State(): Machine
      reads this, bbMan, bpMan
    {
      Machine(regs, bbMan.byStart, bbMan.byEnd, bpMan.bps, totalIcount, irqStatus)
    }

    /**
     * The constructor with the reset that the front end applies before the
     * first run: initial registers, empty cache and breakpoints, no count,
     * no pending interrupt.
     */
    constructor (target: Target, dec: Translate.Decoder, sem: (Op, Regs) -> Regs)
      requires KeepsWidth(sem)
      ensures Valid() && Setup() == Env(target, dec, sem)
      ensures State() == Machine(InitialRegs(target), map[], [], [], 0, false)
      ensures fresh(bbMan) && fresh(bpMan)
    {
      this.target := target;
      this.dec := dec;
      this.sem := sem;
      bbMan := new BlockManager();
      bpMan := new BreakpointManager();
      regs := InitialRegs(target);
      totalIcount := 0;
      irqStatus := false;
    }

    /** disas(start, max_insn, bp): translate and add the block to the cache. */
    method Disas(start: Word, maxInsn: int, bp: Option<Word>) returns (r: Outcome<BasicBlock>)
      requires Valid()
      modifies bbMan
      ensures Valid()
      ensures (r, State()) == DisasSpec(Setup(), old(State()), start, maxInsn, bp)
    {
      var fin := FinishOf(target);
      var t: Outcome<BasicBlock>;
      if maxInsn < 0 {
        var scan := Translate.ScanLoop(dec, start, bp);
        t := Translate.FinishWhole(start, scan, fin);
      } else if maxInsn == 1 {
        t := Translate.StepBlock(dec, start, fin);
      } else {
        t := Fail(UnsupportedMaxInsn);
      }
      if t.Fail? {
        return t;
      }
      var ok := bbMan.Add(t.value);
      if !ok {
        return Fail(DuplicateStart);
      }
      r := t;
    }

    /**
     * The block lookup of the run loop:
     * `exists_by_start_addr(pc) ? find_by_start_addr(pc) : disas(pc, -1, nearest)`.
     */
    method FindBlock(pc: Word, nearest: Option<Word>) returns (r: Outcome<BasicBlock>)
      requires Valid()
      modifies bbMan
      ensures Valid()
      ensures (r, State()) == Lookup(Setup(), old(State()), pc, nearest)
    {
      if bbMan.ExistsByStartAddr(pc) {
        r := Ok(bbMan.FindByStartAddr(pc));
      } else {
        r := Disas(pc, -1, nearest);
      }
    }

    /**
     * The rest of a run iteration: `pc = bb->exec()`, the count, and the
     * OpenRISC interrupt entry.
     */
    method Execute(bb: BasicBlock) returns (pc: Word)
      requires Valid()
      modifies this
      ensures Valid()
      ensures (State(), pc) == Advance(Setup(), old(State()), bb)
    {
      var ex := ExecBlock(bb, regs, sem, Lay(target));
      regs := ex.regs;
      pc := ex.next;
      totalIcount := totalIcount + bb.icount;
      if target.OpenRiscVm? && irqStatus && IeeClear(regs[OR_REG_SR]) {
        regs := IrqEntry(regs);
        pc := OR_IRQ_VECTOR;
      }
    }

    /** One iteration of the loop of run(). */
    method Iterate(pc: Word) returns (r: Iteration)
      requires Valid()
      modifies this, bbMan
      ensures Valid()
      ensures r == RunIter(Setup(), old(State()), pc) && State() == r.m
    {
      var nearest := bpMan.FindNearest(pc);
      var hit := nearest == Some(pc);
      if hit && !target.ArmVm? {
        return Stop(Broke(pc), State());
      }
      var t := FindBlock(pc, nearest);
      if t.Fail? {
        return Stop(Aborted(t.fault), State());
      }
      if hit {
        return Stop(Broke(pc), State());
      }
      var next := Execute(t.value);
      r := Go(State(), next);
    }

    /**
     * run(), with at most `fuel` iterations: the source loop has no exit
     * but a breakpoint (or a fault), so the budget stands in for the rest
     * of time.
     */
    method Run(fuel: nat) returns (r: RunEnd)
      requires Valid()
      modifies this, bbMan
      ensures Valid()
      ensures (r, State()) == RunFrom(Setup(), old(State()), old(regs[PcReg(target)]), fuel)
    {
      var pc: Word := regs[PcReg(target)];
      var n := fuel;
      while true
        invariant Valid()
        invariant RunFrom(Setup(), State(), pc, n) == RunFrom(Setup(), old(State()), old(regs[PcReg(target)]), fuel)
        decreases n
      {
        if n == 0 {
          return OutOfFuel(pc);
        }
        var it := Iterate(pc);
        if it.Stop? {
          return it.end;
        }
        pc := it.pc;
        n := n - 1;
      }
    }

    /** step_exec(). */
    method StepExec() returns (r: Outcome<RunState>)
      requires Valid()
      modifies this, bbMan
      ensures Valid()
      ensures (r, State()) == StepSpec(Setup(), old(State()))
    {
      var pc: Word := regs[PcReg(target)];
      var nearest := bpMan.FindNearest(pc);
      if StepChecksFirst(target) && nearest == Some(pc) {
        return Ok(Break);
      }
      bbMan.Invalidate(pc, AddrAdd(pc, 4));
      // The cache was just emptied, so the lookup always misses and the
      // instruction is translated.
      var t := Disas(pc, 1, nearest);
      if t.Fail? {
        return Fail(t.fault);
      }
      r := FinishStep(t.value, nearest);
    }

    /** The end of step_exec: execute the block, add its count, and report. */
    method FinishStep(bb: BasicBlock, nearest: Option<Word>) returns (r: Outcome<RunState>)
      requires Valid()
      modifies this
      ensures Valid()
      ensures (r, State()) == StepFinish(Setup(), old(State()), bb, nearest)
    {
      var ex := ExecBlock(bb, regs, sem, Lay(target));
      regs := ex.regs;
      totalIcount := totalIcount + bb.icount;
      if target.OpenRiscVm? && irqStatus {
        return Fail(IrqPending);
      }
      if StepChecksFirst(target) {
        return Ok(Normal);
      }
      r := Ok(if nearest == Some(ex.next) then Break else Normal);
    }

    /**
     * run_continue(is_step): one step, or a run. The result is what the
     * debugger sees: the run state or the fault, or nothing while a run has
     * not returned within its budget.
     */
    method RunContinue(isStep: bool, fuel: nat) returns (r: Option<Outcome<RunState>>)
      requires Valid()
      modifies this, bbMan
      ensures Valid()
      ensures isStep ==> (r, State()) == (Some(StepSpec(Setup(), old(State())).0), StepSpec(Setup(), old(State())).1)
      ensures !isStep ==> var run := RunFrom(Setup(), old(State()), old(regs[PcReg(target)]), fuel);
        (r, State()) == (Reported(run.0), run.1)
    {
      if isStep {
        var s := StepExec();
        r := Some(s);
      } else {
        var e := Run(fuel);
        r := Reported(e);
      }
    }

    /**
     * set_unset_break_point: setting adds the address (truncated to 32
     * bits) and empties the whole cache; unsetting removes it, which is
     * fatal (ok false) when it is not a breakpoint, and leaves the cache.
     */
    method SetUnsetBreakPoint(isSet: bool, addr: nat) returns (ok: bool)
      requires Valid()
      modifies bbMan, bpMan
      ensures Valid()
      ensures isSet ==> ok && bpMan.bps == Insert(old(bpMan.bps), addr % WORD)
      ensures isSet ==> bbMan.byStart == map[] && bbMan.byEnd == []
      ensures !isSet ==> ok == (addr % WORD in old(bpMan.bps))
      ensures !isSet ==> bpMan.bps == Delete(old(bpMan.bps), addr % WORD)
      ensures !isSet ==> bbMan.byStart == old(bbMan.byStart) && bbMan.byEnd == old(bbMan.byEnd)
    {
      var pc: Word := addr % WORD;
      if isSet {
        bpMan.Add(pc);
        bbMan.Invalidate(pc, AddrAdd(pc, 4));
        ok := true;
      } else {
        ok := bpMan.Remove(pc);
      }
    }

    /** get_reg_value: the loop that fills the debugger's register vector. */
    method GetRegValue() returns (v: seq<Word>)
      requires Valid()
      ensures v == RegView(target, regs)
    {
      var n := if target.OpenRiscVm? || target.RiscVVm? then 32 else if target.ArmVm? then 19 else 16;
      v := [];
      var i := 0;
      while i < n
        invariant 0 <= i <= n
        invariant v == regs[..i]
      {
        v := v + [regs[i]];
        i := i + 1;
      }
      if target.OpenRiscVm? {
        v := v + [regs[PnextReg(target)]];
      } else if !target.ArmVm? {
        v := v + [regs[PcReg(target)]];
      }
      assert v == RegView(target, regs);
    }

    /** set_reg_value: an index at or past the slot limit fails the assertion (ok false). */
    method SetRegValue(idx: nat, val: nat) returns (ok: bool)
      requires Valid()
      modifies this
      ensures Valid()
      ensures ok == (idx < SlotLimit(target))
      ensures ok ==> regs == SetSlot(target, old(regs), idx, val)
      ensures !ok ==> regs == old(regs)
      ensures totalIcount == old(totalIcount) && irqStatus == old(irqStatus)
    {
      ok := idx < SlotLimit(target);
      if ok {
        regs := SetSlot(target, regs, idx, val);
      }
    }

    /**
     * interrupt(irq_id, enable): OpenRISC and RISC-V accept irq_id 0 only
     * and record the level; ARM ignores the call; Cortex-M0 aborts.
     */
    method Interrupt(irqId: int, enable: bool) returns (ok: bool)
      requires Valid()
      modifies this
      ensures Valid()
      ensures ok == (target.ArmVm? || ((target.OpenRiscVm? || target.RiscVVm?) && irqId == 0))
      ensures irqStatus == (if ok && !target.ArmVm? then enable else old(irqStatus))
      ensures regs == old(regs) && totalIcount == old(totalIcount)
    {
      match target
      case OpenRiscVm =>
        ok := irqId == 0;
        if ok {
          irqStatus := enable;
        }
      case RiscVVm =>
        ok := irqId == 0;
        if ok {
          irqStatus := enable;
        }
      case ArmVm =>
        ok := true;
      case CortexM0Vm =>
        ok := false;
    }

    /** reset: OpenRISC and RISC-V drop the pending interrupt; ARM and Cortex-M0 do nothing. */
    method Reset()
      requires Valid()
      modifies this
      ensures Valid()
      ensures irqStatus == (if target.OpenRiscVm? || target.RiscVVm? then false else old(irqStatus))
      ensures regs == old(regs) && totalIcount == old(totalIcount)
    {
      if target.OpenRiscVm? || target.RiscVVm? {
        irqStatus := false;
      }
    }
  }
}
