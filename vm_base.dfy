/**
 * Pieces shared by every target of the translator: outcomes, 32-bit address
 * arithmetic, the select helper of the VM base class, and the record of a
 * compiled basic block together with a reference interpreter for the
 * block-level operations the translators emit.
 *
 * Addresses and register values are integers in [0, 2^32) and wrap-around
 * is written out; instruction words, whose fields the decoders pick apart,
 * are `bv32`.
 */
module VmBase {

  datatype Option<T> = None | Some(value: T)

  /** The ways a translator or engine call ends the process (jcpu_assert / abort). */
  datatype Fault =
    | MemoryFault          // the memory collaborator refused the instruction fetch
    | Unimplemented        // an encoding the decoder does not handle
    | DelaySlotTerminator  // a block terminator decoded in a delay slot
    | BadBlockRange        // the start <= end assertion on a finished block
    | DuplicateStart       // bb_manager::add of a start address already cached
    | UnsupportedMaxInsn   // disas with a max_insn other than a negative value or 1
    | Runaway              // a block or delay-slot chain with no end in the whole address space
    | IrqPending           // step_exec while an interrupt is pending
    | UnsupportedCall      // an entry point the target rejects (argument check or stub)

  datatype Outcome<T> = Ok(value: T) | Fail(fault: Fault)

  /** gdb_target_if::run_state_e */
  datatype RunState = Normal | Break

  const WORD: int := 0x1_0000_0000

  /** target_ulong, and the value of a virt_addr_t / phys_addr_t holder. */
  type Word = x: int | 0 <= x < 0x1_0000_0000

  /**
   * primitive_type_holder::operator+ (and the target_ulong `+`): addition
   * modulo 2^32, written as the one wrap-around it can need.
   */
  function AddrAdd(a: Word, b: Word): Word
  {
    if a + b < WORD then a + b else a + b - WORD
  }

  /** target_ulong subtraction, modulo 2^32. */
  function AddrSub(a: Word, b: Word): Word
  {
    if a >= b then a - b else a - b + WORD
  }

  /** Both are the integer operations reduced modulo 2^32. */
  lemma AddrArithIsModular(a: Word, b: Word)
    ensures AddrAdd(a, b) == (a + b) % WORD
    ensures AddrSub(a, b) == (a - b) % WORD
  {
  }

  /** Subtraction undoes addition, wrap-around included. */
  lemma AddrSubAdd(a: Word, b: Word)
    ensures AddrSub(AddrAdd(a, b), b) == a
  {
  }

  /**
   * gen_cond_code: a branch-free select of t when cond is 1 and f when cond
   * is 0, built from f_mask = cond - 1 and t_mask = f_mask ^ ~0.
   */
  function GenCondCode(cond: bv32, t: bv32, f: bv32): (r: bv32)
    requires cond == 0 || cond == 1
    ensures cond == 1 ==> r == t
    ensures cond == 0 ==> r == f
  {
    var fMask := cond - 1;
    var tMask := fMask ^ 0xFFFF_FFFF;
    (t & tMask) | (f & fMask)
  }

  /** A register file: one 32-bit word per architectural register. */
  type Regs = seq<Word>

  /**
   * The block-level operations a translator emits. The code generated for
   * one guest instruction is opaque: Insn(addr) is what the decoder of the
   * instruction at addr emits before any nested delay-slot decode, and
   * InsnLate(addr) what it emits after it. The rest are the register moves
   * the translation loop itself generates.
   */
  datatype Op =
    | CopyPnextToPc        // PC := PNEXT_PC
    | Insn(addr: Word)
    | InsnLate(addr: Word)
    | StagePnext(v: Word)  // PNEXT_PC := v
    | SetPc(v: Word)       // PC := v

  /** basic_block: the covered physical address range, the instruction count and the code. */
  datatype BasicBlock = BasicBlock(start: Word, end: Word, icount: nat, ops: seq<Op>)

  /** What one decode call produced: whether it ends the block, how many decode calls it made, its code. */
  datatype Decoded = Decoded(done: bool, depth: nat, ops: seq<Op>)

  /** The meaning of one guest instruction never changes the size of the register file. */
  ghost predicate KeepsWidth(sem: (Op, Regs) -> Regs)
  {
    forall op: Op, r: Regs {:trigger sem(op, r)} :: |sem(op, r)| == |r|
  }

  /** The register indices a block interpreter uses. */
  datatype Layout = Layout(pc: nat, pnext: nat)

  predicate Fits(lay: Layout, regs: Regs)
  {
    lay.pc < |regs| && lay.pnext < |regs|
  }

  /** One operation; `sem` gives the generated code of an instruction its meaning. */
  function ApplyOp(op: Op, regs: Regs, sem: (Op, Regs) -> Regs, lay: Layout): (r: Regs)
    requires KeepsWidth(sem) && Fits(lay, regs)
    ensures |r| == |regs|
  {
    match op
    case CopyPnextToPc => regs[lay.pc := regs[lay.pnext]]
    case Insn(_) => sem(op, regs)
    case InsnLate(_) => sem(op, regs)
    case StagePnext(v) => regs[lay.pnext := v]
    case SetPc(v) => regs[lay.pc := v]
  }

  /** Reference interpreter: the operations of a block applied in order. */
  function RunOps(ops: seq<Op>, regs: Regs, sem: (Op, Regs) -> Regs, lay: Layout): (r: Regs)
    requires KeepsWidth(sem) && Fits(lay, regs)
    ensures |r| == |regs|
    decreases |ops|
  {
    if ops == [] then regs
    else RunOps(ops[1..], ApplyOp(ops[0], regs, sem, lay), sem, lay)
  }

  datatype ExecResult = ExecResult(regs: Regs, next: Word)

  /**
   * basic_block::exec: run the block and return the staged next PC, which
   * the epilogue of every compiled block reads from PNEXT_PC.
   */
  function ExecBlock(bb: BasicBlock, regs: Regs, sem: (Op, Regs) -> Regs, lay: Layout): (r: ExecResult)
    requires KeepsWidth(sem) && Fits(lay, regs)
    ensures |r.regs| == |regs|
    ensures r.next == r.regs[lay.pnext]
  {
    var after := RunOps(bb.ops, regs, sem, lay);
    ExecResult(after, after[lay.pnext])
  }

  /** Running a concatenation runs the first part, then the second. */
  lemma {:induction false} RunOpsAppend(a: seq<Op>, b: seq<Op>, regs: Regs, sem: (Op, Regs) -> Regs, lay: Layout)
    requires KeepsWidth(sem) && Fits(lay, regs)
    ensures RunOps(a + b, regs, sem, lay) == RunOps(b, RunOps(a, regs, sem, lay), sem, lay)
    decreases |a|
  {
    if a == [] {
      assert a + b == b;
    } else {
      assert (a + b)[1..] == a[1..] + b;
      RunOpsAppend(a[1..], b, ApplyOp(a[0], regs, sem, lay), sem, lay);
    }
  }

  /**
   * A block whose last operation stages a constant next PC returns that
   * constant, whatever its instructions did before.
   */
  lemma StagedLastIsNext(bb: BasicBlock, regs: Regs, sem: (Op, Regs) -> Regs, lay: Layout, v: Word)
    requires KeepsWidth(sem) && Fits(lay, regs)
    requires |bb.ops| > 0 && bb.ops[|bb.ops| - 1] == StagePnext(v)
    ensures ExecBlock(bb, regs, sem, lay).next == v
  {
    var n := |bb.ops|;
    assert bb.ops == bb.ops[..n - 1] + [StagePnext(v)];
    RunOpsAppend(bb.ops[..n - 1], [StagePnext(v)], regs, sem, lay);
  }

  /** Code that ends by setting PC and staging PNEXT_PC to the same v leaves both at v. */
  lemma SetPcThenStage(head: seq<Op>, v: Word, regs: Regs, sem: (Op, Regs) -> Regs, lay: Layout)
    requires KeepsWidth(sem) && Fits(lay, regs) && lay.pc != lay.pnext
    ensures var after := RunOps(head + [SetPc(v), StagePnext(v)], regs, sem, lay);
      after[lay.pc] == v && after[lay.pnext] == v
  {
    RunOpsAppend(head, [SetPc(v), StagePnext(v)], regs, sem, lay);
    var mid := RunOps(head, regs, sem, lay);
    assert [SetPc(v), StagePnext(v)][1..] == [StagePnext(v)];
    assert RunOps([SetPc(v), StagePnext(v)], mid, sem, lay) == RunOps([StagePnext(v)], mid[lay.pc := v], sem, lay);
  }
}
