/**
 * The block translator shared by the jcpu targets (disas): the whole-block
 * loop that decodes addresses start, start + 4, ... until a block
 * terminator or a breakpoint, and the single-instruction step mode.
 *
 * A decoder is the target's disas_insn seen from the loop: for one outer
 * address it reports whether the block ends there, how many decode calls it
 * made (delay slots included) and the code it emitted, or the fault it
 * aborts with.
 */
module Translate {
  import opened VmBase

  type Decoder = Word -> Outcome<Decoded>

  /** The address of the i-th outer-loop instruction: start + 4i modulo 2^32. */
  function Stride(start: Word, i: nat): (a: Word)
    ensures start + 4 * i < WORD ==> a == start + 4 * i
  {
    (start + 4 * i) % WORD
  }

  /** One more step of the loop's `pc += 4`. */
  lemma StrideStep(start: Word, i: nat)
    ensures AddrAdd(Stride(start, i), 4) == Stride(start, i + 1)
    ensures Stride(AddrAdd(start, 4), i) == Stride(start, i + 1)
  {
    var k := (start + 4 * i) / WORD;
    assert start + 4 * i == k * WORD + Stride(start, i);
    var m := (start + 4) / WORD;
    assert start + 4 == m * WORD + AddrAdd(start, 4);
    ModShift(Stride(start, i) + 4, k, start + 4 * (i + 1));
    ModShift(AddrAdd(start, 4) + 4 * i, m, start + 4 * (i + 1));
  }

  lemma ModShift(x: int, k: int, y: int)
    requires y == x + k * WORD
    ensures x % WORD == y % WORD
  {
  }

  /**
   * What the outer loop produced: the loop variable when it stopped, whether
   * a breakpoint cut it, the summed decode count, the emitted code and the
   * outer addresses decoded.
   */
  datatype Scan = Scan(next: Word, cut: bool, count: nat, ops: seq<Op>, addrs: seq<Word>)

  /** Prefix an accumulated part to the rest of a scan. */
  function Extend(count: nat, ops: seq<Op>, addrs: seq<Word>, rest: Outcome<Scan>): (r: Outcome<Scan>)
    ensures rest.Fail? <==> r.Fail?
    ensures rest.Fail? ==> r == rest
    ensures r.Ok? ==> r.value.addrs == addrs + rest.value.addrs && r.value.next == rest.value.next
  {
    match rest
    case Fail(f) => Fail(f)
    case Ok(s) => Ok(Scan(s.next, s.cut, count + s.count, ops + s.ops, addrs + s.addrs))
  }

  /** Extending twice is extending once by the joined parts. */
  lemma ExtendExtend(c1: nat, o1: seq<Op>, a1: seq<Word>, c2: nat, o2: seq<Op>, a2: seq<Word>, rest: Outcome<Scan>)
    ensures Extend(c1, o1, a1, Extend(c2, o2, a2, rest)) == Extend(c1 + c2, o1 + o2, a1 + a2, rest)
  {
    if rest.Ok? {
      assert o1 + (o2 + rest.value.ops) == (o1 + o2) + rest.value.ops;
      assert a1 + (a2 + rest.value.addrs) == (a1 + a2) + rest.value.addrs;
    }
  }

  /**
   * The outer loop of disas from pc, as a function. A breakpoint equal to the
   * loop address stops it before decoding and stages PNEXT_PC = that
   * address; a terminator stops it after decoding with pc moved past the
   * terminator. `fuel` outer addresses may still be decoded: the decoder
   * depends on the address alone, so 2^32 addresses without a terminator
   * revisit the start and the source loops forever, which is Runaway here.
   */
  function ScanFrom(dec: Decoder, pc: Word, bp: Option<Word>, fuel: nat): (r: Outcome<Scan>)
    decreases fuel
  {
    if bp == Some(pc) then Ok(Scan(pc, true, 0, [StagePnext(pc)], []))
    else if fuel == 0 then Fail(Runaway)
    else
      match dec(pc)
      case Fail(f) => Fail(f)
      case Ok(d) =>
        if d.done then Ok(Scan(AddrAdd(pc, 4), false, d.depth, d.ops, [pc]))
        else Extend(d.depth, d.ops, [pc], ScanFrom(dec, AddrAdd(pc, 4), bp, fuel - 1))
  }

  /** The decode counts of a run of outer addresses, summed. */
  function Depths(dec: Decoder, addrs: seq<Word>): nat
    requires forall a | a in addrs :: dec(a).Ok?
  {
    if addrs == [] then 0 else dec(addrs[0]).value.depth + Depths(dec, addrs[1..])
  }

  /**
   * When every decode call but the last is a single instruction, the summed
   * count is the number of addresses before the last plus the last's count.
   */
  lemma {:induction false} DepthsOfLast(dec: Decoder, addrs: seq<Word>)
    requires |addrs| > 0 && forall a | a in addrs :: dec(a).Ok?
    requires forall i | 0 <= i < |addrs| - 1 :: dec(addrs[i]).value.depth == 1
    ensures Depths(dec, addrs) == |addrs| - 1 + dec(addrs[|addrs| - 1]).value.depth
    decreases |addrs|
  {
    if |addrs| > 1 {
      var rest := addrs[1..];
      assert forall a | a in rest :: a in addrs;
      assert forall i | 0 <= i < |rest| - 1 :: rest[i] == addrs[i + 1];
      DepthsOfLast(dec, rest);
    }
  }

  /** When every decode call is a single instruction, the summed count is the number of addresses. */
  lemma {:induction false} DepthsOfSingles(dec: Decoder, addrs: seq<Word>)
    requires forall a | a in addrs :: dec(a).Ok? && dec(a).value.depth == 1
    ensures Depths(dec, addrs) == |addrs|
    decreases |addrs|
  {
    if addrs != [] {
      assert forall a | a in addrs[1..] :: a in addrs;
      DepthsOfSingles(dec, addrs[1..]);
    }
  }

  /** A scan that goes on past pc is pc's decode followed by the scan from pc + 4. */
  lemma ScanGoesOn(dec: Decoder, pc: Word, bp: Option<Word>, fuel: nat)
    requires ScanFrom(dec, pc, bp, fuel).Ok? && bp != Some(pc)
    requires dec(pc).Ok? && !dec(pc).value.done
    ensures fuel > 0 && ScanFrom(dec, AddrAdd(pc, 4), bp, fuel - 1).Ok?
    ensures var d := dec(pc).value;
      var t := ScanFrom(dec, AddrAdd(pc, 4), bp, fuel - 1).value;
      ScanFrom(dec, pc, bp, fuel).value == Scan(t.next, t.cut, d.depth + t.count, d.ops + t.ops, [pc] + t.addrs)
  {
  }

  /**
   * The addresses of a finished scan: consecutive words from pc, no more of
   * them than the fuel allowed.
   */
  lemma {:induction false} ScanAddrs(dec: Decoder, pc: Word, bp: Option<Word>, fuel: nat)
    requires ScanFrom(dec, pc, bp, fuel).Ok?
    ensures var s := ScanFrom(dec, pc, bp, fuel).value;
      && |s.addrs| <= fuel
      && (forall i | 0 <= i < |s.addrs| :: s.addrs[i] == Stride(pc, i))
    decreases fuel
  {
    if bp != Some(pc) && !dec(pc).value.done {
      ScanGoesOn(dec, pc, bp, fuel);
      var s := ScanFrom(dec, pc, bp, fuel).value;
      var next := AddrAdd(pc, 4);
      ScanAddrs(dec, next, bp, fuel - 1);
      forall i | 0 <= i < |s.addrs|
        ensures s.addrs[i] == Stride(pc, i)
      {
        if i > 0 {
          StrideStep(pc, i - 1);
        }
      }
    }
  }

  /**
   * Where a finished scan leaves the loop variable: at the breakpoint, the
   * word after the last one decoded, when it was cut; past the terminator
   * otherwise.
   */
  lemma {:induction false} ScanNext(dec: Decoder, pc: Word, bp: Option<Word>, fuel: nat)
    requires ScanFrom(dec, pc, bp, fuel).Ok?
    ensures var s := ScanFrom(dec, pc, bp, fuel).value;
      && (s.cut ==> s.next == Stride(pc, |s.addrs|))
      && (!s.cut ==> |s.addrs| > 0 && s.next == AddrAdd(s.addrs[|s.addrs| - 1], 4))
    decreases fuel
  {
    if bp != Some(pc) && !dec(pc).value.done {
      ScanGoesOn(dec, pc, bp, fuel);
      var s := ScanFrom(dec, pc, bp, fuel).value;
      var next := AddrAdd(pc, 4);
      ScanNext(dec, next, bp, fuel - 1);
      var t := ScanFrom(dec, next, bp, fuel - 1).value;
      if s.cut {
        StrideStep(pc, |t.addrs|);
      } else {
        assert s.addrs[|s.addrs| - 1] == t.addrs[|t.addrs| - 1];
      }
    }
  }

  /**
   * What the loop decoded: every outer address decodes, none of them is the
   * breakpoint, all but the last go on, and an uncut scan ends on a
   * terminator.
   */
  lemma {:induction false} ScanDecodes(dec: Decoder, pc: Word, bp: Option<Word>, fuel: nat)
    requires ScanFrom(dec, pc, bp, fuel).Ok?
    ensures var s := ScanFrom(dec, pc, bp, fuel).value;
      && (forall a | a in s.addrs :: Some(a) != bp && dec(a).Ok?)
      && (forall i | 0 <= i < |s.addrs| - 1 :: !dec(s.addrs[i]).value.done)
      && (!s.cut ==> |s.addrs| > 0 && dec(s.addrs[|s.addrs| - 1]).value.done)
      && (s.cut ==> forall a | a in s.addrs :: !dec(a).value.done)
    decreases fuel
  {
    if bp != Some(pc) && !dec(pc).value.done {
      var s := ScanFrom(dec, pc, bp, fuel).value;
      var next := AddrAdd(pc, 4);
      ScanDecodes(dec, next, bp, fuel - 1);
      var t := ScanFrom(dec, next, bp, fuel - 1).value;
      assert s.addrs == [pc] + t.addrs;
    }
  }

  /** A scan the breakpoint cut ends by staging the breakpoint as the next PC. */
  lemma {:induction false} ScanCut(dec: Decoder, pc: Word, bp: Option<Word>, fuel: nat)
    requires ScanFrom(dec, pc, bp, fuel).Ok? && ScanFrom(dec, pc, bp, fuel).value.cut
    ensures var s := ScanFrom(dec, pc, bp, fuel).value;
      bp == Some(s.next) && |s.ops| > 0 && s.ops[|s.ops| - 1] == StagePnext(s.next)
    decreases fuel
  {
    if bp != Some(pc) {
      var next := AddrAdd(pc, 4);
      ScanCut(dec, next, bp, fuel - 1);
      var t := ScanFrom(dec, next, bp, fuel - 1).value;
      var s := ScanFrom(dec, pc, bp, fuel).value;
      assert s.ops == dec(pc).value.ops + t.ops;
    }
  }

  /** Without a breakpoint the loop only stops on a terminator. */
  lemma {:induction false} ScanUncut(dec: Decoder, pc: Word, fuel: nat)
    requires ScanFrom(dec, pc, None, fuel).Ok?
    ensures !ScanFrom(dec, pc, None, fuel).value.cut
    decreases fuel
  {
    if !dec(pc).value.done {
      ScanUncut(dec, AddrAdd(pc, 4), fuel - 1);
    }
  }

  /** The block count is the sum of the decode counts of the outer addresses. */
  lemma {:induction false} ScanCount(dec: Decoder, pc: Word, bp: Option<Word>, fuel: nat)
    requires ScanFrom(dec, pc, bp, fuel).Ok?
    ensures forall a | a in ScanFrom(dec, pc, bp, fuel).value.addrs :: dec(a).Ok?
    ensures ScanFrom(dec, pc, bp, fuel).value.count == Depths(dec, ScanFrom(dec, pc, bp, fuel).value.addrs)
    decreases fuel
  {
    if bp != Some(pc) && !dec(pc).value.done {
      var next := AddrAdd(pc, 4);
      ScanCount(dec, next, bp, fuel - 1);
      var t := ScanFrom(dec, next, bp, fuel - 1).value;
      var s := ScanFrom(dec, pc, bp, fuel).value;
      assert s.addrs == [pc] + t.addrs;
      assert s.addrs[1..] == t.addrs;
    }
  }

  /**
   * The loop state of disas (pc after k iterations, the count, code and
   * addresses so far) accounts for the whole scan once the rest is
   * appended.
   */
  ghost predicate Accounts(dec: Decoder, start: Word, bp: Option<Word>, pc: Word, k: nat, count: nat, ops: seq<Op>, addrs: seq<Word>)
  {
    k <= WORD && Extend(count, ops, addrs, ScanFrom(dec, pc, bp, WORD - k)) == ScanFrom(dec, start, bp, WORD)
  }

  lemma AccountsInit(dec: Decoder, start: Word, bp: Option<Word>)
    ensures Accounts(dec, start, bp, start, 0, 0, [], [])
  {
    if ScanFrom(dec, start, bp, WORD).Ok? {
      var s := ScanFrom(dec, start, bp, WORD).value;
      assert [] + s.ops == s.ops && [] + s.addrs == s.addrs;
    }
  }

  /** The breakpoint stops the loop: stage it and return what was gathered. */
  lemma AccountsHit(dec: Decoder, start: Word, bp: Option<Word>, pc: Word, k: nat, count: nat, ops: seq<Op>, addrs: seq<Word>)
    requires Accounts(dec, start, bp, pc, k, count, ops, addrs) && bp == Some(pc)
    ensures Ok(Scan(pc, true, count, ops + [StagePnext(pc)], addrs)) == ScanFrom(dec, start, bp, WORD)
  {
    assert addrs + [] == addrs;
  }

  /** A decode call that aborts aborts the scan. */
  lemma AccountsFail(dec: Decoder, start: Word, bp: Option<Word>, pc: Word, k: nat, count: nat, ops: seq<Op>, addrs: seq<Word>)
    requires Accounts(dec, start, bp, pc, k, count, ops, addrs) && bp != Some(pc)
    requires k == WORD || dec(pc).Fail?
    ensures ScanFrom(dec, start, bp, WORD) == Fail(if k == WORD then Runaway else dec(pc).fault)
  {
  }

  /** A terminator ends the scan with pc moved past it. */
  lemma AccountsDone(dec: Decoder, start: Word, bp: Option<Word>, pc: Word, k: nat, count: nat, ops: seq<Op>, addrs: seq<Word>, d: Decoded)
    requires Accounts(dec, start, bp, pc, k, count, ops, addrs) && bp != Some(pc)
    requires k < WORD && dec(pc) == Ok(d) && d.done
    ensures ScanFrom(dec, start, bp, WORD) == Ok(Scan(AddrAdd(pc, 4), false, count + d.depth, ops + d.ops, addrs + [pc]))
  {
    ScanStops(dec, pc, bp, WORD - k, d);
  }

  /** A terminator at pc ends the scan from pc. */
  lemma ScanStops(dec: Decoder, pc: Word, bp: Option<Word>, fuel: nat, d: Decoded)
    requires bp != Some(pc) && fuel > 0 && dec(pc) == Ok(d) && d.done
    ensures ScanFrom(dec, pc, bp, fuel) == Ok(Scan(AddrAdd(pc, 4), false, d.depth, d.ops, [pc]))
  {
  }

  /** Any other instruction is appended and the loop moves to pc + 4. */
  lemma AccountsNext(dec: Decoder, start: Word, bp: Option<Word>, pc: Word, k: nat, count: nat, ops: seq<Op>, addrs: seq<Word>, d: Decoded)
    requires Accounts(dec, start, bp, pc, k, count, ops, addrs) && bp != Some(pc)
    requires k < WORD && dec(pc) == Ok(d) && !d.done
    ensures Accounts(dec, start, bp, AddrAdd(pc, 4), k + 1, count + d.depth, ops + d.ops, addrs + [pc])
  {
    var rest := ScanFrom(dec, AddrAdd(pc, 4), bp, WORD - k - 1);
    ScanContinues(dec, pc, bp, WORD - k, d);
    ExtendExtend(count, ops, addrs, d.depth, d.ops, [pc], rest);
  }

  /** Any other instruction at pc is followed by the scan from pc + 4. */
  lemma ScanContinues(dec: Decoder, pc: Word, bp: Option<Word>, fuel: nat, d: Decoded)
    requires bp != Some(pc) && fuel > 0 && dec(pc) == Ok(d) && !d.done
    ensures ScanFrom(dec, pc, bp, fuel) == Extend(d.depth, d.ops, [pc], ScanFrom(dec, AddrAdd(pc, 4), bp, fuel - 1))
  {
  }

  /**
   * The outer loop of disas, `for(pc = start; !done; pc += 4)`, with its
   * breakpoint test; it computes ScanFrom over the whole address space.
   */
  method ScanLoop(dec: Decoder, start: Word, bp: Option<Word>) returns (r: Outcome<Scan>)
    ensures r == ScanFrom(dec, start, bp, WORD)
  {
    var pc := start;
    var numInsn: nat := 0;
    var ops: seq<Op> := [];
    var addrs: seq<Word> := [];
    var k: nat := 0;
    AccountsInit(dec, start, bp);
    while true
      invariant Accounts(dec, start, bp, pc, k, numInsn, ops, addrs)
      decreases WORD - k
    {
      if bp == Some(pc) {
        AccountsHit(dec, start, bp, pc, k, numInsn, ops, addrs);
        return Ok(Scan(pc, true, numInsn, ops + [StagePnext(pc)], addrs));
      }
      if k == WORD {
        AccountsFail(dec, start, bp, pc, k, numInsn, ops, addrs);
        return Fail(Runaway);
      }
      var insn := dec(pc);
      if insn.Fail? {
        AccountsFail(dec, start, bp, pc, k, numInsn, ops, addrs);
        return Fail(insn.fault);
      }
      var d := insn.value;
      if d.done {
        AccountsDone(dec, start, bp, pc, k, numInsn, ops, addrs, d);
        return Ok(Scan(AddrAdd(pc, 4), false, numInsn + d.depth, ops + d.ops, addrs + [pc]));
      }
      AccountsNext(dec, start, bp, pc, k, numInsn, ops, addrs, d);
      numInsn := numInsn + d.depth;
      ops := ops + d.ops;
      addrs := addrs + [pc];
      pc := AddrAdd(pc, 4);
      k := k + 1;
    }
  }

  /** The target variants of the loop that finishes a block. */
  datatype Finish =
    | Checked   // jcpu OpenRISC, RISC-V, Cortex-M0: end = pc - 4 with start <= end asserted
    | ArmStyle  // jcpu ARM: no assertion, and step mode writes PC before the branch on done

  /**
   * The end of disas(start, -1, bp) once the loop has run: the prologue
   * PC := PNEXT_PC before the scanned code, and the block [start, pc - 4]
   * with the summed count, start <= end asserted where the variant asserts it.
   */
  function FinishWhole(start: Word, scan: Outcome<Scan>, fin: Finish): (r: Outcome<BasicBlock>)
    ensures scan.Fail? ==> r == Fail(scan.fault)
    ensures r.Ok? ==> scan.Ok? && r.value.start == start && r.value.end == AddrSub(scan.value.next, 4)
    ensures r.Ok? ==> r.value.icount == scan.value.count && r.value.ops == [CopyPnextToPc] + scan.value.ops
    ensures scan.Ok? ==> (r.Ok? <==> fin.ArmStyle? || start <= AddrSub(scan.value.next, 4))
    ensures scan.Ok? && r.Fail? ==> r.fault == BadBlockRange
  {
    match scan
    case Fail(f) => Fail(f)
    case Ok(s) =>
      var end := AddrSub(s.next, 4);
      if fin.Checked? && !(start <= end) then Fail(BadBlockRange)
      else Ok(BasicBlock(start, end, s.count, [CopyPnextToPc] + s.ops))
  }

  /** disas(start, -1, bp): the outer loop over the whole address space, then the block. */
  function WholeBlock(dec: Decoder, start: Word, bp: Option<Word>, fin: Finish): Outcome<BasicBlock>
  {
    FinishWhole(start, ScanFrom(dec, start, bp, WORD), fin)
  }

  /**
   * disas(start, 1, bp): one decode call; pc becomes start + 8 after a
   * terminator and start + 4 otherwise. A terminator leaves the next PC it
   * staged and copies it to PC; anything else sets PC and PNEXT_PC to pc.
   */
  function StepBlock(dec: Decoder, start: Word, fin: Finish): (r: Outcome<BasicBlock>)
    ensures dec(start).Fail? ==> r == Fail(dec(start).fault)
    ensures r.Ok? ==> dec(start).Ok? && r.value.start == start && r.value.icount == dec(start).value.depth
    ensures r.Ok? ==> r.value.end == (if dec(start).value.done then AddrAdd(start, 4) else start)
    ensures r.Ok? ==> |r.value.ops| >= 2 && r.value.ops[0] == CopyPnextToPc
    ensures r.Ok? && !dec(start).value.done ==>
      r.value.ops[|r.value.ops| - 1] == StagePnext(AddrAdd(start, 4))
    ensures r.Ok? && dec(start).value.done ==> r.value.ops[|r.value.ops| - 1] == CopyPnextToPc
    ensures r.Ok? <==> dec(start).Ok? && (fin.ArmStyle? || !dec(start).value.done || start < 0xFFFF_FFFC)
  {
    match dec(start)
    case Fail(f) => Fail(f)
    case Ok(d) =>
      var pc := AddrAdd(start, if d.done then 8 else 4);
      var tail :=
        if fin.ArmStyle? then [SetPc(pc)] + (if d.done then [CopyPnextToPc] else [StagePnext(pc)])
        else if d.done then [CopyPnextToPc]
        else [SetPc(pc), StagePnext(pc)];
      var end := AddrSub(pc, 4);
      assert end == (if d.done then AddrAdd(start, 4) else start);
      var ops := [CopyPnextToPc] + d.ops + tail;
      assert ops[|ops| - 1] == tail[|tail| - 1];
      if fin.Checked? && !(start <= end) then Fail(BadBlockRange)
      else Ok(BasicBlock(start, end, d.depth, ops))
  }

  /** The step block of an instruction that does not end a block, in the checked variants. */
  lemma StepBlockPlain(dec: Decoder, start: Word)
    requires dec(start).Ok? && !dec(start).value.done
    ensures var d := dec(start).value;
      var next := AddrAdd(start, 4);
      StepBlock(dec, start, Checked) == Ok(BasicBlock(start, start, d.depth, [CopyPnextToPc] + d.ops + [SetPc(next), StagePnext(next)]))
  {
    var d := dec(start).value;
    var next := AddrAdd(start, 4);
    assert [CopyPnextToPc] + d.ops + [SetPc(next), StagePnext(next)] == [CopyPnextToPc] + d.ops + [SetPc(next), StagePnext(next)];
  }

  /** disas(start, max_insn, bp): whole-block mode for a negative max_insn, step mode for 1, fatal otherwise. */
  function Disas(dec: Decoder, start: Word, maxInsn: int, bp: Option<Word>, fin: Finish): (r: Outcome<BasicBlock>)
    ensures maxInsn < 0 ==> r == WholeBlock(dec, start, bp, fin)
    ensures maxInsn == 1 ==> r == StepBlock(dec, start, fin)
    ensures maxInsn >= 0 && maxInsn != 1 ==> r == Fail(UnsupportedMaxInsn)
  {
    if maxInsn < 0 then WholeBlock(dec, start, bp, fin)
    else if maxInsn == 1 then StepBlock(dec, start, fin)
    else Fail(UnsupportedMaxInsn)
  }

  /**
   * The end of a whole-block translation: the last outer-loop address
   * decoded (the terminator, not its delay slot) or, when a breakpoint cut
   * the loop, the word before the breakpoint.
   */
  lemma WholeBlockEnd(dec: Decoder, start: Word, bp: Option<Word>, fin: Finish)
    requires WholeBlock(dec, start, bp, fin).Ok?
    ensures var s := ScanFrom(dec, start, bp, WORD).value;
      var bb := WholeBlock(dec, start, bp, fin).value;
      && (s.cut ==> bp == Some(s.next) && bb.end == AddrSub(s.next, 4))
      && (!s.cut ==> |s.addrs| > 0 && bb.end == s.addrs[|s.addrs| - 1] && dec(bb.end).Ok? && dec(bb.end).value.done)
  {
    var s := ScanFrom(dec, start, bp, WORD).value;
    ScanNext(dec, start, bp, WORD);
    if s.cut {
      ScanCut(dec, start, bp, WORD);
    } else {
      ScanDecodes(dec, start, bp, WORD);
      AddrSubAdd(s.addrs[|s.addrs| - 1], 4);
    }
  }

  /** The count of a whole-block translation is the sum of the decode counts of its outer addresses. */
  lemma WholeBlockCount(dec: Decoder, start: Word, bp: Option<Word>, fin: Finish)
    requires WholeBlock(dec, start, bp, fin).Ok?
    ensures var s := ScanFrom(dec, start, bp, WORD).value;
      && (forall a | a in s.addrs :: dec(a).Ok?)
      && WholeBlock(dec, start, bp, fin).value.icount == Depths(dec, s.addrs)
  {
    ScanCount(dec, start, bp, WORD);
  }

  /**
   * A block that a breakpoint cut hands the breakpoint back as the next
   * PC, whatever its instructions did.
   */
  lemma CutBlockReturnsBreakpoint(dec: Decoder, start: Word, b: Word, fin: Finish,
                                  regs: Regs, sem: (Op, Regs) -> Regs, lay: Layout)
    requires KeepsWidth(sem) && Fits(lay, regs)
    requires WholeBlock(dec, start, Some(b), fin).Ok? && ScanFrom(dec, start, Some(b), WORD).value.cut
    ensures ExecBlock(WholeBlock(dec, start, Some(b), fin).value, regs, sem, lay).next == b
  {
    var s := ScanFrom(dec, start, Some(b), WORD).value;
    var bb := WholeBlock(dec, start, Some(b), fin).value;
    ScanCut(dec, start, Some(b), WORD);
    assert bb.ops[|bb.ops| - 1] == s.ops[|s.ops| - 1];
    StagedLastIsNext(bb, regs, sem, lay, b);
  }

  /**
   * The block with no instruction: count 0, end start - 4, and code that
   * only copies PNEXT_PC to PC and stages the start again.
   */
  function EmptyBlock(start: Word): (bb: BasicBlock)
    ensures bb.start == start && bb.icount == 0 && bb.end == AddrSub(start, 4)
  {
    BasicBlock(start, AddrSub(start, 4), 0, [CopyPnextToPc, StagePnext(start)])
  }

  /**
   * A breakpoint at the start address stops the loop before the first
   * decode. Without the start <= end check the result is the empty block;
   * with it, the end start - 4 is below the start (unless it wrapped
   * around) and the assertion fires.
   */
  lemma BreakAtStartIsEmpty(dec: Decoder, start: Word)
    ensures WholeBlock(dec, start, Some(start), ArmStyle) == Ok(EmptyBlock(start))
    ensures start >= 4 ==> WholeBlock(dec, start, Some(start), Checked) == Fail(BadBlockRange)
  {
    assert ScanFrom(dec, start, Some(start), WORD) == Ok(Scan(start, true, 0, [StagePnext(start)], []));
    assert [CopyPnextToPc] + [StagePnext(start)] == [CopyPnextToPc, StagePnext(start)];
  }
}
