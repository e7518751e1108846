/**
 * The register file behind the JIT's get_reg/set_reg helpers: three 32-bit
 * registers in one array, read and written by index without a bounds check,
 * so an index of 3 or more is excluded by precondition.
 */
module RegFile {

  const REG_COUNT: nat := 3

  class Regs {
    var regs: array<bv32>

    predicate Valid()
      reads this
    {
      regs.Length == REG_COUNT
    }

    constructor()
      ensures Valid() && fresh(regs)
      ensures regs[..] == [0, 0, 0]
    {
      regs := new bv32[REG_COUNT](_ => 0);
    }

    /** get_reg: the value held by register idx. */
    method GetReg(idx: nat) returns (val: bv32)
      requires Valid() && idx < REG_COUNT
      ensures val == regs[idx]
    {
      val := regs[idx];
    }

    /** set_reg: register idx holds val and no other register changes. */
    method SetReg(idx: nat, val: bv32)
      requires Valid() && idx < REG_COUNT
      modifies regs
      ensures Valid()
      ensures regs[..] == old(regs[..])[idx := val]
      ensures forall j :: 0 <= j < REG_COUNT && j != idx ==> regs[j] == old(regs[j])
    {
      regs[idx] := val;
    }

    /** A get after a set reads back the value set at that index and the old value elsewhere. */
    method SetThenGet(i: nat, j: nat, val: bv32) returns (r: bv32)
      requires Valid() && i < REG_COUNT && j < REG_COUNT
      modifies regs
      ensures r == if i == j then val else old(regs[j])
      ensures regs[..] == old(regs[..])[i := val]
    {
      SetReg(i, val);
      r := GetReg(j);
    }
  }
}
