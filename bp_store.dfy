/**
 * bp_manager: the breakpoints, an ordered map from address to breakpoint.
 * Only the keys matter (a break_point holds nothing but its address), so the
 * map is kept as its strictly increasing list of keys.
 */
module BreakpointStore {
  import opened VmBase

  predicate Increasing(s: seq<Word>)
  {
    forall i, j | 0 <= i < j < |s| :: s[i] < s[j]
  }

  /** std::map::insert of a key: a key already present leaves the map as it is. */
  function Insert(s: seq<Word>, x: Word): (r: seq<Word>)
    requires Increasing(s)
    ensures Increasing(r)
    ensures forall y :: y in r <==> y in s || y == x
    ensures x in s ==> r == s
    decreases |s|
  {
    if s == [] then [x]
    else if x < s[0] then [x] + s
    else if x == s[0] then s
    else [s[0]] + Insert(s[1..], x)
  }

  /** std::map::erase of a key. */
  function Delete(s: seq<Word>, x: Word): (r: seq<Word>)
    requires Increasing(s)
    ensures Increasing(r)
    ensures forall y :: y in r <==> y in s && y != x
    ensures x in s ==> |r| == |s| - 1
    ensures x !in s ==> r == s
    decreases |s|
  {
    if s == [] then []
    else if s[0] == x then
      assert forall y | y in s[1..] :: s[0] < y;
      s[1..]
    else [s[0]] + Delete(s[1..], x)
  }

  /**
   * std::map::lower_bound: the smallest key that is at least pc, or none
   * when every key is below pc.
   */
  function LowerBound(s: seq<Word>, pc: Word): (r: Option<Word>)
    requires Increasing(s)
    ensures r.Some? ==> r.value in s && pc <= r.value
    ensures r.Some? ==> forall y | y in s && pc <= y :: r.value <= y
    ensures r.None? <==> forall y | y in s :: y < pc
    decreases |s|
  {
    if s == [] then None
    else if pc <= s[0] then Some(s[0])
    else
      assert forall y | y in s :: y == s[0] || y in s[1..];
      LowerBound(s[1..], pc)
  }

  /** The nearest breakpoint at or after pc is pc itself exactly when pc is a breakpoint. */
  lemma LowerBoundHit(s: seq<Word>, pc: Word)
    requires Increasing(s)
    ensures LowerBound(s, pc) == Some(pc) <==> pc in s
  {
  }

  class BreakpointManager {
    /** The keys of bps_by_addr, in increasing order. */
    var bps: seq<Word>

    ghost predicate Valid()
      reads this
    {
      Increasing(bps)
    }

    constructor ()
      ensures Valid() && bps == []
    {
      bps := [];
    }

    /** add: insert the address; an address already present is left alone. */
    method Add(pc: Word)
      requires Valid()
      modifies this
      ensures Valid()
      ensures forall y :: Exists(y) <==> old(Exists(y)) || y == pc
      ensures old(Exists(pc)) ==> bps == old(bps)
      ensures bps == Insert(old(bps), pc)
    {
      bps := Insert(bps, pc);
    }

    /** exists */
    function Exists(pc: Word): bool
      reads this
    {
      pc in bps
    }

    /**
     * remove: erase exactly that address. An address that is not present
     * fails the jcpu_assert: ok is false and nothing changes.
     */
    method Remove(pc: Word) returns (ok: bool)
      requires Valid()
      modifies this
      ensures Valid()
      ensures ok == old(Exists(pc))
      ensures ok ==> forall y :: Exists(y) <==> old(Exists(y)) && y != pc
      ensures !ok ==> bps == old(bps)
      ensures bps == Delete(old(bps), pc)
    {
      ok := pc in bps;
      if ok {
        bps := Delete(bps, pc);
      }
    }

    /** find_nearest: lower_bound(pc), null when there is none. */
    function FindNearest(pc: Word): (r: Option<Word>)
      reads this
      requires Valid()
      ensures r.Some? ==> r.value in bps && pc <= r.value
      ensures r.Some? ==> forall y | y in bps && pc <= y :: r.value <= y
      ensures r.None? <==> forall y | y in bps :: y < pc
    {
      LowerBound(bps, pc)
    }
  }
}
