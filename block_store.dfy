/**
 * bb_manager: the translation cache. Blocks are indexed twice, by start
 * address (a map, one block per address) and by end address (a multimap,
 * kept here as the list of entries in insertion order).
 */
module BlockStore {
  import opened VmBase

  /** The number of entries of the end-address multimap filed under p. */
  function CountEnd(entries: seq<BasicBlock>, p: Word): (n: nat)
    ensures n <= |entries|
    ensures n == 0 <==> forall i | 0 <= i < |entries| :: entries[i].end != p
  {
    if entries == [] then 0
    else (if entries[0].end == p then 1 else 0) + CountEnd(entries[1..], p)
  }

  /** Appending one entry raises the count under its own end address by one, and no other. */
  lemma {:induction false} CountEndAppend(entries: seq<BasicBlock>, bb: BasicBlock, p: Word)
    ensures CountEnd(entries + [bb], p) == CountEnd(entries, p) + (if bb.end == p then 1 else 0)
    decreases |entries|
  {
    if entries == [] {
      assert entries + [bb] == [bb];
    } else {
      assert (entries + [bb])[1..] == entries[1..] + [bb];
      CountEndAppend(entries[1..], bb, p);
    }
  }

  class BlockManager {
    /** bb_by_start */
    var byStart: map<Word, BasicBlock>
    /** bb_by_end, as its (end address, block) entries in insertion order */
    var byEnd: seq<BasicBlock>

    /**
     * Each block is filed under its own start address, and the two indexes
     * hold the same blocks: every end-index entry is the block cached at its
     * start, no start appears twice, and the sizes agree.
     */
    ghost predicate Valid()
      reads this
    {
      && (forall a | a in byStart :: byStart[a].start == a)
      && |byEnd| == |byStart|
      && (forall i | 0 <= i < |byEnd| :: byEnd[i].start in byStart && byStart[byEnd[i].start] == byEnd[i])
      && (forall i, j | 0 <= i < j < |byEnd| :: byEnd[i].start != byEnd[j].start)
    }

    constructor ()
      ensures Valid() && byStart == map[] && byEnd == []
    {
      byStart := map[];
      byEnd := [];
    }

    /** exists_by_start_addr */
    function ExistsByStartAddr(p: Word): bool
      reads this
    {
      p in byStart
    }

    /** find_by_start_addr: the caller must know the block exists. */
    function FindByStartAddr(p: Word): (bb: BasicBlock)
      reads this
      requires Valid() && ExistsByStartAddr(p)
      ensures bb.start == p
      ensures exists i | 0 <= i < |byEnd| :: byEnd[i] == bb
    {
      EntryOfCached(p);
      byStart[p]
    }

    /** exists_by_end_addr: the multimap count under p. */
    function ExistsByEndAddr(p: Word): nat
      reads this
    {
      CountEnd(byEnd, p)
    }

    /** Every cached block has its entry in the end index. */
    lemma EntryOfCached(p: Word)
      requires Valid() && p in byStart
      ensures exists i | 0 <= i < |byEnd| :: byEnd[i] == byStart[p]
    {
      var starts := set i | 0 <= i < |byEnd| :: byEnd[i].start;
      if p !in starts {
        // The end index then names |byEnd| distinct starts, all of them
        // keys other than p, which is one key too many.
        var keys := byStart.Keys - {p};
        assert starts <= keys;
        assert |keys| == |byStart| - 1;
        DistinctStarts(byEnd);
        assert |starts| == |byEnd|;
        SubsetCard(starts, keys);
        assert false;
      }
    }

    /**
     * add: a start address that is already cached aborts (ok is false and
     * nothing changes); otherwise the block is filed under both indexes.
     */
    method Add(bb: BasicBlock) returns (ok: bool)
      requires Valid()
      modifies this
      ensures Valid()
      ensures ok == !old(ExistsByStartAddr(bb.start))
      ensures ok ==> byStart == old(byStart)[bb.start := bb] && byEnd == old(byEnd) + [bb]
      ensures !ok ==> byStart == old(byStart) && byEnd == old(byEnd)
      ensures ok ==> ExistsByStartAddr(bb.start) && FindByStartAddr(bb.start) == bb
      ensures forall p :: ExistsByEndAddr(p) == old(ExistsByEndAddr(p)) + (if ok && p == bb.end then 1 else 0)
    {
      ok := bb.start !in byStart;
      if ok {
        forall p ensures CountEnd(byEnd + [bb], p) == CountEnd(byEnd, p) + (if bb.end == p then 1 else 0) {
          CountEndAppend(byEnd, bb, p);
        }
        var newStart := byStart[bb.start := bb];
        assert |newStart| == |byStart| + 1;
        byStart := newStart;
        byEnd := byEnd + [bb];
      }
    }

    /**
     * invalidate: the range is ignored and the whole cache is emptied, in
     * both indexes.
     */
    method Invalidate(from: Word, to: Word)
      modifies this
      ensures Valid() && byStart == map[] && byEnd == []
      ensures forall p :: !ExistsByStartAddr(p) && ExistsByEndAddr(p) == 0
    {
      byStart := map[];
      byEnd := [];
    }
  }

  /** Distinct start addresses in a list give as many addresses as entries. */
  lemma {:induction false} DistinctStarts(s: seq<BasicBlock>)
    requires forall i, j | 0 <= i < j < |s| :: s[i].start != s[j].start
    ensures |set i | 0 <= i < |s| :: s[i].start| == |s|
    decreases |s|
  {
    if s != [] {
      var n := |s| - 1;
      DistinctStarts(s[..n]);
      var front := set i | 0 <= i < n :: s[..n][i].start;
      var all := set i | 0 <= i < |s| :: s[i].start;
      assert all == front + {s[n].start};
      assert s[n].start !in front;
    }
  }

  lemma {:induction false} SubsetCard(a: set<Word>, b: set<Word>)
    requires a <= b
    ensures |a| <= |b|
    decreases |b|
  {
    if |a| > 0 {
      var x :| x in a;
      SubsetCard(a - {x}, b - {x});
    }
  }
}
