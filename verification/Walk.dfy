/** The checker that walks the heap from its base by the sizes in the head words. */
module Walk {
  import opened Words
  import opened Chunk
  import opened TreeBins
  import opened SmallBins
  import opened Tags
  import opened HeapState
  import opened HeapMoves
  import opened FreeSteps
  import opened MallocSteps
  import opened Dlmalloc

  /** The walk has reached q after every chunk below it; last says whether the one just passed is in use. */
  ghost predicate Reached(s: Snap, q: int, last: bool, visited: set<int>) {
    && s.base <= q <= s.top && (q == s.top || q in s.h)
    && (forall p :: p in visited <==> p in s.h && p < q)
    && PBit(s.mem, q) == last
  }

  lemma WalkStart(s: Snap, dv: int, dvsize: int)
    requires Settled(s, dv, dvsize)
    ensures Reached(s, s.base, true, {})
  {
    hide Rd, SmallOk, TreesOk, BinsMatch, PInUse;
    HeapBounds(s.mem, s.h, s.base, s.top, s.topsize);
    if s.base == s.top { TopBit(s); } else { FirstBit(s); }
  }

  /** The first chunk has no free chunk before it. */
  lemma FirstBit(s: Snap)
    requires TagsOk(s.mem, s.h, s.base, s.top, s.topsize) && s.base in s.h
    ensures PBit(s.mem, s.base)
  {
    hide Rd, TagsOk, PInUse;
    ChunkFacts(s.mem, s.h, s.base, s.top, s.topsize, s.base);
    if !PBit(s.mem, s.base) { ChunkFacts(s.mem, s.h, s.base, s.top, s.topsize, s.base - Rd(s.mem, s.base)); }
  }

  lemma WalkStep(s: Snap, dv: int, dvsize: int, q: int, last: bool, visited: set<int>)
    requires Settled(s, dv, dvsize) && Reached(s, q, last, visited) && q != s.top
    ensures var size := ChunkSize(Rd(s.mem, q + HEAD));
            && size == s.h[q].size && size > 0
            && Reached(s, q + size, s.h[q].used, visited + {q})
            && (!CInUse(Rd(s.mem, q + HEAD)) && PInUse(Rd(s.mem, q + HEAD)) <==> !s.h[q].used)
            && (s.h[q].used ==> q != dv && q !in s.bs && q !in s.bt)
            && (!s.h[q].used ==> last && (q == dv || q in s.bs || q in s.bt))
  {
    hide Rd, TagsOk, SmallOk, TreesOk, PInUse, CInUse, ChunkSize;
    UsageCheck(s, {dv}, q);
    ChunkFacts(s.mem, s.h, s.base, s.top, s.topsize, q);
    HeapLow(s, {dv});
    if !s.h[q].used {
      FreeAfterUsed(s, q);
      if q != dv { assert Binned(s.h, {dv}, q); }
    }
  }

  /**
    traverse_and_check: every assertion it makes holds, it passes every chunk exactly once, and the sizes
    add up to the segment.
   */
  method Traverse(heap: Heap) returns (sum: int, ghost visited: set<int>)
    requires heap.Valid()
    ensures visited == heap.h.Keys
    ensures sum == heap.top + heap.topsize + TOP_FOOT_SIZE - heap.base
  {
    hide Inv, Rd, ChunkSize, CInUse, PInUse, PBit, DvIs;
    ghost var s := heap.View();
    sum := heap.topsize + TOP_FOOT_SIZE;
    var q, last := heap.base, true;
    visited := {};
    WalkStart(s, heap.dv, heap.dvsize);
    assert PInUse(Rd(heap.mem, q + HEAD)) by { BitSet(s, q); }
    while q != heap.top
      invariant Reached(s, q, last, visited) && sum == q - heap.base + heap.topsize + TOP_FOOT_SIZE
      decreases heap.top - q
    {
      WalkStep(s, heap.dv, heap.dvsize, q, last, visited);
      var head := Rd(heap.mem, q + HEAD);
      sum := sum + ChunkSize(head);
      if !(!CInUse(head) && PInUse(head)) {
        assert q !in heap.bs && q !in heap.bt;
        last := true;
      } else {
        assert q == heap.dv || q in heap.bs || q in heap.bt;
        assert last;
        last := false;
      }
      visited := visited + {q};
      q := q + ChunkSize(head);
    }
    AllBelow(s, heap.dv, heap.dvsize);
    assert forall p :: p in visited <==> p in heap.h.Keys;
  }

  lemma BitSet(s: Snap, q: int)
    requires Reached(s, q, true, {})
    ensures PInUse(Rd(s.mem, q + HEAD))
  {
  }

  lemma AllBelow(s: Snap, dv: int, dvsize: int)
    requires Settled(s, dv, dvsize)
    ensures forall p :: p in s.h ==> p < s.top
  {
    hide Rd, TagsOk, SmallOk, TreesOk, BinsMatch;
    HeapBounds(s.mem, s.h, s.base, s.top, s.topsize);
  }
}
