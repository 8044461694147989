/** Freeing a chunk: the neighbours it absorbs and the tags it writes. */
module FreeSteps {
  import opened Words
  import opened Chunk
  import opened TreeBins
  import opened SmallBins
  import opened Tags
  import opened HeapState
  import opened HeapMoves
  import opened TagEdits

  // ---- the head-word macros ----

  /** clear_pinuse */
  function ClearPInUse(m: Mem, p: int): Mem { m[p + HEAD := Rd(m, p + HEAD) - Rd(m, p + HEAD) % 2] }

  /** head |= PINUSE_BIT */
  function SetPInUse(m: Mem, p: int): Mem { m[p + HEAD := Rd(m, p + HEAD) - Rd(m, p + HEAD) % 2 + 1] }

  /** set_size_and_pinuse_of_free_chunk */
  function SetFree(m: Mem, p: int, s: int): Mem { m[p + HEAD := HeadOf(s, false, true)][p + s := s] }

  /** set_free_with_pinuse */
  function SetFreeWithPInUse(m: Mem, p: int, s: int, next: int): Mem { SetFree(ClearPInUse(m, next), p, s) }

  /** set_inuse */
  function SetInUse(m: Mem, p: int, s: int): Mem {
    SetPInUse(m[p + HEAD := HeadOf(s, true, PInUse(Rd(m, p + HEAD)))], p + s)
  }

  /** set_inuse_and_pinuse */
  function SetInUseAndPInUse(m: Mem, p: int, s: int): Mem { SetPInUse(m[p + HEAD := HeadOf(s, true, true)], p + s) }

  /** set_size_and_pinuse_of_inuse_chunk */
  function SetInUseSize(m: Mem, p: int, s: int): Mem { m[p + HEAD := HeadOf(s, true, true)] }

  lemma HeadParity(size: int, c: bool, p: bool)
    requires size % 16 == 0
    ensures var v := HeadOf(size, c, p); v - v % 2 == HeadOf(size, c, false) && v - v % 2 + 1 == HeadOf(size, c, true)
  {
    var k, f := size / 16, (if c then 2 else 0) + (if p then 1 else 0);
    assert HeadOf(size, c, p) == 16 * k + f;
    LowBitsOf(k, f);
  }

  /** What head says after either macro on a neighbour. */
  lemma NeighbourHead(s: Snap, x: set<int>, e: int)
    requires Inv(s, x) && e in s.h
    ensures Rd(ClearPInUse(s.mem, e), e + HEAD) == HeadOf(s.h[e].size, s.h[e].used, false)
    ensures Rd(SetPInUse(s.mem, e), e + HEAD) == HeadOf(s.h[e].size, s.h[e].used, true)
    ensures Rd(s.mem, e + HEAD) == HeadOf(s.h[e].size, s.h[e].used, PBit(s.mem, e))
  {
    hide Rd, TagsOk, SmallOk, TreesOk, BinsMatch, HeadOf;
    HeadFacts(s.mem, s.h, s.base, s.top, s.topsize, e);
    ChunkFacts(s.mem, s.h, s.base, s.top, s.topsize, e);
    HeadParity(s.h[e].size, s.h[e].used, PBit(s.mem, e));
    Stored(s.mem, e + HEAD, Rd(s.mem, e + HEAD) - Rd(s.mem, e + HEAD) % 2);
    Stored(s.mem, e + HEAD, Rd(s.mem, e + HEAD) - Rd(s.mem, e + HEAD) % 2 + 1);
  }

  lemma Stored(m: Mem, a: int, v: int)
    ensures Rd(m[a := v], a) == v
  {
  }

  // ---- absorbing free neighbours ----

  /** A free chunk outside the bins, with its size. */
  ghost predicate Detached(s: Snap, x: set<int>, p: int, size: int) {
    p in s.h && s.h[p] == Blk(size, false) && p in x
  }

  /** dv and dvsize agree with the chunks. */
  ghost predicate DvIs(s: Snap, dv: int, dvsize: int) {
    if dv == 0 then dvsize == 0 else dv in s.h && s.h[dv] == Blk(dvsize, false)
  }

  /** The invariant between operations: every free chunk but dv is in its bin. */
  ghost predicate Settled(s: Snap, dv: int, dvsize: int) { Inv(s, {dv}) && DvIs(s, dv, dvsize) }

  /** Chunk p0 is in use, and the other chunks from p up to e are free and out of the bins. */
  ghost predicate Group(s: Snap, x: set<int>, p: int, p0: int, e: int) {
    && Inv(s, x) && p in s.h && p <= p0 && p0 in s.h && s.h[p0].used && PBit(s.mem, p) && p0 < e
    && (forall q :: q in s.h && p <= q < e && q != p0 ==> !s.h[q].used && q in x)
  }

  /** p0 is gone, every other chunk in use is as it was. */
  ghost predicate Dropped(s: Snap, t: Snap, p0: int) {
    Live(t.h) == Live(s.h) - {p0} && Keeps(s, t, {p0}) && t.top + t.topsize == s.top + s.topsize
  }

  lemma GroupSpan(s: Snap, x: set<int>, p: int, p0: int, e: int)
    requires Group(s, x, p, p0, e)
    ensures Live(s.h) - Span(s.h, p, e) == Live(s.h) - {p0}
    ensures forall t :: Keeps(s, t, Span(s.h, p, e)) ==> Keeps(s, t, {p0})
  {
    hide Inv, PBit;
    assert forall q :: q in Live(s.h) && q in Span(s.h, p, e) ==> q == p0;
  }

  lemma MergeGroup(s: Snap, x: set<int>, n: Mem, p: int, p0: int, e: int)
    requires Group(s, x, p, p0, e) && e in s.h && s.h[e].used
    requires n == SetFreeWithPInUse(s.mem, p, e - p, e) || (n == SetFree(s.mem, p, e - p) && !PBit(s.mem, e))
    ensures var t := WithOne(s, n, p, e, false); Inv(t, x + {p}) && Dropped(s, t, p0) && t.h[p] == Blk(e - p, false)
  {
    hide TagsOk, SmallOk, TreesOk, BinsMatch, Inv, Keeps, Live, HeadOf, Span, PInUse;
    NeighbourHead(s, x, e);
    SpanFacts(s, x, p, e);
    GroupSpan(s, x, p, p0, e);
    Freed(s, x, n, p, e);
  }

  /** A chunk p0 about to be freed, with its free predecessor p, if any, already out of its bin. */
  ghost predicate Freeing(s: Snap, x: set<int>, dv: int, dvsize: int, p: int, p0: int, next: int) {
    && Inv(s, x) && x == {dv, p} && PBit(s.mem, p) && Ready(s, dv, dvsize, p, p0, next)
  }

  ghost predicate Ready(s: Snap, dv: int, dvsize: int, p: int, p0: int, next: int) {
    && p in s.h && p <= p0 && p0 in s.h && s.h[p0].used && (p != p0 ==> !s.h[p].used)
    && p0 < next == p0 + s.h[p0].size && DvIs(s, dv, dvsize)
    && (forall q :: q in s.h && p <= q < next ==> q == p || q == p0)
  }

  lemma {:induction false} FreeingStart(s: Snap, dv: int, dvsize: int, p0: int)
    requires Settled(s, dv, dvsize) && p0 in s.h && s.h[p0].used
    ensures Rd(s.mem, p0 + HEAD) == HeadOf(s.h[p0].size, true, PBit(s.mem, p0)) && p0 != dv
    ensures PBit(s.mem, p0) ==> Freeing(s, {dv, p0}, dv, dvsize, p0, p0, p0 + s.h[p0].size)
    ensures !PBit(s.mem, p0) ==>
      var p := p0 - Rd(s.mem, p0);
      && LOWEST <= p < p0 && p in s.h && s.h[p] == Blk(p0 - p, false)
      && (p != dv ==> Binned(s.h, {dv}, p))
      && Ready(s, dv, dvsize, p, p0, p0 + s.h[p0].size) && PBit(s.mem, p)
      && (p == dv ==> Freeing(s, {dv, p}, dv, dvsize, p, p0, p0 + s.h[p0].size))
  {
    hide Rd, TagsOk, SmallOk, TreesOk, BinsMatch, HeadOf, Inv, PInUse;
    Opened(s, {dv});
    HeadFacts(s.mem, s.h, s.base, s.top, s.topsize, p0);
    ChunkFacts(s.mem, s.h, s.base, s.top, s.topsize, p0);
    HeapBounds(s.mem, s.h, s.base, s.top, s.topsize);
    HeapLow(s, {dv});
    if PBit(s.mem, p0) {
      Renamed(s, {dv}, {dv, p0});
    } else {
      var p := p0 - Rd(s.mem, p0);
      FreeAfterUsed(s, p);
      if p == dv { assert {dv, p} == {dv}; }
    }
  }

  lemma Opened(s: Snap, x: set<int>)
    requires Inv(s, x)
    ensures TagsOk(s.mem, s.h, s.base, s.top, s.topsize) && BinsMatch(s.h, x, s.bs, s.bt)
  {
  }

  /** The chunk before a free chunk is in use. */
  lemma FreeAfterUsed(s: Snap, p: int)
    requires TagsOk(s.mem, s.h, s.base, s.top, s.topsize) && p in s.h && !s.h[p].used
    ensures PBit(s.mem, p)
  {
    hide Rd, TagsOk, PInUse;
    ChunkFacts(s.mem, s.h, s.base, s.top, s.topsize, p);
    if !PBit(s.mem, p) {
      var q := p - Rd(s.mem, p);
      ChunkFacts(s.mem, s.h, s.base, s.top, s.topsize, q);
    }
  }

  lemma FreeingUnlinked(s: Snap, t: Snap, dv: int, dvsize: int, p: int, p0: int, next: int)
    requires Ready(s, dv, dvsize, p, p0, next) && PBit(s.mem, p)
    requires Undisturbed(s.mem, t.mem, s.h, s.top) && t.h == s.h && Inv(t, {dv, p})
    ensures Freeing(t, {dv, p}, dv, dvsize, p, p0, next) && Keeps(s, t, {})
  {
    hide Rd, PInUse, Inv, SamePayload;
    assert SameTag(s.mem, t.mem, p);
  }

  /** What the chunk after the freed one looks like. */
  lemma NextFacts(s: Snap, x: set<int>, dv: int, dvsize: int, p: int, p0: int, next: int)
    requires Freeing(s, x, dv, dvsize, p, p0, next)
    ensures Inv(s, x) && LOWEST <= p <= p0 < next && PBit(s.mem, next) && (next == s.top || next in s.h)
    ensures CInUse(Rd(s.mem, next + HEAD)) <==> next != s.top && s.h[next].used
    ensures next != s.top && !s.h[next].used && next != dv ==> Binned(s.h, x, next)
  {
    hide Rd, TagsOk, SmallOk, TreesOk, BinsMatch, HeadOf, PInUse, CInUse, Inv;
    Opened(s, x);
    ChunkFacts(s.mem, s.h, s.base, s.top, s.topsize, p);
    ChunkFacts(s.mem, s.h, s.base, s.top, s.topsize, p0);
    assert LOWEST <= s.base by { HeapBounds(s.mem, s.h, s.base, s.top, s.topsize); }
    if next == s.top {
      HeapTop(s);
      HeadDecode(s.topsize, false, true);
    } else {
      HeadFacts(s.mem, s.h, s.base, s.top, s.topsize, next);
    }
  }

  /** The free chunk after the freed one, and the chunk in use after that. */
  lemma NextFree(s: Snap, x: set<int>, dv: int, dvsize: int, p: int, p0: int, next: int, size: int)
    requires Freeing(s, x, dv, dvsize, p, p0, next) && next in s.h && s.h[next] == Blk(size, false)
    ensures ChunkSize(Rd(s.mem, next + HEAD)) == size > 0 && p <= p0 < next
    ensures next + size in s.h && s.h[next + size].used && !PBit(s.mem, next + size)
    ensures forall q :: q in s.h && p <= q < next + size ==> q == p || q == p0 || q == next
  {
    hide Rd, TagsOk, SmallOk, TreesOk, BinsMatch, HeadOf, PInUse, CInUse, ChunkSize, Inv;
    Opened(s, x);
    HeadFacts(s.mem, s.h, s.base, s.top, s.topsize, next);
    ChunkFacts(s.mem, s.h, s.base, s.top, s.topsize, next);
  }

  /** The freed chunk borders top: both become top. */
  lemma IntoTop(s: Snap, x: set<int>, dv: int, dvsize: int, p: int, p0: int, n: Mem)
    requires Freeing(s, x, dv, dvsize, p, p0, s.top)
    requires n == s.mem[p + HEAD := HeadOf(s.topsize + (s.top - p), false, true)]
    ensures var t := WithTop(s, n, p, p, map[]);
            Settled(t, if p == dv then 0 else dv, if p == dv then 0 else dvsize) && Dropped(s, t, p0)
  {
    hide TagsOk, SmallOk, TreesOk, BinsMatch, Inv, Keeps, Live, HeadOf, Span, PInUse;
    TopFacts(s, x, p);
    GroupSpan(s, x, p, p0, s.top);
    TopFreed(s, x, n, p);
    HeapLow(s, x);
    Renamed(WithTop(s, n, p, p, map[]), x, {if p == dv then 0 else dv});
  }

  lemma HeapLow(s: Snap, x: set<int>)
    requires Inv(s, x)
    ensures 0 !in s.h
  {
    hide Rd, TagsOk, SmallOk, TreesOk, BinsMatch;
    HeapBounds(s.mem, s.h, s.base, s.top, s.topsize);
  }

  /** The freed chunk borders dv: both become dv. */
  lemma IntoDv(s: Snap, x: set<int>, dv: int, dvsize: int, p: int, p0: int, n: Mem)
    requires Freeing(s, x, dv, dvsize, p, p0, dv)
    requires n == SetFree(s.mem, p, dvsize + (dv - p))
    ensures var t := WithOne(s, n, p, dv + dvsize, false);
            Settled(t, p, dvsize + (dv - p)) && Dropped(s, t, p0)
  {
    hide Rd, TagsOk, SmallOk, TreesOk, BinsMatch, Inv, Keeps, Live, HeadOf, Span, PInUse, SetFree, Dropped;
    HeapLow(s, x);
    TopFacts(s, x, p);
    NextFacts(s, x, dv, dvsize, p, p0, dv);
    NextFree(s, x, dv, dvsize, p, p0, dv, dvsize);
    var e := dv + dvsize;
    MergeGroup(s, x, n, p, p0, e);
    Renamed(WithOne(s, n, p, e, false), x + {p}, {p});
  }

  /** The chunk after the freed one is in use. */
  lemma UpToUsed(s: Snap, x: set<int>, dv: int, dvsize: int, p: int, p0: int, next: int, n: Mem)
    requires Freeing(s, x, dv, dvsize, p, p0, next) && next in s.h && s.h[next].used
    requires n == SetFreeWithPInUse(s.mem, p, next - p, next)
    ensures var t := WithOne(s, n, p, next, false);
            && Dropped(s, t, p0)
            && if p == dv then Settled(t, dv, next - p)
                else Inv(t, {dv, p}) && DvIs(t, dv, dvsize) && Detached(t, {dv, p}, p, next - p)
  {
    hide Rd, TagsOk, SmallOk, TreesOk, BinsMatch, Inv, Keeps, Live, HeadOf, Span, PInUse, SetFreeWithPInUse, Dropped;
    MergeGroup(s, x, n, p, p0, next);
    assert x + {p} == {dv, p};
    HeapLow(s, x);
    if p == dv { assert {dv, p} == {dv}; }
  }

  /** The chunk after the freed one is free and already out of its bin. */
  lemma PastFree(s: Snap, dv: int, dvsize: int, p: int, p0: int, next: int, e: int, n: Mem)
    requires Group(s, {dv, p, next}, p, p0, e) && e in s.h && s.h[e].used && !PBit(s.mem, e) && DvIs(s, dv, dvsize)
    requires p <= p0 < next < e && next != dv && n == SetFree(s.mem, p, e - p)
    requires forall q :: q in s.h && p <= q < e ==> q == p || q == p0 || q == next
    ensures var t := WithOne(s, n, p, e, false);
            && Dropped(s, t, p0)
            && if p == dv then Settled(t, dv, e - p)
                else Inv(t, {dv, p}) && DvIs(t, dv, dvsize) && Detached(t, {dv, p}, p, e - p)
  {
    hide Rd, TagsOk, SmallOk, TreesOk, BinsMatch, Inv, Keeps, Live, HeadOf, Span, PInUse, SetFree, Dropped;
    MergeGroup(s, {dv, p, next}, n, p, p0, e);
    HeapLow(s, {dv, p, next});
    Renamed(WithOne(s, n, p, e, false), {dv, p, next} + {p}, if p == dv then {dv} else {dv, p});
  }

  lemma DroppedAfter(s: Snap, t: Snap, u: Snap, p0: int)
    requires Keeps(s, t, {}) && t.h == s.h && t.top + t.topsize == s.top + s.topsize && Dropped(t, u, p0)
    ensures Dropped(s, u, p0)
  {
    hide Keeps, Live;
    KeepsTrans(s, t, u, {}, {p0});
    assert {} + {p0} == {p0};
  }

  lemma DroppedBefore(s: Snap, t: Snap, u: Snap, p0: int)
    requires Dropped(s, t, p0) && Undisturbed(t.mem, u.mem, t.h, t.top) && u.h == t.h
    requires u.top + u.topsize == t.top + t.topsize
    ensures Dropped(s, u, p0)
  {
    hide Keeps, Live, Undisturbed;
    KeepsUndisturbed(t, u);
    KeepsTrans(s, t, u, {p0}, {});
    assert {p0} + {} == {p0};
  }

  lemma FreeingPast(s: Snap, t: Snap, dv: int, dvsize: int, p: int, p0: int, next: int, e: int)
    requires Freeing(s, {dv, p}, dv, dvsize, p, p0, next) && next in s.h && !s.h[next].used
    requires e in s.h && next < e && !PBit(s.mem, e) && forall q :: q in s.h && p <= q < e ==>
        q == p || q == p0 || q == next
    requires Undisturbed(s.mem, t.mem, s.h, s.top) && t.h == s.h && Inv(t, {dv, p} + {next})
    ensures Group(t, {dv, p, next}, p, p0, e) && !PBit(t.mem, e) && DvIs(t, dv, dvsize) && Keeps(s, t, {})
  {
    hide Rd, PInUse, Inv, SamePayload;
    assert SameTag(s.mem, t.mem, p) && SameTag(s.mem, t.mem, e);
    assert {dv, p} + {next} == {dv, p, next};
  }
}
