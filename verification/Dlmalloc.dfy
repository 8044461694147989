/** The allocator's global state and its operations. */
module Dlmalloc {
  import opened Words
  import opened BinMap
  import opened BinIndex
  import opened Chunk
  import opened Trie
  import opened TreeBins
  import opened TreeUnlink
  import opened TreeSearch
  import opened SmallBins
  import opened Tags
  import opened HeapState
  import opened HeapMoves
  import opened TagEdits
  import opened FreeSteps
  import opened MallocSteps
  import opened ReallocSteps
  import opened Policy
  import opened BinLines

  lemma UnlinkSmallStep(s: Snap, x: set<int>, n: Mem, smallmap: nat, small: seq<seq<int>>, p: int)
    requires Inv(s, x) && p in s.bs && SmallOk(n, smallmap, small, s.bs - {p}) && OnlySmallLinks(s.mem, n, s.bs.Keys)
    ensures Inv(s.(mem := n, smallmap := smallmap, small := small, bs := s.bs - {p}), x + {p})
    ensures Undisturbed(s.mem, n, s.h, s.top)
  {
    hide Rd, TagsOk, SmallOk, TreesOk, OnlySmallLinks, Undisturbed;
    SmallStep(s, x, n, smallmap, small, s.bs - {p}, s.bs, x + {p});
  }

  lemma UnlinkTreeStep(s: Snap, x: set<int>, n: Mem, treemap: nat, trees: seq<Tree>, p: int)
    requires Inv(s, x) && p in s.bt && TreesOk(n, treemap, trees, s.bt - {p}) && OnlyLinks(s.mem, n, s.bt.Keys)
    ensures Inv(s.(mem := n, treemap := treemap, trees := trees, bt := s.bt - {p}), x + {p})
    ensures Undisturbed(s.mem, n, s.h, s.top)
  {
    hide Rd, TagsOk, SmallOk, TreesOk, OnlyLinks, Undisturbed;
    TreeStep(s, x, n, treemap, trees, s.bt - {p}, s.bt, x + {p});
  }

  lemma CanInsertDetached(s: Snap, x: set<int>, p: int, size: int)
    requires Inv(s, x) && Detached(s, x, p, size)
    ensures size < MIN_LARGE ==> CanInsertSmall(s.mem, s.smallmap, s.small, s.bs, p, size)
    ensures size >= MIN_LARGE ==> CanInsert(s.mem, s.treemap, s.trees, s.bt, p, size)
  {
    hide Rd, TagsOk, SmallOk, TreesOk, ChunkSize;
    HeapBounds(s.mem, s.h, s.base, s.top, s.topsize);
    HeadFacts(s.mem, s.h, s.base, s.top, s.topsize, p);
    ChunkFacts(s.mem, s.h, s.base, s.top, s.topsize, p);
  }

  lemma InsertSmallStep(s: Snap, x: set<int>, n: Mem, smallmap: nat, small: seq<seq<int>>, bs: map<int, int>, p: int,
                        size: int)
    requires Inv(s, x) && Detached(s, x, p, size) && size < MIN_LARGE && bs == s.bs[p := size]
    requires SmallOk(n, smallmap, small, bs) && OnlySmallLinks(s.mem, n, s.bs.Keys + {p})
    ensures Inv(s.(mem := n, smallmap := smallmap, small := small, bs := bs), x - {p})
    ensures Undisturbed(s.mem, n, s.h, s.top)
  {
    hide Rd, TagsOk, SmallOk, TreesOk, OnlySmallLinks, Undisturbed;
    assert bs.Keys == s.bs.Keys + {p};
    SmallStep(s, x, n, smallmap, small, bs, bs, x - {p});
  }

  lemma InsertTreeStep(s: Snap, x: set<int>, n: Mem, treemap: nat, trees: seq<Tree>, bt: map<int, int>, p: int,
                       size: int)
    requires Inv(s, x) && Detached(s, x, p, size) && size >= MIN_LARGE && bt == s.bt[p := size]
    requires TreesOk(n, treemap, trees, bt) && OnlyLinks(s.mem, n, s.bt.Keys + {p})
    ensures Inv(s.(mem := n, treemap := treemap, trees := trees, bt := bt), x - {p})
    ensures Undisturbed(s.mem, n, s.h, s.top)
  {
    hide Rd, TagsOk, SmallOk, TreesOk, OnlyLinks, Undisturbed;
    assert bt.Keys == s.bt.Keys + {p};
    TreeStep(s, x, n, treemap, trees, bt, bt, x - {p});
  }

  /** A chunk in a bin is where its size says. */
  lemma BinOf(s: Snap, x: set<int>, p: int)
    requires Inv(s, x) && Binned(s.h, x, p)
    ensures if s.h[p].size < MIN_LARGE then p in s.bs && s.bs[p] == s.h[p].size else p in s.bt && s.bt[p] == s.h[p].size
    ensures SmallOk(s.mem, s.smallmap, s.small, s.bs) && TreesOk(s.mem, s.treemap, s.trees, s.bt)
  {
    hide TagsOk, SmallOk, TreesOk;
  }

  /** What the lines of chunks need to know. */
  lemma LineFacts(s: Snap, x: set<int>, p: int)
    requires Inv(s, x)
    ensures |s.small| == BINS && |s.trees| == TREEBINS && TreesOk(s.mem, s.treemap, s.trees, s.bt)
    ensures p in s.h ==> ChunkSizes(s.h[p].size) && p != 0
  {
    hide Rd, TagsOk, BinsMatch;
    HeapBounds(s.mem, s.h, s.base, s.top, s.topsize);
    if p in s.h { ChunkFacts(s.mem, s.h, s.base, s.top, s.topsize, p); }
  }

  /** The chunk that stands in the tree is the first in its line. */
  lemma TreeLine(s: Snap, dv: int, v: int)
    requires Inv(s, {dv}) && v in s.bt && Standing(s.mem, v)
    ensures v in s.h && s.h[v].size == s.bt[v] && v != dv && FirstInLine(s.small, s.trees, v, s.h[v].size)
  {
    hide Rd, TagsOk, SmallOk, TreesOk, FirstInLine, Standing, ChunkSizes;
    assert v in s.h && s.h[v].size == s.bt[v] && v != dv;
    LineFacts(s, {dv}, v);
    StandingFirst(s.mem, s.treemap, s.small, s.trees, s.bt, v);
  }

  lemma SelfUndisturbed(s: Snap)
    ensures Undisturbed(s.mem, s.mem, s.h, s.top)
  {
  }

  lemma NoDv(s: Snap, dv: int, dvsize: int, r: int)
    requires Inv(s, {dv, r}) && DvIs(s, dv, dvsize) && dvsize == 0 && r != dv
    ensures Inv(s, {r})
  {
    hide Inv;
    FreeSizes(s, {dv, r}, dv);
    Renamed(s, {dv, r}, {r});
  }

  lemma FreeSizes(s: Snap, x: set<int>, p: int)
    requires Inv(s, x)
    ensures p in s.h ==> s.h[p].size >= MIN_CHUNK && p >= LOWEST && p < s.top
  {
    hide Rd, TagsOk, SmallOk, TreesOk, BinsMatch;
    HeapBounds(s.mem, s.h, s.base, s.top, s.topsize);
  }

  lemma EmptyDv(s: Snap, p: int)
    requires Inv(s, {p} - {p})
    ensures Settled(s, 0, 0)
  {
    hide Inv;
    HeapLow(s, {p} - {p});
    Renamed(s, {p} - {p}, {0});
  }

  lemma FreeingDv(s: Snap, x: set<int>, dv: int, dvsize: int, p: int, p0: int, next: int)
    requires Freeing(s, x, dv, dvsize, p, p0, next)
    ensures dv != s.top && (dv != 0 ==> dv in s.h && !s.h[dv].used)
  {
    hide Inv;
    TopIsNoDv(s, x);
  }

  lemma TopIsNoDv(s: Snap, x: set<int>)
    requires Inv(s, x)
    ensures s.top !in s.h && s.top > 0
  {
    hide Rd, TagsOk, SmallOk, TreesOk, BinsMatch;
    HeapBounds(s.mem, s.h, s.base, s.top, s.topsize);
  }

  lemma OpenedSmall(s: Snap, dv: int)
    requires Inv(s, {dv})
    ensures SmallOk(s.mem, s.smallmap, s.small, s.bs)
  {
    hide TagsOk, SmallOk, TreesOk, BinsMatch;
  }

  lemma OpenedTrees(s: Snap, dv: int, dvsize: int)
    requires Settled(s, dv, dvsize)
    ensures TreesOk(s.mem, s.treemap, s.trees, s.bt) && 0 !in s.h && 0 <= dvsize < SIZE_LIMIT
  {
    hide Rd, TagsOk, SmallOk, TreesOk, BinsMatch;
    HeapBounds(s.mem, s.h, s.base, s.top, s.topsize);
  }

  lemma SmallMember(s: Snap, dv: int, p: int)
    requires Inv(s, {dv}) && p in s.bs
    ensures p in s.h && s.h[p] == Blk(s.bs[p], false) && p != dv
  {
    hide Rd, TagsOk, SmallOk, TreesOk;
  }

  lemma FreshHeap(s: Snap)
    requires LOWEST <= s.base == s.top && s.base % 16 == 0 && 0 < s.topsize < SIZE_LIMIT && s.topsize % 16 == 0
    requires s.h == map[] && s.bs == s.bt == map[] && s.smallmap == s.treemap == 0 && |s.small| == BINS
    requires |s.trees| == TREEBINS
    requires (forall i :: 0 <= i < BINS ==> s.small[i] == []) && (forall i :: 0 <= i < TREEBINS ==> s.trees[i] == Nil)
    requires Rd(s.mem, s.top + HEAD) == HeadOf(s.topsize, false, true) && forall i: nat ::
        i < TREEBINS ==> Rd(s.mem, TreebinAt(i)) == 0
    ensures Settled(s, 0, 0)
  {
    hide Rd, HeadOf, Bit;
    forall i: nat ensures !Bit(0, i) { NoBitsOfZero(i); }
  }

  const SYS_ALLOC_PADDING: int := TOP_FOOT_SIZE + 16
  const GRANULARITY: int := 4096

  /** granularity_align, in 64 bits */
  function GranularityAlign(n: int): int { (n + GRANULARITY - 1) % WORD / GRANULARITY * GRANULARITY }

  /** The wrap-around test of sys_alloc catches the impossible request and no request that could be met. */
  lemma Wraparound(nb: int, limit: int)
    requires MIN_CHUNK <= nb < WORD && limit < SIZE_LIMIT
    ensures nb == WORD - 1 ==> GranularityAlign((nb + SYS_ALLOC_PADDING) % WORD) <= nb
    ensures nb < limit ==> GranularityAlign((nb + SYS_ALLOC_PADDING) % WORD) > nb
  {
  }

  lemma Bounds(s: Snap, dv: int, dvsize: int)
    requires Settled(s, dv, dvsize)
    ensures LOWEST <= s.base <= s.top && 0 < s.topsize && 0 !in s.h && 0 <= dvsize < SIZE_LIMIT
    ensures s.topsize < SIZE_LIMIT && s.top !in s.h
    ensures s.topsize % 16 == 0
  {
    hide Rd, TagsOk, SmallOk, TreesOk, BinsMatch;
    HeapBounds(s.mem, s.h, s.base, s.top, s.topsize);
    HeapTop(s);
  }

  /** No chunk, and no top, is as large as the limit on the segment. */
  lemma TooLarge(s: Snap, dv: int, dvsize: int, grant: nat, nb: int)
    requires Settled(s, dv, dvsize) && s.top + s.topsize + grant - s.base < SIZE_LIMIT <= nb
    ensures nb > s.topsize + grant && forall q :: !Roomy(s.h, nb, q)
  {
    hide Rd, TagsOk, SmallOk, TreesOk, BinsMatch;
    HeapBounds(s.mem, s.h, s.base, s.top, s.topsize);
    forall q | q in s.h ensures s.h[q].size < SIZE_LIMIT { ChunkFacts(s.mem, s.h, s.base, s.top, s.topsize, q); }
  }

  lemma SelfKeeps(s: Snap)
    ensures Keeps(s, s, {})
  {
  }

  lemma ServedKept(s: Snap, t: Snap, u: Snap, nb: int, p: int)
    requires Keeps(s, t, {}) && t.h == s.h && t.base == s.base && Served(t, u, nb, p)
    ensures Served(s, u, nb, p)
  {
    hide Live, Keeps;
    KeepsAll(s, t, u);
  }

  lemma ServedFrom(s: Snap, t: Snap, dv: int, nb: int, p: int)
    requires Served(s, t, nb, p) && Chosen(s, dv, nb, p)
    ensures p > 0 && (p != s.top ==> Roomy(s.h, nb, p))
  {
    hide Live, Keeps;
  }

  lemma NoTreeFit(s: Snap, dv: int, dvsize: int, nb: int)
    requires Settled(s, dv, dvsize) && s.treemap == 0 && MIN_LARGE <= nb < WORD
    ensures if nb <= dvsize then dv != s.top && Chosen(s, dv, nb, dv) else forall q :: !Roomy(s.h, nb, q)
  {
    hide Inv, Chosen, Roomy;
    Bounds(s, dv, dvsize);
    NoTrees(s, dv);
    TreeOrDv(s, dv, dvsize, nb, 0, WORD - nb);
  }

  /** is_inuse tells a chunk in use from a free one by its head alone. */
  lemma UsageCheck(s: Snap, x: set<int>, p: int)
    requires Inv(s, x) && p in s.h
    ensures ChunkSize(Rd(s.mem, p + HEAD)) == s.h[p].size
    ensures !CInUse(Rd(s.mem, p + HEAD)) && PInUse(Rd(s.mem, p + HEAD)) <==> !s.h[p].used
  {
    hide Rd, TagsOk, SmallOk, TreesOk, BinsMatch, PInUse, CInUse, ChunkSize;
    HeadFacts(s.mem, s.h, s.base, s.top, s.topsize, p);
    if !s.h[p].used { FreeAfterUsed(s, p); }
  }

  lemma PartedUsed(s: Snap, t: Snap, p: int, c: int, e: int)
    requires Parted(s, t, p, c, e)
    ensures p in t.h && t.h[p] == Blk(c - p, true) && c in t.h && t.h[c] == Blk(e - c, true)
  {
    hide Live, Keeps, FrontKept;
  }

  lemma BeforeTop(s: Snap, x: set<int>, p: int, dv: int)
    requires Reach(s, x, p, s.top) && (dv == 0 || (dv in s.h && !s.h[dv].used)) && p + s.h[p].size == s.top
    ensures dv in s.h ==> dv < p
  {
    hide Rd, TagsOk, SmallOk, TreesOk, BinsMatch;
    HeapBounds(s.mem, s.h, s.base, s.top, s.topsize);
  }

  lemma ReachNext(s: Snap, x: set<int>, p: int, next: int, e: int)
    requires Inv(s, x) && p in s.h && s.h[p].used && next in x && next in s.h && !s.h[next].used && p < next < e
    requires e in s.h && s.h[e].used && forall q :: q in s.h && p < q < e ==> q == next
    ensures Reach(s, x, p, e) && Unbinned(s.h, x, p, e)
  {
    hide Inv;
  }

  lemma ReachDv(s: Snap, x: set<int>, p: int, e: int, dv: int)
    requires Reach(s, x, p, e) && e == p + s.h[p].size && (dv in s.h ==> !s.h[dv].used)
    ensures dv in s.h ==> !(p <= dv < e)
    ensures 0 < p
  {
    hide Rd, TagsOk, SmallOk, TreesOk, BinsMatch;
    HeapBounds(s.mem, s.h, s.base, s.top, s.topsize);
  }

  lemma ReachUnbinned(s: Snap, x: set<int>, p: int, e: int)
    requires Reach(s, x, p, e) && e == s.top
    ensures Unbinned(s.h, x, p, e)
  {
    hide Rd, TagsOk, SmallOk, TreesOk, BinsMatch;
    HeapBounds(s.mem, s.h, s.base, s.top, s.topsize);
  }

  /** A chunk that is big enough, with too little to spare for another chunk, stays as it is. */
  lemma Unresized(s: Snap, p: int, nb: int)
    requires p in s.h && s.h[p].used && nb <= s.h[p].size < nb + MIN_CHUNK
    ensures Resized(s, s, p, nb)
  {
    LiveIn(s.h, p);
  }

  /** In-place resizing has room: in the chunk itself, in top, or in the free chunk after it. */
  ghost predicate Extensible(s: Snap, p: int, nb: int)
    requires p in s.h
  {
    var size := s.h[p].size;
    var next := p + size;
    || size >= nb
    || (next == s.top && size + s.topsize > nb)
    || (next != s.top && next in s.h && !s.h[next].used && size + s.h[next].size >= nb)
  }

  /**
    Where dv is after the chunk in use from p0 to e was freed: it grows by a chunk that borders it, unless top takes
    both, and else it stays.
   */
  ghost predicate DvFreed(p0: int, e: int, top: int, dv0: int, dvsize0: int, dv: int, dvsize: int) {
    if dv0 != 0 && dv0 + dvsize0 == p0 then
      if e == top then dv == dvsize == 0 else dv == dv0 && dv + dvsize >= e
    else if dv0 == e then
      dv <= p0 && dv + dvsize == dv0 + dvsize0
    else
      dv == dv0 && dvsize == dvsize0
  }

  /** A free chunk that ends where p0 starts is the one that the foot before p0 tells of. */
  lemma DvBefore(s: Snap, dv: int, dvsize: int, p0: int)
    requires Settled(s, dv, dvsize) && dv != 0 && dv + dvsize == p0
    ensures !PInUse(Rd(s.mem, p0 + HEAD)) && Rd(s.mem, p0) == dvsize
  {
    hide Rd, TagsOk, SmallOk, TreesOk, BinsMatch, PInUse;
    ChunkFacts(s.mem, s.h, s.base, s.top, s.topsize, dv);
  }

  /**
    Where dv is after the chunk p was resized in place to nb bytes: if it follows p directly it moves with the end of p,
    and else it stays.
   */
  ghost predicate DvResized(p: int, size: int, nb: int, dv0: int, dvsize0: int, dv: int, dvsize: int) {
    var rest := size + dvsize0 - nb;
    if dv0 != p + size || nb <= size < nb + MIN_CHUNK then dv == dv0 && dvsize == dvsize0
    else if rest >= MIN_CHUNK then dv == p + nb && dvsize == rest
    else dv == dvsize == 0
  }

  lemma DvApart(s: Snap, dv: int, dvsize: int, p: int)
    requires Settled(s, dv, dvsize) && p in s.h && p != dv && dv != 0
    ensures dvsize > 0 && (dv + dvsize <= p || dv >= p + s.h[p].size)
  {
    hide Rd, TagsOk, SmallOk, TreesOk, BinsMatch, PInUse;
    ChunkFacts(s.mem, s.h, s.base, s.top, s.topsize, dv);
    ChunkFacts(s.mem, s.h, s.base, s.top, s.topsize, p);
  }

  /** If what is left of a split chunk is dv, then it is directly behind the chunk served. */
  lemma DvBehind(s: Snap, t: Snap, dv: int, dvsize: int, nb: int, p: int)
    requires Settled(t, dv, dvsize) && Served(s, t, nb, p) && nb >= MIN_CHUNK
    ensures p in Live(t.h) && (dv == p + nb ==> Live(t.h)[p] == nb)
  {
    hide Inv, Keeps;
    if dv == p + nb { DvApart(t, dv, dvsize, p); }
  }

  /** What was cut off p, followed by the old dv, is dv. */
  lemma DvTrimmed(s: Snap, dv0: int, dvsize0: int, t: Snap, dv: int, dvsize: int, p: int, nb: int)
    requires Settled(s, dv0, dvsize0) && p in s.h && s.h[p].used && s.h[p].size >= nb + MIN_CHUNK && p > 0
    requires Settled(t, dv, dvsize) && Resized(s, t, p, nb) && nb >= MIN_CHUNK
    requires DvFreed(p + nb, p + s.h[p].size, s.top, dv0, dvsize0, dv, dvsize)
    ensures DvResized(p, s.h[p].size, nb, dv0, dvsize0, dv, dvsize)
  {
    hide Inv, Keeps, FrontKept;
    if dv0 != 0 { DvApart(s, dv0, dvsize0, p); }
    if dv != 0 { DvApart(t, dv, dvsize, p); }
  }

  class Heap {
    var mem: Mem
    var smallmap: nat
    var treemap: nat
    var dv: int
    var dvsize: int
    var top: int
    var topsize: int
    const base: int
    ghost var h: Chunks
    ghost var small: seq<seq<int>>
    ghost var trees: seq<Tree>
    ghost var bs: map<int, int>
    ghost var bt: map<int, int>

    ghost function View(): Snap
      reads this
    {
      Snap(mem, smallmap, treemap, top, topsize, base, h, small, trees, bs, bt)
    }

    /** The state after the first sys_alloc: init_bins, then init_top over the whole segment. */
    constructor (segment: int, size: int)
      requires LOWEST <= segment && segment % 16 == 0 && 0 < size < SIZE_LIMIT && size % 16 == 0
      ensures Valid() && base == top == segment && topsize == size && h == map[]
    {
      base, top, topsize, dv, dvsize, smallmap, treemap := segment, segment, size, 0, 0, 0, 0;
      mem, h, bs, bt := map[], map[], map[], map[];
      small, trees := seq(BINS, i => []), seq(TREEBINS, i => Nil);
      new;
      for i := 0 to BINS
        invariant forall w :: w in mem ==> SmallSlot(w)
        invariant base == top == segment && topsize == size && dv == dvsize == 0 && smallmap == treemap == 0
        invariant h == map[] && bs == bt == map[]
        invariant |small| == BINS && |trees| == TREEBINS && (forall j :: 0 <= j < BINS ==> small[j] == [])
        invariant (forall j :: 0 <= j < TREEBINS ==> trees[j] == Nil)
      {
        var bin := SmallbinAt(i);
        mem := mem[bin + FD := bin][bin + BK := bin];
      }
      mem := mem[top + HEAD := HeadOf(topsize, false, true)][top + topsize + HEAD := TOP_FOOT_SIZE];
      FreshHeap(View());
    }

    /** unlink_chunk: takes p out of its bin and changes nothing else. */
    method UnlinkChunk(p: int, s: int, ghost x: set<int>)
      requires Inv(View(), x) && Binned(h, x, p) && h[p].size == s
      modifies `mem, `smallmap, `treemap, `small, `trees, `bs, `bt
      ensures Inv(View(), x + {p}) && Undisturbed(old(mem), mem, h, top)
      ensures Left(old(small), old(trees), small, trees, p, s)
    {
      hide Inv, Undisturbed, SmallOk, TreesOk, OnlyLinks, OnlySmallLinks, Left, Removed, TreeIndex, ChunkSizes;
      BinOf(View(), x, p);
      LineFacts(View(), x, p);
      if s < MIN_LARGE {
        var m, map32; ghost var l;
        m, map32, l := UnlinkSmall(mem, smallmap, p, s, small, bs);
        UnlinkSmallStep(View(), x, m, map32, l, p);
        SmallLeaves(small, trees, p, s);
        mem, smallmap, small, bs := m, map32, l, bs - {p};
      } else {
        var m, map32; ghost var l;
        m, map32, l := UnlinkLarge(mem, treemap, p, trees, bt);
        UnlinkTreeStep(View(), x, m, map32, l, p);
        LargeLeaves(mem, treemap, small, trees, bt, p);
        mem, treemap, trees, bt := m, map32, l, bt - {p};
      }
    }

    /** insert_chunk: puts the detached chunk p into the bin of its size and changes nothing else. */
    method InsertChunk(p: int, s: int, ghost x: set<int>)
      requires Inv(View(), x) && Detached(View(), x, p, s)
      modifies `mem, `smallmap, `treemap, `small, `trees, `bs, `bt
      ensures Inv(View(), x - {p}) && Undisturbed(old(mem), mem, h, top)
      ensures Joined(old(small), old(trees), small, trees, p, s)
    {
      hide Inv, Undisturbed, SmallOk, TreesOk, OnlyLinks, OnlySmallLinks, CanInsert, CanInsertSmall, Joined, Inserted,
           TreeIndex, ChunkSizes;
      CanInsertDetached(View(), x, p, s);
      LineFacts(View(), x, p);
      if s < MIN_LARGE {
        var m, map32; ghost var l;
        m, map32, l := InsertSmall(mem, smallmap, p, s, small, bs);
        InsertSmallStep(View(), x, m, map32, l, bs[p := s], p, s);
        SmallJoins(small, trees, p, s);
        mem, smallmap, small, bs := m, map32, l, bs[p := s];
      } else {
        var m, map32; ghost var l;
        m, map32, l := InsertLarge(mem, treemap, p, s, trees, bt);
        InsertTreeStep(View(), x, m, map32, l, bt[p := s], p, s);
        LargeJoins(mem, treemap, small, trees, bt, p, s);
        mem, treemap, trees, bt := m, map32, l, bt[p := s];
      }
    }

    ghost predicate Valid()
      reads this
    {
      Settled(View(), dv, dvsize)
    }

    /** Absorbs the free chunk next, which is neither top nor dv. */
    method MergeNext(p: int, psize: int, next: int, nsize: int, ghost p0: int)
      requires Freeing(View(), {dv, p}, dv, dvsize, p, p0, next) && psize == next - p
      requires next in h && h[next] == Blk(nsize, false) && next != dv && Binned(h, {dv, p}, next)
      requires Inv(View(), {dv, p})
      modifies this
      ensures Valid() && Dropped(old(View()), View(), p0)
      ensures dv == old(dv) && (if p == dv then dvsize >= psize else dvsize == old(dvsize))
    {
      hide Inv, Freeing, Dropped, Rd, PInUse, SetFree, DvIs, Undisturbed, Group;
      ghost var s := View();
      ghost var e := next + nsize;
      NextFree(s, {dv, p}, dv, dvsize, p, p0, next, nsize);
      UnlinkChunk(next, nsize, {dv, p});
      ghost var s1 := View();
      FreeingPast(s, s1, dv, dvsize, p, p0, next, e);
      var m := SetFree(mem, p, psize + nsize);
      PastFree(s1, dv, dvsize, p, p0, next, e, m);
      mem, h := m, WithOne(s1, m, p, e, false).h;
      DroppedAfter(s, s1, View(), p0);
      if p == dv {
        dvsize := psize + nsize;
      } else {
        Bin(p, psize + nsize, s, p0);
      }
    }

    /** The freed chunk, with its free predecessor, becomes part of top. */
    method MergeTop(p: int, psize: int, ghost p0: int)
      requires Freeing(View(), {dv, p}, dv, dvsize, p, p0, top) && psize == top - p
      modifies this
      ensures Valid() && Dropped(old(View()), View(), p0)
      ensures if p == old(dv) then dv == dvsize == 0 else dv == old(dv) && dvsize == old(dvsize)
    {
      hide Inv, Freeing, Dropped, Rd, HeadOf, DvIs, Replaced;
      var tsize := topsize + psize;
      var m := mem[p + HEAD := HeadOf(tsize, false, true)];
      ghost var t := WithTop(View(), m, p, p, map[]);
      IntoTop(View(), {dv, p}, dv, dvsize, p, p0, m);
      topsize, top, mem, h := tsize, p, m, t.h;
      if p == dv {
        dv, dvsize := 0, 0;
      }
    }

    /** The freed chunk, with its free predecessor, becomes the front of dv. */
    method MergeDv(p: int, psize: int, ghost p0: int)
      requires Freeing(View(), {dv, p}, dv, dvsize, p, p0, dv) && psize == dv - p
      modifies this
      ensures Valid() && Dropped(old(View()), View(), p0) && dv == p && dvsize == psize + old(dvsize)
    {
      hide Inv, Freeing, Dropped, SetFree, DvIs, Replaced;
      var dsize := dvsize + psize;
      var m := SetFree(mem, p, dsize);
      ghost var t := WithOne(View(), m, p, dv + dvsize, false);
      IntoDv(View(), {dv, p}, dv, dvsize, p, p0, m);
      dvsize, dv, mem, h := dsize, p, m, t.h;
    }

    /**
      The second half of free and of dispose_chunk: the stretch from p up to next, which holds the freed chunk p0,
      merges forward.
     */
    method MergeForward(p: int, psize: int, next: int, ghost p0: int)
      requires Freeing(View(), {dv, p}, dv, dvsize, p, p0, next) && psize == next - p
      requires p == dv ==> !CInUse(Rd(mem, next + HEAD))
      modifies this
      ensures Valid() && Dropped(old(View()), View(), p0)
      ensures next == old(dv) ==> dv == p && dvsize == psize + old(dvsize)
      ensures p == old(dv) != next ==> if next == old(top) then dv == dvsize == 0 else dv == p && dvsize >= psize
      ensures p != old(dv) && next != old(dv) ==> dv == old(dv) && dvsize == old(dvsize)
    {
      hide Inv, Freeing, Dropped, Rd, PInUse, CInUse, ChunkSize, SetFreeWithPInUse, Settled, DvIs, Replaced;
      ghost var s := View();
      NextFacts(s, {dv, p}, dv, dvsize, p, p0, next);
      FreeingDv(s, {dv, p}, dv, dvsize, p, p0, next);
      assert next >= LOWEST && PInUse(Rd(mem, next + HEAD));
      if !CInUse(Rd(mem, next + HEAD)) {
        if next == top {
          MergeTop(p, psize, p0);
        } else if next == dv {
          MergeDv(p, psize, p0);
        } else {
          NextFree(s, {dv, p}, dv, dvsize, p, p0, next, h[next].size);
          var nsize := ChunkSize(Rd(mem, next + HEAD));
          MergeNext(p, psize, next, nsize, p0);
        }
      } else {
        var m := SetFreeWithPInUse(mem, p, psize, next);
        ghost var t := WithOne(s, m, p, next, false);
        UpToUsed(s, {dv, p}, dv, dvsize, p, p0, next, m);
        mem, h := m, t.h;
        Bin(p, psize, s, p0);
      }
    }

    /** The last step of free: the merged chunk p goes into its bin. */
    method Bin(p: int, psize: int, ghost s: Snap, ghost p0: int)
      requires Inv(View(), {dv, p}) && DvIs(View(), dv, dvsize) && Detached(View(), {dv, p}, p, psize) && p != dv
      requires Dropped(s, View(), p0)
      modifies `mem, `smallmap, `treemap, `small, `trees, `bs, `bt
      ensures Valid() && Dropped(s, View(), p0)
    {
      hide Inv, Dropped, Undisturbed;
      ghost var t := View();
      InsertChunk(p, psize, {dv, p});
      assert {dv, p} - {p} == {dv};
      DroppedBefore(s, t, View(), p0);
    }

    /** dispose_chunk: the chunk p0, in use, becomes free and merges with its free neighbours. */
    method DisposeChunk(p0: int, psize0: int)
      requires Valid() && p0 in h && h[p0] == Blk(psize0, true)
      modifies this
      ensures Valid() && Dropped(old(View()), View(), p0)
      ensures DvFreed(p0, p0 + psize0, old(top), old(dv), old(dvsize), dv, dvsize)
    {
      hide Inv, Freeing, Ready, Dropped, Rd, PInUse, CInUse, SetFreeWithPInUse, HeadOf, Undisturbed;
      ghost var s := View();
      var p, psize := p0, psize0;
      var next := p + psize;
      FreeingStart(s, dv, dvsize, p0);
      if dv != 0 && dv + dvsize == p0 { DvBefore(s, dv, dvsize, p0); }
      if !PInUse(Rd(mem, p + HEAD)) {
        var prevsize := Rd(mem, p);
        psize := psize + prevsize;
        p := p - prevsize;
        assert p >= LOWEST;
        if p != dv {
          UnlinkChunk(p, prevsize, {dv});
          assert {dv} + {p} == {dv, p};
          FreeingUnlinked(s, View(), dv, dvsize, p, p0, next);
        } else {
          NextFacts(s, {dv, p}, dv, dvsize, p, p0, next);
          if CInUse(Rd(mem, next + HEAD)) && PInUse(Rd(mem, next + HEAD)) {
            var m := SetFreeWithPInUse(mem, p, psize, next);
            UpToUsed(s, {dv, p}, dv, dvsize, p, p0, next, m);
            dvsize, mem, h := psize, m, WithOne(s, m, p, next, false).h;
            return;
          }
        }
      }
      ghost var s1 := View();
      MergeForward(p, psize, next, p0);
      DroppedAfter(s, s1, View(), p0);
    }

    // ---- malloc ----

    /** set_inuse_and_pinuse on all of the detached chunk p. */
    method TakeWhole(p: int, size: int, ghost x: set<int>)
      requires Inv(View(), x) && Detached(View(), x, p, size)
      modifies `mem, `h
      ensures Inv(View(), x - {p}) && Gained(old(View()), View(), p, size) && Others(old(View()), View(), p)
    {
      hide Inv, Detached, Gained, Others, SetInUseAndPInUse, Replaced;
      var m := SetInUseAndPInUse(mem, p, size);
      UseWhole(View(), x, p, size, m);
      mem, h := m, WithOne(View(), m, p, p + size, true).h;
    }

    /** The first nb bytes of the detached chunk p come into use, the rest is a free chunk of its own. */
    method TakeFront(p: int, size: int, nb: int, ghost x: set<int>)
      requires Inv(View(), x) && Detached(View(), x, p, size) && MIN_CHUNK <= nb && nb % 16 == 0
      requires size - nb >= MIN_CHUNK
      modifies `mem, `h
      ensures Inv(View(), x - {p} + {p + nb}) && Gained(old(View()), View(), p, nb) && Others(old(View()), View(), p)
      ensures p + nb in h && h[p + nb] == Blk(size - nb, false) && p + nb !in old(h) && p + nb > 0
    {
      hide Inv, Detached, Gained, Others, SetInUseSize, SetFree, Replaced;
      var m := SetInUseSize(mem, p, nb);
      m := SetFree(m, p + nb, size - nb);
      UseFront(View(), x, p, size, nb, m);
      mem, h := m, WithTwo(View(), m, p, p + nb, p + size, false).h;
    }

    /** The end of tmalloc_large: what is left of the unlinked chunk v goes into a bin. */
    method CarveToBin(v: int, rsize: int, nb: int)
      requires Inv(View(), {dv, v}) && Detached(View(), {dv, v}, v, rsize + nb) && DvIs(View(), dv, dvsize) && v != dv
      requires MIN_CHUNK <= nb && nb % 16 == 0 && rsize >= 0
      modifies `mem, `h, `smallmap, `treemap, `small, `trees, `bs, `bt
      ensures Valid() && Served(old(View()), View(), nb, v)
    {
      hide Inv, Gained, Served, Undisturbed;
      ghost var s := View();
      if rsize < MIN_CHUNK {
        TakeWhole(v, rsize + nb, {dv, v});
        assert {dv, v} - {v} == {dv};
        ServedBy(s, View(), nb, v, rsize + nb);
      } else {
        var r := v + nb;
        TakeFront(v, rsize + nb, nb, {dv, v});
        ghost var t := View();
        ServedBy(s, t, nb, v, nb);
        InsertChunk(r, rsize, {dv, v} - {v} + {r});
        assert {dv, v} - {v} + {r} - {r} == {dv};
        ServedBefore(s, t, View(), nb, v);
      }
    }

    /** replace_dv: the old dv goes into its small bin, r becomes dv. */
    method ReplaceDv(r: int, rsize: int)
      requires Inv(View(), {dv, r}) && Detached(View(), {dv, r}, r, rsize) && DvIs(View(), dv, dvsize) && r != dv
      requires r != 0
      requires dvsize < MIN_LARGE
      modifies `mem, `smallmap, `treemap, `small, `trees, `bs, `bt, `dv, `dvsize
      ensures Valid() && Undisturbed(old(mem), mem, h, top) && dv == r && dvsize == rsize
    {
      hide Inv, Undisturbed;
      ghost var s := View();
      if dvsize != 0 {
        InsertChunk(dv, dvsize, {dv, r});
        assert {dv, r} - {dv} == {r};
      } else {
        NoDv(s, dv, dvsize, r);
        SelfUndisturbed(s);
      }
      dvsize := rsize;
      dv := r;
    }

    /** The end of tmalloc_small, and of a small request served from a bigger small bin. */
    method CarveToDv(v: int, rsize: int, nb: int)
      requires Inv(View(), {dv, v}) && Detached(View(), {dv, v}, v, rsize + nb) && DvIs(View(), dv, dvsize) && v != dv
      requires MIN_CHUNK <= nb < MIN_LARGE && nb % 16 == 0 && rsize >= 0 && dvsize < nb
      modifies `mem, `h, `smallmap, `treemap, `small, `trees, `bs, `bt, `dv, `dvsize
      ensures Valid() && Served(old(View()), View(), nb, v)
      ensures if rsize >= MIN_CHUNK then dv == v + nb && dvsize == rsize else dv == old(dv) && dvsize == old(dvsize)
    {
      hide Inv, Gained, Served, Undisturbed;
      ghost var s := View();
      if rsize < MIN_CHUNK {
        TakeWhole(v, rsize + nb, {dv, v});
        assert {dv, v} - {v} == {dv};
        ServedBy(s, View(), nb, v, rsize + nb);
      } else {
        var r := v + nb;
        TakeFront(v, rsize + nb, nb, {dv, v});
        ghost var t := View();
        ServedBy(s, t, nb, v, nb);
        assert {dv, v} - {v} + {r} == {dv, r};
        ReplaceDv(r, rsize);
        ServedBefore(s, t, View(), nb, v);
      }
    }

    /** Serves a request from dv: its front if enough is left over, else all of it. */
    method TakeDv(nb: int) returns (p: int)
      requires Valid() && MIN_CHUNK <= nb <= dvsize && nb % 16 == 0
      modifies `mem, `h, `dv, `dvsize
      ensures Valid() && p == old(dv) && Served(old(View()), View(), nb, p)
      ensures if old(dvsize) - nb >= MIN_CHUNK then dv == p + nb && dvsize == old(dvsize) - nb else dv == dvsize == 0
    {
      hide Inv, Gained, Served, SetInUseSize, SetFree, Replaced, Others;
      ghost var s := View();
      var rsize := dvsize - nb;
      p := dv;
      if rsize >= MIN_CHUNK {
        var r := p + nb;
        var m := SetFree(mem, r, rsize);
        m := SetInUseSize(m, p, nb);
        UseFront(s, {p}, p, dvsize, nb, m);
        dv, dvsize, mem, h := r, rsize, m, WithTwo(s, m, p, r, p + dvsize, false).h;
        assert {p} - {p} + {r} == {r};
        ServedBy(s, View(), nb, p, nb);
      } else {
        var dvs := dvsize;
        dvsize, dv := 0, 0;
        TakeWhole(p, dvs, {p});
        EmptyDv(View(), p);
        ServedBy(s, View(), nb, p, dvs);
      }
    }

    /** Serves a request from the front of top. */
    method TakeTop(nb: int) returns (p: int)
      requires Valid() && MIN_CHUNK <= nb < topsize && nb % 16 == 0
      modifies `mem, `h, `top, `topsize
      ensures Valid() && p == old(top) && Served(old(View()), View(), nb, p) && top + topsize == old(top + topsize)
    {
      hide Inv, Gained, Served, SetInUseSize, Replaced, HeadOf;
      ghost var s := View();
      var rsize := topsize - nb;
      p := top;
      var r := p + nb;
      var m := mem[r + HEAD := HeadOf(rsize, false, true)];
      m := SetInUseSize(m, p, nb);
      UseTop(s, {dv}, nb, m);
      topsize, top, mem, h := rsize, r, m, WithTop(s, m, p, r, One(p, r, true)).h;
      TopIsNoDv(s, {dv});
      ServedBy(s, View(), nb, p, nb);
    }

    /** unlink_first_small_chunk: takes the first chunk out of the marked small bin i. */
    method UnlinkFirst(i: nat) returns (p: int)
      requires Valid() && i < BINS && Bit(smallmap, i)
      modifies `mem, `smallmap, `small, `bs
      ensures Inv(View(), {dv, p}) && Detached(View(), {dv, p}, p, 8 * i) && Undisturbed(old(mem), mem, h, top)
      ensures p != dv
      ensures FirstInLine(old(small), old(trees), p, 8 * i) && Left(old(small), old(trees), small, trees, p, 8 * i)
    {
      hide Inv, Undisturbed, SmallOk, OnlySmallLinks, Bit, FirstInLine, Left, ChunkSizes;
      ghost var s := View();
      OpenedSmall(s, dv);
      var m, map32; ghost var l;
      m, map32, p, l := UnlinkFirstSmall(mem, smallmap, i, small, bs);
      UnlinkSmallStep(s, {dv}, m, map32, l, p);
      SmallMember(s, dv, p);
      LineFacts(s, {dv}, p);
      FirstLeaves(small, trees, i);
      mem, smallmap, small, bs := m, map32, l, bs - {p};
      assert {dv} + {p} == {dv, p};
    }

    /** tmalloc_large: serves a large request from a best-fitting tree chunk, unless dv fits as well. */
    method TMallocLarge(nb: int) returns (p: int)
      requires Valid() && MIN_LARGE <= nb < WORD && nb % 16 == 0
      modifies `mem, `h, `smallmap, `treemap, `small, `trees, `bs, `bt
      ensures Valid()
      ensures p != 0 ==> Served(old(View()), View(), nb, p) && p != old(top) && Chosen(old(View()), old(dv), nb, p)
      ensures p != 0 ==> p in old(h) && p != old(dv) && FirstInLine(old(small), old(trees), p, old(h)[p].size)
      ensures p == 0 ==> View() == old(View()) && dv == old(dv) && dvsize == old(dvsize)
      ensures p == 0 ==> if nb <= dvsize then dv != top && Chosen(View(), dv, nb, dv) else forall q :: !Roomy(h, nb, q)
    {
      hide Inv, Undisturbed, TreesOk, OnlyLinks, Chosen, AtMost, Served, FirstInLine, Left;
      ghost var s := View();
      OpenedTrees(s, dv, dvsize);
      var v, rsize := BestFit(mem, treemap, nb, trees, bt);
      TreeOrDv(s, dv, dvsize, nb, v, rsize);
      if v != 0 { TreeLine(s, dv, v); }
      if v != 0 && rsize < Sub64(dvsize, nb) {
        UnlinkTree(v, rsize + nb);
        ghost var t := View();
        CarveToBin(v, rsize, nb);
        ServedAfter(s, t, View(), nb, v);
        return v;
      }
      return 0;
    }

    /** unlink_large_chunk on a chunk of known size. */
    method UnlinkTree(v: int, size: int)
      requires Valid() && Binned(h, {dv}, v) && h[v].size == size >= MIN_LARGE
      modifies `mem, `treemap, `trees, `bt
      ensures Inv(View(), {dv, v}) && Detached(View(), {dv, v}, v, size) && Undisturbed(old(mem), mem, h, top)
      ensures Left(old(small), old(trees), small, trees, v, size)
    {
      hide Inv, Undisturbed, TreesOk, OnlyLinks, Left, Removed, TreeIndex, ChunkSizes;
      BinOf(View(), {dv}, v);
      LineFacts(View(), {dv}, v);
      var m, map32; ghost var l;
      m, map32, l := UnlinkLarge(mem, treemap, v, trees, bt);
      UnlinkTreeStep(View(), {dv}, m, map32, l, v);
      LargeLeaves(mem, treemap, small, trees, bt, v);
      mem, treemap, trees, bt := m, map32, l, bt - {v};
      assert {dv} + {v} == {dv, v};
    }

    /** tmalloc_small: serves a small request from the smallest tree chunk, the rest becomes dv. */
    method TMallocSmall(nb: int) returns (p: int)
      requires Valid() && SmallRequest(nb) && dvsize < nb && Shr(smallmap, nb / 8) == 0 && treemap != 0
      modifies `mem, `h, `smallmap, `treemap, `small, `trees, `bs, `bt, `dv, `dvsize
      ensures Valid() && p != 0 && Served(old(View()), View(), nb, p) && p != old(top)
      ensures Chosen(old(View()), old(dv), nb, p)
      ensures p in old(h) && p != old(dv) && FirstInLine(old(small), old(trees), p, old(h)[p].size)
      ensures old(h)[p].size - nb >= MIN_CHUNK ==> dv == p + nb && dvsize == old(h)[p].size - nb
      ensures old(h)[p].size - nb < MIN_CHUNK ==> dv == old(dv) && dvsize == old(dvsize)
    {
      hide Inv, Undisturbed, TreesOk, OnlyLinks, Chosen, Served, Shr, Binned;
      ghost var s := View();
      OpenedTrees(s, dv, dvsize);
      var v, rsize := SmallestTree(mem, treemap, nb, trees, bt);
      ChooseTree(s, dv, nb, v);
      TreeLine(s, dv, v);
      UnlinkTree(v, rsize + nb);
      ghost var t := View();
      CarveToDv(v, rsize, nb);
      ServedAfter(s, t, View(), nb, v);
      p := v;
    }

    /** A small request served from a bin or a tree; 0 leaves it to dv or top. */
    method MallocSmall(nb: int) returns (p: int)
      requires Valid() && SmallRequest(nb)
      modifies `mem, `h, `smallmap, `treemap, `small, `trees, `bs, `bt, `dv, `dvsize
      ensures Valid()
      ensures p != 0 ==> Served(old(View()), View(), nb, p) && p != old(top) && Chosen(old(View()), old(dv), nb, p)
      ensures p != 0 ==> p in old(h) && p != old(dv) && FirstInLine(old(small), old(trees), p, old(h)[p].size)
      ensures p != 0 && old(h)[p].size - nb >= MIN_CHUNK ==> dv == p + nb && dvsize == old(h)[p].size - nb
      ensures p != 0 && old(h)[p].size - nb < MIN_CHUNK ==> dv == old(dv) && dvsize == old(dvsize)
      ensures p == 0 ==> View() == old(View()) && dv == old(dv) && dvsize == old(dvsize)
      ensures p == 0 ==> if nb <= dvsize then dv != top && Chosen(View(), dv, nb, dv) else forall q :: !Roomy(h, nb, q)
    {
      hide Inv, Undisturbed, Chosen, Served, Shr, Shl, And, LeftBits, LeastBit, Bit2Idx, Idx2Bit, Bit, Not;
      ghost var s := View();
      var idx := SmallIndex(nb);
      BitMeans(s, dv, idx);
      OpenedTrees(s, dv, dvsize);
      var smallbits := Shr(smallmap, idx);
      p := 0;
      if And(smallbits, 3) != 0 {
        ExactBin(smallmap, idx);
        idx := idx + And(Not(smallbits), 1);
        p := UnlinkFirst(idx);
        ChooseExact(s, dv, nb, idx, p);
        CarveExact(s, p, 8 * idx);
      } else if nb > dvsize {
        if smallbits != 0 {
          NextSmallBin(smallmap, idx);
          var leftbits := And(Shl(smallbits, idx), LeftBits(Idx2Bit(idx)));
          var i := Bit2Idx(LeastBit(leftbits));
          p := UnlinkFirst(i);
          ChooseNext(s, dv, nb, i, p);
          ghost var t := View();
          CarveToDv(p, 8 * i - nb, nb);
          ServedAfter(s, t, View(), nb, p);
        } else if treemap != 0 {
          p := TMallocSmall(nb);
        } else {
          ChooseTop(s, dv, nb);
        }
      } else {
        ChooseDv(s, dv, nb);
      }
    }

    /** set_inuse_and_pinuse on a chunk of exactly the requested size. */
    method CarveExact(ghost s: Snap, p: int, nb: int)
      requires Inv(View(), {dv, p}) && Detached(View(), {dv, p}, p, nb) && DvIs(View(), dv, dvsize) && p != dv
      requires Undisturbed(s.mem, mem, s.h, s.top) && h == s.h && base == s.base
      modifies `mem, `h
      ensures Valid() && Served(s, View(), nb, p)
    {
      hide Inv, Gained, Served, Undisturbed;
      ghost var t := View();
      TakeWhole(p, nb, {dv, p});
      assert {dv, p} - {p} == {dv};
      ServedBy(t, View(), nb, p, nb);
      ServedAfter(s, t, View(), nb, p);
    }

    /** sys_alloc, where the system grants memory that borders top, or none. */
    method SysAlloc(nb: int, grant: nat) returns (p: int)
      requires Valid() && MIN_CHUNK <= nb < WORD && (nb % 16 == 0 || nb == WORD - 1)
      requires grant % 16 == 0 && top + topsize + grant - base < SIZE_LIMIT
      modifies `mem, `h, `top, `topsize
      ensures Valid()
      ensures p != 0 <==> nb % 16 == 0 && 0 < grant && nb < old(topsize) + grant
      ensures p != 0 ==> p == old(top) && Served(old(View()), View(), nb, p)
      ensures p == 0 ==> h == old(h) && Keeps(old(View()), View(), {})
      ensures top + topsize == old(top + topsize) || top + topsize == old(top + topsize) + grant
    {
      hide Inv, Served, Keeps, HeadOf;
      var asize := GranularityAlign((nb + SYS_ALLOC_PADDING) % WORD);
      p := 0;
      ghost var s := View();
      SelfKeeps(s);
      Bounds(s, dv, dvsize);
      Wraparound(nb, top + topsize - base + grant);
      if asize <= nb || grant == 0 {
        return;
      }
      var tsize := topsize + grant;
      var m := mem[top + HEAD := HeadOf(tsize, false, true)][top + tsize + HEAD := TOP_FOOT_SIZE];
      GrowTop(s, {dv}, grant, m);
      mem, topsize := m, tsize;
      ghost var t := View();
      if nb < topsize {
        p := TakeTop(nb);
        ServedKept(s, t, View(), nb, p);
      }
    }

    /** dlmalloc */
    method Malloc(bytes: nat, grant: nat) returns (ptr: int)
      requires Valid() && bytes < WORD && grant % 16 == 0 && top + topsize + grant - base < SIZE_LIMIT
      modifies this
      ensures Valid()
      ensures ptr != 0 <==>
        (exists q :: Roomy(old(h), Request2Size(bytes), q)) || Request2Size(bytes) < old(topsize) + grant
      ensures ptr != 0 ==> bytes < MAX_REQUEST
      ensures ptr != 0 ==>
        Served(old(View()), View(), Request2Size(bytes), ptr - FD)
            && Chosen(old(View()), old(dv), Request2Size(bytes), ptr - FD)
      ensures ptr != 0 ==> DvAfter(old(h), old(dv), old(dvsize), Request2Size(bytes), ptr - FD, dv, dvsize)
      ensures ptr != 0 && ptr - FD in old(h) && ptr - FD != old(dv) ==>
        FirstInLine(old(small), old(trees), ptr - FD, old(h)[ptr - FD].size)
      ensures ptr != 0 ==>
        var p, nb := ptr - FD, Request2Size(bytes);
        nb < MIN_LARGE && p in old(h) && old(h)[p].size >= nb + MIN_CHUNK ==> dv == p + nb && Live(h)[p] == nb
      ensures ptr == 0 ==> h == old(h) && Keeps(old(View()), View(), {}) && dv == old(dv) && dvsize == old(dvsize)
      ensures top + topsize == old(top + topsize) || top + topsize == old(top + topsize) + grant
    {
      hide Inv, Served, Keeps, Chosen, Roomy;
      ghost var s := View();
      var nb, p := WORD - 1, 0;
      if bytes <= MAX_SMALL_REQUEST {
        nb := if bytes < MIN_REQUEST then MIN_CHUNK else PadRequest(bytes);
        RequestSize(bytes);
        p := MallocSmall(nb);
      } else if bytes < MAX_REQUEST {
        nb := PadRequest(bytes);
        RequestSize(bytes);
        if treemap != 0 {
          p := TMallocLarge(nb);
        } else {
          NoTreeFit(s, dv, dvsize, nb);
        }
      } else {
        TooLarge(s, dv, dvsize, grant, Request2Size(bytes));
      }
      if p == 0 {
        p := MallocRest(nb, grant);
      } else {
        ServedFrom(s, View(), old(dv), nb, p);
      }
      if p != 0 { DvBehind(s, View(), dv, dvsize, nb, p); }
      ptr := if p == 0 then 0 else p + FD;
    }

    /** The end of dlmalloc: dv, then top, then the system. */
    method MallocRest(nb: int, grant: nat) returns (p: int)
      requires Valid() && MIN_CHUNK <= nb < WORD && (nb % 16 == 0 || nb == WORD - 1)
      requires grant % 16 == 0 && top + topsize + grant - base < SIZE_LIMIT
      requires nb % 16 == 0 ==> if nb <= dvsize
          then dv != top && Chosen(View(), dv, nb, dv) else forall q :: !Roomy(h, nb, q)
      modifies this
      ensures Valid()
      ensures p != 0 <==> nb % 16 == 0 && ((exists q :: Roomy(old(h), nb, q)) || nb < old(topsize) + grant)
      ensures p != 0 ==> p > 0 && Served(old(View()), View(), nb, p) && Chosen(old(View()), old(dv), nb, p)
      ensures p != 0 ==> DvAfter(old(h), old(dv), old(dvsize), nb, p, dv, dvsize) && (p in old(h) ==> p == old(dv))
      ensures p == 0 ==> h == old(h) && Keeps(old(View()), View(), {}) && dv == old(dv) && dvsize == old(dvsize)
      ensures top + topsize == old(top + topsize) || top + topsize == old(top + topsize) + grant
    {
      hide Inv, Served, Keeps;
      ghost var s := View();
      Bounds(s, dv, dvsize);
      TopIsNoDv(s, {dv});
      if nb <= dvsize {
        assert Roomy(h, nb, dv);
        p := TakeDv(nb);
      } else if nb < topsize {
        p := TakeTop(nb);
      } else {
        p := SysAlloc(nb, grant);
      }
      if p != 0 { ServedFrom(s, View(), old(dv), nb, p); }
    }

    // ---- free ----

    /** dlfree. The result says whether the usage check passed: it does just for null and chunks in use. */
    method Free(ptr: int) returns (ok: bool)
      requires Valid() && (ptr == 0 || ptr - FD < LOWEST || ptr - FD in h)
      modifies this
      ensures Valid()
      ensures ok <==> ptr == 0 || ptr - FD in old(Live(h))
      ensures ok && ptr != 0 ==> Dropped(old(View()), View(), ptr - FD)
      ensures ok && ptr != 0 ==>
        ptr - FD in old(h) && var p := ptr - FD;
        DvFreed(p, p + old(h)[p].size, old(top), old(dv), old(dvsize), dv, dvsize)
      ensures !ok || ptr == 0 ==> View() == old(View()) && dv == old(dv) && dvsize == old(dvsize)
    {
      hide Inv, Dropped, Rd, PInUse, CInUse, ChunkSize;
      ok := true;
      if ptr != 0 {
        var p := ptr - FD;
        Bounds(View(), dv, dvsize);
        if p < LOWEST {
          FreeSizes(View(), {dv}, p);
          return false;
        }
        UsageCheck(View(), {dv}, p);
        var head := Rd(mem, p + HEAD);
        if !CInUse(head) && PInUse(head) {
          return false;
        }
        DisposeChunk(p, ChunkSize(head));
      }
    }

    // ---- realloc and memalign ----

    /** set_inuse on both parts of the stretch from p to e, whose chunks but p are free and unlinked. */
    method PartOff(p: int, c: int, e: int, front: bool, ghost x: set<int>)
      requires Reach(View(), x, p, e) && p + MIN_CHUNK <= c && c + MIN_CHUNK <= e && c % 16 == 0
      requires DvIs(View(), dv, dvsize)
      requires dv in x && (forall q :: q in x ==> q == dv || p < q < e) && !(p <= dv < e)
      requires e == top || h[e].used || PBit(mem, e)
      modifies `mem, `h
      ensures Valid() && Parted(old(View()), View(), p, c, e)
    {
      hide Inv, Reach, Parted, SetInUse, Replaced, PBit;
      ghost var s := View();
      var m;
      if front {
        m := SetInUse(mem, p, c - p);
        m := SetInUse(m, c, e - c);
      } else {
        m := SetInUse(mem, c, e - c);
        m := SetInUse(m, p, c - p);
      }
      PartInUse(s, x, p, c, e, m);
      ghost var t := WithTwo(s, m, p, c, e, true);
      mem, h := m, t.h;
      PartedUsed(s, t, p, c, e);
      Renamed(t, x, {dv});
    }

    /** Splits off the remainder beyond nb bytes and frees it. */
    method Trim(p: int, nb: int, e: int, ghost x: set<int>)
      requires Reach(View(), x, p, e) && MIN_CHUNK <= nb && p + nb + MIN_CHUNK <= e && nb % 16 == 0 && p % 16 == 0
      requires DvIs(View(), dv, dvsize)
      requires dv in x && (forall q :: q in x ==> q == dv || p < q < e) && !(p <= dv < e) && p in h
      requires e == top || h[e].used || PBit(mem, e)
      modifies this
      ensures Valid() && Resized(old(View()), View(), p, nb)
      ensures DvFreed(p + nb, e, old(top), old(dv), old(dvsize), dv, dvsize)
    {
      hide Inv, Reach, Parted, PBit, Resized, Dropped, DvIs;
      ghost var s := View();
      PartOff(p, p + nb, e, true, x);
      ghost var t := View();
      PartedUsed(s, t, p, p + nb, e);
      DisposeChunk(p + nb, e - (p + nb));
      PartingResizes(s, t, View(), p, p + nb, e);
    }

    /** Extends p into top. */
    method GrowIntoTop(p: int, nb: int, oldsize: int)
      requires Valid() && Reach(View(), {dv}, p, top) && Unbinned(h, {dv}, p, top)
      requires h[p].size == oldsize < nb < oldsize + topsize && p + oldsize == top
      requires nb % 16 == 0 && p % 16 == 0 && p != dv
      modifies `mem, `h, `top, `topsize
      ensures Valid() && Resized(old(View()), View(), p, nb)
    {
      hide Inv, Reach, Regrown, SetInUse, Replaced, HeadOf, Resized, Unbinned;
      ghost var s := View();
      var newtopsize := oldsize + topsize - nb;
      var newtop := p + nb;
      var m := SetInUse(mem, p, nb);
      m := m[newtop + HEAD := HeadOf(newtopsize, false, true)];
      ghost var t := WithTop(s, m, p, newtop, One(p, newtop, true));
      ExtendTop(s, {dv}, p, newtop, m);
      BeforeTop(s, {dv}, p, dv);
      RegrownIsResized(s, t, p, nb, nb);
      mem, h, top, topsize := m, t.h, newtop, newtopsize;
    }

    /** Extends p into dv. */
    method GrowIntoDv(p: int, nb: int, oldsize: int)
      requires Valid() && Reach(View(), {dv}, p, dv + dvsize) && Unbinned(h, {dv}, p, dv + dvsize)
      requires h[p].size == oldsize < nb <= oldsize + dvsize && p + oldsize == dv
      requires dv + dvsize in h && h[dv + dvsize].used && nb % 16 == 0 && p % 16 == 0 && p > 0 && oldsize > 0
      modifies `mem, `h, `dv, `dvsize
      ensures Valid() && Resized(old(View()), View(), p, nb)
      ensures var rest := oldsize + old(dvsize) - nb;
              if rest >= MIN_CHUNK then dv == p + nb && dvsize == rest else dv == dvsize == 0
    {
      hide Inv, Reach, Regrown, SetInUse, SetFree, ClearPInUse, Replaced, Resized, Unbinned, OnlyOutside;
      ghost var s, e := View(), dv + dvsize;
      var dsize := oldsize + dvsize - nb;
      if dsize >= MIN_CHUNK {
        var r := p + nb;
        var m := SetInUse(mem, p, nb);
        m := SetFree(m, r, dsize);
        m := ClearPInUse(m, r + dsize);
        ghost var t := WithTwo(s, m, p, r, e, false);
        ExtendSplit(s, {dv}, p, r, e, m);
        Renamed(t, {dv} + {r}, {r});
        RegrownIsResized(s, t, p, nb, nb);
        mem, h, dvsize, dv := m, t.h, dsize, r;
      } else {
        var newsize := oldsize + dvsize;
        var m := SetInUse(mem, p, newsize);
        ghost var t := WithOne(s, m, p, e, true);
        ExtendWhole(s, {dv}, p, e, m);
        HeapLow(t, {dv});
        Renamed(t, {dv}, {0});
        RegrownIsResized(s, t, p, newsize, nb);
        mem, h, dvsize, dv := m, t.h, 0, 0;
      }
    }

    /** Extends p into the free chunk next, which is in a bin. */
    method GrowIntoNext(p: int, nb: int, oldsize: int, next: int, nextsize: int)
      requires Valid() && p in h && h[p] == Blk(oldsize, true) && next == p + oldsize && next in h
      requires h[next] == Blk(nextsize, false)
      requires next != dv && MIN_CHUNK <= oldsize < nb <= oldsize + nextsize && nb % 16 == 0 && p % 16 == 0
      modifies this
      ensures Valid() && Resized(old(View()), View(), p, nb) && dv == old(dv) && dvsize == old(dvsize)
    {
      hide Inv, Reach, Regrown, SetInUse, Replaced, Resized, Undisturbed, PBit, Rd, ChunkSize;
      ghost var s := View();
      var e := next + nextsize;
      ReallocNext(s, dv, dvsize, p, next, nextsize);
      FreeSizes(s, {dv}, p);
      if dv != 0 { DvApart(s, dv, dvsize, p); DvApart(s, dv, dvsize, next); }
      var rsize := oldsize + nextsize - nb;
      UnlinkChunk(next, nextsize, {dv});
      assert {dv} + {next} == {dv, next};
      ghost var s1 := View();
      ReachNext(s1, {dv, next}, p, next, e);
      if rsize < MIN_CHUNK {
        var newsize := oldsize + nextsize;
        var m := SetInUse(mem, p, newsize);
        ghost var t := WithOne(s1, m, p, e, true);
        ExtendWhole(s1, {dv, next}, p, e, m);
        Renamed(t, {dv, next}, {dv});
        RegrownIsResized(s1, t, p, newsize, nb);
        mem, h := m, t.h;
      } else {
        Trim(p, nb, e, {dv, next});
      }
      ResizedAfter(s, s1, View(), p, nb);
    }

    /** try_realloc_chunk: resizes p in place just when that is possible. */
    method TryRealloc(p: int, nb: int) returns (ok: bool)
      requires Valid() && p in Live(h) && MIN_CHUNK <= nb < WORD && nb % 16 == 0
      modifies this
      ensures Valid()
      ensures ok <==> Extensible(old(View()), p, nb)
      ensures ok ==> Resized(old(View()), View(), p, nb)
      ensures ok ==> DvResized(p, old(h)[p].size, nb, old(dv), old(dvsize), dv, dvsize)
      ensures !ok ==> View() == old(View()) && dv == old(dv) && dvsize == old(dvsize)
    {
      hide Inv, Reach, Resized, Rd, ChunkSize, CInUse, PBit, Unbinned, Live;
      ghost var s := View();
      LiveIn(h, p);
      ReallocStart(s, dv, dvsize, p);
      HeapLow(s, {dv});
      var oldsize := ChunkSize(Rd(mem, p + HEAD));
      var next := p + oldsize;
      ok := false;
      if oldsize >= nb {
        var rsize := oldsize - nb;
        ReachDv(s, {dv}, p, next, dv);
        if rsize >= MIN_CHUNK {
          Trim(p, nb, next, {dv});
          DvTrimmed(s, old(dv), old(dvsize), View(), dv, dvsize, p, nb);
        } else {
          Unresized(s, p, nb);
        }
        ok := true;
      } else if next == top {
        if oldsize + topsize > nb {
          ReachUnbinned(s, {dv}, p, next);
          GrowIntoTop(p, nb, oldsize);
          ok := true;
        }
      } else if next == dv {
        ReallocNext(s, dv, dvsize, p, next, dvsize);
        if oldsize + dvsize >= nb {
          ReachNext(s, {dv}, p, next, next + dvsize);
          GrowIntoDv(p, nb, oldsize);
          ok := true;
        }
      } else if !CInUse(Rd(mem, next + HEAD)) {
        ReallocNext(s, dv, dvsize, p, next, h[next].size);
        var nextsize := ChunkSize(Rd(mem, next + HEAD));
        if oldsize + nextsize >= nb {
          GrowIntoNext(p, nb, oldsize, next, nextsize);
          ok := true;
        }
      }
    }
  }
}
