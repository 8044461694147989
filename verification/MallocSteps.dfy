/** Allocating from one free chunk or from top: the tags it writes. */
module MallocSteps {
  import opened Words
  import opened Chunk
  import opened TreeBins
  import opened SmallBins
  import opened Tags
  import opened HeapState
  import opened HeapMoves
  import opened TagEdits
  import opened FreeSteps

  /** p, of the given size, is now in use as well, and every other chunk in use is as it was. */
  ghost predicate Gained(s: Snap, t: Snap, p: int, size: int) {
    && p !in Live(s.h) && Live(t.h) == Live(s.h)[p := size] && Keeps(s, t, {})
    && p % 16 == 0 && LOWEST <= p && s.base <= p && p + size <= t.top
  }

  /** The chunks other than p are as they were. */
  ghost predicate Others(s: Snap, t: Snap, p: int) {
    forall q :: q in s.h && q != p ==> q in t.h && t.h[q] == s.h[q]
  }

  lemma AloneSpan(s: Snap, x: set<int>, p: int, size: int)
    requires Inv(s, x) && Detached(s, x, p, size)
    ensures Live(s.h) - Span(s.h, p, p + size) == Live(s.h) && p !in Live(s.h)
    ensures forall t :: Keeps(s, t, Span(s.h, p, p + size)) ==> Keeps(s, t, {})
    ensures forall q :: q in s.h && q != p ==> q < p || q >= p + size
    ensures p + size in s.h && s.h[p + size].used && PBit(s.mem, p) && !PBit(s.mem, p + size)
    ensures p % 16 == 0 && size % 16 == 0 && LOWEST <= s.base <= p && p + size <= s.top
    ensures MIN_CHUNK <= size < SIZE_LIMIT
  {
    hide Rd, TagsOk, SmallOk, TreesOk, BinsMatch, PInUse;
    HeapBounds(s.mem, s.h, s.base, s.top, s.topsize);
    ChunkFacts(s.mem, s.h, s.base, s.top, s.topsize, p);
    FreeAfterUsed(s, p);
    assert forall q :: q in Live(s.h) ==> q !in Span(s.h, p, p + size);
    assert Live(s.h) - Span(s.h, p, p + size) == Live(s.h);
  }

  /** A detached chunk is taken whole. */
  lemma UseWhole(s: Snap, x: set<int>, p: int, size: int, n: Mem)
    requires Inv(s, x) && Detached(s, x, p, size) && n == SetInUseAndPInUse(s.mem, p, size)
    ensures var t := WithOne(s, n, p, p + size, true);
            Inv(t, x - {p}) && Gained(s, t, p, size) && Others(s, t, p)
  {
    hide TagsOk, SmallOk, TreesOk, BinsMatch, Inv, Keeps, Live, HeadOf, Span, PInUse;
    AloneSpan(s, x, p, size);
    NeighbourHead(s, x, p + size);
    Taken(s, x, n, p, p + size);
    Renamed(WithOne(s, n, p, p + size, true), x, x - {p});
  }

  /** The front of a detached chunk is taken, the rest stays free. */
  lemma UseFront(s: Snap, x: set<int>, p: int, size: int, nb: int, n: Mem)
    requires Inv(s, x) && Detached(s, x, p, size) && MIN_CHUNK <= nb && nb % 16 == 0 && size - nb >= MIN_CHUNK
    requires n == SetFree(SetInUseSize(s.mem, p, nb), p + nb, size - nb)
        || n == SetInUseSize(SetFree(s.mem, p + nb, size - nb), p, nb)
    ensures var t := WithTwo(s, n, p, p + nb, p + size, false);
            Inv(t, x - {p} + {p + nb}) && Gained(s, t, p, nb) && Others(s, t, p)
            && p + nb in t.h && t.h[p + nb] == Blk(size - nb, false) && p + nb !in s.h && p + nb > 0
  {
    hide TagsOk, SmallOk, TreesOk, BinsMatch, Inv, Keeps, Live, HeadOf, Span, PInUse;
    AloneSpan(s, x, p, size);
    NeighbourHead(s, x, p + size);
    TakenSplit(s, x, n, p, p + nb, p + size);
    Renamed(WithTwo(s, n, p, p + nb, p + size, false), x + {p + nb}, x - {p} + {p + nb});
  }

  /** The front of top is taken. */
  lemma UseTop(s: Snap, x: set<int>, nb: int, n: Mem)
    requires Inv(s, x) && MIN_CHUNK <= nb < s.topsize && nb % 16 == 0
    requires n == SetInUseSize(s.mem[s.top + nb + HEAD := HeadOf(s.topsize - nb, false, true)], s.top, nb)
    ensures var t := WithTop(s, n, s.top, s.top + nb, One(s.top, s.top + nb, true));
            Inv(t, x) && Gained(s, t, s.top, nb) && Others(s, t, s.top)
  {
    hide TagsOk, SmallOk, TreesOk, BinsMatch, Inv, Keeps, Live, HeadOf, PInUse;
    TopFacts(s, x, s.top);
    TopTaken(s, x, n, s.top, s.top + nb);
    assert Span(s.h, s.top, s.top) == {};
    TopNotLive(s, x);
  }

  lemma TopNotLive(s: Snap, x: set<int>)
    requires Inv(s, x)
    ensures s.top !in Live(s.h) && LOWEST <= s.base <= s.top
  {
    hide Rd, TagsOk, SmallOk, TreesOk, BinsMatch;
    HeapBounds(s.mem, s.h, s.base, s.top, s.topsize);
  }

  /** A request for nb bytes has been met by chunk p, with less than a minimum chunk to spare. */
  ghost predicate Served(s: Snap, t: Snap, nb: int, p: int) {
    p in Live(t.h) && nb <= Live(t.h)[p] < nb + MIN_CHUNK && Gained(s, t, p, Live(t.h)[p])
  }

  lemma ServedBy(s: Snap, t: Snap, nb: int, p: int, size: int)
    requires Gained(s, t, p, size) && nb <= size < nb + MIN_CHUNK
    ensures Served(s, t, nb, p)
  {
    hide Live, Keeps;
  }

  /** Bin operations before and after do not show. */
  lemma ServedAfter(s: Snap, t: Snap, u: Snap, nb: int, p: int)
    requires Undisturbed(s.mem, t.mem, s.h, s.top) && t.h == s.h && t.base == s.base && Served(t, u, nb, p)
    ensures Served(s, u, nb, p)
  {
    hide Live, Keeps, Undisturbed;
    KeepsUndisturbed(s, t);
    KeepsAll(s, t, u);
  }

  lemma ServedBefore(s: Snap, t: Snap, u: Snap, nb: int, p: int)
    requires Served(s, t, nb, p) && Undisturbed(t.mem, u.mem, t.h, t.top) && u.h == t.h && u.top == t.top
    ensures Served(s, u, nb, p)
  {
    hide Live, Keeps, Undisturbed;
    KeepsUndisturbed(t, u);
    KeepsAll(s, t, u);
  }

  // ---- request sizes ----

  const MIN_REQUEST: int := 23
  const MAX_SMALL_REQUEST: int := 232
  const MAX_REQUEST: int := WORD - 128

  /** pad_request: room for the head word, rounded up to the alignment. */
  function PadRequest(bytes: int): int { (bytes + 23) / 16 * 16 }

  /** request2size */
  function Request2Size(bytes: int): int { if bytes < MIN_REQUEST then MIN_CHUNK else PadRequest(bytes) }

  /** The least chunk size that is a multiple of 16, at least the minimum, and leaves bytes of payload. */
  lemma RequestSize(bytes: int)
    requires 0 <= bytes < MAX_REQUEST
    ensures var nb := Request2Size(bytes);
            && nb % 16 == 0 && MIN_CHUNK <= nb < WORD && bytes + HEAD <= nb
            && (forall n :: n % 16 == 0 && n >= MIN_CHUNK && n >= bytes + HEAD ==> nb <= n)
            && (bytes <= MAX_SMALL_REQUEST <==> nb < MIN_LARGE)
  {
  }

  // ---- growing top ----

  const TOP_FOOT_SIZE: int := 80

  /** init_top over the extended segment. */
  lemma GrowTop(s: Snap, x: set<int>, grant: int, n: Mem)
    requires Inv(s, x) && grant >= 0 && grant % 16 == 0 && s.top + s.topsize + grant - s.base < SIZE_LIMIT
    requires n == s.mem[s.top + HEAD := HeadOf(s.topsize + grant, false, true)]
                       [s.top + s.topsize + grant + HEAD := TOP_FOOT_SIZE]
    ensures var t := s.(mem := n, topsize := s.topsize + grant); Inv(t, x) && Keeps(s, t, {})
  {
    TopFacts(s, x, s.top);
    hide TagsOk, SmallOk, TreesOk, BinsMatch, HeadOf, PInUse;
    assert AgreeBut(s.mem, n, {s.top + HEAD, s.top + s.topsize + grant + HEAD});
    assert Rd(n, s.top + HEAD) == HeadOf(s.topsize + grant, false, true);
    GrowTopWords(s, x, s.topsize + grant, n);
  }

  lemma GrowTopWords(s: Snap, x: set<int>, topsize: int, n: Mem)
    requires Inv(s, x) && topsize > 0 && topsize % 16 == 0 && s.top + topsize - s.base < SIZE_LIMIT
    requires Rd(n, s.top + HEAD) == HeadOf(topsize, false, true)
    requires AgreeBut(s.mem, n, {s.top + HEAD, s.top + topsize + HEAD})
    ensures var t := s.(mem := n, topsize := topsize); Inv(t, x) && Keeps(s, t, {})
  {
    hide Rd, TagsOk, SmallOk, TreesOk, HeadOf, PInUse;
    TopFacts(s, x, s.top);
    HeadBit(topsize, false, true);
    assert Replaced(s.h, s.top, s.top, map[]) == s.h;
    RetileTop(s.mem, n, s.h, s.h, s.base, s.top, s.topsize, s.top, s.top, topsize, map[]);
    BinsLocal(s, x, n, s.top, s.top);
    HeapBounds(s.mem, s.h, s.base, s.top, s.topsize);
  }
}
