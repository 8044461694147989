/** Resizing a chunk in place: the tags it writes and the contents it keeps. */
module ReallocSteps {
  import opened Words
  import opened Chunk
  import opened TreeBins
  import opened SmallBins
  import opened Tags
  import opened HeapState
  import opened HeapMoves
  import opened TagEdits
  import opened FreeSteps

  /** The contents p had are still there, as far as both sizes go. */
  ghost predicate FrontKept(s: Snap, t: Snap, p: int) {
    p in s.h && p in t.h && forall w ::
        p + FD <= w < p + HEAD + Min(s.h[p].size, t.h[p].size) ==> Rd(t.mem, w) == Rd(s.mem, w)
  }

  /** p has a new size of at least nb bytes and less than a minimum chunk more; all else in use is as it was. */
  ghost predicate Resized(s: Snap, t: Snap, p: int, nb: int) {
    && p in Live(t.h) && Live(t.h) == Live(s.h)[p := Live(t.h)[p]] && nb <= Live(t.h)[p] < nb + MIN_CHUNK
    && Keeps(s, t, {p}) && FrontKept(s, t, p) && t.top + t.topsize == s.top + s.topsize
  }

  /** Chunk p is in use, and the other chunks up to e are free and out of the bins. */
  ghost predicate Reach(s: Snap, x: set<int>, p: int, e: int) {
    && Inv(s, x) && p in s.h && s.h[p].used && p < e && (e in s.h || e == s.top)
    && (forall q :: q in s.h && p < q < e ==> !s.h[q].used && q in x)
  }

  lemma ReachSpan(s: Snap, x: set<int>, p: int, e: int)
    requires Reach(s, x, p, e)
    ensures Live(s.h) - Span(s.h, p, e) == Live(s.h) - {p} && p in Live(s.h)
    ensures forall t :: Keeps(s, t, Span(s.h, p, e)) ==> Keeps(s, t, {p})
    ensures p + s.h[p].size <= e && p % 16 == 0 && e % 16 == 0 && s.top !in s.h && s.h[p].size >= MIN_CHUNK
    ensures Rd(s.mem, p + HEAD) == HeadOf(s.h[p].size, true, PBit(s.mem, p))
    ensures PInUse(Rd(s.mem, p + HEAD)) == PBit(s.mem, p)
    ensures Unbinned(s.h, x, p, e - 1)
  {
    hide Rd, TagsOk, SmallOk, TreesOk, BinsMatch, HeadOf, PInUse;
    SpanFacts(s, x, p, e);
    HeadFacts(s.mem, s.h, s.base, s.top, s.topsize, p);
    assert forall q :: q in Live(s.h) && q in Span(s.h, p, e) ==> q == p;
  }

  /** What e's head says after its previous-in-use bit is set. */
  lemma EndHead(s: Snap, x: set<int>, e: int)
    requires Inv(s, x) && (e in s.h || e == s.top)
    ensures var v := Rd(s.mem, e + HEAD) - Rd(s.mem, e + HEAD) % 2 + 1;
            && (e in s.h ==> v == HeadOf(s.h[e].size, s.h[e].used, true))
            && (PBit(s.mem, e) ==> v == Rd(s.mem, e + HEAD))
            && (e == s.top ==> PBit(s.mem, e))
  {
    hide Rd, TagsOk, SmallOk, TreesOk, BinsMatch;
    TopFacts(s, x, e);
    if e in s.h {
      HeadFacts(s.mem, s.h, s.base, s.top, s.topsize, e);
      ChunkFacts(s.mem, s.h, s.base, s.top, s.topsize, e);
      HeadParity(s.h[e].size, s.h[e].used, PBit(s.mem, e));
    }
  }

  /** p keeps its front, up to c, and the rest becomes a chunk in use of its own. */
  ghost predicate Parted(s: Snap, t: Snap, p: int, c: int, e: int) {
    && Live(t.h) == Live(s.h)[p := c - p][c := e - c] && c !in Live(s.h) && Keeps(s, t, {p}) && FrontKept(s, t, p)
    && p in t.h && t.h[p] == Blk(c - p, true) && c in t.h && t.h[c] == Blk(e - c, true)
    && t.top + t.topsize == s.top + s.topsize && t.base == s.base
  }

  /** set_inuse on both parts of the stretch from p to e, in either order. */
  lemma PartInUse(s: Snap, x: set<int>, p: int, c: int, e: int, n: Mem)
    requires Reach(s, x, p, e) && p + MIN_CHUNK <= c && c + MIN_CHUNK <= e && c % 16 == 0
    requires e == s.top || s.h[e].used || PBit(s.mem, e)
    requires n == SetInUse(SetInUse(s.mem, p, c - p), c, e - c) || n == SetInUse(SetInUse(s.mem, c, e - c), p, c - p)
    ensures var t := WithTwo(s, n, p, c, e, true); Inv(t, x) && Parted(s, t, p, c, e) && OnlyOutside(s, t, p, e)
    ensures forall q :: q in WithTwo(s, n, p, c, e, true).h ==> q <= p || q >= e || q == c
  {
    hide TagsOk, SmallOk, TreesOk, BinsMatch, Inv, Keeps, Live, HeadOf, Span, PInUse, Replaced;
    ReachSpan(s, x, p, e);
    EndHead(s, x, e);
    PartWords(s.mem, p, c, e, n);
    Halved(s, x, n, p, c, e);
    PartMap(s, n, p, c, e);
    TwoKeys(s, n, p, c, e);
  }

  lemma TwoKeys(s: Snap, n: Mem, p: int, c: int, e: int)
    ensures forall q :: q in WithTwo(s, n, p, c, e, true).h ==> q <= p || q >= e || q == c
  {
  }

  lemma PartMap(s: Snap, n: Mem, p: int, c: int, e: int)
    requires p in s.h && p < c < e && Live(s.h) - Span(s.h, p, e) == Live(s.h) - {p}
    requires AgreeBut(s.mem, n, {p + HEAD, c + HEAD, e + HEAD})
    ensures var t := WithTwo(s, n, p, c, e, true);
            && (Live(s.h) - Span(s.h, p, e))[p := c - p][c := e - c] == Live(s.h)[p := c - p][c := e - c]
            && p in t.h && t.h[p] == Blk(c - p, true) && c in t.h && t.h[c] == Blk(e - c, true) && FrontKept(s, t, p)
            && c !in Live(s.h) && OnlyOutside(s, t, p, e)
  {
    hide Rd, Live;
    assert c in Live(s.h) ==> c in Live(s.h) - {p} && c in s.h by { LiveIn(s.h, c); }
  }

  lemma LiveIn(h: Chunks, c: int)
    ensures c in Live(h) <==> c in h && h[c].used
    ensures c in Live(h) ==> Live(h)[c] == h[c].size
  {
  }

  lemma PartWords(m: Mem, p: int, c: int, e: int, n: Mem)
    requires p + MIN_CHUNK <= c && c + MIN_CHUNK <= e && (e - c) % 16 == 0
    requires n == SetInUse(SetInUse(m, p, c - p), c, e - c) || n == SetInUse(SetInUse(m, c, e - c), p, c - p)
    ensures Rd(n, p + HEAD) == HeadOf(c - p, true, PInUse(Rd(m, p + HEAD)))
    ensures Rd(n, c + HEAD) == HeadOf(e - c, true, true)
    ensures Rd(n, e + HEAD) == Rd(m, e + HEAD) - Rd(m, e + HEAD) % 2 + 1
    ensures AgreeBut(m, n, {p + HEAD, c + HEAD, e + HEAD})
  {
    hide HeadOf;
    HeadParity(e - c, true, PInUse(Rd(m, c + HEAD)));
    PSet(Rd(m, c + HEAD));
  }

  lemma PSet(v: int)
    ensures PInUse(v - v % 2 + 1)
  {
  }

  /** p has grown to the given size; all else in use is as it was. */
  ghost predicate Regrown(s: Snap, t: Snap, p: int, size: int) {
    && Live(t.h) == Live(s.h)[p := size] && Keeps(s, t, {p}) && FrontKept(s, t, p)
    && t.top + t.topsize == s.top + s.topsize
  }

  ghost predicate OnlyOutside(s: Snap, t: Snap, p: int, e: int) {
    forall q :: q in s.h && (q < p || q >= e) ==> q in t.h && t.h[q] == s.h[q]
  }

  /** p takes over every chunk up to the one in use at e. */
  lemma ExtendWhole(s: Snap, x: set<int>, p: int, e: int, n: Mem)
    requires Reach(s, x, p, e) && e in s.h && s.h[e].used && n == SetInUse(s.mem, p, e - p) && Unbinned(s.h, x, p, e)
    ensures var t := WithOne(s, n, p, e, true); Inv(t, x) && Regrown(s, t, p, e - p) && OnlyOutside(s, t, p, e)
    ensures forall q :: q in WithOne(s, n, p, e, true).h ==> q <= p || q >= e
  {
    hide TagsOk, SmallOk, TreesOk, BinsMatch, Inv, Keeps, Live, HeadOf, Span, PInUse;
    ReachSpan(s, x, p, e);
    EndHead(s, x, e);
    Taken(s, x, n, p, e);
    Over(Live(s.h), p, e - p);
  }

  lemma Over(m: map<int, int>, p: int, v: int)
    ensures (m - {p})[p := v] == m[p := v]
  {
  }

  /** p takes over the front of the stretch up to e, up to c, and the rest is one free chunk. */
  lemma ExtendSplit(s: Snap, x: set<int>, p: int, c: int, e: int, n: Mem)
    requires Reach(s, x, p, e) && e in s.h && s.h[e].used && Unbinned(s.h, x, p, e)
    requires p + s.h[p].size <= c && c + MIN_CHUNK <= e && c % 16 == 0
    requires n == ClearPInUse(SetFree(SetInUse(s.mem, p, c - p), c, e - c), e)
    ensures var t := WithTwo(s, n, p, c, e, false);
            Inv(t, x + {c}) && Regrown(s, t, p, c - p) && c in t.h && t.h[c] == Blk(e - c, false)
    ensures forall q :: q in WithTwo(s, n, p, c, e, false).h ==> q <= p || q >= e || q == c
  {
    hide TagsOk, SmallOk, TreesOk, BinsMatch, Inv, Keeps, Live, HeadOf, Span, PInUse;
    ReachSpan(s, x, p, e);
    NeighbourHead(s, x, e);
    SplitWords(s.mem, p, c, e, n);
    TakenSplit(s, x, n, p, c, e);
    Over(Live(s.h), p, c - p);
  }

  lemma SplitWords(m: Mem, p: int, c: int, e: int, n: Mem)
    requires p + MIN_CHUNK <= c && c + MIN_CHUNK <= e && n == ClearPInUse(SetFree(SetInUse(m, p, c - p), c, e - c), e)
    ensures Rd(n, p + HEAD) == HeadOf(c - p, true, PInUse(Rd(m, p + HEAD)))
    ensures Rd(n, c + HEAD) == HeadOf(e - c, false, true)
    ensures Rd(n, e) == e - c
    ensures Rd(n, e + HEAD) == Rd(ClearPInUse(m, e), e + HEAD)
    ensures AgreeBut(m, n, {p + HEAD, c + HEAD, e, e + HEAD})
  {
    hide HeadOf, PInUse;
  }

  /** p takes over the front of top, up to c. */
  lemma ExtendTop(s: Snap, x: set<int>, p: int, c: int, n: Mem)
    requires Reach(s, x, p, s.top) && Unbinned(s.h, x, p, s.top)
    requires p + s.h[p].size <= c < s.top + s.topsize && c % 16 == 0
    requires n == SetInUse(s.mem, p, c - p)[c + HEAD := HeadOf(s.top + s.topsize - c, false, true)]
    ensures var t := WithTop(s, n, p, c, One(p, c, true));
        Inv(t, x) && Regrown(s, t, p, c - p) && OnlyOutside(s, t, p, s.top)
  {
    hide TagsOk, SmallOk, TreesOk, BinsMatch, Inv, Keeps, Live, HeadOf, Span, PInUse;
    ReachSpan(s, x, p, s.top);
    TopTaken(s, x, n, p, c);
    Over(Live(s.h), p, c - p);
    TopFacts(s, x, s.top);
  }

  /** Parting off the tail and freeing it resizes p. */
  lemma PartingResizes(s: Snap, t: Snap, u: Snap, p: int, c: int, e: int)
    requires Parted(s, t, p, c, e) && Dropped(t, u, c) && p < c && p in s.h
    ensures Resized(s, u, p, c - p)
  {
    hide Rd, Live, Keeps;
    KeepsTrans(s, t, u, {p}, {c});
    KeepsFewer(s, u, p, c);
    PartedMap(Live(s.h), p, c - p, c, e - c);
    LiveIn(t.h, p);
    LiveIn(u.h, p);
    KeptPrefix(s, t, u, p, c);
  }

  lemma PartedMap(m: map<int, int>, p: int, v: int, c: int, w: int)
    requires p != c && c !in m
    ensures m[p := v][c := w] - {c} == m[p := v]
  {
  }

  lemma KeepsFewer(s: Snap, u: Snap, p: int, c: int)
    requires Keeps(s, u, {p} + {c}) && c !in Live(s.h)
    ensures Keeps(s, u, {p})
  {
    hide SamePayload;
  }

  lemma KeptPrefix(s: Snap, t: Snap, u: Snap, p: int, c: int)
    requires FrontKept(s, t, p) && p in t.h && t.h[p].used && p != c && Keeps(t, u, {c})
    ensures p in u.h && u.h[p] == t.h[p] && FrontKept(s, u, p)
  {
    hide Rd;
    assert SamePayload(t.mem, u.mem, t.h, p);
    forall w | p + FD <= w < p + HEAD + Min(s.h[p].size, t.h[p].size) ensures Rd(u.mem, w) == Rd(s.mem, w) {
      assert PayloadWord(t.h, p, w);
    }
  }

  /** Taking a neighbour out of its bin first makes no difference. */
  lemma ResizedAfter(s: Snap, t: Snap, u: Snap, p: int, nb: int)
    requires Undisturbed(s.mem, t.mem, s.h, s.top) && t.h == s.h && t.top + t.topsize == s.top + s.topsize
    requires Resized(t, u, p, nb) && p in s.h && s.h[p].used
    ensures Resized(s, u, p, nb)
  {
    hide Rd, Live, Keeps;
    KeepsUndisturbed(s, t);
    KeepsTrans(s, t, u, {}, {p});
    assert {} + {p} == {p};
    assert SamePayload(s.mem, t.mem, s.h, p);
    forall w | p + FD <= w < p + HEAD + Min(s.h[p].size, u.h[p].size) ensures Rd(u.mem, w) == Rd(s.mem, w) {
      assert PayloadWord(s.h, p, w);
    }
  }

  lemma RegrownIsResized(s: Snap, t: Snap, p: int, size: int, nb: int)
    requires Regrown(s, t, p, size) && nb <= size < nb + MIN_CHUNK
    ensures Resized(s, t, p, nb)
  {
    hide Live, Keeps, FrontKept;
  }

  /** The neighbourhood of a chunk in use. */
  lemma ReallocStart(s: Snap, dv: int, dvsize: int, p: int)
    requires Settled(s, dv, dvsize) && p in s.h && s.h[p].used
    ensures var next := p + s.h[p].size;
            && ChunkSize(Rd(s.mem, p + HEAD)) == s.h[p].size >= MIN_CHUNK && p >= LOWEST
            && (next == s.top || next in s.h) && PBit(s.mem, next) && Reach(s, {dv}, p, next)
            && (next != s.top ==> (CInUse(Rd(s.mem, next + HEAD)) <==> s.h[next].used))
            && next != 0 && s.top !in s.h && p != dv && p % 16 == 0 && Unbinned(s.h, {dv}, p, next - 1)
  {
    hide Rd, TagsOk, SmallOk, TreesOk, BinsMatch, HeadOf, PInUse, CInUse, ChunkSize;
    HeadFacts(s.mem, s.h, s.base, s.top, s.topsize, p);
    ChunkFacts(s.mem, s.h, s.base, s.top, s.topsize, p);
    assert LOWEST <= s.base && s.top !in s.h && 0 !in s.h by { HeapBounds(s.mem, s.h, s.base, s.top, s.topsize); }
    var next := p + s.h[p].size;
    if next != s.top { HeadFacts(s.mem, s.h, s.base, s.top, s.topsize, next); }
  }

  /** The free chunk after a chunk in use. */
  lemma ReallocNext(s: Snap, dv: int, dvsize: int, p: int, next: int, size: int)
    requires Settled(s, dv, dvsize) && p in s.h && s.h[p].used && next == p + s.h[p].size && next in s.h
    requires s.h[next] == Blk(size, false)
    ensures ChunkSize(Rd(s.mem, next + HEAD)) == size >= MIN_CHUNK && next + size in s.h && s.h[next + size].used
    ensures forall q :: q in s.h && p < q < next + size ==> q == next
    ensures next != dv ==> Binned(s.h, {dv}, next)
  {
    hide Rd, TagsOk, SmallOk, TreesOk, BinsMatch, HeadOf, PInUse, CInUse, ChunkSize;
    HeadFacts(s.mem, s.h, s.base, s.top, s.topsize, next);
    ChunkFacts(s.mem, s.h, s.base, s.top, s.topsize, next);
    ChunkFacts(s.mem, s.h, s.base, s.top, s.topsize, p);
  }
}
