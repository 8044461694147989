/** Changes to the boundary tags of a whole heap: one stretch of chunks becomes one or two others. */
module HeapMoves {
  import opened Words
  import opened Chunk
  import opened TreeBins
  import opened SmallBins
  import opened Tags
  import opened HeapState

  /** The chunks in use outside d are still in use, with the same size and the same payload. */
  ghost predicate Keeps(s: Snap, t: Snap, d: set<int>) {
    forall q :: q in s.h && s.h[q].used && q !in d ==> q in t.h && t.h[q] == s.h[q] && SamePayload(s.mem, t.mem, s.h, q)
  }

  lemma KeepsTrans(s: Snap, t: Snap, u: Snap, d: set<int>, d': set<int>)
    requires Keeps(s, t, d) && Keeps(t, u, d')
    ensures Keeps(s, u, d + d')
  {
    hide Rd;
    forall q | q in s.h && s.h[q].used && q !in d + d'
      ensures q in u.h && u.h[q] == s.h[q] && SamePayload(s.mem, u.mem, s.h, q)
    {
      forall w | PayloadWord(s.h, q, w) ensures Rd(u.mem, w) == Rd(s.mem, w) { assert PayloadWord(t.h, q, w); }
    }
  }

  lemma KeepsAll(s: Snap, t: Snap, u: Snap)
    requires Keeps(s, t, {}) && Keeps(t, u, {})
    ensures Keeps(s, u, {})
  {
    hide Keeps;
    var none: set<int> := {};
    KeepsTrans(s, t, u, none, none);
    assert none + none == none;
  }

  lemma KeepsUndisturbed(s: Snap, t: Snap)
    requires Undisturbed(s.mem, t.mem, s.h, s.top) && t.h == s.h
    ensures Keeps(s, t, {})
  {
    hide SamePayload;
  }

  /** Free chunks outside the bins may be named by any set that agrees on free chunks. */
  lemma Renamed(s: Snap, x: set<int>, x': set<int>)
    requires Inv(s, x) && forall p :: p in s.h && !s.h[p].used ==> (p in x <==> p in x')
    ensures Inv(s, x')
  {
    hide TagsOk, SmallOk, TreesOk;
  }

  /** The chunks of k that are free, and those of x outside [a, e). */
  ghost function Loose(x: set<int>, a: int, e: int, k: Chunks): set<int> {
    (set p | p in x && !(a <= p < e)) + (set p | p in k && !k[p].used)
  }

  lemma LooseBins(s: Snap, x: set<int>, n: Mem, a: int, e: int, k: Chunks)
    requires BinsMatch(s.h, x, s.bs, s.bt) && ClearOfBins(s, x, n, a, e) && forall p :: p in k ==> a <= p
    requires forall p :: p in k ==> p < e || p !in s.h
    ensures BinsMatch(Replaced(s.h, a, e, k), Loose(x, a, e, k), s.bs, s.bt)
  {
    hide Rd;
    var h' := Replaced(s.h, a, e, k);
    forall p ensures Binned(h', Loose(x, a, e, k), p) <==> Binned(s.h, x, p) {
    }
  }

  ghost predicate Movable(s: Snap, x: set<int>, n: Mem, a: int, e: int) {
    && Inv(s, x) && a in s.h && a < e && (e == s.top || e in s.h)
    && Local(s.mem, n, a, e) && ClearOfBins(s, x, n, a, e)
  }

  lemma MoveInv(s: Snap, x: set<int>, n: Mem, a: int, e: int, k: Chunks)
    requires Movable(s, x, n, a, e) && Tiles(k, a, e)
    requires TagsOk(n, Replaced(s.h, a, e, k), s.base, s.top, s.topsize)
    ensures Inv(s.(mem := n, h := Replaced(s.h, a, e, k)), Loose(x, a, e, k))
  {
    hide Rd, TagsOk, SmallOk, TreesOk, BinsMatch;
    TileBounds(k, a, e);
    BinsLocal(s, x, n, a, e);
    LooseBins(s, x, n, a, e, k);
  }

  /** The set of chunk addresses in [a, e). */
  ghost function Span(h: Chunks, a: int, e: int): set<int> { set p | p in h && a <= p < e }

  lemma MoveKeeps(s: Snap, x: set<int>, n: Mem, a: int, e: int, k: Chunks)
    requires Movable(s, x, n, a, e) && Tiles(k, a, e)
    ensures Keeps(s, s.(mem := n, h := Replaced(s.h, a, e, k)), Span(s.h, a, e))
  {
    hide Rd, SmallOk, TreesOk, BinsMatch, TagsOk, ClearOfBins;
    TileBounds(k, a, e);
    HeapBounds(s.mem, s.h, s.base, s.top, s.topsize);
  }

  /** What the words at the far end e say after a chunk of the given size and state now ends there. */
  ghost predicate EndOk(s: Snap, n: Mem, e: int, size: int, used: bool) {
    if e == s.top then
      used && Rd(n, e + HEAD) == Rd(s.mem, e + HEAD)
    else
      && e in s.h && Rd(n, e + HEAD) == HeadOf(s.h[e].size, s.h[e].used, used)
      && (!used ==> Rd(n, e) == size && s.h[e].used)
  }

  ghost function One(a: int, e: int, used: bool): Chunks { map[a := Blk(e - a, used)] }

  /** The chunks in [a, e) become one chunk. */
  lemma MoveOne(s: Snap, x: set<int>, n: Mem, a: int, e: int, used: bool)
    requires Movable(s, x, n, a, e)
    requires Rd(n, a + HEAD) == HeadOf(e - a, used, PBit(s.mem, a)) && (used || PBit(s.mem, a))
    requires EndOk(s, n, e, e - a, used)
    ensures Tiles(One(a, e, used), a, e)
    ensures Inv(s.(mem := n, h := Replaced(s.h, a, e, One(a, e, used))), Loose(x, a, e, One(a, e, used)))
  {
    hide Rd, SmallOk, TreesOk, BinsMatch, TagsOk, ClearOfBins, PInUse, HeadOf;
    var k := One(a, e, used);
    var h' := Replaced(s.h, a, e, k);
    ChunkFacts(s.mem, s.h, s.base, s.top, s.topsize, a);
    EndFacts(s, e);
    assert Tiles(k, a, e);
    HeadBit(e - a, used, PBit(s.mem, a));
    EndBit(s, n, e, e - a, used);
    if !PBit(s.mem, a) { BackKept(s, n, a, e, k); }
    assert TagOk(n, h', a);
    Retile(s.mem, n, s.h, h', s.base, s.top, s.topsize, a, e, k);
    MoveInv(s, x, n, a, e, k);
  }

  lemma EndFacts(s: Snap, e: int)
    requires TagsOk(s.mem, s.h, s.base, s.top, s.topsize) && (e == s.top || e in s.h)
    ensures e % 16 == 0 && (e in s.h ==> s.h[e].size % 16 == 0)
    ensures forall p :: p in s.h && p < e ==> p + MIN_CHUNK <= p + s.h[p].size <= e
  {
    hide Rd, TagsOk;
    assert s.top % 16 == 0 by { HeapTop(s); }
    HeapBounds(s.mem, s.h, s.base, s.top, s.topsize);
    if e in s.h { ChunkFacts(s.mem, s.h, s.base, s.top, s.topsize, e); }
  }

  lemma HeapTop(s: Snap)
    requires TagsOk(s.mem, s.h, s.base, s.top, s.topsize)
    ensures s.top % 16 == 0 && s.topsize % 16 == 0 && s.top !in s.h && s.topsize > 0
    ensures Rd(s.mem, s.top + HEAD) == HeadOf(s.topsize, false, true)
  {
    hide Rd;
    HeapBounds(s.mem, s.h, s.base, s.top, s.topsize);
  }

  lemma HeadBit(size: int, used: bool, p: bool)
    requires size % 16 == 0
    ensures PInUse(HeadOf(size, used, p)) == p
  {
    HeadDecode(size, used, p);
  }

  lemma EndBit(s: Snap, n: Mem, e: int, size: int, used: bool)
    requires TagsOk(s.mem, s.h, s.base, s.top, s.topsize) && EndOk(s, n, e, size, used)
    ensures PInUse(Rd(n, e + HEAD)) <==> used
    ensures e == s.top ==> PInUse(Rd(n, e + HEAD))
    ensures e != s.top ==> HeadIs(n, e, s.h[e])
  {
    hide Rd, TagsOk, PInUse;
    HeapTop(s);
    if e == s.top {
      HeadBit(s.topsize, false, true);
    } else {
      EndFacts(s, e);
      HeadBit(s.h[e].size, s.h[e].used, used);
    }
  }

  /** The link back from a to a free chunk before it is as it was. */
  lemma BackKept(s: Snap, n: Mem, a: int, e: int, k: Chunks)
    requires TagsOk(s.mem, s.h, s.base, s.top, s.topsize) && a in s.h && a < e
    requires forall w :: w < a + HEAD ==> Rd(n, w) == Rd(s.mem, w)
    requires forall g :: g in k ==> a <= g
    requires !PBit(s.mem, a)
    ensures a - Rd(n, a) in Replaced(s.h, a, e, k) && Replaced(s.h, a, e, k)[a - Rd(n, a)] == Blk(Rd(n, a), false)
  {
    hide Rd, TagsOk;
    ChunkFacts(s.mem, s.h, s.base, s.top, s.topsize, a);
  }

  ghost function Two(a: int, c: int, e: int, used: bool): Chunks { map[a := Blk(c - a, true), c := Blk(e - c, used)] }

  lemma TilesTwo(a: int, c: int, e: int, used: bool)
    requires a + MIN_CHUNK <= c && c + MIN_CHUNK <= e && a % 16 == 0 && c % 16 == 0 && e % 16 == 0
    ensures Tiles(Two(a, c, e, used), a, e)
  {
    var k := Two(a, c, e, used);
    assert TileAt(k, a, e, a) && TileAt(k, a, e, c);
  }

  /** The chunks in [a, e) become a chunk in use followed by another. */
  lemma MoveTwo(s: Snap, x: set<int>, n: Mem, a: int, c: int, e: int, used: bool)
    requires Movable(s, x, n, a, e) && a + MIN_CHUNK <= c && c + MIN_CHUNK <= e && c % 16 == 0
    requires Rd(n, a + HEAD) == HeadOf(c - a, true, PBit(s.mem, a))
    requires Rd(n, c + HEAD) == HeadOf(e - c, used, true)
    requires EndOk(s, n, e, e - c, used)
    ensures Tiles(Two(a, c, e, used), a, e)
    ensures Inv(s.(mem := n, h := Replaced(s.h, a, e, Two(a, c, e, used))), Loose(x, a, e, Two(a, c, e, used)))
  {
    hide Rd, SmallOk, TreesOk, BinsMatch, TagsOk, ClearOfBins, PInUse, HeadOf;
    var k := Two(a, c, e, used);
    var h' := Replaced(s.h, a, e, k);
    ChunkFacts(s.mem, s.h, s.base, s.top, s.topsize, a);
    EndFacts(s, e);
    TilesTwo(a, c, e, used);
    HeadBit(c - a, true, PBit(s.mem, a));
    HeadBit(e - c, used, true);
    EndBit(s, n, e, e - c, used);
    if !PBit(s.mem, a) { BackKept(s, n, a, e, k); }
    assert TagOk(n, h', a);
    assert TagOk(n, h', c);
    hide TagOk, Tiles;
    Retile(s.mem, n, s.h, h', s.base, s.top, s.topsize, a, e, k);
    MoveInv(s, x, n, a, e, k);
  }

  ghost predicate TopMovable(s: Snap, x: set<int>, n: Mem, a: int, top: int, topsize: int) {
    && Inv(s, x) && (a in s.h || a == s.top) && a <= top && top % 16 == 0 && topsize > 0 && topsize % 16 == 0
    && top + topsize == s.top + s.topsize
    && (forall w :: w < a + HEAD ==> Rd(n, w) == Rd(s.mem, w))
    && Rd(n, top + HEAD) == HeadOf(topsize, false, true)
    && (forall p :: Binned(s.h, x, p) ==> p < a)
  }

  lemma MoveTopInv(s: Snap, x: set<int>, n: Mem, a: int, top: int, topsize: int, k: Chunks)
    requires TopMovable(s, x, n, a, top, topsize)
    requires forall p :: p in k ==> a <= p
    requires TagsOk(n, Replaced(s.h, a, s.top, k), s.base, top, topsize)
    ensures Inv(s.(mem := n, h := Replaced(s.h, a, s.top, k), top := top, topsize := topsize), Loose(x, a, s.top, k))
  {
    hide Rd, TagsOk, SmallOk, TreesOk, BinsMatch;
    HeapBounds(s.mem, s.h, s.base, s.top, s.topsize);
    BinsLocal(s, x, n, a, s.top);
    LooseBins(s, x, n, a, s.top, k);
  }

  /** The chunks from a up become part of top. */
  lemma MoveTop(s: Snap, x: set<int>, n: Mem, a: int, topsize: int)
    requires TopMovable(s, x, n, a, a, topsize) && a in s.h && PBit(s.mem, a)
    ensures Inv(s.(mem := n, h := Replaced(s.h, a, s.top, map[]), top := a, topsize := topsize),
        Loose(x, a, s.top, map[]))
  {
    hide Rd, SmallOk, TreesOk, BinsMatch, TagsOk, PInUse, HeadOf;
    HeadBit(topsize, false, true);
    RetileTop(s.mem, n, s.h, Replaced(s.h, a, s.top, map[]), s.base, s.top, s.topsize, a, a, topsize, map[]);
    MoveTopInv(s, x, n, a, a, topsize, map[]);
  }

  /** The chunks from a up, and part of top, become one chunk in use. */
  lemma MoveTopOne(s: Snap, x: set<int>, n: Mem, a: int, top: int, topsize: int)
    requires TopMovable(s, x, n, a, top, topsize) && a + MIN_CHUNK <= top
    requires Rd(n, a + HEAD) == HeadOf(top - a, true, PBit(s.mem, a))
    ensures Tiles(One(a, top, true), a, top)
    ensures Inv(s.(mem := n, h := Replaced(s.h, a, s.top, One(a, top, true)), top := top, topsize := topsize),
                Loose(x, a, s.top, One(a, top, true)))
  {
    hide Rd, SmallOk, TreesOk, BinsMatch, TagsOk, PInUse, HeadOf;
    var k := One(a, top, true);
    var h' := Replaced(s.h, a, s.top, k);
    EndFacts(s, a);
    HeadBit(top - a, true, PBit(s.mem, a));
    HeadBit(topsize, false, true);
    assert TileAt(k, a, top, a);
    if !PBit(s.mem, a) {
      TopBit(s);
      BackKept(s, n, a, s.top, k);
    }
    assert TagOk(n, h', a);
    RetileTop(s.mem, n, s.h, h', s.base, s.top, s.topsize, a, top, topsize, k);
    MoveTopInv(s, x, n, a, top, topsize, k);
  }

  lemma TopBit(s: Snap)
    requires TagsOk(s.mem, s.h, s.base, s.top, s.topsize)
    ensures PBit(s.mem, s.top)
    ensures forall p :: p in s.h ==> p < s.top
  {
    hide Rd, TagsOk, PInUse, HeadOf;
    HeapTop(s);
    HeapBounds(s.mem, s.h, s.base, s.top, s.topsize);
    HeadBit(s.topsize, false, true);
  }

  lemma MoveTopKeeps(s: Snap, x: set<int>, n: Mem, a: int, top: int, topsize: int, k: Chunks)
    requires TopMovable(s, x, n, a, top, topsize) && forall p :: p in k ==> a <= p
    ensures Keeps(s, s.(mem := n, h := Replaced(s.h, a, s.top, k), top := top, topsize := topsize), Span(s.h, a, s.top))
  {
    hide Rd, SmallOk, TreesOk, BinsMatch, TagsOk;
    HeapBounds(s.mem, s.h, s.base, s.top, s.topsize);
  }
}
