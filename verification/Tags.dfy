/** Boundary tags: the chunks tile the segment up to top, and every head and foot word says so. */
module Tags {
  import opened Words
  import opened Chunk

  /** A chunk's size and whether it is in use. */
  datatype Blk = Blk(size: int, used: bool)

  type Chunks = map<int, Blk>

  ghost predicate Placement(h: Chunks, base: int, top: int, p: int)
    requires p in h
  {
    && base <= p && p % 16 == 0 && h[p].size % 16 == 0 && h[p].size >= MIN_CHUNK && p + h[p].size <= top
    && (p + h[p].size == top || p + h[p].size in h)
  }

  /** The head word of p, with either value of the previous-in-use bit. */
  ghost predicate HeadIs(m: Mem, p: int, b: Blk) {
    Rd(m, p + HEAD) == HeadOf(b.size, b.used, true) || Rd(m, p + HEAD) == HeadOf(b.size, b.used, false)
  }

  /** What the words around chunk p say: its head, its foot if free, and its neighbours' bits. */
  ghost predicate TagOk(m: Mem, h: Chunks, p: int)
    requires p in h
  {
    var next := p + h[p].size;
    && HeadIs(m, p, h[p])
    && (PInUse(Rd(m, next + HEAD)) <==> h[p].used)
    && (!h[p].used ==> Rd(m, next) == h[p].size && next in h && h[next].used)
    && (!PInUse(Rd(m, p + HEAD)) ==> p - Rd(m, p) in h && h[p - Rd(m, p)] == Blk(Rd(m, p), false))
  }

  ghost predicate Disjoint(h: Chunks) {
    forall p, q :: p in h && q in h && p < q ==> p + h[p].size <= q
  }

  /** The heap invariant of do_check_malloc_state, for one segment with its first chunk at base. */
  ghost predicate TagsOk(m: Mem, h: Chunks, base: int, top: int, topsize: int) {
    && LOWEST <= base <= top && base % 16 == 0 && top % 16 == 0
    && topsize > 0 && topsize % 16 == 0
    && (base == top || base in h)
    && (forall p {:trigger Placement(h, base, top, p)} :: p in h ==> Placement(h, base, top, p))
    && Disjoint(h)
    && (forall p {:trigger TagOk(m, h, p)} :: p in h ==> TagOk(m, h, p))
    && Rd(m, top + HEAD) == HeadOf(topsize, false, true)
  }

  /** The chunks outside [a, e) stay, those inside are replaced by k. */
  ghost function Replaced(h: Chunks, a: int, e: int, k: Chunks): Chunks {
    (map p | p in h && !(a <= p < e) :: h[p]) + k
  }

  /** Only words from a's head up to e's head were written. */
  ghost predicate Local(m: Mem, n: Mem, a: int, e: int) {
    forall w :: w < a + HEAD || w > e + HEAD ==> Rd(n, w) == Rd(m, w)
  }

  ghost predicate TileAt(k: Chunks, a: int, e: int, p: int)
    requires p in k
  {
    && a <= p && p % 16 == 0 && k[p].size % 16 == 0 && k[p].size >= MIN_CHUNK && p + k[p].size <= e
    && (p + k[p].size == e || p + k[p].size in k)
  }

  /** k tiles [a, e) exactly. */
  ghost predicate Tiles(k: Chunks, a: int, e: int) {
    && a in k && Disjoint(k)
    && (forall p {:trigger TileAt(k, a, e, p)} :: p in k ==> TileAt(k, a, e, p))
  }

  lemma ReplacedPlacement(h: Chunks, base: int, top: int, a: int, e: int, k: Chunks, h': Chunks)
    requires (forall p {:trigger Placement(h, base, top, p)} :: p in h ==> Placement(h, base, top, p)) && Disjoint(h)
    requires base <= a < e <= top && (a in h || a == top) && (e == top || e in h) && Tiles(k, a, e)
    requires h' == Replaced(h, a, e, k)
    ensures forall p {:trigger Placement(h', base, top, p)} :: p in h' ==> Placement(h', base, top, p)
    ensures Disjoint(h')
  {
    forall p | p in h' ensures Placement(h', base, top, p) {
      if p in k {
        assert TileAt(k, a, e, p);
      } else {
        assert Placement(h, base, top, p);
      }
    }
    forall p, q | p in h' && q in h' && p < q ensures p + h'[p].size <= q {
      if p in k { assert TileAt(k, a, e, p); }
      if q in k { assert TileAt(k, a, e, q); }
    }
  }

  /** The bit that says whether the chunk before p is in use. */
  ghost predicate PBit(m: Mem, p: int) { PInUse(Rd(m, p + HEAD)) }

  /** If the chunk before p is free, p's first word leads back to it. */
  ghost predicate BackOk(m: Mem, h: Chunks, p: int) {
    !PBit(m, p) ==> p - Rd(m, p) in h && h[p - Rd(m, p)] == Blk(Rd(m, p), false)
  }

  /** Where a chunk lies and what it borders. */
  lemma ChunkFacts(m: Mem, h: Chunks, base: int, top: int, topsize: int, p: int)
    requires TagsOk(m, h, base, top, topsize) && p in h
    ensures base <= p && h[p].size >= MIN_CHUNK && p + h[p].size <= top && (p + h[p].size == top || p + h[p].size in h)
    ensures p % 16 == 0 && h[p].size % 16 == 0
    ensures TagOk(m, h, p)
    ensures forall q :: q in h && q < p ==> q + h[q].size <= p
    ensures forall q :: q in h && p < q ==> p + h[p].size <= q
    ensures !PBit(m, p) ==> h[p - Rd(m, p)].size == Rd(m, p) >= MIN_CHUNK
  {
    hide Rd;
    assert Placement(h, base, top, p) && TagOk(m, h, p);
    if !PBit(m, p) { assert Placement(h, base, top, p - Rd(m, p)); }
  }

  /** The tags of a chunk before the replaced ones. */
  lemma TagBefore(m: Mem, n: Mem, h: Chunks, h': Chunks, base: int, top: int, topsize: int, a: int, e: int, k: Chunks,
                  p: int)
    requires TagsOk(m, h, base, top, topsize) && (a in h || a == top) && h' == Replaced(h, a, e, k)
    requires forall w :: w < a + HEAD ==> Rd(n, w) == Rd(m, w)
    requires (PBit(n, a) <==> PBit(m, a)) && (!PBit(m, a) ==> a in k && k[a].used)
    requires (forall g :: g in k ==> a <= g) && p in h && p < a
    ensures TagOk(n, h', p)
  {
    hide Rd, PInUse, TagsOk;
    ChunkFacts(m, h, base, top, topsize, p);
    if a in h { ChunkFacts(m, h, base, top, topsize, a); }
    var next := p + h[p].size;
    if next < a {
      ChunkFacts(m, h, base, top, topsize, next);
      assert Rd(n, next + HEAD) == Rd(m, next + HEAD);
    }
    assert Rd(n, p) == Rd(m, p) && Rd(n, p + HEAD) == Rd(m, p + HEAD) && Rd(n, next) == Rd(m, next);
  }

  /** The tags of a chunk after the replaced ones. */
  lemma TagAfter(m: Mem, n: Mem, h: Chunks, h': Chunks, base: int, top: int, topsize: int, a: int, e: int, k: Chunks,
                 p: int)
    requires TagsOk(m, h, base, top, topsize) && h' == Replaced(h, a, e, k) && e in h && a < e
    requires forall w :: w > e + HEAD ==> Rd(n, w) == Rd(m, w)
    requires (forall g :: g in k ==> g < e) && p in h && e <= p
    requires HeadIs(n, e, h[e]) && BackOk(n, h', e)
    ensures TagOk(n, h', p)
  {
    hide Rd, PInUse, TagsOk;
    ChunkFacts(m, h, base, top, topsize, p);
    ChunkFacts(m, h, base, top, topsize, e);
    var next := p + h[p].size;
    assert Rd(n, next) == Rd(m, next) && Rd(n, next + HEAD) == Rd(m, next + HEAD);
    if p > e {
      assert Rd(n, p) == Rd(m, p) && Rd(n, p + HEAD) == Rd(m, p + HEAD);
    }
  }

  /** Replacing consecutive chunks by a tiling whose own tags are right keeps every tag right. */
  lemma Retile(m: Mem, n: Mem, h: Chunks, h': Chunks, base: int, top: int, topsize: int, a: int, e: int, k: Chunks)
    requires TagsOk(m, h, base, top, topsize) && a in h && a < e && (e == top || e in h) && Tiles(k, a, e)
    requires h' == Replaced(h, a, e, k)
    requires Local(m, n, a, e)
    requires (PBit(n, a) <==> PBit(m, a)) && (!PBit(m, a) ==> k[a].used)
    requires forall p {:trigger TagOk(n, h', p)} :: p in k ==> TagOk(n, h', p)
    requires if e == top then Rd(n, top + HEAD) == Rd(m, top + HEAD) else HeadIs(n, e, h[e]) && BackOk(n, h', e)
    ensures TagsOk(n, h', base, top, topsize)
  {
    hide Rd, PInUse, TagOk, HeadIs;
    assert Placement(h, base, top, a);
    if e != top { assert Placement(h, base, top, e); }
    ReplacedPlacement(h, base, top, a, e, k, h');
    assert forall g :: g in k ==> a <= g < e by { TileBounds(k, a, e); }
    forall p | p in h' ensures TagOk(n, h', p) {
      if p in k {
      } else if p < a {
        TagBefore(m, n, h, h', base, top, topsize, a, e, k, p);
      } else {
        assert Placement(h, base, top, p);
        TagAfter(m, n, h, h', base, top, topsize, a, e, k, p);
      }
    }
  }

  lemma TileBounds(k: Chunks, a: int, e: int)
    requires Tiles(k, a, e)
    ensures forall g :: g in k ==> a <= g < e && k[g].size >= MIN_CHUNK && g + k[g].size <= e
  {
    forall g | g in k ensures a <= g < e && k[g].size >= MIN_CHUNK && g + k[g].size <= e { assert TileAt(k, a, e, g); }
  }

  /** The same when the replaced chunks reach up to top and top moves. */
  lemma RetileTop(m: Mem, n: Mem, h: Chunks, h': Chunks, base: int, top: int, topsize: int, a: int, top': int,
                  topsize': int, k: Chunks)
    requires TagsOk(m, h, base, top, topsize) && (a in h || a == top) && a <= top' && h' == Replaced(h, a, top, k)
    requires top' % 16 == 0 && topsize' > 0 && topsize' % 16 == 0
    requires if a == top' then k == map[] else Tiles(k, a, top')
    requires forall w :: w < a + HEAD ==> Rd(n, w) == Rd(m, w)
    requires (PBit(n, a) <==> PBit(m, a)) && (!PBit(m, a) ==> a in k && k[a].used)
    requires forall p {:trigger TagOk(n, h', p)} :: p in k ==> TagOk(n, h', p)
    requires Rd(n, top' + HEAD) == HeadOf(topsize', false, true)
    ensures TagsOk(n, h', base, top', topsize')
  {
    hide Rd, PInUse, TagOk, HeadIs;
    if a in h { assert Placement(h, base, top, a); }
    assert forall g :: g in k ==> a <= g by { if a != top' { TileBounds(k, a, top'); } }
    RetileTopPlacement(h, base, top, a, top', k, h');
    forall p | p in h' ensures TagOk(n, h', p) {
      if p !in k {
        assert Placement(h, base, top, p);
        TagBefore(m, n, h, h', base, top, topsize, a, top, k, p);
      }
    }
  }

  lemma RetileTopPlacement(h: Chunks, base: int, top: int, a: int, top': int, k: Chunks, h': Chunks)
    requires (forall p {:trigger Placement(h, base, top, p)} :: p in h ==> Placement(h, base, top, p)) && Disjoint(h)
    requires base <= a <= top && (a in h || a == top) && a <= top' && h' == Replaced(h, a, top, k)
    requires (base == top || base in h)
    requires if a == top' then k == map[] else Tiles(k, a, top')
    ensures forall p {:trigger Placement(h', base, top', p)} :: p in h' ==> Placement(h', base, top', p)
    ensures Disjoint(h') && (base == top' || base in h')
  {
    hide Placement;
    forall p | p in h' ensures Placement(h', base, top', p) {
      TopPlacement(h, base, top, a, top', k, h', p);
    }
    TopDisjoint(h, base, top, a, top', k, h');
  }

  lemma TopDisjoint(h: Chunks, base: int, top: int, a: int, top': int, k: Chunks, h': Chunks)
    requires (forall p {:trigger Placement(h, base, top, p)} :: p in h ==> Placement(h, base, top, p)) && Disjoint(h)
    requires base <= a <= top && (a in h || a == top) && a <= top' && h' == Replaced(h, a, top, k)
    requires if a == top' then k == map[] else Tiles(k, a, top')
    ensures Disjoint(h')
  {
    hide Placement;
    forall p, q | p in h' && q in h' && p < q ensures p + h'[p].size <= q {
      if p in k {
        assert TileAt(k, a, top', p);
        TopPlacement(h, base, top, a, top', k, h', q);
      } else if q in k {
        assert TileAt(k, a, top', q);
        TopPlacement(h, base, top, a, top', k, h', p);
      }
    }
  }

  lemma TopPlacement(h: Chunks, base: int, top: int, a: int, top': int, k: Chunks, h': Chunks, p: int)
    requires (forall q {:trigger Placement(h, base, top, q)} :: q in h ==> Placement(h, base, top, q)) && Disjoint(h)
    requires base <= a <= top && (a in h || a == top) && a <= top' && h' == Replaced(h, a, top, k)
    requires if a == top' then k == map[] else Tiles(k, a, top')
    requires p in h'
    ensures Placement(h', base, top', p)
    ensures p !in k ==> p in h && p < a && p + h[p].size <= a
  {
    if p in k {
      assert TileAt(k, a, top', p);
    } else {
      assert Placement(h, base, top, p);
      assert p < a;
      assert p + h[p].size <= a;
    }
  }
}
