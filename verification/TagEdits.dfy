/** The effect of the head and foot writes of free, malloc and realloc on the whole heap. */
module TagEdits {
  import opened Words
  import opened Chunk
  import opened TreeBins
  import opened SmallBins
  import opened Tags
  import opened HeapState
  import opened HeapMoves

  /** The chunks in use, with their sizes. */
  ghost function Live(h: Chunks): map<int, int> { map p | p in h && h[p].used :: h[p].size }

  /** No chunk that starts in [a, e] is in a bin. */
  ghost predicate Unbinned(h: Chunks, x: set<int>, a: int, e: int) {
    forall p :: Binned(h, x, p) ==> p < a || p > e
  }

  ghost predicate AgreeBut(m: Mem, n: Mem, ws: set<int>) {
    forall w :: w !in ws ==> Rd(n, w) == Rd(m, w)
  }

  lemma LiveReplaced(h: Chunks, a: int, e: int, k: Chunks)
    requires forall p :: p in k ==> a <= p < e || p !in h
    ensures Live(Replaced(h, a, e, k)) == Live(h) - Span(h, a, e) + Live(k)
  {
  }

  /** Chunk a of s may be replaced together with all chunks up to e. */
  ghost predicate Stretch(s: Snap, x: set<int>, a: int, e: int) {
    Inv(s, x) && a in s.h && a < e && e in s.h && Unbinned(s.h, x, a, e)
  }

  ghost function WithOne(s: Snap, n: Mem, a: int, e: int, used: bool): Snap {
    s.(mem := n, h := Replaced(s.h, a, e, One(a, e, used)))
  }

  ghost function WithTwo(s: Snap, n: Mem, a: int, c: int, e: int, used: bool): Snap {
    s.(mem := n, h := Replaced(s.h, a, e, Two(a, c, e, used)))
  }

  lemma OneMap(h: Chunks, x: set<int>, a: int, e: int, used: bool)
    requires a < e
    ensures var k := One(a, e, used);
            var h' := Replaced(h, a, e, k);
            && a in h' && h'[a] == Blk(e - a, used)
            && Live(h') == (if used then (Live(h) - Span(h, a, e))[a := e - a] else Live(h) - Span(h, a, e))
            && (forall p :: p in h' && !h'[p].used ==> (p in Loose(x, a, e, k) <==> p in if used then x else x + {a}))
  {
    LiveReplaced(h, a, e, One(a, e, used));
  }

  lemma TwoMap(h: Chunks, x: set<int>, a: int, c: int, e: int, used: bool)
    requires a < c < e
    ensures var k := Two(a, c, e, used);
            var h' := Replaced(h, a, e, k);
            var l := (Live(h) - Span(h, a, e))[a := c - a];
            && a in h' && c in h' && h'[a] == Blk(c - a, true) && h'[c] == Blk(e - c, used)
            && Live(h') == (if used then l[c := e - c] else l)
            && (forall p :: p in h' && !h'[p].used ==> (p in Loose(x, a, e, k) <==> p in if used then x else x + {c}))
  {
    hide Live, Span;
    LiveTwo(h, a, c, e, used);
  }

  lemma LiveTwo(h: Chunks, a: int, c: int, e: int, used: bool)
    requires a < c < e
    ensures var l := (Live(h) - Span(h, a, e))[a := c - a];
            Live(Replaced(h, a, e, Two(a, c, e, used))) == if used then l[c := e - c] else l
  {
    hide Replaced, Span, Live, Two;
    TwoLive(a, c, e, used);
    LiveReplaced(h, a, e, Two(a, c, e, used));
    Plus(Live(h) - Span(h, a, e), a, c - a, c, e - c);
  }

  lemma TwoLive(a: int, c: int, e: int, used: bool)
    requires a < c < e
    ensures (forall p :: p in Two(a, c, e, used) ==> a <= p < e)
    ensures Live(Two(a, c, e, used)) == if used then map[a := c - a, c := e - c] else map[a := c - a]
  {
  }

  lemma Plus(m: map<int, int>, a: int, u: int, c: int, w: int)
    requires a < c
    ensures m + map[a := u, c := w] == m[a := u][c := w] && m + map[a := u] == m[a := u]
  {
  }

  lemma OneEffect(s: Snap, x: set<int>, n: Mem, a: int, e: int, used: bool)
    requires Movable(s, x, n, a, e)
    requires Rd(n, a + HEAD) == HeadOf(e - a, used, PBit(s.mem, a)) && (used || PBit(s.mem, a))
    requires EndOk(s, n, e, e - a, used)
    ensures var t := WithOne(s, n, a, e, used);
            Inv(t, if used then x else x + {a}) && Keeps(s, t, Span(s.h, a, e)) && t.h[a] == Blk(e - a, used)
            && Live(t.h) == if used then (Live(s.h) - Span(s.h, a, e))[a := e - a] else Live(s.h) - Span(s.h, a, e)
  {
    hide Rd, TagsOk, SmallOk, TreesOk, BinsMatch, Inv, Keeps, EndOk, Local, ClearOfBins, HeadOf, PBit, Replaced, Live,
         Loose, One, Two, Tiles, Span;
    var k := One(a, e, used);
    MoveOne(s, x, n, a, e, used);
    MoveKeeps(s, x, n, a, e, k);
    OneMap(s.h, x, a, e, used);
    Renamed(WithOne(s, n, a, e, used), Loose(x, a, e, k), if used then x else x + {a});
  }

  lemma TwoEffect(s: Snap, x: set<int>, n: Mem, a: int, c: int, e: int, used: bool)
    requires Movable(s, x, n, a, e) && a + MIN_CHUNK <= c && c + MIN_CHUNK <= e && c % 16 == 0
    requires Rd(n, a + HEAD) == HeadOf(c - a, true, PBit(s.mem, a)) && Rd(n, c + HEAD) == HeadOf(e - c, used, true)
    requires EndOk(s, n, e, e - c, used)
    ensures var t := WithTwo(s, n, a, c, e, used);
            Inv(t, if used then x else x + {c}) && Keeps(s, t, Span(s.h, a, e)) && t.h[a] == Blk(c - a, true)
                && t.h[c] == Blk(e - c, used)
            && var l := (Live(s.h) - Span(s.h, a, e))[a := c - a]; Live(t.h) == if used then l[c := e - c] else l
  {
    hide Rd, TagsOk, SmallOk, TreesOk, BinsMatch, Inv, Keeps, EndOk, Local, ClearOfBins, HeadOf, PBit, Replaced, Live,
         Loose, One, Two, Tiles, Span;
    var k := Two(a, c, e, used);
    MoveTwo(s, x, n, a, c, e, used);
    MoveKeeps(s, x, n, a, e, k);
    TwoMap(s.h, x, a, c, e, used);
    Renamed(WithTwo(s, n, a, c, e, used), Loose(x, a, e, k), if used then x else x + {c});
  }

  /** The chunks from a up to the chunk in use at e have become one free chunk. */
  lemma Freed(s: Snap, x: set<int>, n: Mem, a: int, e: int)
    requires Stretch(s, x, a, e) && s.h[e].used && PBit(s.mem, a)
    requires Rd(n, a + HEAD) == HeadOf(e - a, false, true) && Rd(n, e) == e - a
    requires Rd(n, e + HEAD) == HeadOf(s.h[e].size, true, false)
    requires AgreeBut(s.mem, n, {a + HEAD, e, e + HEAD})
    ensures var t := WithOne(s, n, a, e, false);
            Inv(t, x + {a}) && Keeps(s, t, Span(s.h, a, e)) && Live(t.h) == Live(s.h) - Span(s.h, a, e)
                && t.h[a] == Blk(e - a, false)
  {
    hide Rd, TagsOk, SmallOk, TreesOk, BinsMatch, Inv, Keeps, Live;
    SpanFacts(s, x, a, e);
    assert Movable(s, x, n, a, e);
    OneEffect(s, x, n, a, e, false);
  }

  lemma SpanFacts(s: Snap, x: set<int>, a: int, e: int)
    requires Inv(s, x) && a in s.h && a < e && (e in s.h || e == s.top)
    ensures a + MIN_CHUNK <= a + s.h[a].size <= e && a % 16 == 0 && e % 16 == 0
    ensures TagsOk(s.mem, s.h, s.base, s.top, s.topsize)
    ensures s.top !in s.h
  {
    hide Rd, TagsOk, SmallOk, TreesOk, BinsMatch;
    EndFacts(s, e);
    EndFacts(s, a);
    HeapTop(s);
  }

  /** The chunks from a up to the chunk in use at e have become one chunk in use. */
  lemma Taken(s: Snap, x: set<int>, n: Mem, a: int, e: int)
    requires Stretch(s, x, a, e) && s.h[e].used
    requires Rd(n, a + HEAD) == HeadOf(e - a, true, PBit(s.mem, a))
    requires Rd(n, e + HEAD) == HeadOf(s.h[e].size, true, true)
    requires AgreeBut(s.mem, n, {a + HEAD, e + HEAD})
    ensures var t := WithOne(s, n, a, e, true);
            Inv(t, x) && Keeps(s, t, Span(s.h, a, e)) && Live(t.h) == (Live(s.h) - Span(s.h, a, e))[a := e - a]
  {
    hide Rd, TagsOk, SmallOk, TreesOk, BinsMatch, Inv, Keeps, Live;
    SpanFacts(s, x, a, e);
    assert Movable(s, x, n, a, e);
    OneEffect(s, x, n, a, e, true);
  }

  /** The chunks from a up to the chunk in use at e have become a chunk in use and a free one. */
  lemma TakenSplit(s: Snap, x: set<int>, n: Mem, a: int, c: int, e: int)
    requires Stretch(s, x, a, e) && s.h[e].used && a + MIN_CHUNK <= c && c + MIN_CHUNK <= e && c % 16 == 0
    requires Rd(n, a + HEAD) == HeadOf(c - a, true, PBit(s.mem, a)) && Rd(n, c + HEAD) == HeadOf(e - c, false, true)
    requires Rd(n, e) == e - c && Rd(n, e + HEAD) == HeadOf(s.h[e].size, true, false)
    requires AgreeBut(s.mem, n, {a + HEAD, c + HEAD, e, e + HEAD})
    ensures var t := WithTwo(s, n, a, c, e, false);
            Inv(t, x + {c}) && Keeps(s, t, Span(s.h, a, e)) && Live(t.h) == (Live(s.h) - Span(s.h, a, e))[a := c - a]
            && t.h[c] == Blk(e - c, false)
  {
    hide Rd, TagsOk, SmallOk, TreesOk, BinsMatch, Inv, Keeps, Live;
    SpanFacts(s, x, a, e);
    assert Movable(s, x, n, a, e);
    TwoEffect(s, x, n, a, c, e, false);
  }

  /** The chunks from a up to e have become two chunks in use. */
  lemma Halved(s: Snap, x: set<int>, n: Mem, a: int, c: int, e: int)
    requires Inv(s, x) && a in s.h && a < e && (e in s.h || e == s.top) && Unbinned(s.h, x, a, e - 1)
    requires a + MIN_CHUNK <= c && c + MIN_CHUNK <= e && c % 16 == 0
    requires Rd(n, a + HEAD) == HeadOf(c - a, true, PBit(s.mem, a)) && Rd(n, c + HEAD) == HeadOf(e - c, true, true)
    requires if e in s.h && s.h[e].used then Rd(n, e + HEAD) == HeadOf(s.h[e].size, true, true)
             else Rd(n, e + HEAD) == Rd(s.mem, e + HEAD) && PBit(s.mem, e)
    requires AgreeBut(s.mem, n, {a + HEAD, c + HEAD, e + HEAD})
    ensures var t := WithTwo(s, n, a, c, e, true);
            Inv(t, x) && Keeps(s, t, Span(s.h, a, e))
                && Live(t.h) == (Live(s.h) - Span(s.h, a, e))[a := c - a][c := e - c]
  {
    hide Rd, TagsOk, SmallOk, TreesOk, BinsMatch, Inv, Keeps, Live;
    SpanFacts(s, x, a, e);
    if e in s.h { HeadFacts(s.mem, s.h, s.base, s.top, s.topsize, e); }
    assert Movable(s, x, n, a, e);
    TwoEffect(s, x, n, a, c, e, true);
  }

  ghost function WithTop(s: Snap, n: Mem, a: int, top: int, k: Chunks): Snap {
    s.(mem := n, h := Replaced(s.h, a, s.top, k), top := top, topsize := s.top + s.topsize - top)
  }

  /** The chunks from a up have become part of top. */
  lemma TopFreed(s: Snap, x: set<int>, n: Mem, a: int)
    requires Inv(s, x) && a in s.h && Unbinned(s.h, x, a, s.top) && PBit(s.mem, a)
    requires Rd(n, a + HEAD) == HeadOf(s.top + s.topsize - a, false, true) && AgreeBut(s.mem, n, {a + HEAD})
    ensures var t := WithTop(s, n, a, a, map[]);
            Inv(t, x) && Keeps(s, t, Span(s.h, a, s.top)) && Live(t.h) == Live(s.h) - Span(s.h, a, s.top)
  {
    hide Rd, TagsOk, SmallOk, TreesOk, BinsMatch, Inv, Keeps, Live, Loose, Replaced, Span, HeadOf, PBit;
    TopFacts(s, x, a);
    var topsize := s.top + s.topsize - a;
    assert TopMovable(s, x, n, a, a, topsize);
    MoveTop(s, x, n, a, topsize);
    MoveTopKeeps(s, x, n, a, a, topsize, map[]);
    NoneMap(s.h, x, a, s.top);
    Renamed(WithTop(s, n, a, a, map[]), Loose(x, a, s.top, map[]), x);
  }

  lemma NoneMap(h: Chunks, x: set<int>, a: int, e: int)
    ensures var h' := Replaced(h, a, e, map[]);
            && Live(h') == Live(h) - Span(h, a, e)
            && (forall p :: p in h' && !h'[p].used ==> (p in Loose(x, a, e, map[]) <==> p in x))
  {
    LiveReplaced(h, a, e, map[]);
  }

  lemma TakenMap(h: Chunks, x: set<int>, a: int, e: int, c: int)
    requires a <= e && e !in h
    ensures var k := One(a, c, true);
            var h' := Replaced(h, a, e, k);
            && Live(h') == (Live(h) - Span(h, a, e))[a := c - a]
            && (forall p :: p in h' && !h'[p].used ==> (p in Loose(x, a, e, k) <==> p in x))
  {
    LiveReplaced(h, a, e, One(a, c, true));
  }

  lemma TopFacts(s: Snap, x: set<int>, a: int)
    requires Inv(s, x) && (a in s.h || a == s.top)
    ensures a <= s.top && a % 16 == 0 && s.top % 16 == 0 && s.topsize % 16 == 0 && s.topsize > 0
    ensures TagsOk(s.mem, s.h, s.base, s.top, s.topsize)
    ensures PBit(s.mem, s.top) && forall p :: p in s.h ==> p < s.top
  {
    hide Rd, TagsOk, SmallOk, TreesOk, BinsMatch;
    EndFacts(s, a);
    HeapTop(s);
    TopBit(s);
  }

  /** The chunks from a up and the front of top, up to c, have become one chunk in use. */
  lemma TopTaken(s: Snap, x: set<int>, n: Mem, a: int, c: int)
    requires Inv(s, x) && (a in s.h || a == s.top) && Unbinned(s.h, x, a, s.top)
    requires a + MIN_CHUNK <= c < s.top + s.topsize && c % 16 == 0
    requires Rd(n, a + HEAD) == HeadOf(c - a, true, PBit(s.mem, a))
    requires Rd(n, c + HEAD) == HeadOf(s.top + s.topsize - c, false, true)
    requires AgreeBut(s.mem, n, {a + HEAD, c + HEAD})
    ensures var t := WithTop(s, n, a, c, One(a, c, true));
            Inv(t, x) && Keeps(s, t, Span(s.h, a, s.top)) && Live(t.h) == (Live(s.h) - Span(s.h, a, s.top))[a := c - a]
  {
    hide Rd, TagsOk, SmallOk, TreesOk, BinsMatch, Inv, Keeps, Live, Loose, Replaced, Span, HeadOf, PBit, Tiles;
    TopFacts(s, x, a);
    var topsize := s.top + s.topsize - c;
    var k := One(a, c, true);
    assert TopMovable(s, x, n, a, c, topsize);
    MoveTopOne(s, x, n, a, c, topsize);
    MoveTopKeeps(s, x, n, a, c, topsize, k);
    TakenMap(s.h, x, a, s.top, c);
    Renamed(WithTop(s, n, a, c, k), Loose(x, a, s.top, k), x);
  }
}
