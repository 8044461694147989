/** realloc, memalign, and what client code may do with its memory. */
module Allocator {
  import opened Words
  import opened BinMap
  import opened Align
  import opened Chunk
  import opened TreeBins
  import opened SmallBins
  import opened Tags
  import opened HeapState
  import opened HeapMoves
  import opened TagEdits
  import opened FreeSteps
  import opened MallocSteps
  import opened ReallocSteps
  import opened Policy
  import opened Dlmalloc

  // ---- client writes ----

  /** A word of chunk q's payload: after its head, and the next chunk's prev_foot word included. */
  ghost predicate OwnWord(h: Chunks, q: int, a: int) {
    q in Live(h) && a % 8 == 0 && q + FD <= a < q + HEAD + Live(h)[q]
  }

  /** Whatever a client stores in the payload of a chunk in use, the heap stays intact. */
  lemma StoreKeeps(s: Snap, dv: int, dvsize: int, q: int, a: int, v: int)
    requires Settled(s, dv, dvsize) && OwnWord(s.h, q, a)
    ensures var t := s.(mem := s.mem[a := v]); Settled(t, dv, dvsize) && Keeps(s, t, {q})
  {
    hide Inv, Keeps, Rd, PBit, HeadOf, Reach, Replaced, Span, ChunkSize, CInUse, Live, EndOk;
    LiveIn(s.h, q);
    ReallocStart(s, dv, dvsize, q);
    var e, n := q + s.h[q].size, s.mem[a := v];
    Opened(s, {dv});
    assert q % 16 == 0 && e % 16 == 0 by { SpanFacts(s, {dv}, q, e); }
    StoreLocal(s, {dv}, n, q, e, a, v);
    OneEffect(s, {dv}, n, q, e, true);
    SameMap(s, q, e);
  }

  lemma SameMap(s: Snap, q: int, e: int)
    requires TagsOk(s.mem, s.h, s.base, s.top, s.topsize) && q in s.h && s.h[q].used && e == q + s.h[q].size
    ensures Replaced(s.h, q, e, One(q, e, true)) == s.h && Span(s.h, q, e) == {q}
  {
    hide TagsOk, Rd;
    ChunkFacts(s.mem, s.h, s.base, s.top, s.topsize, q);
  }

  lemma StoreLocal(s: Snap, x: set<int>, n: Mem, q: int, e: int, a: int, v: int)
    requires Inv(s, x) && q in s.h && s.h[q].used && e == q + s.h[q].size && n == s.mem[a := v] && q < e
    requires (e == s.top || e in s.h)
    requires q + FD <= a < e + HEAD && PBit(s.mem, e) && q % 16 == 0
    ensures Movable(s, x, n, q, e) && EndOk(s, n, e, e - q, true)
    ensures Rd(n, q + HEAD) == HeadOf(e - q, true, PBit(s.mem, q))
  {
    hide TagsOk, SmallOk, TreesOk, BinsMatch, HeadOf;
    HeadFacts(s.mem, s.h, s.base, s.top, s.topsize, q);
    ChunkFacts(s.mem, s.h, s.base, s.top, s.topsize, q);
    if e in s.h { HeadFacts(s.mem, s.h, s.base, s.top, s.topsize, e); }
  }

  /** A client stores a word in its own memory. */
  method Store(heap: Heap, ghost q: int, a: int, v: int)
    requires heap.Valid() && OwnWord(heap.h, q, a)
    modifies heap`mem
    ensures heap.Valid() && heap.mem == old(heap.mem)[a := v] && Keeps(old(heap.View()), heap.View(), {q})
  {
    hide Inv, Keeps, OwnWord, DvIs;
    StoreKeeps(heap.View(), heap.dv, heap.dvsize, q, a, v);
    heap.mem := heap.mem[a := v];
  }

  // ---- realloc ----

  /** The first len bytes of payload of chunk p in m are those of chunk q in n. */
  ghost predicate Copied(m: Mem, n: Mem, p: int, q: int, len: int) {
    forall i :: 0 <= i < len && i % 8 == 0 ==> Rd(n, q + FD + i) == Rd(m, p + FD + i)
  }

  /** memcpy of whole words between the payloads of two chunks in use. */
  method CopyWords(heap: Heap, p: int, q: int, len: int)
    requires heap.Valid() && p in Live(heap.h) && q in Live(heap.h) && p != q
    requires len % 8 == 0 && 0 <= len <= Live(heap.h)[p] - HEAD && len <= Live(heap.h)[q] - HEAD
    requires p % 8 == 0 && q % 8 == 0
    modifies heap`mem
    ensures heap.Valid() && Keeps(old(heap.View()), heap.View(), {q})
    ensures Copied(old(heap.mem), heap.mem, p, q, len)
  {
    hide Inv, Keeps, DvIs, Live;
    ghost var s := heap.View();
    SelfKeepsBut(s, q);
    var i := 0;
    while i < len
      invariant 0 <= i <= len && i % 8 == 0 && heap.Valid() && Keeps(s, heap.View(), {q})
      invariant Copied(s.mem, heap.mem, p, q, i)
    {
      KeptWord(s, heap.View(), p, q, p + FD + i);
      ghost var t := heap.View();
      Store(heap, q, q + FD + i, Rd(heap.mem, p + FD + i));
      KeepsTrans(s, t, heap.View(), {q}, {q});
      assert {q} + {q} == {q};
      i := i + 8;
    }
  }

  lemma SelfKeepsBut(s: Snap, q: int)
    ensures Keeps(s, s, {q})
  {
  }

  lemma KeptWord(s: Snap, t: Snap, p: int, q: int, a: int)
    requires Keeps(s, t, {q}) && p in Live(s.h) && p != q && p + FD <= a < p + HEAD + Live(s.h)[p]
    ensures Rd(t.mem, a) == Rd(s.mem, a)
  {
    hide Rd;
    assert PayloadWord(s.h, p, a);
  }

  /**
    The block at p now is at q, with room for nb bytes and its contents as far as both sizes go; all else in use is as
    it was.
   */
  ghost predicate Moved(s: Snap, t: Snap, p: int, q: int, nb: int) {
    && p in Live(s.h) && q in Live(t.h) && nb <= Live(t.h)[q] < nb + MIN_CHUNK && q !in Live(s.h) - {p}
    && Live(t.h) == (Live(s.h) - {p})[q := Live(t.h)[q]] && Keeps(s, t, {p})
    && Copied(s.mem, t.mem, p, q, Min(Live(s.h)[p], Live(t.h)[q]) - HEAD)
  }

  lemma ResizedIsMoved(s: Snap, t: Snap, p: int, nb: int)
    requires Resized(s, t, p, nb) && p in Live(s.h)
    ensures Moved(s, t, p, p, nb)
  {
    hide Rd, Keeps, Live;
    Over(Live(s.h), p, Live(t.h)[p]);
    LiveIn(s.h, p);
    LiveIn(t.h, p);
  }

  lemma CopiedIsMoved(s: Snap, s1: Snap, s2: Snap, t: Snap, p: int, q: int, nb: int)
    requires p in Live(s.h) && Served(s, s1, nb, q) && p != q && s2.h == s1.h && Keeps(s1, s2, {q}) && Dropped(s2, t, p)
    requires Live(s.h)[p] <= nb
    requires Copied(s1.mem, s2.mem, p, q, Live(s.h)[p] - HEAD)
    ensures Moved(s, t, p, q, nb)
  {
    hide Rd, Keeps, Live, Dropped, Served;
    CopiedMap(s, s1, s2, t, p, q, nb);
    CopiedKeeps(s, s1, s2, t, p, q, nb);
    forall i | 0 <= i < Live(s.h)[p] - HEAD && i % 8 == 0 ensures Rd(t.mem, q + FD + i) == Rd(s.mem, p + FD + i) {
      KeptWordAll(s, s1, p, p + FD + i);
      KeptWord(s2, t, q, p, q + FD + i);
    }
  }

  lemma CopiedMap(s: Snap, s1: Snap, s2: Snap, t: Snap, p: int, q: int, nb: int)
    requires p in Live(s.h) && Served(s, s1, nb, q) && p != q && s2.h == s1.h && Dropped(s2, t, p)
    ensures q in Live(t.h) && q in Live(s2.h) && Live(t.h)[q] == Live(s1.h)[q] && nb <= Live(t.h)[q] < nb + MIN_CHUNK
    ensures q !in Live(s.h) - {p}
    ensures Live(t.h) == (Live(s.h) - {p})[q := Live(t.h)[q]]
    ensures Keeps(s, s1, {}) && Keeps(s2, t, {p}) && q !in Live(s.h) && Live(s2.h)[q] == Live(s1.h)[q]
  {
    hide Keeps, Live;
    MapShift(Live(s.h), p, q, Live(s1.h)[q]);
  }

  lemma MapShift(m: map<int, int>, p: int, q: int, v: int)
    requires p != q
    ensures m[q := v] - {p} == (m - {p})[q := v]
  {
  }

  lemma CopiedKeeps(s: Snap, s1: Snap, s2: Snap, t: Snap, p: int, q: int, nb: int)
    requires Keeps(s, s1, {}) && Keeps(s1, s2, {q}) && Keeps(s2, t, {p}) && q !in Live(s.h)
    ensures Keeps(s, t, {p})
  {
    hide Keeps, Live;
    KeepsTrans(s, s1, s2, {}, {q});
    assert {} + {q} == {q};
    KeepsTrans(s, s2, t, {q}, {p});
    assert {q} + {p} == {p} + {q};
    KeepsFewer(s, t, p, q);
  }

  lemma KeptWordAll(s: Snap, t: Snap, p: int, a: int)
    requires Keeps(s, t, {}) && p in Live(s.h) && p + FD <= a < p + HEAD + Live(s.h)[p]
    ensures Rd(t.mem, a) == Rd(s.mem, a)
  {
    hide Rd;
    assert PayloadWord(s.h, p, a);
  }

  lemma LiveBounds(s: Snap, dv: int, dvsize: int, p: int)
    requires Settled(s, dv, dvsize) && p in Live(s.h)
    ensures LOWEST <= s.base <= p && p % 16 == 0 && Live(s.h)[p] % 16 == 0 && Live(s.h)[p] >= MIN_CHUNK
    ensures p + Live(s.h)[p] <= s.top
    ensures p in s.h && s.h[p].used && Live(s.h)[p] == s.h[p].size
  {
    hide Rd, TagsOk, SmallOk, TreesOk, BinsMatch;
    ChunkFacts(s.mem, s.h, s.base, s.top, s.topsize, p);
    HeapBounds(s.mem, s.h, s.base, s.top, s.topsize);
  }

  /** dlrealloc */
  method Realloc(heap: Heap, oldmem: int, bytes: nat, grant: nat) returns (ptr: int)
    requires heap.Valid() && (oldmem == 0 || oldmem - FD in Live(heap.h)) && bytes < WORD
    requires grant % 16 == 0 && heap.top + heap.topsize + grant - heap.base < SIZE_LIMIT
    modifies heap
    ensures heap.Valid()
    ensures ptr != 0 <==>
      var nb := Request2Size(bytes);
      || (oldmem != 0 && Extensible(old(heap.View()), oldmem - FD, nb))
      || (exists q :: Roomy(old(heap.h), nb, q))
      || nb < old(heap.topsize) + grant
    ensures ptr != 0 ==> bytes < MAX_REQUEST
    ensures ptr != 0 && oldmem == 0 ==> Served(old(heap.View()), heap.View(), Request2Size(bytes), ptr - FD)
    ensures ptr != 0 && oldmem != 0 ==> Moved(old(heap.View()), heap.View(), oldmem - FD, ptr - FD, Request2Size(bytes))
    ensures ptr == 0 ==> heap.h == old(heap.h) && Keeps(old(heap.View()), heap.View(), {})
    ensures heap.top + heap.topsize <= old(heap.top + heap.topsize) + grant
  {
    hide Inv, Keeps, Live, Served, Moved, Resized, Roomy, Chosen, Extensible;
    ptr := 0;
    ghost var s := heap.View();
    SelfKeeps(s);
    if oldmem == 0 {
      ptr := heap.Malloc(bytes, grant);
    } else if bytes < MAX_REQUEST {
      var nb := Request2Size(bytes);
      RequestSize(bytes);
      var oldp := oldmem - FD;
      LiveBounds(s, heap.dv, heap.dvsize, oldp);
      var ok := heap.TryRealloc(oldp, nb);
      if ok {
        ptr := oldmem;
        ResizedIsMoved(s, heap.View(), oldp, nb);
        ResizedSize(s, heap.View(), oldp, nb);
      } else {
        NotExtensible(s, oldp, nb);
        ptr := MoveBlock(heap, oldp, bytes, grant);
      }
    } else {
      LiveBounds(s, heap.dv, heap.dvsize, oldmem - FD);
      TooLarge(s, heap.dv, heap.dvsize, grant, Request2Size(bytes));
      TooLargeToExtend(s, heap.dv, heap.dvsize, oldmem - FD, Request2Size(bytes));
    }
  }

  lemma TooLargeToExtend(s: Snap, dv: int, dvsize: int, p: int, nb: int)
    requires Settled(s, dv, dvsize) && p in s.h && s.top + s.topsize - s.base < SIZE_LIMIT <= nb
    ensures !Extensible(s, p, nb)
  {
    hide Rd, TagsOk, SmallOk, TreesOk, BinsMatch;
    var next := p + s.h[p].size;
    HeapBounds(s.mem, s.h, s.base, s.top, s.topsize);
    ChunkFacts(s.mem, s.h, s.base, s.top, s.topsize, p);
    if next in s.h { ChunkFacts(s.mem, s.h, s.base, s.top, s.topsize, next); }
  }

  lemma NotExtensible(s: Snap, p: int, nb: int)
    requires p in s.h && !Extensible(s, p, nb)
    ensures s.h[p].size < nb
  {
  }

  /** The last resort of dlrealloc: a new block, a copy, and the old block freed. */
  method MoveBlock(heap: Heap, oldp: int, bytes: nat, grant: nat) returns (ptr: int)
    requires heap.Valid() && oldp in Live(heap.h) && bytes < MAX_REQUEST && Live(heap.h)[oldp] < Request2Size(bytes)
    requires grant % 16 == 0 && heap.top + heap.topsize + grant - heap.base < SIZE_LIMIT
    modifies heap
    ensures heap.Valid()
    ensures ptr != 0 <==>
      (exists q :: Roomy(old(heap.h), Request2Size(bytes), q)) || Request2Size(bytes) < old(heap.topsize) + grant
    ensures ptr != 0 ==> Moved(old(heap.View()), heap.View(), oldp, ptr - FD, Request2Size(bytes))
    ensures ptr == 0 ==> heap.h == old(heap.h) && Keeps(old(heap.View()), heap.View(), {})
    ensures heap.top + heap.topsize <= old(heap.top + heap.topsize) + grant
  {
    hide Inv, Keeps, Live, Served, Moved, Roomy, Chosen, ChunkSize, DvIs, Dropped, Request2Size;
    ghost var s := heap.View();
    ptr := heap.Malloc(bytes, grant);
    if ptr != 0 {
      CopyAndFree(heap, oldp, ptr - FD, bytes, s);
    }
  }

  method CopyAndFree(heap: Heap, oldp: int, q: int, bytes: nat, ghost s: Snap)
    requires heap.Valid() && oldp in Live(s.h) && bytes < MAX_REQUEST && Live(s.h)[oldp] < Request2Size(bytes)
    requires Served(s, heap.View(), Request2Size(bytes), q)
    modifies heap
    ensures heap.Valid() && Moved(s, heap.View(), oldp, q, Request2Size(bytes))
    ensures heap.top + heap.topsize == old(heap.top + heap.topsize)
  {
    hide Inv, Keeps, Live, Served, Moved, ChunkSize, DvIs, Dropped, Request2Size, CInUse, PInUse, Rd, Copied, Settled;
    ghost var s1 := heap.View();
    ghost var nb := Request2Size(bytes);
    NewBlock(s, s1, nb, q, oldp);
    LiveBounds(s1, heap.dv, heap.dvsize, oldp);
    LiveBounds(s1, heap.dv, heap.dvsize, q);
    BlockSize(s1, heap.dv, heap.dvsize, oldp);
    var oc := ChunkSize(Rd(heap.mem, oldp + HEAD)) - HEAD;
    OldFits(bytes, oc + HEAD);
    var len := if oc < bytes then oc else bytes;
    WordAligned(oldp);
    WordAligned(q);
    CopyWords(heap, oldp, q, len);
    ghost var s2 := heap.View();
    var freed := heap.Free(oldp + FD);
    CopiedIsMoved(s, s1, s2, heap.View(), oldp, q, nb);
    DroppedEnds(s2, heap.View(), oldp);
  }

  lemma DroppedEnds(s: Snap, t: Snap, p: int)
    requires Dropped(s, t, p)
    ensures t.top + t.topsize == s.top + s.topsize
  {
    hide Live, Keeps;
  }

  lemma BlockSize(s: Snap, dv: int, dvsize: int, p: int)
    requires Settled(s, dv, dvsize) && p in Live(s.h)
    ensures ChunkSize(Rd(s.mem, p + HEAD)) == Live(s.h)[p]
  {
    hide Inv, Rd, PInUse, CInUse, ChunkSize;
    UsageCheck(s, {dv}, p);
  }

  /** A block that had to move is smaller than the request: the whole payload is copied. */
  lemma OldFits(bytes: nat, size: int)
    requires bytes < MAX_REQUEST && size % 16 == 0 && MIN_CHUNK <= size < Request2Size(bytes)
    ensures size - HEAD < bytes && (size - HEAD) % 8 == 0
  {
    RequestSize(bytes);
  }

  lemma WordAligned(p: int)
    requires p % 16 == 0
    ensures p % 8 == 0
  {
    assert p == 8 * (2 * (p / 16));
  }

  lemma NewBlock(s: Snap, t: Snap, nb: int, q: int, p: int)
    requires Served(s, t, nb, q) && p in Live(s.h)
    ensures p != q && p in Live(t.h) && Live(t.h)[p] == Live(s.h)[p] && q in Live(t.h) && Live(t.h)[q] >= nb
  {
    hide Live, Keeps;
  }

  // ---- memalign ----

  /** A new block at p with room for nb bytes; everything that was in use is as it was. */
  ghost predicate Granted(s: Snap, t: Snap, nb: int, p: int) {
    && p !in Live(s.h) && p in Live(t.h) && nb <= Live(t.h)[p] && Live(t.h) == Live(s.h)[p := Live(t.h)[p]]
    && Keeps(s, t, {})
  }

  /** internal_malloc asked for enough that an aligned block fits behind a leader of at least a minimum chunk. */
  lemma LeaderFits(ptr: nat, k: nat, nb: int, size: int)
    requires 5 <= k <= 63 && ptr + Pow2(k) <= WORD && ptr % 16 == 0 && size % 16 == 0 && nb >= 0
    requires size >= nb + Pow2(k) + MIN_CHUNK
    ensures Pow2(k) <= WORD
    ensures var br := And(ptr + Pow2(k) - 1, WORD - Pow2(k)) - FD;
            var pos := if br - (ptr - FD) >= MIN_CHUNK then br else br + Pow2(k);
            && Multiple(pos + FD, Pow2(k)) && pos % 16 == 0
            && ptr - FD + MIN_CHUNK <= pos && pos + nb < ptr - FD + size
  {
    hide And, Pow2, Multiple;
    AlignedSpot(ptr, k);
    var r := And(ptr + Pow2(k) - 1, WORD - Pow2(k));
    NextMultiple(r, Pow2(k));
    Aligned16(r, k);
    SelfMultiple(Pow2(k));
    Aligned16(Pow2(k), k);
    Pow2Mono(5, k);
    Pow2Five();
    SpotArith(ptr, r, Pow2(k), nb, size);
  }

  lemma SelfMultiple(a: int)
    ensures Multiple(a, a)
  {
    assert a == 1 * a;
  }

  lemma SpotArith(ptr: int, r: int, a: int, nb: int, size: int)
    requires ptr % 16 == 0 && r % 16 == 0 && a % 16 == 0 && a >= MIN_CHUNK && ptr <= r < ptr + a
    requires size >= nb + a + MIN_CHUNK
    ensures var pos := if r - FD - (ptr - FD) >= MIN_CHUNK then r - FD else r - FD + a;
            (pos + FD == r || pos + FD == r + a) && pos % 16 == 0 && ptr - FD + MIN_CHUNK <= pos
                && pos + nb < ptr - FD + size
  {
  }

  lemma Pow2Five()
    ensures Pow2(5) == 32
  {
  }

  lemma NextMultiple(x: int, a: int)
    requires Multiple(x, a)
    ensures Multiple(x + a, a)
  {
    var q :| x == q * a;
    assert x + a == (q + 1) * a;
  }

  /** The leader is given back: the block that remains is new. */
  lemma LeaderDropped(s: Snap, s1: Snap, s2: Snap, t: Snap, nb: int, p: int, c: int, e: int)
    requires Served(s, s1, nb, p) && Parted(s1, s2, p, c, e) && Dropped(s2, t, p) && p != c && e - c >= 0
    ensures Granted(s, t, e - c, c) && Live(t.h)[c] == e - c
  {
    hide Live, Keeps, FrontKept;
    KeepsTrans(s, s1, s2, {}, {p});
    assert {} + {p} == {p};
    KeepsTrans(s, s2, t, {p}, {p});
    assert {p} + {p} == {p};
    KeepsAbsent(s, t, p);
    LeaderMap(Live(s.h), p, Live(s1.h)[p], c - p, c, e - c);
  }

  lemma LeaderMap(m: map<int, int>, p: int, u: int, v: int, c: int, w: int)
    requires p !in m && p != c && c !in m[p := u]
    ensures m[p := u][p := v][c := w] - {p} == m[c := w] && c !in m
  {
  }

  lemma KeepsAbsent(s: Snap, t: Snap, p: int)
    requires Keeps(s, t, {p}) && p !in Live(s.h)
    ensures Keeps(s, t, {})
  {
    hide SamePayload;
  }

  lemma TrimmedGrant(s: Snap, t: Snap, u: Snap, nb: int, nb': int, p: int)
    requires Granted(s, t, nb, p) && Resized(t, u, p, nb')
    ensures Granted(s, u, nb', p)
  {
    hide Live, Keeps, FrontKept;
    KeepsTrans(s, t, u, {}, {p});
    assert {} + {p} == {p};
    KeepsAbsent(s, u, p);
    Twice(Live(s.h), p, Live(t.h)[p], Live(u.h)[p]);
  }

  lemma Twice(m: map<int, int>, p: int, v: int, w: int)
    ensures m[p := v][p := w] == m[p := w]
  {
  }

  /** The spare room at the end of a block is given back. */
  method GiveBackTail(heap: Heap, p: int, nb: int, ghost s: Snap, ghost nb0: int)
    requires heap.Valid() && Granted(s, heap.View(), nb0, p) && MIN_CHUNK <= nb && nb % 16 == 0 && nb <= Live(heap.h)[p]
    modifies heap
    ensures heap.Valid() && Granted(s, heap.View(), nb, p) && Live(heap.h)[p] <= nb + MIN_CHUNK
    ensures heap.top + heap.topsize == old(heap.top + heap.topsize)
  {
    hide Inv, Live, Keeps, Granted, Resized, Rd, ChunkSize, PBit, CInUse, Unbinned, Reach;
    ghost var t := heap.View();
    GrantedIn(s, t, nb0, p);
    LiveBounds(t, heap.dv, heap.dvsize, p);
    ReallocStart(t, heap.dv, heap.dvsize, p);
    HeapLow(t, {heap.dv});
    var size := ChunkSize(Rd(heap.mem, p + HEAD));
    ReachDv(t, {heap.dv}, p, p + size, heap.dv);
    if size > nb + MIN_CHUNK {
      heap.Trim(p, nb, p + size, {heap.dv});
      TrimmedGrant(s, t, heap.View(), nb0, nb, p);
      ResizedSize(t, heap.View(), p, nb);
    } else {
      LessGranted(s, t, nb0, nb, p);
    }
  }

  lemma GrantedIn(s: Snap, t: Snap, nb: int, p: int)
    requires Granted(s, t, nb, p)
    ensures p in Live(t.h)
  {
    hide Live, Keeps;
  }

  lemma LessGranted(s: Snap, t: Snap, nb: int, nb': int, p: int)
    requires Granted(s, t, nb, p) && nb' <= Live(t.h)[p]
    ensures Granted(s, t, nb', p)
  {
    hide Live, Keeps;
  }

  lemma ResizedSize(s: Snap, t: Snap, p: int, nb: int)
    requires Resized(s, t, p, nb)
    ensures p in Live(t.h) && Live(t.h)[p] < nb + MIN_CHUNK && t.top + t.topsize == s.top + s.topsize
  {
    hide Live, Keeps, FrontKept;
  }

  /** The leading space before the aligned spot c is given back. */
  method GiveBackLeader(heap: Heap, p: int, c: int, ghost s: Snap, ghost nb: int)
    requires heap.Valid() && Served(s, heap.View(), nb, p) && p in Live(heap.h)
    requires p + MIN_CHUNK <= c && c + MIN_CHUNK <= p + Live(heap.h)[p] && c % 16 == 0
    modifies heap
    ensures heap.Valid() && Granted(s, heap.View(), old(p + Live(heap.h)[p]) - c, c)
    ensures c in Live(heap.h) && Live(heap.h)[c] == old(p + Live(heap.h)[p]) - c
    ensures heap.top + heap.topsize == old(heap.top + heap.topsize)
  {
    hide Inv, Live, Keeps, Granted, Served, Rd, ChunkSize, PBit, CInUse, Unbinned, Reach, Parted, Dropped;
    ghost var t := heap.View();
    LiveBounds(t, heap.dv, heap.dvsize, p);
    ReallocStart(t, heap.dv, heap.dvsize, p);
    HeapLow(t, {heap.dv});
    var e := p + ChunkSize(Rd(heap.mem, p + HEAD));
    ReachDv(t, {heap.dv}, p, e, heap.dv);
    heap.PartOff(p, c, e, false, {heap.dv});
    ghost var t1 := heap.View();
    PartedUsed(t, t1, p, c, e);
    heap.DisposeChunk(p, c - p);
    LeaderDropped(s, t, t1, heap.View(), nb, p, c, e);
    GrantedIn(s, heap.View(), e - c, c);
    DroppedEnd(t, t1, heap.View(), p, c, e);
  }

  lemma DroppedEnd(s: Snap, t: Snap, u: Snap, p: int, c: int, e: int)
    requires Parted(s, t, p, c, e) && Dropped(t, u, p)
    ensures u.top + u.topsize == s.top + s.topsize
  {
    hide Live, Keeps, FrontKept;
  }

  lemma ServedIsGranted(s: Snap, t: Snap, nb: int, p: int)
    requires Served(s, t, nb, p)
    ensures Granted(s, t, nb, p) && p in Live(t.h) && nb <= Live(t.h)[p]
  {
    hide Live, Keeps;
  }

  /** The request memalign passes to malloc. */
  function PaddedRequest(bytes: int, al: int): int { Request2Size(bytes) + al + MIN_CHUNK - HEAD }

  /** internal_memalign */
  method InternalMemalign(heap: Heap, alignment: nat, bytes: nat, grant: nat) returns (ptr: int)
    requires heap.Valid() && bytes < WORD && alignment <= HALF && heap.base + 2 * SIZE_LIMIT <= WORD
    requires grant % 16 == 0 && heap.top + heap.topsize + grant - heap.base < SIZE_LIMIT
    modifies heap
    ensures heap.Valid()
    ensures ptr != 0 <==>
      var nb := Request2Size(PaddedRequest(bytes, Rounded(alignment)));
      (exists q :: Roomy(old(heap.h), nb, q)) || nb < old(heap.topsize) + grant
    ensures ptr != 0 ==> bytes < MAX_REQUEST
    ensures ptr != 0 ==>
      Multiple(ptr, Rounded(alignment)) && Granted(old(heap.View()), heap.View(), Request2Size(bytes), ptr - FD)
    ensures ptr != 0 ==> Live(heap.h)[ptr - FD] <= Request2Size(bytes) + MIN_CHUNK
    ensures ptr == 0 ==> heap.h == old(heap.h) && Keeps(old(heap.View()), heap.View(), {})
    ensures heap.top + heap.topsize <= old(heap.top + heap.topsize) + grant
  {
    hide Inv, Live, Keeps, Granted, Served, Roomy, Chosen, Rounded, And, Multiple, Pow2, Request2Size;
    ghost var s := heap.View();
    SelfKeeps(s);
    ptr := 0;
    var al; ghost var k;
    al, k := RoundAlignment(alignment);
    if bytes < MAX_REQUEST - al {
      var nb := Request2Size(bytes);
      RequestSize(bytes);
      RequestBound(bytes);
      var req := nb + al + MIN_CHUNK - HEAD;
      ptr := heap.Malloc(req, grant);
      if ptr != 0 {
        RequestSize(req);
        ptr := AlignBlock(heap, ptr, al, k, nb, s, Request2Size(req));
      }
    } else {
      PaddedLarger(bytes, al);
      TooLarge(s, heap.dv, heap.dvsize, grant, Request2Size(PaddedRequest(bytes, al)));
    }
  }

  lemma PaddedLarger(bytes: nat, al: int)
    requires al >= 0
    ensures Request2Size(PaddedRequest(bytes, al)) > bytes + al
  {
  }

  lemma RequestBound(bytes: nat)
    requires bytes < MAX_REQUEST
    ensures Request2Size(bytes) <= bytes + MIN_CHUNK
  {
  }

  /** Turns a freshly allocated block into an aligned one of nb bytes. */
  method AlignBlock(heap: Heap, mem: int, al: nat, ghost k: nat, nb: int, ghost s: Snap, ghost nb0: int)
    returns (ptr: int)
    requires heap.Valid() && Served(s, heap.View(), nb0, mem - FD) && al == Pow2(k) && 5 <= k <= 63
    requires MIN_CHUNK <= nb && nb % 16 == 0 && nb0 >= nb + al + MIN_CHUNK && heap.base + 2 * SIZE_LIMIT <= WORD
    modifies heap
    ensures heap.Valid() && Multiple(ptr, al) && ptr != 0 && Granted(s, heap.View(), nb, ptr - FD)
    ensures ptr - FD in Live(heap.h) && Live(heap.h)[ptr - FD] <= nb + MIN_CHUNK
    ensures heap.top + heap.topsize == old(heap.top + heap.topsize)
  {
    hide Inv, Live, Keeps, Granted, Served, And, Multiple, Pow2;
    ghost var t := heap.View();
    var p := mem - FD;
    ServedIsGranted(s, t, nb0, p);
    LiveBounds(t, heap.dv, heap.dvsize, p);
    Bounds(t, heap.dv, heap.dvsize);
    BelowWord(t, heap.dv, heap.dvsize, p, al);
    AlignedSpot(mem, k);
    if And(mem, al - 1) != 0 {
      LeaderFits(mem, k, nb, Live(heap.h)[p]);
      var br := And(mem + al - 1, WORD - al) - FD;
      var pos := if br - p >= MIN_CHUNK then br else br + al;
      RoomAfter(nb, pos, p + Live(heap.h)[p]);
      GiveBackLeader(heap, p, pos, s, nb0);
      ghost var size := Live(heap.h)[pos];
      GiveBackTail(heap, pos, nb, s, size);
      ptr := pos + FD;
    } else {
      GiveBackTail(heap, p, nb, s, nb0);
      ptr := mem;
    }
    GrantedIn(s, heap.View(), nb, ptr - FD);
  }

  lemma RoomAfter(nb: int, pos: int, e: int)
    requires nb >= MIN_CHUNK && pos + nb < e
    ensures pos + MIN_CHUNK <= e
  {
  }

  lemma BelowWord(s: Snap, dv: int, dvsize: int, p: int, al: int)
    requires Settled(s, dv, dvsize) && p in Live(s.h) && s.base + 2 * SIZE_LIMIT <= WORD
    requires al + MIN_CHUNK <= Live(s.h)[p]
    ensures 0 <= p && p + FD + al <= WORD
  {
    hide Rd, TagsOk, SmallOk, TreesOk, BinsMatch;
    LiveBounds(s, dv, dvsize, p);
    Bounds(s, dv, dvsize);
  }

  /** What malloc is asked for: the request itself, or enough to find an aligned block in it. */
  ghost function Asked(alignment: nat, bytes: nat): int {
    if alignment <= 16 then bytes else PaddedRequest(bytes, Rounded(alignment))
  }

  /** dlmemalign */
  method Memalign(heap: Heap, alignment: nat, bytes: nat, grant: nat) returns (ptr: int)
    requires heap.Valid() && bytes < WORD && alignment <= HALF && heap.base + 2 * SIZE_LIMIT <= WORD
    requires grant % 16 == 0 && heap.top + heap.topsize + grant - heap.base < SIZE_LIMIT
    modifies heap
    ensures heap.Valid()
    ensures ptr != 0 <==>
      var nb := Request2Size(Asked(alignment, bytes));
      (exists q :: Roomy(old(heap.h), nb, q)) || nb < old(heap.topsize) + grant
    ensures ptr != 0 ==> Granted(old(heap.View()), heap.View(), Request2Size(bytes), ptr - FD)
    ensures ptr != 0 ==> bytes < MAX_REQUEST && (IsPow2(alignment) ==> Multiple(ptr, alignment))
    ensures ptr == 0 ==> heap.h == old(heap.h) && Keeps(old(heap.View()), heap.View(), {})
    ensures heap.top + heap.topsize <= old(heap.top + heap.topsize) + grant
  {
    hide Inv, Live, Keeps, Granted, Served, Roomy, Chosen, Rounded, Multiple, Pow2, Request2Size, IsPow2;
    ghost var s := heap.View();
    if alignment <= 16 {
      ptr := heap.Malloc(bytes, grant);
      if ptr != 0 {
        ServedIsGranted(s, heap.View(), Request2Size(bytes), ptr - FD);
        LiveBounds(heap.View(), heap.dv, heap.dvsize, ptr - FD);
        SmallAlignment(ptr, alignment);
      }
    } else {
      ptr := InternalMemalign(heap, alignment, bytes, grant);
      if ptr != 0 { LargeAlignment(ptr, alignment); }
    }
  }

  lemma SmallAlignment(ptr: int, alignment: nat)
    requires ptr % 16 == 0 && alignment <= 16
    ensures IsPow2(alignment) ==> Multiple(ptr, alignment)
  {
    if k: nat :| Pow2(k) == alignment {
      assert Pow2(4) == 16;
      if k > 4 { Pow2Mono(5, k); }
      assert ptr == ptr / 16 * 16;
      assert Multiple(ptr, Pow2(4));
      SmallerPower(ptr, k, 4);
    }
  }

  lemma LargeAlignment(ptr: int, alignment: nat)
    requires alignment <= HALF && Multiple(ptr, Rounded(alignment))
    ensures IsPow2(alignment) ==> Multiple(ptr, alignment)
  {
    var k := PowerFrom(5, alignment);
    hide Multiple;
    if j: nat :| Pow2(j) == alignment {
      PowerReached(5, alignment);
      if j > k { Pow2Mono(k + 1, j); }
      SmallerPower(ptr, j, k);
    }
  }

  lemma {:induction false} PowerReached(k: nat, alignment: nat)
    requires k <= 63 && alignment <= HALF
    ensures Pow2(PowerFrom(k, alignment)) >= alignment
    decreases 63 - k
  {
    Pow2Values();
    if Pow2(k) < alignment && k < 63 { PowerReached(k + 1, alignment); }
  }
}
