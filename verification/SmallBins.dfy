/** The 32 small bins: circular lists through their array slots, and the operations on them. */
module SmallBins {
  import opened Words
  import opened BinMap
  import opened Chunk
  import opened Trie
  import opened TrieEdit
  import opened TrieLinks
  import opened Rings
  import opened TreeBins

  const BINS: nat := 32

  ghost predicate SmallChunk(m: Mem, x: int, s: int) {
    x >= LOWEST && MIN_CHUNK <= s < MIN_LARGE && s % 8 == 0 && ChunkSize(Rd(m, x + HEAD)) == s
  }

  /** small_index */
  function SmallIndex(s: int): int { s / 8 }

  /** The ring of bin i as seen from its header. */
  ghost function FromHeader(i: int, l: seq<int>): seq<int> { [SmallbinAt(i)] + l }

  /** A marked bin is a ring; the header links of an unmarked bin are stale. */
  ghost predicate ListOk(m: Mem, smallmap: nat, l: seq<int>, i: nat) {
    && (Bit(smallmap, i) <==> l != [])
    && (l != [] ==> Ring(m, FromHeader(i, l)))
    && NoDup(l)
  }

  ghost predicate ListHolds(l: seq<int>, i: nat, b: map<int, int>) {
    forall x :: x in l <==> x in b && b[x] == 8 * i
  }

  /** The small bins hold exactly the chunks of b, each in the bin of its size. */
  ghost predicate SmallOk(m: Mem, smallmap: nat, small: seq<seq<int>>, b: map<int, int>) {
    && smallmap < MAP && |small| == BINS
    && Apart(b)
    && (forall x :: x in b ==> SmallChunk(m, x, b[x]))
    && (forall i :: 0 <= i < BINS ==> ListOk(m, smallmap, small[i], i))
    && (forall i :: 0 <= i < BINS ==> ListHolds(small[i], i, b))
  }

  /** Address a is no link field of the given chunks. */
  ghost predicate OffSmall(s: set<int>, a: int) {
    forall y :: y in s ==> !(y + FD <= a < y + 32)
  }

  ghost predicate SmallSlot(a: int) { SMALLBINS <= a < SMALLBINS + 16 * (BINS + 1) }

  ghost predicate OnlySmallLinks(m: Mem, n: Mem, s: set<int>) {
    forall a :: OffSmall(s, a) && !SmallSlot(a) ==> Rd(n, a) == Rd(m, a)
  }

  /** A bin none of whose link words changes stays as it is. */
  lemma ListFrame(m: Mem, n: Mem, smallmap: nat, smallmap': nat, l: seq<int>, i: nat)
    requires ListOk(m, smallmap, l, i) && (Bit(smallmap', i) <==> Bit(smallmap, i))
    requires SameRing(m, n, SmallbinAt(i)) && forall y :: y in l ==> SameRing(m, n, y)
    ensures ListOk(n, smallmap', l, i)
  {
    hide Rd, Bit, SameRing;
    if l != [] {
      var s := FromHeader(i, l);
      forall k | 0 <= k < |s| ensures SameRing(m, n, s[k]) {
        if k > 0 { assert s[k] == l[k - 1]; }
      }
      RingFrame(m, n, s);
    }
  }

  lemma ReplaceList(m: Mem, n: Mem, smallmap: nat, smallmap': nat, small: seq<seq<int>>, b: map<int, int>, b': map<int,
                    int>, i: nat, l: seq<int>)
    requires SmallOk(m, smallmap, small, b) && i < BINS && smallmap' < MAP
    requires forall j: nat :: j < BINS && j != i ==> (Bit(smallmap', j) <==> Bit(smallmap, j))
    requires forall j: nat :: j < BINS && j != i ==> SameRing(m, n, SmallbinAt(j))
    requires forall y :: y in b && b[y] != 8 * i ==> SameRing(m, n, y)
    requires Apart(b') && (forall y :: y in b' ==> SmallChunk(n, y, b'[y]))
    requires ListOk(n, smallmap', l, i) && ListHolds(l, i, b')
    requires forall y :: y in b && b[y] != 8 * i ==> y in b' && b'[y] == b[y]
    requires forall y :: y in b' && b'[y] != 8 * i ==> y in b && b'[y] == b[y]
    ensures SmallOk(n, smallmap', small[i := l], b')
  {
    hide Rd, Bit, SameRing, ListOk, SmallChunk;
    var small' := small[i := l];
    forall j | 0 <= j < BINS
      ensures ListOk(n, smallmap', small'[j], j) && ListHolds(small'[j], j, b')
    {
      if j != i {
        assert ListOk(m, smallmap, small[j], j) && ListHolds(small[j], j, b);
        ListFrame(m, n, smallmap, smallmap', small[j], j);
      }
    }
  }

  // ---- insert_small_chunk ----

  /** Two places whose link words cannot overlap. */
  ghost predicate Off32(x: int, y: int) { y + 32 <= x || x + 32 <= y }

  /** Bin headers and chunks keep their link words apart. */
  ghost predicate LinkPlaces(s: seq<int>, i: nat, x: int) {
    && NoDup(s) && s != [] && s[0] == SmallbinAt(i)
    && x >= LOWEST && x !in s
    && (forall k :: 1 <= k < |s| ==> s[k] >= LOWEST && Off32(x, s[k]))
    && (forall j, k :: 1 <= j < k < |s| ==> Off32(s[j], s[k]))
  }

  ghost function InsertStores(m: Mem, h: int, f: int, x: int): Mem {
    m[h + FD := x][f + BK := x][x + FD := f][x + BK := h]
  }

  lemma InsertStoresRd(m: Mem, h: int, f: int, x: int, a: int)
    ensures a != h + FD && a != f + BK && a != x + FD && a != x + BK ==> Rd(InsertStores(m, h, f, x), a) == Rd(m, a)
  {
  }

  lemma InsertStoresNew(m: Mem, h: int, f: int, x: int)
    requires h < LOWEST <= x && f != x && (f == h || f + 32 <= x || x + 32 <= f)
    requires f == h || f >= LOWEST
    requires h + 32 <= LOWEST
    ensures var n := InsertStores(m, h, f, x);
            Rd(n, h + FD) == x && Rd(n, f + BK) == x && Rd(n, x + FD) == f && Rd(n, x + BK) == h
  {
  }

  lemma InsertIntoRing(m: Mem, n: Mem, s: seq<int>, i: nat, x: int)
    requires i < BINS && LinkPlaces(s, i, x) && Ring(m, s) && |s| > 1
    requires n == InsertStores(m, s[0], s[1], x)
    ensures Ring(n, [s[0], x] + s[1..])
  {
    hide Rd, InsertStores;
    InsertStoresNew(m, s[0], s[1], x);
    forall k | 0 <= k < |s|
      ensures k > 0 ==> Rd(n, s[k] + FD) == Rd(m, s[k] + FD)
      ensures k != 1 ==> Rd(n, s[k] + BK) == Rd(m, s[k] + BK)
    {
      InsertStoresRd(m, s[0], s[1], x, s[k] + FD);
      InsertStoresRd(m, s[0], s[1], x, s[k] + BK);
    }
    RingInsert(m, n, s, x);
  }

  lemma FirstInRing(m: Mem, n: Mem, i: nat, x: int)
    requires i < BINS && x >= LOWEST && n == InsertStores(m, SmallbinAt(i), SmallbinAt(i), x)
    ensures Ring(n, [SmallbinAt(i), x])
  {
    hide Rd, InsertStores;
    InsertStoresNew(m, SmallbinAt(i), SmallbinAt(i), x);
    var s := [SmallbinAt(i), x];
    assert LinkAt(n, s, 0) && LinkAt(n, s, 1);
  }

  ghost predicate CanInsertSmall(m: Mem, smallmap: nat, small: seq<seq<int>>, b: map<int, int>, x: int, s: int) {
    SmallOk(m, smallmap, small, b) && SmallChunk(m, x, s) && Room(b, x, s)
  }

  ghost function InsertedSmall(small: seq<seq<int>>, x: int, i: int): seq<seq<int>>
    requires |small| == BINS && 0 <= i < BINS
  {
    small[i := [x] + small[i]]
  }

  /** A bin's chunks lie apart from each other, from a new chunk, and from the headers. */
  lemma BinPlaces(m: Mem, smallmap: nat, small: seq<seq<int>>, b: map<int, int>, x: int, s: int, i: nat)
    requires CanInsertSmall(m, smallmap, small, b, x, s) && i < BINS
    ensures LinkPlaces(FromHeader(i, small[i]), i, x) && x >= LOWEST
    ensures forall y :: y in b ==> Off32(x, y) && y >= LOWEST
    ensures forall y, z :: y in b && z in b ==> y == z || Off32(y, z)
  {
    hide Rd, Bit, Ring, ChunkSize;
    assert ListHolds(small[i], i, b) && ListOk(m, smallmap, small[i], i);
    var q := FromHeader(i, small[i]);
    assert forall k :: 1 <= k < |q| ==> q[k] == small[i][k - 1];
    assert forall k :: 1 <= k < |q| ==> q[k] in b;
  }

  lemma InsertSmallDone(m: Mem, n: Mem, smallmap: nat, smallmap': nat, small: seq<seq<int>>, b: map<int, int>,
                        b': map<int, int>, x: int, s: int, i: nat, f: int)
    requires CanInsertSmall(m, smallmap, small, b, x, s) && i < BINS && s == 8 * i && b' == b[x := s]
    requires f == (if small[i] == [] then SmallbinAt(i) else small[i][0]) && n == InsertStores(m, SmallbinAt(i), f, x)
    requires smallmap' < MAP && forall j: nat :: j < BINS ==> (Bit(smallmap', j) <==> i == j || Bit(smallmap, j))
    ensures SmallOk(n, smallmap', InsertedSmall(small, x, i), b')
    ensures OnlySmallLinks(m, n, b.Keys + {x})
  {
    hide Rd, Bit, ChunkSize, ListOk, InsertStores, LinkPlaces, SameRing, SmallChunk, OnlySmallLinks, Off32;
    var l, h := small[i], SmallbinAt(i);
    assert ListHolds(l, i, b) && ListOk(m, smallmap, l, i);
    BinPlaces(m, smallmap, small, b, x, s, i);
    assert f == h || (f in b && b[f] == 8 * i) by { if l != [] { assert l[0] in l; } }
    InsertFrame(m, n, b, i, x, f);
    AddSmallRoom(m, n, b, b', x, s, l, i);
    NewList(m, n, smallmap, smallmap', l, i, x, f);
    ReplaceList(m, n, smallmap, smallmap', small, b, b', i, [x] + l);
  }

  lemma AddSmallRoom(m: Mem, n: Mem, b: map<int, int>, b': map<int, int>, x: int, s: int, l: seq<int>, i: nat)
    requires Apart(b) && (forall y :: y in b ==> SmallChunk(m, y, b[y])) && SmallChunk(m, x, s) && Room(b, x, s)
    requires b' == b[x := s] && ListHolds(l, i, b) && s == 8 * i
    requires forall y :: y in b || y == x ==> Rd(n, y + HEAD) == Rd(m, y + HEAD)
    ensures x !in b && x !in l && Apart(b') && (forall y :: y in b' ==> SmallChunk(n, y, b'[y]))
    ensures ListHolds([x] + l, i, b')
  {
    hide Rd, ChunkSize;
  }

  lemma InsertFrame(m: Mem, n: Mem, b: map<int, int>, i: nat, x: int, f: int)
    requires i < BINS && x >= LOWEST && (f == SmallbinAt(i) || (f in b && b[f] == 8 * i))
    requires n == InsertStores(m, SmallbinAt(i), f, x)
    requires forall y :: y in b ==> Off32(x, y) && y >= LOWEST
    requires forall y, z :: y in b && z in b ==> y == z || Off32(y, z)
    ensures forall j: nat :: j < BINS && j != i ==> SameRing(m, n, SmallbinAt(j))
    ensures forall y :: y in b && b[y] != 8 * i ==> SameRing(m, n, y)
    ensures forall y :: y in b || y == x ==> Rd(n, y + HEAD) == Rd(m, y + HEAD)
    ensures OnlySmallLinks(m, n, b.Keys + {x})
  {
    hide Rd, InsertStores;
    var h := SmallbinAt(i);
    forall a ensures a != h + FD && a != f + BK && a != x + FD && a != x + BK ==> Rd(n, a) == Rd(m, a) {
      InsertStoresRd(m, h, f, x, a);
    }
  }

  lemma NewList(m: Mem, n: Mem, smallmap: nat, smallmap': nat, l: seq<int>, i: nat, x: int, f: int)
    requires i < BINS && ListOk(m, smallmap, l, i) && LinkPlaces(FromHeader(i, l), i, x) && Bit(smallmap', i)
    requires x !in l && x >= LOWEST
    requires f == (if l == [] then SmallbinAt(i) else l[0]) && n == InsertStores(m, SmallbinAt(i), f, x)
    ensures ListOk(n, smallmap', [x] + l, i)
  {
    hide Rd, Bit, Ring, InsertStores, LinkPlaces, NoDup;
    var h, q := SmallbinAt(i), FromHeader(i, l);
    NoDupCons(x, l);
    if l == [] {
      FirstInRing(m, n, i, x);
      assert FromHeader(i, [x] + l) == [h, x];
    } else {
      InsertIntoRing(m, n, q, i, x);
      assert q[1..] == l;
      assert [q[0], x] + q[1..] == FromHeader(i, [x] + l);
    }
  }

  lemma NoDupCons(x: int, l: seq<int>)
    requires NoDup(l) && x !in l
    ensures NoDup([x] + l)
  {
  }

  /** What a marked bin's header says. */
  lemma HeaderFacts(m: Mem, smallmap: nat, small: seq<seq<int>>, b: map<int, int>, i: nat)
    requires SmallOk(m, smallmap, small, b) && i < BINS
    ensures And(smallmap, Idx2Bit(i)) != 0 <==> small[i] != []
    ensures Bit(smallmap, i) <==> small[i] != []
    ensures small[i] != [] ==> Rd(m, SmallbinAt(i) + FD) == small[i][0] && small[i][0] in b && b[small[i][0]] == 8 * i
  {
    hide Rd, Bit, ChunkSize, And;
    var l := small[i];
    assert ListOk(m, smallmap, l, i) && ListHolds(l, i, b);
    MarkedIff(smallmap, i);
    if l != [] {
      assert LinkAt(m, FromHeader(i, l), 0);
      assert FromHeader(i, l)[1] == l[0] && l[0] in l;
    }
  }

  /** insert_small_chunk(M, P, S) */
  method InsertSmall(m0: Mem, smallmap0: nat, x: int, s: int, ghost small0: seq<seq<int>>, ghost b: map<int, int>)
    returns (m: Mem, smallmap: nat, ghost small: seq<seq<int>>)
    requires CanInsertSmall(m0, smallmap0, small0, b, x, s)
    ensures SmallOk(m, smallmap, small, b[x := s])
    ensures OnlySmallLinks(m0, m, b.Keys + {x})
    ensures |small0| == BINS && 0 <= s / 8 < BINS && small == small0[s / 8 := [x] + small0[s / 8]]
  {
    assert 0 < s < MIN_LARGE && s % 8 == 0 && |small0| == BINS && SmallOk(m0, smallmap0, small0, b) && smallmap0 < MAP;
    hide Rd, SmallOk, CanInsertSmall, And, Bit, Mark, OnlySmallLinks;
    var i := SmallIndex(s);
    var h := SmallbinAt(i);
    var f := h;
    m, smallmap := m0, smallmap0;
    HeaderFacts(m, smallmap, small0, b, i);
    MarkBit(smallmap, i);
    if And(smallmap, Idx2Bit(i)) == 0 {
      smallmap := Mark(smallmap, i);
    } else {
      f := Rd(m, h + FD);
    }
    m := m[h + FD := x];
    m := m[f + BK := x];
    m := m[x + FD := f];
    m := m[x + BK := h];
    small := InsertedSmall(small0, x, i);
    InsertSmallDone(m0, m, smallmap0, smallmap, small0, b, b[x := s], x, s, i, f);
  }

  // ---- unlink_small_chunk and unlink_first_small_chunk ----

  ghost function UnlinkedSmall(small: seq<seq<int>>, x: int, i: int): seq<seq<int>>
    requires |small| == BINS && 0 <= i < BINS
  {
    small[i := Drop(small[i], x)]
  }

  /** Where a binned chunk sits in its ring, its neighbours, and how far apart their link words are. */
  ghost predicate InRing(m: Mem, q: seq<int>, i: nat, k: int, x: int) {
    && NoDup(q) && |q| > 1 && q[0] == SmallbinAt(i) && Ring(m, q) && 1 <= k < |q| && q[k] == x
    && (forall j :: 1 <= j < |q| ==> q[j] >= LOWEST)
    && (forall j, g :: 1 <= j < g < |q| ==> Off32(q[j], q[g]))
  }

  lemma FindInRing(m: Mem, smallmap: nat, small: seq<seq<int>>, b: map<int, int>, x: int, i: nat) returns (k: int)
    requires SmallOk(m, smallmap, small, b) && x in b && i < BINS && b[x] == 8 * i
    ensures InRing(m, FromHeader(i, small[i]), i, k, x)
    ensures var q := FromHeader(i, small[i]); Rd(m, x + FD) == Succ(q, k) && Rd(m, x + BK) == Pred(q, k)
    ensures var q := FromHeader(i, small[i]); Rd(m, Succ(q, k) + BK) == x && Rd(m, Pred(q, k) + FD) == x
    ensures 1 <= k <= |small[i]| && small[i][k - 1] == x
    ensures var q := FromHeader(i, small[i]); Succ(q, k) == Pred(q, k) <==> |small[i]| == 1
  {
    hide Rd, Bit, ChunkSize, Ring, NoDup;
    var l := small[i];
    assert ListOk(m, smallmap, l, i) && ListHolds(l, i, b);
    var g :| 0 <= g < |l| && l[g] == x;
    k := g + 1;
    var q := FromHeader(i, l);
    forall j | 1 <= j < |q| ensures q[j] in b { assert q[j] == l[j - 1] && l[j - 1] in l; }
    NoDupCons(SmallbinAt(i), l);
    RingSpread(m, b, q);
    RingPred(m, q, k);
  }

  lemma RingSpread(m: Mem, b: map<int, int>, q: seq<int>)
    requires Apart(b) && (forall y :: y in b ==> SmallChunk(m, y, b[y])) && NoDup(q) && forall j ::
        1 <= j < |q| ==> q[j] in b
    ensures forall j :: 1 <= j < |q| ==> q[j] >= LOWEST
    ensures forall j, g :: 1 <= j < g < |q| ==> Off32(q[j], q[g])
  {
  }

  /** Unlinking from a ring of three or more. */
  lemma UnlinkFromRing(m: Mem, n: Mem, q: seq<int>, i: nat, k: int, x: int)
    requires i < BINS && InRing(m, q, i, k, x) && n == UnlinkStores(m, Succ(q, k), Pred(q, k))
    ensures Ring(n, q[..k] + q[k + 1..])
  {
    hide Rd, UnlinkStores, Ring;
    var fd, bk := Succ(q, k), Pred(q, k);
    UnlinkStoresRd(m, fd, bk, 0);
    forall j | 0 <= j < |q| && j != k
      ensures q[j] != bk ==> Rd(n, q[j] + FD) == Rd(m, q[j] + FD)
      ensures q[j] != fd ==> Rd(n, q[j] + BK) == Rd(m, q[j] + BK)
    {
      UnlinkStoresRd(m, fd, bk, q[j] + FD);
      UnlinkStoresRd(m, fd, bk, q[j] + BK);
    }
    RingRemove(m, n, q, k);
  }

  lemma WithoutHeader(h: int, l: seq<int>, k: int)
    requires 1 <= k <= |l|
    ensures var q := [h] + l; q[..k] + q[k + 1..] == [h] + (l[..k - 1] + l[k..])
  {
    var q := [h] + l;
    assert q[..k] == [h] + l[..k - 1];
    assert q[k + 1..] == l[k..];
  }

  /** The bin's list after x has left. */
  lemma ShorterList(m: Mem, n: Mem, smallmap: nat, smallmap': nat, l: seq<int>, i: nat, k: int, x: int)
    requires i < BINS && ListOk(m, smallmap, l, i) && InRing(m, FromHeader(i, l), i, k, x) && 1 <= k <= |l|
    requires l[k - 1] == x
    requires if |l| == 1 then n == m && !Bit(smallmap', i)
             else n == UnlinkStores(m, Succ(FromHeader(i, l), k), Pred(FromHeader(i, l), k)) && Bit(smallmap', i)
    ensures ListOk(n, smallmap', Drop(l, x), i)
  {
    hide Rd, UnlinkStores, Ring, Bit, InRing;
    var q := FromHeader(i, l);
    DropElems(l, x);
    DropAt(l, k - 1);
    if |l| == 1 {
    } else {
      UnlinkFromRing(m, n, q, i, k, x);
      WithoutHeader(SmallbinAt(i), l, k);
    }
  }

  lemma UnlinkSmallDone(m: Mem, n: Mem, smallmap: nat, smallmap': nat, small: seq<seq<int>>, b: map<int, int>,
                        b': map<int, int>, x: int, i: nat, k: int)
    requires SmallOk(m, smallmap, small, b) && x in b && i < BINS && b[x] == 8 * i && b' == b - {x}
    requires InRing(m, FromHeader(i, small[i]), i, k, x) && 1 <= k <= |small[i]| && small[i][k - 1] == x
    requires if |small[i]| == 1 then n == m && smallmap' == Clear(smallmap, i)
             else
               && n == UnlinkStores(m, Succ(FromHeader(i, small[i]), k), Pred(FromHeader(i, small[i]), k))
               && smallmap' == smallmap
    ensures SmallOk(n, smallmap', UnlinkedSmall(small, x, i), b')
    ensures OnlySmallLinks(m, n, b.Keys)
  {
    hide Rd, Bit, ChunkSize, ListOk, UnlinkStores, InRing, SameRing, SmallChunk, OnlySmallLinks, Clear;
    var l := small[i];
    assert ListHolds(l, i, b) && ListOk(m, smallmap, l, i);
    ClearBit(smallmap, i);
    assert Bit(smallmap, i) by { ListBit(m, smallmap, l, i); }
    ShorterList(m, n, smallmap, smallmap', l, i, k, x);
    UnlinkFrame(m, n, smallmap, small, b, x, i, k);
    assert NoDup(l) by { ListBit(m, smallmap, l, i); }
    DropElems(l, x);
    LessRoom(m, n, b, b', x, l, i);
    ReplaceList(m, n, smallmap, smallmap', small, b, b', i, Drop(l, x));
  }

  lemma ListBit(m: Mem, smallmap: nat, l: seq<int>, i: nat)
    requires ListOk(m, smallmap, l, i)
    ensures (Bit(smallmap, i) <==> l != []) && NoDup(l)
  {
  }

  lemma LessRoom(m: Mem, n: Mem, b: map<int, int>, b': map<int, int>, x: int, l: seq<int>, i: nat)
    requires Apart(b) && (forall y :: y in b ==> SmallChunk(m, y, b[y])) && b' == b - {x} && ListHolds(l, i, b)
    requires Elems(Drop(l, x)) == Elems(l) - {x}
    requires forall y :: y in b ==> Rd(n, y + HEAD) == Rd(m, y + HEAD)
    ensures Apart(b') && (forall y :: y in b' ==> SmallChunk(n, y, b'[y])) && ListHolds(Drop(l, x), i, b')
  {
    hide Rd, ChunkSize, Drop;
    assert forall y :: y in Drop(l, x) <==> y in Elems(Drop(l, x));
    assert forall y :: y in l <==> y in Elems(l);
  }

  lemma UnlinkFrame(m: Mem, n: Mem, smallmap: nat, small: seq<seq<int>>, b: map<int, int>, x: int, i: nat, k: int)
    requires SmallOk(m, smallmap, small, b) && x in b && i < BINS && b[x] == 8 * i
    requires InRing(m, FromHeader(i, small[i]), i, k, x)
    requires n == m || n == UnlinkStores(m, Succ(FromHeader(i, small[i]), k), Pred(FromHeader(i, small[i]), k))
    ensures forall j: nat :: j < BINS && j != i ==> SameRing(m, n, SmallbinAt(j))
    ensures forall y :: y in b && b[y] != 8 * i ==> SameRing(m, n, y)
    ensures forall y :: y in b ==> Rd(n, y + HEAD) == Rd(m, y + HEAD)
    ensures OnlySmallLinks(m, n, b.Keys)
  {
    hide Rd, Bit, ChunkSize, UnlinkStores, Ring, NoDup, SameRing, OnlySmallLinks, ListOk;
    var l, q := small[i], FromHeader(i, small[i]);
    assert ListHolds(l, i, b);
    forall j | 0 <= j < |q| ensures InBinOf(b, i, q[j]) { if j > 0 { assert q[j] == l[j - 1] && l[j - 1] in l; } }
    var fd, bk := Succ(q, k), Pred(q, k);
    assert InBinOf(b, i, fd) && InBinOf(b, i, bk);
    forall a ensures a != fd + BK && a != bk + FD ==> Rd(n, a) == Rd(m, a) {
      if n != m { UnlinkStoresRd(m, fd, bk, a); }
    }
    TwoWords(m, n, b, i, fd, bk);
  }

  /** The header of bin i, or one of its chunks. */
  ghost predicate InBinOf(b: map<int, int>, i: nat, y: int) { y == SmallbinAt(i) || (y in b && b[y] == 8 * i) }

  /** The link words of a header or chunk of bin i are not those of another bin, and no head word. */
  lemma LinksApart(m: Mem, b: map<int, int>, i: nat, f: int, y: int)
    requires Apart(b) && i < BINS && InBinOf(b, i, f) && (f in b ==> SmallChunk(m, f, b[f]))
    requires y in b && SmallChunk(m, y, b[y])
    ensures y + HEAD != f + FD && y + HEAD != f + BK
    ensures b[y] != 8 * i ==> y + FD != f + FD && y + FD != f + BK && y + BK != f + FD && y + BK != f + BK
  {
    hide Rd, ChunkSize;
  }

  lemma HeadersApart(m: Mem, b: map<int, int>, i: nat, f: int, j: nat)
    requires i < BINS && j < BINS && j != i && InBinOf(b, i, f) && (f in b ==> SmallChunk(m, f, b[f]))
    ensures var h := SmallbinAt(j); h + FD != f + FD && h + FD != f + BK && h + BK != f + FD && h + BK != f + BK
  {
    hide Rd, ChunkSize;
  }

  lemma LinksInside(m: Mem, b: map<int, int>, i: nat, f: int, a: int)
    requires i < BINS && InBinOf(b, i, f) && OffSmall(b.Keys, a) && !SmallSlot(a)
    ensures a != f + FD && a != f + BK
  {
  }

  lemma TwoWords(m: Mem, n: Mem, b: map<int, int>, i: nat, fd: int, bk: int)
    requires Apart(b) && (forall y :: y in b ==> SmallChunk(m, y, b[y])) && i < BINS
    requires InBinOf(b, i, fd) && InBinOf(b, i, bk)
    requires forall a :: a != fd + BK && a != bk + FD ==> Rd(n, a) == Rd(m, a)
    ensures forall j: nat :: j < BINS && j != i ==> SameRing(m, n, SmallbinAt(j))
    ensures forall y :: y in b && b[y] != 8 * i ==> SameRing(m, n, y)
    ensures forall y :: y in b ==> Rd(n, y + HEAD) == Rd(m, y + HEAD)
    ensures OnlySmallLinks(m, n, b.Keys)
  {
    hide Rd, SmallChunk, Apart, InBinOf, OffSmall, SmallSlot, SmallbinAt;
    forall j: nat | j < BINS && j != i ensures SameRing(m, n, SmallbinAt(j)) {
      HeadersApart(m, b, i, fd, j);
      HeadersApart(m, b, i, bk, j);
    }
    forall y | y in b ensures Rd(n, y + HEAD) == Rd(m, y + HEAD) && (b[y] != 8 * i ==> SameRing(m, n, y)) {
      LinksApart(m, b, i, fd, y);
      LinksApart(m, b, i, bk, y);
    }
    forall a | OffSmall(b.Keys, a) && !SmallSlot(a) ensures Rd(n, a) == Rd(m, a) {
      LinksInside(m, b, i, fd, a);
      LinksInside(m, b, i, bk, a);
    }
  }

  /** unlink_small_chunk(M, P, S) */
  method UnlinkSmall(m0: Mem, smallmap0: nat, x: int, s: int, ghost small0: seq<seq<int>>, ghost b: map<int, int>)
    returns (m: Mem, smallmap: nat, ghost small: seq<seq<int>>)
    requires SmallOk(m0, smallmap0, small0, b) && x in b && b[x] == s
    ensures SmallOk(m, smallmap, small, b - {x})
    ensures OnlySmallLinks(m0, m, b.Keys)
    ensures |small0| == BINS && 0 <= s / 8 < BINS && small == small0[s / 8 := Drop(small0[s / 8], x)]
  {
    assert |small0| == BINS && 0 < s < MIN_LARGE && s % 8 == 0 by { assert SmallChunk(m0, x, s); }
    hide Rd, SmallOk, OnlySmallLinks, InRing, Clear;
    var i := SmallIndex(s);
    ghost var k := FindInRing(m0, smallmap0, small0, b, x, i);
    small := UnlinkedSmall(small0, x, i);
    m, smallmap := m0, smallmap0;
    var f := Rd(m, x + FD);
    var bk := Rd(m, x + BK);
    assert Rd(m, f + BK) == x && Rd(m, bk + FD) == x;  // the run-time checks
    if bk == f {
      smallmap := Clear(smallmap, i);
    } else {
      m := m[f + BK := bk];
      m := m[bk + FD := f];
    }
    UnlinkSmallDone(m0, m, smallmap0, smallmap, small0, b, b - {x}, x, i, k);
  }

  /** unlink_first_small_chunk(M, B, P, I): the chunk after the header of a marked bin. */
  method UnlinkFirstSmall(m0: Mem, smallmap0: nat, i: nat, ghost small0: seq<seq<int>>, ghost b: map<int, int>)
    returns (m: Mem, smallmap: nat, x: int, ghost small: seq<seq<int>>)
    requires SmallOk(m0, smallmap0, small0, b) && i < BINS && Bit(smallmap0, i)
    ensures x in b && b[x] == 8 * i
    ensures SmallOk(m, smallmap, small, b - {x})
    ensures OnlySmallLinks(m0, m, b.Keys)
    ensures |small0| == BINS && |small0[i]| > 0 && x == small0[i][0] && small == small0[i := small0[i][1..]]
  {
    assert |small0| == BINS;
    hide Rd, SmallOk, OnlySmallLinks, InRing, Clear, Bit;
    var h := SmallbinAt(i);
    m, smallmap := m0, smallmap0;
    HeaderFacts(m, smallmap, small0, b, i);
    x := Rd(m, h + FD);
    ghost var k := FindInRing(m0, smallmap0, small0, b, x, i);
    FirstAfterHeader(m0, FromHeader(i, small0[i]), i, k, x);
    small := UnlinkedSmall(small0, x, i);
    var f := Rd(m, x + FD);
    assert Rd(m, f + BK) == x;  // the run-time check
    if h == f {
      smallmap := Clear(smallmap, i);
    } else {
      m := m[f + BK := h];
      m := m[h + FD := f];
    }
    UnlinkSmallDone(m0, m, smallmap0, smallmap, small0, b, b - {x}, x, i, k);
  }

  lemma FirstAfterHeader(m: Mem, q: seq<int>, i: nat, k: int, x: int)
    requires InRing(m, q, i, k, x) && x == q[1]
    ensures k == 1 && Pred(q, k) == SmallbinAt(i)
  {
  }
}
