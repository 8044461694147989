/** The 32 tree bins: their invariant, and insert_large_chunk and unlink_large_chunk. */
module TreeBins {
  import opened Words
  import opened BinMap
  import opened BinIndex
  import opened Chunk
  import opened Trie
  import opened TrieEdit
  import opened TrieLinks
  import opened TrieSurgery
  import opened Rings

  /** Largest chunk size whose tree index is right; see BinIndex.TreeIndexExact. */
  const SIZE_LIMIT: int := 0x100_0000_0000

  ghost predicate BinOk(m: Mem, treemap: nat, t: Tree, i: nat)
    requires i < TREEBINS
  {
    && (Bit(treemap, i) <==> t.Node?)
    && Rd(m, TreebinAt(i)) == Adr(t)
    && Linked(m, t, TreebinAt(i), i)
    && TrieOk(t, Lo(i), Width(i))
    && Distinct(t)
  }

  /** Chunk x of size s is free, lies in the heap, and its head word says so. */
  ghost predicate LargeChunk(m: Mem, x: int, s: int) {
    x >= LOWEST && MIN_LARGE <= s < SIZE_LIMIT && ChunkSize(Rd(m, x + HEAD)) == s
  }

  /** The binned chunks, with their sizes, do not overlap. */
  ghost predicate Apart(b: map<int, int>) {
    forall x, y :: x in b && y in b && x < y ==> x + b[x] <= y
  }

  /** Bin i holds exactly the chunks of b whose size has tree index i. */
  ghost predicate Holds(t: Tree, i: nat, b: map<int, int>) {
    forall x :: x in Members(t) <==> x in b && b[x] >= 0 && TreeIndex(b[x]) == i
  }

  /** The tree bins hold exactly the chunks of b, each in the bin of its size. */
  ghost predicate TreesOk(m: Mem, treemap: nat, trees: seq<Tree>, b: map<int, int>) {
    && treemap < MAP && |trees| == TREEBINS
    && Apart(b)
    && (forall x :: x in b ==> LargeChunk(m, x, b[x]))
    && (forall i :: 0 <= i < TREEBINS ==> BinOk(m, treemap, trees[i], i))
    && (forall i :: 0 <= i < TREEBINS ==> Holds(trees[i], i, b))
  }

  /** Address a is no field of the given chunks. */
  ghost predicate Off(s: set<int>, a: int) {
    forall y :: y in s ==> !(y + FD <= a < y + 64)
  }

  ghost predicate TreeSlot(a: int) { TREEBIN_ARRAY <= a < TREEBIN_ARRAY + 8 * TREEBINS }

  /** Only link fields of the given chunks, and bin slots, were written. */
  ghost predicate OnlyLinks(m: Mem, n: Mem, s: set<int>) {
    forall a :: Off(s, a) && !TreeSlot(a) ==> Rd(n, a) == Rd(m, a)
  }

  // ---- one bin changes, the others stay ----

  lemma OtherBin(m: Mem, n: Mem, treemap: nat, treemap': nat, t: Tree, i: nat)
    requires i < TREEBINS && BinOk(m, treemap, t, i)
    requires Bit(treemap', i) <==> Bit(treemap, i)
    requires Rd(n, TreebinAt(i)) == Rd(m, TreebinAt(i))
    requires forall y :: y in Members(t) ==> SameNode(m, n, y)
    ensures BinOk(n, treemap', t, i)
  {
    hide Rd, Members, Distinct, TrieOk, SameNode;
    LinkedFrame(m, n, t, TreebinAt(i), i);
  }

  /** b and b' differ only in chunks of bin i. */
  ghost predicate DiffersOnlyIn(b: map<int, int>, b': map<int, int>, i: nat) {
    && (forall y :: y in b && b[y] >= 0 && TreeIndex(b[y]) != i ==> y in b' && b'[y] == b[y])
    && (forall y :: y in b' && b'[y] >= 0 && TreeIndex(b'[y]) != i ==> y in b && b'[y] == b[y])
  }

  lemma ReplaceBin(m: Mem, n: Mem, treemap: nat, treemap': nat, trees: seq<Tree>, b: map<int, int>, b': map<int, int>,
                   i: nat, t: Tree)
    requires TreesOk(m, treemap, trees, b) && i < TREEBINS && treemap' < MAP
    requires forall j: nat :: j < TREEBINS && j != i ==> (Bit(treemap', j) <==> Bit(treemap, j))
    requires forall j: nat :: j < TREEBINS && j != i ==> Rd(n, TreebinAt(j)) == Rd(m, TreebinAt(j))
    requires forall y :: y in b && TreeIndex(b[y]) != i ==> SameNode(m, n, y)
    requires Apart(b') && (forall y :: y in b' ==> LargeChunk(n, y, b'[y]))
    requires BinOk(n, treemap', t, i) && Holds(t, i, b') && DiffersOnlyIn(b, b', i)
    ensures TreesOk(n, treemap', trees[i := t], b')
  {
    hide Rd, Linked, Members, Distinct, TrieOk, SameNode, TreeIndex, Bit, BinOk;
    var trees' := trees[i := t];
    forall j | 0 <= j < TREEBINS
      ensures BinOk(n, treemap', trees'[j], j) && Holds(trees'[j], j, b')
    {
      if j != i {
        assert Holds(trees[j], j, b);
        OtherBin(m, n, treemap, treemap', trees[j], j);
      }
    }
  }

  // ---- insert_large_chunk ----

  /** The descent's current subtree u and where the whole descent ends. */
  ghost predicate OnPath(m: Mem, t: Tree, u: Tree, i: nat, s: int, lo: int, w: nat, par: int, slot: int)
    requires i < TREEBINS && t.Node?
  {
    && u.Node? && Linked(m, u, par, i) && TrieOk(u, lo, w) && Distinct(u)
    && lo <= s < lo + Pow2(w)
    && Rd(m, slot) == Adr(u)
    && Find(t, s, Lo(i), Width(i)) == Find(u, s, lo, w)
    && FindLo(t, s, Lo(i), Width(i)) == FindLo(u, s, lo, w)
    && FindW(t, s, Lo(i), Width(i)) == FindW(u, s, lo, w)
    && FindPar(t, s, Lo(i), Width(i), TreebinAt(i)) == FindPar(u, s, lo, w, par)
    && FindSlot(t, s, Lo(i), Width(i), TreebinAt(i)) == FindSlot(u, s, lo, w, slot)
  }

  function Side(k: int): int { if k / 0x8000_0000_0000_0000 % 2 == 1 then RIGHT else LEFT }

  /** One step of the descent. */
  lemma StepDown(m: Mem, t: Tree, u: Tree, i: nat, s: int, lo: int, w: nat, par: int, slot: int, k: int)
    requires i < TREEBINS && t.Node? && OnPath(m, t, u, i, s, lo, w, par, slot) && Steers(k, s, lo, w)
    requires u.sz != s
    ensures w > 0 && Side(k) == (if Right(s, lo, w) then RIGHT else LEFT)
    ensures Rd(m, Adr(u) + Side(k)) == Adr(Child(u, Right(s, lo, w)))
    ensures var c := Child(u, Right(s, lo, w));
            c.Node? ==> Adr(c) in Members(u) &&
                        OnPath(m, t, c, i, s, Half(s, lo, w), w - 1, Adr(u), Adr(u) + Side(k)) &&
                        Steers((2 * k) % WORD, s, Half(s, lo, w), w - 1)
  {
    hide Rd;
    assert Pow2(w) >= 1;
    assert w > 0;
    SteerStep(k, s, lo, w);
    LinkedNode(m, u, par, i);
    var c := Child(u, Right(s, lo, w));
    if c.Node? { Parts(c); }
  }

  /** There is room for chunk x of size s beside the chunks of b. */
  ghost predicate Room(b: map<int, int>, x: int, s: int) {
    forall y :: y in b ==> y + b[y] <= x || x + s <= y
  }

  lemma AddRoom(m: Mem, n: Mem, b: map<int, int>, b': map<int, int>, x: int, s: int)
    requires b' == b[x := s]
    requires Apart(b) && (forall y :: y in b ==> LargeChunk(m, y, b[y])) && Room(b, x, s) && LargeChunk(m, x, s)
    requires forall y :: y in b || y == x ==> Rd(n, y + HEAD) == Rd(m, y + HEAD)
    ensures x !in b && Apart(b') && (forall y :: y in b' ==> LargeChunk(n, y, b'[y]))
  {
  }

  /** The members of the tree under x's size, and x itself, keep their distance. */
  lemma MembersSpaced(m: Mem, b: map<int, int>, t: Tree, i: nat)
    requires Apart(b) && (forall y :: y in b ==> LargeChunk(m, y, b[y])) && Holds(t, i, b) && i < TREEBINS
    ensures Spaced(Members(t), 64) && NotField(TreebinAt(i), Members(t))
    ensures forall y :: y in Members(t) ==> y >= LOWEST
  {
  }

  /** The seven stores that hang x below node p. */
  ghost function LeafStores(m: Mem, x: int, p: int, slot: int, i: int): Mem {
    m[x + INDEX := i][x + RIGHT := 0][x + LEFT := 0][slot := x][x + PARENT := p][x + BK := x][x + FD := x]
  }

  lemma LeafStoresSame(m: Mem, x: int, p: int, slot: int, i: int, y: int)
    requires y + 64 <= x || x + 64 <= y
    requires slot < LOWEST <= y || ((slot == p + LEFT || slot == p + RIGHT) && (y == p || y + 64 <= p || p + 64 <= y))
    ensures SameBut(m, LeafStores(m, x, p, slot, i), y, slot)
  {
    hide Rd, LeafStores;
    LeafStoresRd(m, x, p, slot, i, y + HEAD);
    LeafStoresRd(m, x, p, slot, i, y + FD);
    LeafStoresRd(m, x, p, slot, i, y + BK);
    LeafStoresRd(m, x, p, slot, i, y + LEFT);
    LeafStoresRd(m, x, p, slot, i, y + RIGHT);
    LeafStoresRd(m, x, p, slot, i, y + PARENT);
    LeafStoresRd(m, x, p, slot, i, y + INDEX);
  }

  lemma LeafStoresRd(m: Mem, x: int, p: int, slot: int, i: int, a: int)
    ensures !(x + FD <= a < x + 64) && a != slot ==> Rd(LeafStores(m, x, p, slot, i), a) == Rd(m, a)
  {
  }

  lemma LeafStoresSingle(m: Mem, x: int, p: int, slot: int, i: int, s: int)
    requires slot < x || x + 64 <= slot
    requires ChunkSize(Rd(m, x + HEAD)) == s
    ensures Linked(LeafStores(m, x, p, slot, i), Single(x, s), p, i)
    ensures Rd(LeafStores(m, x, p, slot, i), slot) == x
  {
    var n := LeafStores(m, x, p, slot, i);
    assert LinkAt(n, [x], 0);
    assert Labeled(n, x, s, i);
  }

  /** Where the descent ends in the store. */
  lemma {:induction false} FindLinked(m: Mem, t: Tree, par: int, i: int, s: int, lo: int, w: nat, slot: int)
    requires t.Node? && Linked(m, t, par, i) && Rd(m, slot) == Adr(t)
    ensures Linked(m, Find(t, s, lo, w), FindPar(t, s, lo, w, par), i)
    ensures Rd(m, FindSlot(t, s, lo, w, slot)) == Adr(Find(t, s, lo, w))
    decreases t
  {
    hide Rd;
    if !Stops(t, s, lo, w) {
      LinkedNode(m, t, par, i);
      NodeHead(m, t.ring, t.sz, par, Adr(t.l), Adr(t.r), i);
      FindLinked(m, Child(t, Right(s, lo, w)), Adr(t), i, s, Half(s, lo, w), w - 1,
                 Adr(t) + (if Right(s, lo, w) then RIGHT else LEFT));
    }
  }

  /** A chunk of a size the tree lacks is hung below the node where the descent stops. */
  lemma InsertedLeaf(m: Mem, n: Mem, t: Tree, i: nat, x: int, s: int, f: Tree, d: bool, slot: int)
    requires i < TREEBINS && t.Node? && Linked(m, t, TreebinAt(i), i) && Distinct(t) && Rd(m, TreebinAt(i)) == Adr(t)
    requires Spaced(Members(t), 64) && NotField(TreebinAt(i), Members(t)) && x !in Members(t)
    requires f == Find(t, s, Lo(i), Width(i)) && f.sz != s && Child(f, d).Nil?
    requires slot == Adr(f) + (if d then RIGHT else LEFT)
    requires Linked(n, Single(x, s), Adr(f), i) && Rd(n, slot) == x
    requires forall y :: y in Members(t) ==> SameBut(m, n, y, slot)
    requires Rd(n, TreebinAt(i)) == Rd(m, TreebinAt(i))
    ensures Linked(n, Graft(t, s, Lo(i), Width(i), Added(f, x, s, d)), TreebinAt(i), i)
    ensures Adr(Graft(t, s, Lo(i), Width(i), Added(f, x, s, d))) == Adr(t)
  {
    hide Rd, Members, Distinct, SameBut, Linked;
    var lo, w, h := Lo(i), Width(i), TreebinAt(i);
    FindSub(t, s, lo, w);
    FindLinked(m, t, h, i, s, lo, w, h);
    Parts(f);
    Parts(t);
    assert Spaced(Members(f), 64);
    AddLeaf(m, n, f, FindPar(t, s, lo, w, h), i, x, s, d);
    FindSlotIn(t, s, lo, w, h);
    var at := FindSlot(t, s, lo, w, h);
    SlotKept(m, n, t, s, lo, w, h, slot);
    forall y | y in Members(t) && y !in Members(f) ensures SameBut(m, n, y, at) {
      assert y + LEFT != slot && y + RIGHT != slot;
      ButOther(m, n, y, slot, at);
    }
    GraftLinked(m, n, t, h, i, s, lo, w, h, Added(f, x, s, d));
    GraftAdr(t, s, lo, w, Added(f, x, s, d));
  }

  lemma ButOther(m: Mem, n: Mem, y: int, slot: int, at: int)
    requires SameBut(m, n, y, slot) && y + LEFT != slot && y + RIGHT != slot
    ensures SameBut(m, n, y, at)
  {
    hide Rd;
  }

  lemma GraftAdr(t: Tree, s: int, lo: int, w: nat, u: Tree)
    requires t.Node?
    ensures Adr(Graft(t, s, lo, w, u)) == if Stops(t, s, lo, w) then Adr(u) else Adr(t)
  {
  }

  /** A store to a child field of the found node does not touch the word that points to it. */
  lemma SlotKept(m: Mem, n: Mem, t: Tree, s: int, lo: int, w: nat, h: int, slot: int)
    requires t.Node? && Distinct(t) && Spaced(Members(t), 64) && NotField(h, Members(t))
    requires var f := Find(t, s, lo, w); f.ring != [] && (slot == Adr(f) + LEFT || slot == Adr(f) + RIGHT)
    requires forall y :: y in Members(t) ==> SameBut(m, n, y, slot)
    requires Rd(n, h) == Rd(m, h)
    ensures Rd(n, FindSlot(t, s, lo, w, h)) == Rd(m, FindSlot(t, s, lo, w, h))
  {
    hide Rd;
    FindSub(t, s, lo, w);
    Parts(Find(t, s, lo, w));
    FindSlotAbove(t, s, lo, w, h);
  }

  lemma {:induction false} FindSlotAbove(t: Tree, s: int, lo: int, w: nat, slot: int)
    requires t.Node? && Distinct(t)
    ensures (Stops(t, s, lo, w) && FindSlot(t, s, lo, w, slot) == slot) ||
            exists y :: y in Members(t) && y !in Members(Find(t, s, lo, w))
                && FindSlot(t, s, lo, w, slot) in {y + LEFT, y + RIGHT}
    decreases t
  {
    if !Stops(t, s, lo, w) {
      Parts(t);
      var c := Child(t, Right(s, lo, w));
      FindSub(c, s, Half(s, lo, w), w - 1);
      FindSlotAbove(c, s, Half(s, lo, w), w - 1, Adr(t) + (if Right(s, lo, w) then RIGHT else LEFT));
    }
  }

  /** A chunk of a size the tree has joins the ring of that size. */
  lemma InsertedChained(m: Mem, n: Mem, t: Tree, i: nat, x: int, s: int, f: Tree, d: bool)
    requires i < TREEBINS && t.Node? && Linked(m, t, TreebinAt(i), i) && Distinct(t) && Rd(m, TreebinAt(i)) == Adr(t)
    requires Spaced(Members(t), 64) && NotField(TreebinAt(i), Members(t)) && x !in Members(t)
    requires f == Find(t, s, Lo(i), Width(i)) && f.sz == s && f.ring != []
    requires InsertedAfterHead(m, n, f.ring, x) && Labeled(n, x, s, i) && Chained(n, x)
    requires forall y :: y in Members(t) ==> SameTree(m, n, y)
    requires forall y :: y in Members(t) && y !in f.ring ==> SameRing(m, n, y)
    requires Rd(n, TreebinAt(i)) == Rd(m, TreebinAt(i))
    ensures Linked(n, Graft(t, s, Lo(i), Width(i), Added(f, x, s, d)), TreebinAt(i), i)
    ensures Adr(Graft(t, s, Lo(i), Width(i), Added(f, x, s, d))) == Adr(t)
  {
    hide Rd, Members, Distinct, Linked, InsertedAfterHead;
    var lo, w, h := Lo(i), Width(i), TreebinAt(i);
    FindSub(t, s, lo, w);
    FindLinked(m, t, h, i, s, lo, w, h);
    Parts(f);
    AddChained(m, n, f, FindPar(t, s, lo, w, h), i, x, d);
    FindSlotIn(t, s, lo, w, h);
    var at := FindSlot(t, s, lo, w, h);
    assert Rd(n, at) == Rd(m, at);
    RingInMembers(f);
    forall y | y in Members(t) && y !in Members(f) ensures SameBut(m, n, y, at) {
      assert y !in f.ring;
    }
    GraftLinked(m, n, t, h, i, s, lo, w, h, Added(f, x, s, d));
    GraftAdr(t, s, lo, w, Added(f, x, s, d));
  }

  lemma RingInMembers(f: Tree)
    requires f.Node?
    ensures forall y :: y in f.ring ==> y in Members(f)
  {
    assert forall y :: y in f.ring ==> y in Elems(f.ring);
  }

  /** The stores that put x into the ring after its first member p. */
  ghost function ChainStores(m: Mem, x: int, p: int, fd: int, i: int): Mem {
    m[x + INDEX := i][x + RIGHT := 0][x + LEFT := 0][fd + BK := x][p + FD := x]
     [x + FD := fd][x + BK := p][x + PARENT := 0]
  }

  ghost predicate Far(x: int, y: int) { y + 64 <= x || x + 64 <= y }

  lemma ChainStoresSame(m: Mem, x: int, p: int, fd: int, i: int, y: int)
    requires Far(x, y) && (y == p || Far(p, y)) && (y == fd || Far(fd, y))
    ensures var n := ChainStores(m, x, p, fd, i);
            && SameTree(m, n, y)
            && (y != p ==> Rd(n, y + FD) == Rd(m, y + FD))
            && (y != fd ==> Rd(n, y + BK) == Rd(m, y + BK))
  {
    hide Rd, ChainStores;
    ChainStoresRd(m, x, p, fd, i, y + HEAD);
    ChainStoresRd(m, x, p, fd, i, y + FD);
    ChainStoresRd(m, x, p, fd, i, y + BK);
    ChainStoresRd(m, x, p, fd, i, y + LEFT);
    ChainStoresRd(m, x, p, fd, i, y + RIGHT);
    ChainStoresRd(m, x, p, fd, i, y + PARENT);
    ChainStoresRd(m, x, p, fd, i, y + INDEX);
  }

  lemma ChainStoresRd(m: Mem, x: int, p: int, fd: int, i: int, a: int)
    ensures !(x + FD <= a < x + 64) && a != p + FD && a != fd + BK ==> Rd(ChainStores(m, x, p, fd, i), a) == Rd(m, a)
  {
  }

  lemma ChainStoresRing(m: Mem, x: int, s: seq<int>, i: int, sz: int)
    requires s != [] && Ring(m, s) && NoDup(s) && x !in s && ChunkSize(Rd(m, x + HEAD)) == sz
    requires forall k :: 0 <= k < |s| ==> Far(x, s[k])
    requires forall j, k :: 0 <= j < k < |s| ==> Far(s[j], s[k])
    ensures var n := ChainStores(m, x, s[0], Succ(s, 0), i);
            InsertedAfterHead(m, n, s, x) && Labeled(n, x, sz, i) && Chained(n, x)
  {
    var fd := Succ(s, 0);
    var n := ChainStores(m, x, s[0], fd, i);
    forall k | 0 <= k < |s|
      ensures k > 0 ==> Rd(n, s[k] + FD) == Rd(m, s[k] + FD)
      ensures s[k] != fd ==> Rd(n, s[k] + BK) == Rd(m, s[k] + BK)
    {
      ChainStoresSame(m, x, s[0], fd, i, s[k]);
    }
  }

  /** What insertion of x needs of the bins. */
  ghost predicate CanInsert(m: Mem, treemap: nat, trees: seq<Tree>, b: map<int, int>, x: int, s: int) {
    TreesOk(m, treemap, trees, b) && LargeChunk(m, x, s) && Room(b, x, s)
  }

  ghost function Inserted(trees: seq<Tree>, x: int, s: int): seq<Tree>
    requires |trees| == TREEBINS && 0 <= s && TreeIndex(s) < TREEBINS
  {
    var i := TreeIndex(s);
    trees[i := Insert(trees[i], x, s, Lo(i), Width(i))]
  }

  lemma SizeRange(s: int)
    requires MIN_LARGE <= s < SIZE_LIMIT
    ensures TreeIndex(s) < TREEBINS && InBin(TreeIndex(s), s)
    ensures var i := TreeIndex(s); Lo(i) <= s < Lo(i) + Pow2(Width(i))
  {
    hide TreeIndex, InBin;
    TreeIndexInBin(s);
    InBinRange(TreeIndex(s), s);
  }

  lemma InBinRange(i: nat, s: nat)
    requires InBin(i, s) && s < WORD
    ensures i < TREEBINS && Lo(i) <= s < Lo(i) + Pow2(Width(i))
  {
    if i == 31 {
      Pow2Values();
    } else {
      MinSizeStep(i);
    }
  }

  /** Once the stores have linked x into its bin, the invariant holds with x added. */
  lemma InsertDone(m: Mem, n: Mem, treemap: nat, treemap': nat, trees: seq<Tree>, b: map<int, int>, b': map<int, int>,
                   x: int, s: int)
    requires CanInsert(m, treemap, trees, b, x, s) && b' == b[x := s] && treemap' < MAP
    requires TreeIndex(s) < TREEBINS
    requires var i := TreeIndex(s); var t' := Insert(trees[i], x, s, Lo(i), Width(i));
             && Linked(n, t', TreebinAt(i), i) && Rd(n, TreebinAt(i)) == Adr(t')
             && (forall j: nat :: j < TREEBINS ==> (Bit(treemap', j) <==> Bit(treemap, j) || j == i))
    requires forall j: nat :: j < TREEBINS && j != TreeIndex(s) ==> Rd(n, TreebinAt(j)) == Rd(m, TreebinAt(j))
    requires forall y :: y in b && TreeIndex(b[y]) != TreeIndex(s) ==> SameNode(m, n, y)
    requires forall y :: y in b || y == x ==> Rd(n, y + HEAD) == Rd(m, y + HEAD)
    ensures TreesOk(n, treemap', Inserted(trees, x, s), b')
  {
    hide Rd, Linked, Distinct, Members, TrieOk, Insert, TreeIndex, Bit;
    var i := TreeIndex(s);
    var t := trees[i];
    var t' := Insert(t, x, s, Lo(i), Width(i));
    SizeRange(s);
    AddRoom(m, n, b, b', x, s);
    assert BinOk(m, treemap, t, i) && Holds(t, i, b);
    InsertOk(t, x, s, Lo(i), Width(i));
    assert x in Members(t');
    assert t'.Node? by { MembersNode(t', x); }
    ReplaceBin(m, n, treemap, treemap', trees, b, b', i, t');
  }

  lemma MembersNode(t: Tree, x: int)
    requires x in Members(t)
    ensures t.Node?
  {
  }

  /** Case: the bin was empty. */
  lemma DoneEmpty(m: Mem, n: Mem, treemap: nat, trees: seq<Tree>, b: map<int, int>, x: int, s: int)
    requires CanInsert(m, treemap, trees, b, x, s) && TreeIndex(s) < TREEBINS
    requires trees[TreeIndex(s)].Nil?
    requires n == LeafStores(m, x, TreebinAt(TreeIndex(s)), TreebinAt(TreeIndex(s)), TreeIndex(s))
    ensures TreesOk(n, Mark(treemap, TreeIndex(s)), Inserted(trees, x, s), b[x := s])
    ensures OnlyLinks(m, n, b.Keys + {x})
  {
    hide Rd, Linked, Distinct, Members, TrieOk, TreeIndex, Bit, SameBut, BinOk, LeafStores;
    var i := TreeIndex(s);
    var h := TreebinAt(i);
    LeafStoresSingle(m, x, h, h, i, s);
    MarkBit(treemap, i);
    forall a ensures !(x + FD <= a < x + 64) && a != h ==> Rd(n, a) == Rd(m, a) {
      LeafStoresRd(m, x, h, h, i, a);
    }
    forall y | y in b ensures SameNode(m, n, y) {
      LeafStoresSame(m, x, h, h, i, y);
      ButIsNode(m, n, y, h);
    }
    InsertDone(m, n, treemap, Mark(treemap, i), trees, b, b[x := s], x, s);
  }

  lemma ButIsNode(m: Mem, n: Mem, y: int, slot: int)
    requires SameBut(m, n, y, slot) && y + LEFT != slot && y + RIGHT != slot
    ensures SameNode(m, n, y)
  {
    hide Rd;
  }

  /** Case: the tree lacks the size. */
  lemma DoneLeaf(m: Mem, n: Mem, treemap: nat, trees: seq<Tree>, b: map<int, int>, x: int, s: int, f: Tree, slot: int)
    requires CanInsert(m, treemap, trees, b, x, s) && TreeIndex(s) < TREEBINS
    requires var i := TreeIndex(s); trees[i].Node? && f == Find(trees[i], s, Lo(i), Width(i)) && f.sz != s
    requires var i := TreeIndex(s);
             var fl, fw := FindLo(trees[i], s, Lo(i), Width(i)), FindW(trees[i], s, Lo(i), Width(i));
             fw > 0 && slot == Adr(f) + (if Right(s, fl, fw) then RIGHT else LEFT)
    requires n == LeafStores(m, x, Adr(f), slot, TreeIndex(s))
    ensures TreesOk(n, treemap, Inserted(trees, x, s), b[x := s])
    ensures OnlyLinks(m, n, b.Keys + {x})
  {
    hide Rd, Linked, Distinct, Members, TrieOk, TreeIndex, Bit, SameBut, LeafStores, Graft, Find, FindLo, FindW;
    var i := TreeIndex(s);
    var t := trees[i];
    var h := TreebinAt(i);
    var fl, fw := FindLo(t, s, Lo(i), Width(i)), FindW(t, s, Lo(i), Width(i));
    var d := Right(s, fl, fw);
    assert BinOk(m, treemap, t, i) && Holds(t, i, b);
    SizeRange(s);
    FindRange(t, s, Lo(i), Width(i));
    FindSub(t, s, Lo(i), Width(i));
    Parts(f);
    MembersSpaced(m, b, t, i);
    LeafStoresSingle(m, x, Adr(f), slot, i, s);
    forall a ensures !(x + FD <= a < x + 64) && a != slot ==> Rd(n, a) == Rd(m, a) {
      LeafStoresRd(m, x, Adr(f), slot, i, a);
    }
    forall y | y in b ensures SameBut(m, n, y, slot) && (y != Adr(f) ==> SameNode(m, n, y)) {
      LeafStoresSame(m, x, Adr(f), slot, i, y);
      if y != Adr(f) { ButIsNode(m, n, y, slot); }
    }
    InsertedLeaf(m, n, t, i, x, s, f, d, slot);
    InsertDone(m, n, treemap, treemap, trees, b, b[x := s], x, s);
  }

  /** Chunks of b, and x beside them, keep their header fields apart. */
  lemma AllFar(m: Mem, b: map<int, int>, x: int, s: int, ring: seq<int>)
    requires Apart(b) && (forall y :: y in b ==> LargeChunk(m, y, b[y])) && LargeChunk(m, x, s) && Room(b, x, s)
    requires forall k :: 0 <= k < |ring| ==> ring[k] in b
    ensures forall y :: y in b ==> Far(x, y)
    ensures forall k, y :: 0 <= k < |ring| && y in b ==> y == ring[k] || Far(ring[k], y)
  {
  }

  /** What the stores of the chained case leave alone. */
  lemma ChainFrame(m: Mem, n: Mem, treemap: nat, trees: seq<Tree>, b: map<int, int>, x: int, s: int, f: Tree)
    requires CanInsert(m, treemap, trees, b, x, s) && TreeIndex(s) < TREEBINS && f.Node? && f.ring != []
    requires forall k :: 0 <= k < |f.ring| ==> f.ring[k] in b
    requires n == ChainStores(m, x, f.ring[0], Succ(f.ring, 0), TreeIndex(s))
    ensures forall y :: y in b ==> SameTree(m, n, y) && (y !in f.ring ==> SameRing(m, n, y))
    ensures forall j: nat :: j < TREEBINS ==> Rd(n, TreebinAt(j)) == Rd(m, TreebinAt(j))
    ensures forall y :: y in b || y == x ==> Rd(n, y + HEAD) == Rd(m, y + HEAD)
    ensures OnlyLinks(m, n, b.Keys + {x})
  {
    hide Rd, Linked, Distinct, Members, TrieOk, TreeIndex, Bit, ChainStores, Find, BinOk;
    var i := TreeIndex(s);
    var p, fd := f.ring[0], Succ(f.ring, 0);
    AllFar(m, b, x, s, f.ring);
    forall a ensures !(x + FD <= a < x + 64) && a != p + FD && a != fd + BK ==> Rd(n, a) == Rd(m, a) {
      ChainStoresRd(m, x, p, fd, i, a);
    }
    forall y | y in b ensures SameTree(m, n, y) && (y !in f.ring ==> SameRing(m, n, y)) {
      ChainStoresSame(m, x, p, fd, i, y);
    }
  }

  /** Case: the tree has the size. */
  lemma DoneChained(m: Mem, n: Mem, treemap: nat, trees: seq<Tree>, b: map<int, int>, x: int, s: int, f: Tree)
    requires CanInsert(m, treemap, trees, b, x, s) && TreeIndex(s) < TREEBINS
    requires var i := TreeIndex(s); var t := trees[i];
        t.Node? && f == Find(t, s, Lo(i), Width(i)) && f.sz == s && f.ring != []
    requires n == ChainStores(m, x, f.ring[0], Succ(f.ring, 0), TreeIndex(s))
    ensures TreesOk(n, treemap, Inserted(trees, x, s), b[x := s])
    ensures OnlyLinks(m, n, b.Keys + {x})
  {
    hide Rd, Linked, Distinct, Members, TrieOk, TreeIndex, Bit, ChainStores, Graft, Find, FindLo, FindW, OnlyLinks;
    var i := TreeIndex(s);
    var t := trees[i];
    assert BinOk(m, treemap, t, i) && Holds(t, i, b);
    FindSub(t, s, Lo(i), Width(i));
    Parts(f);
    RingInMembers(f);
    ChainFrame(m, n, treemap, trees, b, x, s, f);
    MembersSpaced(m, b, t, i);
    FindLinked(m, t, TreebinAt(i), i, s, Lo(i), Width(i), TreebinAt(i));
    LinkedNode(m, f, FindPar(t, s, Lo(i), Width(i), TreebinAt(i)), i);
    AllFar(m, b, x, s, f.ring);
    ChainStoresRing(m, x, f.ring, i, s);
    InsertedChained(m, n, t, i, x, s, f, FindW(t, s, Lo(i), Width(i)) > 0
        && Right(s, FindLo(t, s, Lo(i), Width(i)), FindW(t, s, Lo(i), Width(i))));
    InsertDone(m, n, treemap, treemap, trees, b, b[x := s], x, s);
  }

  lemma StartDown(m: Mem, treemap: nat, trees: seq<Tree>, b: map<int, int>, s: int)
    requires TreesOk(m, treemap, trees, b) && MIN_LARGE <= s < SIZE_LIMIT
    requires TreeIndex(s) < TREEBINS && trees[TreeIndex(s)].Node?
    ensures var i := TreeIndex(s); var t := trees[i];
            && OnPath(m, t, t, i, s, Lo(i), Width(i), TreebinAt(i), TreebinAt(i))
            && Steers((s * Pow2(LeftShift(i))) % WORD, s, Lo(i), Width(i))
            && (forall y :: y in Members(t) ==> y in b)
  {
    hide Rd, Linked, Members, TrieOk, Distinct, TreeIndex, Bit;
    var i := TreeIndex(s);
    assert BinOk(m, treemap, trees[i], i) && Holds(trees[i], i, b);
    SizeRange(s);
    SteerStart(s, i);
  }

  /** The descent to the node of size s, or to the one that lacks the child for it. */
  method Descend(m: Mem, s: int, i: nat, ghost m0: Mem, ghost treemap: nat, ghost trees: seq<Tree>, ghost b: map<int,
                 int>)
    returns (t: int, k: int, ghost u: Tree)
    requires TreesOk(m0, treemap, trees, b) && MIN_LARGE <= s < SIZE_LIMIT
    requires i == TreeIndex(s) < TREEBINS && trees[i].Node?
    requires Rd(m, TreebinAt(i)) == Rd(m0, TreebinAt(i)) && forall y :: y in b ==> SameNode(m0, m, y)
    ensures u == Find(trees[i], s, Lo(i), Width(i)) && u.ring != [] && t == Adr(u) && t in b
    ensures ChunkSize(Rd(m, t + HEAD)) == u.sz
    ensures Rd(m, t + FD) == Succ(u.ring, 0)
    ensures u.sz != s ==> var fl, fw := FindLo(trees[i], s, Lo(i), Width(i)), FindW(trees[i], s, Lo(i), Width(i));
                          fw > 0 && Side(k) == (if Right(s, fl, fw) then RIGHT else LEFT)
  {
    assert |trees| == TREEBINS;
    hide Cursor, Rd, TreesOk, TreeIndex, Find, FindLo, FindW, SameNode;
    ghost var c := At(trees[i], Lo(i), Width(i), TreebinAt(i), TreebinAt(i));
    CursorStart(m, m0, treemap, trees, b, i, s);
    t := Rd(m, TreebinAt(i));
    k := (s * Pow2(LeftShift(i))) % WORD;
    while ChunkSize(Rd(m, t + HEAD)) != s && Rd(m, t + Side(k)) != 0
      invariant Cursor(m, m0, trees[i], b, i, s, t, k, c)
      decreases c.u
    {
      c := CursorStep(m, m0, trees[i], b, i, s, t, k, c);
      t := Rd(m, t + Side(k));
      k := (2 * k) % WORD;
    }
    u := c.u;
    CursorEnd(m, m0, trees[i], b, i, s, t, k, c);
  }

  /** A position in a descent: the subtree, its range, its parent and the word that points to it. */
  datatype Position = At(u: Tree, lo: int, w: nat, par: int, slot: int)

  /** The descent for s stands at node t with steering bits k. */
  ghost predicate Cursor(m: Mem, m0: Mem, t0: Tree, b: map<int, int>, i: nat, s: int, t: int, k: int, c: Position)
    requires i < TREEBINS && t0.Node?
  {
    && OnPath(m0, t0, c.u, i, s, c.lo, c.w, c.par, c.slot) && Steers(k, s, c.lo, c.w)
    && t == Adr(c.u) && t in Members(c.u) && c.u.ring != []
    && (forall y :: y in Members(c.u) ==> y in b && y >= LOWEST)
    && c.u.sz == ChunkSize(Rd(m0, t + HEAD)) && Rd(m0, t + FD) == Succ(c.u.ring, 0)
    && (forall y :: y in b ==> SameNode(m0, m, y))
  }

  lemma CursorStart(m: Mem, m0: Mem, treemap: nat, trees: seq<Tree>, b: map<int, int>, i: nat, s: int)
    requires TreesOk(m0, treemap, trees, b) && MIN_LARGE <= s < SIZE_LIMIT
    requires i == TreeIndex(s) < TREEBINS && trees[i].Node?
    requires Rd(m, TreebinAt(i)) == Rd(m0, TreebinAt(i)) && forall y :: y in b ==> SameNode(m0, m, y)
    ensures Cursor(m, m0, trees[i], b, i, s, Rd(m, TreebinAt(i)), (s * Pow2(LeftShift(i))) % WORD,
                   At(trees[i], Lo(i), Width(i), TreebinAt(i), TreebinAt(i)))
  {
    hide Rd, BinOk, TreeIndex, SameNode, OnPath, Steers, Holds, Members, SameTree;
    var h := TreebinAt(i);
    StartDown(m0, treemap, trees, b, s);
    PathNode(m0, trees[i], trees[i], i, s, Lo(i), Width(i), h, h);
  }

  lemma CursorStep(m: Mem, m0: Mem, t0: Tree, b: map<int, int>, i: nat, s: int, t: int, k: int, c: Position)
    returns (c': Position)
    requires i < TREEBINS && t0.Node? && Cursor(m, m0, t0, b, i, s, t, k, c)
    requires ChunkSize(Rd(m, t + HEAD)) != s && Rd(m, t + Side(k)) != 0
    ensures Cursor(m, m0, t0, b, i, s, Rd(m, t + Side(k)), (2 * k) % WORD, c')
    ensures c'.u < c.u
  {
    hide Rd, OnPath, Steers, Members, SameNode, Half, Right, ChunkSize;
    assert c.u.Node? by { PathIsNode(m0, t0, c, i, s); }
    ReadSame(m0, m, t);
    StepDown(m0, t0, c.u, i, s, c.lo, c.w, c.par, c.slot, k);
    var d := Right(s, c.lo, c.w);
    c' := At(Child(c.u, d), Half(s, c.lo, c.w), c.w - 1, t, t + Side(k));
    ChildMembers(c.u, d);
    PathNode(m0, t0, c'.u, i, s, c'.lo, c'.w, c'.par, c'.slot);
  }

  lemma PathIsNode(m: Mem, t: Tree, c: Position, i: nat, s: int)
    requires i < TREEBINS && t.Node? && OnPath(m, t, c.u, i, s, c.lo, c.w, c.par, c.slot)
    ensures c.u.Node?
  {
  }

  lemma CursorEnd(m: Mem, m0: Mem, t0: Tree, b: map<int, int>, i: nat, s: int, t: int, k: int, c: Position)
    requires i < TREEBINS && t0.Node? && Cursor(m, m0, t0, b, i, s, t, k, c)
    requires ChunkSize(Rd(m, t + HEAD)) == s || Rd(m, t + Side(k)) == 0
    ensures c.u == Find(t0, s, Lo(i), Width(i)) && c.u.ring != [] && t == Adr(c.u) && t in b
    ensures ChunkSize(Rd(m, t + HEAD)) == c.u.sz
    ensures Rd(m, t + FD) == Succ(c.u.ring, 0)
    ensures c.u.sz != s ==> var fl, fw := FindLo(t0, s, Lo(i), Width(i)), FindW(t0, s, Lo(i), Width(i));
                            fw > 0 && Side(k) == (if Right(s, fl, fw) then RIGHT else LEFT)
  {
    hide Rd, OnPath, Steers, Members, SameNode, Half, Right, ChunkSize, Find, FindLo, FindW;
    assert c.u.Node? by { PathIsNode(m0, t0, c, i, s); }
    ReadSame(m0, m, t);
    if c.u.sz != s { StepDown(m0, t0, c.u, i, s, c.lo, c.w, c.par, c.slot, k); }
    PathEnd(m0, t0, c.u, i, s, c.lo, c.w, c.par, c.slot);
  }

  lemma ReadSame(m: Mem, n: Mem, y: int)
    requires SameNode(m, n, y)
    ensures Rd(n, y + HEAD) == Rd(m, y + HEAD) && Rd(n, y + FD) == Rd(m, y + FD)
    ensures Rd(n, y + LEFT) == Rd(m, y + LEFT) && Rd(n, y + RIGHT) == Rd(m, y + RIGHT)
  {
  }

  lemma PathEnd(m: Mem, t: Tree, u: Tree, i: nat, s: int, lo: int, w: nat, par: int, slot: int)
    requires i < TREEBINS && t.Node? && OnPath(m, t, u, i, s, lo, w, par, slot)
    requires u.sz == s || (w > 0 && Adr(Child(u, Right(s, lo, w))) == 0)
    requires forall y :: y in Members(u) ==> y != 0
    ensures u == Find(t, s, Lo(i), Width(i)) && lo == FindLo(t, s, Lo(i), Width(i)) && w == FindW(t, s, Lo(i), Width(i))
  {
    if u.sz != s && Child(u, Right(s, lo, w)).Node? {
      Parts(u);
      Parts(Child(u, Right(s, lo, w)));
      assert false;
    }
  }

  /** Facts about the current node of a descent. */
  lemma PathNode(m: Mem, t: Tree, u: Tree, i: nat, s: int, lo: int, w: nat, par: int, slot: int)
    requires i < TREEBINS && t.Node? && OnPath(m, t, u, i, s, lo, w, par, slot)
    ensures u.ring != [] && Adr(u) in Members(u) && ChunkSize(Rd(m, Adr(u) + HEAD)) == u.sz
    ensures Rd(m, Adr(u) + FD) == Succ(u.ring, 0) && Rd(m, slot) == Adr(u)
  {
    hide Rd, TrieOk, Find, FindLo, FindW, FindPar, FindSlot, Members, Distinct, Linked;
    Parts(u);
    LinkedNode(m, u, par, i);
    assert Labeled(m, u.ring[0], u.sz, i);
    assert LinkAt(m, u.ring, 0);
  }

  lemma ChildMembers(u: Tree, d: bool)
    requires u.Node?
    ensures forall y :: y in Members(Child(u, d)) ==> y in Members(u)
  {
  }

  lemma BinFacts(m: Mem, treemap: nat, t: Tree, i: nat)
    requires i < TREEBINS && BinOk(m, treemap, t, i)
    ensures And(treemap, Idx2Bit(i)) != 0 <==> t.Node?
    ensures Rd(m, TreebinAt(i)) == Adr(t)
  {
    MarkedIff(treemap, i);
  }

  /** Writing fields of a chunk beside the bins leaves every binned chunk as it was. */
  lemma StoreBeside(m: Mem, n: Mem, b: map<int, int>, x: int, s: int)
    requires Apart(b) && (forall y :: y in b ==> LargeChunk(m, y, b[y])) && LargeChunk(m, x, s) && Room(b, x, s)
    requires forall a :: !(x + FD <= a < x + 64) ==> Rd(n, a) == Rd(m, a)
    ensures forall y :: y in b ==> SameNode(m, n, y)
    ensures forall i: nat :: i < TREEBINS ==> Rd(n, TreebinAt(i)) == Rd(m, TreebinAt(i))
  {
    hide Rd, ChunkSize;
  }

  /** insert_large_chunk(M, X, S) */
  method InsertLarge(m0: Mem, treemap0: nat, x: int, s: int, ghost trees0: seq<Tree>, ghost b: map<int, int>)
    returns (m: Mem, treemap: nat, ghost trees: seq<Tree>)
    requires CanInsert(m0, treemap0, trees0, b, x, s)
    ensures TreesOk(m, treemap, trees, b[x := s])
    ensures OnlyLinks(m0, m, b.Keys + {x})
    ensures |trees0| == TREEBINS && 0 <= s && TreeIndex(s) < TREEBINS && trees == Inserted(trees0, x, s)
  {
    SizeRange(s);
    var i := TreeIndex(s);
    assert |trees0| == TREEBINS && BinOk(m0, treemap0, trees0[i], i);
    hide Rd, CanInsert, TreeIndex, TreesOk, BinOk, OnlyLinks, Mark, And;
    trees := Inserted(trees0, x, s);
    BinFacts(m0, treemap0, trees0[i], i);
    m, treemap := m0, treemap0;
    m := m[x + INDEX := i];
    m := m[x + RIGHT := 0];
    m := m[x + LEFT := 0];
    if And(treemap, Idx2Bit(i)) == 0 {
      treemap := Mark(treemap, i);
      m := m[TreebinAt(i) := x];
      m := m[x + PARENT := TreebinAt(i)];
      m := m[x + BK := x];
      m := m[x + FD := x];
      DoneEmpty(m0, m, treemap0, trees0, b, x, s);
    } else {
      m := InsertBelow(m, x, s, i, m0, treemap, trees0, b);
    }
  }

  /** The part of insert_large_chunk for a bin that is not empty. */
  method InsertBelow(m1: Mem, x: int, s: int, i: nat, ghost m0: Mem, ghost treemap: nat, ghost trees: seq<Tree>,
                     ghost b: map<int, int>)
    returns (m: Mem)
    requires |trees| == TREEBINS && CanInsert(m0, treemap, trees, b, x, s) && 0 <= s && i == TreeIndex(s) < TREEBINS
    requires trees[i].Node?
    requires m1 == m0[x + INDEX := i][x + RIGHT := 0][x + LEFT := 0]
    ensures TreesOk(m, treemap, Inserted(trees, x, s), b[x := s])
    ensures OnlyLinks(m0, m, b.Keys + {x})
  {
    hide Rd, ChunkSize, TreeIndex, CanInsert, TreesOk, Find, FindLo, FindW, OnlyLinks, Right, SameNode;
    m := m1;
    BesideStores(m0, m, treemap, trees, b, x, s, i);
    var t, k;
    ghost var f;
    t, k, f := Descend(m, s, i, m0, treemap, trees, b);
    if ChunkSize(Rd(m, t + HEAD)) != s {
      var c := t + Side(k);
      m := m[c := x];
      m := m[x + PARENT := t];
      m := m[x + BK := x];
      m := m[x + FD := x];
      DoneLeaf(m0, m, treemap, trees, b, x, s, f, c);
    } else {
      var fd := Rd(m, t + FD);
      m := m[fd + BK := x];
      m := m[t + FD := x];
      m := m[x + FD := fd];
      m := m[x + BK := t];
      m := m[x + PARENT := 0];
      DoneChained(m0, m, treemap, trees, b, x, s, f);
    }
  }

  lemma BesideStores(m: Mem, n: Mem, treemap: nat, trees: seq<Tree>, b: map<int, int>, x: int, s: int, i: nat)
    requires CanInsert(m, treemap, trees, b, x, s) && i < TREEBINS
    requires n == m[x + INDEX := i][x + RIGHT := 0][x + LEFT := 0]
    ensures TreesOk(m, treemap, trees, b) && MIN_LARGE <= s < SIZE_LIMIT
    ensures forall y :: y in b ==> SameNode(m, n, y)
    ensures Rd(n, TreebinAt(i)) == Rd(m, TreebinAt(i))
  {
    hide BinOk, Holds;
    StoreBeside(m, n, b, x, s);
  }
}
