/** unlink_large_chunk: a chunk leaves its tree bin. */
module TreeUnlink {
  import opened Words
  import opened BinMap
  import opened BinIndex
  import opened Chunk
  import opened Trie
  import opened TrieEdit
  import opened TrieLinks
  import opened TrieSurgery
  import opened Rings
  import opened TreeBins

  // ---- finding the chunk in the abstract tree ----

  lemma {:induction false} MemberSize(m: Mem, t: Tree, par: int, i: int, x: int)
    requires Linked(m, t, par, i) && x in Members(t)
    ensures ChunkSize(Rd(m, x + HEAD)) in Sizes(t)
    decreases t
  {
    hide Rd, ChunkSize;
    if x in t.ring {
      var k :| 0 <= k < |t.ring| && t.ring[k] == x;
      assert Labeled(m, t.ring[k], t.sz, i);
    } else if x in Members(t.l) {
      MemberSize(m, t.l, Adr(t), i, x);
    } else {
      MemberSize(m, t.r, Adr(t), i, x);
    }
  }

  /** The descent for a member's size ends at the node whose ring holds it. */
  lemma {:induction false} FindMember(m: Mem, t: Tree, par: int, i: int, x: int, s: int, lo: int, w: nat)
    requires t.Node? && Linked(m, t, par, i) && x in Members(t) && s == ChunkSize(Rd(m, x + HEAD))
    requires TrieOk(t, lo, w) && lo <= s < lo + Pow2(w)
    ensures Find(t, s, lo, w).sz == s && x in Find(t, s, lo, w).ring
    decreases t
  {
    hide Rd, ChunkSize;
    if t.sz == s {
      if x in Members(t.l) {
        MemberSize(m, t.l, Adr(t), i, x);
      } else if x in Members(t.r) {
        MemberSize(m, t.r, Adr(t), i, x);
      }
    } else {
      RingLabels(m, t, par, i);
      var d := x !in Members(t.l);
      var c := Child(t, d);
      MemberSize(m, c, Adr(t), i, x);
      SizesIn(c, if d then lo + Pow2(w - 1) else lo, w - 1);
      assert d == Right(s, lo, w);
      FindMember(m, c, Adr(t), i, x, s, Half(s, lo, w), w - 1);
    }
  }

  lemma RingLabels(m: Mem, t: Tree, par: int, i: int)
    requires t.Node? && Linked(m, t, par, i)
    ensures forall y :: y in t.ring ==> ChunkSize(Rd(m, y + HEAD)) == t.sz && Rd(m, y + INDEX) == i
  {
    hide Rd, ChunkSize;
    forall y | y in t.ring ensures ChunkSize(Rd(m, y + HEAD)) == t.sz && Rd(m, y + INDEX) == i {
      var k :| 0 <= k < |t.ring| && t.ring[k] == y;
      assert Labeled(m, t.ring[k], t.sz, i);
    }
  }

  // ---- the pointers around the node found ----

  /**
    The slot above the node is the bin slot for the root, and otherwise the parent's left child field exactly when that
    field points to the node.
   */
  lemma {:induction false} SlotOf(m: Mem, t: Tree, par: int, i: int, s: int, lo: int, w: nat, slot: int)
    requires t.Node? && Linked(m, t, par, i) && Distinct(t) && forall y :: y in Members(t) ==> y != 0
    ensures var f := Find(t, s, lo, w);
            var xp := FindPar(t, s, lo, w, par);
            && (Stops(t, s, lo, w) ==> FindSlot(t, s, lo, w, slot) == slot && xp == par && f == t)
            && (!Stops(t, s, lo, w) ==>
                  xp in Members(t) && xp !in Members(f) && Adr(f) != Adr(t) &&
                  FindSlot(t, s, lo, w, slot) == xp + (if Rd(m, xp + LEFT) == Adr(f) then LEFT else RIGHT))
    decreases t
  {
    hide Rd, Members, Distinct, Linked;
    if !Stops(t, s, lo, w) {
      var c := Child(t, Right(s, lo, w));
      var c_slot := Adr(t) + (if Right(s, lo, w) then RIGHT else LEFT);
      Parts(t);
      LinkedNode(m, t, par, i);
      NodeHead(m, t.ring, t.sz, par, Adr(t.l), Adr(t.r), i);
      Parts(c);
      FindSub(c, s, Half(s, lo, w), w - 1);
      Parts(Find(t, s, lo, w));
      SlotOf(m, c, Adr(t), i, s, Half(s, lo, w), w - 1, c_slot);
      if Stops(c, s, Half(s, lo, w), w - 1) {
        var o := Child(t, !Right(s, lo, w));
        if o.Node? { Parts(o); }
      }
    }
  }

  ghost predicate Outside(slot: int, y: int) { slot < y || y + 64 <= slot }

  /** Chunk r takes the place of x below xp: what the stores leave behind. c0 and c1 are x's children. */
  ghost predicate Relinked(m: Mem, n: Mem, r: int, xp: int, slot: int, c0: int, c1: int) {
    && Rd(n, slot) == r
    && (r != 0 ==> Rd(n, r + PARENT) == xp
                   && Rd(n, r + LEFT) == (if c0 != 0 then c0 else Rd(m, r + LEFT))
                   && Rd(n, r + RIGHT) == (if c1 != 0 then c1 else Rd(m, r + RIGHT)))
    && (r != 0 && c0 != 0 ==> Rd(n, c0 + PARENT) == r)
    && (r != 0 && c1 != 0 ==> Rd(n, c1 + PARENT) == r)
    && (forall a :: RelinkFrame(a, r, slot, c0, c1) ==> Rd(n, a) == Rd(m, a))
  }

  ghost predicate RelinkFrame(a: int, r: int, slot: int, c0: int, c1: int) {
    && a != slot
    && (r != 0 ==> && a != r + PARENT && a != r + LEFT && a != r + RIGHT
                   && (c0 != 0 ==> a != c0 + PARENT) && (c1 != 0 ==> a != c1 + PARENT))
  }

  ghost function AdoptStores(m: Mem, r: int, c: int, off: int): Mem {
    if c != 0 then m[r + off := c][c + PARENT := r] else m
  }

  lemma AdoptStoresRd(m: Mem, r: int, c: int, off: int, a: int)
    ensures a != r + off && (c != 0 ==> a != c + PARENT) ==> Rd(AdoptStores(m, r, c, off), a) == Rd(m, a)
    ensures c == 0 ==> AdoptStores(m, r, c, off) == m
    ensures c != 0 ==> Rd(AdoptStores(m, r, c, off), c + PARENT) == r
    ensures c != 0 && r + off != c + PARENT ==> Rd(AdoptStores(m, r, c, off), r + off) == c
  {
  }

  lemma RelinkedByStores(m: Mem, n1: Mem, n2: Mem, n: Mem, x: int, r: int, xp: int, slot: int, c0: int, c1: int)
    requires r != 0 && n1 == m[slot := r][r + PARENT := xp]
    requires n2 == AdoptStores(n1, r, c0, LEFT) && n == AdoptStores(n2, r, c1, RIGHT)
    requires (c0 != 0 ==> Far(r, c0)) && (c1 != 0 ==> Far(r, c1)) && (c0 != 0 && c1 != 0 ==> Far(c0, c1))
    requires Outside(slot, r) && Outside(slot, c0) && Outside(slot, c1)
    ensures Relinked(m, n, r, xp, slot, c0, c1)
  {
    assert Rd(n1, slot) == r && Rd(n1, r + PARENT) == xp;
    assert forall a :: a != slot && a != r + PARENT ==> Rd(n1, a) == Rd(m, a);
    forall a
      ensures a != r + LEFT && (c0 != 0 ==> a != c0 + PARENT) && a != r + RIGHT && (c1 != 0 ==> a != c1 + PARENT)
          ==> Rd(n, a) == Rd(n1, a)
    {
      AdoptStoresRd(n1, r, c0, LEFT, a);
      AdoptStoresRd(n2, r, c1, RIGHT, a);
    }
    hide Rd, AdoptStores;
    AdoptStoresRd(n1, r, c0, LEFT, r + LEFT);
    AdoptStoresRd(n2, r, c1, RIGHT, r + LEFT);
    AdoptStoresRd(n1, r, c0, LEFT, r + RIGHT);
    AdoptStoresRd(n2, r, c1, RIGHT, r + RIGHT);
    AdoptStoresRd(n2, r, c1, RIGHT, c0 + PARENT);
  }

  /** The word that points to x: the bin slot, or the child field of its parent. */
  function RelinkSlot(m: Mem, x: int, xp: int): int {
    if x == Rd(m, TreebinAt(Rd(m, x + INDEX))) then TreebinAt(Rd(m, x + INDEX))
    else xp + (if Rd(m, xp + LEFT) == x then LEFT else RIGHT)
  }

  /** x, its replacement, its children and the word that points to it are distinct places. */
  ghost predicate RelinkPre(m: Mem, x: int, xp: int, r: int) {
    var at, c0, c1 := RelinkSlot(m, x, xp), Rd(m, x + LEFT), Rd(m, x + RIGHT);
    && 0 <= Rd(m, x + INDEX) < TREEBINS
    && (r != 0 ==> Far(x, r))
    && (c0 != 0 ==> Far(x, c0) && (r != 0 ==> Far(r, c0)))
    && (c1 != 0 ==> Far(x, c1) && (r != 0 ==> Far(r, c1)))
    && (c0 != 0 && c1 != 0 ==> Far(c0, c1))
    && Outside(at, x) && Outside(at, r) && Outside(at, c0) && Outside(at, c1)
    && (at == TreebinAt(Rd(m, x + INDEX)) ==> x == Rd(m, at))
  }

  /** The part of unlink_large_chunk that relinks the parent and children of a chunk in the tree. */
  method Relink(m0: Mem, treemap0: nat, x: int, xp: int, r: int) returns (m: Mem, treemap: nat, slot: int)
    requires RelinkPre(m0, x, xp, r)
    ensures slot == RelinkSlot(m0, x, xp)
    ensures Relinked(m0, m, r, xp, slot, Rd(m0, x + LEFT), Rd(m0, x + RIGHT))
    ensures treemap == if slot == TreebinAt(Rd(m0, x + INDEX))
        && r == 0 then Clear(treemap0, Rd(m0, x + INDEX)) else treemap0
  {
    hide Clear;
    m, treemap := m0, treemap0;
    var i := Rd(m, x + INDEX);
    var h := TreebinAt(i);
    if x == Rd(m, h) {
      slot := h;
      m := m[h := r];
      if r == 0 {
        treemap := Clear(treemap, i);
      }
    } else if Rd(m, xp + LEFT) == x {
      slot := xp + LEFT;
      m := m[xp + LEFT := r];
    } else {
      slot := xp + RIGHT;
      m := m[xp + RIGHT := r];
    }
    if r != 0 {
      m := AdoptChildren(m, x, xp, r, slot, m0);
    }
  }

  /** The replacement r takes over x's parent and children. */
  method AdoptChildren(m1: Mem, x: int, xp: int, r: int, ghost slot: int, ghost m0: Mem) returns (m: Mem)
    requires r != 0 && m1 == m0[slot := r] && Far(x, r)
    requires var c0, c1 := Rd(m0, x + LEFT), Rd(m0, x + RIGHT);
             && (c0 != 0 ==> Far(x, c0) && Far(r, c0)) && (c1 != 0 ==> Far(x, c1) && Far(r, c1))
             && (c0 != 0 && c1 != 0 ==> Far(c0, c1))
             && Outside(slot, x) && Outside(slot, r) && Outside(slot, c0) && Outside(slot, c1)
    ensures Relinked(m0, m, r, xp, slot, Rd(m0, x + LEFT), Rd(m0, x + RIGHT))
  {
    hide Relinked;
    m := m1[r + PARENT := xp];
    ghost var n1 := m;
    var c0 := Rd(m, x + LEFT);
    if c0 != 0 {
      m := m[r + LEFT := c0];
      m := m[c0 + PARENT := r];
    }
    ghost var n2 := m;
    var c1 := Rd(m, x + RIGHT);
    if c1 != 0 {
      m := m[r + RIGHT := c1];
      m := m[c1 + PARENT := r];
    }
    RelinkedByStores(m0, n1, n2, m, x, r, xp, slot, c0, c1);
  }

  // ---- the invariant after removal ----

  ghost function Removed(trees: seq<Tree>, x: int, s: int): seq<Tree>
    requires |trees| == TREEBINS && 0 <= s && TreeIndex(s) < TREEBINS && trees[TreeIndex(s)].Node?
  {
    var i := TreeIndex(s);
    trees[i := Remove(trees[i], x, s, Lo(i), Width(i))]
  }

  /** Where a binned chunk stands: bin, tree, node, the node's parent and the word that points to it. */
  datatype Place = Place(i: nat, t: Tree, f: Tree, par: int, slot: int)

  ghost predicate Placed(m: Mem, treemap: nat, trees: seq<Tree>, b: map<int, int>, x: int, p: Place) {
    && x in b && MIN_LARGE <= b[x] < SIZE_LIMIT && p.i == TreeIndex(b[x]) < TREEBINS == |trees|
    && p.t == trees[p.i] && p.t.Node? && BinOk(m, treemap, p.t, p.i) && Holds(p.t, p.i, b)
    && p.f == Find(p.t, b[x], Lo(p.i), Width(p.i)) && p.f.sz == b[x] && x in p.f.ring
    && p.par == FindPar(p.t, b[x], Lo(p.i), Width(p.i), TreebinAt(p.i))
    && p.slot == FindSlot(p.t, b[x], Lo(p.i), Width(p.i), TreebinAt(p.i))
    && Distinct(p.f) && Members(p.f) <= Members(p.t) && Linked(m, p.f, p.par, p.i) && Rd(m, p.slot) == Adr(p.f)
    && Spaced(Members(p.t), 64) && (forall y :: y in Members(p.t) ==> y >= LOWEST)
  }

  lemma Locate(m: Mem, treemap: nat, trees: seq<Tree>, b: map<int, int>, x: int) returns (p: Place)
    requires TreesOk(m, treemap, trees, b) && x in b
    ensures Placed(m, treemap, trees, b, x, p)
  {
    hide Rd, Linked, Members, TrieOk, Distinct, TreeIndex, Bit, Find, FindPar, FindSlot, ChunkSize;
    var s := b[x];
    SizeRange(s);
    var i := TreeIndex(s);
    var t := trees[i];
    assert BinOk(m, treemap, t, i) && Holds(t, i, b);
    MembersNode(t, x);
    FindMember(m, t, TreebinAt(i), i, x, s, Lo(i), Width(i));
    FindSub(t, s, Lo(i), Width(i));
    FindLinked(m, t, TreebinAt(i), i, s, Lo(i), Width(i), TreebinAt(i));
    MembersSpaced(m, b, t, i);
    p := Place(i, t, Find(t, s, Lo(i), Width(i)), FindPar(t, s, Lo(i), Width(i), TreebinAt(i)),
        FindSlot(t, s, Lo(i), Width(i), TreebinAt(i)));
  }

  lemma UnlinkDone(m: Mem, n: Mem, treemap: nat, treemap': nat, trees: seq<Tree>, b: map<int, int>, b': map<int, int>,
                   x: int, p: Place)
    requires TreesOk(m, treemap, trees, b) && Placed(m, treemap, trees, b, x, p) && b' == b - {x} && treemap' < MAP
    requires var t' := Remove(p.t, x, b[x], Lo(p.i), Width(p.i));
             && Linked(n, t', TreebinAt(p.i), p.i) && Rd(n, TreebinAt(p.i)) == Adr(t')
             && (Bit(treemap', p.i) <==> t'.Node?)
    requires forall j: nat :: j < TREEBINS && j != p.i ==> (Bit(treemap', j) <==> Bit(treemap, j))
    requires forall j: nat :: j < TREEBINS && j != p.i ==> Rd(n, TreebinAt(j)) == Rd(m, TreebinAt(j))
    requires forall y :: y in b && y !in Members(p.t) ==> SameNode(m, n, y)
    requires forall y :: y in b ==> Rd(n, y + HEAD) == Rd(m, y + HEAD)
    ensures TreesOk(n, treemap', Removed(trees, x, b[x]), b')
  {
    hide Rd, Linked, Distinct, Members, TrieOk, TreeIndex, Bit, ChunkSize, SameNode, Find, FindPar, FindSlot;
    SizeRange(b[x]);
    RemoveOk(p.t, x, b[x], Lo(p.i), Width(p.i));
    var t' := Remove(p.t, x, b[x], Lo(p.i), Width(p.i));
    assert Holds(t', p.i, b');
    ReplaceBin(m, n, treemap, treemap', trees, b, b', p.i, t');
  }

  /** Once the node without x is linked and its slot points to it, the whole tree without x is. */
  lemma RemovedLinked(m: Mem, n: Mem, treemap: nat, trees: seq<Tree>, b: map<int, int>, x: int, p: Place)
    requires Placed(m, treemap, trees, b, x, p)
    requires Linked(n, Without(p.f, x), p.par, p.i) && Rd(n, p.slot) == Adr(Without(p.f, x))
    requires forall y :: y in Members(p.t) && y !in Members(p.f) ==> SameBut(m, n, y, p.slot)
    requires p.slot != TreebinAt(p.i) ==> Rd(n, TreebinAt(p.i)) == Rd(m, TreebinAt(p.i))
    ensures var t' := Remove(p.t, x, b[x], Lo(p.i), Width(p.i));
            Linked(n, t', TreebinAt(p.i), p.i) && Rd(n, TreebinAt(p.i)) == Adr(t')
    ensures Remove(p.t, x, b[x], Lo(p.i), Width(p.i)).Node? || p.slot == TreebinAt(p.i)
    ensures p.slot == TreebinAt(p.i) ==> Remove(p.t, x, b[x], Lo(p.i), Width(p.i)) == Without(p.f, x)
  {
    hide Rd, Linked, Distinct, Members, TrieOk, TreeIndex, Bit, ChunkSize, SameBut, Without, Graft;
    var s, lo, w, h := b[x], Lo(p.i), Width(p.i), TreebinAt(p.i);
    GraftLinked(m, n, p.t, h, p.i, s, lo, w, h, Without(p.f, x));
    GraftAdr(p.t, s, lo, w, Without(p.f, x));
    SlotOf(m, p.t, h, p.i, s, lo, w, h);
    GraftNodeOrNot(p.t, s, lo, w, Without(p.f, x));
  }

  lemma GraftNodeOrNot(t: Tree, s: int, lo: int, w: nat, u: Tree)
    requires t.Node?
    ensures if Stops(t, s, lo, w) then Graft(t, s, lo, w, u) == u else Graft(t, s, lo, w, u).Node?
  {
  }

  // ---- leaving a ring ----

  lemma UnlinkStoresRing(m: Mem, s: seq<int>, k: int)
    requires |s| > 1 && NoDup(s) && 0 <= k < |s|
    requires forall i, j :: 0 <= i < j < |s| ==> Far(s[i], s[j])
    ensures UnlinkedAt(m, UnlinkStores(m, Succ(s, k), Pred(s, k)), s, k)
  {
    hide Rd, UnlinkStores;
    var fd, bk := Succ(s, k), Pred(s, k);
    UnlinkStoresRd(m, fd, bk, 0);
    forall j | 0 <= j < |s| && j != k
      ensures s[j] != bk ==> Rd(UnlinkStores(m, fd, bk), s[j] + FD) == Rd(m, s[j] + FD)
      ensures s[j] != fd ==> Rd(UnlinkStores(m, fd, bk), s[j] + BK) == Rd(m, s[j] + BK)
    {
      UnlinkStoresRd(m, fd, bk, s[j] + FD);
      UnlinkStoresRd(m, fd, bk, s[j] + BK);
    }
  }

  /** Chunks of the ring, and their neighbours in it, are members and keep their distance. */
  lemma RingMembers(m: Mem, treemap: nat, trees: seq<Tree>, b: map<int, int>, x: int, p: Place, k: int)
    requires Placed(m, treemap, trees, b, x, p) && 0 <= k < |p.f.ring| && p.f.ring[k] == x
    ensures NoDup(p.f.ring) && forall i, j :: 0 <= i < j < |p.f.ring| ==> Far(p.f.ring[i], p.f.ring[j])
    ensures var fd, bk := Succ(p.f.ring, k), Pred(p.f.ring, k);
            && fd in p.f.ring && bk in p.f.ring && fd in Members(p.t) && bk in Members(p.t)
            && Rd(m, x + FD) == fd && Rd(m, x + BK) == bk
            && (bk == x <==> |p.f.ring| == 1)
    ensures Rd(m, x + PARENT) == (if k == 0 then p.par else 0)
    ensures Rd(m, x + INDEX) == p.i
    ensures forall y :: y in p.f.ring ==> y in Members(p.f)
  {
    hide Rd, Linked, Members, Distinct, TreeIndex, Find, FindPar, FindSlot, Bit, TrieOk;
    Parts(p.f);
    RingInMembers(p.f);
    LinkedNode(m, p.f, p.par, p.i);
    RingPred(m, p.f.ring, k);
    NodeHead(m, p.f.ring, p.f.sz, p.par, Adr(p.f.l), Adr(p.f.r), p.i);
    assert Labeled(m, p.f.ring[k], p.f.sz, p.i);
    if k > 0 { assert Chained(m, p.f.ring[k]); }
  }

  /** Case: x does not stand in the tree. */
  lemma CaseChained(m: Mem, n: Mem, treemap: nat, trees: seq<Tree>, b: map<int, int>, x: int, p: Place, k: int)
    requires TreesOk(m, treemap, trees, b) && Placed(m, treemap, trees, b, x, p)
    requires 0 < k < |p.f.ring| && p.f.ring[k] == x && n == UnlinkStores(m, Succ(p.f.ring, k), Pred(p.f.ring, k))
    ensures TreesOk(n, treemap, Removed(trees, x, b[x]), b - {x})
    ensures OnlyLinks(m, n, b.Keys)
  {
    hide Rd, Linked, Members, Distinct, TreeIndex, Find, FindPar, FindSlot, Bit, TrieOk, BinOk, UnlinkStores, SameTree,
         SameRing, Without, Graft, OnlyLinks;
    RingFrameAll(m, n, treemap, trees, b, x, p, k);
    RingMembers(m, treemap, trees, b, x, p, k);
    UnlinkStoresRing(m, p.f.ring, k);
    Parts(p.f);
    DropChained(m, n, p.f, p.par, p.i, k);
    WithoutAdr(p.f, k);
    SameImplies(m, n, b, p);
    RemovedLinked(m, n, treemap, trees, b, x, p);
    assert Bit(treemap, p.i) by { assert BinOk(m, treemap, p.t, p.i); BinBit(m, treemap, p.t, p.i); }
    assert Remove(p.t, x, b[x], Lo(p.i), Width(p.i)).Node?;
    UnlinkDone(m, n, treemap, treemap, trees, b, b - {x}, x, p);
  }

  lemma BinBit(m: Mem, treemap: nat, t: Tree, i: nat)
    requires i < TREEBINS && BinOk(m, treemap, t, i)
    ensures Bit(treemap, i) <==> t.Node?
  {
  }

  lemma WithoutAdr(f: Tree, k: int)
    requires f.Node? && NoDup(f.ring) && 0 < k < |f.ring|
    ensures Adr(Without(f, f.ring[k])) == Adr(f)
    ensures Without(f, f.ring[k]).Node?
  {
    DropAt(f.ring, k);
  }

  /** Leaving a ring changes no tree word, and no ring word of a chunk outside the ring. */
  lemma RingFrameAll(m: Mem, n: Mem, treemap: nat, trees: seq<Tree>, b: map<int, int>, x: int, p: Place, k: int)
    requires TreesOk(m, treemap, trees, b) && Placed(m, treemap, trees, b, x, p)
    requires 0 <= k < |p.f.ring| && p.f.ring[k] == x && n == UnlinkStores(m, Succ(p.f.ring, k), Pred(p.f.ring, k))
    ensures forall y :: y in b ==> SameTree(m, n, y) && (y !in p.f.ring ==> SameRing(m, n, y))
    ensures forall j: nat :: j < TREEBINS ==> Rd(n, TreebinAt(j)) == Rd(m, TreebinAt(j))
    ensures Rd(n, p.slot) == Rd(m, p.slot)
    ensures OnlyLinks(m, n, b.Keys)
  {
    hide Rd, Linked, Members, Distinct, TreeIndex, Find, FindPar, FindSlot, Bit, TrieOk, BinOk, UnlinkStores;
    RingMembers(m, treemap, trees, b, x, p, k);
    var fd, bk := Succ(p.f.ring, k), Pred(p.f.ring, k);
    assert fd in b && bk in b;
    forall a ensures a != fd + BK && a != bk + FD ==> Rd(n, a) == Rd(m, a) { UnlinkStoresRd(m, fd, bk, a); }
    SlotShape(m, treemap, trees, b, x, p);
  }

  /** The word that points to the node is the bin slot or a child field of a member. */
  lemma SlotShape(m: Mem, treemap: nat, trees: seq<Tree>, b: map<int, int>, x: int, p: Place)
    requires Placed(m, treemap, trees, b, x, p)
    ensures p.slot == TreebinAt(p.i) || exists y :: y in Members(p.t) && p.slot in {y + LEFT, y + RIGHT}
  {
    hide Rd, Linked, Members, Distinct, TreeIndex, Find, FindPar, FindSlot, Bit, TrieOk;
    FindSlotIn(p.t, b[x], Lo(p.i), Width(p.i), TreebinAt(p.i));
  }

  lemma SameImplies(m: Mem, n: Mem, b: map<int, int>, p: Place)
    requires p.f.Node? && forall y :: y in b ==> SameTree(m, n, y) && (y !in p.f.ring ==> SameRing(m, n, y))
    ensures forall y :: y in b && y !in p.f.ring ==> SameNode(m, n, y) && SameBut(m, n, y, p.slot)
    ensures forall y :: y in b ==> Rd(n, y + HEAD) == Rd(m, y + HEAD)
  {
    hide Rd;
  }

  // ---- another chunk takes over the place in the tree ----

  /** slot is a bin slot or a child field of a chunk that is y or far from it. */
  ghost predicate SlotFrom(slot: int, y: int) {
    slot < y || slot == y + LEFT || slot == y + RIGHT || exists z ::
        Far(z, y) && (slot == z + LEFT || slot == z + RIGHT)
  }

  lemma RelinkSame(m: Mem, n: Mem, r: int, xp: int, slot: int, c0: int, c1: int, y: int)
    requires Relinked(m, n, r, xp, slot, c0, c1) && SlotFrom(slot, y)
    requires r != 0 ==>
               (y == r || Far(r, y)) && (c0 == 0 || y == c0 || Far(c0, y)) && (c1 == 0 || y == c1 || Far(c1, y))
    ensures SameRing(m, n, y) && SameLabel(m, n, y)
    ensures r == 0 || (y != r && y != c0 && y != c1) ==> SameBut(m, n, y, slot)
    ensures y != r && y + LEFT != slot && y + RIGHT != slot ==> SameButParent(m, n, y)
  {
    hide Rd;
    assert RelinkFrame(y + FD, r, slot, c0, c1) && RelinkFrame(y + BK, r, slot, c0, c1);
    assert RelinkFrame(y + HEAD, r, slot, c0, c1) && RelinkFrame(y + INDEX, r, slot, c0, c1);
    assert r == 0 || (y != r && y != c0 && y != c1) ==> RelinkFrame(y + PARENT, r, slot, c0, c1);
    assert y + LEFT != slot && (r == 0 || y != r) ==> RelinkFrame(y + LEFT, r, slot, c0, c1);
    assert y + RIGHT != slot && (r == 0 || y != r) ==> RelinkFrame(y + RIGHT, r, slot, c0, c1);
  }

  lemma SlotFromBy(slot: int, z: int, y: int)
    requires (z == y || Far(z, y)) && (slot == z + LEFT || slot == z + RIGHT)
    ensures SlotFrom(slot, y)
  {
  }

  /** The word that points to the node belongs to no chunk below it, and to at most one above. */
  lemma SlotPlace(m: Mem, treemap: nat, trees: seq<Tree>, b: map<int, int>, x: int, p: Place)
    requires TreesOk(m, treemap, trees, b) && Placed(m, treemap, trees, b, x, p)
    ensures forall y :: y in b ==> SlotFrom(p.slot, y)
    ensures forall y :: y in Members(p.f) ==> y + LEFT != p.slot && y + RIGHT != p.slot && Outside(p.slot, y)
    ensures TreeSlot(p.slot) || exists z :: z in b && p.slot in {z + LEFT, z + RIGHT}
    ensures p.slot != TreebinAt(p.i) ==> p.slot >= LOWEST
  {
    hide Rd, Linked, Members, Distinct, TreeIndex, Find, FindPar, FindSlot, Bit, TrieOk;
    FindSlotAbove(p.t, b[x], Lo(p.i), Width(p.i), TreebinAt(p.i));
    BinnedFar(m, treemap, trees, b);
    if p.slot != TreebinAt(p.i) {
      var z :| z in Members(p.t) && z !in Members(p.f) && p.slot in {z + LEFT, z + RIGHT};
      assert z in b;
      forall y | y in b ensures SlotFrom(p.slot, y) { SlotFromBy(p.slot, z, y); }
    }
  }

  /** Chunks of b at different addresses are far apart. */
  lemma BinnedFar(m: Mem, treemap: nat, trees: seq<Tree>, b: map<int, int>)
    requires TreesOk(m, treemap, trees, b)
    ensures forall y, z :: y in b && z in b ==> y == z || Far(z, y)
    ensures forall y :: y in b ==> y >= LOWEST
  {
  }

  lemma UnlinkedFrame(m: Mem, m1: Mem, n: Mem, s: seq<int>, k: int)
    requires 0 <= k < |s| && UnlinkedAt(m, m1, s, k) && forall j :: 0 <= j < |s| ==> SameRing(m1, n, s[j])
    ensures UnlinkedAt(m, n, s, k)
  {
    hide Rd;
    var j := if k + 1 < |s| then k + 1 else 0;
    assert Succ(s, k) == s[j] && SameRing(m1, n, s[j]);
    var j' := if k > 0 then k - 1 else |s| - 1;
    assert Pred(s, k) == s[j'] && SameRing(m1, n, s[j']);
  }

  /** A subtree below x is handed to r. */
  lemma HandOver(m: Mem, m1: Mem, n: Mem, c: Tree, x: int, r: int, i: int, slot: int, xp: int, c0: int, c1: int)
    requires Linked(m1, c, x, i) && Distinct(c) && Relinked(m1, n, r, xp, slot, c0, c1) && r != 0
    requires Adr(c) == c0 || Adr(c) == c1
    requires c.Node? ==> Adr(c) in Members(c) && Adr(c) != 0
    requires forall y :: y in Members(c) ==>
        y != 0 && SlotFrom(slot, y) && Far(r, y) && y + LEFT != slot && y + RIGHT != slot
    requires forall y :: y in Members(c) ==> (c0 == 0 || y == c0 || Far(c0, y)) && (c1 == 0 || y == c1 || Far(c1, y))
    requires c0 == 0 || c1 == 0 || (c0 in Members(c) ==> c1 !in Members(c))
    ensures Linked(n, c, r, i)
  {
    hide Rd, Linked, Distinct, Members, SameButParent, SameBut, SlotFrom, Relinked;
    forall y | y in Members(c)
      ensures y != Adr(c) ==> SameNode(m1, n, y)
      ensures y == Adr(c) ==> SameButParent(m1, n, y)
    {
      RelinkSame(m1, n, r, xp, slot, c0, c1, y);
      MembersNode(c, y);
      if y != Adr(c) {
        assert y != r && y != c0 && y != c1;
        ButIsNode(m1, n, y, slot);
      }
    }
    assert c.Node? ==> Rd(n, Adr(c) + PARENT) == r by { RelinkedChild(m1, n, r, xp, slot, c0, c1); }
    Reparent(m1, n, c, x, r, i);
  }

  lemma RelinkedChild(m: Mem, n: Mem, r: int, xp: int, slot: int, c0: int, c1: int)
    requires Relinked(m, n, r, xp, slot, c0, c1) && r != 0
    ensures c0 != 0 ==> Rd(n, c0 + PARENT) == r
    ensures c1 != 0 ==> Rd(n, c1 + PARENT) == r
  {
  }

  /** The facts about r, x and x's subtrees that a takeover needs. */
  ghost predicate TakeoverReady(b: map<int, int>, f: Tree, l: Tree, r: Tree, e: int, slot: int) {
    && f.Node? && e != 0 && e in b
    && Distinct(l) && Distinct(r)
    && (l.Node? ==> Adr(l) in Members(l)) && (r.Node? ==> Adr(r) in Members(r))
    && (forall y :: y in Members(l) ==> y in b && y != e && y !in Members(r) && y + LEFT != slot && y + RIGHT != slot)
    && (forall y :: y in Members(r) ==> y in b && y != e && y !in Members(l) && y + LEFT != slot && y + RIGHT != slot)
    && (forall y :: y in b ==> SlotFrom(slot, y) && y != 0)
    && (forall y, z :: y in b && z in b ==> y == z || Far(z, y))
  }

  /** Both subtrees of x are handed to e. */
  lemma HandOverBoth(m1: Mem, n: Mem, b: map<int, int>, f: Tree, l: Tree, r: Tree, e: int, x: int, i: int, slot: int,
                     xp: int)
    requires TakeoverReady(b, f, l, r, e, slot)
    requires Linked(m1, l, x, i) && Linked(m1, r, x, i) && Relinked(m1, n, e, xp, slot, Adr(l), Adr(r))
    ensures Linked(n, l, e, i) && Linked(n, r, e, i)
    ensures forall y :: y in b ==> SameRing(m1, n, y) && SameLabel(m1, n, y)
    ensures forall y :: y in b && y != e && y != Adr(l) && y != Adr(r) ==> SameBut(m1, n, y, slot)
  {
    hide Rd, Linked, Members, Distinct, Relinked, SlotFrom, SameRing, SameLabel, SameBut;
    assert l.Nil? ==> Adr(l) == 0;
    assert r.Nil? ==> Adr(r) == 0;
    HandOver(m1, m1, n, l, x, e, i, slot, xp, Adr(l), Adr(r));
    HandOver(m1, m1, n, r, x, e, i, slot, xp, Adr(l), Adr(r));
    forall y | y in b
      ensures SameRing(m1, n, y) && SameLabel(m1, n, y)
      ensures y != e && y != Adr(l) && y != Adr(r) ==> SameBut(m1, n, y, slot)
    {
      RelinkSame(m1, n, e, xp, slot, Adr(l), Adr(r), y);
    }
  }

  lemma PromoteReady(m: Mem, treemap: nat, trees: seq<Tree>, b: map<int, int>, x: int, p: Place)
    requires TreesOk(m, treemap, trees, b) && Placed(m, treemap, trees, b, x, p)
    requires |p.f.ring| > 1 && p.f.ring[0] == x
    ensures TakeoverReady(b, p.f, p.f.l, p.f.r, Pred(p.f.ring, 0), p.slot)
    ensures forall k :: 0 <= k < |p.f.ring| ==>
              var y := p.f.ring[k];
              y in b && y != 0 && y != Adr(p.f.l) && y != Adr(p.f.r) && y + LEFT != p.slot && y + RIGHT != p.slot
    ensures forall k :: 1 <= k < |p.f.ring| - 1 ==> p.f.ring[k] != Pred(p.f.ring, 0)
  {
    hide Rd, Linked, Members, Distinct, TreeIndex, Find, FindPar, FindSlot, Bit, TrieOk, BinOk, SlotFrom;
    Parts(p.f);
    if p.f.l.Node? { Parts(p.f.l); }
    if p.f.r.Node? { Parts(p.f.r); }
    RingMembers(m, treemap, trees, b, x, p, 0);
    BinnedFar(m, treemap, trees, b);
    SlotPlace(m, treemap, trees, b, x, p);
  }

  /** Case: x stands in the tree and its predecessor in the ring replaces it. */
  lemma CasePromote(m: Mem, m1: Mem, n: Mem, treemap: nat, trees: seq<Tree>, b: map<int, int>, x: int, p: Place)
    requires TreesOk(m, treemap, trees, b) && Placed(m, treemap, trees, b, x, p)
    requires |p.f.ring| > 1 && p.f.ring[0] == x && m1 == UnlinkStores(m, Succ(p.f.ring, 0), Pred(p.f.ring, 0))
    requires Relinked(m1, n, Pred(p.f.ring, 0), p.par, p.slot, Adr(p.f.l), Adr(p.f.r))
    ensures Linked(n, Without(p.f, x), p.par, p.i)
  {
    hide Rd, Linked, Members, Distinct, TreeIndex, Find, FindPar, FindSlot, Bit, TrieOk, BinOk, UnlinkStores, SameTree,
         SameRing, SameBut, SameLabel, Without, Relinked, SlotFrom, Holds, TakeoverReady;
    var f := p.f;
    Parts(f);
    PromoteReady(m, treemap, trees, b, x, p);
    RingMembers(m, treemap, trees, b, x, p, 0);
    PromoteHandOver(m, m1, n, treemap, trees, b, x, p);
    UnlinkStoresRing(m, f.ring, 0);
    UnlinkedFrame(m, m1, n, f.ring, 0);
    LinkedNode(m, f, p.par, p.i);
    RingFrameAll(m, m1, treemap, trees, b, x, p, 0);
    PromoteHead(m, m1, n, f, p.par, p.i, p.slot);
    PromoteChained(m, n, f, p.par, p.par, p.i);
  }

  lemma BeyondBins(m: Mem, m1: Mem, n: Mem, treemap: nat, trees: seq<Tree>, b: map<int, int>, x: int, p: Place, e: int,
                   c0: int, c1: int)
    requires TreesOk(m, treemap, trees, b) && Placed(m, treemap, trees, b, x, p)
    requires Relinked(m1, n, e, p.par, p.slot, c0, c1)
    requires e == 0 || (e in Members(p.f) && (c0 == 0 || c0 in Members(p.f)) && (c1 == 0 || c1 in Members(p.f)))
    ensures forall j: nat :: j < TREEBINS && TreebinAt(j) != p.slot ==> Rd(n, TreebinAt(j)) == Rd(m1, TreebinAt(j))
    ensures OnlyLinks(m1, n, b.Keys)
  {
    hide Rd, Linked, Members, Distinct, TreeIndex, Find, FindPar, FindSlot, Bit, TrieOk, BinOk, SlotFrom, SameRing,
         SameLabel, SameBut;
    BinnedFar(m, treemap, trees, b);
    SlotPlace(m, treemap, trees, b, x, p);
    MembersBinned(m, treemap, trees, b, x, p);
  }

  /** A takeover below x leaves the chunks outside x's subtree alone, but for the word that pointed to x. */
  lemma BeyondNode(m: Mem, m1: Mem, n: Mem, treemap: nat, trees: seq<Tree>, b: map<int, int>, x: int, p: Place, e: int,
                   c0: int, c1: int)
    requires TreesOk(m, treemap, trees, b) && Placed(m, treemap, trees, b, x, p)
    requires Relinked(m1, n, e, p.par, p.slot, c0, c1)
    requires e == 0 || (e in Members(p.f) && (c0 == 0 || c0 in Members(p.f)) && (c1 == 0 || c1 in Members(p.f)))
    ensures forall y :: y in b && y !in Members(p.f) ==> SameBut(m1, n, y, p.slot)
    ensures forall y :: y in b ==> SameRing(m1, n, y) && SameLabel(m1, n, y)
    ensures forall j: nat :: j < TREEBINS && TreebinAt(j) != p.slot ==> Rd(n, TreebinAt(j)) == Rd(m1, TreebinAt(j))
    ensures OnlyLinks(m1, n, b.Keys)
  {
    hide Rd, Linked, Members, Distinct, TreeIndex, Find, FindPar, FindSlot, Bit, TrieOk, BinOk, SlotFrom, SameRing,
         SameLabel, SameBut, OnlyLinks;
    BinnedFar(m, treemap, trees, b);
    SlotPlace(m, treemap, trees, b, x, p);
    MembersBinned(m, treemap, trees, b, x, p);
    BeyondBins(m, m1, n, treemap, trees, b, x, p, e, c0, c1);
    forall y | y in b
      ensures SameRing(m1, n, y) && SameLabel(m1, n, y)
      ensures y !in Members(p.f) ==> SameBut(m1, n, y, p.slot)
    {
      RelinkSame(m1, n, e, p.par, p.slot, c0, c1, y);
    }
  }

  lemma PromoteHandOver(m: Mem, m1: Mem, n: Mem, treemap: nat, trees: seq<Tree>, b: map<int, int>, x: int, p: Place)
    requires TreesOk(m, treemap, trees, b) && Placed(m, treemap, trees, b, x, p)
    requires |p.f.ring| > 1 && p.f.ring[0] == x && m1 == UnlinkStores(m, Succ(p.f.ring, 0), Pred(p.f.ring, 0))
    requires Relinked(m1, n, Pred(p.f.ring, 0), p.par, p.slot, Adr(p.f.l), Adr(p.f.r))
    ensures var e := Pred(p.f.ring, 0); Linked(n, p.f.l, e, p.i) && Linked(n, p.f.r, e, p.i)
    ensures forall y :: y in b ==> SameRing(m1, n, y) && SameLabel(m1, n, y)
    ensures forall y :: y in b && y != Pred(p.f.ring, 0) && y != Adr(p.f.l) && y != Adr(p.f.r) ==>
              SameBut(m1, n, y, p.slot)
  {
    hide Rd, Linked, Members, Distinct, TreeIndex, Find, FindPar, FindSlot, Bit, TrieOk, BinOk, UnlinkStores, SameTree,
         SameRing, SameBut, SameLabel, Without, Relinked, SlotFrom, Holds, TakeoverReady, Spaced;
    var f, e := p.f, Pred(p.f.ring, 0);
    Parts(f);
    RingFrameAll(m, m1, treemap, trees, b, x, p, 0);
    PromoteReady(m, treemap, trees, b, x, p);
    MembersBinned(m, treemap, trees, b, x, p);
    SameImplies(m, m1, b, p);
    LinkedNode(m, f, p.par, p.i);
    LinkedFrame(m, m1, f.l, x, p.i);
    LinkedFrame(m, m1, f.r, x, p.i);
    HandOverBoth(m1, n, b, f, f.l, f.r, e, x, p.i, p.slot, p.par);
  }

  /** The words of the promoted ring. */
  lemma PromoteHead(m: Mem, m1: Mem, n: Mem, f: Tree, par: int, i: int, slot: int)
    requires f.Node? && |f.ring| > 1 && NodeOk(m, f.ring, f.sz, par, Adr(f.l), Adr(f.r), i) && NoDup(f.ring)
    requires forall k :: 0 <= k < |f.ring| ==> f.ring[k] != 0 && f.ring[k] != Adr(f.l) && f.ring[k] != Adr(f.r)
    requires forall k :: 0 <= k < |f.ring| ==> SameTree(m, m1, f.ring[k]) && SameLabel(m1, n, f.ring[k])
    requires forall k :: 0 <= k < |f.ring| ==> f.ring[k] + LEFT != slot && f.ring[k] + RIGHT != slot
    requires forall k :: 1 <= k < |f.ring| - 1 ==> SameBut(m1, n, f.ring[k], slot)
    requires Relinked(m1, n, Pred(f.ring, 0), par, slot, Adr(f.l), Adr(f.r))
    ensures forall k :: 1 <= k < |f.ring| ==> SameLabel(m, n, f.ring[k])
    ensures forall k :: 1 <= k < |f.ring| - 1 ==> SameTree(m, n, f.ring[k])
    ensures var e := f.ring[|f.ring| - 1];
            Rd(n, e + PARENT) == par && Rd(n, e + LEFT) == Adr(f.l) && Rd(n, e + RIGHT) == Adr(f.r)
  {
    hide Rd;
    var e := f.ring[|f.ring| - 1];
    assert Chained(m, e) && SameTree(m, m1, e);
  }

  lemma MembersBinned(m: Mem, treemap: nat, trees: seq<Tree>, b: map<int, int>, x: int, p: Place)
    requires Placed(m, treemap, trees, b, x, p)
    ensures forall y :: y in Members(p.t) ==> y in b
    ensures forall y :: y in Members(p.f) ==> y in b
    ensures forall y :: y in p.f.ring ==> y in b
  {
    RingInMembers(p.f);
  }

  // ---- the last leaf below replaces a lone chunk ----

  /** x alone has its size, and d tells below which child the last leaf is. */
  ghost predicate Lone(f: Tree, x: int, d: bool) {
    f.Node? && f.ring == [x] && d == f.r.Node? && Child(f, d).Node?
  }

  ghost function LoneLeft(f: Tree, d: bool): Tree
    requires f.Node? && Child(f, d).Node?
  {
    if d then f.l else CutLast(f.l)
  }

  ghost function LoneRight(f: Tree, d: bool): Tree
    requires f.Node? && Child(f, d).Node?
  {
    if d then CutLast(f.r) else f.r
  }

  ghost function LoneSlot(f: Tree, x: int, d: bool): int
    requires f.Node? && Child(f, d).Node?
  {
    LastSlot(Child(f, d), x + (if d then RIGHT else LEFT))
  }

  lemma LoneMembers(f: Tree, x: int, d: bool)
    requires Lone(f, x, d) && Distinct(f)
    ensures var e := LastLeaf(Child(f, d));
            && Distinct(LoneLeft(f, d)) && Distinct(LoneRight(f, d)) && e.ring != [] && NoDup(e.ring)
            && Elems(e.ring) <= Members(Child(f, d)) <= Members(f)
            && Members(LoneLeft(f, d)) == Members(f.l) - Elems(e.ring)
            && Members(LoneRight(f, d)) == Members(f.r) - Elems(e.ring)
            && x !in Members(f.l) && x !in Members(f.r) && Members(f.l) !! Members(f.r)
            && Members(f) == {x} + Members(f.l) + Members(f.r)
  {
    CutLastMembers(Child(f, d));
    assert Elems([x]) == {x};
  }

  lemma LoneReady(m: Mem, treemap: nat, trees: seq<Tree>, b: map<int, int>, x: int, p: Place, d: bool)
    requires TreesOk(m, treemap, trees, b) && Placed(m, treemap, trees, b, x, p) && Lone(p.f, x, d)
    ensures TakeoverReady(b, p.f, LoneLeft(p.f, d), LoneRight(p.f, d), Adr(LastLeaf(Child(p.f, d))), p.slot)
  {
    hide Rd, Linked, Members, Distinct, TreeIndex, Find, FindPar, FindSlot, Bit, TrieOk, BinOk, SlotFrom, CutLast,
         LastLeaf, TreesOk, Holds, ChunkSize, LoneLeft, LoneRight;
    var l, r, e := LoneLeft(p.f, d), LoneRight(p.f, d), LastLeaf(Child(p.f, d));
    LoneMembers(p.f, x, d);
    if l.Node? { Parts(l); }
    if r.Node? { Parts(r); }
    assert e.ring[0] in Elems(e.ring);
    BinnedFar(m, treemap, trees, b);
    SlotPlace(m, treemap, trees, b, x, p);
    MembersBinned(m, treemap, trees, b, x, p);
  }

  /** The word that points to the last leaf is a child field of x, or of a chunk between. */
  lemma LoneSlotIn(f: Tree, x: int, d: bool) returns (z: int)
    requires Lone(f, x, d) && Distinct(f)
    ensures z in Members(f) && z !in LastLeaf(Child(f, d)).ring && LoneSlot(f, x, d) in {z + LEFT, z + RIGHT}
    ensures if CutLast(Child(f, d)).Nil? then z == x && LoneSlot(f, x, d) == x + (if d then RIGHT else LEFT)
            else z in Members(Child(f, d))
  {
    var c := Child(f, d);
    LoneMembers(f, x, d);
    LastSlotIn(c, x + (if d then RIGHT else LEFT));
    if c.l.Nil? && c.r.Nil? {
      z := x;
      assert x !in LastLeaf(c).ring by { assert forall y :: y in LastLeaf(c).ring ==> y in Elems(LastLeaf(c).ring); }
    } else {
      z :| z in Members(c) && z !in LastLeaf(c).ring && LoneSlot(f, x, d) in {z + LEFT, z + RIGHT};
    }
  }

  /** Clearing that word. */
  lemma LoneStore(m: Mem, m1: Mem, slot: int, b: map<int, int>, z: int)
    requires m1 == m[slot := 0] && z in b && slot in {z + LEFT, z + RIGHT}
    requires forall y :: y in b ==> (y == z || Far(z, y)) && y >= LOWEST
    ensures Rd(m1, slot) == 0 && forall a :: a != slot ==> Rd(m1, a) == Rd(m, a)
    ensures forall y :: y in b ==> SameBut(m, m1, y, slot) && (y != z ==> SameNode(m, m1, y))
    ensures OnlyLinks(m, m1, b.Keys)
    ensures forall j: nat :: j < TREEBINS ==> Rd(m1, TreebinAt(j)) == Rd(m, TreebinAt(j))
  {
    assert Rd(m1, slot) == 0 && forall a :: a != slot ==> Rd(m1, a) == Rd(m, a);
    hide Rd;
  }

  lemma LoneCut(m: Mem, m1: Mem, treemap: nat, trees: seq<Tree>, b: map<int, int>, x: int, p: Place, d: bool)
    requires TreesOk(m, treemap, trees, b) && Placed(m, treemap, trees, b, x, p) && Lone(p.f, x, d)
    requires m1 == m[LoneSlot(p.f, x, d) := 0]
    ensures Linked(m1, LoneLeft(p.f, d), x, p.i) && Linked(m1, LoneRight(p.f, d), x, p.i)
    ensures Rd(m1, x + LEFT) == Adr(LoneLeft(p.f, d)) && Rd(m1, x + RIGHT) == Adr(LoneRight(p.f, d))
    ensures var e := LastLeaf(Child(p.f, d)); NodeOk(m1, e.ring, e.sz, LastPar(Child(p.f, d), x), 0, 0, p.i)
    ensures forall y :: y in b && y !in Members(p.f) ==> SameNode(m, m1, y)
    ensures forall y :: y in b ==> SameRing(m, m1, y) && SameLabel(m, m1, y)
    ensures OnlyLinks(m, m1, b.Keys) && Rd(m1, p.slot) == Rd(m, p.slot)
    ensures forall j: nat :: j < TREEBINS ==> Rd(m1, TreebinAt(j)) == Rd(m, TreebinAt(j))
  {
    hide Rd, Linked, Members, Distinct, TreeIndex, Find, FindPar, FindSlot, Bit, TrieOk, BinOk, CutLast, LastLeaf,
         LastSlot, NodeOk, OnlyLinks, Spaced, LastPar, SlotFrom;
    var f, c, e := p.f, Child(p.f, d), LastLeaf(Child(p.f, d));
    var slot := LoneSlot(f, x, d);
    LoneMembers(f, x, d);
    var z := LoneSlotIn(f, x, d);
    BinnedFar(m, treemap, trees, b);
    MembersBinned(m, treemap, trees, b, x, p);
    SlotPlace(m, treemap, trees, b, x, p);
    LoneStore(m, m1, slot, b, z);
    SpacedSub(Members(f), Members(p.t));
    LoneCutChildren(m, m1, f, x, p.par, p.i, d);
    Parts(f);
    LinkedNode(m, f, p.par, p.i);
    LastLeafNode(m, c, x, p.i);
    assert forall k :: 0 <= k < |e.ring| ==> e.ring[k] in Elems(e.ring);
    NodeFrame(m, m1, e.ring, e.sz, LastPar(c, x), 0, 0, p.i);
    ButParts(m, m1, b, slot);
  }

  lemma ButParts(m: Mem, n: Mem, b: map<int, int>, slot: int)
    requires forall y :: y in b ==> SameBut(m, n, y, slot)
    ensures forall y :: y in b ==> SameRing(m, n, y) && SameLabel(m, n, y)
  {
    hide Rd;
  }

  lemma SpacedSub(s: set<int>, t: set<int>)
    requires s <= t && Spaced(t, 64)
    ensures Spaced(s, 64)
  {
  }

  lemma LoneCutChildren(m: Mem, m1: Mem, f: Tree, x: int, par: int, i: int, d: bool)
    requires Lone(f, x, d) && Distinct(f) && Linked(m, f, par, i) && Spaced(Members(f), 64)
    requires Rd(m1, LoneSlot(f, x, d)) == 0 && forall y :: y in Members(f) ==> SameBut(m, m1, y, LoneSlot(f, x, d))
    ensures Linked(m1, LoneLeft(f, d), x, i) && Linked(m1, LoneRight(f, d), x, i)
    ensures Rd(m1, x + LEFT) == Adr(LoneLeft(f, d)) && Rd(m1, x + RIGHT) == Adr(LoneRight(f, d))
  {
    hide Rd, Linked, Members, Distinct, CutLast, LastLeaf, LastSlot, NodeOk, SameRing, SameLabel;
    var c, o := Child(f, d), Child(f, !d);
    var slot := LoneSlot(f, x, d);
    LoneMembers(f, x, d);
    var z := LoneSlotIn(f, x, d);
    Parts(f);
    LinkedNode(m, f, par, i);
    NodeHead(m, f.ring, f.sz, par, Adr(f.l), Adr(f.r), i);
    assert NotField(x + (if d then RIGHT else LEFT), Members(c));
    SpacedSub(Members(c), Members(f));
    CutLinked(m, m1, c, x, i, x + (if d then RIGHT else LEFT));
    ButElsewhere(m, m1, Members(o), slot);
    LinkedFrame(m, m1, o, x, i);
    assert SameBut(m, m1, x, slot);
  }

  /** Case: x is the last chunk of its size and a leaf below takes its place. */
  lemma CaseLone(m: Mem, m1: Mem, n: Mem, treemap: nat, trees: seq<Tree>, b: map<int, int>, x: int, p: Place, d: bool)
    requires TreesOk(m, treemap, trees, b) && Placed(m, treemap, trees, b, x, p) && Lone(p.f, x, d)
    requires m1 == m[LoneSlot(p.f, x, d) := 0]
    requires Relinked(m1, n, Adr(LastLeaf(Child(p.f, d))), p.par, p.slot, Adr(LoneLeft(p.f, d)), Adr(LoneRight(p.f, d)))
    ensures Linked(n, Without(p.f, x), p.par, p.i)
    ensures Adr(Without(p.f, x)) == Adr(LastLeaf(Child(p.f, d)))
  {
    hide Rd, Linked, Members, Distinct, TreeIndex, Find, FindPar, FindSlot, Bit, TrieOk, BinOk, CutLast, LastLeaf,
         LastSlot, NodeOk, OnlyLinks, Spaced, LastPar, SlotFrom, Relinked, SameBut, TakeoverReady;
    var f, c, e := p.f, Child(p.f, d), LastLeaf(Child(p.f, d));
    var l, r := LoneLeft(f, d), LoneRight(f, d);
    LoneReady(m, treemap, trees, b, x, p, d);
    LoneCut(m, m1, treemap, trees, b, x, p, d);
    HandOverBoth(m1, n, b, f, l, r, Adr(e), x, p.i, p.slot, p.par);
    SlotPlace(m, treemap, trees, b, x, p);
    MembersBinned(m, treemap, trees, b, x, p);
    LoneRing(m1, n, b, f, x, d, p.par, p.i, p.slot);
    LinkedIntro(n, Node(e.ring, e.sz, l, r), p.par, p.i);
  }

  lemma LoneRing(m1: Mem, n: Mem, b: map<int, int>, f: Tree, x: int, d: bool, par: int, i: int, slot: int)
    requires Lone(f, x, d) && Distinct(f)
    requires var e := LastLeaf(Child(f, d));
             && NodeOk(m1, e.ring, e.sz, LastPar(Child(f, d), x), 0, 0, i)
             && TakeoverReady(b, f, LoneLeft(f, d), LoneRight(f, d), Adr(e), slot)
             && Relinked(m1, n, Adr(e), par, slot, Adr(LoneLeft(f, d)), Adr(LoneRight(f, d)))
    requires forall y :: y in b ==> SameRing(m1, n, y) && SameLabel(m1, n, y)
    requires var e := LastLeaf(Child(f, d));
             forall y :: y in b && y != Adr(e) && y != Adr(LoneLeft(f, d)) && y != Adr(LoneRight(f, d))
                 ==> SameBut(m1, n, y, slot)
    requires forall y :: y in Members(f) ==> y in b && y + LEFT != slot && y + RIGHT != slot
    ensures var e := LastLeaf(Child(f, d)); NodeOk(n, e.ring, e.sz, par, Adr(LoneLeft(f, d)), Adr(LoneRight(f, d)), i)
  {
    hide Rd, Members, Distinct, CutLast, LastLeaf, NodeOk, LastPar, SlotFrom, SameBut, SameRing, SameLabel;
    var c, e := Child(f, d), LastLeaf(Child(f, d));
    var l, r := LoneLeft(f, d), LoneRight(f, d);
    LoneMembers(f, x, d);
    assert forall k :: 0 <= k < |e.ring| ==> e.ring[k] in Elems(e.ring);
    forall k | 1 <= k < |e.ring| ensures SameNode(m1, n, e.ring[k]) {
      assert e.ring[k] in Elems(e.ring) && e.ring[k] != e.ring[0];
      ButIsNode(m1, n, e.ring[k], slot);
    }
    NodeHead(m1, e.ring, e.sz, LastPar(c, x), 0, 0, i);
    NodeRelink(m1, n, e.ring, e.sz, LastPar(c, x), 0, 0, i, par, Adr(l), Adr(r));
  }

  /** Once a takeover has linked the node without x, the invariant holds without x. */
  lemma TakenOver(m: Mem, m1: Mem, n: Mem, treemap: nat, treemap': nat, trees: seq<Tree>, b: map<int, int>, x: int,
                  p: Place, e: int, c0: int, c1: int)
    requires TreesOk(m, treemap, trees, b) && Placed(m, treemap, trees, b, x, p)
    requires forall y :: y in b && y !in Members(p.f) ==> SameNode(m, m1, y)
    requires forall y :: y in b ==> SameLabel(m, m1, y)
    requires forall j: nat :: j < TREEBINS ==> Rd(m1, TreebinAt(j)) == Rd(m, TreebinAt(j))
    requires OnlyLinks(m, m1, b.Keys)
    requires Relinked(m1, n, e, p.par, p.slot, c0, c1)
    requires e == 0 || (e in Members(p.f) && (c0 == 0 || c0 in Members(p.f)) && (c1 == 0 || c1 in Members(p.f)))
    requires Linked(n, Without(p.f, x), p.par, p.i) && Adr(Without(p.f, x)) == e && (Without(p.f, x).Nil? <==> e == 0)
    requires treemap' == if p.slot == TreebinAt(p.i) && e == 0 then Clear(treemap, p.i) else treemap
    ensures TreesOk(n, treemap', Removed(trees, x, b[x]), b - {x})
    ensures OnlyLinks(m, n, b.Keys)
  {
    hide Rd, Linked, Members, Distinct, TreeIndex, Find, FindPar, FindSlot, Bit, TrieOk, BinOk, SlotFrom, SameLabel,
         SameRing, SameBut, SameNode, Without, Graft, Clear, Spaced;
    BeyondNode(m, m1, n, treemap, trees, b, x, p, e, c0, c1);
    assert Rd(n, p.slot) == e by { RelinkedSlot(m1, n, e, p.par, p.slot, c0, c1); }
    SlotPlace(m, treemap, trees, b, x, p);
    forall y | y in b && y !in Members(p.f) ensures SameBut(m, n, y, p.slot)
        && (y !in Members(p.t) ==> SameNode(m, n, y)) {
      NodeThenBut(m, m1, n, y, p.slot);
      if y !in Members(p.t) {
        SlotNotOf(m, treemap, trees, b, x, p, y);
        ButIsNode(m, n, y, p.slot);
      }
    }
    MembersBinned(m, treemap, trees, b, x, p);
    RemovedLinked(m, n, treemap, trees, b, x, p);
    LabelsKept(m, m1, n, b);
    MapAfter(m, treemap, treemap', p, e);
    OnlyLinksTrans(m, m1, n, b.Keys);
    UnlinkDone(m, n, treemap, treemap', trees, b, b - {x}, x, p);
  }

  lemma RelinkedSlot(m: Mem, n: Mem, r: int, xp: int, slot: int, c0: int, c1: int)
    requires Relinked(m, n, r, xp, slot, c0, c1)
    ensures Rd(n, slot) == r
  {
  }

  lemma NodeThenBut(m: Mem, m1: Mem, n: Mem, y: int, slot: int)
    requires SameNode(m, m1, y) && SameBut(m1, n, y, slot)
    ensures SameBut(m, n, y, slot)
  {
    hide Rd;
  }

  /** The word that points to the node is no field of a chunk of another bin. */
  lemma SlotNotOf(m: Mem, treemap: nat, trees: seq<Tree>, b: map<int, int>, x: int, p: Place, y: int)
    requires TreesOk(m, treemap, trees, b) && Placed(m, treemap, trees, b, x, p) && y in b && y !in Members(p.t)
    ensures y + LEFT != p.slot && y + RIGHT != p.slot
  {
    hide Rd, Linked, Members, Distinct, TreeIndex, Find, FindPar, FindSlot, Bit, TrieOk, BinOk;
    SlotShape(m, treemap, trees, b, x, p);
  }

  lemma LabelsKept(m: Mem, m1: Mem, n: Mem, b: map<int, int>)
    requires forall y :: y in b ==> SameLabel(m, m1, y)
    requires forall y :: y in b ==> SameLabel(m1, n, y)
    ensures forall y :: y in b ==> Rd(n, y + HEAD) == Rd(m, y + HEAD)
  {
    hide Rd;
  }

  lemma OnlyLinksTrans(m: Mem, m1: Mem, n: Mem, s: set<int>)
    requires OnlyLinks(m, m1, s) && OnlyLinks(m1, n, s)
    ensures OnlyLinks(m, n, s)
  {
    hide Rd, Off;
    forall a | Off(s, a) && !TreeSlot(a) ensures Rd(n, a) == Rd(m, a) {
      assert Rd(m1, a) == Rd(m, a);
    }
  }

  lemma MapAfter(m: Mem, treemap: nat, treemap': nat, p: Place, e: int)
    requires p.i < TREEBINS && treemap < MAP && BinOk(m, treemap, p.t, p.i) && p.t.Node?
    requires treemap' == if p.slot == TreebinAt(p.i) && e == 0 then Clear(treemap, p.i) else treemap
    ensures treemap' < MAP
    ensures Bit(treemap', p.i) <==> !(p.slot == TreebinAt(p.i) && e == 0)
    ensures forall j: nat :: j < TREEBINS && j != p.i ==> (Bit(treemap', j) <==> Bit(treemap, j))
  {
    hide Bit, Linked, TrieOk, Distinct, Rd;
    ClearBit(treemap, p.i);
  }

  // ---- unlink_large_chunk ----

  lemma ChildWords(m: Mem, u: Tree, par: int, i: int)
    requires u.Node? && Linked(m, u, par, i) && Distinct(u) && forall y :: y in Members(u) ==> y != 0
    ensures Adr(u) != 0 && Rd(m, Adr(u) + LEFT) == Adr(u.l) && Rd(m, Adr(u) + RIGHT) == Adr(u.r)
    ensures (Adr(u.l) == 0 <==> u.l.Nil?) && (Adr(u.r) == 0 <==> u.r.Nil?)
    ensures Linked(m, u.l, Adr(u), i) && Linked(m, u.r, Adr(u), i) && Distinct(u.l) && Distinct(u.r)
    ensures forall y :: y in Members(u.l) || y in Members(u.r) ==> y != 0
  {
    hide Rd, Linked, Distinct, Members;
    Parts(u);
    LinkedNode(m, u, par, i);
    NodeHead(m, u.ring, u.sz, par, Adr(u.l), Adr(u.r), i);
    if u.l.Node? { Parts(u.l); }
    if u.r.Node? { Parts(u.r); }
  }

  /** The search for the leaf below x that will replace it, and the word that points to it. */
  method LastBelow(m: Mem, x: int, ghost f: Tree, ghost par: int, ghost i: int) returns (r: int, rp: int)
    requires f.Node? && f.ring == [x] && Linked(m, f, par, i) && Distinct(f) && forall y :: y in Members(f) ==> y != 0
    ensures r == 0 <==> f.l.Nil? && f.r.Nil?
    ensures r != 0 ==>
              Lone(f, x, f.r.Node?) && r == Adr(LastLeaf(Child(f, f.r.Node?))) && rp == LoneSlot(f, x, f.r.Node?)
  {
    hide Rd, Linked, Distinct, Members;
    ChildWords(m, f, par, i);
    rp := x + RIGHT;
    r := Rd(m, rp);
    if r == 0 {
      rp := x + LEFT;
      r := Rd(m, rp);
    }
    if r != 0 {
      ghost var c := Child(f, f.r.Node?);
      ghost var u, up := c, x;
      ChildWords(m, u, up, i);
      while Rd(m, r + RIGHT) != 0 || Rd(m, r + LEFT) != 0
        invariant u.Node? && Linked(m, u, up, i) && Distinct(u) && (forall y :: y in Members(u) ==> y != 0)
        invariant r == Adr(u) != 0 && LastLeaf(u) == LastLeaf(c) && LastSlot(u, rp) == LoneSlot(f, x, f.r.Node?)
        invariant Rd(m, r + LEFT) == Adr(u.l) && Rd(m, r + RIGHT) == Adr(u.r)
        invariant (Adr(u.l) == 0 <==> u.l.Nil?) && (Adr(u.r) == 0 <==> u.r.Nil?)
        decreases u
      {
        ChildWords(m, u, up, i);
        rp := if Rd(m, r + RIGHT) != 0 then r + RIGHT else r + LEFT;
        up := r;
        u := if u.r.Node? then u.r else u.l;
        r := Rd(m, rp);
        ChildWords(m, u, up, i);
      }
    }
  }

  /** unlink_large_chunk(M, X) */
  method UnlinkLarge(m0: Mem, treemap0: nat, x: int, ghost trees0: seq<Tree>, ghost b: map<int, int>)
    returns (m: Mem, treemap: nat, ghost trees: seq<Tree>)
    requires TreesOk(m0, treemap0, trees0, b) && x in b
    ensures TreesOk(m, treemap, trees, b - {x})
    ensures OnlyLinks(m0, m, b.Keys)
    ensures |trees0| == TREEBINS && 0 <= b[x] && TreeIndex(b[x]) < TREEBINS && trees0[TreeIndex(b[x])].Node?
    ensures trees == Removed(trees0, x, b[x])
  {
    hide Rd, TreesOk, OnlyLinks, Placed, Removed, TreeIndex, Members;
    ghost var p := Locate(m0, treemap0, trees0, b, x);
    ghost var k := RingIndex(m0, treemap0, trees0, b, x, p);
    trees := Removed(trees0, x, b[x]);
    m, treemap := m0, treemap0;
    var xp := Rd(m, x + PARENT);
    if Rd(m, x + BK) != x {
      var fd := Rd(m, x + FD);
      var r := Rd(m, x + BK);
      m := m[fd + BK := r];
      m := m[r + FD := fd];
      if xp != 0 {
        m, treemap := TakeByRing(m, treemap, x, xp, r, m0, trees0, b, p);
      } else {
        CaseChained(m0, m, treemap0, trees0, b, x, p, k);
      }
    } else {
      m, treemap := TakeByLeaf(m, treemap, x, xp, trees0, b, p);
    }
  }

  lemma RingIndex(m: Mem, treemap: nat, trees: seq<Tree>, b: map<int, int>, x: int, p: Place) returns (k: int)
    requires TreesOk(m, treemap, trees, b) && Placed(m, treemap, trees, b, x, p)
    ensures |trees| == TREEBINS && 0 <= b[x] && TreeIndex(b[x]) < TREEBINS && trees[TreeIndex(b[x])].Node? && p.f.Node?
    ensures 0 <= k < |p.f.ring| && p.f.ring[k] == x
    ensures Rd(m, x + FD) == Succ(p.f.ring, k) && Rd(m, x + BK) == Pred(p.f.ring, k)
    ensures Pred(p.f.ring, k) == x <==> |p.f.ring| == 1
    ensures Rd(m, x + PARENT) == (if k == 0 then p.par else 0) && p.par != 0
    ensures Rd(m, x + INDEX) == p.i
  {
    hide Rd, Linked, Members, Distinct, TreeIndex, Find, FindPar, FindSlot, Bit, TrieOk;
    k :| 0 <= k < |p.f.ring| && p.f.ring[k] == x;
    RingMembers(m, treemap, trees, b, x, p, k);
    SlotOf(m, p.t, TreebinAt(p.i), p.i, b[x], Lo(p.i), Width(p.i), TreebinAt(p.i));
  }

  /** The part of unlink_large_chunk for a chunk in the tree whose ring has more members. */
  method TakeByRing(m1: Mem, treemap0: nat, x: int, xp: int, r: int, ghost m0: Mem, ghost trees: seq<Tree>,
                    ghost b: map<int, int>, ghost p: Place)
    returns (m: Mem, treemap: nat)
    requires |trees| == TREEBINS && x in b && 0 <= b[x] && TreeIndex(b[x]) < TREEBINS && trees[TreeIndex(b[x])].Node?
    requires p.f.Node?
    requires TreesOk(m0, treemap0, trees, b) && Placed(m0, treemap0, trees, b, x, p)
    requires |p.f.ring| > 1 && p.f.ring[0] == x && r == Pred(p.f.ring, 0) && xp == p.par
    requires m1 == UnlinkStores(m0, Succ(p.f.ring, 0), r)
    ensures TreesOk(m, treemap, Removed(trees, x, b[x]), b - {x})
    ensures OnlyLinks(m0, m, b.Keys)
  {
    hide Rd, TreesOk, OnlyLinks, Placed, Removed, TreeIndex, Members, UnlinkStores, Without, Clear, Relinked, RelinkPre,
         RelinkSlot, Linked, SameLabel, SameNode;
    PromotePre(m0, m1, treemap0, trees, b, x, p);
    var slot;
    m, treemap, slot := Relink(m1, treemap0, x, xp, r);
    CasePromote(m0, m1, m, treemap0, trees, b, x, p);
    TakenOver(m0, m1, m, treemap0, treemap, trees, b, x, p, r, Adr(p.f.l), Adr(p.f.r));
  }

  /** The place of x as the store shows it. */
  lemma SlotWord(m: Mem, m1: Mem, treemap: nat, trees: seq<Tree>, b: map<int, int>, x: int, p: Place)
    requires TreesOk(m, treemap, trees, b) && Placed(m, treemap, trees, b, x, p) && p.f.ring[0] == x
    requires forall y :: y in b && y !in Members(p.f) ==> SameNode(m, m1, y)
    requires SameLabel(m, m1, x) && Rd(m1, TreebinAt(p.i)) == Rd(m, TreebinAt(p.i))
    ensures Rd(m1, x + INDEX) == p.i && RelinkSlot(m1, x, p.par) == p.slot
    ensures p.slot == TreebinAt(p.i) ==> x == Rd(m1, p.slot)
  {
    hide Rd, Linked, Members, Distinct, TreeIndex, Find, FindPar, FindSlot, Bit, TrieOk;
    RingMembers(m, treemap, trees, b, x, p, 0);
    MembersBinned(m, treemap, trees, b, x, p);
    SlotOf(m, p.t, TreebinAt(p.i), p.i, b[x], Lo(p.i), Width(p.i), TreebinAt(p.i));
    Parts(p.f);
  }

  lemma ReadyToRelink(m: Mem, m1: Mem, treemap: nat, trees: seq<Tree>, b: map<int, int>, x: int, p: Place, e: int)
    requires TreesOk(m, treemap, trees, b) && Placed(m, treemap, trees, b, x, p) && p.f.ring[0] == x
    requires forall y :: y in b && y !in Members(p.f) ==> SameNode(m, m1, y)
    requires SameLabel(m, m1, x) && Rd(m1, TreebinAt(p.i)) == Rd(m, TreebinAt(p.i))
    requires e != 0 ==> e in Members(p.f) && e != x
    requires var c0, c1 := Rd(m1, x + LEFT), Rd(m1, x + RIGHT);
             && (c0 != 0 ==> c0 in Members(p.f) && c0 != x && c0 != e && c0 != c1)
             && (c1 != 0 ==> c1 in Members(p.f) && c1 != x && c1 != e)
    ensures RelinkPre(m1, x, p.par, e) && RelinkSlot(m1, x, p.par) == p.slot && Rd(m1, x + INDEX) == p.i
  {
    hide Rd, Linked, Members, Distinct, TreeIndex, Find, FindPar, FindSlot, Bit, TrieOk, BinOk, SlotFrom, Spaced;
    SlotWord(m, m1, treemap, trees, b, x, p);
    SlotPlace(m, treemap, trees, b, x, p);
    BinnedFar(m, treemap, trees, b);
    MembersBinned(m, treemap, trees, b, x, p);
  }

  lemma PromotePre(m: Mem, m1: Mem, treemap: nat, trees: seq<Tree>, b: map<int, int>, x: int, p: Place)
    requires TreesOk(m, treemap, trees, b) && Placed(m, treemap, trees, b, x, p)
    requires |p.f.ring| > 1 && p.f.ring[0] == x && m1 == UnlinkStores(m, Succ(p.f.ring, 0), Pred(p.f.ring, 0))
    ensures var e := Pred(p.f.ring, 0);
            && RelinkPre(m1, x, p.par, e) && e != 0 && e in Members(p.f)
            && Adr(Without(p.f, x)) == e && Without(p.f, x).Node?
    ensures RelinkSlot(m1, x, p.par) == p.slot && Rd(m1, x + INDEX) == p.i
    ensures Rd(m1, x + LEFT) == Adr(p.f.l) && Rd(m1, x + RIGHT) == Adr(p.f.r)
    ensures Adr(p.f.l) == 0 || Adr(p.f.l) in Members(p.f)
    ensures Adr(p.f.r) == 0 || Adr(p.f.r) in Members(p.f)
    ensures forall y :: y in b && y !in Members(p.f) ==> SameNode(m, m1, y)
    ensures forall y :: y in b ==> SameLabel(m, m1, y)
    ensures forall j: nat :: j < TREEBINS ==> Rd(m1, TreebinAt(j)) == Rd(m, TreebinAt(j))
    ensures OnlyLinks(m, m1, b.Keys)
  {
    hide Rd, Linked, Members, Distinct, TreeIndex, Find, FindPar, FindSlot, Bit, TrieOk, BinOk, SlotFrom, Spaced,
         UnlinkStores, OnlyLinks, RelinkPre, RelinkSlot, SameRing, TakeoverReady;
    RingMembers(m, treemap, trees, b, x, p, 0);
    RingFrameAll(m, m1, treemap, trees, b, x, p, 0);
    PromoteReady(m, treemap, trees, b, x, p);
    MembersBinned(m, treemap, trees, b, x, p);
    SameImplies(m, m1, b, p);
    Parts(p.f);
    if p.f.l.Node? { Parts(p.f.l); }
    if p.f.r.Node? { Parts(p.f.r); }
    LinkedNode(m, p.f, p.par, p.i);
    NodeHead(m, p.f.ring, p.f.sz, p.par, Adr(p.f.l), Adr(p.f.r), p.i);
    ReadyToRelink(m, m1, treemap, trees, b, x, p, Pred(p.f.ring, 0));
  }

  /** The part of unlink_large_chunk for the last chunk of its size. */
  method TakeByLeaf(m0: Mem, treemap0: nat, x: int, xp: int, ghost trees: seq<Tree>, ghost b: map<int, int>,
                    ghost p: Place)
    returns (m: Mem, treemap: nat)
    requires |trees| == TREEBINS && x in b && 0 <= b[x] && TreeIndex(b[x]) < TREEBINS && trees[TreeIndex(b[x])].Node?
    requires p.f.Node?
    requires TreesOk(m0, treemap0, trees, b) && Placed(m0, treemap0, trees, b, x, p)
    requires p.f.ring == [x] && xp == p.par
    ensures TreesOk(m, treemap, Removed(trees, x, b[x]), b - {x})
    ensures OnlyLinks(m0, m, b.Keys)
  {
    hide Rd, TreesOk, OnlyLinks, Placed, Removed, TreeIndex, Members, Without, Clear, Relinked, RelinkPre, RelinkSlot,
         Linked, Distinct, SameLabel, SameNode, LoneSlot, LoneLeft, LoneRight, LastLeaf;
    m, treemap := m0, treemap0;
    PlacedNode(m, treemap, trees, b, x, p);
    var r, rp := LastBelow(m, x, p.f, p.par, p.i);
    var slot;
    if r != 0 {
      m := m[rp := 0];
      ghost var d, m1 := p.f.r.Node?, m;
      LonePre(m0, m1, treemap0, trees, b, x, p, d);
      m, treemap, slot := Relink(m, treemap, x, xp, r);
      CaseLone(m0, m1, m, treemap0, trees, b, x, p, d);
      TakenOver(m0, m1, m, treemap0, treemap, trees, b, x, p, r, Adr(LoneLeft(p.f, d)), Adr(LoneRight(p.f, d)));
    } else {
      LeafPre(m0, treemap0, trees, b, x, p);
      m, treemap, slot := Relink(m, treemap, x, xp, r);
      TakenOver(m0, m0, m, treemap0, treemap, trees, b, x, p, 0, 0, 0);
    }
  }

  lemma PlacedNode(m: Mem, treemap: nat, trees: seq<Tree>, b: map<int, int>, x: int, p: Place)
    requires TreesOk(m, treemap, trees, b) && Placed(m, treemap, trees, b, x, p)
    ensures Linked(m, p.f, p.par, p.i) && Distinct(p.f) && forall y :: y in Members(p.f) ==> y != 0
  {
    hide Rd, Linked, Members, Distinct, TreeIndex, Find, FindPar, FindSlot, Bit, TrieOk, BinOk;
  }

  lemma LonePre(m: Mem, m1: Mem, treemap: nat, trees: seq<Tree>, b: map<int, int>, x: int, p: Place, d: bool)
    requires TreesOk(m, treemap, trees, b) && Placed(m, treemap, trees, b, x, p) && Lone(p.f, x, d)
    requires m1 == m[LoneSlot(p.f, x, d) := 0]
    ensures var e := Adr(LastLeaf(Child(p.f, d)));
            && RelinkPre(m1, x, p.par, e) && e != 0 && e in Members(p.f)
            && Adr(Without(p.f, x)) == e && Without(p.f, x).Node?
    ensures RelinkSlot(m1, x, p.par) == p.slot && Rd(m1, x + INDEX) == p.i
    ensures Rd(m1, x + LEFT) == Adr(LoneLeft(p.f, d)) && Rd(m1, x + RIGHT) == Adr(LoneRight(p.f, d))
    ensures Adr(LoneLeft(p.f, d)) == 0 || Adr(LoneLeft(p.f, d)) in Members(p.f)
    ensures Adr(LoneRight(p.f, d)) == 0 || Adr(LoneRight(p.f, d)) in Members(p.f)
    ensures forall y :: y in b && y !in Members(p.f) ==> SameNode(m, m1, y)
    ensures forall y :: y in b ==> SameLabel(m, m1, y)
    ensures forall j: nat :: j < TREEBINS ==> Rd(m1, TreebinAt(j)) == Rd(m, TreebinAt(j))
    ensures OnlyLinks(m, m1, b.Keys)
  {
    hide Rd, Linked, Members, Distinct, TreeIndex, Find, FindPar, FindSlot, Bit, TrieOk, BinOk, SlotFrom, Spaced,
         OnlyLinks, RelinkPre, RelinkSlot, SameRing, TakeoverReady, LoneSlot, CutLast, LastLeaf, NodeOk, LastPar;
    LoneCut(m, m1, treemap, trees, b, x, p, d);
    LoneMembers(p.f, x, d);
    MembersBinned(m, treemap, trees, b, x, p);
    var l, r, e := LoneLeft(p.f, d), LoneRight(p.f, d), LastLeaf(Child(p.f, d));
    if l.Node? { Parts(l); }
    if r.Node? { Parts(r); }
    assert e.ring[0] in Elems(e.ring);
    assert x in p.f.ring;
    BinnedFar(m, treemap, trees, b);
    ReadyToRelink(m, m1, treemap, trees, b, x, p, Adr(e));
  }

  lemma LeafPre(m: Mem, treemap: nat, trees: seq<Tree>, b: map<int, int>, x: int, p: Place)
    requires TreesOk(m, treemap, trees, b) && Placed(m, treemap, trees, b, x, p)
    requires p.f.ring == [x] && p.f.l.Nil? && p.f.r.Nil?
    ensures RelinkPre(m, x, p.par, 0) && RelinkSlot(m, x, p.par) == p.slot && Rd(m, x + INDEX) == p.i
    ensures Rd(m, x + LEFT) == 0 && Rd(m, x + RIGHT) == 0 && Without(p.f, x).Nil?
    ensures forall y :: y in b ==> SameNode(m, m, y) && SameLabel(m, m, y)
    ensures OnlyLinks(m, m, b.Keys)
    ensures forall n :: Linked(n, Nil, p.par, p.i)
  {
    hide Rd, Members, Distinct, TreeIndex, Find, FindPar, FindSlot, Bit, TrieOk, BinOk, SlotFrom, Spaced, RelinkPre,
         RelinkSlot;
    LinkedNode(m, p.f, p.par, p.i);
    NodeHead(m, p.f.ring, p.f.sz, p.par, 0, 0, p.i);
    ReadyToRelink(m, m, treemap, trees, b, x, p, 0);
  }
}
