/** The local pointer surgeries of insert_large_chunk and unlink_large_chunk. */
module TrieSurgery {
  import opened Words
  import opened Chunk
  import opened Trie
  import opened TrieEdit
  import opened TrieLinks
  import opened Rings

  /** A chunk joins the ring of its size. */
  lemma AddChained(m: Mem, n: Mem, f: Tree, par: int, i: int, x: int, d: bool)
    requires f.Node? && Linked(m, f, par, i) && Distinct(f)
    requires InsertedAfterHead(m, n, f.ring, x)
    requires Labeled(n, x, f.sz, i) && Chained(n, x)
    requires forall y :: y in Members(f) ==> SameTree(m, n, y)
    requires forall y :: y in Members(f.l) + Members(f.r) ==> SameNode(m, n, y)
    ensures Linked(n, Added(f, x, f.sz, d), par, i)
  {
    hide Rd, Members, Distinct;
    Parts(f);
    AddChainedNode(m, n, f.ring, f.sz, par, Adr(f.l), Adr(f.r), i, x);
    LinkedFrame(m, n, f.l, Adr(f), i);
    LinkedFrame(m, n, f.r, Adr(f), i);
  }

  lemma AddChainedNode(m: Mem, n: Mem, ring: seq<int>, sz: int, par: int, left: int, right: int, i: int, x: int)
    requires NodeOk(m, ring, sz, par, left, right, i) && NoDup(ring)
    requires InsertedAfterHead(m, n, ring, x)
    requires Labeled(n, x, sz, i) && Chained(n, x)
    requires forall k :: 0 <= k < |ring| ==> SameTree(m, n, ring[k])
    ensures NodeOk(n, [ring[0], x] + ring[1..], sz, par, left, right, i)
  {
    hide Rd, InsertedAfterHead;
    var q := [ring[0], x] + ring[1..];
    RingInsert(m, n, ring, x);
    forall k | 0 <= k < |q| ensures Labeled(n, q[k], sz, i) && (k > 0 ==> Chained(n, q[k])) {
      if k == 0 {
        assert SameTree(m, n, ring[0]);
      } else if k >= 2 {
        assert q[k] == ring[k - 1];
        assert SameTree(m, n, ring[k - 1]);
      }
    }
  }

  /** A chunk becomes the missing child. */
  lemma AddLeaf(m: Mem, n: Mem, f: Tree, par: int, i: int, x: int, s: int, d: bool)
    requires f.Node? && Linked(m, f, par, i) && Distinct(f) && Spaced(Members(f), 64)
    requires Child(f, d).Nil? && f.sz != s
    requires Linked(n, Single(x, s), Adr(f), i)
    requires Rd(n, Adr(f) + (if d then RIGHT else LEFT)) == x
    requires forall y :: y in Members(f) ==> SameBut(m, n, y, Adr(f) + (if d then RIGHT else LEFT))
    ensures Linked(n, Added(f, x, s, d), par, i)
  {
    hide Rd, Members, Distinct, SameBut, NodeOk;
    Parts(f);
    var at := Adr(f) + (if d then RIGHT else LEFT);
    GraftNode(m, n, f, par, i, d, Single(x, s), at);
    ButElsewhere(m, n, Members(Child(f, !d)), at);
    LinkedFrame(m, n, Child(f, !d), Adr(f), i);
  }

  /** A ring member that does not stand in the tree leaves. */
  lemma DropChained(m: Mem, n: Mem, f: Tree, par: int, i: int, k: int)
    requires f.Node? && Linked(m, f, par, i) && Distinct(f) && 0 < k < |f.ring|
    requires UnlinkedAt(m, n, f.ring, k)
    requires forall y :: y in Members(f) ==> SameTree(m, n, y)
    requires forall y :: y in Members(f.l) + Members(f.r) ==> SameNode(m, n, y)
    ensures Linked(n, Without(f, f.ring[k]), par, i)
  {
    hide Rd, Members, Distinct, NodeOk;
    Parts(f);
    DropChainedNode(m, n, f.ring, f.sz, par, Adr(f.l), Adr(f.r), i, k);
    LinkedFrame(m, n, f.l, Adr(f), i);
    LinkedFrame(m, n, f.r, Adr(f), i);
  }

  lemma DropChainedNode(m: Mem, n: Mem, ring: seq<int>, sz: int, par: int, left: int, right: int, i: int, k: int)
    requires NodeOk(m, ring, sz, par, left, right, i) && NoDup(ring) && 0 < k < |ring|
    requires UnlinkedAt(m, n, ring, k)
    requires forall j :: 0 <= j < |ring| ==> SameTree(m, n, ring[j])
    ensures NodeOk(n, RingWithout(ring, ring[k]), sz, par, left, right, i)
    ensures RingWithout(ring, ring[k])[0] == ring[0]
  {
    hide Rd, UnlinkedAt;
    RingWithoutLinked(m, n, ring, k);
    DropAt(ring, k);
    var q := ring[..k] + ring[k + 1..];
    forall j | 0 <= j < |q| ensures Labeled(n, q[j], sz, i) && (j > 0 ==> Chained(n, q[j])) {
      var g := if j < k then j else j + 1;
      assert q[j] == ring[g] && SameTree(m, n, ring[g]);
    }
    assert SameTree(m, n, ring[0]);
  }

  /** The chunk in the tree leaves and its predecessor in the ring takes its place. */
  lemma PromoteChained(m: Mem, n: Mem, f: Tree, par: int, par': int, i: int)
    requires f.Node? && Linked(m, f, par, i) && Distinct(f) && |f.ring| > 1
    requires UnlinkedAt(m, n, f.ring, 0)
    requires forall k :: 1 <= k < |f.ring| ==> SameLabel(m, n, f.ring[k])
    requires forall k :: 1 <= k < |f.ring| - 1 ==> SameTree(m, n, f.ring[k])
    requires var e := f.ring[|f.ring| - 1];
             && Rd(n, e + PARENT) == par' && Rd(n, e + LEFT) == Adr(f.l) && Rd(n, e + RIGHT) == Adr(f.r)
             && Linked(n, f.l, e, i) && Linked(n, f.r, e, i)
    ensures Linked(n, Without(f, f.ring[0]), par', i)
  {
    hide Rd, UnlinkedAt, Linked;
    assert NodeOk(m, f.ring, f.sz, par, Adr(f.l), Adr(f.r), i) by { LinkedNode(m, f, par, i); }
    Parts(f);
    RingWithoutLinked(m, n, f.ring, 0);
    var e := f.ring[|f.ring| - 1];
    var q := [e] + f.ring[1..|f.ring| - 1];
    assert q == RingWithout(f.ring, f.ring[0]);
    forall k | 0 <= k < |q| ensures Labeled(n, q[k], f.sz, i) && (k > 0 ==> Chained(n, q[k])) {
      var g := if k == 0 then |f.ring| - 1 else k;
      assert q[k] == f.ring[g] && SameLabel(m, n, f.ring[g]);
      if k > 0 { assert SameTree(m, n, f.ring[k]); }
    }
    LinkedIntro(n, Without(f, f.ring[0]), par', i);
  }

  lemma LinkedNode(m: Mem, t: Tree, par: int, i: int)
    requires t.Node? && Linked(m, t, par, i)
    ensures NodeOk(m, t.ring, t.sz, par, Adr(t.l), Adr(t.r), i)
    ensures Linked(m, t.l, Adr(t), i) && Linked(m, t.r, Adr(t), i)
  {
  }

  lemma LinkedIntro(m: Mem, t: Tree, par: int, i: int)
    requires t.Node? && NodeOk(m, t.ring, t.sz, par, Adr(t.l), Adr(t.r), i)
    requires Linked(m, t.l, Adr(t), i) && Linked(m, t.r, Adr(t), i)
    ensures Linked(m, t, par, i)
  {
  }

  // ---- the last leaf below a node ----

  ghost function LastPar(t: Tree, par: int): int
    requires t.Node?
  {
    if t.r.Node? then LastPar(t.r, Adr(t)) else if t.l.Node? then LastPar(t.l, Adr(t)) else par
  }

  /** The word that points to the last leaf. */
  ghost function LastSlot(t: Tree, slot: int): int
    requires t.Node?
  {
    if t.r.Node? then LastSlot(t.r, Adr(t) + RIGHT)
    else if t.l.Node? then LastSlot(t.l, Adr(t) + LEFT)
    else slot
  }

  lemma {:induction false} LastLeafNode(m: Mem, t: Tree, par: int, i: int)
    requires t.Node? && Linked(m, t, par, i) && Distinct(t)
    ensures var e := LastLeaf(t); NodeOk(m, e.ring, e.sz, LastPar(t, par), 0, 0, i)
    ensures Distinct(LastLeaf(t)) && Members(LastLeaf(t)) <= Members(t)
  {
    hide NodeOk;
    if t.r.Node? {
      LastLeafNode(m, t.r, Adr(t), i);
    } else if t.l.Node? {
      LastLeafNode(m, t.l, Adr(t), i);
    }
  }

  lemma {:induction false} LastSlotIn(t: Tree, slot: int)
    requires t.Node? && Distinct(t)
    ensures if t.r.Nil? && t.l.Nil? then LastSlot(t, slot) == slot
            else exists y :: y in Members(t) && y !in LastLeaf(t).ring && LastSlot(t, slot) in {y + LEFT, y + RIGHT}
  {
    if t.r.Node? || t.l.Node? {
      var c, o := if t.r.Node? then t.r else t.l, if t.r.Node? then RIGHT else LEFT;
      Parts(t);
      CutLastMembers(c);
      LastSlotIn(c, Adr(t) + o);
      if c.r.Nil? && c.l.Nil? {
        assert Adr(t) in Members(t) && Adr(t) !in LastLeaf(t).ring;
      }
    }
  }

  /** Clearing the word that points to the last leaf cuts it off. */
  lemma {:induction false} CutLinked(m: Mem, n: Mem, t: Tree, par: int, i: int, slot: int)
    requires t.Node? && Linked(m, t, par, i) && Distinct(t) && Spaced(Members(t), 64) && NotField(slot, Members(t))
    requires Rd(n, LastSlot(t, slot)) == 0
    requires forall x :: x in Members(t) ==> SameBut(m, n, x, LastSlot(t, slot))
    ensures Linked(n, CutLast(t), par, i)
    ensures CutLast(t).Node? ==> Adr(CutLast(t)) == Adr(t)
    decreases t
  {
    hide Rd, SameBut, NodeOk, Members, Distinct;
    if t.r.Node? || t.l.Node? {
      var d := t.r.Node?;
      var c, slot' := Child(t, d), Adr(t) + (if d then RIGHT else LEFT);
      Parts(t);
      LastSlotIn(c, slot');
      CutLinked(m, n, c, Adr(t), i, slot');
      ButElsewhere(m, n, Members(Child(t, !d)), LastSlot(c, slot'));
      LinkedFrame(m, n, Child(t, !d), Adr(t), i);
      GraftNode(m, n, t, par, i, d, CutLast(c), LastSlot(c, slot'));
    }
  }
}
