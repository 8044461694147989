/** Tries laid out in the word store, and what the pointer surgeries of insert and unlink preserve. */
module TrieLinks {
  import opened Words
  import opened Chunk
  import opened Trie

  /** The subtree t hangs below par with all its links, sizes and bin indices in place. */
  ghost predicate Linked(m: Mem, t: Tree, par: int, i: int) {
    t.Node? ==>
      && NodeOk(m, t.ring, t.sz, par, Adr(t.l), Adr(t.r), i)
      && Linked(m, t.l, Adr(t), i) && Linked(m, t.r, Adr(t), i)
  }

  /** One size's ring; its first chunk stands in the tree, the others have null tree links. */
  ghost predicate NodeOk(m: Mem, ring: seq<int>, sz: int, par: int, left: int, right: int, i: int) {
    && ring != [] && Ring(m, ring)
    && (forall k :: 0 <= k < |ring| ==> Labeled(m, ring[k], sz, i))
    && Rd(m, ring[0] + PARENT) == par
    && Rd(m, ring[0] + LEFT) == left
    && Rd(m, ring[0] + RIGHT) == right
    && (forall k :: 1 <= k < |ring| ==> Chained(m, ring[k]))
  }

  ghost predicate Labeled(m: Mem, x: int, sz: int, i: int) {
    ChunkSize(Rd(m, x + HEAD)) == sz && Rd(m, x + INDEX) == i
  }

  /** A ring member that does not stand in the tree. */
  ghost predicate Chained(m: Mem, x: int) {
    Rd(m, x + PARENT) == 0 && Rd(m, x + LEFT) == 0 && Rd(m, x + RIGHT) == 0
  }

  // ---- frames ----

  ghost predicate SameRing(m: Mem, n: Mem, x: int) {
    Rd(n, x + FD) == Rd(m, x + FD) && Rd(n, x + BK) == Rd(m, x + BK)
  }

  ghost predicate SameLabel(m: Mem, n: Mem, x: int) {
    Rd(n, x + HEAD) == Rd(m, x + HEAD) && Rd(n, x + INDEX) == Rd(m, x + INDEX)
  }

  /** All but the ring links. */
  ghost predicate SameTree(m: Mem, n: Mem, x: int) {
    && SameLabel(m, n, x)
    && Rd(n, x + PARENT) == Rd(m, x + PARENT)
    && Rd(n, x + LEFT) == Rd(m, x + LEFT) && Rd(n, x + RIGHT) == Rd(m, x + RIGHT)
  }

  ghost predicate SameNode(m: Mem, n: Mem, x: int) {
    SameRing(m, n, x) && SameTree(m, n, x)
  }

  ghost predicate SameButParent(m: Mem, n: Mem, x: int) {
    && SameRing(m, n, x) && SameLabel(m, n, x)
    && Rd(n, x + LEFT) == Rd(m, x + LEFT) && Rd(n, x + RIGHT) == Rd(m, x + RIGHT)
  }

  /** Same but for the word at address slot, if that is one of the child fields. */
  ghost predicate SameBut(m: Mem, n: Mem, x: int, slot: int) {
    && SameRing(m, n, x) && SameLabel(m, n, x)
    && Rd(n, x + PARENT) == Rd(m, x + PARENT)
    && (x + LEFT != slot ==> Rd(n, x + LEFT) == Rd(m, x + LEFT))
    && (x + RIGHT != slot ==> Rd(n, x + RIGHT) == Rd(m, x + RIGHT))
  }

  lemma RingFrame(m: Mem, n: Mem, s: seq<int>)
    requires Ring(m, s) && forall k :: 0 <= k < |s| ==> SameRing(m, n, s[k])
    ensures Ring(n, s)
  {
    hide Rd;
    forall k | 0 <= k < |s| ensures LinkAt(n, s, k) {
      assert LinkAt(m, s, k);
      var j := if k + 1 < |s| then k + 1 else 0;
      assert Succ(s, k) == s[j] && SameRing(m, n, s[j]);
    }
  }

  lemma NodeFrame(m: Mem, n: Mem, ring: seq<int>, sz: int, par: int, left: int, right: int, i: int)
    requires NodeOk(m, ring, sz, par, left, right, i)
    requires forall k :: 0 <= k < |ring| ==> SameNode(m, n, ring[k])
    ensures NodeOk(n, ring, sz, par, left, right, i)
  {
    hide Rd;
    RingFrame(m, n, ring);
  }

  lemma {:induction false} LinkedFrame(m: Mem, n: Mem, t: Tree, par: int, i: int)
    requires Linked(m, t, par, i)
    requires forall x :: x in Members(t) ==> SameNode(m, n, x)
    ensures Linked(n, t, par, i)
    decreases t
  {
    hide Rd, SameNode, NodeOk;
    if t.Node? {
      NodeFrame(m, n, t.ring, t.sz, par, Adr(t.l), Adr(t.r), i);
      LinkedFrame(m, n, t.l, Adr(t), i);
      LinkedFrame(m, n, t.r, Adr(t), i);
    }
  }

  lemma NodeHead(m: Mem, ring: seq<int>, sz: int, par: int, left: int, right: int, i: int)
    requires NodeOk(m, ring, sz, par, left, right, i)
    ensures ring != []
    ensures Rd(m, ring[0] + PARENT) == par && Rd(m, ring[0] + LEFT) == left && Rd(m, ring[0] + RIGHT) == right
  {
  }

  /** A node whose first chunk gets a new parent or new children. */
  lemma NodeRelink(m: Mem, n: Mem, ring: seq<int>, sz: int, par: int, left: int, right: int, i: int, par': int,
                   left': int, right': int)
    requires NodeOk(m, ring, sz, par, left, right, i)
    requires forall k :: 1 <= k < |ring| ==> SameNode(m, n, ring[k])
    requires SameRing(m, n, ring[0]) && SameLabel(m, n, ring[0])
    requires Rd(n, ring[0] + PARENT) == par' && Rd(n, ring[0] + LEFT) == left' && Rd(n, ring[0] + RIGHT) == right'
    ensures NodeOk(n, ring, sz, par', left', right', i)
  {
    hide Rd;
    RingFrame(m, n, ring);
  }

  /** Who is who in a node: its ring members and the members of its children. */
  lemma Parts(t: Tree)
    requires t.Node? && Distinct(t)
    ensures t.ring != [] && NoDup(t.ring) && Adr(t) == t.ring[0] && Adr(t) in Members(t)
    ensures Distinct(t.l) && Distinct(t.r)
    ensures forall k :: 1 <= k < |t.ring| ==> t.ring[k] in Members(t) && t.ring[k] != Adr(t)
    ensures forall x :: x in Members(t.l) ==> x in Members(t) && x != Adr(t) && x !in t.ring && x !in Members(t.r)
    ensures forall x :: x in Members(t.r) ==> x in Members(t) && x != Adr(t) && x !in t.ring
  {
    assert t.ring[0] in Elems(t.ring);
    assert forall x :: x in t.ring <==> x in Elems(t.ring);
  }

  /** A whole subtree is moved below another parent by rewriting one word. */
  lemma Reparent(m: Mem, n: Mem, t: Tree, par: int, par': int, i: int)
    requires Linked(m, t, par, i) && Distinct(t)
    requires forall x :: x in Members(t) && x != Adr(t) ==> SameNode(m, n, x)
    requires t.Node? ==> SameButParent(m, n, Adr(t)) && Rd(n, Adr(t) + PARENT) == par'
    ensures Linked(n, t, par', i)
  {
    hide Rd, SameNode, NodeOk, Distinct, Members;
    if t.Node? {
      Parts(t);
      NodeHead(m, t.ring, t.sz, par, Adr(t.l), Adr(t.r), i);
      NodeRelink(m, n, t.ring, t.sz, par, Adr(t.l), Adr(t.r), i, par', Adr(t.l), Adr(t.r));
      LinkedFrame(m, n, t.l, Adr(t), i);
      LinkedFrame(m, n, t.r, Adr(t), i);
    }
  }

  // ---- the path from the root to where a descent stops ----

  /** Parent of the node found, and the word that points to it; for the root both are the bin slot. */
  ghost function FindPar(t: Tree, s: int, lo: int, w: nat, par: int): int
    requires t.Node?
    decreases t
  {
    if Stops(t, s, lo, w) then par
    else FindPar(Child(t, Right(s, lo, w)), s, Half(s, lo, w), w - 1, Adr(t))
  }

  ghost function FindSlot(t: Tree, s: int, lo: int, w: nat, slot: int): int
    requires t.Node?
    decreases t
  {
    if Stops(t, s, lo, w) then slot
    else FindSlot(Child(t, Right(s, lo, w)), s, Half(s, lo, w), w - 1,
                  Adr(t) + (if Right(s, lo, w) then RIGHT else LEFT))
  }

  /** The word that points to the node found is the given slot, or a child field above the node. */
  lemma {:induction false} FindSlotIn(t: Tree, s: int, lo: int, w: nat, slot: int)
    requires t.Node? && Distinct(t)
    ensures (Stops(t, s, lo, w) && FindSlot(t, s, lo, w, slot) == slot) ||
            exists y :: y in Members(t) && FindSlot(t, s, lo, w, slot) in {y + LEFT, y + RIGHT}
    decreases t
  {
    if Stops(t, s, lo, w) {
    } else {
      Parts(t);
      var slot' := Adr(t) + (if Right(s, lo, w) then RIGHT else LEFT);
      FindSlotIn(Child(t, Right(s, lo, w)), s, Half(s, lo, w), w - 1, slot');
    }
  }

  ghost predicate NotField(slot: int, s: set<int>) {
    forall x :: x in s ==> x + LEFT != slot && x + RIGHT != slot
  }

  lemma ButElsewhere(m: Mem, n: Mem, s: set<int>, slot: int)
    requires NotField(slot, s) && forall x :: x in s ==> SameBut(m, n, x, slot)
    ensures forall x :: x in s ==> SameNode(m, n, x)
  {
    hide Rd;
  }

  /** The pointed-to word of a descent below child c is no field of the node itself or of its other child. */
  lemma SlotElsewhere(t: Tree, d: bool, s: int, lo: int, w: nat)
    requires t.Node? && Distinct(t) && Spaced(Members(t), 64) && Child(t, d).Node?
    ensures var slot := FindSlot(Child(t, d), s, lo, w, Adr(t) + (if d then RIGHT else LEFT));
            && NotField(slot, Members(Child(t, !d)))
            && (forall k :: 1 <= k < |t.ring| ==> t.ring[k] + LEFT != slot && t.ring[k] + RIGHT != slot)
            && slot != Adr(t) + (if d then LEFT else RIGHT)
            && (slot == Adr(t) + (if d then RIGHT else LEFT) ==> Stops(Child(t, d), s, lo, w))
  {
    hide Distinct, Members;
    Parts(t);
    FindSlotIn(Child(t, d), s, lo, w, Adr(t) + (if d then RIGHT else LEFT));
  }

  /** Rewriting only the found subtree and the word that points to it grafts it in the store. */
  lemma {:induction false} GraftLinked(m: Mem, n: Mem, t: Tree, par: int, i: int, s: int, lo: int, w: nat, slot: int,
                                       u: Tree)
    requires t.Node? && Linked(m, t, par, i) && Distinct(t)
    requires Linked(n, u, FindPar(t, s, lo, w, par), i)
    requires Rd(n, FindSlot(t, s, lo, w, slot)) == Adr(u)
    requires forall x :: x in Members(t) && x !in Members(Find(t, s, lo, w)) ==>
               SameBut(m, n, x, FindSlot(t, s, lo, w, slot))
    requires Spaced(Members(t), 64) && NotField(slot, Members(t))
    ensures Linked(n, Graft(t, s, lo, w, u), par, i)
    decreases t
  {
    hide Rd, SameNode, NodeOk, Distinct, Members, SameBut;
    if Stops(t, s, lo, w) {
    } else {
      var d := Right(s, lo, w);
      var c := Child(t, d);
      var lo', w' := Half(s, lo, w), w - 1;
      var slot' := Adr(t) + (if d then RIGHT else LEFT);
      var at := FindSlot(c, s, lo', w', slot');
      FindSub(c, s, lo', w');
      Parts(t);
      SlotElsewhere(t, d, s, lo', w');
      GraftLinked(m, n, c, Adr(t), i, s, lo', w', slot', u);
      ButElsewhere(m, n, Members(Child(t, !d)), at);
      LinkedFrame(m, n, Child(t, !d), Adr(t), i);
      GraftNode(m, n, t, par, i, d, Graft(c, s, lo', w', u), at);
    }
  }

  /** The node above a grafted child. */
  lemma GraftNode(m: Mem, n: Mem, t: Tree, par: int, i: int, d: bool, c: Tree, at: int)
    requires t.Node? && NodeOk(m, t.ring, t.sz, par, Adr(t.l), Adr(t.r), i)
    requires forall k :: 0 <= k < |t.ring| ==> SameBut(m, n, t.ring[k], at)
    requires forall k :: 1 <= k < |t.ring| ==> t.ring[k] + LEFT != at && t.ring[k] + RIGHT != at
    requires at != Adr(t) + (if d then LEFT else RIGHT)
    requires if at == Adr(t) + (if d then RIGHT else LEFT) then Rd(n, at) == Adr(c) else Adr(c) == Adr(Child(t, d))
    ensures var t' := WithChild(t, d, c); NodeOk(n, t'.ring, t'.sz, par, Adr(t'.l), Adr(t'.r), i)
  {
    hide Rd;
    var t' := WithChild(t, d, c);
    NodeHead(m, t.ring, t.sz, par, Adr(t.l), Adr(t.r), i);
    assert SameBut(m, n, t.ring[0], at);
    NodeRelink(m, n, t.ring, t.sz, par, Adr(t.l), Adr(t.r), i, par, Adr(t'.l), Adr(t'.r));
  }
}
