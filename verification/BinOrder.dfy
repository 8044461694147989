/** The order in which chunks of one size are used again: what the trie is for, seen as a queue for every size. */
module BinOrder {
  import opened Words
  import opened Trie
  import opened TrieEdit

  function Backwards(s: seq<int>): seq<int> { if s == [] then [] else Backwards(s[1..]) + [s[0]] }

  /** A ring, oldest chunk first: the one in the tree, then the others against their order in the ring. */
  function Queue(ring: seq<int>): seq<int> { if ring == [] then [] else [ring[0]] + Backwards(ring[1..]) }

  /** The chunks of size s in the tree, oldest first. */
  ghost function QueueOf(t: Tree, s: int): seq<int> {
    if t.Nil? then [] else if t.sz == s then Queue(t.ring) else QueueOf(t.l, s) + QueueOf(t.r, s)
  }

  lemma {:induction false} NoQueue(t: Tree, s: int)
    requires s !in Sizes(t)
    ensures QueueOf(t, s) == []
    decreases t
  {
    if t.Node? {
      NoQueue(t.l, s);
      NoQueue(t.r, s);
    }
  }

  lemma {:induction false} BackwardsConcat(s: seq<int>, t: seq<int>)
    ensures Backwards(s + t) == Backwards(t) + Backwards(s)
  {
    if s == [] {
      assert s + t == t;
    } else {
      assert (s + t)[1..] == s[1..] + t;
      BackwardsConcat(s[1..], t);
    }
  }

  lemma {:induction false} BackwardsIn(s: seq<int>)
    ensures |Backwards(s)| == |s| && forall x :: x in Backwards(s) <==> x in s
  {
    if s != [] {
      BackwardsIn(s[1..]);
      assert s == [s[0]] + s[1..];
    }
  }

  /** A new chunk goes to the end of its queue. */
  lemma RingGains(ring: seq<int>, x: int)
    requires ring != []
    ensures Queue([ring[0], x] + ring[1..]) == Queue(ring) + [x]
  {
    var r := [ring[0], x] + ring[1..];
    assert r[1..] == [x] + ring[1..];
    assert r[1..][1..] == ring[1..];
  }

  lemma {:induction false} DropConcat(s: seq<int>, t: seq<int>, x: int)
    ensures Drop(s + t, x) == if x in s then Drop(s, x) + t else s + Drop(t, x)
  {
    if s == [] {
      assert s + t == t;
    } else {
      assert (s + t)[1..] == s[1..] + t && s == [s[0]] + s[1..];
      if s[0] != x { DropConcat(s[1..], t, x); }
    }
  }

  lemma {:induction false} DropBackwards(s: seq<int>, x: int)
    requires NoDup(s)
    ensures Drop(Backwards(s), x) == Backwards(Drop(s, x))
  {
    if s != [] {
      var t := s[1..];
      DropConcat(Backwards(t), [s[0]], x);
      BackwardsIn(t);
      DropBackwards(t, x);
      if s[0] == x {
        assert x !in t;
        assert Drop([s[0]], x) == [];
      } else {
        assert Drop([s[0]], x) == [s[0]];
        assert Drop(s, x) == [s[0]] + Drop(t, x);
        assert ([s[0]] + Drop(t, x))[1..] == Drop(t, x);
      }
    }
  }

  /** A chunk that leaves its ring leaves its queue, and the others keep their order. */
  lemma RingLoses(ring: seq<int>, x: int)
    requires |ring| > 1 && NoDup(ring) && x in ring
    ensures Queue(RingWithout(ring, x)) == Drop(Queue(ring), x)
  {
    var n, rest := |ring| - 1, ring[1..];
    if x == ring[0] {
      var front := ring[1..n];
      assert rest == front + [ring[n]];
      BackwardsConcat(front, [ring[n]]);
      assert Backwards([ring[n]]) == [ring[n]];
      assert ([ring[n]] + front)[1..] == front;
      assert Queue(ring)[1..] == Backwards(rest);
    } else {
      assert Drop(ring, x) == [ring[0]] + Drop(rest, x);
      assert ([ring[0]] + Drop(rest, x))[1..] == Drop(rest, x);
      DropBackwards(rest, x);
      assert Queue(ring)[1..] == Backwards(rest);
    }
  }

  // ---- the whole tree ----

  /** The descent for s finds the queue of s. */
  lemma {:induction false} FindQueue(t: Tree, s: int, lo: int, w: nat)
    requires t.Node? && TrieOk(t, lo, w) && lo <= s < lo + Pow2(w)
    ensures QueueOf(t, s) == QueueOf(Find(t, s, lo, w), s)
    decreases t
  {
    if t.sz == s || w == 0 {
    } else {
      var right := Right(s, lo, w);
      var c, o := Child(t, right), Child(t, !right);
      SizesIn(o, if right then lo else lo + Pow2(w - 1), w - 1);
      NoQueue(o, s);
      if c.Node? { FindQueue(c, s, Half(s, lo, w), w - 1); }
    }
  }

  /** A child changes: only the queues of its sizes do. */
  lemma ChildQueue(t: Tree, right: bool, c: Tree, lo: int, w: nat, z: int)
    requires t.Node? && TrieOk(t, lo, w) && w > 0
    ensures z == t.sz ==> QueueOf(WithChild(t, right, c), z) == QueueOf(t, z)
    ensures z != t.sz && QueueOf(c, z) == QueueOf(Child(t, right), z) ==>
              QueueOf(WithChild(t, right, c), z) == QueueOf(t, z)
    ensures z != t.sz && z !in Sizes(Child(t, !right)) ==>
              QueueOf(WithChild(t, right, c), z) == QueueOf(c, z) && QueueOf(t, z) == QueueOf(Child(t, right), z)
  {
    hide TrieOk, Queue;
    if z !in Sizes(Child(t, !right)) { NoQueue(Child(t, !right), z); }
  }

  /** A graft changes the queues of the sizes in the subtree, and of s, and no others. */
  lemma {:induction false} GraftQueue(t: Tree, s: int, lo: int, w: nat, u: Tree, z: int)
    requires t.Node? && TrieOk(t, lo, w) && lo <= s < lo + Pow2(w)
    requires Sizes(u) <= Sizes(Find(t, s, lo, w)) + {s}
    ensures var inside := z == s || z in Sizes(Find(t, s, lo, w));
            && QueueOf(Graft(t, s, lo, w, u), z) == (if inside then QueueOf(u, z) else QueueOf(t, z))
            && (inside ==> QueueOf(t, z) == QueueOf(Find(t, s, lo, w), z))
    decreases t
  {
    hide QueueOf, Queue;
    if Stops(t, s, lo, w) {
      if z != s && z !in Sizes(t) {
        NoQueue(t, z);
        NoQueue(u, z);
      }
    } else {
      var right := Right(s, lo, w);
      var c, o := Child(t, right), Child(t, !right);
      GraftQueue(c, s, Half(s, lo, w), w - 1, u, z);
      FindSub(c, s, Half(s, lo, w), w - 1);
      SizesIn(c, Half(s, lo, w), w - 1);
      SizesIn(o, if right then lo else lo + Pow2(w - 1), w - 1);
      ChildQueue(t, right, Graft(c, s, Half(s, lo, w), w - 1, u), lo, w, z);
    }
  }

  /** Insertion: chunk x is the last to be used of its size, and no other queue changes. */
  lemma InsertQueue(t: Tree, x: int, s: int, lo: int, w: nat, z: int)
    requires TrieOk(t, lo, w) && Distinct(t) && lo <= s < lo + Pow2(w)
    ensures QueueOf(Insert(t, x, s, lo, w), z) == if z == s then QueueOf(t, z) + [x] else QueueOf(t, z)
  {
    hide TrieOk, Distinct, Find, FindLo, FindW, Graft, Pow2, Sizes, Right, Added;
    if t.Nil? {
      SingleQueue(x, s, z);
    } else {
      var f, fl, fw := Find(t, s, lo, w), FindLo(t, s, lo, w), FindW(t, s, lo, w);
      var d := fw > 0 && Right(s, fl, fw);
      FindRange(t, s, lo, w);
      FindSub(t, s, lo, w);
      AddedTrie(f, x, s, fl, fw, d);
      GraftQueue(t, s, lo, w, Added(f, x, s, d), z);
      AddedQueue(f, x, s, fl, fw, d, z);
      if z == s && f.sz != s { NoQueue(t, s); }
    }
  }

  lemma SingleQueue(x: int, s: int, z: int)
    ensures QueueOf(Single(x, s), z) == if z == s then [x] else []
  {
    assert [x][1..] == [];
  }

  lemma AddedQueue(f: Tree, x: int, s: int, lo: int, w: nat, right: bool, z: int)
    requires f.Node? && TrieOk(f, lo, w) && Distinct(f)
    requires f.sz == s || (s !in Sizes(f) && Child(f, right).Nil?)
    ensures QueueOf(Added(f, x, s, right), z) == if z == s then QueueOf(f, z) + [x] else QueueOf(f, z)
  {
    hide TrieOk;
    if f.sz == s {
      RingGains(f.ring, x);
    } else {
      SingleQueue(x, s, z);
      if z == s {
        NoQueue(f.l, s);
        NoQueue(f.r, s);
      }
    }
  }

  lemma {:induction false} CutLastQueue(t: Tree, lo: int, w: nat, z: int)
    requires t.Node? && TrieOk(t, lo, w)
    ensures QueueOf(t, z) == if z == LastLeaf(t).sz then Queue(LastLeaf(t).ring) else QueueOf(CutLast(t), z)
    ensures z == LastLeaf(t).sz ==> QueueOf(CutLast(t), z) == []
    decreases t
  {
    if t.r.Node? {
      SizesIn(t.l, lo, w - 1);
      SizesIn(t.r, lo + Pow2(w - 1), w - 1);
      CutLastTrie(t.r, lo + Pow2(w - 1), w - 1);
      CutLastQueue(t.r, lo + Pow2(w - 1), w - 1, z);
      if z == LastLeaf(t).sz { NoQueue(t.l, z); }
    } else if t.l.Node? {
      CutLastTrie(t.l, lo, w - 1);
      CutLastQueue(t.l, lo, w - 1, z);
    }
  }

  /** The last leaf below takes over the place of a node. */
  lemma LeafRightQueue(f: Tree, lo: int, w: nat, z: int)
    requires f.Node? && TrieOk(f, lo, w) && f.r.Node? && z != f.sz
    ensures QueueOf(Node(LastLeaf(f.r).ring, LastLeaf(f.r).sz, f.l, CutLast(f.r)), z) == QueueOf(f, z)
  {
    hide Queue, LastLeaf, CutLast, Sizes;
    CutLastTrie(f.r, lo + Pow2(w - 1), w - 1);
    CutLastQueue(f.r, lo + Pow2(w - 1), w - 1, z);
    SizesIn(f.l, lo, w - 1);
    SizesIn(f.r, lo + Pow2(w - 1), w - 1);
    if z == LastLeaf(f.r).sz { NoQueue(f.l, z); }
  }

  lemma LeafLeftQueue(f: Tree, lo: int, w: nat, z: int)
    requires f.Node? && TrieOk(f, lo, w) && f.l.Node? && f.r.Nil? && z != f.sz
    ensures QueueOf(Node(LastLeaf(f.l).ring, LastLeaf(f.l).sz, CutLast(f.l), Nil), z) == QueueOf(f, z)
  {
    hide Queue, LastLeaf, CutLast, Sizes;
    CutLastTrie(f.l, lo, w - 1);
    CutLastQueue(f.l, lo, w - 1, z);
  }

  lemma OneLeaves(f: Tree, x: int, lo: int, w: nat)
    requires f.Node? && TrieOk(f, lo, w) && f.ring == [x]
    ensures QueueOf(Without(f, x), f.sz) == [] == Drop(QueueOf(f, f.sz), x)
  {
    WithoutTrie(f, x, lo, w);
    assert f.ring[1..] == [] && Queue(f.ring) == [x] && Drop([x], x) == [];
    if f.r.Node? {
      CutLastTrie(f.r, lo + Pow2(w - 1), w - 1);
    } else if f.l.Node? {
      CutLastTrie(f.l, lo, w - 1);
    }
    NoQueue(Without(f, x), f.sz);
  }

  lemma WithoutQueue(f: Tree, x: int, lo: int, w: nat, z: int)
    requires f.Node? && TrieOk(f, lo, w) && Distinct(f) && x in f.ring
    ensures QueueOf(Without(f, x), z) == if z == f.sz then Drop(QueueOf(f, z), x) else QueueOf(f, z)
  {
    hide Queue, LastLeaf, CutLast, Sizes, TrieOk, Drop;
    if |f.ring| > 1 {
      RingLoses(f.ring, x);
    } else {
      assert f.ring == [x];
      if z == f.sz {
        OneLeaves(f, x, lo, w);
      } else if f.r.Node? {
        LeafRightQueue(f, lo, w, z);
      } else if f.l.Node? {
        LeafLeftQueue(f, lo, w, z);
      }
    }
  }

  /** Removal: chunk x leaves the queue of its size, and nothing else changes, whichever node takes its place. */
  lemma RemoveQueue(t: Tree, x: int, s: int, lo: int, w: nat, z: int)
    requires t.Node? && TrieOk(t, lo, w) && Distinct(t) && lo <= s < lo + Pow2(w)
    requires x in Find(t, s, lo, w).ring && Find(t, s, lo, w).sz == s
    ensures QueueOf(Remove(t, x, s, lo, w), z) == if z == s then Drop(QueueOf(t, z), x) else QueueOf(t, z)
  {
    hide TrieOk, Distinct, Find, FindLo, FindW, Graft, Pow2, Sizes, Without;
    var f, fl, fw := Find(t, s, lo, w), FindLo(t, s, lo, w), FindW(t, s, lo, w);
    FindRange(t, s, lo, w);
    FindSub(t, s, lo, w);
    WithoutTrie(f, x, fl, fw);
    GraftQueue(t, s, lo, w, Without(f, x), z);
    WithoutQueue(f, x, fl, fw, z);
  }
}
