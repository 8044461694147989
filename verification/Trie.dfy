/**
  The tree bins as abstract tries. A node carries a size and the ring of all chunks of that size, the
  first of which stands in the tree; the two halves of the size range go to the two children.
 */
module Trie {
  import opened Words

  datatype Tree = Nil | Node(ring: seq<int>, sz: int, l: Tree, r: Tree)

  /** The chunk that stands for the tree, 0 for none. */
  function Adr(t: Tree): int { if t.Nil? || t.ring == [] then 0 else t.ring[0] }

  function Elems(s: seq<int>): set<int> { set x | x in s }

  ghost function Members(t: Tree): set<int> {
    if t.Nil? then {} else Elems(t.ring) + Members(t.l) + Members(t.r)
  }

  ghost function Sizes(t: Tree): set<int> {
    if t.Nil? then {} else {t.sz} + Sizes(t.l) + Sizes(t.r)
  }

  ghost predicate NoDup(s: seq<int>) {
    forall i, j :: 0 <= i < j < |s| ==> s[i] != s[j]
  }

  /** Every chunk occurs once. */
  ghost predicate Distinct(t: Tree) {
    t.Node? ==>
      && t.ring != [] && NoDup(t.ring)
      && Elems(t.ring) !! Members(t.l)
      && Elems(t.ring) !! Members(t.r)
      && Members(t.l) !! Members(t.r)
      && Distinct(t.l) && Distinct(t.r)
  }

  /**
    The trie shape: all sizes lie in [lo, lo + 2^w), the left child holds the lower half and the right
    child the upper half, and no size has two nodes.
   */
  ghost predicate TrieOk(t: Tree, lo: int, w: nat) {
    t.Node? ==>
      && lo <= t.sz < lo + Pow2(w)
      && t.sz !in Sizes(t.l) && t.sz !in Sizes(t.r)
      && if w == 0 then t.l.Nil? && t.r.Nil?
         else TrieOk(t.l, lo, w - 1) && TrieOk(t.r, lo + Pow2(w - 1), w - 1)
  }

  lemma {:induction false} SizesIn(t: Tree, lo: int, w: nat)
    requires TrieOk(t, lo, w)
    ensures forall s :: s in Sizes(t) ==> lo <= s < lo + Pow2(w)
    decreases t
  {
    if t.Node? && w > 0 {
      SizesIn(t.l, lo, w - 1);
      SizesIn(t.r, lo + Pow2(w - 1), w - 1);
    }
  }

  /** Which half of [lo, lo + 2^w) holds s. */
  ghost predicate Right(s: int, lo: int, w: nat)
    requires w > 0
  {
    s >= lo + Pow2(w - 1)
  }

  ghost function Half(s: int, lo: int, w: nat): int
    requires w > 0
  {
    if Right(s, lo, w) then lo + Pow2(w - 1) else lo
  }

  ghost function Child(t: Tree, right: bool): Tree
    requires t.Node?
  {
    if right then t.r else t.l
  }

  ghost function WithChild(t: Tree, right: bool, c: Tree): Tree
    requires t.Node?
  {
    if right then t.(r := c) else t.(l := c)
  }

  /** The descent for size s stops at a node of that size and above a missing child. */
  ghost predicate Stops(t: Tree, s: int, lo: int, w: nat)
    requires t.Node?
  {
    t.sz == s || w == 0 || Child(t, Right(s, lo, w)).Nil?
  }

  /** Where the descent for size s stops: at the node of that size, or above the missing child. */
  ghost function Find(t: Tree, s: int, lo: int, w: nat): (f: Tree)
    requires t.Node?
    ensures f.Node?
    decreases t
  {
    if Stops(t, s, lo, w) then t
    else Find(Child(t, Right(s, lo, w)), s, Half(s, lo, w), w - 1)
  }

  /** The tree with the subtree at Find replaced by u. */
  ghost function Graft(t: Tree, s: int, lo: int, w: nat, u: Tree): Tree
    requires t.Node?
    decreases t
  {
    if Stops(t, s, lo, w) then u
    else WithChild(t, Right(s, lo, w), Graft(Child(t, Right(s, lo, w)), s, Half(s, lo, w), w - 1, u))
  }

  lemma {:induction false} FindSub(t: Tree, s: int, lo: int, w: nat)
    requires t.Node?
    ensures Members(Find(t, s, lo, w)) <= Members(t)
    ensures Sizes(Find(t, s, lo, w)) <= Sizes(t)
    ensures Distinct(t) ==> Distinct(Find(t, s, lo, w))
    decreases t
  {
    if Stops(t, s, lo, w) {
    } else {
      FindSub(Child(t, Right(s, lo, w)), s, Half(s, lo, w), w - 1);
    }
  }

  /** The range of the subtree where the descent stops. */
  ghost function FindLo(t: Tree, s: int, lo: int, w: nat): int
    requires t.Node?
    decreases t
  {
    if Stops(t, s, lo, w) then lo
    else FindLo(Child(t, Right(s, lo, w)), s, Half(s, lo, w), w - 1)
  }

  ghost function FindW(t: Tree, s: int, lo: int, w: nat): nat
    requires t.Node?
    decreases t
  {
    if Stops(t, s, lo, w) then w
    else FindW(Child(t, Right(s, lo, w)), s, Half(s, lo, w), w - 1)
  }

  lemma {:induction false} FindRange(t: Tree, s: int, lo: int, w: nat)
    requires t.Node? && TrieOk(t, lo, w) && lo <= s < lo + Pow2(w)
    ensures var f := Find(t, s, lo, w); var fl := FindLo(t, s, lo, w); var fw := FindW(t, s, lo, w);
            && TrieOk(f, fl, fw) && fl <= s < fl + Pow2(fw)
            && (f.sz == s || (s !in Sizes(t) && fw > 0 && Child(f, Right(s, fl, fw)).Nil?))
    decreases t
  {
    if t.sz == s || w == 0 {
    } else {
      var c := Child(t, Right(s, lo, w));
      var o := Child(t, !Right(s, lo, w));
      SizesIn(o, if Right(s, lo, w) then lo else lo + Pow2(w - 1), w - 1);
      if c.Node? {
        FindRange(c, s, Half(s, lo, w), w - 1);
      }
    }
  }

  /** Replacing the subtree by one with sizes from the same range keeps the trie shape. */
  lemma {:induction false} GraftTrie(t: Tree, s: int, lo: int, w: nat, u: Tree)
    requires t.Node? && TrieOk(t, lo, w) && lo <= s < lo + Pow2(w)
    requires TrieOk(u, FindLo(t, s, lo, w), FindW(t, s, lo, w))
    requires Sizes(u) <= Sizes(Find(t, s, lo, w)) + {s}
    ensures TrieOk(Graft(t, s, lo, w, u), lo, w)
    ensures Sizes(Graft(t, s, lo, w, u)) <= Sizes(t) + {s}
    decreases t
  {
    if Stops(t, s, lo, w) {
    } else {
      GraftTrie(Child(t, Right(s, lo, w)), s, Half(s, lo, w), w - 1, u);
    }
  }

  /** Exchanging one child. */
  lemma SwapChild(t: Tree, right: bool, c: Tree)
    requires t.Node? && Distinct(t) && Distinct(c)
    requires Members(c) * Members(t) <= Members(Child(t, right))
    ensures Members(WithChild(t, right, c)) == Members(t) - Members(Child(t, right)) + Members(c)
    ensures Distinct(WithChild(t, right, c))
  {
    var own := Elems(t.ring);
    var o := Members(Child(t, !right));
    assert Members(t) == own + o + Members(Child(t, right));
    assert Members(WithChild(t, right, c)) == own + o + Members(c);
    assert own !! Members(c) && o !! Members(c);
  }

  /** The members of a grafted tree: those of the replaced subtree are exchanged for those of u. */
  lemma {:induction false} GraftMembers(t: Tree, s: int, lo: int, w: nat, u: Tree)
    requires t.Node? && Distinct(t)
    requires Distinct(u) && Members(u) * Members(t) <= Members(Find(t, s, lo, w))
    ensures Members(Graft(t, s, lo, w, u)) == Members(t) - Members(Find(t, s, lo, w)) + Members(u)
    ensures Distinct(Graft(t, s, lo, w, u))
    decreases t
  {
    if Stops(t, s, lo, w) {
    } else {
      var d := Right(s, lo, w);
      var c := Child(t, d);
      FindSub(c, s, Half(s, lo, w), w - 1);
      var f := Find(c, s, Half(s, lo, w), w - 1);
      var g := Graft(c, s, Half(s, lo, w), w - 1, u);
      SetSwap(Members(t), Members(c), Members(f), Members(u));
      GraftMembers(c, s, Half(s, lo, w), w - 1, u);
      SwapChild(t, d, g);
    }
  }

  lemma SetSwap(t: set<int>, c: set<int>, f: set<int>, u: set<int>)
    requires f <= c <= t && u * t <= f
    ensures u * c <= f && (c - f + u) * t <= c && t - c + (c - f + u) == t - f + u
  {
  }
}
