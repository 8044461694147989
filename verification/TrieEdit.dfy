/** What inserting and unlinking a chunk do to the abstract trie. */
module TrieEdit {
  import opened Words
  import opened Trie

  ghost function Single(x: int, s: int): Tree { Node([x], s, Nil, Nil) }

  /** The node where the descent for s stops, with chunk x added: to its ring, or as its missing child. */
  ghost function Added(f: Tree, x: int, s: int, right: bool): Tree
    requires f.Node?
  {
    if f.sz == s then f.(ring := if f.ring == [] then [x] else [f.ring[0], x] + f.ring[1..])
    else WithChild(f, right, Single(x, s))
  }

  ghost function Insert(t: Tree, x: int, s: int, lo: int, w: nat): Tree {
    if t.Nil? then Single(x, s)
    else
      var fw := FindW(t, s, lo, w);
      Graft(t, s, lo, w, Added(Find(t, s, lo, w), x, s, fw > 0 && Right(s, FindLo(t, s, lo, w), fw)))
  }

  /** The leaf reached by going right where possible and left otherwise. */
  ghost function LastLeaf(t: Tree): (f: Tree)
    requires t.Node?
    ensures f.Node? && f.l.Nil? && f.r.Nil?
  {
    if t.r.Node? then LastLeaf(t.r) else if t.l.Node? then LastLeaf(t.l) else t
  }

  ghost function CutLast(t: Tree): Tree
    requires t.Node?
  {
    if t.r.Node? then t.(r := CutLast(t.r)) else if t.l.Node? then t.(l := CutLast(t.l)) else Nil
  }

  ghost function Drop(s: seq<int>, x: int): (r: seq<int>)
    ensures x !in s ==> r == s
  {
    if s == [] then [] else if s[0] == x then s[1..] else [s[0]] + Drop(s[1..], x)
  }

  /** The ring without x; when x stood in the tree its predecessor takes over. */
  ghost function RingWithout(s: seq<int>, x: int): seq<int>
    requires |s| > 1
  {
    if x == s[0] then [s[|s| - 1]] + s[1..|s| - 1] else Drop(s, x)
  }

  /** Node f without chunk x: its ring shrinks, or the last leaf below replaces it. */
  ghost function Without(f: Tree, x: int): Tree
    requires f.Node?
  {
    if |f.ring| > 1 then f.(ring := RingWithout(f.ring, x))
    else if f.r.Node? then Node(LastLeaf(f.r).ring, LastLeaf(f.r).sz, f.l, CutLast(f.r))
    else if f.l.Node? then Node(LastLeaf(f.l).ring, LastLeaf(f.l).sz, CutLast(f.l), Nil)
    else Nil
  }

  ghost function Remove(t: Tree, x: int, s: int, lo: int, w: nat): Tree
    requires t.Node?
  {
    Graft(t, s, lo, w, Without(Find(t, s, lo, w), x))
  }

  // ---- insertion ----

  lemma AddedTrie(f: Tree, x: int, s: int, lo: int, w: nat, right: bool)
    requires f.Node? && TrieOk(f, lo, w) && lo <= s < lo + Pow2(w)
    requires f.sz == s || (w > 0 && right == Right(s, lo, w) && Child(f, right).Nil?)
    ensures TrieOk(Added(f, x, s, right), lo, w)
    ensures Sizes(Added(f, x, s, right)) <= Sizes(f) + {s}
  {
    if f.sz != s {
      assert Pow2(w) == 2 * Pow2(w - 1);
      assert TrieOk(Nil, lo, 0);
      if w > 1 { assert TrieOk(Nil, Half(s, lo, w) + Pow2(w - 2), w - 2) && TrieOk(Nil, Half(s, lo, w), w - 2); }
      assert TrieOk(Single(x, s), Half(s, lo, w), w - 1);
    }
  }

  lemma AddedMembers(f: Tree, x: int, s: int, right: bool)
    requires f.Node? && Distinct(f) && x !in Members(f)
    requires f.sz == s || Child(f, right).Nil?
    ensures Distinct(Added(f, x, s, right))
    ensures Members(Added(f, x, s, right)) == Members(f) + {x}
  {
    if f.sz == s {
      RingAdd(f.ring, x);
    } else {
      assert Members(Single(x, s)) == {x};
      SwapChild(f, right, Single(x, s));
    }
  }

  lemma RingAdd(s: seq<int>, x: int)
    requires s != [] && NoDup(s) && x !in s
    ensures NoDup([s[0], x] + s[1..]) && Elems([s[0], x] + s[1..]) == Elems(s) + {x}
  {
    assert s == [s[0]] + s[1..];
  }

  lemma InsertNil(x: int, s: int, lo: int, w: nat)
    requires lo <= s < lo + Pow2(w)
    ensures TrieOk(Single(x, s), lo, w) && Distinct(Single(x, s)) && Members(Nil) + {x} == Members(Single(x, s)) == {x}
  {
  }

  /** Insertion adds exactly x, with its size, and keeps the trie shape. */
  lemma InsertOk(t: Tree, x: int, s: int, lo: int, w: nat)
    requires TrieOk(t, lo, w) && Distinct(t) && lo <= s < lo + Pow2(w) && x !in Members(t)
    ensures TrieOk(Insert(t, x, s, lo, w), lo, w)
    ensures Distinct(Insert(t, x, s, lo, w))
    ensures Members(Insert(t, x, s, lo, w)) == Members(t) + {x}
  {
    hide Members, Distinct, TrieOk, Find, FindLo, FindW, Graft, Pow2, Sizes, Added, Right;
    if t.Nil? {
      InsertNil(x, s, lo, w);
    } else {
      var f := Find(t, s, lo, w);
      var fl, fw := FindLo(t, s, lo, w), FindW(t, s, lo, w);
      var d := fw > 0 && Right(s, fl, fw);
      FindRange(t, s, lo, w);
      FindSub(t, s, lo, w);
      AddedTrie(f, x, s, fl, fw, d);
      GraftTrie(t, s, lo, w, Added(f, x, s, d));
      AddedMembers(f, x, s, d);
      GraftMembers(t, s, lo, w, Added(f, x, s, d));
    }
  }

  // ---- removal ----

  lemma {:induction false} CutLastTrie(t: Tree, lo: int, w: nat)
    requires t.Node? && TrieOk(t, lo, w)
    ensures TrieOk(CutLast(t), lo, w)
    ensures LastLeaf(t).sz in Sizes(t) && Sizes(CutLast(t)) == Sizes(t) - {LastLeaf(t).sz}
    decreases t
  {
    if t.r.Node? {
      SizesIn(t.l, lo, w - 1);
      SizesIn(t.r, lo + Pow2(w - 1), w - 1);
      CutLastTrie(t.r, lo + Pow2(w - 1), w - 1);
    } else if t.l.Node? {
      CutLastTrie(t.l, lo, w - 1);
    }
  }

  lemma {:induction false} CutLastMembers(t: Tree)
    requires t.Node? && Distinct(t)
    ensures Distinct(CutLast(t))
    ensures LastLeaf(t).ring != [] && NoDup(LastLeaf(t).ring)
    ensures Elems(LastLeaf(t).ring) <= Members(t)
    ensures Members(CutLast(t)) == Members(t) - Elems(LastLeaf(t).ring)
  {
    if t.r.Node? {
      CutLastMembers(t.r);
      SwapChild(t, true, CutLast(t.r));
    } else if t.l.Node? {
      CutLastMembers(t.l);
      SwapChild(t, false, CutLast(t.l));
    }
  }

  lemma {:induction false} DropElems(s: seq<int>, x: int)
    requires NoDup(s)
    ensures NoDup(Drop(s, x)) && Elems(Drop(s, x)) == Elems(s) - {x}
  {
    if s != [] {
      DropElems(s[1..], x);
      assert Elems(s) == {s[0]} + Elems(s[1..]);
      if s[0] == x {
        assert x !in s[1..];
      } else {
        var d := Drop(s[1..], x);
        assert Elems([s[0]] + d) == {s[0]} + Elems(d);
        assert s[0] !in d;
      }
    }
  }

  lemma RingWithoutElems(s: seq<int>, x: int)
    requires |s| > 1 && NoDup(s) && x in s
    ensures RingWithout(s, x) != [] && NoDup(RingWithout(s, x)) && Elems(RingWithout(s, x)) == Elems(s) - {x}
  {
    if x == s[0] {
      var n := |s| - 1;
      var q := [s[n]] + s[1..n];
      assert s == [x] + s[1..n] + [s[n]];
      assert Elems(s) == {x} + Elems(s[1..n]) + {s[n]};
      assert Elems(q) == {s[n]} + Elems(s[1..n]);
      assert x !in q;
    } else {
      DropElems(s, x);
      assert s[0] in Elems(s) - {x};
    }
  }

  lemma WithoutTrie(f: Tree, x: int, lo: int, w: nat)
    requires f.Node? && TrieOk(f, lo, w)
    ensures TrieOk(Without(f, x), lo, w) && Sizes(Without(f, x)) <= Sizes(f)
  {
    if |f.ring| > 1 {
    } else if f.r.Node? {
      SizesIn(f.l, lo, w - 1);
      SizesIn(f.r, lo + Pow2(w - 1), w - 1);
      CutLastTrie(f.r, lo + Pow2(w - 1), w - 1);
    } else if f.l.Node? {
      SizesIn(f.l, lo, w - 1);
      CutLastTrie(f.l, lo, w - 1);
    }
  }

  lemma WithoutMembers(f: Tree, x: int)
    requires f.Node? && Distinct(f) && x in f.ring
    ensures Distinct(Without(f, x)) && Members(Without(f, x)) == Members(f) - {x}
  {
    if |f.ring| > 1 {
      RingWithoutElems(f.ring, x);
    } else if f.r.Node? {
      CutLastMembers(f.r);
      assert Elems(f.ring) == {x};
    } else if f.l.Node? {
      CutLastMembers(f.l);
      assert Elems(f.ring) == {x};
    } else {
      assert Elems(f.ring) == {x};
    }
  }

  /** Removal takes out exactly x and keeps the trie shape. */
  lemma RemoveOk(t: Tree, x: int, s: int, lo: int, w: nat)
    requires t.Node? && TrieOk(t, lo, w) && Distinct(t) && lo <= s < lo + Pow2(w)
    requires x in Find(t, s, lo, w).ring
    ensures TrieOk(Remove(t, x, s, lo, w), lo, w)
    ensures Distinct(Remove(t, x, s, lo, w))
    ensures Members(Remove(t, x, s, lo, w)) == Members(t) - {x}
  {
    hide Distinct, TrieOk, Find, FindLo, FindW, Graft, Pow2, Sizes, Without;
    var f := Find(t, s, lo, w);
    var fl, fw := FindLo(t, s, lo, w), FindW(t, s, lo, w);
    FindRange(t, s, lo, w);
    FindSub(t, s, lo, w);
    WithoutTrie(f, x, fl, fw);
    WithoutMembers(f, x);
    GraftTrie(t, s, lo, w, Without(f, x));
    GraftMembers(t, s, lo, w, Without(f, x));
    assert x in Members(f);
  }
}
