/** Best fit: the searches of tmalloc_large and tmalloc_small over the tree bins. */
module TreeSearch {
  import opened Words
  import opened BinMap
  import opened BinIndex
  import opened Chunk
  import opened Trie
  import opened TrieLinks
  import opened TrieSurgery
  import opened TreeBins
  import opened TreeUnlink

  /** Subtree u, of chunks of b, with sizes in [lo, lo + 2^w). */
  ghost predicate Here(m: Mem, b: map<int, int>, u: Tree, par: int, i: int, lo: int, w: nat) {
    && Linked(m, u, par, i) && TrieOk(u, lo, w) && Distinct(u) && (u.Node? ==> par != 0)
    && (forall y :: y in Members(u) ==> y in b)
    && (forall y :: y in b ==> LargeChunk(m, y, b[y]))
  }

  /** What the store shows at a node. */
  lemma HereNode(m: Mem, b: map<int, int>, u: Tree, par: int, i: int, lo: int, w: nat)
    requires Here(m, b, u, par, i, lo, w) && u.Node?
    ensures Adr(u) != 0 && Adr(u) in b && b[Adr(u)] == u.sz == ChunkSize(Rd(m, Adr(u) + HEAD))
    ensures MIN_LARGE <= u.sz < SIZE_LIMIT && Rd(m, Adr(u) + PARENT) == par != 0
    ensures Rd(m, Adr(u) + LEFT) == Adr(u.l) && Rd(m, Adr(u) + RIGHT) == Adr(u.r)
    ensures (Adr(u.l) == 0 <==> u.l.Nil?) && (Adr(u.r) == 0 <==> u.r.Nil?)
    ensures u.l.Node? && u.r.Node? ==> Adr(u.l) != Adr(u.r)
    ensures w == 0 ==> u.l.Nil? && u.r.Nil? && Here(m, b, Nil, Adr(u), i, lo, 0)
    ensures w > 0 ==> Here(m, b, u.l, Adr(u), i, lo, w - 1) && Here(m, b, u.r, Adr(u), i, lo + Pow2(w - 1), w - 1)
  {
    hide Rd, Linked, Members, Distinct, ChunkSize;
    Parts(u);
    ChildWords(m, u, par, i);
    LinkedNode(m, u, par, i);
    assert Labeled(m, u.ring[0], u.sz, i);
    if u.l.Node? { Parts(u.l); }
    if u.r.Node? { Parts(u.r); }
  }

  /** The best chunk so far: none yet, or v with remainder rsize. The first remainder is -nb, unsigned. */
  ghost predicate Best(b: map<int, int>, nb: int, v: int, rsize: int) {
    if v == 0 then rsize == WORD - nb else v in b && b[v] >= nb && rsize == b[v] - nb
  }

  /** The chunk is the one of its size that stands in the tree. */
  ghost predicate Standing(m: Mem, v: int) { v != 0 ==> Rd(m, v + PARENT) != 0 }

  ghost predicate AtMost(nb: int, v: int, rsize: int, s: int) { v != 0 && nb + rsize <= s }

  /** The wrap-around comparison: a chunk below the request never looks better. */
  lemma Compare(b: map<int, int>, nb: int, v: int, rsize: int, t: int, sz: int)
    requires 0 < nb < WORD && Best(b, nb, v, rsize) && t != 0 && t in b && b[t] == sz && 0 <= sz < SIZE_LIMIT
    requires v != 0 ==> b[v] < WORD
    ensures var better := Sub64(sz, nb) < rsize;
            && (better ==> sz >= nb && Best(b, nb, t, Sub64(sz, nb)))
            && (!better && sz >= nb ==> AtMost(nb, v, rsize, sz))
            && (better && v != 0 ==> sz < b[v])
  {
  }

  // ---- the leftmost path ----

  /** Every chunk that fits is matched by the best so far, or lies in u, or is no smaller than u's root. */
  ghost predicate Covers(b: map<int, int>, nb: int, v: int, rsize: int, u: Tree) {
    forall x :: x in b && b[x] >= nb ==>
      AtMost(nb, v, rsize, b[x]) || b[x] in Sizes(u) || (u.Node? && nb <= u.sz <= b[x])
  }

  ghost predicate NoneFits(b: map<int, int>, nb: int) { forall x :: x in b ==> b[x] < nb }

  /** Everything in u fits, or an exact fit is already found, or nothing fits at all. */
  ghost predicate Fits(b: map<int, int>, nb: int, v: int, rsize: int, u: Tree) {
    || (v != 0 && rsize == 0)
    || NoneFits(b, nb)
    || forall s :: s in Sizes(u) ==> s >= nb
  }

  function LeftmostChild(m: Mem, t: int): int {
    if Rd(m, t + LEFT) != 0 then Rd(m, t + LEFT) else Rd(m, t + RIGHT)
  }

  ghost function Leftward(u: Tree): Tree
    requires u.Node?
  {
    if u.l.Node? then u.l else u.r
  }

  lemma LeftmostStep(m: Mem, b: map<int, int>, u: Tree, par: int, i: int, lo: int, w: nat, nb: int, v: int, rsize: int,
                     v': int, rsize': int)
    requires Here(m, b, u, par, i, lo, w) && u.Node? && 0 < nb < WORD
    requires Best(b, nb, v, rsize) && Best(b, nb, v', rsize') && Covers(b, nb, v, rsize, u) && Fits(b, nb, v, rsize, u)
    requires v != 0 ==> v' != 0 && rsize' <= rsize
    requires u.sz >= nb ==> AtMost(nb, v', rsize', u.sz)
    ensures Covers(b, nb, v', rsize', Leftward(u)) && Fits(b, nb, v', rsize', Leftward(u))
  {
    hide Rd, Linked, Members, Distinct;
    if w > 0 {
      SizesIn(u.l, lo, w - 1);
      SizesIn(u.r, lo + Pow2(w - 1), w - 1);
    }
    assert u.l.Node? ==> u.l.sz in Sizes(u.l);
    assert forall s :: s in Sizes(Leftward(u)) ==> s in Sizes(u);
    forall x | x in b && b[x] >= nb
      ensures AtMost(nb, v', rsize', b[x]) || b[x] in Sizes(Leftward(u))
          || (Leftward(u).Node? && nb <= Leftward(u).sz <= b[x])
    {
    }
  }

  /** Walks the leftmost path below t, keeping the best fit. */
  method Leftmost(m: Mem, t0: int, v0: int, rsize0: int, nb: int, ghost b: map<int, int>, ghost u0: Tree,
                  ghost par0: int, ghost i: int, ghost lo0: int, ghost w0: nat)
    returns (v: int, rsize: int)
    requires Here(m, b, u0, par0, i, lo0, w0) && t0 == Adr(u0) && 0 < nb < WORD
    requires (forall x :: x in b ==> 0 <= b[x] < SIZE_LIMIT)
    requires Best(b, nb, v0, rsize0) && Covers(b, nb, v0, rsize0, u0) && Fits(b, nb, v0, rsize0, u0)
    requires Standing(m, v0)
    ensures Best(b, nb, v, rsize) && Standing(m, v)
    ensures forall x :: x in b && b[x] >= nb ==> AtMost(nb, v, rsize, b[x])
  {
    hide Rd, Here, ChunkSize;
    var t := t0;
    v, rsize := v0, rsize0;
    ghost var u, par, lo, w := u0, par0, lo0, w0;
    if u.Node? { HereNode(m, b, u, par, i, lo, w); }
    while t != 0
      invariant Here(m, b, u, par, i, lo, w) && t == Adr(u) && (t == 0 <==> u.Nil?)
      invariant Best(b, nb, v, rsize) && Covers(b, nb, v, rsize, u) && Fits(b, nb, v, rsize, u) && Standing(m, v)
      decreases u
    {
      HereNode(m, b, u, par, i, lo, w);
      var trem := Sub64(ChunkSize(Rd(m, t + HEAD)), nb);
      Compare(b, nb, v, rsize, t, u.sz);
      ghost var v1, r1 := v, rsize;
      if trem < rsize {
        rsize := trem;
        v := t;
      }
      LeftmostStep(m, b, u, par, i, lo, w, nb, v1, r1, v, rsize);
      par, lo, w := t, if u.l.Node? || w == 0 then lo else lo + Pow2(w - 1), if w == 0 then 0 else w - 1;
      u := Leftward(u);
      t := LeftmostChild(m, t);
      if u.Node? { HereNode(m, b, u, par, i, lo, w); }
    }
  }

  // ---- the descent in the bin of the request ----

  /** Where the first loop of tmalloc_large stands: subtree u, and the deepest untaken right subtree r. */
  datatype Hunt = Hunt(u: Tree, par: int, lo: int, w: nat, r: Tree, rpar: int, rlo: int, rw: nat)

  /** Chunks of bin i only. */
  ghost predicate InThisBin(b: map<int, int>, u: Tree, i: int) {
    forall y :: y in Members(u) && y in b && b[y] >= 0 ==> TreeIndex(b[y]) == i
  }

  ghost predicate HuntCovers(b: map<int, int>, nb: int, i: int, v: int, rsize: int, h: Hunt) {
    forall x :: x in b && b[x] >= nb ==>
      || (b[x] >= 0 && TreeIndex(b[x]) > i) || AtMost(nb, v, rsize, b[x]) || b[x] in Sizes(h.u)
      || b[x] in Sizes(h.r) || (h.r.Node? && b[x] >= h.rlo + Pow2(h.rw))
  }

  ghost predicate Hunting(m: Mem, b: map<int, int>, nb: int, i: int, t: int, k: int, v: int, rsize: int, rst: int,
                          h: Hunt) {
    && Here(m, b, h.u, h.par, i, h.lo, h.w) && t == Adr(h.u) && h.u.Node? && InThisBin(b, h.u, i)
    && Here(m, b, h.r, h.rpar, i, h.rlo, h.rw) && rst == Adr(h.r) && (rst == 0 <==> h.r.Nil?) && InThisBin(b, h.r, i)
    && Best(b, nb, v, rsize) && rsize != 0 && (v != 0 && b[v] >= 0 ==> TreeIndex(b[v]) == i)
    && if nb >= SIZE_LIMIT then v == 0
       else
         && Steers(k, nb, h.lo, h.w)
         && (h.r.Node? ==> h.rlo >= h.lo + Pow2(h.w))
         && HuntCovers(b, nb, i, v, rsize, h)
  }

  /** What is left after the descent: subtree u still to be walked. */
  ghost predicate Hunted(m: Mem, b: map<int, int>, nb: int, i: int, t: int, v: int, rsize: int, u: Tree, par: int,
                         lo: int, w: nat) {
    && Here(m, b, u, par, i, lo, w) && t == Adr(u) && (t == 0 <==> u.Nil?)
    && Best(b, nb, v, rsize)
    && Fits(b, nb, v, rsize, u)
    && forall x :: x in b && b[x] >= nb ==>
         || AtMost(nb, v, rsize, b[x]) || b[x] in Sizes(u) || (u.Node? && nb <= u.sz <= b[x])
         || (v == 0 && u.Nil? && b[x] >= 0 && TreeIndex(b[x]) > i)
  }

  /** The next position: towards one child, remembering the right one when it is not taken. */
  ghost function NextHunt(h: Hunt, right: bool): Hunt
    requires h.u.Node?
  {
    var a := Adr(h.u);
    var w := if h.w == 0 then 0 else h.w - 1;
    var mid := if h.w == 0 then h.lo else h.lo + Pow2(w);
    var g := h.(u := Child(h.u, right), par := a, lo := if right then mid else h.lo, w := w);
    if !right && h.u.r.Node? then g.(r := h.u.r, rpar := a, rlo := mid, rw := w) else g
  }

  /** The steering bit is the one that tells in which half of the range the request lies. */
  lemma HuntSide(m: Mem, b: map<int, int>, nb: int, i: int, t: int, k: int, v: int, rsize: int, rst: int, h: Hunt)
    requires Hunting(m, b, nb, i, t, k, v, rsize, rst, h) && h.u.sz != nb && 0 < nb < SIZE_LIMIT
    ensures h.w > 0 && (Side(k) == RIGHT <==> Right(nb, h.lo, h.w))
    ensures Steers((2 * k) % WORD, nb, Half(nb, h.lo, h.w), h.w - 1)
  {
    hide Rd, Linked, Members, Distinct, HuntCovers;
    assert Pow2(0) == 1;
    assert h.w > 0;
    SteerStep(k, nb, h.lo, h.w);
  }

  /** Visiting u and going on in the half of the request loses no candidate. */
  lemma HuntCovered(m: Mem, b: map<int, int>, nb: int, i: int, v: int, rsize: int, h: Hunt, v': int, rsize': int)
    requires Here(m, b, h.u, h.par, i, h.lo, h.w) && h.u.Node? && h.w > 0
    requires h.lo <= nb < h.lo + Pow2(h.w) && (h.r.Node? ==> h.rlo >= h.lo + Pow2(h.w))
    requires Here(m, b, h.r, h.rpar, i, h.rlo, h.rw)
    requires HuntCovers(b, nb, i, v, rsize, h)
    requires v != 0 ==> v' != 0 && rsize' <= rsize
    requires h.u.sz >= nb ==> AtMost(nb, v', rsize', h.u.sz)
    ensures HuntCovers(b, nb, i, v', rsize', NextHunt(h, Right(nb, h.lo, h.w)))
    ensures var g := NextHunt(h, Right(nb, h.lo, h.w)); g.r.Node? ==> g.rlo >= g.lo + Pow2(g.w)
  {
    hide Rd, Linked, Members, Distinct, TreeIndex;
    var g := NextHunt(h, Right(nb, h.lo, h.w));
    SizesIn(h.u.l, h.lo, h.w - 1);
    SizesIn(h.u.r, h.lo + Pow2(h.w - 1), h.w - 1);
    SizesIn(h.r, h.rlo, h.rw);
    forall x | x in b && b[x] >= nb
      ensures || (b[x] >= 0 && TreeIndex(b[x]) > i) || AtMost(nb, v', rsize', b[x]) || b[x] in Sizes(g.u)
              || b[x] in Sizes(g.r) || (g.r.Node? && b[x] >= g.rlo + Pow2(g.rw))
    {
    }
  }

  /** The words read at a step, and the shape of the next position. */
  lemma HuntWords(m: Mem, b: map<int, int>, nb: int, i: int, t: int, k: int, v: int, rsize: int, rst: int, h: Hunt)
    requires Hunting(m, b, nb, i, t, k, v, rsize, rst, h)
    ensures t != 0 && t in b && b[t] == h.u.sz == ChunkSize(Rd(m, t + HEAD)) && MIN_LARGE <= h.u.sz < SIZE_LIMIT
    ensures Standing(m, t)
    ensures var g := NextHunt(h, Side(k) == RIGHT);
            && Rd(m, t + Side(k)) == Adr(g.u) && (Adr(g.u) == 0 <==> g.u.Nil?)
            && Adr(g.r) == (if Rd(m, t + RIGHT) != 0
                && Rd(m, t + RIGHT) != Rd(m, t + Side(k)) then Rd(m, t + RIGHT) else rst)
            && (Adr(g.r) == 0 <==> g.r.Nil?)
            && Here(m, b, g.u, g.par, i, g.lo, g.w) && Here(m, b, g.r, g.rpar, i, g.rlo, g.rw)
            && InThisBin(b, g.u, i) && InThisBin(b, g.r, i) && (g.u < h.u)
    ensures TreeIndex(h.u.sz) == i
  {
    hide Rd, HuntCovers, Here, ChunkSize, TreeIndex, Members;
    HereNode(m, b, h.u, h.par, i, h.lo, h.w);
    ThisBinNode(m, b, h.u, h.par, i, h.lo, h.w);
  }

  lemma ThisBinNode(m: Mem, b: map<int, int>, u: Tree, par: int, i: int, lo: int, w: nat)
    requires Here(m, b, u, par, i, lo, w) && u.Node? && InThisBin(b, u, i)
    ensures InThisBin(b, u.l, i) && InThisBin(b, u.r, i)
    ensures u.sz >= 0 ==> TreeIndex(u.sz) == i
  {
    hide Rd, Distinct, TrieOk, ChunkSize, TreeIndex;
    HereNode(m, b, u, par, i, lo, w);
    assert Adr(u) in Members(u) by { Parts(u); }
  }

  /** One step of the first loop that goes on below a child. */
  lemma HuntStep(m: Mem, b: map<int, int>, nb: int, i: int, t: int, k: int, v: int, rsize: int, rst: int, h: Hunt,
                 v': int, rsize': int)
    requires Hunting(m, b, nb, i, t, k, v, rsize, rst, h) && 0 < nb < WORD
    requires Best(b, nb, v', rsize') && rsize' != 0 && (v' == v || v' == t) && (v != 0 ==> v' != 0 && rsize' <= rsize)
    requires v' != v ==> h.u.sz >= nb
    requires h.u.sz >= nb ==> AtMost(nb, v', rsize', h.u.sz)
    ensures var g := NextHunt(h, Side(k) == RIGHT);
            if g.u.Node? then Hunting(m, b, nb, i, Adr(g.u), (2 * k) % WORD, v', rsize', Adr(g.r), g)
            else Hunted(m, b, nb, i, Adr(g.r), v', rsize', g.r, g.rpar, g.rlo, g.rw)
  {
    hide Rd, Here, ChunkSize, TreeIndex, Members, HuntCovers, Sizes;
    HuntWords(m, b, nb, i, t, k, v, rsize, rst, h);
    var g := NextHunt(h, Side(k) == RIGHT);
    if nb < SIZE_LIMIT {
      HuntSide(m, b, nb, i, t, k, v, rsize, rst, h);
      SteersRange(k, nb, h.lo, h.w);
      HuntCovered(m, b, nb, i, v, rsize, h, v', rsize');
      if g.u.Nil? { HuntEnds(m, b, nb, i, v', rsize', g); }
    } else {
      assert NoneFits(b, nb) by { AllBelow(m, b, h, i); }
    }
  }

  lemma AllBelow(m: Mem, b: map<int, int>, h: Hunt, i: int)
    requires Here(m, b, h.u, h.par, i, h.lo, h.w)
    ensures forall x :: x in b ==> MIN_LARGE <= b[x] < SIZE_LIMIT
  {
  }

  lemma SteersRange(k: int, s: int, lo: int, w: nat)
    requires Steers(k, s, lo, w)
    ensures lo <= s < lo + Pow2(w)
  {
  }

  /** When the child is missing, the deepest untaken right subtree holds the next larger sizes. */
  lemma HuntEnds(m: Mem, b: map<int, int>, nb: int, i: int, v: int, rsize: int, g: Hunt)
    requires g.u.Nil? && HuntCovers(b, nb, i, v, rsize, g) && Here(m, b, g.r, g.rpar, i, g.rlo, g.rw)
    requires g.r.Node? ==> g.rlo >= g.lo + Pow2(g.w) > nb
    requires InThisBin(b, g.r, i) && (v != 0 && v in b && b[v] >= 0 ==> TreeIndex(b[v]) == i) && Best(b, nb, v, rsize)
    ensures Fits(b, nb, v, rsize, g.r)
    ensures forall x :: x in b && b[x] >= nb ==>
              || AtMost(nb, v, rsize, b[x]) || b[x] in Sizes(g.r) || (g.r.Node? && nb <= g.r.sz <= b[x])
              || (v == 0 && g.r.Nil? && b[x] >= 0 && TreeIndex(b[x]) > i)
  {
    hide Rd, TreeIndex, Members, Linked, Distinct, ChunkSize;
    SizesIn(g.r, g.rlo, g.rw);
    assert g.r.Node? ==> g.r.sz in Sizes(g.r);
    if g.r.Node? { ThisBinNode(m, b, g.r, g.rpar, i, g.rlo, g.rw); HereNode(m, b, g.r, g.rpar, i, g.rlo, g.rw); }
    forall x | x in b && b[x] >= nb
      ensures || AtMost(nb, v, rsize, b[x]) || b[x] in Sizes(g.r) || (g.r.Node? && nb <= g.r.sz <= b[x])
              || (v == 0 && g.r.Nil? && b[x] >= 0 && TreeIndex(b[x]) > i)
    {
      if b[x] >= 0 && TreeIndex(b[x]) > i {
        if v != 0 { HigherBin(b[v], b[x]); }
        if g.r.Node? { HigherBin(g.r.sz, b[x]); }
      }
    }
  }

  lemma HigherBin(s: int, t: int)
    requires MIN_LARGE <= s < SIZE_LIMIT && MIN_LARGE <= t < SIZE_LIMIT && TreeIndex(s) < TreeIndex(t)
    ensures s < t
  {
    hide TreeIndex;
    SizeRange(s);
    SizeRange(t);
    BinsOrdered(TreeIndex(s), TreeIndex(t), s, t);
  }

  lemma HuntStart(m: Mem, treemap: nat, trees: seq<Tree>, b: map<int, int>, nb: int, i: nat)
    requires TreesOk(m, treemap, trees, b) && MIN_LARGE <= nb < WORD && i == TreeIndex(nb) < TREEBINS && trees[i].Node?
    ensures Hunting(m, b, nb, i, Adr(trees[i]), (nb * Pow2(LeftShift(i))) % WORD, 0, WORD - nb, 0,
                    Hunt(trees[i], TreebinAt(i), Lo(i), Width(i), Nil, 0, 0, 0))
  {
    hide Rd, TreeIndex, Linked, Distinct, TrieOk, Members, Steers, ChunkSize, Bit;
    assert BinOk(m, treemap, trees[i], i) && Holds(trees[i], i, b);
    var h := Hunt(trees[i], TreebinAt(i), Lo(i), Width(i), Nil, 0, 0, 0);
    NilHere(m, b, i);
    assert Here(m, b, h.u, h.par, i, h.lo, h.w);
    assert InThisBin(b, Nil, i) by { NilMembers(); }
    if nb < SIZE_LIMIT {
      SizeRange(nb);
      SteerStart(nb, i);
      forall x | x in b && b[x] >= nb ensures TreeIndex(b[x]) > i || b[x] in Sizes(trees[i]) {
        SizeRange(b[x]);
        if TreeIndex(b[x]) < i {
          HigherBin(b[x], nb);
        } else if TreeIndex(b[x]) == i {
          MemberSize(m, trees[i], TreebinAt(i), i, x);
        }
      }
    }
  }

  lemma NilMembers()
    ensures Members(Nil) == {}
  {
  }

  lemma NilHere(m: Mem, b: map<int, int>, i: int)
    requires forall y :: y in b ==> LargeChunk(m, y, b[y])
    ensures Here(m, b, Nil, 0, i, 0, 0)
  {
  }

  /** An exact fit ends the descent where it stands. */
  lemma HuntHit(m: Mem, b: map<int, int>, nb: int, i: int, t: int, k: int, v: int, rsize: int, rst: int, h: Hunt)
    requires Hunting(m, b, nb, i, t, k, v, rsize, rst, h) && Best(b, nb, t, 0) && t != 0
    ensures Hunted(m, b, nb, i, t, t, 0, h.u, h.par, h.lo, h.w)
  {
  }

  /** The first loop of tmalloc_large: looks for nb in its own bin. */
  method SearchBin(m: Mem, nb: int, i: nat, ghost treemap: nat, ghost trees: seq<Tree>, ghost b: map<int, int>)
    returns (t: int, v: int, rsize: int, ghost h: Hunt)
    requires TreesOk(m, treemap, trees, b) && MIN_LARGE <= nb < WORD && i == TreeIndex(nb) < TREEBINS && trees[i].Node?
    ensures Hunted(m, b, nb, i, t, v, rsize, h.u, h.par, h.lo, h.w) && Standing(m, v)
  {
    assert |trees| == TREEBINS && Rd(m, TreebinAt(i)) == Adr(trees[i]) by {
      assert BinOk(m, treemap, trees[i], i);
      BinFacts(m, treemap, trees[i], i);
    }
    hide Rd, TreesOk, TreeIndex, Hunting, Hunted, ChunkSize, NextHunt;
    t := Rd(m, TreebinAt(i));
    v, rsize := 0, WORD - nb;
    var sizebits := (nb * Pow2(LeftShift(i))) % WORD;
    var rst := 0;
    h := Hunt(trees[i], TreebinAt(i), Lo(i), Width(i), Nil, 0, 0, 0);
    HuntStart(m, treemap, trees, b, nb, i);
    while true
      invariant Hunting(m, b, nb, i, t, sizebits, v, rsize, rst, h) && Standing(m, v)
      decreases h.u
    {
      ghost var v1, r1 := v, rsize;
      HuntWords(m, b, nb, i, t, sizebits, v, rsize, rst, h);
      HuntBest(m, b, nb, i, t, sizebits, v, rsize, rst, h);
      Compare(b, nb, v, rsize, t, h.u.sz);
      var trem := Sub64(ChunkSize(Rd(m, t + HEAD)), nb);
      if trem < rsize {
        v := t;
        rsize := trem;
        if rsize == 0 {
          HuntHit(m, b, nb, i, t, sizebits, v1, r1, rst, h);
          break;
        }
      }
      HuntStep(m, b, nb, i, t, sizebits, v1, r1, rst, h, v, rsize);
      var rt := Rd(m, t + RIGHT);
      t := Rd(m, t + Side(sizebits));
      if rt != 0 && rt != t {
        rst := rt;
      }
      h := NextHunt(h, Side(sizebits) == RIGHT);
      if t == 0 {
        t := rst;
        h := h.(u := h.r, par := h.rpar, lo := h.rlo, w := h.rw);
        break;
      }
      sizebits := (2 * sizebits) % WORD;
    }
  }

  lemma HuntBest(m: Mem, b: map<int, int>, nb: int, i: int, t: int, k: int, v: int, rsize: int, rst: int, h: Hunt)
    requires Hunting(m, b, nb, i, t, k, v, rsize, rst, h)
    ensures Best(b, nb, v, rsize) && rsize != 0 && h.u.Node? && (v != 0 ==> b[v] < WORD)
  {
    hide Rd, ChunkSize, Linked, Members, TrieOk, Distinct;
    AllBelow(m, b, h, i);
  }

  // ---- tmalloc_large's search as a whole ----

  /** The tree of bin i as a subtree to be walked. */
  lemma BinHere(m: Mem, treemap: nat, trees: seq<Tree>, b: map<int, int>, i: nat)
    requires TreesOk(m, treemap, trees, b) && i < TREEBINS
    ensures Here(m, b, trees[i], TreebinAt(i), i, Lo(i), Width(i)) && Rd(m, TreebinAt(i)) == Adr(trees[i])
    ensures trees[i].Node? ==> Adr(trees[i]) != 0 && InThisBin(b, trees[i], i)
    ensures Bit(treemap, i) <==> trees[i].Node?
    ensures forall x :: x in b && TreeIndex(b[x]) == i ==> b[x] in Sizes(trees[i])
  {
    hide Rd, TreeIndex, Linked, Distinct, TrieOk, Members, ChunkSize, Bit, Sizes;
    assert BinOk(m, treemap, trees[i], i) && Holds(trees[i], i, b);
    assert Here(m, b, trees[i], TreebinAt(i), i, Lo(i), Width(i));
    if trees[i].Node? { HereNode(m, b, trees[i], TreebinAt(i), i, Lo(i), Width(i)); }
    forall x | x in b && TreeIndex(b[x]) == i ensures b[x] in Sizes(trees[i]) {
      MemberSize(m, trees[i], TreebinAt(i), i, x);
    }
  }

  /** All sizes of a bin above the request's fit. */
  lemma HigherBinFits(m: Mem, treemap: nat, trees: seq<Tree>, b: map<int, int>, nb: int, i: nat)
    requires TreesOk(m, treemap, trees, b) && MIN_LARGE <= nb < SIZE_LIMIT && TreeIndex(nb) < i < TREEBINS
    ensures forall s :: s in Sizes(trees[i]) ==> s >= nb
  {
    hide Rd, TreeIndex, Linked, Distinct, Members, ChunkSize, Bit, Sizes;
    assert BinOk(m, treemap, trees[i], i);
    SizesIn(trees[i], Lo(i), Width(i));
    SizeRange(nb);
    MinSizeMono(TreeIndex(nb) + 1, i);
    if i == 31 { LastBinSizes(m, treemap, trees, b); }
  }

  /** The last bin's range starts at 0 only formally: its chunks are of its size class. */
  lemma LastBinSizes(m: Mem, treemap: nat, trees: seq<Tree>, b: map<int, int>)
    requires TreesOk(m, treemap, trees, b)
    ensures forall s :: s in Sizes(trees[31]) ==> s >= MinSize(31)
  {
    hide Rd, TreeIndex, ChunkSize, Bit, MinSize;
    assert BinOk(m, treemap, trees[31], 31) && Holds(trees[31], 31, b);
    forall s | s in Sizes(trees[31]) ensures s >= MinSize(31) {
      var x := SizeMember(m, trees[31], TreebinAt(31), 31, s);
      SizeRange(b[x]);
      BinStart(TreeIndex(b[x]), b[x]);
    }
  }

  lemma BinStart(i: nat, s: nat)
    requires InBin(i, s)
    ensures MinSize(i) <= s
  {
  }

  lemma {:induction false} SizeMember(m: Mem, t: Tree, par: int, i: int, s: int) returns (x: int)
    requires Linked(m, t, par, i) && Distinct(t) && s in Sizes(t)
    ensures x in Members(t) && ChunkSize(Rd(m, x + HEAD)) == s
    decreases t
  {
    hide Rd, ChunkSize;
    Parts(t);
    if s == t.sz {
      x := Adr(t);
      assert Labeled(m, t.ring[0], t.sz, i);
    } else if s in Sizes(t.l) {
      x := SizeMember(m, t.l, Adr(t), i, s);
    } else {
      x := SizeMember(m, t.r, Adr(t), i, s);
    }
  }

  /** Bin j is the first non-empty one above i, in which nothing fits. */
  lemma NextBinCovers(m: Mem, treemap: nat, trees: seq<Tree>, b: map<int, int>, nb: int, i: nat, j: nat)
    requires TreesOk(m, treemap, trees, b) && MIN_LARGE <= nb < WORD && i == TreeIndex(nb) < j < TREEBINS
    requires forall x :: x in b && b[x] >= nb ==> TreeIndex(b[x]) > i
    requires Bit(treemap, j) && forall g: nat :: i < g < j ==> !Bit(treemap, g)
    ensures Covers(b, nb, 0, WORD - nb, trees[j]) && Fits(b, nb, 0, WORD - nb, trees[j])
  {
    hide Rd, TreeIndex, Linked, Distinct, Members, ChunkSize, Bit, Sizes;
    if nb >= SIZE_LIMIT {
      assert NoneFits(b, nb);
    } else {
      HigherBinFits(m, treemap, trees, b, nb, j);
      BinHere(m, treemap, trees, b, j);
      HereNode(m, b, trees[j], TreebinAt(j), j, Lo(j), Width(j));
      ThisBinNode(m, b, trees[j], TreebinAt(j), j, Lo(j), Width(j));
      assert trees[j].sz in Sizes(trees[j]) by { RootSize(trees[j]); }
      forall x | x in b && b[x] >= nb ensures b[x] in Sizes(trees[j]) || nb <= trees[j].sz <= b[x] {
        var g := TreeIndex(b[x]);
        TreeIndexBound(b[x]);
        BinHere(m, treemap, trees, b, g);
        assert Bit(treemap, g) by { NonEmpty(trees[g], b[x]); }
        if g > j { HigherBin(trees[j].sz, b[x]); }
      }
    }
  }

  lemma RootSize(t: Tree)
    requires t.Node?
    ensures t.sz in Sizes(t)
  {
  }

  lemma NonEmpty(t: Tree, s: int)
    requires s in Sizes(t)
    ensures t.Node?
  {
  }

  /** No marked bin above i: then nothing above it fits either. */
  lemma NoNextBin(m: Mem, treemap: nat, trees: seq<Tree>, b: map<int, int>, nb: int, i: nat)
    requires TreesOk(m, treemap, trees, b) && i < TREEBINS
    requires forall x :: x in b && b[x] >= nb ==> TreeIndex(b[x]) > i
    requires forall g: nat :: i < g < TREEBINS ==> !Bit(treemap, g)
    ensures NoneFits(b, nb)
  {
    hide Rd, TreeIndex, Linked, Distinct, Members, ChunkSize, Bit, Sizes;
    forall x | x in b ensures b[x] < nb {
      if b[x] >= nb {
        var g := TreeIndex(b[x]);
        TreeIndexBound(b[x]);
        BinHere(m, treemap, trees, b, g);
        NonEmpty(trees[g], b[x]);
      }
    }
  }

  /** An empty bin of the request: only higher bins can serve it. */
  lemma EmptyBin(m: Mem, treemap: nat, trees: seq<Tree>, b: map<int, int>, nb: int, i: nat)
    requires TreesOk(m, treemap, trees, b) && MIN_LARGE <= nb < WORD && i == TreeIndex(nb) < TREEBINS && trees[i].Nil?
    ensures forall x :: x in b && b[x] >= nb ==> TreeIndex(b[x]) > i
  {
    hide Rd, TreeIndex, Linked, Distinct, Members, ChunkSize, Bit;
    forall x | x in b && b[x] >= nb ensures TreeIndex(b[x]) > i {
      assert LargeChunk(m, x, b[x]);
      TreeIndexBound(b[x]);
      if TreeIndex(b[x]) < i {
        HigherBin(b[x], nb);
      } else if TreeIndex(b[x]) == i {
        BinHere(m, treemap, trees, b, i);
      }
    }
  }

  lemma TreesFacts(m: Mem, treemap: nat, trees: seq<Tree>, b: map<int, int>)
    requires TreesOk(m, treemap, trees, b)
    ensures |trees| == TREEBINS && treemap < MAP
    ensures forall x :: x in b ==> LargeChunk(m, x, b[x])
  {
  }

  /** The root of the next non-empty tree bin above i, 0 for none. */
  method NextBin(m: Mem, treemap: nat, nb: int, i: nat, ghost trees: seq<Tree>, ghost b: map<int, int>)
    returns (t: int, ghost u: Tree, ghost par: int, ghost j: int, ghost lo: int, ghost w: nat)
    requires TreesOk(m, treemap, trees, b) && MIN_LARGE <= nb < WORD && i == TreeIndex(nb) < TREEBINS
    requires forall x :: x in b && b[x] >= nb ==> TreeIndex(b[x]) > i
    ensures Here(m, b, u, par, j, lo, w) && t == Adr(u)
    ensures Covers(b, nb, 0, WORD - nb, u) && Fits(b, nb, 0, WORD - nb, u)
  {
    hide Rd, TreesOk, TreeIndex, Bit, And, LeftBits, Bit2Idx, LeastBit, Here;
    TreesFacts(m, treemap, trees, b);
    var leftbits := And(LeftBits(Idx2Bit(i)), treemap);
    forall g: nat | g < 32 ensures Bit(leftbits, g) <==> i < g && Bit(treemap, g) { LeftBitsOf(treemap, i, g); }
    if leftbits != 0 {
      LeastIndex(leftbits);
      var k := Bit2Idx(LeastBit(leftbits));
      NextBinCovers(m, treemap, trees, b, nb, i, k);
      BinHere(m, treemap, trees, b, k);
      t := Rd(m, TreebinAt(k));
      u, par, j, lo, w := trees[k], TreebinAt(k), k, Lo(k), Width(k);
    } else {
      forall g: nat | i < g < TREEBINS ensures !Bit(treemap, g) { NoBitsOfZero(g); }
      NoNextBin(m, treemap, trees, b, nb, i);
      NilHere(m, b, 0);
      t, u, par, j, lo, w := 0, Nil, 0, 0, 0, 0;
    }
  }

  /** The search of tmalloc_large: a smallest tree-binned chunk that holds nb bytes, 0 if there is none. */
  method BestFit(m: Mem, treemap: nat, nb: int, ghost trees: seq<Tree>, ghost b: map<int, int>)
    returns (v: int, rsize: int)
    requires TreesOk(m, treemap, trees, b) && MIN_LARGE <= nb < WORD
    ensures Best(b, nb, v, rsize) && Standing(m, v)
    ensures forall x :: x in b && b[x] >= nb ==> AtMost(nb, v, rsize, b[x])
  {
    var idx := TreeIndex(nb);
    TreeIndexBound(nb);
    hide Rd, TreesOk, TreeIndex, Here, Fits, Bit;
    TreesFacts(m, treemap, trees, b);
    BinHere(m, treemap, trees, b, idx);
    var t := Rd(m, TreebinAt(idx));
    v, rsize := 0, WORD - nb;
    ghost var u, par, i, lo, w := trees[idx], TreebinAt(idx), idx as int, Lo(idx), Width(idx);
    if t != 0 {
      ghost var h;
      t, v, rsize, h := SearchBin(m, nb, idx, treemap, trees, b);
      u, par, lo, w := h.u, h.par, h.lo, h.w;
    } else {
      EmptyBin(m, treemap, trees, b, nb, idx);
    }
    if t == 0 && v == 0 {
      t, u, par, i, lo, w := NextBin(m, treemap, nb, idx, trees, b);
    }
    v, rsize := Leftmost(m, t, v, rsize, nb, b, u, par, i, lo, w);
  }

  /** The search of tmalloc_small: a smallest of all tree-binned chunks. */
  method SmallestTree(m: Mem, treemap: nat, nb: int, ghost trees: seq<Tree>, ghost b: map<int, int>)
    returns (v: int, rsize: int)
    requires TreesOk(m, treemap, trees, b) && 0 < nb < MIN_LARGE && treemap != 0
    ensures v in b && rsize == b[v] - nb && Standing(m, v)
    ensures forall x :: x in b ==> b[v] <= b[x]
  {
    hide Rd, TreesOk, TreeIndex, Here, Bit, Bit2Idx, LeastBit, ChunkSize, Covers, Fits, InThisBin, Sizes;
    TreesFacts(m, treemap, trees, b);
    LeastIndexBounded(treemap);
    var i := Bit2Idx(LeastBit(treemap));
    BinHere(m, treemap, trees, b, i);
    var t := Rd(m, TreebinAt(i));
    HereNode(m, b, trees[i], TreebinAt(i), i, Lo(i), Width(i));
    v := t;
    rsize := Sub64(ChunkSize(Rd(m, t + HEAD)), nb);
    LeastBinCovers(m, treemap, trees, b, nb, i, v, rsize);
    v, rsize := Leftmost(m, t, v, rsize, nb, b, trees[i], TreebinAt(i), i, Lo(i), Width(i));
    assert forall x :: x in b ==> AtMost(nb, v, rsize, b[x]);
  }

  lemma LeastIndexBounded(x: nat)
    requires 0 < x < MAP
    ensures LeastBit(x) > 0
    ensures Bit2Idx(LeastBit(x)) < TREEBINS && Bit(x, Bit2Idx(LeastBit(x)))
    ensures forall j: nat :: j < Bit2Idx(LeastBit(x)) ==> !Bit(x, j)
  {
    LeastIndex(x);
  }

  lemma LeastBinCovers(m: Mem, treemap: nat, trees: seq<Tree>, b: map<int, int>, nb: int, i: nat, v: int, rsize: int)
    requires TreesOk(m, treemap, trees, b) && 0 < nb < MIN_LARGE && i < TREEBINS
    requires Bit(treemap, i) && forall g: nat :: g < i ==> !Bit(treemap, g)
    requires trees[i].Node? && v != 0 && v == Adr(trees[i]) && v in b && b[v] == trees[i].sz && rsize == b[v] - nb
    ensures Covers(b, nb, v, rsize, trees[i]) && Fits(b, nb, v, rsize, trees[i])
  {
    hide Rd, TreeIndex, Linked, Distinct, Members, ChunkSize, Bit, Sizes;
    BinHere(m, treemap, trees, b, i);
    ThisBinNode(m, b, trees[i], TreebinAt(i), i, Lo(i), Width(i));
    forall x | x in b ensures b[x] in Sizes(trees[i]) || AtMost(nb, v, rsize, b[x]) {
      var g := TreeIndex(b[x]);
      TreeIndexBound(b[x]);
      BinHere(m, treemap, trees, b, g);
      NonEmpty(trees[g], b[x]);
      if g > i { HigherBin(trees[i].sz, b[x]); }
    }
    forall s | s in Sizes(trees[i]) ensures s >= nb {
      assert BinOk(m, treemap, trees[i], i);
      var x := SizeMember(m, trees[i], TreebinAt(i), i, s);
      assert Holds(trees[i], i, b) && LargeChunk(m, x, b[x]);
    }
  }
}
