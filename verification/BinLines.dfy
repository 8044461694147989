/** The bins of both kinds as one line of chunks for each size, in the order in which malloc uses them. */
module BinLines {
  import opened Words
  import opened BinIndex
  import opened Chunk
  import opened Trie
  import opened TrieEdit
  import opened TreeBins
  import opened TreeUnlink
  import opened TreeSearch
  import opened SmallBins
  import opened BinOrder

  ghost predicate ChunkSizes(z: int) { MIN_CHUNK <= z < SIZE_LIMIT && z % 16 == 0 }

  /** The binned chunks of size z. The first one is used next. */
  ghost function Line(small: seq<seq<int>>, trees: seq<Tree>, z: int): seq<int>
    requires |small| == BINS && |trees| == TREEBINS && ChunkSizes(z)
  {
    if z < MIN_LARGE then small[z / 8]
    else
      SizeRange(z);
      QueueOf(trees[TreeIndex(z)], z)
  }

  /** Chunk x of size s joined its line: at the front if it is small, at the end if it is large. */
  ghost predicate Joined(small: seq<seq<int>>, trees: seq<Tree>, small': seq<seq<int>>, trees': seq<Tree>, x: int,
                         s: int) {
    && |small| == |small'| == BINS && |trees| == |trees'| == TREEBINS && ChunkSizes(s)
    && forall z :: ChunkSizes(z) ==>
         Line(small', trees', z) == if z != s then Line(small, trees, z)
                                    else if s < MIN_LARGE then [x] + Line(small, trees, z)
                                    else Line(small, trees, z) + [x]
  }

  /** Chunk x of size s left its line, in which the others keep their order. */
  ghost predicate Left(small: seq<seq<int>>, trees: seq<Tree>, small': seq<seq<int>>, trees': seq<Tree>, x: int,
                       s: int) {
    && |small| == |small'| == BINS && |trees| == |trees'| == TREEBINS && ChunkSizes(s)
    && forall z :: ChunkSizes(z) ==>
         Line(small', trees', z) == if z == s then Drop(Line(small, trees, z), x) else Line(small, trees, z)
  }

  /** Chunk x is the first in the line of its size. */
  ghost predicate FirstInLine(small: seq<seq<int>>, trees: seq<Tree>, x: int, s: int) {
    && |small| == BINS && |trees| == TREEBINS && ChunkSizes(s)
    && |Line(small, trees, s)| > 0 && Line(small, trees, s)[0] == x
  }

  lemma SmallPlaces(z: int, s: int)
    requires ChunkSizes(z) && ChunkSizes(s) && z < MIN_LARGE && s < MIN_LARGE
    ensures 0 <= z / 8 < BINS && (z / 8 == s / 8 <==> z == s)
  {
  }

  lemma SmallJoins(small: seq<seq<int>>, trees: seq<Tree>, x: int, s: int)
    requires |small| == BINS && |trees| == TREEBINS && ChunkSizes(s) && s < MIN_LARGE
    ensures Joined(small, trees, small[s / 8 := [x] + small[s / 8]], trees, x, s)
  {
    hide QueueOf;
    forall z | ChunkSizes(z) && z < MIN_LARGE ensures 0 <= z / 8 < BINS && (z / 8 == s / 8 <==> z == s) {
      SmallPlaces(z, s);
    }
  }

  lemma SmallLeaves(small: seq<seq<int>>, trees: seq<Tree>, x: int, s: int)
    requires |small| == BINS && |trees| == TREEBINS && ChunkSizes(s) && s < MIN_LARGE
    ensures Left(small, trees, small[s / 8 := Drop(small[s / 8], x)], trees, x, s)
  {
    hide QueueOf;
    forall z | ChunkSizes(z) && z < MIN_LARGE ensures 0 <= z / 8 < BINS && (z / 8 == s / 8 <==> z == s) {
      SmallPlaces(z, s);
    }
  }

  lemma FirstLeaves(small: seq<seq<int>>, trees: seq<Tree>, i: nat)
    requires |small| == BINS && |trees| == TREEBINS && i < BINS && ChunkSizes(8 * i) && |small[i]| > 0
    ensures FirstInLine(small, trees, small[i][0], 8 * i)
    ensures Left(small, trees, small[i := small[i][1..]], trees, small[i][0], 8 * i)
  {
    SmallLeaves(small, trees, small[i][0], 8 * i);
  }

  lemma LargeJoins(m: Mem, treemap: nat, small: seq<seq<int>>, trees: seq<Tree>, b: map<int, int>, x: int, s: int)
    requires |small| == BINS && TreesOk(m, treemap, trees, b) && ChunkSizes(s) && s >= MIN_LARGE
    ensures TreeIndex(s) < TREEBINS && Joined(small, trees, small, Inserted(trees, x, s), x, s)
  {
    hide TreesOk, TreeIndex, QueueOf, Insert;
    SizeRange(s);
    var i := TreeIndex(s);
    TreeShape(m, treemap, trees, b, i);
    forall z | ChunkSizes(z) && z >= MIN_LARGE
      ensures TreeIndex(z) < TREEBINS
      ensures QueueOf(Inserted(trees, x, s)[TreeIndex(z)], z) ==
              if z == s then QueueOf(trees[TreeIndex(z)], z) + [x] else QueueOf(trees[TreeIndex(z)], z)
    {
      SizeRange(z);
      InsertQueue(trees[i], x, s, Lo(i), Width(i), z);
    }
  }

  lemma LargeLeaves(m: Mem, treemap: nat, small: seq<seq<int>>, trees: seq<Tree>, b: map<int, int>, x: int)
    requires |small| == BINS && TreesOk(m, treemap, trees, b) && x in b && ChunkSizes(b[x])
    requires TreeIndex(b[x]) < TREEBINS && trees[TreeIndex(b[x])].Node?
    ensures Left(small, trees, small, Removed(trees, x, b[x]), x, b[x])
  {
    hide TreesOk, TreeIndex, QueueOf, Remove;
    var s := b[x];
    TreesFacts(m, treemap, trees, b);
    SizeRange(s);
    var i := TreeIndex(s);
    TreeShape(m, treemap, trees, b, i);
    StandsAt(m, treemap, trees, b, x);
    forall z | ChunkSizes(z) && z >= MIN_LARGE
      ensures TreeIndex(z) < TREEBINS
      ensures QueueOf(Removed(trees, x, s)[TreeIndex(z)], z) ==
              if z == s then Drop(QueueOf(trees[TreeIndex(z)], z), x) else QueueOf(trees[TreeIndex(z)], z)
    {
      SizeRange(z);
      RemoveQueue(trees[i], x, s, Lo(i), Width(i), z);
    }
  }

  lemma TreeShape(m: Mem, treemap: nat, trees: seq<Tree>, b: map<int, int>, i: nat)
    requires TreesOk(m, treemap, trees, b) && i < TREEBINS
    ensures |trees| == TREEBINS && TrieOk(trees[i], Lo(i), Width(i)) && Distinct(trees[i])
  {
    assert BinOk(m, treemap, trees[i], i);
  }

  lemma StandsAt(m: Mem, treemap: nat, trees: seq<Tree>, b: map<int, int>, x: int)
    requires TreesOk(m, treemap, trees, b) && x in b
    ensures |trees| == TREEBINS && 0 <= b[x] && TreeIndex(b[x]) < TREEBINS && trees[TreeIndex(b[x])].Node?
    ensures var i := TreeIndex(b[x]); var f := Find(trees[i], b[x], Lo(i), Width(i));
            f.sz == b[x] && x in f.ring && (Standing(m, x) && x != 0 ==> f.ring[0] == x)
  {
    hide TreesOk, TreeIndex, Find;
    var p := Locate(m, treemap, trees, b, x);
    var k := RingIndex(m, treemap, trees, b, x, p);
    assert p.f == Find(p.t, b[x], Lo(p.i), Width(p.i));
  }

  /** The chunk that stands in the tree is the first in its line. */
  lemma StandingFirst(m: Mem, treemap: nat, small: seq<seq<int>>, trees: seq<Tree>, b: map<int, int>, x: int)
    requires |small| == BINS && TreesOk(m, treemap, trees, b) && x in b && ChunkSizes(b[x]) && Standing(m, x) && x != 0
    ensures FirstInLine(small, trees, x, b[x])
  {
    hide TreesOk, TreeIndex, Find, TrieOk, Distinct;
    var s := b[x];
    TreesFacts(m, treemap, trees, b);
    SizeRange(s);
    var i := TreeIndex(s);
    TreeShape(m, treemap, trees, b, i);
    StandsAt(m, treemap, trees, b, x);
    FindQueue(trees[i], s, Lo(i), Width(i));
  }
}
