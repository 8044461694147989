/** Linking a chunk into a circular list and unlinking it, on the word store. */
module Rings {
  import opened Words
  import opened Chunk
  import opened Trie
  import opened TrieEdit

  function Pred(s: seq<int>, k: int): int
    requires 0 <= k < |s|
  {
    if k > 0 then s[k - 1] else s[|s| - 1]
  }

  lemma RingPred(m: Mem, s: seq<int>, k: int)
    requires Ring(m, s) && 0 <= k < |s|
    ensures Rd(m, s[k] + FD) == Succ(s, k) && Rd(m, s[k] + BK) == Pred(s, k)
    ensures Rd(m, Succ(s, k) + BK) == s[k] && Rd(m, Pred(s, k) + FD) == s[k]
  {
    var j := if k > 0 then k - 1 else |s| - 1;
    assert LinkAt(m, s, k) && LinkAt(m, s, j);
    assert Succ(s, j) == s[k];
  }

  /** What the four stores of an insertion after s[0] leave behind. */
  ghost predicate InsertedAfterHead(m: Mem, n: Mem, s: seq<int>, x: int)
    requires s != []
  {
    && Rd(n, s[0] + FD) == x && Rd(n, x + BK) == s[0]
    && Rd(n, x + FD) == Succ(s, 0) && Rd(n, Succ(s, 0) + BK) == x
    && (forall k :: 1 <= k < |s| ==> Rd(n, s[k] + FD) == Rd(m, s[k] + FD))
    && (forall k :: 0 <= k < |s| && s[k] != Succ(s, 0) ==> Rd(n, s[k] + BK) == Rd(m, s[k] + BK))
  }

  lemma RingInsert(m: Mem, n: Mem, s: seq<int>, x: int)
    requires s != [] && NoDup(s) && Ring(m, s) && InsertedAfterHead(m, n, s, x)
    ensures Ring(n, [s[0], x] + s[1..])
  {
    hide Rd;
    var q := [s[0], x] + s[1..];
    forall k | 0 <= k < |q| ensures LinkAt(n, q, k) {
      if k >= 2 {
        assert LinkAt(m, s, k - 1);
        assert q[k] == s[k - 1];
        assert Succ(q, k) == Succ(s, k - 1);
      } else if k == 1 {
        assert Succ(q, 1) == Succ(s, 0);
      }
    }
  }

  /** What the two stores of an unlink leave behind. */
  ghost predicate UnlinkedAt(m: Mem, n: Mem, s: seq<int>, k: int)
    requires 0 <= k < |s|
  {
    && Rd(n, Succ(s, k) + BK) == Pred(s, k) && Rd(n, Pred(s, k) + FD) == Succ(s, k)
    && (forall j :: 0 <= j < |s| && j != k && s[j] != Pred(s, k) ==> Rd(n, s[j] + FD) == Rd(m, s[j] + FD))
    && (forall j :: 0 <= j < |s| && j != k && s[j] != Succ(s, k) ==> Rd(n, s[j] + BK) == Rd(m, s[j] + BK))
  }

  lemma RingRemove(m: Mem, n: Mem, s: seq<int>, k: int)
    requires |s| > 1 && NoDup(s) && Ring(m, s) && 0 <= k < |s| && UnlinkedAt(m, n, s, k)
    ensures Ring(n, s[..k] + s[k + 1..])
  {
    hide Rd;
    var q := s[..k] + s[k + 1..];
    forall j | 0 <= j < |q| ensures LinkAt(n, q, j) {
      var i := if j < k then j else j + 1;
      assert LinkAt(m, s, i);
      assert q[j] == s[i];
      var i' := if i + 1 < |s| then i + 1 else 0;
      assert Succ(s, i) == s[i'];
      if i' == k {
        assert Pred(s, k) == s[i];
        assert Succ(q, j) == Succ(s, k);
      } else {
        assert Succ(q, j) == s[i'];
        assert s[i] != Pred(s, k) && s[i'] != Succ(s, k);
      }
    }
  }

  /** A ring may be read from any of its elements. */
  lemma RingRotate(m: Mem, s: seq<int>)
    requires s != [] && Ring(m, s)
    ensures Ring(m, [s[|s| - 1]] + s[..|s| - 1])
  {
    hide Rd;
    var q := [s[|s| - 1]] + s[..|s| - 1];
    forall j | 0 <= j < |q| ensures LinkAt(m, q, j) {
      var i := if j == 0 then |s| - 1 else j - 1;
      assert LinkAt(m, s, i);
      assert q[j] == s[i] && Succ(q, j) == Succ(s, i);
    }
  }

  lemma {:induction false} DropAt(s: seq<int>, k: int)
    requires NoDup(s) && 0 <= k < |s|
    ensures Drop(s, s[k]) == s[..k] + s[k + 1..]
  {
    if k == 0 {
      assert s[..0] + s[1..] == s[1..];
    } else {
      DropAt(s[1..], k - 1);
      assert s[1..][..k - 1] == s[1..k] && s[1..][k..] == s[k + 1..];
      assert [s[0]] + s[1..k] == s[..k];
      calc {
        Drop(s, s[k]);
        [s[0]] + Drop(s[1..], s[1..][k - 1]);
        [s[0]] + (s[1..k] + s[k + 1..]);
        s[..k] + s[k + 1..];
      }
    }
  }

  /** Unlinking x leaves the ring in the order in which it is then read from its first member. */
  lemma RingWithoutLinked(m: Mem, n: Mem, s: seq<int>, k: int)
    requires |s| > 1 && NoDup(s) && Ring(m, s) && 0 <= k < |s| && UnlinkedAt(m, n, s, k)
    ensures Ring(n, RingWithout(s, s[k]))
  {
    RingRemove(m, n, s, k);
    if k == 0 {
      assert s[..0] + s[1..] == s[1..];
      RingRotate(n, s[1..]);
      assert s[1..][..|s| - 2] == s[1..|s| - 1];
    } else {
      DropAt(s, k);
    }
  }

  /** The two stores F->bk = B and B->fd = F. */
  ghost function UnlinkStores(m: Mem, fd: int, bk: int): Mem { m[fd + BK := bk][bk + FD := fd] }

  lemma UnlinkStoresRd(m: Mem, fd: int, bk: int, a: int)
    ensures a != fd + BK && a != bk + FD ==> Rd(UnlinkStores(m, fd, bk), a) == Rd(m, a)
    ensures Rd(UnlinkStores(m, fd, bk), bk + FD) == fd
    ensures fd + BK != bk + FD ==> Rd(UnlinkStores(m, fd, bk), fd + BK) == bk
  {
  }
}
