/** Fork of a fork: what a shared page becomes in a grandchild. */
module Generations {
  import opened Words
  import opened PageTable
  import opened Paging
  import opened HeapGrowth
  import opened Fork
  import opened Teardown

  /** The copy of a shared page is no longer marked as shared: no user page of a child is. */
  lemma ChildUnshared(j: Job, m: Mem, pool0: seq<int>, pool: seq<int>, owner0: Owner, owner: Owner,
                      users: set<seq<int>>, copies: map<seq<int>, int>, v: seq<int>)
    requires Doubled(j, m, pool0, pool, owner0, owner, users, copies) && UserPage(TargetNow(j, m, owner), v)
    ensures UserPage(j, v) && !Shared(Leaf(m, j.dst, v))
  {
    hide Rd, Leaf, Plain, Shape, UpperStays, Present, User, Large, Shared, Addr, LeafFor, Frame, FramesKept, PoolOk,
         NoSharedUserTables, Intact, CopyOf;
    TargetUsers(j, m, pool0, pool, owner0, owner, users, copies, v);
    SoundFacts(j, v);
    AddrIsFrame(Leaf(j.m, j.src, v));
    assert v in users;
    UserEntry(if Shared(Leaf(j.m, j.src, v)) then SourceFrame(j, v) else copies[v]);
  }

  /**
    A duplication of the child gives every page a frame of its own, with the child's contents. So a page that parent and
    child share is shared with no grandchild.
   */
  lemma Grandchild(j: Job, m: Mem, pool0: seq<int>, pool: seq<int>, owner0: Owner, owner: Owner, users: set<seq<int>>,
                   copies: map<seq<int>, int>, dst: int, n: Mem, rest: seq<int>, owner': Owner, users': set<seq<int>>,
                   copies': map<seq<int>, int>, v: seq<int>)
    requires Doubled(j, m, pool0, pool, owner0, owner, users, copies) && UserPage(j, v)
    requires var k := Job(m, j.dst, owner, dst);
             Dup(k, n, rest, owner', users', copies') && Sound(k) && Users(k, users')
    ensures Path(v) && Leaf(n, j.dst, v) == Leaf(m, j.dst, v) && Addr(Leaf(n, dst, v)) != Addr(Leaf(n, j.dst, v))
    ensures forall i :: 0 <= i < 512 ==>
              Rd(n, Slot(Addr(Leaf(n, dst, v)), i)) == Rd(m, Slot(Addr(Leaf(m, j.dst, v)), i))
    ensures Shared(Leaf(j.m, j.src, v)) ==> Addr(Leaf(n, dst, v)) != SourceFrame(j, v)
  {
    hide Doubled, Dup, Sound, Users, UserLeaf, Plain, Leaf, Addr, Shared, Rd, Present, User;
    var k := Job(m, j.dst, owner, dst);
    TargetUsers(j, m, pool0, pool, owner0, owner, users, copies, v);
    ChildUnshared(j, m, pool0, pool, owner0, owner, users, copies, v);
    TargetFrame(j, m, pool0, pool, owner0, owner, users, copies, v, v);
    DuplicateMeans(k, n, rest, owner', users', copies', v);
  }
}
