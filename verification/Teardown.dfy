/** Releasing the user half of an address space: PageDirectoryFree. */
module Teardown {
  import opened Words
  import opened PageTable
  import opened Paging
  import opened HeapGrowth
  import opened Fork

  /** The frames of the given pages, in order. */
  ghost function FramesOf(j: Job, order: seq<seq<int>>): seq<int>
    requires forall k :: 0 <= k < |order| ==> Path(order[k])
  {
    seq(|order|, k requires 0 <= k < |order| => SourceFrame(j, order[k]))
  }

  /** Page u still translates as it did, or, if done, not at all. */
  ghost predicate PageNow(j: Job, m: Mem, done: set<seq<int>>, u: seq<int>)
    requires Path(u)
  {
    && Plain(m, j.src, u) && TableAt(m, j.src, u, 3) == TableAt(j.m, j.src, u, 3)
    && Leaf(m, j.src, u) == if u in done then 0 else Leaf(j.m, j.src, u)
  }

  ghost predicate UpperSame(j: Job, m: Mem) {
    forall f, i :: f in j.owner && |j.owner[f]| < 3 && 0 <= i < 512 ==> Rd(m, Slot(f, i)) == Rd(j.m, Slot(f, i))
  }

  ghost predicate Listed(j: Job, order: seq<seq<int>>, done: set<seq<int>>) {
    && (forall k :: 0 <= k < |order| ==> order[k] in done)
    && (forall u :: u in done ==> u in order && UserPage(j, u))
    && (forall k, l :: 0 <= k < l < |order| ==> order[k] != order[l])
  }

  /** The pages of done have been unmapped and their frames released, in this order. */
  ghost predicate Torn(j: Job, m: Mem, pool0: seq<int>, pool: seq<int>, done: set<seq<int>>, order: seq<seq<int>>) {
    && Shape(m, j.src, j.owner) && UpperSame(j, m) && Listed(j, order, done)
    && (forall u :: Path(u) && Plain(j.m, j.src, u) ==> PageNow(j, m, done, u))
    && SameOutside(j.m, m, j.owner.Keys)
    && (forall k :: 0 <= k < |order| ==> Path(order[k])) && pool == pool0 + FramesOf(j, order)
  }

  lemma TearStart(j: Job, pool: seq<int>)
    requires Shape(j.m, j.src, j.owner)
    ensures Torn(j, j.m, pool, pool, {}, [])
  {
    hide Shape, Plain, Leaf, TableAt, UserPage;
    assert pool == pool + FramesOf(j, []);
  }

  lemma TearStep(j: Job, m: Mem, pool0: seq<int>, pool: seq<int>, done: set<seq<int>>, order: seq<seq<int>>,
                 u: seq<int>, t: int)
    requires Torn(j, m, pool0, pool, done, order) && Shape(j.m, j.src, j.owner) && UserPage(j, u) && u !in done
    requires t == TableAt(j.m, j.src, u, 3) && t != NONE
    ensures Torn(j, m[Slot(t, u[3]) := 0], pool0, pool + [SourceFrame(j, u)], done + {u}, order + [u])
  {
    hide Shape, Plain, Leaf, TableAt, UserLeaf, Addr, Frame, Path;
    UserPath(j, u);
    PathLength(u);
    PathBounds(u);
    var n := m[Slot(t, u[3]) := 0];
    assert PageNow(j, m, done, u);
    LeafSet(m, j.src, j.owner, u, 0);
    Located(m, j.src, j.owner, u, 3);
    forall v | Path(v) && Plain(j.m, j.src, v) ensures PageNow(j, n, done + {u}, v) {
      assert PageNow(j, m, done, v);
      if v != u { OtherLeaf(m, j.src, j.owner, u, 0, v); OtherTable(m, j.src, j.owner, u, 0, v); }
    }
    TablesAreFrames(m, j.src, j.owner);
    assert UpperSame(j, n) by { UpperKept(j, m, t, u[3]); }
    assert SameOutside(j.m, n, j.owner.Keys) by { InPage(t, u[3]); OwnedWord(j, m, t, u[3]); }
    assert forall k :: 0 <= k < |order + [u]| ==> Path((order + [u])[k]);
    assert FramesOf(j, order + [u]) == FramesOf(j, order) + [SourceFrame(j, u)];
    forall v | v in done + {u} ensures v in order + [u] && UserPage(j, v) {
      if v == u { assert (order + [u])[|order|] == u; } else { assert v in order; }
    }
  }

  lemma OtherTable(m: Mem, root: int, owner: Owner, v: seq<int>, e: int, u: seq<int>)
    requires Shape(m, root, owner) && Path(v) && Plain(m, root, v) && TableAt(m, root, v, 3) != NONE && Path(u)
    requires Plain(m, root, u) && u != v
    ensures TableAt(m[Slot(TableAt(m, root, v, 3), v[3]) := e], root, u, 3) == TableAt(m, root, u, 3)
  {
    var t := TableAt(m, root, v, 3);
    Located(m, root, owner, v, 3);
    LeafShape(m, root, owner, t, v[3], e);
    hide Rd, Shape, Plain, TableAt, AgreeSlots;
    WalkKept(m, m[Slot(t, v[3]) := e], root, owner, u, 3, t, v[3]);
  }

  lemma UpperKept(j: Job, m: Mem, t: int, i: int)
    requires UpperSame(j, m) && t in j.owner && |j.owner[t]| == 3 && 0 <= i < 512 && forall f ::
        f in j.owner ==> Frame(f)
    ensures UpperSame(j, m[Slot(t, i) := 0])
  {
    forall f, k | f in j.owner && |j.owner[f]| < 3 && 0 <= k < 512
        ensures Rd(m[Slot(t, i) := 0], Slot(f, k)) == Rd(j.m, Slot(f, k)) {
      if Slot(f, k) == Slot(t, i) { SlotUnique(f, k, t, i); }
    }
  }

  lemma OwnedWord(j: Job, m: Mem, t: int, i: int)
    requires SameOutside(j.m, m, j.owner.Keys) && t in j.owner && 0 <= i < 512
    ensures SameOutside(j.m, m[Slot(t, i) := 0], j.owner.Keys)
  {
    forall w | Outside(j.owner.Keys, w) ensures Rd(m[Slot(t, i) := 0], w) == Rd(j.m, w) {
      assert t in j.owner.Keys;
      InPage(t, i);
    }
  }

  lemma UpperSlot(j: Job, m: Mem, pool0: seq<int>, pool: seq<int>, done: set<seq<int>>, order: seq<seq<int>>, t: int,
                  i: int)
    requires Torn(j, m, pool0, pool, done, order) && t in j.owner && |j.owner[t]| < 3 && 0 <= i < 512
    ensures Rd(m, Slot(t, i)) == Rd(j.m, Slot(t, i))
  {
    hide Rd, Shape, Plain, Leaf, Listed;
  }

  lemma LeafSlot(j: Job, m: Mem, pool0: seq<int>, pool: seq<int>, done: set<seq<int>>, order: seq<seq<int>>, t: int,
                 q: seq<int>, i: int)
    requires Torn(j, m, pool0, pool, done, order) && AtTable(j, t, q) && |q| == 3 && 0 <= i < 512 && q + [i] !in done
    ensures Path(q + [i]) && TableAt(j.m, j.src, q + [i], 3) == t && t != NONE && (q + [i])[3] == i
    ensures Rd(m, Slot(t, i)) == Rd(j.m, Slot(t, i)) == Leaf(j.m, j.src, q + [i])
  {
    hide Rd, Shape, Listed, TableAt;
    var u := q + [i];
    assert u[..3] == q;
    AtLeaf(j, t, q, i);
    assert Reaches(j, u, 3, t);
    assert PageNow(j, m, done, u);
  }

  /** The loops of PageDirectoryFree below table t. */
  method FreeTable(machine: Machine, ghost j: Job, t: int, ghost q: seq<int>, level: nat, ghost pool0: seq<int>,
                   ghost done: set<seq<int>>, ghost order: seq<seq<int>>, ghost users: set<seq<int>>)
    returns (ghost order': seq<seq<int>>)
    requires Torn(j, machine.mem, pool0, machine.pool, done, order) && Shape(j.m, j.src, j.owner) && Users(j, users)
    requires AtTable(j, t, q) && t in j.owner && j.owner[t] == q && |q| <= 3 && level == 4 - |q|
    requires Under(users, q) !! done
    modifies machine
    ensures Torn(j, machine.mem, pool0, machine.pool, done + Under(users, q), order')
    decreases level
  {
    hide Torn, AtTable, UserPage, Rd, Present, Large, User, Addr, Users, Upto, Under, Shape, Leaf, TableAt;
    order' := order;
    UptoAll(j, users, q);
    UnderIs(users, q);
    assert done + {} == done;
    for i := 0 to 512
      invariant Torn(j, machine.mem, pool0, machine.pool, done + Upto(users, q, i), order')
    {
      UptoStep(j, users, q, i);
      UnderIs(users, q + [i]);
      UnderBudget(j, users, q, i, done);
      ghost var sofar := done + Upto(users, q, i);
      assert done + Upto(users, q, i + 1) == sofar + Under(users, q + [i]);
      var e := Rd(machine.mem, Slot(t, i));
      if level > 1 {
        UpperSlot(j, machine.mem, pool0, machine.pool, sofar, order', t, i);
        AtSlot(j, t, q, i);
        if Present(e) && !Large(e) {
          order' := FreeTable(machine, j, Addr(e), q + [i], level - 1, pool0, sofar, order', users);
        } else {
          NoUsers(j, users, q + [i]);
        }
      } else {
        AtLeaf(j, t, q, i);
        OnlyUser(j, users, q, i);
        OnlyUsersDone(j, machine.mem, pool0, machine.pool, sofar, order', q + [i]);
        LeafSlot(j, machine.mem, pool0, machine.pool, sofar, order', t, q, i);
        if Present(e) && !Large(e) && User(e) {
          TearStep(j, machine.mem, pool0, machine.pool, sofar, order', q + [i], t);
          machine.pool := machine.pool + [Addr(e)];
          machine.mem := machine.mem[Slot(t, i) := 0];
          order' := order' + [q + [i]];
        }
      }
    }
  }

  lemma OnlyUsersDone(j: Job, m: Mem, pool0: seq<int>, pool: seq<int>, done: set<seq<int>>, order: seq<seq<int>>,
                      u: seq<int>)
    requires Torn(j, m, pool0, pool, done, order)
    ensures u in done ==> UserPage(j, u)
  {
    hide Shape, Plain, Leaf, UserLeaf;
  }

  /** PageDirectoryFree */
  method Free(machine: Machine, root: int, ghost owner: Owner, ghost users: set<seq<int>>)
    returns (ghost order: seq<seq<int>>)
    requires Shape(machine.mem, root, owner) && root != NONE && Users(Job(machine.mem, root, owner, root), users)
    modifies machine
    ensures Torn(Job(old(machine.mem), root, owner, root), machine.mem, old(machine.pool), machine.pool, users, order)
  {
    hide Torn, Users, AtTable;
    ghost var j := Job(machine.mem, root, owner, root);
    TearStart(j, machine.pool);
    AtRoot(j);
    assert Under(users, []) == users;
    order := FreeTable(machine, j, root, [], 4, machine.pool, {}, [], users);
    assert {} + users == users;
  }

  /** What PageDirectoryFree amounts to: no user page is left, and every other page translates as before. */
  lemma FreeMeans(j: Job, m: Mem, pool0: seq<int>, pool: seq<int>, users: set<seq<int>>, order: seq<seq<int>>,
                  u: seq<int>)
    requires Torn(j, m, pool0, pool, users, order) && Users(j, users) && Path(u) && Plain(j.m, j.src, u)
    ensures if UserPage(j, u) then Leaf(m, j.src, u) == 0 else Leaf(m, j.src, u) == Leaf(j.m, j.src, u)
    ensures !UserLeaf(Leaf(m, j.src, u))
    ensures var e := Leaf(j.m, j.src, u);
            Leaf(m, j.src, u) == if Flag(e, 0) && Flag(e, 2) && !Flag(e, 7) then 0 else e
  {
    hide Shape, Plain, Leaf, TableAt, Rd, Flag;
    UserFlags(j, u);
    assert PageNow(j, m, users, u);
  }

  ghost predicate AllDistinct(s: seq<int>) { forall k, l :: 0 <= k < l < |s| ==> s[k] != s[l] }

  /**
    Each frame is released once for every user page that maps it: exactly once if and only if no two pages share a
    frame.
   */
  lemma FreedOnceIff(j: Job, m: Mem, pool0: seq<int>, pool: seq<int>, users: set<seq<int>>, order: seq<seq<int>>)
    requires Torn(j, m, pool0, pool, users, order) && Users(j, users)
    ensures |pool| == |pool0| + |users| && pool[..|pool0|] == pool0
    ensures AllDistinct(pool[|pool0|..]) <==>
            forall u, v :: UserPage(j, u) && UserPage(j, v) && u != v ==> SourceFrame(j, u) != SourceFrame(j, v)
  {
    hide Shape, Plain, Leaf, TableAt, Rd, UserLeaf, Addr, PageNow, UpperSame, SameOutside, AllDistinct, Listed;
    assert Listed(j, order, users) && pool == pool0 + FramesOf(j, order);
    ListedOrder(j, order, users);
    OrderSize(order, users);
    assert pool[|pool0|..] == FramesOf(j, order);
    var frame := map u | u in users :: SourceFrame(j, u);
    DistinctIff(order, users, frame, FramesOf(j, order));
    forall u, v | UserPage(j, u) && UserPage(j, v)
      ensures u in frame && v in frame && frame[u] == SourceFrame(j, u) && frame[v] == SourceFrame(j, v)
    {
    }
  }

  // ---- small directories ----

  ghost function FourTables(): Owner { map[0x1000 := [], 0x2000 := [0], 0x3000 := [0, 0], 0x4000 := [0, 0, 0]] }

  /** A directory with one table at each level, so that all its pages are [0, 0, 0, i]. */
  ghost predicate OneWay(j: Job) {
    && j.src == 0x1000 && j.owner == FourTables()
    && Rd(j.m, 0x1000) == 0x2007 && Rd(j.m, 0x2000) == 0x3007 && Rd(j.m, 0x3000) == 0x4007
    && (forall i :: 0 < i < 512 ==> Rd(j.m, Slot(0x1000, i)) == Rd(j.m, Slot(0x2000, i)) == 0)
    && (forall i :: 0 < i < 512 ==> Rd(j.m, Slot(0x3000, i)) == 0)
  }

  lemma WayEntries()
    ensures Present(0x2007) && !Large(0x2007) && Addr(0x2007) == 0x2000
    ensures Present(0x3007) && !Large(0x3007) && Addr(0x3007) == 0x3000
    ensures Present(0x4007) && !Large(0x4007) && Addr(0x4007) == 0x4000
    ensures !Present(0)
  {
  }

  lemma WayShape(j: Job)
    requires OneWay(j)
    ensures Shape(j.m, j.src, j.owner)
  {
    hide Rd, Present, Large, Addr;
    WayEntries();
    forall f, i | f in j.owner && 0 <= i < 512 && |j.owner[f]| < 3 ensures Child(j.m, j.owner, f, i) {
      assert f == 0x1000 || f == 0x2000 || f == 0x3000;
      if i == 0 {
        assert j.owner[f] + [0] == j.owner[f + 0x1000];
      } else {
        assert Rd(j.m, Slot(f, i)) == 0;
      }
    }
  }

  lemma WayDown(j: Job, u: seq<int>)
    requires OneWay(j) && Path(u)
    ensures Plain(j.m, j.src, u)
    ensures Leaf(j.m, j.src, u) == if u[0] == u[1] == u[2] == 0 then Rd(j.m, Slot(0x4000, u[3])) else 0
  {
    hide Rd, Present, Large, Addr;
    WayEntries();
    assert TableAt(j.m, j.src, u, 0) == 0x1000;
    assert TableAt(j.m, j.src, u, 1) == if u[0] == 0 then 0x2000 else NONE;
    assert TableAt(j.m, j.src, u, 2) == if u[0] == u[1] == 0 then 0x3000 else NONE;
    assert TableAt(j.m, j.src, u, 3) == if u[0] == u[1] == u[2] == 0 then 0x4000 else NONE;
  }

  lemma WayUser(j: Job, u: seq<int>)
    requires OneWay(j)
    ensures UserPage(j, u) <==> Path(u) && u == [0, 0, 0, u[3]] && UserLeaf(Rd(j.m, Slot(0x4000, u[3])))
    ensures UserPage(j, u) ==> Leaf(j.m, j.src, u) == Rd(j.m, Slot(0x4000, u[3]))
  {
    hide Rd, Present, Large, Addr, User, TableAt, Leaf, Plain, OneWay;
    WayEntries();
    if Path(u) {
      WayDown(j, u);
      assert u == [u[0], u[1], u[2], u[3]];
    }
  }

  /** A directory with two user pages on one frame. */
  ghost function OneFrameTwice(): Job {
    Job(map[0x1000 := 0x2007, 0x2000 := 0x3007, 0x3000 := 0x4007, 0x4000 := 0x5007, 0x4008 := 0x5007], 0x1000,
        FourTables(), 0x1000)
  }

  lemma TwiceLeaves(i: int)
    requires 0 <= i < 512
    ensures OneWay(OneFrameTwice()) && Rd(OneFrameTwice().m, Slot(0x4000, i)) == if i <= 1 then 0x5007 else 0
    ensures UserLeaf(0x5007) && !UserLeaf(0) && Addr(0x5007) == 0x5000
  {
  }

  lemma TwiceUser(u: seq<int>)
    ensures UserPage(OneFrameTwice(), u) <==> u in {[0, 0, 0, 0], [0, 0, 0, 1]}
    ensures UserPage(OneFrameTwice(), u) ==> Path(u) && SourceFrame(OneFrameTwice(), u) == 0x5000
  {
    hide UserPage, UserLeaf, Leaf, Rd, Addr, OneWay, OneFrameTwice;
    TwiceLeaves(0);
    if Path(u) { TwiceLeaves(u[3]); }
    WayUser(OneFrameTwice(), u);
    assert [0, 0, 0, 0][3] == 0 && [0, 0, 0, 1][3] == 1;
  }

  /** PageDirectoryFree can be called on it. */
  lemma TwiceCallable()
    ensures var j := OneFrameTwice(); Shape(j.m, j.src, j.owner) && Users(j, {[0, 0, 0, 0], [0, 0, 0, 1]})
  {
    hide UserPage, Shape, OneWay, OneFrameTwice;
    TwiceLeaves(0);
    WayShape(OneFrameTwice());
    forall u ensures UserPage(OneFrameTwice(), u) <==> u in {[0, 0, 0, 0], [0, 0, 0, 1]} { TwiceUser(u); }
  }

  /** The condition does matter: tearing that directory down releases a frame twice. */
  lemma FreedTwice(m: Mem, pool0: seq<int>, pool: seq<int>, users: set<seq<int>>, order: seq<seq<int>>)
    requires Torn(OneFrameTwice(), m, pool0, pool, users, order) && Users(OneFrameTwice(), users)
    ensures !AllDistinct(pool[|pool0|..])
  {
    hide Torn, Users, AllDistinct, UserPage, SourceFrame, OneFrameTwice;
    var j, u, v := OneFrameTwice(), [0, 0, 0, 0], [0, 0, 0, 1];
    TwiceUser(u);
    TwiceUser(v);
    assert u[3] != v[3];
    FreedOnceIff(j, m, pool0, pool, users, order);
  }

  lemma ListedOrder(j: Job, order: seq<seq<int>>, done: set<seq<int>>)
    requires Listed(j, order, done)
    ensures (forall k :: 0 <= k < |order| ==> order[k] in done) && (forall u :: u in done ==> u in order)
    ensures forall k, l :: 0 <= k < l < |order| ==> order[k] != order[l]
  {
    hide UserPage;
  }

  lemma DistinctIff(order: seq<seq<int>>, done: set<seq<int>>, frame: map<seq<int>, int>, s: seq<int>)
    requires (forall k :: 0 <= k < |order| ==> order[k] in done) && (forall u :: u in done ==> u in order)
    requires frame.Keys == done
    requires forall k, l :: 0 <= k < l < |order| ==> order[k] != order[l]
    requires |s| == |order| && forall k :: 0 <= k < |s| ==> s[k] == frame[order[k]]
    ensures AllDistinct(s) <==> forall u, v :: u in frame && v in frame && u != v ==> frame[u] != frame[v]
  {
    if AllDistinct(s) {
      forall u, v | u in frame && v in frame && u != v ensures frame[u] != frame[v] {
        var k :| 0 <= k < |order| && order[k] == u;
        var l :| 0 <= l < |order| && order[l] == v;
        assert s[k] != s[l];
      }
    }
  }

  lemma {:induction false} OrderSize(order: seq<seq<int>>, done: set<seq<int>>)
    requires (forall k :: 0 <= k < |order| ==> order[k] in done) && (forall u :: u in done ==> u in order)
    requires forall k, l :: 0 <= k < l < |order| ==> order[k] != order[l]
    ensures |order| == |done|
    decreases |order|
  {
    if |order| == 0 {
      assert done == {};
    } else {
      var u := order[|order| - 1];
      var front := order[..|order| - 1];
      forall v | v in done - {u} ensures v in front {
        var k :| 0 <= k < |order| && order[k] == v;
        assert front[k] == v;
      }
      OrderSize(front, done - {u});
    }
  }

  // ---- after a duplication ----

  ghost predicate EmptyUser(m: Mem, root: int) {
    forall v :: Path(v) && Plain(m, root, v) ==> !UserLeaf(Leaf(m, root, v))
  }

  ghost predicate Doubled(j: Job, m: Mem, pool0: seq<int>, pool: seq<int>, owner0: Owner, owner: Owner,
                          users: set<seq<int>>, copies: map<seq<int>, int>) {
    && Dup(j, m, pool, owner, users, copies) && Sound(j) && Users(j, users)
    && Drawn(j.m, m, owner0, owner, pool0, pool, map[], copies)
    && Shape(j.m, j.dst, owner0) && EmptyUser(j.m, j.dst)
  }

  ghost function SourceNow(j: Job, m: Mem): Job { Job(m, j.src, j.owner, j.src) }

  ghost function TargetNow(j: Job, m: Mem, owner: Owner): Job { Job(m, j.dst, owner, j.dst) }

  lemma SourceUsers(j: Job, m: Mem, pool: seq<int>, v: seq<int>)
    requires Intact(j, m, pool) && Shape(j.m, j.src, j.owner)
    ensures UserPage(SourceNow(j, m), v) <==> UserPage(j, v)
    ensures UserPage(j, v) ==> SourceFrame(SourceNow(j, m), v) == SourceFrame(j, v)
  {
    hide Rd, Leaf, Plain, Shape, UserLeaf, UpperStays;
    if Path(v) {
      if Plain(j.m, j.src, v) {
        SourceKept(j, m, pool, v);
      } else {
        SourceUpper(j, m, pool);
        StaysLarge(j.m, m, j.src, j.owner, v);
      }
    }
  }

  lemma SourceUpper(j: Job, m: Mem, pool: seq<int>)
    requires Intact(j, m, pool)
    ensures UpperStays(j.m, m, j.owner)
  {
    hide Rd, Present;
    forall t, i | t in j.owner && 0 <= i < 512 ensures Rd(m, Slot(t, i)) == Rd(j.m, Slot(t, i)) { assert Kept(j, t); }
  }

  lemma TargetUsers(j: Job, m: Mem, pool0: seq<int>, pool: seq<int>, owner0: Owner, owner: Owner, users: set<seq<int>>,
                    copies: map<seq<int>, int>, v: seq<int>)
    requires Doubled(j, m, pool0, pool, owner0, owner, users, copies)
    ensures UserPage(TargetNow(j, m, owner), v) <==> UserPage(j, v)
  {
    hide Rd, Leaf, Plain, Shape, UpperStays, Present, User, Large, Shared, Addr, LeafFor, Frame, FramesKept, PoolOk,
         NoSharedUserTables, Intact, CopyOf;
    if UserPage(j, v) {
      SoundFacts(j, v);
      AddrIsFrame(Leaf(j.m, j.src, v));
      assert v in users;
      UserEntry(if Shared(Leaf(j.m, j.src, v)) then SourceFrame(j, v) else copies[v]);
    } else if Path(v) && !Plain(j.m, j.dst, v) {
      StaysLarge(j.m, m, j.dst, owner0, v);
    }
  }

  lemma TargetFrame(j: Job, m: Mem, pool0: seq<int>, pool: seq<int>, owner0: Owner, owner: Owner, users: set<seq<int>>,
                    copies: map<seq<int>, int>, u: seq<int>, v: seq<int>)
    requires Doubled(j, m, pool0, pool, owner0, owner, users, copies) && UserPage(j, u) && UserPage(j, v)
    ensures Shared(Leaf(j.m, j.src, v)) ==> SourceFrame(TargetNow(j, m, owner), v) == SourceFrame(j, v)
    ensures !Shared(Leaf(j.m, j.src, v)) ==> SourceFrame(TargetNow(j, m, owner), v) != SourceFrame(j, u)
  {
    hide Rd, Leaf, Plain, Shape, UpperStays, Present, User, Shared, Addr, LeafFor, Frame, FramesKept, PoolOk,
         NoSharedUserTables, CopyOf;
    SoundFacts(j, v);
    AddrIsFrame(Leaf(j.m, j.src, v));
    assert v in users;
    assert Kept(j, SourceFrame(j, u));
    UserEntry(if Shared(Leaf(j.m, j.src, v)) then SourceFrame(j, v) else copies[v]);
  }

  /** The teardowns of both directories release no frame in common if and only if no page of the source is shared. */
  lemma BothFreedIff(j: Job, m: Mem, pool0: seq<int>, pool: seq<int>, owner0: Owner, owner: Owner, users: set<seq<int>>,
                     copies: map<seq<int>, int>)
    requires Doubled(j, m, pool0, pool, owner0, owner, users, copies)
    ensures (forall u, v :: UserPage(SourceNow(j, m), u) && UserPage(TargetNow(j, m, owner), v) ==>
               SourceFrame(SourceNow(j, m), u) != SourceFrame(TargetNow(j, m, owner), v))
            <==> forall u :: UserPage(j, u) ==> !Shared(Leaf(j.m, j.src, u))
  {
    hide Doubled, UserPage, SourceFrame, Leaf, Shared;
    var s, t := SourceNow(j, m), TargetNow(j, m, owner);
    forall u ensures UserPage(s, u) <==> UserPage(j, u)
      ensures UserPage(t, u) <==> UserPage(j, u)
      ensures UserPage(j, u) ==> Path(u) && SourceFrame(s, u) == SourceFrame(j, u)
    {
      OpenDoubled(j, m, pool0, pool, owner0, owner, users, copies);
      SourceUsers(j, m, pool, u);
      TargetUsers(j, m, pool0, pool, owner0, owner, users, copies, u);
      if UserPage(j, u) { UserPath(j, u); }
    }
    forall u, v | UserPage(j, u) && UserPage(j, v)
      ensures Shared(Leaf(j.m, j.src, v)) ==> SourceFrame(t, v) == SourceFrame(j, v)
      ensures !Shared(Leaf(j.m, j.src, v)) ==> SourceFrame(t, v) != SourceFrame(j, u)
    {
      TargetFrame(j, m, pool0, pool, owner0, owner, users, copies, u, v);
    }
    if u :| UserPage(j, u) && Shared(Leaf(j.m, j.src, u)) {
      assert UserPage(s, u) && UserPage(t, u) && SourceFrame(s, u) == SourceFrame(t, u);
    }
  }

  lemma OpenDoubled(j: Job, m: Mem, pool0: seq<int>, pool: seq<int>, owner0: Owner, owner: Owner, users: set<seq<int>>,
                    copies: map<seq<int>, int>)
    requires Doubled(j, m, pool0, pool, owner0, owner, users, copies)
    ensures Intact(j, m, pool) && Shape(j.m, j.src, j.owner)
  {
    hide Shape, Intact, Drawn, DoneOk, SamePages, UserPage;
  }

  /** The frames a teardown gives back are those of the user pages. */
  lemma ReleasedAre(j: Job, m: Mem, pool0: seq<int>, pool: seq<int>, users: set<seq<int>>, order: seq<seq<int>>)
    requires Torn(j, m, pool0, pool, users, order) && Users(j, users)
    ensures |pool0| <= |pool|
    ensures forall u :: UserPage(j, u) ==> SourceFrame(j, u) in pool[|pool0|..]
    ensures forall f :: f in pool[|pool0|..] ==> exists u :: UserPage(j, u) && SourceFrame(j, u) == f
  {
    hide Shape, Plain, Leaf, TableAt, Rd, UserLeaf, Addr, PageNow, UpperSame, SameOutside, UserPage, SourceFrame;
    assert pool[|pool0|..] == FramesOf(j, order);
    forall u | UserPage(j, u) ensures SourceFrame(j, u) in FramesOf(j, order) {
      assert u in order;
      var k :| 0 <= k < |order| && order[k] == u;
      assert FramesOf(j, order)[k] == SourceFrame(j, u);
    }
    forall f | f in FramesOf(j, order) ensures exists u :: UserPage(j, u) && SourceFrame(j, u) == f {
      var k :| 0 <= k < |order| && FramesOf(j, order)[k] == f;
      assert UserPage(j, order[k]) && SourceFrame(j, order[k]) == f;
    }
  }

  /** So do the lists of released frames: they have none in common if and only if no page was shared. */
  lemma ReleasesApartIff(j: Job, m: Mem, pool0: seq<int>, pool: seq<int>, owner0: Owner, owner: Owner,
                         users: set<seq<int>>, copies: map<seq<int>, int>, mS: Mem, p: seq<int>, p': seq<int>,
                         usersS: set<seq<int>>, orderS: seq<seq<int>>, mT: Mem, q: seq<int>, q': seq<int>,
                         usersT: set<seq<int>>, orderT: seq<seq<int>>)
    requires Doubled(j, m, pool0, pool, owner0, owner, users, copies)
    requires Torn(SourceNow(j, m), mS, p, p', usersS, orderS) && Users(SourceNow(j, m), usersS)
    requires Torn(TargetNow(j, m, owner), mT, q, q', usersT, orderT) && Users(TargetNow(j, m, owner), usersT)
    ensures |p| <= |p'| && |q| <= |q'|
    ensures (forall f :: f in p'[|p|..] ==> f !in q'[|q|..]) <==> forall u ::
        UserPage(j, u) ==> !Shared(Leaf(j.m, j.src, u))
  {
    hide Doubled, Torn, Users, UserLeaf, Plain, SourceFrame, Leaf, Shared;
    var s, t := SourceNow(j, m), TargetNow(j, m, owner);
    BothFreedIff(j, m, pool0, pool, owner0, owner, users, copies);
    ReleasedAre(s, mS, p, p', usersS, orderS);
    ReleasedAre(t, mT, q, q', usersT, orderT);
    if !(forall f :: f in p'[|p|..] ==> f !in q'[|q|..]) {
      var f :| f in p'[|p|..] && f in q'[|q|..];
      var u :| UserPage(s, u) && SourceFrame(s, u) == f;
      var v :| UserPage(t, v) && SourceFrame(t, v) == f;
      assert SourceFrame(s, u) == SourceFrame(t, v);
    }
  }

  /** A directory whose one user page is shared and read-only, and an empty one to duplicate it into. */
  ghost function OneShared(): Job {
    Job(map[0x1000 := 0x2007, 0x2000 := 0x3007, 0x3000 := 0x4007, 0x4000 := 0x5205], 0x1000, FourTables(), 0x9000)
  }

  ghost function EmptyTables(): Owner { map[0x9000 := []] }

  const SHARED_POOL: seq<int> := [0xA000, 0xB000, 0xC000, 0xD000]

  lemma SharedLeaves(i: int)
    requires 0 <= i < 512
    ensures OneWay(OneShared()) && Rd(OneShared().m, Slot(0x4000, i)) == if i == 0 then 0x5205 else 0
    ensures Rd(OneShared().m, Slot(0x9000, i)) == 0
    ensures UserLeaf(0x5205) && Shared(0x5205) && !Writable(0x5205) && !UserLeaf(0) && Addr(0x5205) == 0x5000
  {
  }

  lemma SharedUser(u: seq<int>)
    ensures UserPage(OneShared(), u) <==> u == [0, 0, 0, 0]
    ensures UserPage(OneShared(), u) ==>
              && Path(u) && SourceFrame(OneShared(), u) == 0x5000 && Shared(Leaf(OneShared().m, OneShared().src, u))
              && !Writable(Leaf(OneShared().m, OneShared().src, u))
  {
    hide UserPage, UserLeaf, Leaf, Rd, Addr, OneWay, OneShared, Shared, Writable;
    SharedLeaves(0);
    if Path(u) { SharedLeaves(u[3]); }
    WayUser(OneShared(), u);
    assert [0, 0, 0, 0][3] == 0;
  }

  /** The target has no table below its root. */
  lemma EmptyDown(u: seq<int>)
    requires Path(u)
    ensures var j := OneShared(); Plain(j.m, j.dst, u) && Leaf(j.m, j.dst, u) == 0
  {
    hide Rd, Addr, Large, OneWay;
    var j := OneShared();
    SharedLeaves(u[0]);
    assert TableAt(j.m, j.dst, u, 0) == 0x9000;
    assert TableAt(j.m, j.dst, u, 1) == NONE;
    assert TableAt(j.m, j.dst, u, 2) == NONE;
  }

  lemma SharedKept(f: int)
    ensures Kept(OneShared(), f) ==> f in OneShared().owner || f == 0x5000
  {
    hide UserLeaf, Plain, Leaf, SourceFrame;
    if Kept(OneShared(), f) && f !in OneShared().owner {
      var u :| UserPage(OneShared(), u) && SourceFrame(OneShared(), u) == f;
      SharedUser(u);
    }
  }

  lemma EmptyShape()
    ensures Shape(OneShared().m, 0x9000, EmptyTables()) && PoolOk(SHARED_POOL, EmptyTables())
  {
    var m := OneShared().m;
    forall i | 0 <= i < 512 ensures Child(m, EmptyTables(), 0x9000, i) { SharedLeaves(i); }
  }

  /** PageDirectoryUserDuplicate can be called on them. */
  lemma SharedCallable()
    ensures var j := OneShared();
            && CanDuplicate(j, SHARED_POOL, EmptyTables()) && Users(j, {[0, 0, 0, 0]}) && EmptyUser(j.m, j.dst)
            && |SHARED_POOL| >= 4 * |{[0, 0, 0, 0]}|
  {
    hide UserPage, Shape, OneWay, PoolOk, Leaf, Plain, Kept, UserLeaf, SourceFrame, Present;
    var j := OneShared();
    SharedLeaves(0);
    WayEntries();
    WayShape(j);
    EmptyShape();
    forall u ensures UserPage(j, u) <==> u == [0, 0, 0, 0] { SharedUser(u); }
    forall u | UserPage(j, u)
      ensures Path(u) && Plain(j.m, j.dst, u) && !Present(Leaf(j.m, j.dst, u)) && SourceFrame(j, u) != 0
    {
      SharedUser(u);
      EmptyDown(u);
    }
    forall v | Path(v) && Plain(j.m, j.dst, v) ensures !UserLeaf(Leaf(j.m, j.dst, v)) { EmptyDown(v); }
    forall f | Kept(j, f) ensures f !in SHARED_POOL && f !in EmptyTables() { SharedKept(f); }
  }

  /** Write protection is lost: the page that is read-only in the source is writable in the copy. */
  lemma BecomesWritable(m: Mem, pool: seq<int>, owner: Owner, users: set<seq<int>>, copies: map<seq<int>, int>)
    requires Dup(OneShared(), m, pool, owner, users, copies) && Sound(OneShared()) && Users(OneShared(), users)
    ensures var j, u := OneShared(), [0, 0, 0, 0];
            Path(u) && UserPage(j, u) && !Writable(Leaf(j.m, j.src, u)) && Writable(Leaf(m, j.dst, u))
  {
    hide Dup, Sound, Users, UserPage, SourceFrame, Leaf, Shared, OneShared, Writable, Plain, Flag;
    SharedUser([0, 0, 0, 0]);
    DuplicateMeans(OneShared(), m, pool, owner, users, copies, [0, 0, 0, 0]);
  }

  /** The condition does matter: both teardowns then release the shared frame. */
  lemma FreedByBoth(m: Mem, pool0: seq<int>, pool: seq<int>, owner0: Owner, owner: Owner, users: set<seq<int>>,
                    copies: map<seq<int>, int>, mS: Mem, p: seq<int>, p': seq<int>, usersS: set<seq<int>>,
                    orderS: seq<seq<int>>, mT: Mem, q: seq<int>, q': seq<int>, usersT: set<seq<int>>,
                    orderT: seq<seq<int>>)
    requires Doubled(OneShared(), m, pool0, pool, owner0, owner, users, copies)
    requires Torn(SourceNow(OneShared(), m), mS, p, p', usersS, orderS) && Users(SourceNow(OneShared(), m), usersS)
    requires Torn(TargetNow(OneShared(), m, owner), mT, q, q', usersT, orderT)
    requires Users(TargetNow(OneShared(), m, owner), usersT)
    ensures |p| <= |p'| && |q| <= |q'| && 0x5000 in p'[|p|..] && 0x5000 in q'[|q|..]
  {
    hide Doubled, Torn, Users, UserPage, SourceFrame, Leaf, Shared, OneShared;
    var j, u := OneShared(), [0, 0, 0, 0];
    SharedUser(u);
    OpenDoubled(j, m, pool0, pool, owner0, owner, users, copies);
    SourceUsers(j, m, pool, u);
    TargetUsers(j, m, pool0, pool, owner0, owner, users, copies, u);
    TargetFrame(j, m, pool0, pool, owner0, owner, users, copies, u, u);
    ReleasedAre(SourceNow(j, m), mS, p, p', usersS, orderS);
    ReleasedAre(TargetNow(j, m, owner), mT, q, q', usersT, orderT);
  }
}
