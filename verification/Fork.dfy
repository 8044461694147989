/** Duplicating the user half of an address space: PageDirectoryUserDuplicate. */
module Fork {
  import opened Words
  import opened PageTable
  import opened Paging
  import opened HeapGrowth

  /** The memory at the start, the source directory with its tables, and the target directory. */
  datatype Job = Job(m: Mem, src: int, owner: Owner, dst: int)

  predicate UserLeaf(e: int) { Present(e) && !Large(e) && User(e) }

  /** A page of the source that is to be duplicated. */
  ghost predicate UserPage(j: Job, u: seq<int>) { Path(u) && Plain(j.m, j.src, u) && UserLeaf(Leaf(j.m, j.src, u)) }

  ghost function SourceFrame(j: Job, u: seq<int>): int
    requires Path(u)
  {
    Addr(Leaf(j.m, j.src, u))
  }

  /** A frame that must not change: a table of the source or the frame of one of its user pages. */
  ghost predicate Kept(j: Job, f: int) { f in j.owner || exists u :: UserPage(j, u) && SourceFrame(j, u) == f }

  ghost predicate Prefixes(q: seq<int>, u: seq<int>) { |q| <= |u| && u[..|q|] == q }

  /** Frame f holds the bytes of the source page u. */
  ghost predicate CopyOf(j: Job, m: Mem, u: seq<int>, f: int)
    requires Path(u)
  {
    forall i :: 0 <= i < 512 ==> Rd(m, Slot(f, i)) == Rd(j.m, Slot(SourceFrame(j, u), i))
  }

  ghost predicate PrivateCopy(j: Job, m: Mem, pool: seq<int>, owner: Owner, u: seq<int>, f: int)
    requires Path(u)
  {
    Frame(f) && f != 0 && f !in owner && f !in pool && !Kept(j, f) && CopyOf(j, m, u, f)
  }

  const USER_FLAGS: int := 6

  /** The target maps u to the same frame if it is shared, else to a private frame with the same bytes. */
  ghost predicate Duplicated(j: Job, m: Mem, pool: seq<int>, owner: Owner, copies: map<seq<int>, int>, u: seq<int>)
    requires Path(u)
  {
    if Shared(Leaf(j.m, j.src, u)) then
      Leaf(m, j.dst, u) == LeafFor(SourceFrame(j, u), USER_FLAGS)
    else
      u in copies && Leaf(m, j.dst, u) == LeafFor(copies[u], USER_FLAGS) && PrivateCopy(j, m, pool, owner, u, copies[u])
  }

  /** Tables that both directories share lie under no user page. */
  ghost predicate NoSharedUserTables(j: Job, owner: Owner) {
    forall f, u :: f in owner && Kept(j, f) && UserPage(j, u) ==> !Prefixes(owner[f], u)
  }

  ghost predicate Intact(j: Job, m: Mem, pool: seq<int>) {
    forall f :: Kept(j, f) ==> SamePage(j.m, m, f) && f !in pool
  }

  ghost predicate DoneOk(j: Job, m: Mem, pool: seq<int>, owner: Owner, done: set<seq<int>>, copies: map<seq<int>,
                         int>) {
    && (forall u :: u in done ==> UserPage(j, u) && Duplicated(j, m, pool, owner, copies, u))
    && (forall u :: u in copies ==> u in done && !Shared(Leaf(j.m, j.src, u)))
    && (forall u, v :: u in copies && v in copies && u != v ==> copies[u] != copies[v])
  }

  /** The state after the pages of done have been duplicated. */
  ghost predicate Dup(j: Job, m: Mem, pool: seq<int>, owner: Owner, done: set<seq<int>>, copies: map<seq<int>, int>) {
    && Shape(m, j.dst, owner) && PoolOk(pool, owner) && 0 !in pool
    && Intact(j, m, pool) && NoSharedUserTables(j, owner) && DoneOk(j, m, pool, owner, done, copies)
    && SamePages(j.m, m, j.dst, done)
  }

  /** What a duplication needs: an empty target user half that shares no user table, and frames apart from the pool. */
  ghost predicate CanDuplicate(j: Job, pool: seq<int>, owner: Owner) {
    && Shape(j.m, j.src, j.owner) && Shape(j.m, j.dst, owner) && PoolOk(pool, owner) && 0 !in pool && j.dst != NONE
    && j.src != NONE
    && (forall f :: Kept(j, f) ==> f !in pool) && NoSharedUserTables(j, owner)
    && (forall u :: UserPage(j, u) ==> Plain(j.m, j.dst, u) && !Present(Leaf(j.m, j.dst, u)) && SourceFrame(j, u) != 0)
  }

  lemma KeptFrames(j: Job, f: int)
    requires Shape(j.m, j.src, j.owner) && Kept(j, f)
    ensures Frame(f)
  {
    hide Plain, Open, Leaf;
    if f in j.owner {
      TablesAreFrames(j.m, j.src, j.owner);
    } else {
      var u :| UserPage(j, u) && SourceFrame(j, u) == f;
      AddrIsFrame(Leaf(j.m, j.src, u));
    }
  }

  /** Filling a frame fresh from the pool disturbs nothing. */
  lemma FillPhase(j: Job, m: Mem, n: Mem, pool: seq<int>, owner: Owner, done: set<seq<int>>, copies: map<seq<int>, int>)
    requires Dup(j, m, pool, owner, done, copies) && |pool| > 0 && Shape(j.m, j.src, j.owner)
    requires SameOutside(m, n, {pool[0]})
    requires forall u :: UserPage(j, u) ==> Plain(j.m, j.dst, u)
    ensures Dup(j, n, pool[1..], owner, done, copies)
  {
    hide Rd, Shape, Plain, Open, Leaf, Frame, PoolOk, Kept, UserLeaf, Shared, Addr, SamePage, CopyOf;
    var f := pool[0];
    assert Frame(f) && f !in owner && PoolOk(pool[1..], owner) by { PoolHead(pool, owner); }
    TablesAreFrames(m, j.dst, owner);
    assert forall w :: !(f <= w < f + PAGE) ==> Rd(n, w) == Rd(m, w) by { OutsideOne(m, n, f); }
    OneFrameOff(m, n, owner, f);
    OffTables(m, n, j.dst, owner);
    forall g | Kept(j, g) ensures SamePage(j.m, n, g) && g !in pool[1..] {
      KeptFrames(j, g);
      MapLeavesFrame(m, n, {f}, g);
      SamePageTrans(j.m, m, n, g);
    }
    forall u | u in done ensures UserPage(j, u) && Duplicated(j, n, pool[1..], owner, copies, u) {
      if !Shared(Leaf(j.m, j.src, u)) {
        MapLeavesFrame(m, n, {f}, copies[u]);
        CopyKept(j, m, n, u, copies[u]);
      }
    }
  }

  lemma PoolHead(pool: seq<int>, owner: Owner)
    requires PoolOk(pool, owner) && |pool| > 0
    ensures Frame(pool[0]) && pool[0] !in owner && PoolOk(pool[1..], owner) && pool[0] !in pool[1..]
    ensures forall f :: f in pool ==> Frame(f)
  {
    hide Frame;
  }

  lemma OutsideOne(m: Mem, n: Mem, f: int)
    requires SameOutside(m, n, {f})
    ensures forall w :: !(f <= w < f + PAGE) ==> Rd(n, w) == Rd(m, w)
  {
    hide Rd;
    forall w | !(f <= w < f + PAGE) ensures Rd(n, w) == Rd(m, w) { assert Outside({f}, w); }
  }

  lemma SamePageTrans(a: Mem, b: Mem, c: Mem, f: int)
    requires SamePage(a, b, f) && SamePage(b, c, f)
    ensures SamePage(a, c, f)
  {
    hide Rd;
  }

  lemma CopyKept(j: Job, m: Mem, n: Mem, u: seq<int>, f: int)
    requires Path(u) && CopyOf(j, m, u, f) && SamePage(m, n, f)
    ensures CopyOf(j, n, u, f)
  {
    hide Rd, Leaf, Addr;
  }

  /** The mapping of user page u, to frame f, into the target. */
  ghost predicate Mapping(j: Job, m: Mem, n: Mem, pool: seq<int>, rest: seq<int>, owner: Owner, owner': Owner,
                          u: seq<int>, f: int)
    requires Path(u)
  {
    && Suffix(pool, rest) && Grown(owner, owner', pool) && PoolOk(rest, owner')
    && MappedTo(m, n, j.dst, owner', u, LeafFor(f, USER_FLAGS), Taken(pool, rest))
  }

  lemma PoolShrinks(pool: seq<int>, rest: seq<int>)
    requires Suffix(pool, rest)
    ensures (forall f :: f in rest ==> f in pool) && forall f :: f in Taken(pool, rest) ==> f in pool
  {
    TakenFromPool(pool, rest);
  }

  /** A frame outside the pool and off the way to u is untouched by the mapping. */
  lemma MappingLeaves(j: Job, m: Mem, n: Mem, pool: seq<int>, rest: seq<int>, owner: Owner, owner': Owner, u: seq<int>,
                      f: int, g: int)
    requires Path(u) && Plain(m, j.dst, u) && Shape(m, j.dst, owner) && PoolOk(pool, owner)
    requires Mapping(j, m, n, pool, rest, owner, owner', u, f)
    requires Frame(g) && g !in pool && (g !in owner || !Prefixes(owner[g], u))
    ensures SamePage(m, n, g)
  {
    hide Rd, Shape, Plain, Open, Leaf, Frame, LeafFor, SamePage, TableAt, Suffix, Taken, PoolOk;
    var s := PathTables(m, j.dst, u) + Taken(pool, rest);
    MappedShape(m, n, j.dst, owner', u, LeafFor(f, USER_FLAGS), Taken(pool, rest));
    PathOwned(m, j.dst, owner, u);
    PathPrefixes(m, j.dst, owner, u);
    TablesAreFrames(m, j.dst, owner);
    PoolShrinks(pool, rest);
    assert forall h :: h in pool ==> Frame(h) by { PoolFrames(pool, owner); }
    MapLeavesFrame(m, n, s, g);
  }

  lemma PoolFrames(pool: seq<int>, owner: Owner)
    requires PoolOk(pool, owner)
    ensures forall h :: h in pool ==> Frame(h) && h !in owner
  {
    hide Frame;
  }

  lemma PathPrefixes(m: Mem, root: int, owner: Owner, u: seq<int>)
    requires Shape(m, root, owner) && Path(u) && Plain(m, root, u)
    ensures forall f :: f in PathTables(m, root, u) && f in owner ==> Prefixes(owner[f], u)
  {
    hide Rd, Plain, Open, TableAt, Child, Frame;
    Located(m, root, owner, u, 1);
    Located(m, root, owner, u, 2);
    Located(m, root, owner, u, 3);
    RootAt(m, root, u);
  }

  lemma MapPhaseIntact(j: Job, m: Mem, n: Mem, pool: seq<int>, rest: seq<int>, owner: Owner, owner': Owner, u: seq<int>,
                       f: int)
    requires Shape(j.m, j.src, j.owner) && Shape(m, j.dst, owner) && PoolOk(pool, owner) && Intact(j, m, pool)
    requires NoSharedUserTables(j, owner)
    requires UserPage(j, u) && Plain(m, j.dst, u) && Mapping(j, m, n, pool, rest, owner, owner', u, f)
    ensures Intact(j, n, rest) && NoSharedUserTables(j, owner')
  {
    hide Rd, Shape, Plain, Open, Leaf, Frame, LeafFor, SamePage, Suffix, Taken, PoolOk, Kept, MappedTo, Prefixes;
    PoolShrinks(pool, rest);
    forall g | Kept(j, g) ensures SamePage(j.m, n, g) && g !in rest {
      KeptFrames(j, g);
      MappingLeaves(j, m, n, pool, rest, owner, owner', u, f, g);
      SamePageTrans(j.m, m, n, g);
    }
  }

  /** A page duplicated earlier stays duplicated. */
  lemma MapPhaseOther(j: Job, m: Mem, n: Mem, pool: seq<int>, rest: seq<int>, owner: Owner, owner': Owner,
                      copies: map<seq<int>, int>, copies': map<seq<int>, int>, u: seq<int>, f: int, v: seq<int>)
    requires Shape(m, j.dst, owner) && PoolOk(pool, owner) && UserPage(j, u) && Plain(m, j.dst, u)
    requires Mapping(j, m, n, pool, rest, owner, owner', u, f)
    requires Path(v) && v != u && Plain(m, j.dst, v) && Duplicated(j, m, pool, owner, copies, v)
    requires v in copies ==> v in copies' && copies'[v] == copies[v]
    ensures Duplicated(j, n, rest, owner', copies', v)
  {
    hide Rd, Shape, Plain, Open, Leaf, Frame, LeafFor, SamePage, Suffix, Taken, PoolOk, Kept, Prefixes, UserPage,
         CopyOf, Shared;
    PoolShrinks(pool, rest);
    UserPath(j, u);
    MappedShape(m, n, j.dst, owner', u, LeafFor(f, USER_FLAGS), Taken(pool, rest));
    if !Shared(Leaf(j.m, j.src, v)) {
      MappingLeaves(j, m, n, pool, rest, owner, owner', u, f, copies[v]);
      CopyKept(j, m, n, v, copies[v]);
    }
  }

  /** The page just mapped. */
  ghost predicate Fits(j: Job, m: Mem, pool: seq<int>, owner: Owner, copies: map<seq<int>, int>, u: seq<int>, f: int)
    requires Path(u)
  {
    if Shared(Leaf(j.m, j.src, u)) then f == SourceFrame(j, u)
    else PrivateCopy(j, m, pool, owner, u, f) && forall v :: v in copies ==> copies[v] != f
  }

  ghost function WithCopy(j: Job, copies: map<seq<int>, int>, u: seq<int>, f: int): map<seq<int>, int>
    requires Path(u)
  {
    if Shared(Leaf(j.m, j.src, u)) then copies else copies[u := f]
  }

  lemma MapPhaseThis(j: Job, m: Mem, n: Mem, pool: seq<int>, rest: seq<int>, owner: Owner, owner': Owner,
                     copies: map<seq<int>, int>, u: seq<int>, f: int)
    requires Shape(m, j.dst, owner) && PoolOk(pool, owner) && UserPage(j, u) && Plain(m, j.dst, u)
    requires Mapping(j, m, n, pool, rest, owner, owner', u, f)
    requires Fits(j, m, pool, owner, copies, u, f)
    ensures Duplicated(j, n, rest, owner', WithCopy(j, copies, u, f), u)
  {
    hide Rd, Shape, Plain, Open, Leaf, Frame, LeafFor, SamePage, Suffix, Taken, PoolOk, Kept, Prefixes, UserPage,
         CopyOf, Shared;
    PoolShrinks(pool, rest);
    UserPath(j, u);
    MappedShape(m, n, j.dst, owner', u, LeafFor(f, USER_FLAGS), Taken(pool, rest));
    if !Shared(Leaf(j.m, j.src, u)) {
      MappingLeaves(j, m, n, pool, rest, owner, owner', u, f, f);
      CopyKept(j, m, n, u, f);
    }
  }

  lemma MapPhase(j: Job, m: Mem, n: Mem, pool: seq<int>, rest: seq<int>, owner: Owner, owner': Owner,
                 done: set<seq<int>>, copies: map<seq<int>, int>, u: seq<int>, f: int)
    requires Dup(j, m, pool, owner, done, copies) && Shape(j.m, j.src, j.owner) && UserPage(j, u) && u !in done
    requires forall v :: UserPage(j, v) ==> Plain(j.m, j.dst, v)
    requires Mapping(j, m, n, pool, rest, owner, owner', u, f) && Fits(j, m, pool, owner, copies, u, f)
    ensures Dup(j, n, rest, owner', done + {u}, WithCopy(j, copies, u, f))
  {
    hide Rd, Shape, Plain, Open, Leaf, Frame, LeafFor, SamePage, Suffix, Taken, PoolOk, Kept, Prefixes, UserPage,
         CopyOf, Shared, Duplicated, Intact, NoSharedUserTables, PrivateCopy, Grown;
    assert Path(u) by { UserPath(j, u); }
    PoolShrinks(pool, rest);
    MapPhaseIntact(j, m, n, pool, rest, owner, owner', u, f);
    MappedShape(m, n, j.dst, owner', u, LeafFor(f, USER_FLAGS), Taken(pool, rest));
    var copies' := WithCopy(j, copies, u, f);
    forall v | v in done + {u} ensures UserPage(j, v) && Path(v) && Duplicated(j, n, rest, owner', copies', v) {
      UserPath(j, v);
      if v == u {
        MapPhaseThis(j, m, n, pool, rest, owner, owner', copies, u, f);
      } else {
        MapPhaseOther(j, m, n, pool, rest, owner, owner', copies, copies', u, f, v);
      }
    }
  }

  lemma UserPath(j: Job, u: seq<int>)
    requires UserPage(j, u)
    ensures Path(u)
  {
  }

  // ---- where the frames come from ----

  /** Tables, copies and nothing else were drawn from the pool; every other frame holds what it held. */
  ghost predicate Drawn(m: Mem, n: Mem, owner: Owner, owner': Owner, pool: seq<int>, pool': seq<int>,
                        copies: map<seq<int>, int>, copies': map<seq<int>, int>) {
    && FramesKept(m, n, owner, owner', pool, pool') && UpperStays(m, n, owner)
    && forall u :: u in copies' ==> (u in copies && copies'[u] == copies[u]) || copies'[u] in pool
  }

  lemma DrawnSelf(m: Mem, owner: Owner, pool: seq<int>, copies: map<seq<int>, int>)
    ensures Drawn(m, m, owner, owner, pool, pool, copies, copies)
  {
  }

  lemma DrawnTrans(a: Mem, b: Mem, c: Mem, o1: Owner, o2: Owner, o3: Owner, p1: seq<int>, p2: seq<int>, p3: seq<int>,
                   c1: map<seq<int>, int>, c2: map<seq<int>, int>, c3: map<seq<int>, int>)
    requires Drawn(a, b, o1, o2, p1, p2, c1, c2) && Drawn(b, c, o2, o3, p2, p3, c2, c3)
    ensures Drawn(a, c, o1, o3, p1, p3, c1, c3)
  {
    hide Rd, SamePage, Frame, Suffix, UpperStays;
    UpperTrans(a, b, c, o1, o2);
    TakenTrans(p1, p2, p3);
    PoolShrinks(p1, p2);
    forall g | Frame(g) && g !in o1 && g !in p1 ensures SamePage(a, c, g) { SamePageTrans(a, b, c, g); }
    assert Grown(o1, o3, p1);
    assert FramesKept(a, c, o1, o3, p1, p3);
    forall u | u in c3 ensures (u in c1 && c3[u] == c1[u]) || c3[u] in p1 {
      var f := c3[u];
      if f in p2 {
        assert f in p1;
      } else {
        assert u in c2 && c2[u] == f;
        assert (u in c1 && c2[u] == c1[u]) || f in p1;
      }
    }
  }

  lemma FillDrawn(m: Mem, n: Mem, owner: Owner, pool: seq<int>, copies: map<seq<int>, int>)
    requires forall g :: g in owner ==> Frame(g)
    requires PoolOk(pool, owner) && |pool| > 0 && SameOutside(Zeroed(m, pool[0]), n, {pool[0]})
    ensures Drawn(m, n, owner, owner, pool, pool[1..], copies, copies)
  {
    hide Rd, Frame, Zeroed, SamePage, UpperStays;
    PoolHead(pool, owner);
    var f := pool[0];
    forall w | Outside({f}, w) ensures Rd(n, w) == Rd(m, w) { ZeroedRd(m, f, w); }
    forall g | Frame(g) && g !in owner && g !in pool ensures SamePage(m, n, g) { MapLeavesFrame(m, n, {f}, g); }
    OutsideOne(m, n, f);
    OneFrameOff(m, n, owner, f);
    AgreeUpper(m, n, owner);
  }

  lemma SameDrawn(m: Mem, n: Mem, owner: Owner, pool: seq<int>, copies: map<seq<int>, int>)
    requires forall w :: Rd(n, w) == Rd(m, w)
    ensures Drawn(m, n, owner, owner, pool, pool, copies, copies)
  {
    hide Rd;
  }

  lemma MapDrawn(j: Job, m: Mem, n: Mem, pool: seq<int>, rest: seq<int>, owner: Owner, owner': Owner,
                 copies: map<seq<int>, int>, u: seq<int>, f: int)
    requires Path(u) && Plain(m, j.dst, u) && Shape(m, j.dst, owner) && PoolOk(pool, owner)
    requires Mapping(j, m, n, pool, rest, owner, owner', u, f)
    requires UpperStays(m, n, owner)
    ensures Drawn(m, n, owner, owner', pool, rest, copies, copies)
  {
    hide UpperStays, Rd, Shape, Plain, Open, PoolOk, Frame, SamePage, MappedTo, Suffix, Grown;
    forall g | Frame(g) && g !in owner && g !in pool ensures SamePage(m, n, g) {
      MappingLeaves(j, m, n, pool, rest, owner, owner', u, f, g);
    }
  }

  lemma CopyDrawn(j: Job, m: Mem, n: Mem, owner: Owner, owner': Owner, pool: seq<int>, pool': seq<int>,
                  copies: map<seq<int>, int>, u: seq<int>, f: int)
    requires Path(u) && Drawn(m, n, owner, owner', pool, pool', copies, copies)
    requires (Shared(Leaf(j.m, j.src, u)) || f in pool)
    ensures Drawn(m, n, owner, owner', pool, pool', copies, WithCopy(j, copies, u, f))
  {
    hide FramesKept, UpperStays, Leaf, Shared;
  }

  // ---- the walk over the source ----

  /** Table t of the source is reached by the indices q, through no large page. */
  ghost predicate AtTable(j: Job, t: int, q: seq<int>) {
    && |q| <= 3 && (forall k :: 0 <= k < |q| ==> 0 <= q[k] < 512) && t in j.owner
    && (forall u :: Path(u) && Prefixes(q, u) ==> Reaches(j, u, |q|, t))
  }

  ghost predicate Reaches(j: Job, u: seq<int>, d: nat, t: int)
    requires Path(u) && d <= 3
  {
    TableAt(j.m, j.src, u, d) == t && t != NONE && forall k: nat :: k < d ==> PlainAt(j.m, j.src, u, k)
  }

  lemma AtRoot(j: Job)
    requires Shape(j.m, j.src, j.owner) && j.src != NONE
    ensures AtTable(j, j.src, [])
  {
    hide Child, Plain, Open;
  }

  /** The entry in slot i of a table above the last level leads one level down, or there is no user page below it. */
  lemma AtSlot(j: Job, t: int, q: seq<int>, i: int)
    requires Shape(j.m, j.src, j.owner) && AtTable(j, t, q) && |q| < 3 && 0 <= i < 512
    requires j.owner[t] == q
    ensures var e := Rd(j.m, Slot(t, i));
            if Present(e) && !Large(e)
                then AtTable(j, Addr(e), q + [i]) && Addr(e) in j.owner && j.owner[Addr(e)] == q + [i]
            else forall u :: Path(u) && Prefixes(q + [i], u) ==> !UserPage(j, u)
  {
    hide Rd, Present, Large, Addr, Leaf, Shape;
    var e := Rd(j.m, Slot(t, i));
    forall u | Path(u) && Prefixes(q + [i], u)
      ensures if Present(e) && !Large(e) then Reaches(j, u, |q| + 1, Addr(e)) else !UserPage(j, u)
    {
      PrefixStep(q, i, u);
      assert Reaches(j, u, |q|, t);
      Frames(Addr(e), e);
      if Present(e) && Large(e) {
        assert !PlainAt(j.m, j.src, u, |q|);
      } else if !Present(e) {
        assert TableAt(j.m, j.src, u, |q| + 1) == NONE;
        NoneBelow(j.m, j.src, u, |q| + 1);
        ZeroEntry();
      }
    }
    if Present(e) && !Large(e) { ChildOwned(j.m, j.src, j.owner, t, i); }
  }

  lemma ChildOwned(m: Mem, root: int, owner: Owner, t: int, i: int)
    requires Shape(m, root, owner) && t in owner && |owner[t]| < 3 && 0 <= i < 512
    ensures Child(m, owner, t, i)
  {
    hide Child, Frame;
  }

  lemma PrefixStep(q: seq<int>, i: int, u: seq<int>)
    requires Prefixes(q + [i], u)
    ensures Prefixes(q, u) && |q| < |u| && u[|q|] == i
  {
    assert u[..|q| + 1] == q + [i];
    assert u[..|q|] == u[..|q| + 1][..|q|];
    assert u[|q|] == u[..|q| + 1][|q|];
  }

  /** The leaf in slot i of a last-level table. */
  lemma AtLeaf(j: Job, t: int, q: seq<int>, i: int)
    requires AtTable(j, t, q) && |q| == 3 && 0 <= i < 512
    ensures Path(q + [i]) && Leaf(j.m, j.src, q + [i]) == Rd(j.m, Slot(t, i))
    ensures UserPage(j, q + [i]) <==> UserLeaf(Rd(j.m, Slot(t, i)))
  {
    hide Rd, TableAt, UserLeaf;
    var u := q + [i];
    assert u[..3] == q;
    assert Reaches(j, u, 3, t);
  }

  /** The pages in users below q with an index under i at the next level. */
  ghost function Upto(users: set<seq<int>>, q: seq<int>, i: int): set<seq<int>> {
    set u | u in users && Prefixes(q, u) && |q| < |u| && u[|q|] < i
  }

  ghost predicate Users(j: Job, users: set<seq<int>>) { forall u :: u in users <==> UserPage(j, u) }

  lemma UptoStep(j: Job, users: set<seq<int>>, q: seq<int>, i: int)
    requires Users(j, users) && 0 <= i < 512 && |q| < 4
    ensures Upto(users, q, i + 1) == Upto(users, q, i) + (set u | u in users && Prefixes(q + [i], u))
    ensures forall u :: u in users && Prefixes(q + [i], u) ==> u !in Upto(users, q, i)
  {
    hide UserPage;
    forall u | u in Upto(users, q, i + 1) ensures u in Upto(users, q, i) || Prefixes(q + [i], u) {
      if u[|q|] == i { assert u[..|q| + 1] == q + [i]; }
    }
    forall u | u in users && Prefixes(q + [i], u) ensures u in Upto(users, q, i + 1) && u !in Upto(users, q, i) {
      PrefixStep(q, i, u);
    }
  }

  lemma UptoAll(j: Job, users: set<seq<int>>, q: seq<int>)
    requires Users(j, users) && |q| < 4
    ensures Upto(users, q, 512) == (set u | u in users && Prefixes(q, u)) && Upto(users, q, 0) == {}
  {
    hide Plain, Open, Leaf;
    forall u | u in users ensures Path(u) { UserPath(j, u); }
  }

  // ---- the operation ----

  /** Rewriting words with the values they have disturbs nothing. */
  lemma SameWords(j: Job, m: Mem, n: Mem, pool: seq<int>, owner: Owner, done: set<seq<int>>, copies: map<seq<int>, int>)
    requires Dup(j, m, pool, owner, done, copies) && Shape(j.m, j.src, j.owner) && forall w :: Rd(n, w) == Rd(m, w)
    requires forall u :: UserPage(j, u) ==> Plain(j.m, j.dst, u)
    ensures Dup(j, n, pool, owner, done, copies)
  {
    hide Rd, Shape, Plain, Open, Leaf, Frame, PoolOk, Kept, UserLeaf, Shared, Addr;
    OffTables(m, n, j.dst, owner);
  }

  /** memcpy of one frame */
  method CopyFrame(machine: Machine, from: int, to: int)
    requires Frame(from) && Frame(to)
    modifies machine`mem
    ensures SameOutside(old(machine.mem), machine.mem, {to})
    ensures forall i :: 0 <= i < 512 ==> Rd(machine.mem, Slot(to, i)) == Rd(old(machine.mem), Slot(from, i))
    ensures from == to ==> forall w :: Rd(machine.mem, w) == Rd(old(machine.mem), w)
  {
    ghost var m := machine.mem;
    for i := 0 to 512
      invariant SameOutside(m, machine.mem, {to})
      invariant forall k :: 0 <= k < i ==> Rd(machine.mem, Slot(to, k)) == Rd(m, Slot(from, k))
      invariant forall k :: i <= k < 512 ==> Rd(machine.mem, Slot(from, k)) == Rd(m, Slot(from, k))
      invariant from == to ==> forall w :: Rd(machine.mem, w) == Rd(m, w)
    {
      ghost var before := machine.mem;
      machine.mem := machine.mem[Slot(to, i) := Rd(machine.mem, Slot(from, i))];
      OneWord(m, before, machine.mem, to, i);
      forall k | i < k < 512 ensures Rd(machine.mem, Slot(from, k)) == Rd(m, Slot(from, k)) {
        if Slot(from, k) == Slot(to, i) { SlotUnique(from, k, to, i); }
      }
    }
  }

  lemma OneWord(m: Mem, before: Mem, after: Mem, to: int, i: int)
    requires SameOutside(m, before, {to}) && 0 <= i < 512 && forall w ::
        w != Slot(to, i) ==> Rd(after, w) == Rd(before, w)
    ensures SameOutside(m, after, {to})
  {
    hide Rd;
    InPage(to, i);
  }

  ghost predicate Sound(j: Job) {
    && Shape(j.m, j.src, j.owner) && j.dst != NONE && j.src != NONE
    && (forall u :: UserPage(j, u) ==> Plain(j.m, j.dst, u) && !Present(Leaf(j.m, j.dst, u)) && SourceFrame(j, u) != 0)
  }

  lemma SoundFacts(j: Job, u: seq<int>)
    requires Sound(j) && UserPage(j, u)
    ensures Shape(j.m, j.src, j.owner) && j.dst != NONE && Path(u) && Plain(j.m, j.dst, u)
    ensures !Present(Leaf(j.m, j.dst, u)) && SourceFrame(j, u) != 0
    ensures forall v :: UserPage(j, v) ==> Plain(j.m, j.dst, v)
  {
    hide Shape, Plain, Open, Leaf, Addr;
  }

  lemma DupFacts(j: Job, m: Mem, pool: seq<int>, owner: Owner, done: set<seq<int>>, copies: map<seq<int>, int>,
                 u: seq<int>)
    requires Dup(j, m, pool, owner, done, copies) && UserPage(j, u) && u !in done && Plain(j.m, j.dst, u)
    ensures Shape(m, j.dst, owner) && PoolOk(pool, owner) && Path(u) && Plain(m, j.dst, u)
    ensures Leaf(m, j.dst, u) == Leaf(j.m, j.dst, u)
    ensures SamePage(j.m, m, SourceFrame(j, u)) && SourceFrame(j, u) !in pool && 0 !in pool
    ensures forall f :: f in pool ==> !Kept(j, f)
    ensures forall v :: v in copies ==> copies[v] !in pool
  {
    hide Shape, Plain, Open, Leaf, Addr, PoolOk, SamePage, NoSharedUserTables, UserLeaf, Shared, CopyOf, Frame;
    assert Kept(j, SourceFrame(j, u));
  }

  lemma Filled(j: Job, m: Mem, n: Mem, pool: seq<int>, owner: Owner, done: set<seq<int>>, copies: map<seq<int>, int>,
               u: seq<int>)
    requires Dup(j, m, pool, owner, done, copies) && |pool| > 0 && Sound(j) && UserPage(j, u) && u !in done
    requires !Shared(Leaf(j.m, j.src, u))
    requires SameOutside(Zeroed(m, pool[0]), n, {pool[0]})
    requires forall i :: 0 <= i < 512 ==> Rd(n, Slot(pool[0], i)) == Rd(Zeroed(m, pool[0]), Slot(SourceFrame(j, u), i))
    ensures Dup(j, n, pool[1..], owner, done, copies) && Fits(j, n, pool[1..], owner, copies, u, pool[0])
  {
    hide Dup, Shape, Plain, Open, Leaf, PoolOk, UserPage, Shared, Addr, Rd, Frame, Zeroed, Sound, Kept;
    SoundFacts(j, u);
    DupFacts(j, m, pool, owner, done, copies, u);
    var f, g := pool[0], SourceFrame(j, u);
    PoolHead(pool, owner);
    AddrIsFrame(Leaf(j.m, j.src, u));
    forall w | Outside({f}, w) ensures Rd(n, w) == Rd(m, w) { ZeroedRd(m, f, w); }
    FillPhase(j, m, n, pool, owner, done, copies);
    assert f in pool && f != 0 && !Kept(j, f);
    forall i | 0 <= i < 512 ensures Rd(n, Slot(f, i)) == Rd(j.m, Slot(g, i)) {
      ApartFrames(f, g, i);
      ZeroedRd(m, f, Slot(g, i));
    }
  }

  lemma SharedFits(j: Job, m: Mem, pool: seq<int>, owner: Owner, copies: map<seq<int>, int>, u: seq<int>)
    requires Path(u) && Shared(Leaf(j.m, j.src, u))
    ensures Fits(j, m, pool, owner, copies, u, SourceFrame(j, u))
  {
    hide Leaf, Shared, Addr;
  }

  /** Duplicates one user page u, whose leaf entry in the source is e. */
  method DuplicatePage(machine: Machine, ghost j: Job, e: int, u: seq<int>, dst: int, ghost owner: Owner,
                       ghost done: set<seq<int>>, ghost copies: map<seq<int>, int>)
    returns (ghost owner': Owner, ghost copies': map<seq<int>, int>)
    requires Dup(j, machine.mem, machine.pool, owner, done, copies) && |machine.pool| >= 4 && Sound(j) && dst == j.dst
    requires UserPage(j, u) && u !in done && |u| == 4 && Path(u) && e == Leaf(j.m, j.src, u)
    modifies machine
    ensures Dup(j, machine.mem, machine.pool, owner', done + {u}, copies') && |machine.pool| >= |old(machine.pool)| - 4
    ensures Drawn(old(machine.mem), machine.mem, owner, owner', old(machine.pool), machine.pool, copies, copies')
  {
    hide UpperStays, Drawn, Dup, Shape, Plain, Open, Leaf, PoolOk, UserPage, Shared, Addr, Rd, Frame, Zeroed, Path,
         Suffix, Taken, Grown, MappedTo, LeafFor, Fits, Sound, VirtAddr, Indices, SamePage, Kept, WithCopy;
    IndicesInverse(u);
    SoundFacts(j, u);
    ghost var m, pool := machine.mem, machine.pool;
    DupFacts(j, m, pool, owner, done, copies, u);
    var physSource := Addr(e);
    var physTarget := physSource;
    AddrIsFrame(e);
    PoolHead(pool, owner);
    if !Shared(e) {
      physTarget := machine.PagingPhysAllocate();
    }
    CopyFrame(machine, physSource, physTarget);
    ghost var n, pool1 := machine.mem, machine.pool;
    if Shared(e) {
      SameWords(j, m, n, pool, owner, done, copies);
      SharedFits(j, n, pool, owner, copies, u);
      SameDrawn(m, n, owner, pool, copies);
    } else {
      Filled(j, m, n, pool, owner, done, copies, u);
      TablesAreFrames(m, dst, owner);
      FillDrawn(m, n, owner, pool, copies);
    }
    DupFacts(j, n, pool1, owner, done, copies, u);
    ghost var rest;
    var ok;
    FrameRange(physTarget);
    ok, owner', rest := machine.VirtualMapL(dst, VirtAddr(u), physTarget, USER_FLAGS, owner);
    assert machine.pool == rest;
    copies' := WithCopy(j, copies, u, physTarget);
    MapPhase(j, n, machine.mem, pool1, rest, owner, owner', done, copies, u, physTarget);
    MapDrawn(j, n, machine.mem, pool1, rest, owner, owner', copies, u, physTarget);
    DrawnTrans(m, n, machine.mem, owner, owner, owner', pool, pool1, rest, copies, copies, copies);
    CopyDrawn(j, m, machine.mem, owner, owner', pool, rest, copies, u, physTarget);
  }

  lemma FrameRange(f: int)
    requires Frame(f)
    ensures 0 <= f < PHYS
  {
  }

  ghost function Under(users: set<seq<int>>, q: seq<int>): set<seq<int>> { set u | u in users && Prefixes(q, u) }

  /** The entry of a source table reads as it did at the start. */
  lemma SourceSlot(j: Job, m: Mem, pool: seq<int>, owner: Owner, done: set<seq<int>>, copies: map<seq<int>, int>,
                   t: int, i: int)
    requires Dup(j, m, pool, owner, done, copies) && t in j.owner && 0 <= i < 512
    ensures Rd(m, Slot(t, i)) == Rd(j.m, Slot(t, i))
  {
    hide Shape, PoolOk, NoSharedUserTables, DoneOk, SamePages, Rd;
    assert Kept(j, t);
  }

  /**
    The loops of PageDirectoryUserDuplicate below table t: one loop of 512 entries for each level, the next
    level inside it.
   */
  method DuplicateTable(machine: Machine, ghost j: Job, t: int, q: seq<int>, dst: int, ghost owner: Owner,
                        ghost done: set<seq<int>>, ghost copies: map<seq<int>, int>, ghost users: set<seq<int>>)
    returns (ghost owner': Owner, ghost copies': map<seq<int>, int>)
    requires Dup(j, machine.mem, machine.pool, owner, done, copies) && Sound(j) && dst == j.dst && Users(j, users)
    requires AtTable(j, t, q) && t in j.owner && j.owner[t] == q && |q| <= 3
    requires Under(users, q) !! done && |machine.pool| >= 4 * |Under(users, q)|
    modifies machine
    ensures Dup(j, machine.mem, machine.pool, owner', done + Under(users, q), copies')
    ensures |machine.pool| >= |old(machine.pool)| - 4 * |Under(users, q)|
    ensures Drawn(old(machine.mem), machine.mem, owner, owner', old(machine.pool), machine.pool, copies, copies')
    decreases 4 - |q|
  {
    hide Drawn, Dup, Sound, AtTable, UserPage, Rd, Present, Large, User, Writable, Addr, Users, Upto, Under;
    owner', copies' := owner, copies;
    UptoAll(j, users, q);
    UnderIs(users, q);
    assert done + {} == done;
    ghost var m0, pool0 := machine.mem, machine.pool;
    DrawnSelf(m0, owner, pool0, copies);
    for i := 0 to 512
      invariant Drawn(m0, machine.mem, owner, owner', pool0, machine.pool, copies, copies')
      invariant Dup(j, machine.mem, machine.pool, owner', done + Upto(users, q, i), copies')
      invariant |machine.pool| >= |old(machine.pool)| - 4 * |Upto(users, q, i)|
    {
      SourceSlot(j, machine.mem, machine.pool, owner', done + Upto(users, q, i), copies', t, i);
      UptoStep(j, users, q, i);
      UnderIs(users, q + [i]);
      UnderBudget(j, users, q, i, done);
      var e := Rd(machine.mem, Slot(t, i));
      ghost var sofar := done + Upto(users, q, i);
      assert done + Upto(users, q, i + 1) == sofar + Under(users, q + [i]);
      if |q| < 3 {
        OpenSound(j);
        AtSlot(j, t, q, i);
        if Present(e) && !Large(e) {
          ghost var m, pool, o, c := machine.mem, machine.pool, owner', copies';
          owner', copies' := DuplicateTable(machine, j, Addr(e), q + [i], dst, owner', sofar, copies', users);
          DrawnTrans(m0, m, machine.mem, owner, o, owner', pool0, pool, machine.pool, copies, c, copies');
        } else {
          NoUsers(j, users, q + [i]);
        }
      } else {
        AtLeaf(j, t, q, i);
        OnlyUser(j, users, q, i);
        if Present(e) && !Large(e) && User(e) {
          ghost var m, pool, o, c := machine.mem, machine.pool, owner', copies';
          owner', copies' := DuplicatePage(machine, j, e, q + [i], dst, owner', sofar, copies');
          DrawnTrans(m0, m, machine.mem, owner, o, owner', pool0, pool, machine.pool, copies, c, copies');
        }
      }
    }
  }

  lemma UnderIs(users: set<seq<int>>, q: seq<int>)
    ensures Under(users, q) == set u | u in users && Prefixes(q, u)
  {
  }

  lemma OpenSound(j: Job)
    requires Sound(j)
    ensures Shape(j.m, j.src, j.owner)
  {
    hide Shape, Plain, Open, Leaf, UserPage;
  }

  lemma NoUsers(j: Job, users: set<seq<int>>, q: seq<int>)
    requires Users(j, users) && forall u :: Path(u) && Prefixes(q, u) ==> !UserPage(j, u)
    ensures Under(users, q) == {}
  {
    hide Plain, Open, Leaf, UserLeaf;
  }

  lemma OnlyUser(j: Job, users: set<seq<int>>, q: seq<int>, i: int)
    requires Users(j, users) && |q| == 3
    ensures Under(users, q + [i]) == if UserPage(j, q + [i]) then {q + [i]} else {}
  {
    hide Plain, Open, Leaf, UserLeaf;
    forall u | u in Under(users, q + [i]) ensures u == q + [i] {
      UserPath(j, u);
      assert u[..4] == u;
    }
    assert (q + [i])[..4] == q + [i];
  }

  lemma UnderBudget(j: Job, users: set<seq<int>>, q: seq<int>, i: int, done: set<seq<int>>)
    requires Users(j, users) && 0 <= i < 512 && |q| < 4 && Under(users, q) !! done
    ensures |Upto(users, q, i)| + |Under(users, q + [i])| == |Upto(users, q, i + 1)| <= |Under(users, q)|
    ensures Under(users, q + [i]) !! done + Upto(users, q, i)
    ensures UserPage(j, q + [i]) ==> q + [i] !in done + Upto(users, q, i)
  {
    hide UserPage;
    UptoStep(j, users, q, i);
    var a, b := Upto(users, q, i), Under(users, q + [i]);
    assert a !! b && Upto(users, q, i + 1) == a + b;
    Subset(Upto(users, q, i + 1), Under(users, q));
    forall u | u in b ensures u in Under(users, q) { PrefixStep(q, i, u); }
    if UserPage(j, q + [i]) { assert q + [i] in b by { assert (q + [i])[..|q| + 1] == q + [i]; } }
  }

  lemma Subset(a: set<seq<int>>, b: set<seq<int>>)
    requires a <= b
    ensures |a| <= |b|
  {
    assert b == a + (b - a);
  }

  lemma DuplicateStart(j: Job, pool: seq<int>, owner: Owner)
    requires CanDuplicate(j, pool, owner)
    ensures Sound(j) && Dup(j, j.m, pool, owner, {}, map[]) && AtTable(j, j.src, []) && j.src in j.owner
    ensures j.owner[j.src] == []
  {
    hide Rd, Plain, Open, Leaf, PoolOk, Frame, Child, NoSharedUserTables, Kept, UserPage;
    AtRoot(j);
  }

  /** PageDirectoryUserDuplicate */
  method UserDuplicate(machine: Machine, src: int, dst: int, ghost ownerS: Owner, ghost ownerT: Owner,
                       ghost users: set<seq<int>>)
    returns (ghost owner': Owner, ghost copies: map<seq<int>, int>)
    requires CanDuplicate(Job(machine.mem, src, ownerS, dst), machine.pool, ownerT)
    requires Users(Job(machine.mem, src, ownerS, dst), users)
    requires |machine.pool| >= 4 * |users|
    modifies machine
    ensures Dup(Job(old(machine.mem), src, ownerS, dst), machine.mem, machine.pool, owner', users, copies)
    ensures Drawn(old(machine.mem), machine.mem, ownerT, owner', old(machine.pool), machine.pool, map[], copies)
  {
    hide Drawn, Dup, Sound, AtTable, Users, CanDuplicate;
    ghost var j := Job(machine.mem, src, ownerS, dst);
    DuplicateStart(j, machine.pool, ownerT);
    assert Under(users, []) == users;
    owner', copies := DuplicateTable(machine, j, src, [], dst, ownerT, {}, map[], users);
    assert {} + users == users;
  }

  /** The pages to be duplicated, by the bits of their entries: present, for user code, and bit 7 clear. */
  lemma UserFlags(j: Job, u: seq<int>)
    requires Path(u)
    ensures var e := Leaf(j.m, j.src, u);
            && (UserPage(j, u) <==> Plain(j.m, j.src, u) && Flag(e, 0) && Flag(e, 2) && !Flag(e, 7))
            && (Shared(e) <==> Flag(e, 9))
  {
    hide Flag, Leaf, Plain;
    FlagNames(Leaf(j.m, j.src, u));
  }

  /**
    What a duplication amounts to: the source translates as before, the target gains exactly the user pages of the
    source, shared pages are the same frame and private ones have another frame with equal contents.
   */
  lemma DuplicateMeans(j: Job, m: Mem, pool: seq<int>, owner: Owner, users: set<seq<int>>, copies: map<seq<int>, int>,
                       u: seq<int>)
    requires Dup(j, m, pool, owner, users, copies) && Sound(j) && Users(j, users) && Path(u)
    ensures Plain(j.m, j.src, u) ==> Leaf(m, j.src, u) == Leaf(j.m, j.src, u)
    ensures UserPage(j, u) ==>
      var e := Leaf(m, j.dst, u);
      && Present(e) && User(e) && Writable(e) && (Addr(e) == SourceFrame(j, u) <==> Shared(Leaf(j.m, j.src, u)))
      && (forall i :: 0 <= i < 512 ==> Rd(m, Slot(Addr(e), i)) == Rd(j.m, Slot(SourceFrame(j, u), i)))
      && (forall i :: 0 <= i < 512 ==> Rd(m, Slot(SourceFrame(j, u), i)) == Rd(j.m, Slot(SourceFrame(j, u), i)))
    ensures !UserPage(j, u) && Plain(j.m, j.dst, u) ==> Leaf(m, j.dst, u) == Leaf(j.m, j.dst, u)
    ensures var e := Leaf(j.m, j.src, u);
            && (UserPage(j, u) <==> Plain(j.m, j.src, u) && Flag(e, 0) && Flag(e, 2) && !Flag(e, 7))
            && (Shared(e) <==> Flag(e, 9))
  {
    hide Rd, Leaf, Plain, Open, Shape, Addr, Present, User, Writable, Shared, LeafFor, Frame, NoSharedUserTables,
         PoolOk, Flag;
    UserFlags(j, u);
    if Plain(j.m, j.src, u) { SourceKept(j, m, pool, u); }
    if UserPage(j, u) {
      SoundFacts(j, u);
      AddrIsFrame(Leaf(j.m, j.src, u));
      assert Kept(j, SourceFrame(j, u));
      assert u in users;
      UserEntry(if Shared(Leaf(j.m, j.src, u)) then SourceFrame(j, u) else copies[u]);
    }
  }

  /**
    User code can read and write every page of the copy, unless a table of the target was closed to it before. That
    holds of pages that are read-only in the source as well: the flag is not copied.
   */
  lemma CopiesUsable(j: Job, m: Mem, pool: seq<int>, owner: Owner, users: set<seq<int>>, copies: map<seq<int>, int>,
                     u: seq<int>)
    requires Dup(j, m, pool, owner, users, copies) && Sound(j) && Users(j, users) && UserPage(j, u)
    requires Path(u) && Open(j.m, j.dst, u)
    ensures Allows(m, j.dst, u, 1) && Allows(m, j.dst, u, 2)
    ensures (Writable(Leaf(m, j.dst, u)) <==> Writable(Leaf(j.m, j.src, u))) <==> Writable(Leaf(j.m, j.src, u))
  {
    hide Rd, Leaf, Plain, Open, Shape, Addr, Present, User, Writable, Shared, LeafFor, Frame, NoSharedUserTables,
         PoolOk, Allows, Flag, DoneOk, Intact, UserPage;
    DuplicateMeans(j, m, pool, owner, users, copies, u);
    SoundFacts(j, u);
    FlagNames(Leaf(m, j.dst, u));
    LeafDecides(m, j.dst, u, 1);
    LeafDecides(m, j.dst, u, 2);
  }

  /** No page of the directory has a frame of the pool. */
  ghost predicate OffPool(m: Mem, root: int, pool: seq<int>) {
    forall v :: Path(v) && Plain(m, root, v) && Present(Leaf(m, root, v)) ==> Addr(Leaf(m, root, v)) !in pool
  }

  /** The frame of a private page came from the pool and is no table; every frame from elsewhere holds what it held. */
  lemma PrivateFrame(j: Job, m: Mem, pool0: seq<int>, pool: seq<int>, owner0: Owner, owner: Owner, users: set<seq<int>>,
                     copies: map<seq<int>, int>, u: seq<int>)
    requires Dup(j, m, pool, owner, users, copies) && Users(j, users)
    requires Drawn(j.m, m, owner0, owner, pool0, pool, map[], copies)
    requires UserPage(j, u) && !Shared(Leaf(j.m, j.src, u))
    ensures var f := Addr(Leaf(m, j.dst, u)); f in pool0 && f !in pool && f !in owner && f !in j.owner
    ensures forall g :: Frame(g) && g !in owner0 && g !in pool0 ==> SamePage(j.m, m, g)
  {
    hide Rd, Leaf, Plain, Open, Shape, Addr, Present, User, Writable, Shared, LeafFor, Frame, NoSharedUserTables,
         PoolOk, SamePage;
    assert u in users;
    UserEntry(copies[u]);
  }

  /**
    The frame of a private page belongs to that page alone: no page of the source, and no other page of the target, has
    it.
   */
  lemma PrivateFrames(j: Job, m: Mem, pool0: seq<int>, pool: seq<int>, owner0: Owner, owner: Owner,
                      users: set<seq<int>>, copies: map<seq<int>, int>, u: seq<int>, v: seq<int>)
    requires Dup(j, m, pool, owner, users, copies) && Sound(j) && Users(j, users)
    requires Drawn(j.m, m, owner0, owner, pool0, pool, map[], copies)
    requires OffPool(j.m, j.src, pool0) && OffPool(j.m, j.dst, pool0)
    requires UserPage(j, u) && !Shared(Leaf(j.m, j.src, u)) && Path(v)
    ensures Plain(j.m, j.src, v) && Present(Leaf(m, j.src, v)) ==> Addr(Leaf(m, j.src, v)) != Addr(Leaf(m, j.dst, u))
    ensures Plain(j.m, j.dst, v) && Present(Leaf(m, j.dst, v)) && v != u
        ==> Addr(Leaf(m, j.dst, v)) != Addr(Leaf(m, j.dst, u))
  {
    hide Dup, Sound, Drawn, UserPage, Users, Leaf, Plain, Open, Addr, Present, Shared;
    PrivateFrame(j, m, pool0, pool, owner0, owner, users, copies, u);
    DuplicateMeans(j, m, pool, owner, users, copies, v);
    if UserPage(j, v) && v != u { UserFrames(j, m, pool0, pool, owner0, owner, users, copies, u, v); }
  }

  lemma UserFrames(j: Job, m: Mem, pool0: seq<int>, pool: seq<int>, owner0: Owner, owner: Owner, users: set<seq<int>>,
                   copies: map<seq<int>, int>, u: seq<int>, v: seq<int>)
    requires Dup(j, m, pool, owner, users, copies) && Sound(j) && Users(j, users)
    requires UserPage(j, u) && !Shared(Leaf(j.m, j.src, u)) && UserPage(j, v) && u != v
    ensures Addr(Leaf(m, j.dst, u)) != Addr(Leaf(m, j.dst, v))
  {
    hide Rd, Leaf, Plain, Open, Shape, Addr, Present, User, Writable, Shared, LeafFor, Frame, NoSharedUserTables,
         PoolOk;
    assert u in users && v in users;
    UserEntry(copies[u]);
    if Shared(Leaf(j.m, j.src, v)) {
      SoundFacts(j, v);
      AddrIsFrame(Leaf(j.m, j.src, v));
      assert Kept(j, SourceFrame(j, v));
      UserEntry(SourceFrame(j, v));
    } else {
      UserEntry(copies[v]);
    }
  }

  lemma UserEntry(f: int)
    requires Frame(f) && f != 0
    ensures var e := LeafFor(f, USER_FLAGS); 
            Present(e) && User(e) && Writable(e) && !Large(e) && !Shared(e) && Addr(e) == f
  {
    EntryParts(f, USER_FLAGS + 1);
  }

  lemma SourceKept(j: Job, m: Mem, pool: seq<int>, u: seq<int>)
    requires Intact(j, m, pool) && Shape(j.m, j.src, j.owner) && Path(u) && Plain(j.m, j.src, u)
    ensures Leaf(m, j.src, u) == Leaf(j.m, j.src, u) && Plain(m, j.src, u)
  {
    hide Rd, Leaf, Plain, Open, Shape;
    forall f, i | f in j.owner && 0 <= i < 512 ensures Rd(m, Slot(f, i)) == Rd(j.m, Slot(f, i)) { assert Kept(j, f); }
    OffTables(j.m, m, j.src, j.owner);
  }
}
