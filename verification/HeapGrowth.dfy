/** Growing a task's heap: taskAdjustHeap on the current page directory. */
module HeapGrowth {
  import opened Words
  import opened PageTable
  import opened Paging

  ghost predicate SamePage(m: Mem, n: Mem, f: int) {
    forall j :: 0 <= j < 512 ==> Rd(n, Slot(f, j)) == Rd(m, Slot(f, j))
  }

  ghost predicate ZeroPage(m: Mem, f: int) { forall j :: 0 <= j < 512 ==> Rd(m, Slot(f, j)) == 0 }

  /** A frame that is no table on the way and was not handed out keeps its contents when a page is mapped. */
  lemma MapLeavesFrame(m: Mem, n: Mem, s: set<int>, g: int)
    requires SameOutside(m, n, s) && Frame(g) && g !in s && forall f :: f in s ==> Frame(f)
    ensures SamePage(m, n, g)
  {
    hide Rd, Frame;
    forall j | 0 <= j < 512 ensures Rd(n, Slot(g, j)) == Rd(m, Slot(g, j)) {
      forall f | f in s ensures !(f <= Slot(g, j) < f + PAGE) { ApartFrames(f, g, j); }
      assert Outside(s, Slot(g, j));
    }
  }

  /** The tables on the way to a page are tables of the directory. */
  lemma PathOwned(m: Mem, root: int, owner: Owner, v: seq<int>)
    requires Shape(m, root, owner) && Path(v) && Plain(m, root, v)
    ensures forall f :: f in PathTables(m, root, v) ==> f in owner
  {
    hide Rd, Shape, Plain, Open, TableAt;
    Located(m, root, owner, v, 1);
    Located(m, root, owner, v, 2);
    Located(m, root, owner, v, 3);
    RootOwned(m, root, owner);
  }

  lemma RootOwned(m: Mem, root: int, owner: Owner)
    requires Shape(m, root, owner)
    ensures root in owner
  {
    hide Child;
  }

  /** Page number p as an index path. */
  function PageAt(p: int): (u: seq<int>)
    ensures Path(u)
  {
    Indices(p * PAGE)
  }

  const PAGES: int := 0x10_0000_0000

  lemma PagesDiffer(p: int, q: int)
    requires 0 <= p < PAGES && 0 <= q < PAGES && p != q
    ensures PageAt(p) != PageAt(q)
  {
    hide Indices;
    PageSplit(0, p, 0);
    PageSplit(0, q, 0);
    OtherPage(p * PAGE, q * PAGE);
  }

  /** Frame 0 is reserved: no page is mapped to it. */
  ghost predicate NoZeroFrame(m: Mem, root: int) {
    forall u :: Path(u) && Plain(m, root, u) && Present(Leaf(m, root, u)) ==> Addr(Leaf(m, root, u)) != 0
  }

  /** Page number p was just given, for user code to write, a new frame of zeroes, no table and not in the pool. */
  ghost predicate NewPage(m: Mem, root: int, owner: Owner, pool: seq<int>, p: int) {
    var e := Leaf(m, root, PageAt(p));
    && Present(e) && User(e) && Writable(e)
    && Addr(e) != 0 && Addr(e) !in owner && Addr(e) !in pool && ZeroPage(m, Addr(e))
  }

  /** Page u is mapped already, or is not one of the pages from a up to b. */
  ghost predicate Untouched(m: Mem, root: int, a: int, b: int, u: seq<int>)
    requires Path(u)
  {
    Present(Leaf(m, root, u)) || forall p :: a <= p < b ==> u != PageAt(p)
  }

  /** Pages from a up to b are mapped; those that were not are new; all other pages are as they were. */
  ghost predicate GrownTo(m0: Mem, m: Mem, root: int, owner: Owner, pool: seq<int>, a: int, b: int) {
    && Shape(m, root, owner) && PoolOk(pool, owner) && 0 !in pool
    && (forall u :: Path(u) && Plain(m0, root, u) ==> Plain(m, root, u) && (Open(m0, root, u) ==> Open(m, root, u)))
    && (forall u :: Path(u) && Plain(m0, root, u) && Untouched(m0, root, a, b, u) ==>
                      Leaf(m, root, u) == Leaf(m0, root, u))
    && (forall p :: a <= p < b && !Present(Leaf(m0, root, PageAt(p))) ==> NewPage(m, root, owner, pool, p))
  }

  /** Tables and frames came from the pool in order, and every other frame holds what it held. */
  ghost predicate FramesKept(m0: Mem, m: Mem, owner0: Owner, owner: Owner, pool0: seq<int>, pool: seq<int>) {
    && Suffix(pool0, pool) && Grown(owner0, owner, pool0)
    && forall g :: Frame(g) && g !in owner0 && g !in pool0 ==> SamePage(m0, m, g)
  }

  /** The frames of the new pages came from the pool, one for each. */
  ghost predicate NewFrames(m0: Mem, m: Mem, root: int, pool0: seq<int>, a: int, b: int) {
    && (forall p :: a <= p < b && !Present(Leaf(m0, root, PageAt(p))) ==> Addr(Leaf(m, root, PageAt(p))) in pool0)
    && (forall p, q :: a <= p < q < b && !Present(Leaf(m0, root, PageAt(p))) && !Present(Leaf(m0, root, PageAt(q))) ==>
        Addr(Leaf(m, root, PageAt(p))) != Addr(Leaf(m, root, PageAt(q))))
  }

  /** A range of pages whose walks meet no large page. */
  ghost predicate PlainRange(m: Mem, root: int, a: int, b: int) { forall p :: a <= p < b ==> Plain(m, root, PageAt(p)) }

  /** One more page: it was mapped already. */
  lemma GrowthSkips(m0: Mem, m: Mem, root: int, owner: Owner, pool: seq<int>, a: int, b: int)
    requires GrownTo(m0, m, root, owner, pool, a, b) && 0 <= a <= b < PAGES && Plain(m0, root, PageAt(b))
    requires Present(Leaf(m, root, PageAt(b)))
    ensures Present(Leaf(m0, root, PageAt(b))) && GrownTo(m0, m, root, owner, pool, a, b + 1)
  {
    hide Rd, Shape, Plain, Open, PoolOk, Leaf, NewPage, PageAt;
    forall p | a <= p < b ensures PageAt(b) != PageAt(p) { PagesDiffer(b, p); }
  }

  const HEAP_FLAGS: int := 6

  /** Frame f was taken from the pool, page b mapped to it, and the frame zeroed. */
  ghost predicate OnePage(m: Mem, n: Mem, root: int, owner: Owner, owner': Owner, pool: seq<int>, rest: seq<int>,
                          b: int, f: int) {
    && |pool| > 0 && f == pool[0] && Suffix(pool[1..], rest) && Grown(owner, owner', pool[1..]) && PoolOk(rest, owner')
    && MappedTo(m, n, root, owner', PageAt(b), LeafFor(f, HEAP_FLAGS), Taken(pool[1..], rest))
  }

  lemma PoolParts(pool: seq<int>, rest: seq<int>, owner: Owner, owner': Owner)
    requires PoolOk(pool, owner) && |pool| > 0 && Suffix(pool[1..], rest) && Grown(owner, owner', pool[1..])
    ensures Frame(pool[0]) && pool[0] !in owner' && pool[0] !in rest && pool[0] !in Taken(pool[1..], rest)
    ensures forall f :: f in rest ==> f in pool
    ensures forall f :: f in Taken(pool[1..], rest) ==> f in pool && Frame(f)
    ensures forall f :: f in owner' ==> f in owner || f in pool
  {
    hide Frame;
    var p := pool[1..];
    assert forall f :: f in p ==> f in pool && f != pool[0];
    TakenFromPool(p, rest);
    assert forall f :: f in rest ==> f in p;
  }

  lemma GrowthMaps(m0: Mem, m: Mem, n: Mem, root: int, owner: Owner, owner': Owner, pool: seq<int>, rest: seq<int>,
                   a: int, b: int, f: int)
    requires GrownTo(m0, m, root, owner, pool, a, b) && 0 <= a <= b < PAGES && PlainRange(m0, root, a, b + 1)
    requires !Present(Leaf(m, root, PageAt(b))) && OnePage(m, n, root, owner, owner', pool, rest, b, f)
    ensures GrownTo(m0, Zeroed(n, f), root, owner', rest, a, b + 1)
  {
    hide Rd, Shape, Plain, Open, PoolOk, Leaf, PageAt, Zeroed, Frame, Taken, Suffix, Grown, PathTables, LeafFor, Addr,
         Present, User, Writable, NewPage;
    var k, v := Zeroed(n, f), PageAt(b);
    PoolParts(pool, rest, owner, owner');
    MappedShape(m, n, root, owner', v, LeafFor(f, HEAP_FLAGS), Taken(pool[1..], rest));
    FrameZeroed(n, root, owner', f);
    forall p | a <= p < b ensures v != PageAt(p) { PagesDiffer(b, p); }
    forall p | a <= p < b + 1 && !Present(Leaf(m0, root, PageAt(p))) ensures NewPage(k, root, owner', rest, p) {
      if p == b {
        FirstTouch(n, root, owner', rest, b, f);
      } else {
        StillNew(m0, m, n, root, owner, owner', pool, rest, a, b, f, p);
      }
    }
  }

  lemma SuffixTrans(pool0: seq<int>, pool: seq<int>, rest: seq<int>)
    requires Suffix(pool0, pool) && |pool| > 0 && Suffix(pool[1..], rest)
    ensures Suffix(pool0, rest) && forall f :: f in pool ==> f in pool0
  {
  }

  lemma FramesKeptOn(m0: Mem, m: Mem, n: Mem, root: int, owner0: Owner, owner: Owner, owner': Owner, pool0: seq<int>,
                     pool: seq<int>, rest: seq<int>, b: int, f: int)
    requires FramesKept(m0, m, owner0, owner, pool0, pool) && Shape(m, root, owner) && PoolOk(pool, owner)
    requires Plain(m, root, PageAt(b))
    requires OnePage(m, n, root, owner, owner', pool, rest, b, f)
    ensures FramesKept(m0, Zeroed(n, f), owner0, owner', pool0, rest)
  {
    hide Rd, Shape, Plain, Open, PoolOk, Leaf, PageAt, Zeroed, Frame, Taken, Suffix, PathTables, LeafFor, SamePage;
    var v := PageAt(b);
    PoolParts(pool, rest, owner, owner');
    SuffixTrans(pool0, pool, rest);
    MappedShape(m, n, root, owner', v, LeafFor(f, HEAP_FLAGS), Taken(pool[1..], rest));
    PathOwned(m, root, owner, v);
    TablesAreFrames(m, root, owner);
    forall g | Frame(g) && g !in owner0 && g !in pool0 ensures SamePage(m0, Zeroed(n, f), g) {
      MapLeavesFrame(m, n, PathTables(m, root, v) + Taken(pool[1..], rest), g);
      ZeroedElsewhere(m0, m, n, f, g);
    }
  }

  lemma ZeroedElsewhere(m0: Mem, m: Mem, n: Mem, f: int, g: int)
    requires SamePage(m0, m, g) && SamePage(m, n, g) && Frame(f) && Frame(g) && f != g
    ensures SamePage(m0, Zeroed(n, f), g)
  {
    hide Rd, Zeroed, Frame;
    forall j | 0 <= j < 512 ensures Rd(Zeroed(n, f), Slot(g, j)) == Rd(m0, Slot(g, j)) {
      ApartFrames(f, g, j);
      ZeroedRd(n, f, Slot(g, j));
    }
  }

  lemma NewFramesOn(m0: Mem, m: Mem, n: Mem, root: int, owner0: Owner, owner: Owner, owner': Owner, pool0: seq<int>,
                    pool: seq<int>, rest: seq<int>, a: int, b: int, f: int)
    requires GrownTo(m0, m, root, owner, pool, a, b) && 0 <= a <= b < PAGES && PlainRange(m0, root, a, b + 1)
    requires NewFrames(m0, m, root, pool0, a, b) && FramesKept(m0, m, owner0, owner, pool0, pool)
    requires OnePage(m, n, root, owner, owner', pool, rest, b, f)
    ensures NewFrames(m0, Zeroed(n, f), root, pool0, a, b + 1)
  {
    hide Rd, Shape, Plain, Open, PoolOk, Leaf, PageAt, Zeroed, Frame, Taken, Suffix, Grown, PathTables, Addr, Present,
         User, Writable;
    var k, v := Zeroed(n, f), PageAt(b);
    PoolParts(pool, rest, owner, owner');
    SuffixTrans(pool0, pool, rest);
    MappedShape(m, n, root, owner', v, LeafFor(f, HEAP_FLAGS), Taken(pool[1..], rest));
    FrameZeroed(n, root, owner', f);
    HeapEntry(f);
    assert f in pool0 && Addr(Leaf(k, root, v)) == f;
    forall p | a <= p < b ensures Leaf(k, root, PageAt(p)) == Leaf(m, root, PageAt(p)) { PagesDiffer(b, p); }
    forall p | a <= p < b && !Present(Leaf(m0, root, PageAt(p))) ensures Addr(Leaf(k, root, PageAt(p))) != f {
      assert NewPage(m, root, owner, pool, p);
    }
  }

  lemma HeapEntry(f: int)
    requires Frame(f) && f != 0
    ensures var e := LeafFor(f, HEAP_FLAGS); Present(e) && User(e) && Writable(e) && Addr(e) == f
  {
    EntryParts(f, HEAP_FLAGS + 1);
  }

  lemma NewFramesSkip(m0: Mem, m: Mem, root: int, pool0: seq<int>, a: int, b: int)
    requires NewFrames(m0, m, root, pool0, a, b) && Present(Leaf(m0, root, PageAt(b)))
    ensures NewFrames(m0, m, root, pool0, a, b + 1)
  {
    hide Leaf, PageAt, Present, User, Writable, Addr;
  }

  /**
    Growth seen from the pages there were: each keeps its frame and every word in it, and no new page shares a frame
    with any page.
   */
  lemma PagesKept(m0: Mem, m: Mem, root: int, owner0: Owner, owner: Owner, pool0: seq<int>, pool: seq<int>, a: int,
                  b: int, u: seq<int>, p: int)
    requires GrownTo(m0, m, root, owner, pool, a, b) && FramesKept(m0, m, owner0, owner, pool0, pool)
    requires NewFrames(m0, m, root, pool0, a, b)
    requires Path(u) && Plain(m0, root, u) && Present(Leaf(m0, root, u))
    requires Addr(Leaf(m0, root, u)) !in owner0 && Addr(Leaf(m0, root, u)) !in pool0
    ensures Leaf(m, root, u) == Leaf(m0, root, u) && SamePage(m0, m, Addr(Leaf(m0, root, u)))
    ensures a <= p < b && !Present(Leaf(m0, root, PageAt(p)))
        ==> Addr(Leaf(m, root, PageAt(p))) != Addr(Leaf(m, root, u))
  {
    hide Shape, Plain, Open, Leaf, PoolOk, PageAt, Present, User, Writable, Addr, NewPage, SamePage, Grown, Suffix;
    AddrIsFrame(Leaf(m0, root, u));
  }

  lemma MappedShape(m: Mem, n: Mem, root: int, owner: Owner, v: seq<int>, e: int, taken: set<int>)
    requires Path(v) && MappedTo(m, n, root, owner, v, e, taken)
    ensures Shape(n, root, owner) && SamePages(m, n, root, {v}) && Plain(n, root, v) && Leaf(n, root, v) == e
    ensures SameOutside(m, n, PathTables(m, root, v) + taken)
  {
    hide Shape, Leaf, Plain, Open, PathTables;
  }

  lemma FrameZeroed(n: Mem, root: int, owner: Owner, f: int)
    requires Shape(n, root, owner) && Frame(f) && f !in owner
    ensures var k := Zeroed(n, f);
            && Shape(k, root, owner) && ZeroPage(k, f)
            && SamePages(n, k, root, {})
            && (forall g :: ZeroPage(n, g) ==> ZeroPage(k, g))
  {
    hide Rd, Shape, Leaf, Plain, Open, Zeroed, Frame;
    var k := Zeroed(n, f);
    forall w ensures Rd(k, w) == if f <= w < f + PAGE then 0 else Rd(n, w) { ZeroedRd(n, f, w); }
    TablesAreFrames(n, root, owner);
    OneFrameOff(n, k, owner, f);
    OffTables(n, k, root, owner);
    forall j | 0 <= j < 512 ensures Rd(k, Slot(f, j)) == 0 { InPage(f, j); }
  }

  lemma FirstTouch(n: Mem, root: int, owner: Owner, rest: seq<int>, b: int, f: int)
    requires Shape(n, root, owner) && Frame(f) && f !in owner && f !in rest && f != 0 && Plain(n, root, PageAt(b))
    requires Leaf(n, root, PageAt(b)) == LeafFor(f, HEAP_FLAGS)
    ensures NewPage(Zeroed(n, f), root, owner, rest, b)
  {
    hide Rd, Shape, Leaf, Plain, Open, Zeroed, PageAt, Addr, Present, User, Writable;
    FrameZeroed(n, root, owner, f);
    HeapEntry(f);
  }

  lemma StillNew(m0: Mem, m: Mem, n: Mem, root: int, owner: Owner, owner': Owner, pool: seq<int>, rest: seq<int>,
                 a: int, b: int, f: int, p: int)
    requires GrownTo(m0, m, root, owner, pool, a, b) && 0 <= a <= b < PAGES && Plain(m0, root, PageAt(b))
    requires Plain(m, root, PageAt(p))
    requires OnePage(m, n, root, owner, owner', pool, rest, b, f)
    requires a <= p < b && NewPage(m, root, owner, pool, p) && PageAt(p) != PageAt(b)
    ensures NewPage(Zeroed(n, f), root, owner', rest, p)
  {
    hide Rd, Shape, Plain, Open, PoolOk, Leaf, PageAt, Zeroed, Frame, Taken, Suffix, Grown, PathTables, LeafFor, Addr,
         Present, User, Writable;
    var k, v := Zeroed(n, f), PageAt(b);
    var g := Addr(Leaf(m, root, PageAt(p)));
    PoolParts(pool, rest, owner, owner');
    MappedShape(m, n, root, owner', v, LeafFor(f, HEAP_FLAGS), Taken(pool[1..], rest));
    FrameZeroed(n, root, owner', f);
    PathOwned(m, root, owner, v);
    TablesAreFrames(m, root, owner);
    AddrIsFrame(Leaf(m, root, PageAt(p)));
    MapLeavesFrame(m, n, PathTables(m, root, v) + Taken(pool[1..], rest), g);
  }

  function DivRoundUp(n: int, d: int): int
    requires d > 0
  {
    (n + d - 1) / d
  }

  lemma GrowthStart(m: Mem, root: int, owner: Owner, pool: seq<int>, a: int)
    requires Shape(m, root, owner) && PoolOk(pool, owner) && 0 !in pool
    ensures GrownTo(m, m, root, owner, pool, a, a)
  {
    hide Shape, Plain, Open, Leaf, PoolOk, PageAt;
  }

  lemma NothingYet(m: Mem, root: int, owner: Owner, pool: seq<int>, a: int)
    ensures FramesKept(m, m, owner, owner, pool, pool) && NewFrames(m, m, root, pool, a, a)
  {
    hide Leaf, PageAt;
  }

  /** taskAdjustHeap; a refusal stands for the task being killed. */
  method AdjustHeap(machine: Machine, root: int, newEnd: int, start: int, end: int, ghost owner: Owner)
    returns (ok: bool, end': int, ghost owner': Owner)
    requires Shape(machine.mem, root, owner) && PoolOk(machine.pool, owner) && 0 !in machine.pool && root != NONE
    requires 0 <= start <= end && NoZeroFrame(machine.mem, root)
    requires var a, b := DivRoundUp(end, PAGE), DivRoundUp(newEnd, PAGE);
      a < b ==>
        && b < PAGES && PlainRange(machine.mem, root, a, b) && |machine.pool| >= 4 * (b - a)
        && (b * PAGE < machine.hhdm || machine.hhdm + machine.hhdmLength < a * PAGE)
    modifies machine
    ensures ok <==> newEnd > start && DivRoundUp(newEnd, PAGE) >= DivRoundUp(end, PAGE)
    ensures !ok ==> end' == end && machine.mem == old(machine.mem) && machine.pool == old(machine.pool)
    ensures ok ==> end' == newEnd && GrownTo(old(machine.mem), machine.mem, root, owner', machine.pool,
        DivRoundUp(end, PAGE), DivRoundUp(newEnd, PAGE))
    ensures ok ==> FramesKept(old(machine.mem), machine.mem, owner, owner', old(machine.pool), machine.pool)
    ensures ok ==> NewFrames(old(machine.mem), machine.mem, root, old(machine.pool), DivRoundUp(end, PAGE),
        DivRoundUp(newEnd, PAGE))
  {
    hide FramesKept, NewFrames, Shape, Plain, Open, Leaf, PoolOk, PageAt, DivRoundUp, GrownTo, NewPage, NoZeroFrame,
         PlainRange, Translation, Indices;
    owner', end' := owner, end;
    if newEnd <= start {
      return false, end, owner;
    }
    var oldTop, newTop := DivRoundUp(end, PAGE), DivRoundUp(newEnd, PAGE);
    assert oldTop >= 0 by { RoundUpNat(end); }
    ghost var m0, pool0 := machine.mem, machine.pool;
    GrowthStart(m0, root, owner, pool0, oldTop);
    NothingYet(m0, root, owner, pool0, oldTop);
    if newTop > oldTop {
      for i := 0 to newTop - oldTop
        invariant GrownTo(m0, machine.mem, root, owner', machine.pool, oldTop, oldTop + i)
        invariant |machine.pool| >= 4 * (newTop - oldTop - i)
        invariant FramesKept(m0, machine.mem, owner, owner', pool0, machine.pool)
        invariant NewFrames(m0, machine.mem, root, pool0, oldTop, oldTop + i)
      {
        owner' := GrowPage(machine, root, oldTop * PAGE + i * PAGE, m0, owner, pool0, oldTop, oldTop + i, newTop,
            owner');
      }
    } else if newTop < oldTop {
      return false, end, owner;
    }
    ok, end' := true, newEnd;
  }

  lemma RoundUpNat(n: int)
    requires n >= 0
    ensures DivRoundUp(n, PAGE) >= 0
  {
  }

  /** One round of the loop: a page that is not mapped gets a zeroed frame. */
  method GrowPage(machine: Machine, root: int, virt: int, ghost m0: Mem, ghost owner0: Owner, ghost pool0: seq<int>,
                  ghost a: int, ghost b: int, ghost top: int, ghost owner: Owner)
    returns (ghost owner': Owner)
    requires GrownTo(m0, machine.mem, root, owner, machine.pool, a, b) && 0 <= a <= b < top < PAGES
    requires PlainRange(m0, root, a, top)
    requires virt == b * PAGE && |machine.pool| >= 4 && root != NONE && NoZeroFrame(m0, root)
    requires top * PAGE < machine.hhdm || machine.hhdm + machine.hhdmLength < a * PAGE
    requires FramesKept(m0, machine.mem, owner0, owner, pool0, machine.pool)
    requires NewFrames(m0, machine.mem, root, pool0, a, b)
    modifies machine
    ensures FramesKept(m0, machine.mem, owner0, owner', pool0, machine.pool)
    ensures NewFrames(m0, machine.mem, root, pool0, a, b + 1)
    ensures GrownTo(m0, machine.mem, root, owner', machine.pool, a, b + 1) && |machine.pool| >= |old(machine.pool)| - 4
  {
    hide FramesKept, NewFrames, Shape, Plain, Open, Leaf, PoolOk, GrownTo, NewPage, NoZeroFrame, PlainRange, Indices,
         Present, User, Writable, Addr, Zeroed, MappedTo, LeafFor, Frame, Taken, Suffix, Grown;
    owner' := owner;
    ghost var m, pool := machine.mem, machine.pool;
    PageState(m0, m, root, owner, pool, a, b, top, machine.hhdm, machine.hhdmLength);
    var phys := machine.VirtualToPhysicalL(root, virt);
    if phys != 0 {
      GrowthSkips(m0, m, root, owner, pool, a, b);
      NewFramesSkip(m0, m, root, pool0, a, b);
    } else {
      var f := machine.PhysicalAllocate();
      PoolTail(pool, owner);
      ghost var rest;
      var ok;
      ok, owner', rest := machine.VirtualMapL(root, virt, f, HEAP_FLAGS, owner);
      assert machine.pool == rest;
      GrowthMaps(m0, m, machine.mem, root, owner, owner', pool, rest, a, b, f);
      FramesKeptOn(m0, m, machine.mem, root, owner0, owner, owner', pool0, pool, rest, b, f);
      NewFramesOn(m0, m, machine.mem, root, owner0, owner, owner', pool0, pool, rest, a, b, f);
      machine.mem := Zeroed(machine.mem, f);
    }
  }

  lemma PoolTail(pool: seq<int>, owner: Owner)
    requires PoolOk(pool, owner) && |pool| > 0
    ensures PoolOk(pool[1..], owner) && 0 <= pool[0] < PHYS
  {
  }

  lemma PageState(m0: Mem, m: Mem, root: int, owner: Owner, pool: seq<int>, a: int, b: int, top: int, hhdm: int,
                  len: int)
    requires GrownTo(m0, m, root, owner, pool, a, b) && 0 <= a <= b < top < PAGES && PlainRange(m0, root, a, top)
    requires NoZeroFrame(m0, root) && root != NONE && (top * PAGE < hhdm || hhdm + len < a * PAGE)
    ensures Shape(m, root, owner) && PoolOk(pool, owner) && Plain(m, root, PageAt(b)) && Plain(m0, root, PageAt(b))
    ensures PlainRange(m0, root, a, b + 1)
    ensures PageAt(b) == Indices(b * PAGE) && (b * PAGE) % PAGE == 0
    ensures Translation(m, root, b * PAGE, hhdm, len) != 0 <==> Present(Leaf(m, root, PageAt(b)))
  {
    hide Shape, Plain, Open, Leaf, PoolOk, NewPage, Indices, Present, User, Writable;
    assert Plain(m0, root, PageAt(b));
    forall p | a <= p < b ensures PageAt(b) != PageAt(p) { PagesDiffer(b, p); }
    assert Leaf(m, root, PageAt(b)) == Leaf(m0, root, PageAt(b));
  }

  /** User code can read and write every new page, unless a table that was there before is closed to it. */
  lemma NewPagesUsable(m0: Mem, m: Mem, root: int, owner: Owner, pool: seq<int>, a: int, b: int, p: int)
    requires GrownTo(m0, m, root, owner, pool, a, b) && PlainRange(m0, root, a, b) && a <= p < b
    requires !Present(Leaf(m0, root, PageAt(p))) && Open(m0, root, PageAt(p))
    ensures Allows(m, root, PageAt(p), 1) && Allows(m, root, PageAt(p), 2)
  {
    hide Shape, Plain, Open, Leaf, PoolOk, PageAt, Present, User, Writable, Allows, Flag, Addr;
    var u := PageAt(p);
    assert NewPage(m, root, owner, pool, p) && Plain(m0, root, u);
    FlagNames(Leaf(m, root, u));
    LeafDecides(m, root, u, 1);
    LeafDecides(m, root, u, 2);
  }

  /** Every page that holds a byte of [start, end) is mapped. */
  ghost predicate Covered(m: Mem, root: int, start: int, end: int) {
    forall p :: start / PAGE <= p < DivRoundUp(end, PAGE) ==> Present(Leaf(m, root, PageAt(p)))
  }

  /** Growth keeps a task's heap covered. */
  lemma StaysCovered(m0: Mem, m: Mem, root: int, owner: Owner, pool: seq<int>, start: int, end: int, newEnd: int)
    requires Covered(m0, root, start, end) && 0 <= start <= end
    requires DivRoundUp(end, PAGE) <= DivRoundUp(newEnd, PAGE) < PAGES
    requires PlainRange(m0, root, start / PAGE, DivRoundUp(newEnd, PAGE))
    requires GrownTo(m0, m, root, owner, pool, DivRoundUp(end, PAGE), DivRoundUp(newEnd, PAGE))
    ensures Covered(m, root, start, newEnd)
  {
    hide Shape, Plain, Open, Leaf, PoolOk, PageAt, DivRoundUp, Present, User, Writable;
    var a, b := DivRoundUp(end, PAGE), DivRoundUp(newEnd, PAGE);
    forall p | start / PAGE <= p < b ensures Present(Leaf(m, root, PageAt(p))) {
      assert Plain(m0, root, PageAt(p));
      if p >= a && !Present(Leaf(m0, root, PageAt(p))) { assert NewPage(m, root, owner, pool, p); }
    }
  }
}
