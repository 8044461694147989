/** The kernel's mapping and translation routines. */
module Paging {
  import opened Words
  import opened PageTable

  const LOW48: int := 0x1_0000_0000_0000

  /** AMD64_MM_STRIPSX, then PML4E, PDPTE, PDE and PTE */
  function Indices(virt: int): (u: seq<int>)
    ensures Path(u)
  {
    var a := virt % LOW48;
    [a / 0x80_0000_0000 % 512, a / 0x4000_0000 % 512, a / 0x20_0000 % 512, a / 0x1000 % 512]
  }

  /** BITS_TO_VIRT_ADDR */
  function VirtAddr(u: seq<int>): int
    requires |u| == 4
  {
    u[0] * 0x80_0000_0000 + u[1] * 0x4000_0000 + u[2] * 0x20_0000 + u[3] * 0x1000
  }

  /** The two macros are inverse, so pages and index paths correspond one to one. */
  lemma IndicesInverse(u: seq<int>)
    requires Path(u)
    ensures Indices(VirtAddr(u)) == u && VirtAddr(u) % PAGE == 0 && 0 <= VirtAddr(u) < LOW48
  {
    var a, b, c, d := u[0], u[1], u[2], u[3];
    assert VirtAddr(u) == 0x1000 * (512 * (512 * (512 * a + b) + c) + d);
    Digits(a, b, c, d);
  }

  lemma Digits(a: int, b: int, c: int, d: int)
    requires 0 <= a < 512 && 0 <= b < 512 && 0 <= c < 512 && 0 <= d < 512
    ensures var n := 0x1000 * (512 * (512 * (512 * a + b) + c) + d);
            && 0 <= n < LOW48 && n / 0x80_0000_0000 % 512 == a && n / 0x4000_0000 % 512 == b
            && n / 0x20_0000 % 512 == c && n / 0x1000 % 512 == d
  {
    var n := 0x1000 * (512 * (512 * (512 * a + b) + c) + d);
    LastDigit(512 * (512 * a + b) + c, d);
    LastDigit(512 * a + b, c);
    LastDigit(a, b);
    Shift12(512 * (512 * (512 * a + b) + c) + d, 0);
    Shift21(512 * (512 * a + b) + c, 0x1000 * d);
    Shift30(512 * a + b, 0x1000 * (512 * c + d));
    Shift39(a, 0x1000 * (512 * (512 * b + c) + d));
  }

  lemma LastDigit(a: int, d: int)
    requires 0 <= d < 512
    ensures (512 * a + d) % 512 == d
  {
  }

  lemma Shift12(a: int, r: int)
    requires 0 <= r < 0x1000
    ensures (0x1000 * a + r) / 0x1000 == a
  {
  }

  lemma Shift21(a: int, r: int)
    requires 0 <= r < 0x20_0000
    ensures (0x20_0000 * a + r) / 0x20_0000 == a
  {
  }

  lemma Shift30(a: int, r: int)
    requires 0 <= r < 0x4000_0000
    ensures (0x4000_0000 * a + r) / 0x4000_0000 == a
  {
  }

  lemma Shift39(a: int, r: int)
    requires 0 <= r < 0x80_0000_0000
    ensures (0x80_0000_0000 * a + r) / 0x80_0000_0000 == a
  {
  }

  lemma VirtInverse(virt: int)
    ensures VirtAddr(Indices(virt)) == virt % LOW48 - virt % PAGE
  {
    var a := virt % LOW48;
    assert virt % PAGE == a % PAGE;
    var p := a / 0x1000;
    assert a == 0x1000 * p + a % 0x1000;
    assert a / 0x20_0000 == p / 512 && a / 0x4000_0000 == p / 512 / 512 && a / 0x80_0000_0000 == p / 512 / 512 / 512;
  }

  /** The indices from the top down: each level splits the stretch of the level above into 512 parts. */
  lemma IndexParts(a: int)
    requires 0 <= a < LOW48
    ensures Indices(a)[0] == a / 0x80_0000_0000
    ensures a / 0x4000_0000 == 512 * (a / 0x80_0000_0000) + Indices(a)[1]
    ensures a / 0x20_0000 == 512 * (a / 0x4000_0000) + Indices(a)[2]
    ensures a / 0x1000 == 512 * (a / 0x20_0000) + Indices(a)[3]
  {
    var p := a / 0x1000;
    var q := p / 512;
    assert a / 0x20_0000 == q && a / 0x4000_0000 == q / 512 && a / 0x80_0000_0000 == q / 512 / 512;
  }

  /**
    Two addresses go through the same table of a level just if they are in the same stretch of 512 GB, 1 GB or 2 MB,
    and have the same indices just if they are in the same page.
   */
  lemma SharedTables(x: int, y: int)
    requires 0 <= x < LOW48 && 0 <= y < LOW48
    ensures Indices(x)[..1] == Indices(y)[..1] <==> x / 0x80_0000_0000 == y / 0x80_0000_0000
    ensures Indices(x)[..2] == Indices(y)[..2] <==> x / 0x4000_0000 == y / 0x4000_0000
    ensures Indices(x)[..3] == Indices(y)[..3] <==> x / 0x20_0000 == y / 0x20_0000
    ensures Indices(x) == Indices(y) <==> x / 0x1000 == y / 0x1000
  {
    IndexParts(x);
    IndexParts(y);
    hide Indices;
    var u, v := Indices(x), Indices(y);
    assert u[..1] == v[..1] <==> u[0] == v[0];
    assert u[..2] == v[..2] <==> u[0] == v[0] && u[1] == v[1];
    assert u[..3] == v[..3] <==> u[0] == v[0] && u[1] == v[1] && u[2] == v[2];
    assert u == v <==> u[0] == v[0] && u[1] == v[1] && u[2] == v[2] && u[3] == v[3];
  }

  /** The frames the physical allocator can hand out: real, distinct, and no table. */
  ghost predicate PoolOk(pool: seq<int>, owner: Owner) {
    && (forall i :: 0 <= i < |pool| ==> Frame(pool[i]) && pool[i] !in owner)
    && (forall i, j :: 0 <= i < j < |pool| ==> pool[i] != pool[j])
  }

  /** The word w is in none of the given frames. */
  ghost predicate Outside(s: set<int>, w: int) { forall f :: f in s ==> !(f <= w < f + PAGE) }

  /** Every word outside the given frames is unchanged. */
  ghost predicate SameOutside(m: Mem, n: Mem, s: set<int>) { forall w :: Outside(s, w) ==> Rd(n, w) == Rd(m, w) }

  ghost function PathTables(m: Mem, root: int, v: seq<int>): set<int>
    requires Path(v)
  {
    {root, TableAt(m, root, v, 1), TableAt(m, root, v, 2), TableAt(m, root, v, 3)} - {NONE}
  }

  /** Frames handed out between two states of the pool. */
  ghost function Taken(pool: seq<int>, pool': seq<int>): set<int> {
    set i | 0 <= i < |pool| - |pool'| && i < |pool| :: pool[i]
  }

  ghost predicate Suffix(pool: seq<int>, pool': seq<int>) { |pool'| <= |pool| && pool' == pool[|pool| - |pool'|..] }

  /** Tables may have been added on the way to page v; no page translates differently. */
  ghost predicate Extended(m: Mem, n: Mem, root: int, owner: Owner, owner': Owner, pool: seq<int>, pool': seq<int>,
                           v: seq<int>)
    requires Path(v)
  {
    && Shape(n, root, owner') && PoolOk(pool', owner') && SamePages(m, n, root, {})
    && Suffix(pool, pool') && (forall f :: f in owner ==> f in owner' && owner'[f] == owner[f])
    && (forall f :: f in owner' ==> f in owner || f in Taken(pool, pool'))
    && SameOutside(m, n, PathTables(m, root, v) + Taken(pool, pool'))
    && PathTables(n, root, v) <= PathTables(m, root, v) + Taken(pool, pool') && UpperStays(m, n, owner)
  }

  /** A missing table on the way to v is allocated. */
  lemma ExtendOnce(m: Mem, root: int, owner: Owner, pool: seq<int>, v: seq<int>, d: nat)
    requires Shape(m, root, owner) && PoolOk(pool, owner) && |pool| > 0 && Path(v) && Plain(m, root, v) && d < 3
    requires TableAt(m, root, v, d) != NONE && TableAt(m, root, v, d + 1) == NONE
    ensures var n := Hung(m, TableAt(m, root, v, d), v[d], pool[0]);
            && Extended(m, n, root, owner, owner[pool[0] := v[..d + 1]], pool, pool[1..], v)
            && TableAt(n, root, v, d + 1) == pool[0] && Plain(n, root, v) && pool[0] != NONE
  {
    hide Rd, Present, Large, Addr, Shape, Leaf, Plain, Open, Hung, Frame;
    var t, f := TableAt(m, root, v, d), pool[0];
    var n := Hung(m, t, v[d], f);
    Located(m, root, owner, v, d);
    assert v[..d + 1] == v[..d] + [v[d]];
    HungShape(m, root, owner, t, v[d], f);
    HungThrough(m, root, owner, v, d, f, v);
    FrameNotNone(f);
    forall u | Path(u) && Plain(m, root, u)
      ensures Plain(n, root, u) && (Open(m, root, u) ==> Open(n, root, u)) && Leaf(n, root, u) == Leaf(m, root, u)
    {
      HungPage(m, root, owner, v, d, f, u);
    }
    assert Taken(pool, pool[1..]) == {f};
    HungOutside(m, root, v, d, f);
    HungPath(m, root, owner, v, d, f);
    NotPresent(m, root, v, d);
    HungUpper(m, root, owner, t, v[d], f);
  }

  lemma NotPresent(m: Mem, root: int, v: seq<int>, d: nat)
    requires Path(v) && d < 3 && TableAt(m, root, v, d) != NONE && TableAt(m, root, v, d + 1) == NONE
    ensures !Present(Rd(m, Slot(TableAt(m, root, v, d), v[d])))
  {
    Frames(Addr(Rd(m, Slot(TableAt(m, root, v, d), v[d]))), Rd(m, Slot(TableAt(m, root, v, d), v[d])));
  }

  lemma HungPath(m: Mem, root: int, owner: Owner, v: seq<int>, d: nat, f: int)
    requires Shape(m, root, owner) && Path(v) && Plain(m, root, v) && d < 3 && Frame(f) && f !in owner
    requires TableAt(m, root, v, d) != NONE && TableAt(m, root, v, d + 1) == NONE
    ensures PathTables(Hung(m, TableAt(m, root, v, d), v[d], f), root, v) <= PathTables(m, root, v) + {f}
  {
    hide Rd, Large, Addr, Shape, Leaf, Plain, Hung, Frame;
    var t := TableAt(m, root, v, d);
    var n := Hung(m, t, v[d], f);
    Located(m, root, owner, v, d);
    HungWords(m, root, owner, t, v[d], f);
    HungThrough(m, root, owner, v, d, f, v);
    ZeroEntry();
    FrameNotNone(f);
    forall k: nat | k <= d ensures TableAt(n, root, v, k) == TableAt(m, root, v, k) {
      WalkKept(m, n, root, owner, v, k, t, v[d]);
    }
    if d + 2 <= 3 { assert TableAt(n, root, v, d + 2) == NONE; }
    RootAt(m, root, v);
  }

  lemma ExtendedTrans(m: Mem, n: Mem, k: Mem, root: int, owner: Owner, owner1: Owner, owner2: Owner, pool: seq<int>,
                      pool1: seq<int>, pool2: seq<int>, v: seq<int>)
    requires Path(v) && Extended(m, n, root, owner, owner1, pool, pool1, v)
    requires Extended(n, k, root, owner1, owner2, pool1, pool2, v)
    ensures Extended(m, k, root, owner, owner2, pool, pool2, v)
  {
    hide Rd, Shape, Leaf, Plain, PoolOk, PathTables, UpperStays;
    UpperTrans(m, n, k, owner, owner1);
    TakenTrans(pool, pool1, pool2);
    var a, b := PathTables(m, root, v) + Taken(pool, pool1), PathTables(n, root, v) + Taken(pool1, pool2);
    var c := PathTables(m, root, v) + Taken(pool, pool2);
    forall w | Outside(c, w) ensures Rd(k, w) == Rd(m, w) {
      assert Outside(a, w) && Outside(b, w);
    }
  }

  lemma TakenTrans(pool: seq<int>, pool1: seq<int>, pool2: seq<int>)
    requires Suffix(pool, pool1) && Suffix(pool1, pool2)
    ensures Suffix(pool, pool2) && Taken(pool, pool1) + Taken(pool1, pool2) == Taken(pool, pool2)
  {
    var a, b := |pool| - |pool1|, |pool| - |pool2|;
    assert forall i :: 0 <= i < |pool1| ==> pool1[i] == pool[a + i];
    forall f | f in Taken(pool, pool2) ensures f in Taken(pool, pool1) + Taken(pool1, pool2) {
      var i :| 0 <= i < b && pool[i] == f;
      if i >= a { assert pool1[i - a] == f; }
    }
  }

  lemma ExtendedSelf(m: Mem, root: int, owner: Owner, pool: seq<int>, v: seq<int>)
    requires Path(v) && Shape(m, root, owner) && PoolOk(pool, owner)
    ensures Extended(m, m, root, owner, owner, pool, pool, v)
  {
    hide Rd, Shape, Leaf, Plain, PoolOk;
  }

  lemma HungOutside(m: Mem, root: int, v: seq<int>, d: nat, f: int)
    requires Path(v) && d < 3 && TableAt(m, root, v, d) != NONE
    ensures SameOutside(m, Hung(m, TableAt(m, root, v, d), v[d], f), PathTables(m, root, v) + {f})
  {
    hide TableAt, Entry;
    var t := TableAt(m, root, v, d);
    assert TableAt(m, root, v, 0) == root by { RootAt(m, root, v); }
    assert t in PathTables(m, root, v);
    forall w | Outside(PathTables(m, root, v) + {f}, w) ensures Rd(Hung(m, t, v[d], f), w) == Rd(m, w) {
      InPage(t, v[d]);
    }
  }

  lemma RootAt(m: Mem, root: int, v: seq<int>)
    ensures TableAt(m, root, v, 0) == root
  {
  }

  // ---- mapping one page ----

  /** What VirtualMapL stores for page v. */
  function LeafFor(phys: int, flags: int): int {
    if phys == 0 then 0 else Entry(phys - phys % PAGE, if flags % 2 == 1 then flags else flags + 1)
  }

  /** Tables were added from the pool only. */
  ghost predicate Grown(owner: Owner, owner': Owner, pool: seq<int>) {
    && (forall f :: f in owner ==> f in owner' && owner'[f] == owner[f])
    && (forall f :: f in owner' ==> f in owner || f in pool)
  }

  lemma GrownSelf(owner: Owner, pool: seq<int>)
    ensures Grown(owner, owner, pool)
  {
  }

  /** The effect of mapping page v: its leaf is e, every other page translates as before. */
  ghost predicate MappedTo(m: Mem, n: Mem, root: int, owner: Owner, v: seq<int>, e: int, taken: set<int>)
    requires Path(v)
  {
    && Shape(n, root, owner) && SamePages(m, n, root, {v}) && Plain(n, root, v) && Leaf(n, root, v) == e
    && SameOutside(m, n, PathTables(m, root, v) + taken)
  }

  lemma StoreLeaf(m: Mem, n: Mem, root: int, owner: Owner, owner': Owner, pool: seq<int>, pool': seq<int>, v: seq<int>,
                  e: int)
    requires Path(v) && Plain(m, root, v) && Extended(m, n, root, owner, owner', pool, pool', v)
    requires TableAt(n, root, v, 3) != NONE
    ensures MappedTo(m, n[Slot(TableAt(n, root, v, 3), v[3]) := e], root, owner', v, e, Taken(pool, pool'))
    ensures UpperStays(m, n[Slot(TableAt(n, root, v, 3), v[3]) := e], owner)
  {
    hide UpperStays, Shape, Leaf, PoolOk, Plain, Open, PathTables, Taken, TableAt;
    var t := TableAt(n, root, v, 3);
    var k := n[Slot(t, v[3]) := e];
    LeafSet(n, root, owner', v, e);
    Located(n, root, owner', v, 3);
    LeafUpper(n, root, owner', t, v[3], e);
    UpperTrans(m, n, k, owner, owner');
    forall u | Path(u) && Plain(m, root, u)
      ensures Plain(k, root, u) && (Open(m, root, u) ==> Open(k, root, u))
      ensures u != v ==> Leaf(k, root, u) == Leaf(m, root, u)
    {
      if u != v { OtherLeaf(n, root, owner', v, e, u); }
    }
    assert t in PathTables(n, root, v) by { LastTable(n, root, v); }
    forall w | Outside(PathTables(m, root, v) + Taken(pool, pool'), w) ensures Rd(k, w) == Rd(m, w) {
      InPage(t, v[3]);
    }
  }

  lemma LastTable(m: Mem, root: int, v: seq<int>)
    requires Path(v) && TableAt(m, root, v, 3) != NONE
    ensures TableAt(m, root, v, 3) in PathTables(m, root, v)
  {
    hide TableAt;
  }

  /**
    What an address translates to: the direct map inside its window, the leaf of its page elsewhere, 0 if there is none.
   */
  ghost function Translation(m: Mem, root: int, virt: int, hhdm: int, hhdmLength: int): int {
    if root == NONE then 0
    else if hhdm <= virt <= hhdm + hhdmLength then virt - hhdm
    else
      var e := Leaf(m, root, Indices(virt));
      if Present(e) then Addr(e) + virt % PAGE else 0
  }

  lemma SamePageIndices(virt: int, off: int)
    requires virt % PAGE == 0 && 0 <= off < PAGE
    ensures Indices(virt + off) == Indices(virt) && (virt + off) % PAGE == off
  {
    hide Indices;
    var a, b := virt % LOW48, (virt + off) % LOW48;
    assert b == a + off by { WholePages(virt, off); }
    VirtInverse(virt);
    VirtInverse(virt + off);
    assert (virt + off) % PAGE == off by { WholePages(virt, off); }
    IndicesInverse(Indices(virt));
    IndicesInverse(Indices(virt + off));
  }

  lemma WholePages(virt: int, off: int)
    requires virt % PAGE == 0 && 0 <= off < PAGE
    ensures (virt + off) % LOW48 == virt % LOW48 + off && (virt + off) % PAGE == off && (virt % LOW48) % PAGE == 0
  {
    var p := virt / PAGE;
    var q, r := p / 0x10_0000_0000, p % 0x10_0000_0000;
    assert virt == PAGE * p && p == 0x10_0000_0000 * q + r;
    PageSplit(q, r, off);
    PageSplit(q, r, 0);
  }

  lemma PageSplit(q: int, r: int, off: int)
    requires 0 <= r < 0x10_0000_0000 && 0 <= off < PAGE
    ensures var a := PAGE * (0x10_0000_0000 * q + r) + off;
        a % LOW48 == PAGE * r + off && a % PAGE == off && (PAGE * r) % PAGE == 0
  {
    var a, x := PAGE * (0x10_0000_0000 * q + r) + off, PAGE * r + off;
    assert a == LOW48 * q + x;
    HighModulo(q, x);
    PageModulo(0x10_0000_0000 * q + r, off);
    PageModulo(r, 0);
  }

  lemma HighModulo(q: int, x: int)
    requires 0 <= x < 0x1_0000_0000_0000
    ensures (0x1_0000_0000_0000 * q + x) % 0x1_0000_0000_0000 == x
  {
  }

  lemma PageModulo(p: int, off: int)
    requires 0 <= off < 0x1000
    ensures (0x1000 * p + off) % 0x1000 == off
  {
  }

  /** Addresses of different pages have different indices. */
  lemma OtherPage(x: int, virt: int)
    requires x % LOW48 / PAGE != virt % LOW48 / PAGE
    ensures Indices(x) != Indices(virt)
  {
    hide Indices;
    VirtInverse(x);
    VirtInverse(virt);
    LowModulo(x);
    LowModulo(virt);
  }

  lemma LowModulo(x: int)
    ensures (x % LOW48) % PAGE == x % PAGE
  {
  }

  /**
    The four-level table is a flat map: after VirtualMapL(virt, phys) every address of that page translates
    into that frame, or to nothing when phys is 0, and every other address translates as it did.
   */
  lemma MapTranslates(m: Mem, n: Mem, root: int, owner: Owner, virt: int, phys: int, flags: int, taken: set<int>,
                      hhdm: int, len: int, off: int, x: int)
    requires MappedTo(m, n, root, owner, Indices(virt), LeafFor(phys, flags), taken) && virt % PAGE == 0 && root != NONE
    requires 0 <= phys < PHYS && 0 <= flags < PAGE && 0 <= off < PAGE && !(hhdm <= virt + off <= hhdm + len)
    ensures Translation(n, root, virt + off, hhdm, len) == if phys == 0 then 0 else phys - phys % PAGE + off
    ensures x % LOW48 / PAGE != virt % LOW48 / PAGE && Plain(m, root, Indices(x)) ==>
      Translation(n, root, x, hhdm, len) == Translation(m, root, x, hhdm, len)
  {
    hide Addr, Indices, Leaf, Shape, Plain, Entry, Present;
    SamePageIndices(virt, off);
    ZeroEntry();
    FlagBits(phys, flags);
    if x % LOW48 / PAGE != virt % LOW48 / PAGE { OtherPage(x, virt); }
  }

  lemma FlagBits(phys: int, flags: int)
    requires 0 <= phys < PHYS && 0 <= flags < PAGE
    ensures phys != 0 ==> Present(LeafFor(phys, flags)) && Addr(LeafFor(phys, flags)) == phys - phys % PAGE
    ensures Frame(phys - phys % PAGE)
  {
    var f := if flags % 2 == 1 then flags else flags + 1;
    EntryParts(phys - phys % PAGE, f);
  }

  /** The entry that is stored has the flags asked for, and is present. */
  lemma LeafFlags(phys: int, flags: int, i: nat)
    requires 0 <= phys < PHYS && phys != 0 && i < 12
    ensures Flag(LeafFor(phys, flags), i) <==> i == 0 || Flag(flags, i)
  {
    hide Flag;
    var frame := phys - phys % PAGE;
    if flags % 2 == 1 {
      EntryFlag(frame, flags, i);
      if i == 0 { FlagNames(flags); }
    } else {
      EntryFlag(frame, flags + 1, i);
      SetLowest(flags, i);
    }
  }

  /** As the processor sees it: every entry on the way to page u is present and has bit i. */
  ghost predicate Allows(m: Mem, root: int, u: seq<int>, i: nat)
    requires Path(u)
  {
    forall d: nat :: d <= 3 ==>
      && TableAt(m, root, u, d) != NONE
      && Present(Rd(m, Slot(TableAt(m, root, u, d), u[d]))) && Flag(Rd(m, Slot(TableAt(m, root, u, d), u[d])), i)
  }

  /** Where the tables are open, the leaf alone decides who may write to a page, or use it at all. */
  lemma LeafDecides(m: Mem, root: int, u: seq<int>, i: nat)
    requires Path(u) && Open(m, root, u) && Present(Leaf(m, root, u)) && (i == 1 || i == 2)
    ensures Allows(m, root, u, i) <==> Flag(Leaf(m, root, u), i)
  {
    hide Flag, User, Writable, Rd;
    ZeroEntry();
    forall d: nat | d < 3
      ensures TableAt(m, root, u, d) != NONE && Present(Rd(m, Slot(TableAt(m, root, u, d), u[d])))
      ensures Flag(Rd(m, Slot(TableAt(m, root, u, d), u[d])), i)
    {
      assert OpenAt(m, root, u, d);
      FlagNames(Rd(m, Slot(TableAt(m, root, u, d), u[d])));
    }
  }

  /** After VirtualMapL the processor allows just what the flags say, unless a table that was there before is closed. */
  lemma MapAllows(m: Mem, n: Mem, root: int, owner: Owner, u: seq<int>, phys: int, flags: int, taken: set<int>, i: nat)
    requires Path(u) && Plain(m, root, u) && MappedTo(m, n, root, owner, u, LeafFor(phys, flags), taken)
    requires Open(m, root, u) && 0 <= phys < PHYS && phys != 0 && 0 <= flags < PAGE && (i == 1 || i == 2)
    ensures Allows(n, root, u, i) <==> Flag(flags, i)
  {
    hide Flag, Leaf, Open, Plain, Shape, Allows, LeafFor, Present;
    FlagBits(phys, flags);
    LeafFlags(phys, flags, i);
    LeafDecides(n, root, u, i);
  }

  class Machine {
    var mem: Mem
    var pool: seq<int>
    const hhdm: int
    const hhdmLength: int
    const fbPhys: int
    const fbLength: int

    constructor (mem0: Mem, pool0: seq<int>, hhdm0: int, hhdmLength0: int, fbPhys0: int, fbLength0: int)
      ensures mem == mem0 && pool == pool0 && hhdm == hhdm0 && hhdmLength == hhdmLength0 && fbPhys == fbPhys0
      ensures fbLength == fbLength0
    {
      mem, pool, hhdm, hhdmLength, fbPhys, fbLength := mem0, pool0, hhdm0, hhdmLength0, fbPhys0, fbLength0;
    }

    /** PhysicalAllocate(1), assumed to hand out an unused frame. */
    method PhysicalAllocate() returns (f: int)
      requires |pool| > 0
      modifies `pool
      ensures f == old(pool[0]) && pool == old(pool)[1..]
    {
      f := pool[0];
      pool := pool[1..];
    }

    /** PagingPhysAllocate: an unused frame, zeroed. */
    method PagingPhysAllocate() returns (f: int)
      requires |pool| > 0
      modifies this
      ensures f == old(pool[0]) && pool == old(pool)[1..] && mem == Zeroed(old(mem), f)
    {
      f := PhysicalAllocate();
      mem := Zeroed(mem, f);
    }

    /** The table below slot v[d] of table t, allocated if it is missing. */
    method Descend(root: int, t: int, i: int, ghost v: seq<int>, ghost d: nat, ghost owner: Owner)
      returns (child: int, ghost owner': Owner)
      requires Shape(mem, root, owner) && PoolOk(pool, owner) && |pool| > 0 && Path(v) && Plain(mem, root, v)
      requires d < 3 && t == TableAt(mem, root, v, d) && t != NONE && i == v[d]
      modifies this
      ensures Extended(old(mem), mem, root, owner, owner', old(pool), pool, v) && |pool| >= |old(pool)| - 1
      ensures Plain(mem, root, v) && child == TableAt(mem, root, v, d + 1) && child != NONE
    {
      hide Extended, Shape, PoolOk, Plain, Addr, Entry, Rd, Frame, Zeroed;
      owner' := owner;
      ghost var m, p := mem, pool;
      if !Present(Rd(mem, Slot(t, i))) {
        ExtendOnce(m, root, owner, p, v, d);
        var target := PagingPhysAllocate();
        mem := mem[Slot(t, i) := Entry(target, TABLE_FLAGS)];
        owner' := owner[target := v[..d + 1]];
        assert mem == Hung(m, t, i, target);
        TableStored(m, t, i, target, p, owner);
      } else {
        ExtendedSelf(m, root, owner, p, v);
      }
      child := Addr(Rd(mem, Slot(t, i)));
      Frames(child, Rd(mem, Slot(t, i)));
    }

    /** VirtualMapL. It panics, which is modelled as a refusal, just for unaligned addresses. */
    method VirtualMapL(root: int, virt: int, phys: int, flags: int, ghost owner: Owner)
      returns (ok: bool, ghost owner': Owner, ghost rest: seq<int>)
      requires Shape(mem, root, owner) && PoolOk(pool, owner) && |pool| >= 3 && root != NONE
      requires 0 <= phys < PHYS && 0 <= flags < PAGE && Plain(mem, root, Indices(virt))
      requires var e := Leaf(mem, root, Indices(virt)); Present(e) ==> Addr(e) !in owner && Addr(e) !in pool
      modifies this
      ensures ok <==> virt % PAGE == 0
      ensures !ok ==> mem == old(mem) && pool == old(pool) && owner' == owner
      ensures ok ==>
        && Suffix(old(pool), rest) && |rest| >= |old(pool)| - 3
        && MappedTo(old(mem), mem, root, owner', Indices(virt), LeafFor(phys, flags), Taken(old(pool), rest))
        && var e := old(Leaf(mem, root, Indices(virt)));
           pool == rest + if Present(e) && !(fbPhys <= Addr(e) < fbPhys + fbLength) then [Addr(e)] else []
      ensures ok && phys != 0 ==>
        forall i: nat :: i < 12 ==> (Flag(Leaf(mem, root, Indices(virt)), i) <==> i == 0 || Flag(flags, i))
      ensures PoolOk(pool, owner') && Grown(owner, owner', old(pool)) && UpperStays(old(mem), mem, owner)
    {
      hide Extended, Shape, PoolOk, Plain, Addr, Entry, Rd, Frame, Zeroed, Indices, TableAt, Leaf, MappedTo, Taken,
           Suffix, Grown, Flag, LeafFor;
      owner', rest := owner, pool;
      if virt % PAGE != 0 {
        GrownSelf(owner, pool);
        return false, owner, pool;
      }
      ok := true;
      ghost var m, p := mem, pool;
      var v := Indices(virt);
      RootAt(mem, root, v);
      ghost var owner1, owner2, owner3;
      var pdp, pd, pt;
      pdp, owner1 := Descend(root, root, v[0], v, 0, owner);
      OpenedShape(m, mem, root, owner, owner1, p, pool, v);
      ghost var m1, p1 := mem, pool;
      pd, owner2 := Descend(root, pdp, v[1], v, 1, owner1);
      OpenedShape(m1, mem, root, owner1, owner2, p1, pool, v);
      ghost var m2, p2 := mem, pool;
      pt, owner3 := Descend(root, pd, v[2], v, 2, owner2);
      ExtendedTrans(m, m1, m2, root, owner, owner1, owner2, p, p1, p2, v);
      ExtendedTrans(m, m2, mem, root, owner, owner2, owner3, p, p2, pool, v);
      owner' := owner3;
      StoreLeaf(m, mem, root, owner, owner3, p, pool, v, LeafFor(phys, flags));
      var previous := Rd(mem, Slot(pt, v[3]));
      LeafKept(m, mem, root, owner, owner3, p, pool, v);
      rest := pool;
      if Present(previous) && !(fbPhys <= Addr(previous) < fbPhys + fbLength) {
        pool := pool + [Addr(previous)];
      }
      mem := mem[Slot(pt, v[3]) := LeafFor(phys, flags)];
      if phys != 0 {
        MappedLeaf(m, mem, root, owner3, v, LeafFor(phys, flags), Taken(p, rest));
        forall i: nat | i < 12 ensures Flag(Leaf(mem, root, v), i) <==> i == 0 || Flag(flags, i) {
          LeafFlags(phys, flags, i);
        }
      }
    }

    /** VirtualToPhysicalL */
    method VirtualToPhysicalL(root: int, virt: int) returns (phys: int)
      ensures phys == Translation(mem, root, virt, hhdm, hhdmLength)
      ensures root == NONE ==> phys == 0
      ensures root != NONE && 0 <= virt - hhdm <= hhdmLength ==> hhdm + phys == virt
    {
      hide Addr, Rd, Indices, Slot;
      if root == NONE {
        return 0;
      }
      if hhdm <= virt <= hhdm + hhdmLength {
        return virt - hhdm;
      }
      var v := Indices(virt);
      ghost var t0, t1, t2, t3 := TableAt(mem, root, v, 0), TableAt(mem, root, v, 1), TableAt(mem, root, v, 2),
          TableAt(mem, root, v, 3);
      if !Present(Rd(mem, Slot(root, v[0]))) {
        return 0;
      }
      var pdp := Addr(Rd(mem, Slot(root, v[0])));
      Frames(pdp, Rd(mem, Slot(root, v[0])));
      if !Present(Rd(mem, Slot(pdp, v[1]))) {
        return 0;
      }
      var pd := Addr(Rd(mem, Slot(pdp, v[1])));
      Frames(pd, Rd(mem, Slot(pdp, v[1])));
      if !Present(Rd(mem, Slot(pd, v[2]))) {
        return 0;
      }
      var pt := Addr(Rd(mem, Slot(pd, v[2])));
      Frames(pt, Rd(mem, Slot(pd, v[2])));
      if Present(Rd(mem, Slot(pt, v[3]))) {
        return Addr(Rd(mem, Slot(pt, v[3]))) + virt % PAGE;
      }
      return 0;
    }
  }

  lemma MappedLeaf(m: Mem, n: Mem, root: int, owner: Owner, v: seq<int>, e: int, taken: set<int>)
    requires Path(v) && MappedTo(m, n, root, owner, v, e, taken)
    ensures Leaf(n, root, v) == e
  {
    hide Shape, Leaf, Plain, PathTables, Open;
  }

  lemma TableStored(m: Mem, t: int, i: int, f: int, pool: seq<int>, owner: Owner)
    requires |pool| > 0 && f == pool[0] && PoolOk(pool, owner)
    ensures Rd(Hung(m, t, i, f), Slot(t, i)) == Entry(f, TABLE_FLAGS) && Addr(Entry(f, TABLE_FLAGS)) == f
  {
    hide Entry, Addr, Zeroed, Frame;
    TableEntry(f);
  }

  lemma Frames(f: int, e: int)
    requires f == Addr(e)
    ensures f != NONE
  {
  }

  lemma OpenedShape(m: Mem, n: Mem, root: int, owner: Owner, owner': Owner, pool: seq<int>, pool': seq<int>,
                    v: seq<int>)
    requires Path(v) && Extended(m, n, root, owner, owner', pool, pool', v)
    ensures Shape(n, root, owner') && PoolOk(pool', owner')
  {
    hide Shape, PoolOk, Plain, Leaf, PathTables;
  }

  /** After the tables are there, the leaf slot holds what it translated to before, and its frame may be released. */
  lemma LeafKept(m: Mem, n: Mem, root: int, owner: Owner, owner': Owner, pool: seq<int>, pool': seq<int>, v: seq<int>)
    requires Path(v) && Plain(m, root, v) && Extended(m, n, root, owner, owner', pool, pool', v)
    requires TableAt(n, root, v, 3) != NONE
    requires Present(Leaf(m, root, v)) ==> Addr(Leaf(m, root, v)) !in owner && Addr(Leaf(m, root, v)) !in pool
    ensures var e := Rd(n, Slot(TableAt(n, root, v, 3), v[3]));
            && e == Leaf(m, root, v)
            && Suffix(pool, pool') && PoolOk(pool', owner') && Grown(owner, owner', pool)
            && (Present(e) ==> PoolOk(pool' + [Addr(e)], owner'))
  {
    hide Shape, Plain, PathTables, Rd, Addr, TableAt, Frame;
    var e := Leaf(m, root, v);
    assert e == Leaf(n, root, v);
    TakenFromPool(pool, pool');
    if Present(e) { AddrIsFrame(e); }
  }

  lemma TakenFromPool(pool: seq<int>, pool': seq<int>)
    ensures forall f :: f in Taken(pool, pool') ==> f in pool
  {
  }
}
