/** x86-64 page tables in physical memory: entries, walks, and the shape that makes a walk a flat map. */
module PageTable {
  import opened Words

  const PAGE: int := 0x1000
  const FRAMES: int := 0x100_0000_0000
  const PHYS: int := 0x10_0000_0000_0000

  // ---- entries ----

  predicate Present(e: int) { e % 2 == 1 }
  predicate Writable(e: int) { (e / 2) % 2 == 1 }
  predicate User(e: int) { (e / 4) % 2 == 1 }
  /** PF_PS, and PF_PAT in a leaf */
  predicate Large(e: int) { (e / 128) % 2 == 1 }
  predicate Shared(e: int) { (e / 512) % 2 == 1 }

  /** Bit i. */
  predicate Flag(e: int, i: nat) { e / Pow2(i) % 2 == 1 }

  /** PTE_GET_ADDR */
  function Addr(e: int): int { (e / PAGE) % FRAMES * PAGE }

  /** frame | flags, where the flags are low bits */
  function Entry(frame: int, flags: int): int { frame + flags }

  const TABLE_FLAGS: int := 7

  /** A frame the page tables can name. */
  predicate Frame(f: int) { 0 <= f < PHYS && f % PAGE == 0 }

  lemma EntryParts(frame: int, flags: int)
    requires Frame(frame) && 0 <= flags < PAGE
    ensures Addr(Entry(frame, flags)) == frame
    ensures Present(Entry(frame, flags)) == (flags % 2 == 1)
    ensures Writable(Entry(frame, flags)) == ((flags / 2) % 2 == 1)
    ensures User(Entry(frame, flags)) == ((flags / 4) % 2 == 1)
    ensures Large(Entry(frame, flags)) == ((flags / 128) % 2 == 1)
    ensures Shared(Entry(frame, flags)) == ((flags / 512) % 2 == 1)
  {
    var k := frame / PAGE;
    assert frame == PAGE * k && 0 <= k < FRAMES;
    LowPart(k, flags);
  }

  /** The twelve low bits of an entry are its flags. */
  lemma EntryFlag(frame: int, flags: int, i: nat)
    requires Frame(frame) && i < 12
    ensures Flag(Entry(frame, flags), i) == Flag(flags, i)
  {
    var a, b, k := Pow2(i), Pow2(11 - i), frame / PAGE;
    Pow2Add(i, 12 - i);
    assert Pow2(12 - i) == 2 * b && Pow2(12) == PAGE;
    Regroup(a, b, k);
    assert Entry(frame, flags) == a * (2 * (b * k)) + flags;
    QuotientOf(a, 2 * (b * k), flags);
    Even(b * k, flags / a);
  }

  lemma Regroup(a: int, b: int, k: int)
    ensures a * (2 * b) * k == a * (2 * (b * k))
  {
  }

  lemma QuotientOf(a: int, x: int, r: int)
    requires a > 0
    ensures (a * x + r) / a == x + r / a
  {
    var q, s := r / a, r % a;
    assert a * x + r == a * (x + q) + s;
    QuotientUnique(a, x + q, s, a * x + r);
  }

  /** Setting bit 0 sets no other. */
  lemma SetLowest(flags: int, i: nat)
    requires flags % 2 == 0
    ensures Flag(flags + 1, i) <==> i == 0 || Flag(flags, i)
  {
    if i > 0 {
      var c := Pow2(i - 1);
      EvenQuotient(2 * c, c, flags / 2, flags);
    }
  }

  lemma EvenQuotient(a: int, c: int, h: int, n: int)
    requires a == 2 * c && c > 0 && n == 2 * h
    ensures (n + 1) / a == n / a
  {
    var q, s := n / a, n % a;
    assert s == 2 * (h - c * q) by { assert n == a * q + s; }
    QuotientUnique(a, q, s + 1, n + 1);
  }

  /** The flags that matter here, by their bit numbers. */
  lemma FlagNames(e: int)
    ensures (Present(e) <==> Flag(e, 0)) && (Writable(e) <==> Flag(e, 1)) && (User(e) <==> Flag(e, 2))
    ensures (Large(e) <==> Flag(e, 7)) && (Shared(e) <==> Flag(e, 9))
  {
    Pow2Values();
    assert Pow2(9) == 512 && Pow2(2) == 4 && Pow2(1) == 2;
  }

  lemma LowPart(k: int, flags: int)
    requires 0 <= flags < 4096
    ensures var e := 4096 * k + flags;
            && e / 4096 == k && e % 2 == flags % 2
            && (e / 2) % 2 == (flags / 2) % 2 && (e / 4) % 2 == (flags / 4) % 2 && (e / 128) % 2 == (flags / 128) % 2
            && (e / 512) % 2 == (flags / 512) % 2
  {
    Even(2048 * k, flags);
    Quotient4096(k, flags);
    FlagAt2(k, flags);
    FlagAt4(k, flags);
    FlagAt128(k, flags);
    FlagAt512(k, flags);
  }

  lemma Quotient4096(a: int, r: int)
    requires 0 <= r < 4096
    ensures (4096 * a + r) / 4096 == a
  {
  }

  lemma Even(a: int, b: int)
    ensures (2 * a + b) % 2 == b % 2
  {
  }

  lemma FlagAt2(k: int, flags: int)
    ensures ((4096 * k + flags) / 2) % 2 == (flags / 2) % 2
  {
    Even(1024 * k, flags / 2);
  }

  lemma Quotient4(a: int, r: int)
    requires 0 <= r < 4
    ensures (4 * a + r) / 4 == a
  {
  }

  lemma FlagAt4(k: int, flags: int)
    ensures ((4096 * k + flags) / 4) % 2 == (flags / 4) % 2
  {
    Quotient4(1024 * k + flags / 4, flags % 4);
    Even(512 * k, flags / 4);
  }

  lemma Quotient128(a: int, r: int)
    requires 0 <= r < 128
    ensures (128 * a + r) / 128 == a
  {
  }

  lemma FlagAt128(k: int, flags: int)
    ensures ((4096 * k + flags) / 128) % 2 == (flags / 128) % 2
  {
    Quotient128(32 * k + flags / 128, flags % 128);
    Even(16 * k, flags / 128);
  }

  lemma Quotient512(a: int, r: int)
    requires 0 <= r < 512
    ensures (512 * a + r) / 512 == a
  {
  }

  lemma FlagAt512(k: int, flags: int)
    ensures ((4096 * k + flags) / 512) % 2 == (flags / 512) % 2
  {
    Quotient512(8 * k + flags / 512, flags % 512);
    Even(4 * k, flags / 512);
  }

  lemma AddrIsFrame(e: int)
    ensures Frame(Addr(e))
  {
  }

  // ---- walks ----

  /** The four table indices of a page. */
  ghost predicate Path(u: seq<int>) { |u| == 4 && forall k :: 0 <= k < 4 ==> 0 <= u[k] < 512 }

  const NONE: int := -1

  function Slot(t: int, i: int): int { t + 8 * i }

  /** The table a walk for u has reached after d steps, ignoring large pages as the code does. */
  ghost function TableAt(m: Mem, root: int, u: seq<int>, d: nat): int
    requires d <= |u|
  {
    if d == 0 then root
    else
      var t := TableAt(m, root, u, d - 1);
      if t == NONE then NONE else Below(m, t, u[d - 1])
  }

  function Below(m: Mem, t: int, i: int): int {
    var e := Rd(m, Slot(t, i));
    if Present(e) then Addr(e) else NONE
  }

  /** The leaf entry of page u; zero when a table on the way is missing. */
  ghost function Leaf(m: Mem, root: int, u: seq<int>): int
    requires Path(u)
  {
    var t := TableAt(m, root, u, 3);
    if t == NONE then 0 else Rd(m, Slot(t, u[3]))
  }

  /** Step d of the walk for u does not go through a large page. */
  ghost predicate PlainAt(m: Mem, root: int, u: seq<int>, d: nat)
    requires d < |u|
  {
    var t := TableAt(m, root, u, d);
    t == NONE || !Present(Rd(m, Slot(t, u[d]))) || !Large(Rd(m, Slot(t, u[d])))
  }

  ghost predicate Plain(m: Mem, root: int, u: seq<int>)
    requires Path(u)
  {
    PlainAt(m, root, u, 0) && PlainAt(m, root, u, 1) && PlainAt(m, root, u, 2)
  }

  /** Step d of the walk for u is open to user code and for writing. */
  ghost predicate OpenAt(m: Mem, root: int, u: seq<int>, d: nat)
    requires d < |u|
  {
    var t := TableAt(m, root, u, d);
    t == NONE || !Present(Rd(m, Slot(t, u[d]))) || (User(Rd(m, Slot(t, u[d]))) && Writable(Rd(m, Slot(t, u[d]))))
  }

  /** The tables on the way to page u restrict no access, so that its leaf alone decides. */
  ghost predicate Open(m: Mem, root: int, u: seq<int>)
    requires Path(u)
  {
    OpenAt(m, root, u, 0) && OpenAt(m, root, u, 1) && OpenAt(m, root, u, 2)
  }

  // ---- shape ----

  /** Each table has one place in the tree, given by the indices that lead to it. */
  type Owner = map<int, seq<int>>

  ghost predicate Child(m: Mem, owner: Owner, f: int, i: int)
    requires f in owner
  {
    var e := Rd(m, Slot(f, i));
    Present(e) && !Large(e) ==> Addr(e) in owner && owner[Addr(e)] == owner[f] + [i]
  }

  ghost predicate Shape(m: Mem, root: int, owner: Owner) {
    && root in owner && owner[root] == []
    && (forall f :: f in owner ==> Frame(f) && |owner[f]| <= 3)
    && (forall f, i :: f in owner && 0 <= i < 512 && |owner[f]| < 3 ==> Child(m, owner, f, i))
  }

  /** A table on the way of a plain walk is where its indices say. */
  lemma {:induction false} Located(m: Mem, root: int, owner: Owner, u: seq<int>, d: nat)
    requires Shape(m, root, owner) && Path(u) && Plain(m, root, u) && d <= 3
    ensures var t := TableAt(m, root, u, d); t != NONE ==> t in owner && owner[t] == u[..d]
  {
    hide Rd, Present, Large, Addr;
    if d > 0 {
      Located(m, root, owner, u, d - 1);
      var t := TableAt(m, root, u, d - 1);
      if TableAt(m, root, u, d) != NONE {
        assert Child(m, owner, t, u[d - 1]);
        assert PlainAt(m, root, u, d - 1);
        assert u[..d] == u[..d - 1] + [u[d - 1]];
      }
    }
  }

  lemma SlotUnique(f: int, i: int, g: int, j: int)
    requires Frame(f) && Frame(g) && 0 <= i < 512 && 0 <= j < 512 && Slot(f, i) == Slot(g, j)
    ensures f == g && i == j
  {
  }

  /** The tables of owner have the same entries in m and n, but for the word at w. */
  ghost predicate AgreeSlots(m: Mem, n: Mem, owner: Owner, w: int) {
    forall f, i :: f in owner && 0 <= i < 512 && Slot(f, i) != w ==> Rd(n, Slot(f, i)) == Rd(m, Slot(f, i))
  }

  /** Page u's walk goes through slot i of the table at q. */
  ghost predicate Through(u: seq<int>, q: seq<int>, i: int) { |q| < |u| && u[..|q|] == q && u[|q|] == i }

  /** The entry that the walk for u reads after d steps is the same after a write to another slot. */
  lemma StepKept(m: Mem, n: Mem, root: int, owner: Owner, u: seq<int>, d: nat, t: int, i: int)
    requires Shape(m, root, owner) && Path(u) && Plain(m, root, u) && d <= 3
    requires t in owner && 0 <= i < 512 && AgreeSlots(m, n, owner, Slot(t, i))
    requires !Through(u, owner[t], i) || d < |owner[t]|
    ensures var f := TableAt(m, root, u, d); f != NONE ==> Rd(n, Slot(f, u[d])) == Rd(m, Slot(f, u[d]))
  {
    hide Rd, Present, Large, Addr, Plain, Frame;
    Located(m, root, owner, u, d);
    var f := TableAt(m, root, u, d);
    if f != NONE && Slot(f, u[d]) == Slot(t, i) {
      assert Frame(f) && Frame(t);
      SlotUnique(f, u[d], t, i);
    }
  }

  lemma {:induction false} WalkKept(m: Mem, n: Mem, root: int, owner: Owner, u: seq<int>, d: nat, t: int, i: int)
    requires Shape(m, root, owner) && Path(u) && Plain(m, root, u) && d <= 3
    requires t in owner && 0 <= i < 512 && AgreeSlots(m, n, owner, Slot(t, i))
    requires !Through(u, owner[t], i) || d <= |owner[t]|
    ensures TableAt(n, root, u, d) == TableAt(m, root, u, d)
  {
    hide Rd, Present, Large, Addr, Plain, Shape, AgreeSlots;
    if d > 0 {
      WalkKept(m, n, root, owner, u, d - 1, t, i);
      StepKept(m, n, root, owner, u, d - 1, t, i);
    }
  }

  /** Pages whose walk does not go through the written slot translate as before. */
  lemma PageKept(m: Mem, n: Mem, root: int, owner: Owner, u: seq<int>, t: int, i: int)
    requires Shape(m, root, owner) && Path(u) && Plain(m, root, u)
    requires t in owner && 0 <= i < 512 && AgreeSlots(m, n, owner, Slot(t, i)) && !Through(u, owner[t], i)
    ensures Leaf(n, root, u) == Leaf(m, root, u) && Plain(n, root, u) && (Open(m, root, u) ==> Open(n, root, u))
  {
    hide Rd, Present, Large, User, Writable, Addr, Shape, AgreeSlots, Through, TableAt;
    WalkKept(m, n, root, owner, u, 0, t, i);
    WalkKept(m, n, root, owner, u, 1, t, i);
    WalkKept(m, n, root, owner, u, 2, t, i);
    WalkKept(m, n, root, owner, u, 3, t, i);
    StepKept(m, n, root, owner, u, 0, t, i);
    StepKept(m, n, root, owner, u, 1, t, i);
    StepKept(m, n, root, owner, u, 2, t, i);
    StepKept(m, n, root, owner, u, 3, t, i);
  }

  /** A walk depends on the indices it has used only. */
  lemma {:induction false} SamePrefix(m: Mem, root: int, u: seq<int>, v: seq<int>, d: nat)
    requires d <= |u| && d <= |v| && u[..d] == v[..d]
    ensures TableAt(m, root, u, d) == TableAt(m, root, v, d)
  {
    if d > 0 {
      assert u[..d - 1] == u[..d][..d - 1] && v[..d - 1] == v[..d][..d - 1];
      assert u[d - 1] == u[..d][d - 1] && v[d - 1] == v[..d][d - 1];
      SamePrefix(m, root, u, v, d - 1);
    }
  }

  /** memset of a page to zero */
  function Zeroed(m: Mem, f: int): Mem { map w | w in m && !(f <= w < f + PAGE) :: m[w] }

  lemma ZeroedRd(m: Mem, f: int, w: int)
    ensures Rd(Zeroed(m, f), w) == if f <= w < f + PAGE then 0 else Rd(m, w)
  {
  }

  /** No slot of one frame lies in another. */
  lemma ApartFrames(f: int, g: int, j: int)
    requires Frame(f) && Frame(g) && f != g && 0 <= j < 512
    ensures !(f <= Slot(g, j) < f + PAGE)
  {
  }

  /** The memory after a new, empty table has been hung into slot i of table t. */
  ghost function Hung(m: Mem, t: int, i: int, f: int): Mem { Zeroed(m, f)[Slot(t, i) := Entry(f, TABLE_FLAGS)] }

  lemma HungWords(m: Mem, root: int, owner: Owner, t: int, i: int, f: int)
    requires Shape(m, root, owner) && t in owner && 0 <= i < 512 && Frame(f) && f !in owner
    ensures var n := Hung(m, t, i, f);
            && AgreeSlots(m, n, owner, Slot(t, i)) && Rd(n, Slot(t, i)) == Entry(f, TABLE_FLAGS)
            && forall j :: 0 <= j < 512 ==> Rd(n, Slot(f, j)) == 0
  {
    hide Entry, Frame, Zeroed;
    var n := Hung(m, t, i, f);
    forall g, j | g in owner && 0 <= j < 512 && Slot(g, j) != Slot(t, i)
        ensures Rd(n, Slot(g, j)) == Rd(m, Slot(g, j)) {
      ApartFrames(f, g, j);
      ZeroedRd(m, f, Slot(g, j));
    }
    forall j | 0 <= j < 512 ensures Rd(n, Slot(f, j)) == 0 {
      ZeroedRd(m, f, Slot(f, j));
      ApartFrames(t, f, j);
      InPage(t, i);
      InPage(f, j);
    }
  }

  lemma InPage(t: int, i: int)
    requires 0 <= i < 512
    ensures t <= Slot(t, i) < t + PAGE
  {
  }

  lemma HungShape(m: Mem, root: int, owner: Owner, t: int, i: int, f: int)
    requires Shape(m, root, owner) && t in owner && |owner[t]| < 3 && 0 <= i < 512 && Frame(f) && f !in owner
    ensures Shape(Hung(m, t, i, f), root, owner[f := owner[t] + [i]])
  {
    hide Rd, Entry, Frame, Hung, Present, Large, Addr;
    var n, owner' := Hung(m, t, i, f), owner[f := owner[t] + [i]];
    HungWords(m, root, owner, t, i, f);
    TableEntry(f);
    ZeroEntry();
    forall g, j | g in owner' && 0 <= j < 512 && |owner'[g]| < 3 ensures Child(n, owner', g, j) {
      if g != f {
        assert Child(m, owner, g, j);
        if Slot(g, j) == Slot(t, i) { SlotUnique(g, j, t, i); }
      }
    }
  }

  lemma TableEntry(f: int)
    requires Frame(f)
    ensures var e := Entry(f, TABLE_FLAGS); Present(e) && !Large(e) && User(e) && Writable(e) && Addr(e) == f
  {
    EntryParts(f, TABLE_FLAGS);
  }

  lemma ZeroEntry()
    ensures !Present(0) && !Large(0)
  {
  }

  /** Hanging a new table changes no translation. */
  lemma HungPage(m: Mem, root: int, owner: Owner, v: seq<int>, d: nat, f: int, u: seq<int>)
    requires Shape(m, root, owner) && Path(v) && Plain(m, root, v) && d < 3 && Frame(f) && f !in owner
    requires TableAt(m, root, v, d) != NONE && TableAt(m, root, v, d + 1) == NONE
    requires Path(u) && Plain(m, root, u)
    ensures var n := Hung(m, TableAt(m, root, v, d), v[d], f);
            Leaf(n, root, u) == Leaf(m, root, u) && Plain(n, root, u) && (Open(m, root, u) ==> Open(n, root, u))
  {
    hide Rd, Entry, Frame, Hung, Present, Large, User, Writable, Addr, Shape, AgreeSlots;
    Located(m, root, owner, v, d);
    var t, i := TableAt(m, root, v, d), v[d];
    var n := Hung(m, t, i, f);
    HungWords(m, root, owner, t, i, f);
    if Through(u, owner[t], i) {
      HungThrough(m, root, owner, v, d, f, u);
    } else {
      PageKept(m, n, root, owner, u, t, i);
    }
  }

  lemma HungThrough(m: Mem, root: int, owner: Owner, v: seq<int>, d: nat, f: int, u: seq<int>)
    requires Shape(m, root, owner) && Path(v) && Plain(m, root, v) && d < 3 && Frame(f) && f !in owner
    requires TableAt(m, root, v, d) != NONE && TableAt(m, root, v, d + 1) == NONE
    requires Path(u) && Plain(m, root, u) && u[..d] == v[..d] && u[d] == v[d]
    ensures var n := Hung(m, TableAt(m, root, v, d), v[d], f);
            && Leaf(m, root, u) == 0 == Leaf(n, root, u) && Plain(n, root, u) && TableAt(n, root, u, d + 1) == f
            && (Open(m, root, u) ==> Open(n, root, u))
  {
    hide Rd, Entry, Frame, Hung, Present, Large, User, Writable, Addr, Shape, AgreeSlots, Path;
    assert |u| == |v| == 4 by { PathLength(u); PathLength(v); }
    Located(m, root, owner, v, d);
    PathBounds(v);
    var t, i := TableAt(m, root, v, d), v[d];
    var n := Hung(m, t, i, f);
    HungWords(m, root, owner, t, i, f);
    TableEntry(f);
    ZeroEntry();
    PathBounds(u);
    SamePrefix(m, root, u, v, d);
    assert u[..d + 1] == u[..d] + [u[d]] && v[..d + 1] == v[..d] + [v[d]];
    SamePrefix(m, root, u, v, d + 1);
    assert Through(u, owner[t], i);
    WalkKept(m, n, root, owner, u, d, t, i);
    NoneBelow(m, root, u, d + 1);
    FrameNotNone(f);
    EmptyBelow(m, n, root, owner, u, d, t, i, f);
  }

  lemma PathLength(u: seq<int>)
    requires Path(u)
    ensures |u| == 4
  {
  }

  lemma PathBounds(u: seq<int>)
    requires Path(u)
    ensures forall k :: 0 <= k < |u| ==> 0 <= u[k] < 512
  {
  }

  lemma FrameNotNone(f: int)
    requires Frame(f)
    ensures f != NONE
  {
  }

  lemma {:induction false} NoneBelow(m: Mem, root: int, u: seq<int>, d: nat)
    requires Path(u) && d <= 3 && TableAt(m, root, u, d) == NONE
    ensures Leaf(m, root, u) == 0
    decreases 3 - d
  {
    if d < 3 { NoneBelow(m, root, u, d + 1); }
  }

  lemma EmptyBelow(m: Mem, n: Mem, root: int, owner: Owner, u: seq<int>, d: nat, t: int, i: int, f: int)
    requires Shape(m, root, owner) && Path(u) && Plain(m, root, u) && d < 3 && t in owner && 0 <= i < 512
    requires AgreeSlots(m, n, owner, Slot(t, i)) && owner[t] == u[..d] && u[d] == i
    requires TableAt(n, root, u, d) == TableAt(m, root, u, d) == t && t != NONE && f != NONE
    requires Present(Rd(n, Slot(t, i))) && !Large(Rd(n, Slot(t, i))) && Addr(Rd(n, Slot(t, i))) == f
    requires User(Rd(n, Slot(t, i))) && Writable(Rd(n, Slot(t, i)))
    requires forall j :: 0 <= j < 512 ==> Rd(n, Slot(f, j)) == 0
    ensures TableAt(n, root, u, d + 1) == f && Leaf(n, root, u) == 0 && Plain(n, root, u)
    ensures Open(m, root, u) ==> Open(n, root, u)
  {
    hide Rd, Addr, Shape, AgreeSlots, User, Writable;
    assert TableAt(n, root, u, d + 1) == f;
    if d == 2 {
      PlainPrefix(m, n, root, owner, u, d, t, i);
    } else {
      assert TableAt(n, root, u, d + 2) == NONE;
      NoneBelow(n, root, u, d + 2);
      PlainPrefix(m, n, root, owner, u, d, t, i);
    }
  }

  lemma PlainPrefix(m: Mem, n: Mem, root: int, owner: Owner, u: seq<int>, d: nat, t: int, i: int)
    requires Shape(m, root, owner) && Path(u) && Plain(m, root, u) && d < 3 && t in owner && 0 <= i < 512
    requires AgreeSlots(m, n, owner, Slot(t, i)) && owner[t] == u[..d]
    ensures forall k: nat :: k < d ==> PlainAt(n, root, u, k) && (OpenAt(m, root, u, k) ==> OpenAt(n, root, u, k))
  {
    hide Rd, Present, Large, User, Writable, Addr, Shape, AgreeSlots, TableAt;
    forall k: nat | k < d ensures PlainAt(n, root, u, k) && (OpenAt(m, root, u, k) ==> OpenAt(n, root, u, k)) {
      WalkKept(m, n, root, owner, u, k, t, i);
      StepKept(m, n, root, owner, u, k, t, i);
      assert PlainAt(m, root, u, k);
    }
  }

  /** Writing the leaf entry of page v changes the translation of v only. */
  lemma LeafSet(m: Mem, root: int, owner: Owner, v: seq<int>, e: int)
    requires Shape(m, root, owner) && Path(v) && Plain(m, root, v) && TableAt(m, root, v, 3) != NONE
    ensures var n := m[Slot(TableAt(m, root, v, 3), v[3]) := e];
            && Shape(n, root, owner) && Leaf(n, root, v) == e && Plain(n, root, v)
            && (Open(m, root, v) ==> Open(n, root, v)) && TableAt(n, root, v, 3) == TableAt(m, root, v, 3)
  {
    var t := TableAt(m, root, v, 3);
    var n := m[Slot(t, v[3]) := e];
    Located(m, root, owner, v, 3);
    LeafShape(m, root, owner, t, v[3], e);
    hide Present, Large, User, Writable, Addr, Shape;
    WalkKept(m, n, root, owner, v, 3, t, v[3]);
    PlainPrefix3(m, n, root, owner, v, t, v[3]);
  }

  lemma PlainPrefix3(m: Mem, n: Mem, root: int, owner: Owner, u: seq<int>, t: int, i: int)
    requires Shape(m, root, owner) && Path(u) && Plain(m, root, u) && t in owner && 0 <= i < 512
    requires AgreeSlots(m, n, owner, Slot(t, i)) && owner[t] == u[..3]
    ensures Plain(n, root, u) && (Open(m, root, u) ==> Open(n, root, u))
  {
    hide Rd, Present, Large, User, Writable, Addr, Shape, AgreeSlots, TableAt;
    forall k: nat | k < 3 ensures PlainAt(n, root, u, k) && (OpenAt(m, root, u, k) ==> OpenAt(n, root, u, k)) {
      WalkKept(m, n, root, owner, u, k, t, i);
      StepKept(m, n, root, owner, u, k, t, i);
      assert PlainAt(m, root, u, k);
    }
  }

  lemma LeafShape(m: Mem, root: int, owner: Owner, t: int, i: int, e: int)
    requires Shape(m, root, owner) && t in owner && |owner[t]| == 3 && 0 <= i < 512
    ensures var n := m[Slot(t, i) := e]; Shape(n, root, owner) && AgreeSlots(m, n, owner, Slot(t, i))
  {
    hide Present, Large, Addr, Frame;
    var n := m[Slot(t, i) := e];
    forall g, j | g in owner && 0 <= j < 512 && |owner[g]| < 3 ensures Child(n, owner, g, j) {
      assert Child(m, owner, g, j);
      if Slot(g, j) == Slot(t, i) { SlotUnique(g, j, t, i); }
    }
  }

  lemma OtherLeaf(m: Mem, root: int, owner: Owner, v: seq<int>, e: int, u: seq<int>)
    requires Shape(m, root, owner) && Path(v) && Plain(m, root, v) && TableAt(m, root, v, 3) != NONE
    requires Path(u) && Plain(m, root, u) && u != v
    ensures var n := m[Slot(TableAt(m, root, v, 3), v[3]) := e];
            Leaf(n, root, u) == Leaf(m, root, u) && Plain(n, root, u) && (Open(m, root, u) ==> Open(n, root, u))
  {
    var t := TableAt(m, root, v, 3);
    Located(m, root, owner, v, 3);
    LeafShape(m, root, owner, t, v[3], e);
    hide Rd, Present, Large, Addr, Shape, AgreeSlots, Leaf, Plain, Open;
    assert u == u[..3] + [u[3]] && v == v[..3] + [v[3]];
    PageKept(m, m[Slot(t, v[3]) := e], root, owner, u, t, v[3]);
  }

  /**
    All pages that are plain walks translate as before, but for those in x, and no table on the way has become more
    restrictive.
   */
  ghost predicate SamePages(m: Mem, n: Mem, root: int, x: set<seq<int>>) {
    forall u :: Path(u) && Plain(m, root, u) ==>
      && Plain(n, root, u) && (Open(m, root, u) ==> Open(n, root, u))
      && (u !in x ==> Leaf(n, root, u) == Leaf(m, root, u))
  }

  /** Memory outside all tables may change freely. */
  lemma OffTables(m: Mem, n: Mem, root: int, owner: Owner)
    requires Shape(m, root, owner) && AgreeSlots(m, n, owner, -1)
    ensures Shape(n, root, owner)
    ensures SamePages(m, n, root, {})
  {
    hide Rd, Present, Large, Addr, Plain, Leaf, Frame, Open;
    forall g, j | g in owner && 0 <= j < 512 && |owner[g]| < 3 ensures Child(n, owner, g, j) {
      assert Child(m, owner, g, j);
      SlotPositive(g, j);
    }
    forall u | Path(u) && Plain(m, root, u)
      ensures Plain(n, root, u) && (Open(m, root, u) ==> Open(n, root, u)) && Leaf(n, root, u) == Leaf(m, root, u)
    {
      OffTablesPage(m, n, root, owner, u);
    }
  }

  lemma SlotPositive(f: int, i: int)
    requires Frame(f) && 0 <= i < 512
    ensures Slot(f, i) != -1
  {
  }

  lemma {:induction false} OffTablesWalk(m: Mem, n: Mem, root: int, owner: Owner, u: seq<int>, d: nat)
    requires Shape(m, root, owner) && AgreeSlots(m, n, owner, -1) && Path(u) && Plain(m, root, u) && d <= 3
    ensures var t := TableAt(m, root, u, d);
            TableAt(n, root, u, d) == t && (t != NONE ==> Rd(n, Slot(t, u[d])) == Rd(m, Slot(t, u[d])))
  {
    hide Rd, Present, Large, Addr, Plain, Frame;
    Located(m, root, owner, u, d);
    if d > 0 { OffTablesWalk(m, n, root, owner, u, d - 1); }
    var t := TableAt(m, root, u, d);
    if t != NONE { SlotPositive(t, u[d]); }
  }

  lemma OffTablesPage(m: Mem, n: Mem, root: int, owner: Owner, u: seq<int>)
    requires Shape(m, root, owner) && AgreeSlots(m, n, owner, -1) && Path(u) && Plain(m, root, u)
    ensures Plain(n, root, u) && Leaf(n, root, u) == Leaf(m, root, u) && (Open(m, root, u) ==> Open(n, root, u))
  {
    hide Rd, Present, Large, User, Writable, Addr, Shape, AgreeSlots, TableAt;
    OffTablesWalk(m, n, root, owner, u, 0);
    OffTablesWalk(m, n, root, owner, u, 1);
    OffTablesWalk(m, n, root, owner, u, 2);
    OffTablesWalk(m, n, root, owner, u, 3);
  }

  /** Writes inside one frame that is no table. */
  lemma OneFrameOff(m: Mem, n: Mem, owner: Owner, f: int)
    requires Frame(f) && f !in owner && (forall g :: g in owner ==> Frame(g)) && forall w ::
        !(f <= w < f + PAGE) ==> Rd(n, w) == Rd(m, w)
    ensures AgreeSlots(m, n, owner, -1)
  {
    hide Rd, Frame;
    forall g, j | g in owner && 0 <= j < 512 ensures Rd(n, Slot(g, j)) == Rd(m, Slot(g, j)) { ApartFrames(f, g, j); }
  }

  lemma TablesAreFrames(m: Mem, root: int, owner: Owner)
    requires Shape(m, root, owner)
    ensures forall f :: f in owner ==> Frame(f)
  {
    hide Child;
  }

  // ---- walks that meet a large page ----

  /** The present entries of the tables above the last level are as they were. */
  ghost predicate UpperStays(m: Mem, n: Mem, owner: Owner) {
    forall t, i :: t in owner && |owner[t]| < 3 && 0 <= i < 512 && Present(Rd(m, Slot(t, i)))
        ==> Rd(n, Slot(t, i)) == Rd(m, Slot(t, i))
  }

  lemma UpperTrans(m: Mem, n: Mem, k: Mem, owner: Owner, owner': Owner)
    requires UpperStays(m, n, owner) && UpperStays(n, k, owner') && forall f :: f in owner ==>
        f in owner' && owner'[f] == owner[f]
    ensures UpperStays(m, k, owner)
  {
    hide Rd, Present;
  }

  lemma AgreeUpper(m: Mem, n: Mem, owner: Owner)
    requires AgreeSlots(m, n, owner, -1) && forall f :: f in owner ==> Frame(f)
    ensures UpperStays(m, n, owner)
  {
    hide Rd, Present;
  }

  lemma HungUpper(m: Mem, root: int, owner: Owner, t: int, i: int, f: int)
    requires Shape(m, root, owner) && t in owner && 0 <= i < 512 && Frame(f) && f !in owner
    requires !Present(Rd(m, Slot(t, i)))
    ensures UpperStays(m, Hung(m, t, i, f), owner)
  {
    hide Rd, Present, Hung, Shape, Frame;
    HungWords(m, root, owner, t, i, f);
  }

  lemma LeafUpper(m: Mem, root: int, owner: Owner, t: int, i: int, e: int)
    requires Shape(m, root, owner) && t in owner && |owner[t]| == 3 && 0 <= i < 512
    ensures UpperStays(m, m[Slot(t, i) := e], owner)
  {
    hide Present, Frame;
    forall g, j | g in owner && |owner[g]| < 3 && 0 <= j < 512 ensures Slot(g, j) != Slot(t, i) {
      if Slot(g, j) == Slot(t, i) { SlotUnique(g, j, t, i); }
    }
  }

  lemma {:induction false} WalkStays(m: Mem, n: Mem, root: int, owner: Owner, u: seq<int>, d: nat)
    requires Shape(m, root, owner) && UpperStays(m, n, owner) && Path(u) && d <= 3 && TableAt(m, root, u, d) != NONE
    requires forall k: nat :: k < d ==> PlainAt(m, root, u, k)
    ensures var t := TableAt(m, root, u, d); TableAt(n, root, u, d) == t && t in owner && |owner[t]| == d
  {
    hide Rd, Present, Large, Addr, Frame;
    if d > 0 {
      WalkStays(m, n, root, owner, u, d - 1);
      var t := TableAt(m, root, u, d - 1);
      assert PlainAt(m, root, u, d - 1);
      assert Child(m, owner, t, u[d - 1]);
    }
  }

  /** A walk that meets a large page goes on meeting it. */
  lemma StaysLarge(m: Mem, n: Mem, root: int, owner: Owner, u: seq<int>)
    requires Shape(m, root, owner) && UpperStays(m, n, owner) && Path(u) && !Plain(m, root, u)
    ensures !Plain(n, root, u)
  {
    hide Rd, Present, Large, TableAt, Shape;
    var d: nat := if !PlainAt(m, root, u, 0) then 0 else if !PlainAt(m, root, u, 1) then 1 else 2;
    WalkStays(m, n, root, owner, u, d);
    assert !PlainAt(n, root, u, d);
  }
}
