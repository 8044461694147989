/** What client code can rely on over a whole run of the allocator. */
module Client {
  import opened Words
  import opened Align
  import opened Chunk
  import opened TreeBins
  import opened HeapState
  import opened HeapMoves
  import opened TagEdits
  import opened FreeSteps
  import opened MallocSteps
  import opened ReallocSteps
  import opened Policy
  import opened Dlmalloc
  import opened Allocator

  /** A block as its client sees it: where it is, how many bytes were asked for, what was stored in it. */
  datatype Block = Block(ptr: int, bytes: nat, data: map<int, int>)

  /** Blocks by the number of the operation that allocated them. */
  type Table = map<nat, Block>

  datatype Op =
    | Alloc(bytes: nat)
    | AllocAligned(alignment: nat, bytes: nat)
    | Resize(id: nat, bytes: nat)
    | Release(id: nat)
    | Put(id: nat, off: int, v: int)

  function Kept(data: map<int, int>, bytes: nat): map<int, int> { map o | o in data && o + 8 <= bytes :: data[o] }

  /** The specification: blocks are independent of each other, and ptr is all the allocator decides. */
  function Apply(t: Table, i: nat, op: Op, ptr: int): Table {
    match op
    case Alloc(bytes) => if ptr == 0 then t else t[i := Block(ptr, bytes, map[])]
    case AllocAligned(_, bytes) => if ptr == 0 then t else t[i := Block(ptr, bytes, map[])]
    case Resize(id, bytes) => if id !in t || ptr == 0 then t else t[id := Block(ptr, bytes, Kept(t[id].data, bytes))]
    case Release(id) => t - {id}
    case Put(id, off, v) => if CanPut(t, id, off) then t[id := t[id].(data := t[id].data[off := v])] else t
  }

  predicate CanPut(t: Table, id: nat, off: int) { id in t && 0 <= off && off % 8 == 0 && off + 8 <= t[id].bytes }

  ghost function Replay(ops: seq<Op>, ptrs: seq<int>): Table
    requires |ops| == |ptrs|
  {
    if |ops| == 0 then map[]
    else Apply(Replay(ops[..|ops| - 1], ptrs[..|ops| - 1]), |ops| - 1, ops[|ops| - 1], ptrs[|ops| - 1])
  }

  /** A block's memory is its own chunk in use, big enough, and holds what was stored. */
  ghost predicate BlockOk(s: Snap, b: Block) {
    && b.ptr - FD in Live(s.h) && b.bytes < MAX_REQUEST && Request2Size(b.bytes) <= Live(s.h)[b.ptr - FD]
    && (forall o :: o in b.data ==> 0 <= o && o % 8 == 0 && o + 8 <= b.bytes && Rd(s.mem, b.ptr + o) == b.data[o])
  }

  ghost predicate Owned(t: Table, p: int) { exists i :: i in t && t[i].ptr == p + FD }

  /** The heap holds exactly the blocks of t. */
  ghost predicate Honours(s: Snap, t: Table) {
    && (forall i :: i in t ==> BlockOk(s, t[i]))
    && (forall i, j :: i in t && j in t && i != j ==> t[i].ptr != t[j].ptr)
    && (forall p :: p in Live(s.h) ==> Owned(t, p))
  }

  lemma BlockKept(s: Snap, u: Snap, d: set<int>, b: Block)
    requires BlockOk(s, b) && Keeps(s, u, d) && b.ptr - FD !in d
    ensures BlockOk(u, b)
  {
    hide Rd, Request2Size;
    var p := b.ptr - FD;
    assert SamePayload(s.mem, u.mem, s.h, p);
    RequestSize(b.bytes);
    forall o | o in b.data ensures Rd(u.mem, b.ptr + o) == b.data[o] {
      assert PayloadWord(s.h, p, b.ptr + o);
    }
  }

  lemma Unchanged(s: Snap, u: Snap, t: Table)
    requires Honours(s, t) && Keeps(s, u, {}) && u.h == s.h
    ensures Honours(u, t)
  {
    hide Rd, Keeps, Live, BlockOk, Owned;
    forall i | i in t ensures BlockOk(u, t[i]) { BlockKept(s, u, {}, t[i]); }
  }

  lemma NewOwner(s: Snap, u: Snap, t: Table, i: nat, ptr: int, bytes: nat)
    requires Honours(s, t) && i !in t && bytes < MAX_REQUEST && Granted(s, u, Request2Size(bytes), ptr - FD)
    ensures Honours(u, t[i := Block(ptr, bytes, map[])])
  {
    hide Rd, Keeps, Live, Request2Size, BlockOk;
    var t' := t[i := Block(ptr, bytes, map[])];
    forall j | j in t' ensures BlockOk(u, t'[j]) {
      if j != i { BlockKept(s, u, {}, t[j]); } else { NewBlockOk(s, u, ptr, bytes); }
    }
    forall j | j in t ensures t[j].ptr != ptr { BlockLive(s, t[j]); }
    forall p | p in Live(u.h) ensures Owned(t', p) {
      if p == ptr - FD {
        assert t'[i].ptr == p + FD;
      } else {
        assert Owned(t, p);
        var j :| j in t && t[j].ptr == p + FD;
        assert t'[j].ptr == p + FD;
      }
    }
  }

  lemma NewBlockOk(s: Snap, u: Snap, ptr: int, bytes: nat)
    requires bytes < MAX_REQUEST && Granted(s, u, Request2Size(bytes), ptr - FD)
    ensures BlockOk(u, Block(ptr, bytes, map[]))
  {
    hide Rd, Keeps, Live, Request2Size;
  }

  lemma BlockLive(s: Snap, b: Block)
    requires BlockOk(s, b)
    ensures b.ptr - FD in Live(s.h)
  {
    hide Rd, Live, Request2Size;
  }

  lemma Released(s: Snap, u: Snap, t: Table, id: nat)
    requires Honours(s, t) && id in t && Dropped(s, u, t[id].ptr - FD)
    ensures Honours(u, t - {id})
  {
    hide Rd, Keeps, Live, BlockOk;
    forall j | j in t - {id} ensures BlockOk(u, t[j]) { BlockKept(s, u, {t[id].ptr - FD}, t[j]); }
    forall p | p in Live(u.h) ensures Owned(t - {id}, p) {
      assert Owned(t, p);
      var j :| j in t && t[j].ptr == p + FD;
      assert j in t - {id};
    }
  }

  lemma Stored(s: Snap, u: Snap, t: Table, id: nat, off: int, v: int)
    requires Honours(s, t) && CanPut(t, id, off) && u == s.(mem := s.mem[t[id].ptr + off := v])
    requires Keeps(s, u, {t[id].ptr - FD})
    ensures Honours(u, Apply(t, 0, Put(id, off, v), 0))
  {
    hide Keeps, Live, Request2Size, BlockOk, Rd;
    var t' := Apply(t, 0, Put(id, off, v), 0);
    forall j | j in t' ensures BlockOk(u, t'[j]) {
      if j != id { BlockKept(s, u, {t[id].ptr - FD}, t[j]); } else { StoredBlock(s, u, t[id], off, v); }
    }
    forall p | p in Live(u.h) ensures Owned(t', p) {
      assert Owned(t, p);
      var j :| j in t && t[j].ptr == p + FD;
      assert t'[j].ptr == p + FD;
    }
  }

  lemma StoredBlock(s: Snap, u: Snap, b: Block, off: int, v: int)
    requires BlockOk(s, b) && 0 <= off && off % 8 == 0 && off + 8 <= b.bytes && u == s.(mem := s.mem[b.ptr + off := v])
    ensures BlockOk(u, b.(data := b.data[off := v]))
  {
    hide Live, Request2Size;
  }

  lemma MovedOwner(s: Snap, u: Snap, t: Table, id: nat, ptr: int, bytes: nat)
    requires Honours(s, t) && id in t && bytes < MAX_REQUEST
    requires Moved(s, u, t[id].ptr - FD, ptr - FD, Request2Size(bytes))
    ensures Honours(u, t[id := Block(ptr, bytes, Kept(t[id].data, bytes))])
  {
    hide Rd, Keeps, Live, Request2Size, Copied, BlockOk;
    var t' := t[id := Block(ptr, bytes, Kept(t[id].data, bytes))];
    forall j | j in t' ensures BlockOk(u, t'[j]) {
      if j != id { BlockKept(s, u, {t[id].ptr - FD}, t[j]); } else { MovedBlock(s, u, t[id], ptr, bytes); }
    }
    forall i, j | i in t' && j in t' && i != j ensures t'[i].ptr != t'[j].ptr {
      MovedApart(s, u, t, id, ptr, bytes, if i == id then j else i);
    }
    forall p | p in Live(u.h) ensures Owned(t', p) {
      if p == ptr - FD {
        assert t'[id].ptr == p + FD;
      } else {
        assert Owned(t, p);
        var j :| j in t && t[j].ptr == p + FD;
        assert t'[j].ptr == p + FD;
      }
    }
  }

  lemma MovedApart(s: Snap, u: Snap, t: Table, id: nat, ptr: int, bytes: nat, j: nat)
    requires Honours(s, t) && id in t && Moved(s, u, t[id].ptr - FD, ptr - FD, Request2Size(bytes))
    ensures j in t && j != id ==> t[j].ptr != ptr
  {
    hide Rd, Keeps, Live, Request2Size, Copied, BlockOk;
    if j in t && j != id { BlockLive(s, t[j]); }
  }

  lemma MovedBlock(s: Snap, u: Snap, b: Block, ptr: int, bytes: nat)
    requires BlockOk(s, b) && bytes < MAX_REQUEST && Moved(s, u, b.ptr - FD, ptr - FD, Request2Size(bytes))
    ensures BlockOk(u, Block(ptr, bytes, Kept(b.data, bytes)))
  {
    hide Rd, Keeps, Live, Request2Size;
    RequestSize(bytes);
    RequestSize(b.bytes);
    var n := Min(Live(s.h)[b.ptr - FD], Live(u.h)[ptr - FD]) - HEAD;
    forall o | o in Kept(b.data, bytes) ensures Rd(u.mem, ptr + o) == b.data[o] {
      assert 0 <= o < n && o % 8 == 0;
      assert Rd(u.mem, ptr - FD + FD + o) == Rd(s.mem, b.ptr - FD + FD + o);
    }
  }

  ghost predicate WellFormed(op: Op) {
    match op
    case Alloc(bytes) => bytes < WORD
    case AllocAligned(alignment, bytes) => bytes < WORD && alignment <= HALF
    case Resize(_, bytes) => bytes < WORD
    case _ => true
  }

  lemma BlockPlace(s: Snap, dv: int, dvsize: int, b: Block)
    requires Settled(s, dv, dvsize) && BlockOk(s, b)
    ensures b.ptr - FD in Live(s.h) && b.ptr % 16 == 0 && s.base + FD <= b.ptr
    ensures b.ptr + b.bytes <= b.ptr - HEAD + Live(s.h)[b.ptr - FD]
    ensures b.ptr > 0 && b.ptr - FD in s.h && b.ptr - FD + Live(s.h)[b.ptr - FD] <= s.top
  {
    hide Rd, Live, Request2Size, Inv;
    LiveBounds(s, dv, dvsize, b.ptr - FD);
    RequestSize(b.bytes);
  }

  /** A chunk of nb bytes can be had: from a free chunk, from top, or from what the system grants. */
  ghost predicate Room(s: Snap, nb: int, grant: nat) { (exists q :: Roomy(s.h, nb, q)) || nb < s.topsize + grant }

  /** The heap in state s can serve the operation. */
  ghost predicate Possible(s: Snap, t: Table, op: Op, grant: nat) {
    match op
    case Alloc(bytes) => Room(s, Request2Size(bytes), grant)
    case AllocAligned(alignment, bytes) => Room(s, Request2Size(Asked(alignment, bytes)), grant)
    case Resize(id, bytes) =>
      && id in t && t[id].ptr - FD in s.h
      && (Extensible(s, t[id].ptr - FD, Request2Size(bytes)) || Room(s, Request2Size(bytes), grant))
    case _ => false
  }

  /** A pointer is returned just if the operation is possible, and it is aligned as asked for. */
  ghost predicate Answers(s: Snap, t: Table, op: Op, grant: nat, ptr: int) {
    && (ptr != 0 <==> Possible(s, t, op, grant))
    && (ptr != 0 && op.AllocAligned? && IsPow2(op.alignment) ==> Multiple(ptr, op.alignment))
  }

  /** One operation of a client: the heap goes on holding exactly the blocks of the specification. */
  method Step(heap: Heap, t: Table, i: nat, op: Op, grant: nat) returns (ptr: int)
    requires heap.Valid() && Honours(heap.View(), t) && i !in t && WellFormed(op) && heap.base + 2 * SIZE_LIMIT <= WORD
    requires grant % 16 == 0 && heap.top + heap.topsize + grant - heap.base < SIZE_LIMIT
    modifies heap
    ensures heap.Valid() && Honours(heap.View(), Apply(t, i, op, ptr))
    ensures Answers(old(heap.View()), t, op, grant, ptr)
    ensures heap.top + heap.topsize <= old(heap.top + heap.topsize) + grant
  {
    hide Inv, Honours, Served, Granted, Keeps, Live, Chosen, Roomy, Request2Size, Moved, Extensible, Dropped, IsPow2,
         Multiple;
    ghost var s := heap.View();
    ptr := 0;
    match op
    case Alloc(bytes) =>
      ptr := heap.Malloc(bytes, grant);
      if ptr != 0 {
        ServedIsGranted(s, heap.View(), Request2Size(bytes), ptr - FD);
        NewOwner(s, heap.View(), t, i, ptr, bytes);
      } else {
        Unchanged(s, heap.View(), t);
      }
    case AllocAligned(alignment, bytes) =>
      ptr := Memalign(heap, alignment, bytes, grant);
      if ptr != 0 {
        NewOwner(s, heap.View(), t, i, ptr, bytes);
      } else {
        Unchanged(s, heap.View(), t);
      }
    case Resize(id, bytes) =>
      if id in t {
        ptr := ResizeBlock(heap, t, id, bytes, grant);
      }
    case Release(id) =>
      if id in t {
        ReleaseBlock(heap, t, id);
      } else {
        assert t - {id} == t;
      }
    case Put(id, off, v) =>
      if CanPut(t, id, off) {
        PutWord(heap, t, id, off, v);
      }
  }

  method ResizeBlock(heap: Heap, t: Table, id: nat, bytes: nat, grant: nat) returns (ptr: int)
    requires heap.Valid() && Honours(heap.View(), t) && id in t && bytes < WORD
    requires grant % 16 == 0 && heap.top + heap.topsize + grant - heap.base < SIZE_LIMIT
    modifies heap
    ensures heap.Valid()
    ensures Honours(heap.View(), if ptr == 0 then t else t[id := Block(ptr, bytes, Kept(t[id].data, bytes))])
    ensures ptr != 0 <==> Possible(old(heap.View()), t, Resize(id, bytes), grant)
    ensures heap.top + heap.topsize <= old(heap.top + heap.topsize) + grant
  {
    hide Inv, Keeps, Live, Served, Roomy, Request2Size, Moved, Extensible, BlockOk, Owned, Kept;
    ghost var s := heap.View();
    BlockPlace(s, heap.dv, heap.dvsize, t[id]);
    ptr := Realloc(heap, t[id].ptr, bytes, grant);
    if ptr != 0 {
      MovedOwner(s, heap.View(), t, id, ptr, bytes);
    } else {
      Unchanged(s, heap.View(), t);
    }
  }

  method ReleaseBlock(heap: Heap, t: Table, id: nat)
    requires heap.Valid() && Honours(heap.View(), t) && id in t
    modifies heap
    ensures heap.Valid() && Honours(heap.View(), t - {id}) && heap.top + heap.topsize == old(heap.top + heap.topsize)
  {
    hide Inv, Keeps, Live, Dropped, BlockOk, Owned;
    ghost var s := heap.View();
    BlockPlace(s, heap.dv, heap.dvsize, t[id]);
    var ok := heap.Free(t[id].ptr);
    assert ok;
    Released(s, heap.View(), t, id);
    DroppedEnds(s, heap.View(), t[id].ptr - FD);
  }

  lemma PutPlace(s: Snap, dv: int, dvsize: int, t: Table, id: nat, off: int)
    requires Settled(s, dv, dvsize) && Honours(s, t) && CanPut(t, id, off)
    ensures OwnWord(s.h, t[id].ptr - FD, t[id].ptr + off)
  {
    hide Inv, Live, BlockOk, Owned;
    BlockPlace(s, dv, dvsize, t[id]);
    SumAligned(t[id].ptr, off);
  }

  lemma SumAligned(a: int, b: int)
    requires a % 16 == 0 && b % 8 == 0
    ensures (a + b) % 8 == 0
  {
  }

  method PutWord(heap: Heap, t: Table, id: nat, off: int, v: int)
    requires heap.Valid() && Honours(heap.View(), t) && CanPut(t, id, off)
    modifies heap`mem
    ensures heap.Valid() && Honours(heap.View(), Apply(t, 0, Put(id, off, v), 0))
  {
    hide Inv, Keeps, Live, BlockOk, Owned, Apply, OwnWord, Honours, Rd;
    ghost var s := heap.View();
    PutPlace(s, heap.dv, heap.dvsize, t, id, off);
    Store(heap, t[id].ptr - FD, t[id].ptr + off, v);
    Stored(s, heap.View(), t, id, off, v);
  }

  ghost function Sum(grants: seq<nat>): nat {
    if |grants| == 0 then 0 else Sum(grants[..|grants| - 1]) + grants[|grants| - 1]
  }

  lemma {:induction false} SumPrefix(grants: seq<nat>, i: nat)
    requires i <= |grants|
    ensures Sum(grants[..i]) <= Sum(grants)
    decreases |grants|
  {
    if i < |grants| {
      var front := grants[..|grants| - 1];
      SumPrefix(front, i);
      assert front[..i] == grants[..i];
    } else {
      assert grants[..i] == grants;
    }
  }

  lemma {:induction false} ReplayKeys(ops: seq<Op>, ptrs: seq<int>, i: nat)
    requires |ops| == |ptrs| && i in Replay(ops, ptrs)
    ensures i < |ops|
    decreases |ops|
  {
    if |ops| > 0 {
      var n := |ops| - 1;
      if i in Replay(ops[..n], ptrs[..n]) { ReplayKeys(ops[..n], ptrs[..n], i); }
    }
  }

  /** Before operation k the heap held the blocks of the replay so far, and it answered as its state allows. */
  ghost predicate Traced(ops: seq<Op>, grants: seq<nat>, ptrs: seq<int>, views: seq<Snap>) {
    && |ptrs| == |views| <= |ops| == |grants|
    && (forall k :: 0 <= k < |views| ==> Honours(views[k], Replay(ops[..k], ptrs[..k])))
    && (forall k :: 0 <= k < |views| ==>
          Answers(views[k], Replay(ops[..k], ptrs[..k]), ops[k], grants[k], ptrs[k]))
  }

  lemma TracedStart(ops: seq<Op>, grants: seq<nat>)
    requires |ops| == |grants|
    ensures Traced(ops, grants, [], [])
  {
  }

  lemma TracedMore(ops: seq<Op>, grants: seq<nat>, ptrs: seq<int>, views: seq<Snap>, ptr: int, s: Snap)
    requires Traced(ops, grants, ptrs, views) && |views| < |ops|
    requires var i := |views|;
             Honours(s, Replay(ops[..i], ptrs)) && Answers(s, Replay(ops[..i], ptrs), ops[i], grants[i], ptr)
    ensures Traced(ops, grants, ptrs + [ptr], views + [s])
  {
    hide Honours, Answers, Replay;
    var p, w, i := ptrs + [ptr], views + [s], |views|;
    forall k | 0 <= k <= i
      ensures Honours(w[k], Replay(ops[..k], p[..k]))
      ensures Answers(w[k], Replay(ops[..k], p[..k]), ops[k], grants[k], p[k])
    {
      assert p[..k] == ptrs[..k];
      if k == i { assert ptrs[..k] == ptrs; }
    }
  }

  /**
    Every run of client operations on a fresh heap: at the end the heap holds exactly the blocks that
    replaying the operations on independent blocks leaves, each with the data stored in it. Every operation was served
    just if that was possible at its time; the ghost result holds the states in between.
   */
  method Run(segment: int, size: int, ops: seq<Op>, grants: seq<nat>)
    returns (heap: Heap, ptrs: seq<int>, ghost views: seq<Snap>)
    requires LOWEST <= segment && segment % 16 == 0 && 0 < size && size % 16 == 0 && size + Sum(grants) < SIZE_LIMIT
    requires segment + 2 * SIZE_LIMIT <= WORD
    requires |grants| == |ops| && (forall i :: 0 <= i < |ops| ==> WellFormed(ops[i]) && grants[i] % 16 == 0)
    ensures fresh(heap) && heap.Valid() && |ptrs| == |ops| && Honours(heap.View(), Replay(ops, ptrs))
    ensures Traced(ops, grants, ptrs, views)
    ensures |ops| > 0 ==> views[0].h == map[] && views[0].base == segment && views[0].topsize == size
  {
    hide Inv, Honours, Live, Apply, Answers, Traced;
    heap := new Heap(segment, size);
    ptrs, views := [], [];
    var t: Table := map[];
    EmptyTable(heap.View());
    TracedStart(ops, grants);
    for i := 0 to |ops|
      invariant fresh(heap) && heap.Valid() && |ptrs| == i && t == Replay(ops[..i], ptrs) && Honours(heap.View(), t)
      invariant heap.base == segment && heap.top + heap.topsize <= segment + size + Sum(grants[..i])
      invariant Traced(ops, grants, ptrs, views) && |views| == i
      invariant if i == 0 then heap.h == map[] && heap.topsize == size
                else views[0].h == map[] && views[0].base == segment && views[0].topsize == size
    {
      ghost var done := ops[..i];
      SumPrefix(grants, i + 1);
      assert grants[..i + 1][..i] == grants[..i];
      assert i !in t by { if i in t { ReplayKeys(done, ptrs, i); } }
      ghost var before := heap.View();
      var ptr := Step(heap, t, i, ops[i], grants[i]);
      TracedMore(ops, grants, ptrs, views, ptr, before);
      views := views + [before];
      t := Apply(t, i, ops[i], ptr);
      assert ops[..i + 1][..i] == done && (ptrs + [ptr])[..i] == ptrs;
      ptrs := ptrs + [ptr];
    }
    assert ops[..|ops|] == ops;
  }

  lemma EmptyTable(s: Snap)
    requires s.h == map[]
    ensures Honours(s, map[])
  {
  }

  /** Blocks are aligned, lie inside the segment, are as large as asked for, and do not overlap. */
  lemma BlocksApart(s: Snap, dv: int, dvsize: int, t: Table, i: nat, j: nat)
    requires Settled(s, dv, dvsize) && Honours(s, t) && i in t && j in t
    ensures t[i].ptr % 16 == 0 && s.base < t[i].ptr && t[i].ptr + t[i].bytes < s.top + s.topsize
    ensures i != j ==> t[i].ptr + t[i].bytes <= t[j].ptr || t[j].ptr + t[j].bytes <= t[i].ptr
  {
    hide Inv, Live, BlockOk, Owned;
    BlockPlace(s, dv, dvsize, t[i]);
    BlockPlace(s, dv, dvsize, t[j]);
    LiveBounds(s, dv, dvsize, t[i].ptr - FD);
    LiveBounds(s, dv, dvsize, t[j].ptr - FD);
    Opened(s, {dv});
    HeapBounds(s.mem, s.h, s.base, s.top, s.topsize);
    HeapTop(s);
  }
}
