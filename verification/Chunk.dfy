/** Chunk layout in the word store: field offsets, head words, and circular fd/bk lists. */
module Chunk {
  import opened Words

  // Offsets of the fields of struct malloc_tree_chunk. A chunk's prev_foot is at offset 0.
  const HEAD: int := 8
  const FD: int := 16
  const BK: int := 24
  const LEFT: int := 32
  const RIGHT: int := 40
  const PARENT: int := 48
  const INDEX: int := 56

  const MIN_CHUNK: int := 32
  const MIN_LARGE: int := 256

  // The bin arrays of malloc_state lie below every heap address.
  const SMALLBINS: int := 0x1000
  const TREEBIN_ARRAY: int := 0x2000
  const LOWEST: int := 0x1_0000

  /** smallbin_at: the header of bin i posing as a chunk, so that its fd and bk are array slots. */
  function SmallbinAt(i: int): int { SMALLBINS + 16 * i }

  function TreebinAt(i: int): int { TREEBIN_ARRAY + 8 * i }

  // head = size | CINUSE_BIT | PINUSE_BIT; sizes are multiples of 16.
  function HeadOf(size: int, cinuse: bool, pinuse: bool): int {
    size + (if cinuse then 2 else 0) + (if pinuse then 1 else 0)
  }
  function ChunkSize(h: int): int { h - h % 8 }
  predicate CInUse(h: int) { (h / 2) % 2 == 1 }
  predicate PInUse(h: int) { h % 2 == 1 }

  function Succ(s: seq<int>, k: int): int
    requires 0 <= k < |s|
  {
    if k + 1 < |s| then s[k + 1] else s[0]
  }

  /** Element k and its successor point to each other. */
  ghost predicate LinkAt(m: Mem, s: seq<int>, k: int)
    requires 0 <= k < |s|
  {
    Rd(m, s[k] + FD) == Succ(s, k) && Rd(m, Succ(s, k) + BK) == s[k]
  }

  /** The elements of s form a circular doubly linked list in that order. */
  ghost predicate Ring(m: Mem, s: seq<int>) {
    forall k :: 0 <= k < |s| ==> LinkAt(m, s, k)
  }

  /** Chunks far enough apart that their header fields cannot overlap. */
  ghost predicate Spaced(s: set<int>, gap: int) {
    forall x, y :: x in s && y in s && x < y ==> x + gap <= y
  }
}
