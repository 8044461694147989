/** The initial user stack of a process, as the System V AMD64 ABI section 3.4.1 lays it out. */
module UserStack {
  import opened Words

  /** Bytes needed by the first n strings, each with its terminator. */
  function Packed(strs: seq<string>, n: nat): nat
    requires n <= |strs|
  {
    if n == 0 then 0 else Packed(strs, n - 1) + |strs[n - 1]| + 1
  }

  lemma {:induction false} PackedGrows(strs: seq<string>, i: nat, j: nat)
    requires i < j <= |strs|
    ensures Packed(strs, i) + |strs[i]| + 1 <= Packed(strs, j)
    decreases j
  {
    if i + 1 < j { PackedGrows(strs, i, j - 1); }
  }

  lemma PackedStep(strs: seq<string>, n: nat)
    requires n <= |strs|
    ensures Packed(strs, n) == if n == 0 then 0 else Packed(strs, n - 1) + |strs[n - 1]| + 1
  {
  }

  function Byte(bytes: map<int, char>, p: int): char { if p in bytes then bytes[p] else NUL }

  /** A NUL-terminated copy of s starts at p. */
  ghost predicate StringAt(bytes: map<int, char>, p: int, s: string) {
    (forall k :: 0 <= k < |s| ==> Byte(bytes, p + k) == s[k]) && Byte(bytes, p + |s|) == NUL
  }

  /** The first n strings lie one after the other from start. */
  ghost predicate StringsAt(bytes: map<int, char>, start: int, strs: seq<string>, n: nat)
    requires n <= |strs|
  {
    forall i :: 0 <= i < n ==> StringAt(bytes, start + Packed(strs, i), strs[i])
  }

  /** Every byte outside [a, b) is as it was. */
  ghost predicate Elsewhere(before: map<int, char>, bytes: map<int, char>, a: int, b: int) {
    forall p :: p < a || p >= b ==> Byte(bytes, p) == Byte(before, p)
  }

  lemma StringKept(before: map<int, char>, bytes: map<int, char>, a: int, b: int, p: int, s: string)
    requires StringAt(before, p, s) && Elsewhere(before, bytes, a, b) && (p + |s| < a || p >= b)
    ensures StringAt(bytes, p, s)
  {
    hide Byte;
  }

  lemma ElsewhereSelf(bytes: map<int, char>, a: int)
    ensures Elsewhere(bytes, bytes, a, a)
  {
  }

  lemma ElsewhereTrans(x: map<int, char>, y: map<int, char>, z: map<int, char>, a: int, b: int, c: int)
    requires Elsewhere(x, y, a, b) && Elsewhere(y, z, b, c) && a <= b <= c
    ensures Elsewhere(x, z, a, c)
  {
    hide Byte;
  }

  /** memcpy of a string with its terminator */
  method CopyString(bytes0: map<int, char>, p: int, s: string) returns (bytes: map<int, char>)
    ensures StringAt(bytes, p, s) && Elsewhere(bytes0, bytes, p, p + |s| + 1)
  {
    bytes := bytes0;
    for k := 0 to |s|
      invariant forall j :: 0 <= j < k ==> Byte(bytes, p + j) == s[j]
      invariant Elsewhere(bytes0, bytes, p, p + |s| + 1)
    {
      bytes := bytes[p + k := s[k]];
    }
    bytes := bytes[p + |s| := NUL];
  }

  /** stackStorePtrStyle: the strings are copied to the end of the heap. */
  method StoreStrings(bytes0: map<int, char>, heapEnd: int, strs: seq<string>)
    returns (bytes: map<int, char>, start: int, ellapsed: int)
    ensures start == heapEnd && ellapsed == Packed(strs, |strs|) && StringsAt(bytes, start, strs, |strs|)
    ensures Elsewhere(bytes0, bytes, start, start + ellapsed)
  {
    hide StringAt, Byte, Elsewhere, Packed;
    var space := 0;
    PackedStep(strs, 0);
    for i := 0 to |strs|
      invariant space == Packed(strs, i)
    {
      PackedStep(strs, i + 1);
      space := space + |strs[i]| + 1;
    }
    ElsewhereSelf(bytes0, heapEnd);
    bytes, start, ellapsed := bytes0, heapEnd, 0;
    for i := 0 to |strs|
      invariant ellapsed == Packed(strs, i) <= space && StringsAt(bytes, start, strs, i)
      invariant Elsewhere(bytes0, bytes, start, start + ellapsed)
    {
      ghost var before := bytes;
      PackedGrows(strs, i, |strs|);
      PackedStep(strs, i + 1);
      bytes := CopyString(bytes, start + ellapsed, strs[i]);
      StringsKept(before, bytes, start, strs, i, start + ellapsed + |strs[i]| + 1);
      ElsewhereTrans(bytes0, before, bytes, start, start + ellapsed, start + ellapsed + |strs[i]| + 1);
      ellapsed := ellapsed + |strs[i]| + 1;
    }
  }

  /** Copying beyond the first n strings leaves them alone. */
  lemma StringsKept(before: map<int, char>, bytes: map<int, char>, start: int, strs: seq<string>, n: nat, b: int)
    requires n <= |strs| && StringsAt(before, start, strs, n) && Elsewhere(before, bytes, start + Packed(strs, n), b)
    ensures StringsAt(bytes, start, strs, n)
  {
    hide StringAt, Elsewhere, Packed;
    forall i | 0 <= i < n ensures StringAt(bytes, start + Packed(strs, i), strs[i]) {
      PackedGrows(strs, i, n);
      StringKept(before, bytes, start + Packed(strs, n), b, start + Packed(strs, i), strs[i]);
    }
  }

  /** The pointers to the strings packed from start. */
  function Pointers(start: int, strs: seq<string>): seq<int> {
    seq(|strs|, i requires 0 <= i < |strs| => start + Packed(strs, i))
  }

  /** The words from a up. */
  ghost predicate WordsAt(m: Mem, a: int, words: seq<int>) {
    forall i :: 0 <= i < |words| ==> Rd(m, a + 8 * i) == words[i]
  }

  // ---- the executable ----

  /** A program header: whether it is PT_LOAD, and its p_vaddr. */
  datatype Phdr = Phdr(load: bool, vaddr: nat)

  /** The executable's header, its program headers, where it and its interpreter were loaded, and the random bytes. */
  datatype Image = Image(dyn: bool, phdrs: seq<Phdr>, phoff: nat, phentsize: nat, entry: nat, base: nat, loadedAt: nat,
                         random: int)

  /** What the scan of the first n program headers has found. */
  function Scanned(phdrs: seq<Phdr>, n: nat): nat
    requires n <= |phdrs|
  {
    if n == 0 then 0
    else
      var low, p := Scanned(phdrs, n - 1), phdrs[n - 1];
      if p.load && (low == 0 || low > p.vaddr) then p.vaddr else low
  }

  /** r is the least address that is loaded, or 0 if there is none. */
  ghost predicate LowestLoad(phdrs: seq<Phdr>, r: nat) {
    if forall i :: 0 <= i < |phdrs| ==> !phdrs[i].load then r == 0
    else
      && (exists i :: 0 <= i < |phdrs| && phdrs[i].load && phdrs[i].vaddr == r)
      && (forall i :: 0 <= i < |phdrs| && phdrs[i].load ==> r <= phdrs[i].vaddr)
  }

  /** The last header that is loaded is loaded at 0. */
  ghost predicate EndsAtZero(phdrs: seq<Phdr>) {
    exists i :: 0 <= i < |phdrs| && phdrs[i].load && phdrs[i].vaddr == 0
                && forall k :: i < k < |phdrs| ==> !phdrs[k].load
  }

  ghost predicate LoadsAtZero(phdrs: seq<Phdr>) { exists i :: 0 <= i < |phdrs| && phdrs[i].load && phdrs[i].vaddr == 0 }

  lemma {:induction false} ScannedLeast(phdrs: seq<Phdr>, n: nat)
    requires n <= |phdrs|
    ensures LoadsAtZero(phdrs[..n]) || LowestLoad(phdrs[..n], Scanned(phdrs, n))
    ensures Scanned(phdrs, n) == 0 ==> (forall i :: 0 <= i < n ==> !phdrs[i].load) || EndsAtZero(phdrs[..n])
    ensures EndsAtZero(phdrs[..n]) ==> Scanned(phdrs, n) == 0
  {
    if n > 0 {
      ScannedLeast(phdrs, n - 1);
      var s, t, p := phdrs[..n - 1], phdrs[..n], phdrs[n - 1];
      assert t == s + [p];
      assert forall i :: 0 <= i < n - 1 ==> t[i] == s[i];
      assert t[n - 1] == p;
    }
  }

  /** The scan finds the least address, unless a header is loaded at 0 and another one after it is not. */
  lemma ScannedIff(phdrs: seq<Phdr>)
    ensures LowestLoad(phdrs, Scanned(phdrs, |phdrs|)) <==> !LoadsAtZero(phdrs) || EndsAtZero(phdrs)
  {
    assert phdrs[..|phdrs|] == phdrs;
    ScannedLeast(phdrs, |phdrs|);
  }

  /** That does happen: 0 is passed over for 0x1000. */
  lemma ZeroPassedOver()
    ensures var phdrs := [Phdr(true, 0), Phdr(true, 0x1000)];
            Scanned(phdrs, 2) == 0x1000 && !LowestLoad(phdrs, 0x1000) && LowestLoad(phdrs, 0)
  {
    var phdrs := [Phdr(true, 0), Phdr(true, 0x1000)];
    assert phdrs[0].load && phdrs[0].vaddr == 0 && phdrs[1].load;
    assert Scanned(phdrs, 1) == 0;
  }

  /** The loop over the program headers */
  method ScanLoads(phdrs: seq<Phdr>) returns (lowest: nat)
    ensures lowest == Scanned(phdrs, |phdrs|)
  {
    lowest := 0;
    for i := 0 to |phdrs|
      invariant lowest == Scanned(phdrs, i)
    {
      if phdrs[i].load && (lowest == 0 || lowest > phdrs[i].vaddr) {
        lowest := phdrs[i].vaddr;
      }
    }
  }

  /** Where the program headers are in memory. */
  function PhdrAddress(e: Image): nat {
    (e.loadedAt + (if e.dyn then 0 else Scanned(e.phdrs, |e.phdrs|)) + e.phoff) % WORD
  }

  /** AT_PHDR, without the scan: the headers are at e_phoff from where the image starts, or from its least address. */
  lemma PhdrsPlaced(e: Image, r: nat)
    requires e.dyn || (LowestLoad(e.phdrs, r) && (!LoadsAtZero(e.phdrs) || EndsAtZero(e.phdrs)))
    ensures PhdrAddress(e) == (if e.dyn then e.loadedAt + e.phoff else e.loadedAt + r + e.phoff) % WORD
  {
    hide Scanned, LoadsAtZero, EndsAtZero, LowestLoad;
    if !e.dyn {
      ScannedIff(e.phdrs);
      OneLowest(e.phdrs, r, Scanned(e.phdrs, |e.phdrs|));
    }
  }

  lemma OneLowest(phdrs: seq<Phdr>, r: nat, s: nat)
    requires LowestLoad(phdrs, r) && LowestLoad(phdrs, s)
    ensures r == s
  {
  }

  function EntryAddress(e: Image): nat { (e.loadedAt + e.entry) % WORD }

  /** The auxiliary vector in memory order, AT_PHDR first and AT_NULL last. */
  function Auxv(e: Image): seq<int> {
    [3, PhdrAddress(e)] + ([16, 0] + ([8, 0] + ([7, e.base] + ([9, EntryAddress(e)] +
    ([4, e.phentsize] + ([5, |e.phdrs|] + ([23, 0] + ([6, 4096] + ([25, e.random] + ([0, 0] + []))))))))))
  }

  class Stack {
    var mem: Mem
    var rsp: int
    ghost var words: seq<int>

    ghost predicate Valid()
      reads this
    {
      WordsAt(mem, rsp, words)
    }

    constructor (m: Mem, top: int)
      ensures Valid() && words == [] && rsp == top && mem == m
    {
      mem, rsp, words := m, top, [];
    }

    /** PUSH_TO_STACK */
    method Push(v: int)
      requires Valid()
      modifies this
      ensures Valid() && words == [v] + old(words) && rsp == old(rsp) - 8
    {
      rsp := rsp - 8;
      mem := mem[rsp := v];
      words := [v] + words;
      forall i | 0 <= i < |words| ensures Rd(mem, rsp + 8 * i) == words[i] {
        if i > 0 { assert words[i] == old(words)[i - 1]; }
      }
    }

    /** Pushes the pointers to the strings, last to first, with offsets summed up from the end. */
    method PushPointers(start: int, ellapsed: int, strs: seq<string>)
      requires Valid() && ellapsed == Packed(strs, |strs|)
      modifies this
      ensures Valid() && words == Pointers(start, strs) + old(words) && rsp == old(rsp) - 8 * |strs|
    {
      hide WordsAt;
      var finalEllapsed := 0;
      ghost var all := Pointers(start, strs);
      var i := |strs|;
      assert all[i..] + words == words;
      while i > 0
        invariant 0 <= i <= |strs| && Valid() && ellapsed - finalEllapsed == Packed(strs, i)
        invariant words == all[i..] + old(words) && rsp == old(rsp) - 8 * (|strs| - i)
      {
        i := i - 1;
        finalEllapsed := finalEllapsed + |strs[i]| + 1;
        assert all[i] == start + (ellapsed - finalEllapsed);
        Push(start + (ellapsed - finalEllapsed));
        assert all[i..] == [all[i]] + all[i + 1..];
      }
    }

    method PushPair(key: int, value: int)
      requires Valid()
      modifies this
      ensures Valid() && words == [key, value] + old(words) && rsp == old(rsp) - 16
    {
      Push(value);
      Push(key);
      assert words == [key, value] + old(words);
    }

    /** The auxiliary vector, pushed from AT_NULL to AT_PHDR. */
    method PushAuxv(e: Image)
      requires Valid() && words == []
      modifies this
      ensures Valid() && words == Auxv(e) && rsp == old(rsp) - 176
    {
      hide WordsAt, Scanned;
      var lowest := ScanLoads(e.phdrs);
      var phdrThing := if e.dyn then 0 else lowest;
      var phdr, entry := (e.loadedAt + phdrThing + e.phoff) % WORD, (e.loadedAt + e.entry) % WORD;
      assert phdr == PhdrAddress(e) && entry == EntryAddress(e);
      hide PhdrAddress, EntryAddress;
      PushPair(0, 0);
      PushPair(25, e.random);
      PushPair(6, 4096);
      PushPair(23, 0);
      PushPair(5, |e.phdrs|);
      PushPair(4, e.phentsize);
      PushPair(9, entry);
      PushPair(7, e.base);
      PushPair(8, 0);
      PushPair(16, 0);
      PushPair(3, phdr);
    }
  }

  // ---- what a program finds ----

  datatype Option<T> = None | Some(value: T)

  // The keys of the auxiliary vector, by the names of the ABI.
  const AT_PHDR: int := 3
  const AT_PHENT: int := 4
  const AT_PHNUM: int := 5
  const AT_PAGESZ: int := 6
  const AT_BASE: int := 7
  const AT_FLAGS: int := 8
  const AT_ENTRY: int := 9
  const AT_HWCAP: int := 16
  const AT_SECURE: int := 23
  const AT_RANDOM: int := 25

  /** Behind the first zero word from a up, if it is one of the next n. */
  function BehindZero(m: Mem, a: int, n: nat): int
    decreases n
  {
    if n == 0 || Rd(m, a) == 0 then a + 8 else BehindZero(m, a + 8, n - 1)
  }

  /** Where the auxiliary vector starts: behind argc, the arguments and their zero, the environment and its zero. */
  function AuxStart(m: Mem, rsp: int, n: nat): int { BehindZero(m, BehindZero(m, rsp + 8, n), n) }

  /** What the first pair with the given key says, among n pairs up to the key 0. */
  function PairValue(m: Mem, a: int, key: int, n: nat): Option<int>
    decreases n
  {
    if n == 0 || Rd(m, a) == 0 then None
    else if Rd(m, a) == key then Some(Rd(m, a + 8))
    else PairValue(m, a + 16, key, n - 1)
  }

  /** How many pairs have the given key. */
  function PairCount(m: Mem, a: int, key: int, n: nat): nat
    decreases n
  {
    if n == 0 || Rd(m, a) == 0 then 0
    else (if Rd(m, a) == key then 1 else 0) + PairCount(m, a + 16, key, n - 1)
  }

  /** The program finds the value under the key, and finds the key once. */
  ghost predicate Finds(m: Mem, rsp: int, n: nat, key: int, value: int) {
    var a := AuxStart(m, rsp, n);
    PairValue(m, a, key, n) == Some(value) && PairCount(m, a, key, n) == 1
  }

  /** A program that looks at n words or pairs at most finds all there is to find. */
  ghost predicate AuxComplete(m: Mem, rsp: int, n: nat, e: Image) {
    && Finds(m, rsp, n, AT_PHDR, PhdrAddress(e)) && Finds(m, rsp, n, AT_PHENT, e.phentsize)
    && Finds(m, rsp, n, AT_PHNUM, |e.phdrs|) && Finds(m, rsp, n, AT_BASE, e.base)
    && Finds(m, rsp, n, AT_ENTRY, (e.loadedAt + e.entry) % WORD) && Finds(m, rsp, n, AT_PAGESZ, 4096)
    && Finds(m, rsp, n, AT_RANDOM, e.random) && Finds(m, rsp, n, AT_SECURE, 0) && Finds(m, rsp, n, AT_FLAGS, 0)
    && Finds(m, rsp, n, AT_HWCAP, 0)
  }

  lemma {:induction false} ZeroBehind(m: Mem, a: int, ws: seq<int>, n: nat)
    requires WordsAt(m, a, ws + [0]) && 0 !in ws && |ws| <= n
    ensures BehindZero(m, a, n) == a + 8 * (|ws| + 1)
    decreases |ws|
  {
    var t := ws + [0];
    assert Rd(m, a + 8 * 0) == t[0];
    if |ws| > 0 {
      assert ws[0] in ws;
      forall i | 0 <= i < |ws| ensures Rd(m, a + 8 + 8 * i) == (ws[1..] + [0])[i] {
        assert Rd(m, a + 8 * (i + 1)) == t[i + 1];
      }
      ZeroBehind(m, a + 8, ws[1..], n - 1);
    }
  }

  ghost predicate KeysAt(m: Mem, a: int, keys: seq<int>) {
    forall k :: 0 <= k < |keys| ==> Rd(m, a + 16 * k) == keys[k]
  }

  lemma KeysRest(m: Mem, a: int, keys: seq<int>)
    requires KeysAt(m, a, keys) && |keys| > 0
    ensures Rd(m, a) == keys[0] && KeysAt(m, a + 16, keys[1..])
  {
    assert Rd(m, a + 16 * 0) == keys[0];
    forall k | 0 <= k < |keys| - 1 ensures Rd(m, a + 16 + 16 * k) == keys[1..][k] {
      assert Rd(m, a + 16 * (k + 1)) == keys[k + 1];
    }
  }

  lemma {:induction false} PairFound(m: Mem, a: int, keys: seq<int>, key: int, n: nat, j: nat)
    requires KeysAt(m, a, keys) && j < |keys| && j < n && keys[j] == key != 0
    requires forall k :: 0 <= k < j ==> keys[k] != 0 && keys[k] != key
    ensures PairValue(m, a, key, n) == Some(Rd(m, a + 16 * j + 8))
    decreases j
  {
    KeysRest(m, a, keys);
    if j > 0 { PairFound(m, a + 16, keys[1..], key, n - 1, j - 1); }
  }

  lemma {:induction false} NoPair(m: Mem, a: int, keys: seq<int>, key: int, n: nat)
    requires KeysAt(m, a, keys + [0]) && key !in keys
    ensures PairCount(m, a, key, n) == 0
    decreases |keys|
  {
    KeysRest(m, a, keys + [0]);
    if |keys| > 0 && n > 0 {
      assert (keys + [0])[1..] == keys[1..] + [0] && keys[0] in keys;
      NoPair(m, a + 16, keys[1..], key, n - 1);
    }
  }

  lemma {:induction false} OnePair(m: Mem, a: int, keys: seq<int>, key: int, n: nat, j: nat)
    requires KeysAt(m, a, keys + [0]) && 0 !in keys && j < |keys| && j < n && keys[j] == key
    requires forall k :: 0 <= k < |keys| && k != j ==> keys[k] != key
    ensures PairCount(m, a, key, n) == 1
    decreases |keys|
  {
    KeysRest(m, a, keys + [0]);
    assert (keys + [0])[1..] == keys[1..] + [0] && keys[0] in keys;
    if j > 0 {
      OnePair(m, a + 16, keys[1..], key, n - 1, j - 1);
    } else {
      NoPair(m, a + 16, keys[1..], key, n - 1);
    }
  }

  const AUX_KEYS: seq<int> := [3, 16, 8, 7, 9, 4, 5, 23, 6, 25]

  /** Key j of the vector at a is found, once. */
  lemma AuxFound(m: Mem, rsp: int, n: nat, j: nat, value: int)
    requires KeysAt(m, AuxStart(m, rsp, n), AUX_KEYS + [0]) && n >= 10 && j < 10
    requires Rd(m, AuxStart(m, rsp, n) + 16 * j + 8) == value
    ensures Finds(m, rsp, n, AUX_KEYS[j], value)
  {
    hide AuxStart, KeysAt, PairValue, PairCount;
    var a := AuxStart(m, rsp, n);
    PairFound(m, a, AUX_KEYS + [0], AUX_KEYS[j], n, j);
    OnePair(m, a, AUX_KEYS, AUX_KEYS[j], n, j);
  }

  lemma AuxKeys(m: Mem, a: int, e: Image)
    requires WordsAt(m, a, Auxv(e))
    ensures KeysAt(m, a, AUX_KEYS + [0])
    ensures Rd(m, a + 8) == PhdrAddress(e) && Rd(m, a + 24) == 0 && Rd(m, a + 40) == 0 && Rd(m, a + 56) == e.base
    ensures Rd(m, a + 72) == EntryAddress(e) && Rd(m, a + 88) == e.phentsize && Rd(m, a + 104) == |e.phdrs|
    ensures Rd(m, a + 120) == 0 && Rd(m, a + 136) == 4096 && Rd(m, a + 152) == e.random
  {
    hide Rd, PhdrAddress, EntryAddress;
    var w := Auxv(e);
    forall k | 0 <= k < 11 ensures Rd(m, a + 16 * k) == (AUX_KEYS + [0])[k] {
      assert Rd(m, a + 8 * (2 * k)) == w[2 * k];
    }
    forall k | 0 <= k < 11 ensures Rd(m, a + 16 * k + 8) == w[2 * k + 1] {
      assert Rd(m, a + 8 * (2 * k + 1)) == w[2 * k + 1];
    }
    assert Rd(m, a + 16 * 0 + 8) == w[1] && Rd(m, a + 16 * 1 + 8) == w[3] && Rd(m, a + 16 * 2 + 8) == w[5];
    assert Rd(m, a + 16 * 3 + 8) == w[7] && Rd(m, a + 16 * 4 + 8) == w[9] && Rd(m, a + 16 * 5 + 8) == w[11];
    assert Rd(m, a + 16 * 6 + 8) == w[13] && Rd(m, a + 16 * 7 + 8) == w[15] && Rd(m, a + 16 * 8 + 8) == w[17];
    assert Rd(m, a + 16 * 9 + 8) == w[19];
  }

  lemma WordsPart(m: Mem, a: int, s: seq<int>, t: seq<int>)
    requires WordsAt(m, a, s + t)
    ensures WordsAt(m, a, s) && WordsAt(m, a + 8 * |s|, t)
  {
    var u := s + t;
    forall i | 0 <= i < |s| ensures Rd(m, a + 8 * i) == s[i] { assert u[i] == s[i]; }
    forall i | 0 <= i < |t| ensures Rd(m, a + 8 * |s| + 8 * i) == t[i] {
      assert Rd(m, a + 8 * (|s| + i)) == u[|s| + i];
    }
  }

  /** From rsp a program finds the vector behind argc, the pointers and their zeros. */
  lemma AuxPlace(m: Mem, rsp: int, n: nat, argp: seq<int>, envp: seq<int>, aux: seq<int>)
    requires WordsAt(m, rsp, [|argp|] + argp + [0] + envp + [0] + aux)
    requires 0 !in argp && 0 !in envp && n >= |argp| && n >= |envp|
    ensures WordsAt(m, AuxStart(m, rsp, n), aux)
  {
    hide WordsAt, BehindZero;
    assert [|argp|] + argp + [0] + envp + [0] + aux == [|argp|] + ((argp + [0]) + ((envp + [0]) + aux));
    WordsPart(m, rsp, [|argp|], (argp + [0]) + ((envp + [0]) + aux));
    WordsPart(m, rsp + 8, argp + [0], (envp + [0]) + aux);
    ZeroBehind(m, rsp + 8, argp, n);
    var b := BehindZero(m, rsp + 8, n);
    WordsPart(m, b, envp + [0], aux);
    ZeroBehind(m, b, envp, n);
  }

  lemma AuxIsComplete(m: Mem, rsp: int, n: nat, argp: seq<int>, envp: seq<int>, e: Image)
    requires WordsAt(m, rsp, [|argp|] + argp + [0] + envp + [0] + Auxv(e))
    requires 0 !in argp && 0 !in envp && n >= |argp| && n >= |envp| && n >= 10
    ensures AuxComplete(m, rsp, n, e)
  {
    hide WordsAt, BehindZero, Auxv, Finds, KeysAt, AuxStart, PhdrAddress, Rd;
    AuxPlace(m, rsp, n, argp, envp, Auxv(e));
    AuxKeys(m, AuxStart(m, rsp, n), e);
    AuxFound(m, rsp, n, 0, PhdrAddress(e));
    AuxFound(m, rsp, n, 1, 0);
    AuxFound(m, rsp, n, 2, 0);
    AuxFound(m, rsp, n, 3, e.base);
    AuxFound(m, rsp, n, 4, EntryAddress(e));
    AuxFound(m, rsp, n, 5, e.phentsize);
    AuxFound(m, rsp, n, 6, |e.phdrs|);
    AuxFound(m, rsp, n, 7, 0);
    AuxFound(m, rsp, n, 8, 4096);
    AuxFound(m, rsp, n, 9, e.random);
  }

  /** Pointer i addresses a copy of string i. */
  ghost predicate PointsTo(bytes: map<int, char>, ptrs: seq<int>, strs: seq<string>) {
    |ptrs| == |strs| && forall i :: 0 <= i < |strs| ==> StringAt(bytes, ptrs[i], strs[i])
  }

  /** Where rsp ends up: below 22 words of auxiliary vector, the pointers, two terminators and argc. */
  function FinalRsp(rsp: int, argc: nat, envc: nat): int { rsp - 8 * (argc + envc + 25) }

  /** The ABI wants rsp to be a multiple of 16 at entry. It is if and only if the number of strings is odd. */
  lemma AlignedIff(rsp: int, argc: nat, envc: nat)
    requires rsp % 16 == 0
    ensures FinalRsp(rsp, argc, envc) % 16 == 0 <==> (argc + envc) % 2 == 1
  {
    var n := argc + envc + 25;
    var h, b := n / 2, n % 2;
    assert FinalRsp(rsp, argc, envc) == 16 * (rsp / 16 - h) - 8 * b;
  }

  /** The top of the user stack. */
  const USER_STACK_BOTTOM: int := 0x8000_0000_0000

  /** With one argument and one environment string rsp is not aligned. */
  lemma Misaligned()
    ensures FinalRsp(USER_STACK_BOTTOM, 1, 1) % 16 == 8
  {
  }

  /** stackGenerateUser: rsp ends up at argc, followed by the pointers, the terminators and the auxiliary vector. */
  method GenerateUser(stack: Stack, bytes0: map<int, char>, heapEnd: int, argv: seq<string>, envv: seq<string>,
                      e: Image)
    returns (bytes: map<int, char>, heapEnd': int, ghost argp: seq<int>, ghost envp: seq<int>)
    requires stack.Valid() && stack.words == []
    modifies stack
    ensures WordsAt(stack.mem, stack.rsp, [|argv|] + argp + [0] + envp + [0] + Auxv(e))
    ensures heapEnd > 0 ==>
      forall n: nat :: n >= |argv| && n >= |envv| && n >= 10 ==> AuxComplete(stack.mem, stack.rsp, n, e)
    ensures stack.rsp == FinalRsp(old(stack.rsp), |argv|, |envv|)
    ensures old(stack.rsp) % 16 == 0 ==> (stack.rsp % 16 == 0 <==> (|argv| + |envv|) % 2 == 1)
    ensures PointsTo(bytes, argp, argv) && PointsTo(bytes, envp, envv)
    ensures argp == Pointers(heapEnd, argv) && envp == Pointers(heapEnd + Packed(argv, |argv|), envv)
    ensures heapEnd' == heapEnd + Packed(argv, |argv|) + Packed(envv, |envv|)
    ensures Elsewhere(bytes0, bytes, heapEnd, heapEnd')
  {
    hide WordsAt, StringAt, Elsewhere, Packed, Auxv, Pointers, AuxComplete;
    stack.PushAuxv(e);
    var args, ellapsed;
    var arguments;
    arguments, args, ellapsed := StoreStrings(bytes0, heapEnd, argv);
    heapEnd' := heapEnd + ellapsed;
    bytes := arguments;
    var envs, envEllapsed := 0, 0;
    ElsewhereSelf(bytes, heapEnd');
    if |envv| > 0 {
      bytes, envs, envEllapsed := StoreStrings(arguments, heapEnd', envv);
    }
    argp, envp := Pointers(args, argv), Pointers(heapEnd', envv);
    NoStrings(envv);
    NoPointers(heapEnd', envv);
    NoPointers(heapEnd, argv);
    stack.Push(0);
    if envEllapsed > 0 {
      stack.PushPointers(envs, envEllapsed, envv);
    } else {
      assert stack.words == envp + [0] + Auxv(e);
    }
    stack.Push(0);
    stack.PushPointers(args, ellapsed, argv);
    stack.Push(|argv|);
    assert stack.words == [|argv|] + argp + [0] + envp + [0] + Auxv(e);
    if heapEnd > 0 { AuxAlways(stack.mem, stack.rsp, heapEnd, argv, heapEnd', envv, e); }
    StringsKept(arguments, bytes, heapEnd, argv, |argv|, heapEnd' + envEllapsed);
    PointsToAll(bytes, heapEnd, argv);
    PointsToAll(bytes, heapEnd', envv);
    ElsewhereTrans(bytes0, arguments, bytes, heapEnd, heapEnd', heapEnd' + envEllapsed);
    if old(stack.rsp) % 16 == 0 { AlignedIff(old(stack.rsp), |argv|, |envv|); }
    heapEnd' := heapEnd' + envEllapsed;
  }

  lemma AuxAlways(m: Mem, rsp: int, start: int, argv: seq<string>, start': int, envv: seq<string>, e: Image)
    requires WordsAt(m, rsp, [|argv|] + Pointers(start, argv) + [0] + Pointers(start', envv) + [0] + Auxv(e))
    requires start > 0 && start' > 0
    ensures forall n: nat :: n >= |argv| && n >= |envv| && n >= 10 ==> AuxComplete(m, rsp, n, e)
  {
    hide WordsAt, Auxv, Pointers, AuxComplete;
    NonZero(start, argv);
    NonZero(start', envv);
    NoPointers(start, argv);
    NoPointers(start', envv);
    forall n: nat | n >= |argv| && n >= |envv| && n >= 10 ensures AuxComplete(m, rsp, n, e) {
      AuxIsComplete(m, rsp, n, Pointers(start, argv), Pointers(start', envv), e);
    }
  }

  lemma NonZero(start: int, strs: seq<string>)
    requires start > 0
    ensures 0 !in Pointers(start, strs)
  {
  }

  lemma NoPointers(start: int, strs: seq<string>)
    ensures |Pointers(start, strs)| == |strs|
  {
  }

  lemma PointsToAll(bytes: map<int, char>, start: int, strs: seq<string>)
    requires StringsAt(bytes, start, strs, |strs|)
    ensures PointsTo(bytes, Pointers(start, strs), strs)
  {
    hide StringAt, Packed;
  }

  lemma NoStrings(strs: seq<string>)
    ensures Packed(strs, |strs|) == 0 <==> strs == []
  {
    if |strs| > 0 { PackedGrows(strs, 0, |strs|); }
  }

  /** No copy of an argument meets a copy of an environment string. */
  lemma ListsApart(heapEnd: int, argv: seq<string>, envv: seq<string>, i: nat, j: nat)
    requires i < |argv| && j < |envv|
    ensures Pointers(heapEnd, argv)[i] + |argv[i]| < Pointers(heapEnd + Packed(argv, |argv|), envv)[j]
  {
    PackedGrows(argv, i, |argv|);
  }

  /** The copies of one list do not overlap. */
  lemma CopiesApart(start: int, strs: seq<string>, i: nat, j: nat)
    requires i < j < |strs|
    ensures Pointers(start, strs)[i] + |strs[i]| < Pointers(start, strs)[j]
  {
    PackedGrows(strs, i, j);
  }
}
