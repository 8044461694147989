/** What whole runs of fork, kill and the reaper do, told without the steps they consist of. */
module TaskEffects {
  import opened TaskProtocol

  // ---- fork ----

  /** The child's block g for a block b of its parent: the same, with one holder more, or a new one with one holder. */
  ghost predicate Handed(k: K, n: K, b: int, g: int, share: bool) {
    && g in n.blocks && (g == b <==> share)
    && (if share then b in k.blocks && n.blocks[g] == k.blocks[b] + 1 else g !in k.blocks && n.blocks[g] == 1)
  }

  /** Task c is the child that the running task has made. */
  ghost predicate Forked(k: K, n: K, c: int, vm: bool, fs: bool, files: bool) {
    && k.current in k.procs && c !in k.procs && n.procs.Keys == k.procs.Keys + {c} && n.list == k.list + [c]
    && (forall t :: t in k.procs ==> n.procs[t] == k.procs[t])
    && n.current == k.current && n.slot == k.slot && n.helper == k.helper
    && n.released == k.released && n.freed == k.freed && n.freedInformed == k.freedInformed
    && var p, q := k.procs[k.current], n.procs[c];
       && q.stage == Live && q.parent == k.current && !q.noInform && q.held == {q.pd, q.fs, q.files}
       && Handed(k, n, p.pd, q.pd, vm) && Handed(k, n, p.fs, q.fs, fs) && Handed(k, n, p.files, q.files, files)
       && n.blocks.Keys == k.blocks.Keys + {q.pd, q.fs, q.files}
       && (forall b :: b in k.blocks && b != q.pd && b != q.fs && b != q.files ==> n.blocks[b] == k.blocks[b])
  }

  lemma ForkFacts(k: K)
    requires Ok(k) && At(k, Live)
    ensures var p := k.procs[k.current];
            && p.pd in k.blocks && p.fs in k.blocks && p.files in k.blocks
            && p.pd != p.fs && p.pd != p.files && p.fs != p.files && k.nextTask !in k.procs && k.current != k.nextTask
            && (forall b :: b in k.blocks ==> b < k.nextBlock)
  {
    hide SlotOk, ParentsOk, BuildersOk, ChildOk;
    assert HeldOk(k, k.current);
  }

  lemma GivenMeans(k: K, b: int, share: bool)
    requires b in k.blocks && forall a :: a in k.blocks ==> a < k.nextBlock
    ensures var n, g := Given(k, b, share), GivenBlock(k, b, share);
            && Handed(k, n, b, g, share) && n.blocks.Keys == k.blocks.Keys + {g}
            && (forall a :: a in k.blocks && a != g ==> n.blocks[a] == k.blocks[a])
            && (forall a :: a in n.blocks ==> a < n.nextBlock) && n == k.(blocks := n.blocks, nextBlock := n.nextBlock)
  {
  }

  /** The tasks along the way: all as they were, but for the child q and the stage of its maker. */
  ghost predicate Halfway(k: K, n: K, c: int, i: nat, q: Proc) {
    && k.current in k.procs
    && n == k.(list := k.list + [c], nextTask := c + 1, blocks := n.blocks, nextBlock := n.nextBlock,
               procs := k.procs[c := q][k.current := k.procs[k.current].(stage := Forking(c, i))])
  }

  lemma ForkStarts(k: K)
    requires Ok(k) && At(k, Live)
    ensures var n := Next(k, Fork);
            Halfway(k, n, k.nextTask, 0, Proc(Fresh, 0, false, 0, 0, 0, {})) && n.blocks == k.blocks
            && n.nextBlock == k.nextBlock
  {
    hide Ok;
  }

  lemma GivenElse(k: K, b: int, share: bool)
    ensures var n := Given(k, b, share); n == k.(blocks := n.blocks, nextBlock := n.nextBlock)
  {
  }

  /** Two stores for each of two tasks: the last ones count. */
  lemma StoredTwice(procs: map<int, Proc>, c: int, q: Proc, q': Proc, t: int, p: Proc, p': Proc)
    requires c != t
    ensures procs[c := q][t := p][c := q'][t := p'] == procs[c := q'][t := p']
  {
  }

  lemma ForkPdMeans(k: K, m: K, c: int, q: Proc, share: bool)
    requires Halfway(k, m, c, 0, q) && c != k.current
    ensures var p, n := k.procs[k.current], Next(m, ForkPd(share));
            var b := GivenBlock(m, p.pd, share);
            && Halfway(k, n, c, 1, q.(pd := b, held := q.held + {b}))
            && n.blocks == Given(m, p.pd, share).blocks && n.nextBlock == Given(m, p.pd, share).nextBlock
  {
    hide Given, GivenBlock;
    var p, t := k.procs[k.current], k.current;
    var b := GivenBlock(m, p.pd, share);
    GivenElse(m, p.pd, share);
    StoredTwice(k.procs, c, q, q.(pd := b, held := q.held + {b}), t, p.(stage := Forking(c, 0)),
                p.(stage := Forking(c, 1)));
  }

  lemma ForkFsMeans(k: K, m: K, c: int, q: Proc, share: bool)
    requires Halfway(k, m, c, 1, q) && c != k.current
    ensures var p, n := k.procs[k.current], Next(m, ForkFs(share));
            var b := GivenBlock(m, p.fs, share);
            && Halfway(k, n, c, 2, q.(fs := b, held := q.held + {b}))
            && n.blocks == Given(m, p.fs, share).blocks && n.nextBlock == Given(m, p.fs, share).nextBlock
  {
    hide Given, GivenBlock;
    var p, t := k.procs[k.current], k.current;
    var b := GivenBlock(m, p.fs, share);
    GivenElse(m, p.fs, share);
    StoredTwice(k.procs, c, q, q.(fs := b, held := q.held + {b}), t, p.(stage := Forking(c, 1)),
                p.(stage := Forking(c, 2)));
  }

  lemma ForkFilesMeans(k: K, m: K, c: int, q: Proc, share: bool)
    requires Halfway(k, m, c, 2, q) && c != k.current && k.procs[k.current].stage == Live
    ensures var p, n := k.procs[k.current], Next(m, ForkFiles(share));
            var b := GivenBlock(m, p.files, share);
            && n == k.(list := k.list + [c], nextTask := c + 1, blocks := n.blocks, nextBlock := n.nextBlock,
                       procs := n.procs)
            && n.procs == k.procs[c := q.(files := b, held := q.held + {b}, stage := Live, parent := k.current)]
                                 [k.current := p]
            && n.blocks == Given(m, p.files, share).blocks
  {
    hide Given, GivenBlock;
    var p, t := k.procs[k.current], k.current;
    var b := GivenBlock(m, p.files, share);
    GivenElse(m, p.files, share);
    StoredTwice(k.procs, c, q, q.(files := b, held := q.held + {b}, stage := Live, parent := t), t,
                p.(stage := Forking(c, 2)), p);
    assert p.(stage := Live) == p;
  }

  lemma ForkMeans(k: K, vm: bool, fs: bool, files: bool)
    requires Ok(k) && At(k, Live)
    ensures var n := Next(Next(Next(Next(k, Fork), ForkPd(vm)), ForkFs(fs)), ForkFiles(files));
            Forked(k, n, k.nextTask, vm, fs, files)
  {
    hide Ok, Next, Given, GivenBlock, Building;
    ForkFacts(k);
    var c, p := k.nextTask, k.procs[k.current];
    var k1 := Next(k, Fork);
    ForkStarts(k);
    var q1 := Proc(Fresh, 0, false, 0, 0, 0, {});
    var b1 := GivenBlock(k1, p.pd, vm);
    var k2, q2 := Next(k1, ForkPd(vm)), q1.(pd := b1, held := q1.held + {b1});
    GivenMeans(k1, p.pd, vm);
    ForkPdMeans(k, k1, c, q1, vm);
    var b2 := GivenBlock(k2, p.fs, fs);
    var k3, q3 := Next(k2, ForkFs(fs)), q2.(fs := b2, held := q2.held + {b2});
    GivenMeans(k2, p.fs, fs);
    ForkFsMeans(k, k2, c, q2, fs);
    var b3 := GivenBlock(k3, p.files, files);
    GivenMeans(k3, p.files, files);
    ForkFilesMeans(k, k3, c, q3, files);
  }

  // ---- kill ----

  /** Block b of k lost one holder for each of the given blocks it is, and is released if that was its last. */
  ghost predicate GivenUp(k: K, n: K, bs: set<int>) {
    && n.blocks.Keys == k.blocks.Keys
    && (forall b :: b in k.blocks ==> n.blocks[b] == if b in bs then k.blocks[b] - 1 else k.blocks[b])
    && (forall b :: b in n.released <==> b in k.released || (b in bs && b in k.blocks && k.blocks[b] == 1))
  }

  /** The running task has given up all but its file system block, and is dead in the slot if it could take it. */
  ghost predicate Killed(k: K, n: K, quiet: bool, done: bool) {
    && k.current in k.procs && n.procs.Keys == k.procs.Keys && n.list == k.list && n.current == k.current
    && n.helper == k.helper && n.freed == k.freed && n.freedInformed == k.freedInformed
    && (forall t :: t in k.procs && t != k.current ==> n.procs[t] == k.procs[t])
    && n.slot == (if done then k.current else k.slot)
    && var p := k.procs[k.current];
       && n.procs[k.current] == p.(stage := if done then Dead else Killing(2), noInform := p.noInform || quiet,
                                   held := {p.fs})
       && GivenUp(k, n, {p.files, p.pd})
  }

  lemma DiscardMeans(k: K, b: int)
    requires b in k.blocks
    ensures var n := Discard(k, b); GivenUp(k, n, {b}) && n == k.(blocks := n.blocks, released := n.released)
  {
  }

  lemma GivenUpTwo(k: K, m: K, n: K, a: int, b: int)
    requires GivenUp(k, m, {a}) && GivenUp(m, n, {b}) && a != b
    ensures GivenUp(k, n, {a, b})
  {
  }

  /** Up to the call of the reaper. */
  lemma KillFirst(k: K, quiet: bool)
    requires Ok(k) && At(k, Live) && !Immortal(k.current)
    ensures var n, p, t := Next(Next(Next(k, Kill(quiet)), KillFiles), KillPd), k.procs[k.current], k.current;
            var q := p.(stage := Killing(2), noInform := p.noInform || quiet, held := {p.fs});
            && n == k.(procs := k.procs[t := q], blocks := n.blocks, released := n.released)
            && GivenUp(k, n, {p.files, p.pd})
  {
    hide Ok, Discard, GivenUp;
    var p, t := k.procs[k.current], k.current;
    ForkFacts(k);
    KillHeld(k);
    var k1 := Next(k, Kill(quiet));
    assert At(k1, Killing(0));
    DiscardMeans(k1, p.files);
    var k2 := Next(k1, KillFiles);
    assert At(k2, Killing(1));
    KillBlocks(k, k1, k2, p.files, p.pd);
    DiscardMeans(k2, p.pd);
    var n := Next(k2, KillPd);
    KillBlocks2(k, k1, k2, n, p.files, p.pd);
    assert {p.fs, p.pd, p.files} - {p.files} - {p.pd} == {p.fs};
    assert n.procs == k.procs[t := n.procs[t]];
  }

  lemma KillHeld(k: K)
    requires Ok(k) && At(k, Live)
    ensures var p := k.procs[k.current]; p.held == {p.fs, p.pd, p.files}
  {
    assert HeldOk(k, k.current);
  }

  lemma KillBlocks(k: K, k1: K, k2: K, a: int, b: int)
    requires k1.blocks == k.blocks && k1.released == k.released && b in k.blocks
    requires k2.blocks == Discard(k1, a).blocks && k2.released == Discard(k1, a).released
    requires GivenUp(k1, Discard(k1, a), {a})
    ensures GivenUp(k, k2, {a}) && b in k2.blocks
  {
    hide Discard;
  }

  lemma KillBlocks2(k: K, k1: K, k2: K, n: K, a: int, b: int)
    requires GivenUp(k, k2, {a}) && GivenUp(k2, Discard(k2, b), {b}) && a != b
    requires n.blocks == Discard(k2, b).blocks && n.released == Discard(k2, b).released
    ensures GivenUp(k, n, {a, b})
  {
    hide Discard;
    GivenUpTwo(k, k2, n, a, b);
  }

  lemma KillMeans(k: K, quiet: bool)
    requires Ok(k) && At(k, Live) && !Immortal(k.current)
    ensures var m := Next(Next(Next(k, Kill(quiet)), KillFiles), KillPd);
            Killed(k, Next(Next(m, CallReaper), MarkDead), quiet, k.slot == 0 && k.helper == Idle)
  {
    hide Ok, GivenUp, KillStart, KillFilesStep, KillPdStep;
    KillFirst(k, quiet);
    var m := Next(Next(Next(k, Kill(quiet)), KillFiles), KillPd);
    assert At(m, Killing(2));
    var n := Next(Next(m, CallReaper), MarkDead);
    SameBlocks(k, m, n, {k.procs[k.current].files, k.procs[k.current].pd});
  }

  lemma SameBlocks(k: K, m: K, n: K, bs: set<int>)
    requires GivenUp(k, m, bs) && n.blocks == m.blocks && n.released == m.released
    ensures GivenUp(k, n, bs)
  {
  }

  // ---- the reaper ----

  /**
    The dead task v that was in the slot is gone: its file system block has one holder less, exactly its children that
    are not dead now have the dummy task as parent, unless it was execve's leftover, and nothing else has changed.
   */
  ghost predicate Reaped(k: K, n: K, v: int) {
    && v in k.procs && v in k.list && n.slot == 0 && n.helper == Idle && n.current == k.current
    && n.procs.Keys == k.procs.Keys - {v} && n.freed == k.freed + {v}
    && n.freedInformed == (if k.procs[v].noInform then k.freedInformed else k.freedInformed + {v})
    && (forall t :: t in k.procs && t != v ==>
          n.procs[t] == if k.procs[t].parent == v && k.procs[t].stage != Dead && !k.procs[v].noInform
                        then k.procs[t].(parent := DUMMY) else k.procs[t])
    && (exists i :: 0 <= i < |k.list| && k.list[i] == v && n.list == k.list[..i] + k.list[i + 1..])
    && GivenUp(k, n, {k.procs[v].fs})
  }

  lemma {:induction false} WithoutSplit(s: seq<int>, i: nat)
    requires i < |s| && forall j :: 0 <= j < i ==> s[j] != s[i]
    ensures Without(s, s[i]) == s[..i] + s[i + 1..]
    decreases i
  {
    var t := s[1..];
    if i > 0 {
      assert t[i - 1] == s[i] && forall j :: 0 <= j < i - 1 ==> t[j] == s[j + 1];
      WithoutSplit(t, i - 1);
      assert s[..i] == [s[0]] + t[..i - 1];
      assert t[i..] == s[i + 1..];
    } else {
      assert s[..0] == [];
    }
  }

  lemma ReaperFacts(k: K)
    requires Ok(k) && k.slot in k.procs
    ensures k.slot in k.list && k.slot != DUMMY && k.slot != HELPER
    ensures forall i, j :: 0 <= i < j < |k.list| ==> k.list[i] != k.list[j]
    ensures k.helper == Idle && k.procs[k.slot].stage == Dead ==> k.procs[k.slot].fs in k.blocks
  {
    hide ParentsOk, BuildersOk, ChildOk;
    assert HeldOk(k, k.slot);
  }

  /** The steps of the reaper, taken together. */
  lemma ReapSteps(k: K)
    requires Ok(k) && k.current == HELPER && k.helper == Idle && k.slot in k.procs && k.procs[k.slot].stage == Dead
    ensures var v, p, m := k.slot, k.procs[k.slot], Next(Next(Next(k, HelperCheck), HelperChildren), HelperDiscard);
            var n := Next(Next(m, HelperUnlink), HelperClear);
            && n == k.(helper := Idle, slot := 0, list := Without(k.list, v), procs := n.procs, blocks := n.blocks,
                       released := n.released, freed := k.freed + {v}, freedInformed := n.freedInformed)
            && n.freedInformed == (if p.noInform then k.freedInformed else k.freedInformed + {v})
            && n.procs == (if p.noInform then k.procs else Reparented(k.procs, v)) - {v}
            && GivenUp(k, n, {p.fs})
  {
    hide Ok, Discard, GivenUp, Without, Reparented, HelperCheckStep, HelperChildrenStep;
    var v, p := k.slot, k.procs[k.slot];
    ReaperFacts(k);
    ReapFirst(k);
    var k2 := Next(Next(k, HelperCheck), HelperChildren);
    DiscardMeans(k2, p.fs);
    var k3 := Next(k2, HelperDiscard);
    SameBefore(k, k2, Discard(k2, p.fs), {p.fs});
    var n := Next(Next(k3, HelperUnlink), HelperClear);
    SameBlocks(k, Discard(k2, p.fs), n, {p.fs});
  }

  lemma ReapFirst(k: K)
    requires k.current == HELPER && k.helper == Idle && k.slot in k.procs && k.procs[k.slot].stage == Dead
    ensures var v, p, n := k.slot, k.procs[k.slot], Next(Next(k, HelperCheck), HelperChildren);
            && n == k.(helper := Orphaned, procs := if p.noInform then k.procs else Reparented(k.procs, v))
            && v in n.procs && n.procs[v] == p
  {
  }

  lemma ReapMeans(k: K)
    requires Ok(k) && k.current == HELPER && k.helper == Idle && k.slot in k.procs && k.procs[k.slot].stage == Dead
    ensures var m := Next(Next(Next(k, HelperCheck), HelperChildren), HelperDiscard);
            Reaped(k, Next(Next(m, HelperUnlink), HelperClear), k.slot)
  {
    hide Ok, GivenUp, Without, Next;
    ReapSteps(k);
    ReaperFacts(k);
    var i :| 0 <= i < |k.list| && k.list[i] == k.slot;
    WithoutSplit(k.list, i);
  }

  lemma SameBefore(k: K, m: K, n: K, bs: set<int>)
    requires GivenUp(m, n, bs) && m.blocks == k.blocks && m.released == k.released
    ensures GivenUp(k, n, bs)
  {
  }
}
