/** Every step of the task protocol keeps its invariant. */
module TaskSafety {
  import opened TaskProtocol

  // ---- counting holders ----

  lemma HoldersSame(k: K, k': K, b: int)
    requires forall t :: Holds(k, t, b) <==> Holds(k', t, b)
    ensures Holders(k', b) == Holders(k, b)
  {
  }

  lemma HoldersMore(k: K, k': K, b: int, c: int)
    requires Holds(k', c, b) && !Holds(k, c, b)
    requires forall t :: t != c ==> (Holds(k, t, b) <==> Holds(k', t, b))
    ensures |Holders(k', b)| == |Holders(k, b)| + 1
  {
    assert Holders(k', b) == Holders(k, b) + {c};
  }

  lemma HoldersFewer(k: K, k': K, b: int, c: int)
    requires Holds(k, c, b) && !Holds(k', c, b)
    requires forall t :: t != c ==> (Holds(k, t, b) <==> Holds(k', t, b))
    ensures |Holders(k', b)| == |Holders(k, b)| - 1
  {
    assert Holders(k, b) == Holders(k', b) + {c};
  }

  /** One holder less, and the rest as before. */
  lemma DiscardBlocks(k: K, k': K, b: int, c: int)
    requires BlocksOk(k) && c in k.procs && b in k.procs[c].held && b in k.blocks
    requires k'.procs.Keys == k.procs.Keys && (forall t ::
        t in k.procs && t != c ==> k'.procs[t].held == k.procs[t].held)
    requires k'.procs[c].held == k.procs[c].held - {b}
    requires k'.blocks == Discard(k, b).blocks && k'.released == Discard(k, b).released && k'.nextBlock == k.nextBlock
    ensures BlocksOk(k') && b !in k.released
  {
    hide Holders;
    HoldersFewer(k, k', b, c);
    assert |Holders(k, b)| > 0;
    forall x | x in k'.blocks && x != b ensures Holders(k', x) == Holders(k, x) { HoldersSame(k, k', x); }
  }

  /** One holder more, or a new block with one holder. */
  lemma GivenBlocks(k: K, k': K, b: int, share: bool, c: int)
    requires BlocksOk(k) && c in k.procs && GivenBlock(k, b, share) !in k.procs[c].held
    requires forall t, x :: t in k.procs && x in k.procs[t].held ==> x in k.blocks
    requires share && b in k.blocks ==> k.blocks[b] > 0
    requires k'.procs.Keys == k.procs.Keys && (forall t ::
        t in k.procs && t != c ==> k'.procs[t].held == k.procs[t].held)
    requires k'.procs[c].held == k.procs[c].held + {GivenBlock(k, b, share)}
    requires k'.blocks == Given(k, b, share).blocks && k'.released == k.released
    requires k'.nextBlock == Given(k, b, share).nextBlock
    ensures BlocksOk(k')
  {
    hide Holders;
    var g := GivenBlock(k, b, share);
    HoldersMore(k, k', g, c);
    if g !in k.blocks { NoHolders(k, g); }
    forall x | x in k'.blocks && x != g ensures Holders(k', x) == Holders(k, x) { HoldersSame(k, k', x); }
  }

  lemma NoHolders(k: K, b: int)
    requires forall t :: !Holds(k, t, b)
    ensures Holders(k, b) == {}
  {
  }

  lemma SameBlocks(k: K, k': K)
    requires BlocksOk(k) && k'.blocks == k.blocks && k'.released == k.released && k'.nextBlock == k.nextBlock
    requires forall t, b :: Holds(k, t, b) <==> Holds(k', t, b)
    ensures BlocksOk(k')
  {
    hide Holders;
    forall b | b in k.blocks ensures Holders(k', b) == Holders(k, b) { HoldersSame(k, k', b); }
  }

  // ---- one task changes ----

  ghost predicate Plain(s: Stage) { !s.Fresh? && !s.Forking? }

  /** Task t, which is not forking, has changed; all others are as they were. */
  ghost predicate OneChanged(k: K, k': K, t: int) {
    && t in k.procs && t in k'.procs && k'.procs == k.procs[t := k'.procs[t]] && Plain(k.procs[t].stage)
    && Plain(k'.procs[t].stage)
    && k'.list == k.list && k'.freed == k.freed && k'.freedInformed == k.freedInformed && k'.nextTask == k.nextTask
    && k'.current == k.current
    && k.blocks.Keys == k'.blocks.Keys && k'.procs[t].parent == k.procs[t].parent
  }

  lemma OneHeld(k: K, k': K, t: int)
    requires Ok(k) && OneChanged(k, k', t) && HeldOk(k', t) && (k'.helper == k.helper || t == k.slot)
    ensures BuildersOk(k') && (forall u :: u in k'.procs ==> HeldOk(k', u))
    ensures (forall u :: u in k'.procs ==> ChildOk(k', u))
  {
    hide BlocksOk, ListOk, ParentsOk, CoreOk;
    forall u | u in k'.procs ensures HeldOk(k', u) { if u != t { assert HeldOk(k, u); } }
    forall u | u in k'.procs ensures ChildOk(k', u) { if u != t { assert ChildOk(k, u); } }
  }

  lemma OneCore(k: K, k': K, t: int)
    requires Ok(k) && OneChanged(k, k', t) && !Immortal(t)
    ensures ListOk(k') && CoreOk(k')
  {
    hide BlocksOk, SlotOk, ParentsOk, HeldOk, ChildOk, BuildersOk;
  }

  lemma OneOk(k: K, k': K, t: int)
    requires Ok(k) && OneChanged(k, k', t) && HeldOk(k', t) && (k'.helper == k.helper || t == k.slot) && !Immortal(t)
    requires SlotOk(k') && BlocksOk(k') && ParentsOk(k')
    ensures Ok(k')
  {
    OneHeld(k, k', t);
    OneCore(k, k', t);
    hide BlocksOk, SlotOk, ParentsOk, HeldOk, ChildOk, BuildersOk, ListOk, CoreOk;
  }

  // ---- the steps ----

  lemma KillStartOk(k: K, quiet: bool)
    requires Ok(k)
    ensures Ok(KillStart(k, quiet))
  {
    hide BlocksOk, ListOk, ChildOk, BuildersOk;
    var k' := KillStart(k, quiet);
    if k' != k {
      SameBlocks(k, k');
      assert HeldOk(k, k.current);
      OneOk(k, k', k.current);
    }
  }

  lemma CallReaperOk(k: K)
    requires Ok(k)
    ensures Ok(CallReaperStep(k))
  {
    hide BlocksOk, ChildOk, BuildersOk;
    var k' := CallReaperStep(k);
    if k' != k {
      SameBlocks(k, k');
      assert HeldOk(k, k.current);
      OneOk(k, k', k.current);
    }
  }

  lemma MarkDeadOk(k: K)
    requires Ok(k)
    ensures Ok(MarkDeadStep(k))
  {
    hide BlocksOk, ListOk, ChildOk, BuildersOk;
    var k' := MarkDeadStep(k);
    if k' != k {
      SameBlocks(k, k');
      assert HeldOk(k, k.current);
      OneOk(k, k', k.current);
    }
  }

  lemma KillFilesOk(k: K)
    requires Ok(k)
    ensures Ok(KillFilesStep(k))
  {
    hide BlocksOk, ListOk, ChildOk, BuildersOk;
    var k' := KillFilesStep(k);
    if k' != k {
      assert HeldOk(k, k.current);
      DiscardBlocks(k, k', k.procs[k.current].files, k.current);
      OneOk(k, k', k.current);
    }
  }

  lemma KillPdOk(k: K)
    requires Ok(k)
    ensures Ok(KillPdStep(k))
  {
    hide BlocksOk, ListOk, ChildOk, BuildersOk;
    var k' := KillPdStep(k);
    if k' != k {
      assert HeldOk(k, k.current);
      DiscardBlocks(k, k', k.procs[k.current].pd, k.current);
      OneOk(k, k', k.current);
    }
  }

  lemma HelperDiscardOk(k: K)
    requires Ok(k)
    ensures Ok(HelperDiscardStep(k))
  {
    hide BlocksOk, ListOk, ChildOk, BuildersOk;
    var k' := HelperDiscardStep(k);
    if k' != k {
      assert HeldOk(k, k.slot);
      DiscardBlocks(k, k', k.procs[k.slot].fs, k.slot);
      OneOk(k, k', k.slot);
    }
  }

  lemma SwitchOk(k: K, to: int)
    requires Ok(k)
    ensures Ok(SwitchStep(k, to))
  {
    hide BlocksOk, HeldOk, ChildOk;
    var k' := SwitchStep(k, to);
    SameBlocks(k, k');
    SameHeld(k, k');
  }

  lemma SameHeld(k: K, k': K)
    requires Ok(k) && k'.procs == k.procs && k'.blocks == k.blocks
    requires (k'.helper == k.helper || (k.helper != Discarded && k'.helper != Discarded))
    ensures (forall t :: t in k'.procs ==> HeldOk(k', t)) && (forall t :: t in k'.procs ==> ChildOk(k', t))
  {
    hide BlocksOk, ListOk, SlotOk, CoreOk, ParentsOk, BuildersOk;
    forall t | t in k'.procs ensures HeldOk(k', t) && ChildOk(k', t) { assert HeldOk(k, t) && ChildOk(k, t); }
  }

  lemma HelperCheckOk(k: K)
    requires Ok(k)
    ensures Ok(HelperCheckStep(k))
  {
    hide BlocksOk, HeldOk, ChildOk, ListOk, BuildersOk;
    var k' := HelperCheckStep(k);
    SameBlocks(k, k');
    SameHeld(k, k');
    SameTasks(k, k');
  }

  lemma SameTasks(k: K, k': K)
    requires Ok(k) && k'.procs == k.procs && k'.list == k.list && k'.freed == k.freed
    requires k'.freedInformed == k.freedInformed && k'.nextTask == k.nextTask
    ensures ListOk(k') && BuildersOk(k')
  {
    hide BlocksOk, SlotOk, CoreOk, ParentsOk, HeldOk, ChildOk;
  }

  lemma HelperClearOk(k: K)
    requires Ok(k)
    ensures Ok(HelperClearStep(k))
  {
    hide BlocksOk, HeldOk, ChildOk, BuildersOk;
    var k' := HelperClearStep(k);
    SameBlocks(k, k');
    SameHeld(k, k');
    SameTasks(k, k');
  }

  lemma HelperChildrenOk(k: K)
    requires Ok(k)
    ensures Ok(HelperChildrenStep(k))
  {
    hide BlocksOk, HeldOk, ChildOk;
    var k' := HelperChildrenStep(k);
    if k' != k {
      SameBlocks(k, k');
      ReparentedHeld(k, k');
    }
  }

  lemma ReparentedHeld(k: K, k': K)
    requires Ok(k) && k' == HelperChildrenStep(k) && k' != k
    ensures (forall t :: t in k'.procs ==> HeldOk(k', t)) && (forall t :: t in k'.procs ==> ChildOk(k', t))
  {
    hide BlocksOk, ListOk, SlotOk, CoreOk, ParentsOk, BuildersOk;
    forall t | t in k'.procs ensures HeldOk(k', t) && ChildOk(k', t) { assert HeldOk(k, t) && ChildOk(k, t); }
  }

  lemma {:induction false} WithoutIs(s: seq<int>, v: int)
    requires forall i, j :: 0 <= i < j < |s| ==> s[i] != s[j]
    ensures forall t :: t in Without(s, v) <==> t in s && t != v
    ensures |s| > 0 && s[0] != v ==> |Without(s, v)| > 0 && Without(s, v)[0] == s[0]
    ensures forall i, j :: 0 <= i < j < |Without(s, v)| ==> Without(s, v)[i] != Without(s, v)[j]
  {
    if |s| > 0 {
      assert s == [s[0]] + s[1..];
      if s[0] != v {
        WithoutIs(s[1..], v);
        var w := Without(s[1..], v);
        assert forall i :: 0 <= i < |s[1..]| ==> s[1..][i] != s[0];
        forall j | 0 <= j < |w| ensures w[j] != s[0] { assert w[j] in w; }
      }
    }
  }

  lemma HelperUnlinkOk(k: K)
    requires Ok(k)
    ensures Ok(HelperUnlinkStep(k))
  {
    hide BlocksOk, HeldOk, ChildOk, Without;
    var k' := HelperUnlinkStep(k);
    if k' != k {
      WithoutIs(k.list, k.slot);
      assert k.procs[k.slot].held == {} by { assert HeldOk(k, k.slot); EmptyHeld(k); }
      SameBlocks(k, k');
      UnlinkedHeld(k, k');
    }
  }

  lemma EmptyHeld(k: K)
    requires Ok(k) && k.helper == Discarded
    ensures k.slot in k.procs && k.procs[k.slot].held == {}
  {
    hide BlocksOk, ListOk, ParentsOk, BuildersOk, ChildOk;
    assert HeldOk(k, k.slot);
  }

  lemma UnlinkedHeld(k: K, k': K)
    requires Ok(k) && k' == HelperUnlinkStep(k) && k' != k
    ensures (forall t :: t in k'.procs ==> HeldOk(k', t)) && (forall t :: t in k'.procs ==> ChildOk(k', t))
  {
    hide BlocksOk, ListOk, CoreOk, ParentsOk, BuildersOk, Without;
    forall t | t in k'.procs ensures HeldOk(k', t) && ChildOk(k', t) { assert HeldOk(k, t) && ChildOk(k, t); }
  }

  lemma ForkStartOk(k: K)
    requires Ok(k)
    ensures Ok(ForkStart(k))
  {
    hide BlocksOk, HeldOk, ChildOk, ListOk, ParentsOk, SlotOk, CoreOk, BuildersOk;
    if At(k, Live) {
      ForkStartList(k);
      ForkStartSlot(k);
      ForkStartParents(k);
      ForkStartBuilders(k);
      ForkStartHeld(k);
      SameBlocks(k, ForkStart(k));
    }
  }

  lemma ForkStartList(k: K)
    requires Ok(k) && At(k, Live)
    ensures ListOk(ForkStart(k)) && k.nextTask !in k.procs
  {
    hide BlocksOk, HeldOk, ChildOk, ParentsOk, SlotOk, BuildersOk;
    var k' := ForkStart(k);
    assert k'.list[|k.list|] == k.nextTask;
    assert forall i :: 0 <= i < |k.list| ==> k'.list[i] == k.list[i] && k.list[i] in k.procs;
  }

  lemma ForkStartSlot(k: K)
    requires Ok(k) && At(k, Live)
    ensures SlotOk(ForkStart(k)) && CoreOk(ForkStart(k))
  {
    hide BlocksOk, HeldOk, ChildOk, ParentsOk, BuildersOk;
  }

  lemma ForkStartParents(k: K)
    requires Ok(k) && At(k, Live)
    ensures ParentsOk(ForkStart(k))
  {
    hide BlocksOk, HeldOk, ChildOk, BuildersOk;
  }

  lemma ForkStartBuilders(k: K)
    requires Ok(k) && At(k, Live)
    ensures BuildersOk(ForkStart(k))
  {
    hide BlocksOk, HeldOk, ParentsOk, SlotOk;
    assert forall t :: t in k.procs ==> ChildOk(k, t);
  }

  lemma ForkStartHeld(k: K)
    requires Ok(k) && At(k, Live)
    ensures var k' := ForkStart(k);
        (forall t :: t in k'.procs ==> HeldOk(k', t)) && (forall t :: t in k'.procs ==> ChildOk(k', t))
  {
    hide BlocksOk, SlotOk, CoreOk, ParentsOk, BuildersOk;
    var k' := ForkStart(k);
    forall t | t in k'.procs ensures HeldOk(k', t) && ChildOk(k', t) {
      if t in k.procs { assert HeldOk(k, t) && ChildOk(k, t); }
    }
  }

  // ---- a parent gives its child a block ----

  /** The running task, forking, and its child have changed; all others are as they were. */
  ghost predicate TwoChanged(k: K, k': K, c: int) {
    var t := k.current;
    && t in k.procs && k.procs[t].stage.Forking? && k.procs[t].stage.child == c && c in k.procs
    && k.procs[c].stage == Fresh && c != t
    && t in k'.procs && c in k'.procs && k'.procs == k.procs[c := k'.procs[c]][t := k'.procs[t]]
    && k'.procs[t] == k.procs[t].(stage := k'.procs[t].stage)
    && (k'.procs[t].stage == Live || (k'.procs[t].stage.Forking? && k'.procs[t].stage.child == c))
    && (k'.procs[c].stage == Fresh || (k'.procs[c].stage == Live && k'.procs[t].stage == Live))
    && (k'.procs[c].parent == k.procs[c].parent || k'.procs[c].parent == t)
    && k'.list == k.list && k'.freed == k.freed && k'.freedInformed == k.freedInformed && k'.nextTask == k.nextTask
    && k'.current == k.current && k'.slot == k.slot && k'.helper == k.helper && k.blocks.Keys <= k'.blocks.Keys
  }

  lemma TwoCore(k: K, k': K, c: int)
    requires Ok(k) && TwoChanged(k, k', c)
    ensures ListOk(k') && SlotOk(k') && CoreOk(k')
  {
    hide BlocksOk, HeldOk, ChildOk, ParentsOk, BuildersOk;
  }

  lemma TwoParents(k: K, k': K, c: int)
    requires Ok(k) && TwoChanged(k, k', c)
    ensures ParentsOk(k') && BuildersOk(k')
  {
    hide BlocksOk, HeldOk, ChildOk;
  }

  lemma TwoHeld(k: K, k': K, c: int)
    requires Ok(k) && TwoChanged(k, k', c) && HeldOk(k', c) && ChildOk(k', k.current)
    ensures (forall t :: t in k'.procs ==> HeldOk(k', t)) && (forall t :: t in k'.procs ==> ChildOk(k', t))
  {
    hide BlocksOk, ListOk, ParentsOk, SlotOk, CoreOk;
    forall t | t in k'.procs ensures HeldOk(k', t) && ChildOk(k', t) {
      assert HeldOk(k, t) && ChildOk(k, t);
    }
  }

  lemma TwoOk(k: K, k': K, c: int)
    requires Ok(k) && TwoChanged(k, k', c) && HeldOk(k', c) && ChildOk(k', k.current) && BlocksOk(k')
    ensures Ok(k')
  {
    hide BlocksOk, HeldOk, ChildOk, ParentsOk, BuildersOk, ListOk, SlotOk, CoreOk, TwoChanged;
    TwoCore(k, k', c);
    TwoParents(k, k', c);
    TwoHeld(k, k', c);
  }

  lemma HeldCounted(k: K, t: int, b: int)
    requires Ok(k) && Holds(k, t, b)
    ensures b in k.blocks && k.blocks[b] > 0 && b < k.nextBlock
    ensures forall u, x :: u in k.procs && x in k.procs[u].held ==> x in k.blocks
  {
    hide ListOk, SlotOk, CoreOk, ParentsOk, BuildersOk, ChildOk;
    assert HeldOk(k, t);
    assert t in Holders(k, b);
    forall u, x | u in k.procs && x in k.procs[u].held ensures x in k.blocks { assert HeldOk(k, u); }
  }

  lemma ForkPdOk(k: K, share: bool)
    requires Ok(k)
    ensures Ok(ForkPdStep(k, share))
  {
    hide BlocksOk, ListOk, SlotOk, CoreOk, ParentsOk, BuildersOk;
    var k' := ForkPdStep(k, share);
    if Building(k, 0) {
      var p := k.procs[k.current];
      assert HeldOk(k, k.current) && ChildOk(k, k.current);
      HeldCounted(k, k.current, p.pd);
      HeldCounted(k, k.current, p.fs);
      HeldCounted(k, k.current, p.files);
      GivenBlocks(k, k', p.pd, share, p.stage.child);
      TwoOk(k, k', p.stage.child);
    }
  }

  lemma ForkFsOk(k: K, share: bool)
    requires Ok(k)
    ensures Ok(ForkFsStep(k, share))
  {
    hide BlocksOk, ListOk, SlotOk, CoreOk, ParentsOk, BuildersOk;
    var k' := ForkFsStep(k, share);
    if Building(k, 1) {
      var p := k.procs[k.current];
      var c := p.stage.child;
      assert HeldOk(k, k.current) && ChildOk(k, k.current);
      HeldCounted(k, k.current, p.fs);
      HeldCounted(k, k.current, p.files);
      HeldCounted(k, c, k.procs[c].pd);
      GivenBlocks(k, k', p.fs, share, c);
      TwoOk(k, k', c);
    }
  }

  lemma ForkFilesOk(k: K, share: bool)
    requires Ok(k)
    ensures Ok(ForkFilesStep(k, share))
  {
    hide BlocksOk, ListOk, SlotOk, CoreOk, ParentsOk, BuildersOk;
    var k' := ForkFilesStep(k, share);
    if Building(k, 2) {
      var p := k.procs[k.current];
      var c := p.stage.child;
      assert HeldOk(k, k.current) && ChildOk(k, k.current);
      HeldCounted(k, k.current, p.files);
      HeldCounted(k, c, k.procs[c].pd);
      HeldCounted(k, c, k.procs[c].fs);
      GivenBlocks(k, k', p.files, share, c);
      TwoOk(k, k', c);
    }
  }
}
