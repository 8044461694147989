/** The task manager: the protocol's steps as the kernel carries them out, and what holds over every run. */
module Tasks {
  import opened TaskProtocol
  import opened TaskSafety
  import opened TaskEffects

  // ---- every step, every run ----

  lemma NextOk(k: K, s: Step)
    requires Ok(k)
    ensures Ok(Next(k, s))
  {
    hide Ok, ForkStart, ForkPdStep, ForkFsStep, ForkFilesStep, KillStart, KillFilesStep, KillPdStep, CallReaperStep,
         MarkDeadStep, SwitchStep, HelperCheckStep, HelperChildrenStep, HelperDiscardStep, HelperUnlinkStep,
         HelperClearStep;
    match s
    case Fork => ForkStartOk(k);
    case ForkPd(share) => ForkPdOk(k, share);
    case ForkFs(share) => ForkFsOk(k, share);
    case ForkFiles(share) => ForkFilesOk(k, share);
    case Kill(quiet) => KillStartOk(k, quiet);
    case KillFiles => KillFilesOk(k);
    case KillPd => KillPdOk(k);
    case CallReaper => CallReaperOk(k);
    case MarkDead => MarkDeadOk(k);
    case Switch(to) => SwitchOk(k, to);
    case HelperCheck => HelperCheckOk(k);
    case HelperChildren => HelperChildrenOk(k);
    case HelperDiscard => HelperDiscardOk(k);
    case HelperUnlink => HelperUnlinkOk(k);
    case HelperClear => HelperClearOk(k);
  }

  /** The first task, the dummy and the helper thread, each with its own info blocks. */
  function Start(): K {
    K([FIRST, DUMMY, HELPER],
      map[FIRST := Proc(Live, 0, false, 1, 2, 3, {1, 2, 3}), DUMMY := Proc(Live, FIRST, false, 4, 5, 6, {4, 5, 6}),
          HELPER := Proc(Live, FIRST, false, 7, 8, 9, {7, 8, 9})],
      FIRST, 0, Idle, map[1 := 1, 2 := 1, 3 := 1, 4 := 1, 5 := 1, 6 := 1, 7 := 1, 8 := 1, 9 := 1], {}, {}, {}, 4, 10)
  }

  lemma StartOk()
    ensures Ok(Start())
  {
    StartBlocks();
    StartTasks();
    StartList();
    StartHeld();
    hide BlocksOk, HeldOk, ChildOk, ParentsOk, BuildersOk, ListOk, SlotOk, CoreOk, Start;
  }

  lemma StartTasks()
    ensures var k := Start(); SlotOk(k) && CoreOk(k) && ParentsOk(k) && BuildersOk(k)
  {
  }

  lemma StartList()
    ensures ListOk(Start())
  {
    var list := Start().list;
    assert list == [FIRST, DUMMY, HELPER];
    assert FIRST in list && DUMMY in list && HELPER in list;
  }

  lemma StartHeld()
    ensures var k := Start();
            (forall t :: t in k.procs ==> HeldOk(k, t)) && (forall t :: t in k.procs ==> ChildOk(k, t))
  {
  }

  lemma StartBlocks()
    ensures BlocksOk(Start())
  {
    var k := Start();
    forall b | b in k.blocks ensures |Holders(k, b)| == 1 { StartHolder(b); }
  }

  lemma StartHolder(b: int)
    requires 1 <= b <= 9
    ensures Holders(Start(), b) == {if b <= 3 then FIRST else if b <= 6 then DUMMY else HELPER}
  {
  }

  ghost function Play(k: K, steps: seq<Step>): K
    decreases |steps|
  {
    if |steps| == 0 then k else Next(Play(k, steps[..|steps| - 1]), steps[|steps| - 1])
  }

  /** Whatever the interleaving, the invariant holds. */
  lemma {:induction false} PlayOk(steps: seq<Step>)
    ensures Ok(Play(Start(), steps))
    decreases |steps|
  {
    hide Ok, Next;
    if |steps| == 0 {
      StartOk();
    } else {
      PlayOk(steps[..|steps| - 1]);
      NextOk(Play(Start(), steps[..|steps| - 1]), steps[|steps| - 1]);
    }
  }

  // ---- what the invariant means ----

  /**
    In every state of every run utilizedBy counts the tasks that hold the block, and the block is released just when
    nobody does.
   */
  lemma CountsHolders(steps: seq<Step>, b: int)
    ensures var k := Play(Start(), steps);
            b in k.blocks ==> k.blocks[b] == |Holders(k, b)| && (b in k.released <==> Holders(k, b) == {})
  {
    PlayOk(steps);
    hide Play, Start, HeldOk, ChildOk, ParentsOk, BuildersOk, ListOk, SlotOk, CoreOk;
  }

  lemma SlotStep(k: K, s: Step)
    requires Ok(k) && k.slot != 0
    ensures Next(k, s).slot == k.slot || (Next(k, s).slot == 0 && k.slot in k.freed && k.slot !in k.procs)
  {
    hide BlocksOk, HeldOk, ChildOk, ParentsOk, BuildersOk;
  }

  lemma FreedStep(k: K, s: Step, v: int)
    requires Ok(k)
    ensures k.freed <= Next(k, s).freed && k.freedInformed <= Next(k, s).freedInformed
    ensures v in Next(k, s).freed && v !in k.freed ==>
      && v == k.slot && v in k.procs && k.procs[v].stage == Dead && v != k.current && k.procs[v].held == {}
      && (!k.procs[v].noInform ==> v in Next(k, s).freedInformed)
    ensures v in k.freed ==> v !in k.procs
  {
    hide BlocksOk, HeldOk, ChildOk, ParentsOk, BuildersOk;
    if k.helper == Discarded { EmptyHeld(k); }
  }

  lemma ReleasedStep(k: K, s: Step, b: int)
    requires Ok(k)
    ensures k.released <= Next(k, s).released
    ensures b in Next(k, s).released && b !in k.released ==> |Holders(k, b)| == 1
    ensures b in k.released ==> Holders(k, b) == {}
  {
    NoneLeft(k, b);
    LastHolder(k, s, b);
  }

  lemma NoneLeft(k: K, b: int)
    requires Ok(k)
    ensures b in k.released ==> Holders(k, b) == {} && b in k.blocks
    ensures b in k.blocks ==> k.blocks[b] == |Holders(k, b)|
  {
    hide HeldOk, ChildOk, ParentsOk, BuildersOk, ListOk, SlotOk, CoreOk;
  }

  lemma LastHolder(k: K, s: Step, b: int)
    requires Ok(k)
    ensures k.released <= Next(k, s).released
    ensures b in Next(k, s).released && b !in k.released ==> b in k.blocks && k.blocks[b] == 1
  {
    hide HeldOk, ChildOk, ParentsOk, BuildersOk, ListOk, SlotOk, CoreOk, BlocksOk, Without, Reparented;
  }

  // ---- over every run ----

  /** The state after the first i steps of a run. */
  ghost function After(steps: seq<Step>, i: nat): K
    requires i <= |steps|
  {
    Play(Start(), steps[..i])
  }

  lemma OneMore(steps: seq<Step>, i: nat)
    requires i < |steps|
    ensures After(steps, i + 1) == Next(After(steps, i), steps[i]) && Ok(After(steps, i)) && Ok(After(steps, i + 1))
  {
    hide Ok, Next;
    assert steps[..i + 1][..i] == steps[..i] && steps[..i + 1][i] == steps[i];
    PlayOk(steps[..i]);
    PlayOk(steps[..i + 1]);
  }

  /** What is freed or released stays so. */
  lemma {:induction false} NeverUndone(steps: seq<Step>, i: nat, j: nat)
    requires i <= j <= |steps|
    ensures var k, l := After(steps, i), After(steps, j);
            k.freed <= l.freed && k.released <= l.released && k.freedInformed <= l.freedInformed
    decreases j
  {
    hide Ok, Next, After;
    if i < j {
      NeverUndone(steps, i, j - 1);
      OneMore(steps, j - 1);
      FreedStep(After(steps, j - 1), steps[j - 1], 0);
      ReleasedStep(After(steps, j - 1), steps[j - 1], 0);
    }
  }

  /** The reaper slot is never overwritten while a task is in it: it is emptied, after that task was freed, first. */
  lemma SlotKept(steps: seq<Step>, i: nat)
    requires i < |steps| && After(steps, i).slot != 0
    ensures var k, l := After(steps, i), After(steps, i + 1);
            l.slot == k.slot || (l.slot == 0 && k.slot in k.freed && k.slot !in k.procs)
  {
    hide Ok, Next, After;
    OneMore(steps, i);
    SlotStep(After(steps, i), steps[i]);
  }

  /** Step i of the run frees task v. */
  ghost predicate Frees(steps: seq<Step>, i: nat, v: int)
    requires i < |steps|
  {
    v !in After(steps, i).freed && v in After(steps, i + 1).freed
  }

  /**
    A task is freed at most once, when it is in the slot, dead, not running and holds nothing, and from then on it is
    gone.
   */
  lemma FreedSafely(steps: seq<Step>, i: nat, j: nat, v: int)
    requires i < |steps| && j < |steps| && Frees(steps, i, v)
    ensures var k := After(steps, i);
        v == k.slot && v in k.procs && k.procs[v].stage == Dead && v != k.current && k.procs[v].held == {}
    ensures Frees(steps, j, v) ==> i == j
    ensures i < j ==> v in After(steps, j).freed && v !in After(steps, j).procs && v !in After(steps, j + 1).procs
  {
    hide Ok, Next, After;
    OneMore(steps, i);
    FreedStep(After(steps, i), steps[i], v);
    if i < j { GoneAt(steps, i, j, v); }
    if i < j { GoneAt(steps, i, j + 1, v); }
    if j < i { NeverUndone(steps, j + 1, i); }
  }

  lemma GoneAt(steps: seq<Step>, i: nat, j: nat, v: int)
    requires i < |steps| && i < j <= |steps| && Frees(steps, i, v)
    ensures v in After(steps, j).freed && v !in After(steps, j).procs
  {
    hide Next;
    NeverUndone(steps, i + 1, j);
    PlayOk(steps[..j]);
    FreedStep(After(steps, j), Fork, v);
  }

  /** Step i of the run releases block b. */
  ghost predicate Releases(steps: seq<Step>, i: nat, b: int)
    requires i < |steps|
  {
    b !in After(steps, i).released && b in After(steps, i + 1).released
  }

  /** A block is released at most once, by its last holder, and from then on nobody holds it. */
  lemma ReleasedOnce(steps: seq<Step>, i: nat, j: nat, b: int)
    requires i < |steps| && j <= |steps| && Releases(steps, i, b)
    ensures |Holders(After(steps, i), b)| == 1
    ensures j < |steps| && Releases(steps, j, b) ==> i == j
    ensures i < j ==> Holders(After(steps, j), b) == {}
  {
    hide Ok, Next, After, Holders;
    OneMore(steps, i);
    ReleasedStep(After(steps, i), steps[i], b);
    if i < j { UnheldAt(steps, i, j, b); }
    if j < i { NeverUndone(steps, j + 1, i); }
  }

  lemma UnheldAt(steps: seq<Step>, i: nat, j: nat, b: int)
    requires i < |steps| && i < j <= |steps| && Releases(steps, i, b)
    ensures b in After(steps, j).released && Holders(After(steps, j), b) == {}
  {
    hide Next, Ok, Holders;
    NeverUndone(steps, i + 1, j);
    PlayOk(steps[..j]);
    ReleasedStep(After(steps, j), Fork, b);
  }

  /** Once a task that informs its parent is freed, no task that is not dead ever has it for a parent. */
  lemma NoFreedParent(steps: seq<Step>, i: nat, j: nat, v: int, t: int)
    requires i < |steps| && i < j <= |steps| && Frees(steps, i, v)
    requires v in After(steps, i).procs && !After(steps, i).procs[v].noInform
    ensures var k := After(steps, j); t in k.procs && k.procs[t].stage != Dead ==> k.procs[t].parent != v
  {
    hide Next, BlocksOk, HeldOk, ChildOk, BuildersOk, ListOk, SlotOk, CoreOk;
    OneMore(steps, i);
    FreedStep(After(steps, i), steps[i], v);
    NeverUndone(steps, i + 1, j);
    PlayOk(steps[..j]);
  }

  // ---- the kernel's own code ----

  /** The children among the first tasks of the list have a new parent. */
  ghost predicate PartlyReparented(before: map<int, Proc>, procs: map<int, Proc>, v: int, done: seq<int>) {
    && procs.Keys == before.Keys
    && forall t :: t in before ==> procs[t] == if t in done then Reparented(before, v)[t] else before[t]
  }

  lemma ReparentedMore(before: map<int, Proc>, procs: map<int, Proc>, v: int, list: seq<int>, i: int)
    requires 0 <= i < |list| && list[i] in before && PartlyReparented(before, procs, v, list[..i])
    requires forall j :: 0 <= j < i ==> list[j] != list[i]
    ensures list[i] in procs
    ensures var t := list[i];
            var child := procs[t].parent == v && procs[t].stage != Dead;
            var procs' := if child then procs[t := procs[t].(parent := DUMMY)] else procs;
            PartlyReparented(before, procs', v, list[..i + 1])
  {
    assert list[..i + 1] == list[..i] + [list[i]];
  }

  lemma NoneReparented(before: map<int, Proc>, v: int)
    ensures PartlyReparented(before, before, v, [])
  {
  }

  lemma AllReparented(before: map<int, Proc>, procs: map<int, Proc>, v: int, list: seq<int>)
    requires PartlyReparented(before, procs, v, list) && forall t :: t in before ==> t in list
    ensures procs == Reparented(before, v)
  {
    assert Reparented(before, v).Keys == before.Keys;
    forall t | t in procs ensures procs[t] == Reparented(before, v)[t] { assert t in before; }
  }

  class Kernel {
    var list: seq<int>
    var procs: map<int, Proc>
    var current: int
    var slot: int
    var helper: Helper
    var blocks: map<int, int>
    var nextTask: int
    var nextBlock: int
    ghost var released: set<int>
    ghost var freed: set<int>
    ghost var freedInformed: set<int>

    ghost function View(): K
      reads this
    {
      K(list, procs, current, slot, helper, blocks, released, freed, freedInformed, nextTask, nextBlock)
    }

    constructor ()
      ensures View() == Start()
    {
      var k := Start();
      list, procs, current, slot, helper, blocks := k.list, k.procs, k.current, k.slot, k.helper, k.blocks;
      nextTask, nextBlock, released, freed, freedInformed := k.nextTask, k.nextBlock, {}, {}, {};
    }

    /** The discards of task_info.c: the last holder releases the block. */
    method DiscardBlock(b: int, ghost t: int)
      requires b in blocks && Ok(View()) && Holds(View(), t, b)
      modifies `blocks, `released
      ensures View() == Discard(old(View()), b)
      ensures b in released <==> b in old(released) || old(blocks[b]) == 1
      ensures old(b !in released)
    {
      hide Ok, Holds;
      HeldCounted(View(), t, b);
      NotReleased(View(), b);
      blocks := blocks[b := blocks[b] - 1];
      if blocks[b] == 0 {
        released := released + {b};
      }
    }

    /** taskListDestroy without the final free: unlinks v, which is never the first task. */
    method ListDestroy(v: int)
      requires v in list && |list| > 0 && list[0] != v && forall i, j :: 0 <= i < j < |list| ==> list[i] != list[j]
      modifies `list
      ensures list == Without(old(list), v)
    {
      var prev := 0;
      while list[prev + 1] != v
        invariant 0 <= prev < |list| - 1 && forall i :: 0 <= i <= prev ==> list[i] != v
        decreases |list| - prev
      {
        if prev + 2 == |list| {
          assert false;
        }
        prev := prev + 1;
      }
      WithoutSplit(list, prev + 1);
      list := list[..prev + 1] + list[prev + 2..];
    }

    /** taskFreeChildren */
    method FreeChildren(v: int)
      requires v in procs && ListOk(View())
      modifies `procs
      ensures procs == if old(procs)[v].noInform then old(procs) else Reparented(old(procs), v)
    {
      hide PartlyReparented;
      if procs[v].noInform {
        return;
      }
      ghost var before := procs;
      NoneReparented(before, v);
      for i := 0 to |list|
        invariant PartlyReparented(before, procs, v, list[..i])
      {
        var t := list[i];
        assert t in before;
        ReparentedMore(before, procs, v, list, i);
        if procs[t].parent == v && procs[t].stage != Dead {
          procs := procs[t := procs[t].(parent := DUMMY)];
        }
      }
      assert list[..|list|] == list;
      AllReparented(before, procs, v, list);
    }

    /** taskListAllocate: walks to the last task and hangs a zeroed one behind it. */
    method ListAllocate() returns (c: int)
      requires |list| > 0
      modifies `list, `procs, `nextTask
      ensures c == old(nextTask) && nextTask == old(nextTask) + 1 && list == old(list) + [c]
      ensures procs == old(procs)[c := Proc(Fresh, 0, false, 0, 0, 0, {})]
    {
      c := nextTask;
      nextTask := nextTask + 1;
      procs := procs[c := Proc(Fresh, 0, false, 0, 0, 0, {})];
      var browse := 0;
      while browse + 1 < |list|
        invariant 0 <= browse < |list|
      {
        browse := browse + 1;
      }
      list := list[..browse + 1] + [c];
    }

    /** A child gets the block b of its parent, counted once more, or a block of its own. */
    method GiveBlock(b: int, share: bool) returns (g: int)
      requires b in blocks
      modifies `blocks, `nextBlock
      ensures View() == Given(old(View()), b, share) && g == GivenBlock(old(View()), b, share)
    {
      if share {
        blocks := blocks[b := blocks[b] + 1];
        g := b;
      } else {
        g := nextBlock;
        blocks := blocks[g := 1];
        nextBlock := nextBlock + 1;
      }
    }

    /** taskFork begins. */
    method ForkBegins() returns (c: int)
      requires Ok(View()) && At(View(), Live)
      modifies this
      ensures View() == Next(old(View()), Fork) && Building(View(), 0)
      ensures procs[current].stage.child == c == old(nextTask)
    {
      hide Ok;
      SomeTask(View());
      c := ListAllocate();
      procs := procs[current := procs[current].(stage := Forking(c, 0))];
    }

    /** taskFork shares or clones the page directory. */
    method ForkPagedir(share: bool)
      requires Ok(View()) && Building(View(), 0)
      modifies this
      ensures View() == Next(old(View()), ForkPd(share)) && Building(View(), 1)
      ensures procs[current].stage.child == old(procs[current].stage.child)
    {
      hide Ok;
      BuilderHolds(View());
      var p := procs[current];
      var b := GiveBlock(p.pd, share);
      var c := p.stage.child;
      procs := procs[c := procs[c].(pd := b, held := procs[c].held + {b})];
      procs := procs[current := p.(stage := Forking(c, 1))];
    }

    /** taskFork shares or clones the file system block. */
    method ForkFileSystem(share: bool)
      requires Ok(View()) && Building(View(), 1)
      modifies this
      ensures View() == Next(old(View()), ForkFs(share)) && Building(View(), 2)
      ensures procs[current].stage.child == old(procs[current].stage.child)
    {
      hide Ok;
      BuilderHolds(View());
      var p := procs[current];
      var b := GiveBlock(p.fs, share);
      var c := p.stage.child;
      procs := procs[c := procs[c].(fs := b, held := procs[c].held + {b})];
      procs := procs[current := p.(stage := Forking(c, 2))];
    }

    /** taskFork shares or makes the file table, and the child is on its own. */
    method ForkEnds(share: bool)
      requires Ok(View()) && Building(View(), 2)
      modifies this
      ensures View() == Next(old(View()), ForkFiles(share))
    {
      hide Ok;
      BuilderHolds(View());
      var p := procs[current];
      var b := GiveBlock(p.files, share);
      var c := p.stage.child;
      procs := procs[c := procs[c].(files := b, held := procs[c].held + {b}, stage := Live, parent := current)];
      procs := procs[current := p.(stage := Live)];
    }

    /** taskFork, run without being preempted, with the three sharing flags. */
    method TaskFork(vm: bool, fs: bool, files: bool) returns (c: int)
      requires Ok(View()) && At(View(), Live)
      modifies this
      ensures var k := old(View()); View() == Next(Next(Next(Next(k, Fork), ForkPd(vm)), ForkFs(fs)), ForkFiles(files))
      ensures Ok(View()) && c == old(nextTask) && Forked(old(View()), View(), c, vm, fs, files)
    {
      hide Ok, Next, Forked;
      ghost var k := View();
      ForkMeans(k, vm, fs, files);
      NextOk(k, Fork);
      c := ForkBegins();
      NextOk(View(), ForkPd(vm));
      ForkPagedir(vm);
      NextOk(View(), ForkFs(fs));
      ForkFileSystem(fs);
      NextOk(View(), ForkFiles(files));
      ForkEnds(files);
    }

    /** taskKill begins; a task that execve leaves behind does not inform its parent. */
    method KillBegins(quiet: bool)
      requires At(View(), Live) && !Immortal(current)
      modifies this
      ensures View() == Next(old(View()), Kill(quiet)) && At(View(), Killing(0)) && unchanged(`current, `slot, `helper)
    {
      procs := procs[current := procs[current].(stage := Killing(0), noInform := procs[current].noInform || quiet)];
    }

    /** taskKill gives up the file table. */
    method KillGivesFiles()
      requires Ok(View()) && At(View(), Killing(0))
      modifies this
      ensures View() == Next(old(View()), KillFiles) && At(View(), Killing(1)) && unchanged(`current, `slot, `helper)
    {
      hide Ok, Holds;
      KillerHolds(View());
      var p := procs[current];
      DiscardBlock(p.files, current);
      procs := procs[current := p.(stage := Killing(1), held := p.held - {p.files})];
    }

    /** taskKill gives up the page directory. */
    method KillGivesPagedir()
      requires Ok(View()) && At(View(), Killing(1))
      modifies this
      ensures View() == Next(old(View()), KillPd) && At(View(), Killing(2)) && unchanged(`current, `slot, `helper)
    {
      hide Ok, Holds;
      KillerHolds(View());
      var p := procs[current];
      DiscardBlock(p.pd, current);
      procs := procs[current := p.(stage := Killing(2), held := p.held - {p.pd})];
    }

    /**
      One round of the loop of taskCallReaper: it tests the slot, if the helper does not hold the lock, and hands
      control on when it is taken.
     */
    method CallReaperOnce() returns (done: bool)
      requires At(View(), Killing(2))
      modifies this
      ensures View() == Next(old(View()), CallReaper) && current == old(current)
      ensures done <==> old(slot == 0 && helper == Idle)
      ensures done ==> At(View(), Queued) && slot == current
      ensures !done ==> View() == old(View())
    {
      if helper == Idle && slot == 0 {
        slot := current;
        procs := procs[current := procs[current].(stage := Queued)];
        return true;
      }
      return false;
    }

    /** The last act of taskKill. */
    method Dies()
      requires At(View(), Queued)
      modifies this
      ensures View() == Next(old(View()), MarkDead) && At(View(), Dead) && unchanged(`current, `slot)
    {
      procs := procs[current := procs[current].(stage := Dead)];
    }

    /** The end of taskKill, tried once: the task dies in the slot, or has to try again. */
    method FinishKill() returns (done: bool)
      requires Ok(View()) && At(View(), Killing(2))
      modifies this
      ensures View() == Next(Next(old(View()), CallReaper), MarkDead) && Ok(View()) && current == old(current)
      ensures done <==> old(slot == 0 && helper == Idle)
      ensures if done then At(View(), Dead) && slot == current else View() == old(View())
    {
      hide Ok, Next;
      NextOk(View(), CallReaper);
      done := CallReaperOnce();
      NextOk(View(), MarkDead);
      if done {
        Dies();
      } else {
        NotQueued(View());
      }
    }

    /** taskKill of the running task, run without being preempted up to the first round of taskCallReaper. */
    method TaskKill(quiet: bool) returns (done: bool)
      requires Ok(View()) && At(View(), Live) && !Immortal(current)
      modifies this
      ensures var k := Next(Next(Next(old(View()), Kill(quiet)), KillFiles), KillPd);
              View() == Next(Next(k, CallReaper), MarkDead)
      ensures Ok(View()) && current == old(current) && (done <==> old(slot == 0 && helper == Idle))
      ensures if done then At(View(), Dead) && slot == current else At(View(), Killing(2)) && slot == old(slot)
      ensures Killed(old(View()), View(), quiet, done)
    {
      hide Ok, Next, Killed;
      KillMeans(View(), quiet);
      NextOk(View(), Kill(quiet));
      KillBegins(quiet);
      NextOk(View(), KillFiles);
      KillGivesFiles();
      NextOk(View(), KillPd);
      KillGivesPagedir();
      done := FinishKill();
    }

    /** helperReaper frees the children of the dead task in the slot. */
    method ReapChildren()
      requires Ok(View()) && current == HELPER && helper == Checked
      modifies `procs, `helper
      ensures View() == Next(old(View()), HelperChildren)
    {
      hide Ok, ListOk, Reparented;
      OpenList(View());
      AtReaper(View());
      FreeChildren(slot);
      helper := Orphaned;
    }

    /** It gives up the task's file system block. */
    method ReapInfo()
      requires Ok(View()) && current == HELPER && helper == Orphaned
      modifies `procs, `helper, `blocks, `released
      ensures View() == Next(old(View()), HelperDiscard)
    {
      hide Ok, Holds;
      HeldAtReaper(View());
      DiscardBlock(procs[slot].fs, slot);
      procs := procs[slot := procs[slot].(held := procs[slot].held - {procs[slot].fs})];
      helper := Discarded;
    }

    /** It unlinks the task and frees it. */
    method ReapTask()
      requires Ok(View()) && current == HELPER && helper == Discarded
      modifies `list, `procs, `helper, `freed, `freedInformed
      ensures View() == Next(old(View()), HelperUnlink)
    {
      hide Ok, Without;
      UnlinkReady(View());
      freedInformed := if procs[slot].noInform then freedInformed else freedInformed + {slot};
      freed := freed + {slot};
      ListDestroy(slot);
      procs := procs - {slot};
      helper := Unlinked;
    }

    /** helperReaper, run by the helper thread without being preempted. */
    method HelperReaper()
      requires Ok(View()) && current == HELPER && helper == Idle
      modifies this
      ensures var k := Next(Next(Next(old(View()), HelperCheck), HelperChildren), HelperDiscard);
              View() == Next(Next(k, HelperUnlink), HelperClear)
      ensures Ok(View())
      ensures if old(slot in procs && procs[slot].stage == Dead) then Reaped(old(View()), View(), old(slot))
              else View() == old(View())
    {
      hide Ok, Next, Reaped;
      ghost var k := View();
      ChainOk(k);
      SlotIs(k);
      if slot == 0 || procs[slot].stage != Dead {
        NothingToReap(k);
        return;
      }
      ReapMeans(k);
      StartsReaping(k);
      helper := Checked;
      assert View() == Next(k, HelperCheck);
      ReapChildren();
      ReaperKeeps(Next(k, HelperCheck));
      ReapInfo();
      ReapTask();
      EndsReaping(View());
      helper, slot := Idle, 0;
    }
  }

  /** The helper stays the running task while it works on the slot. */
  lemma ReaperKeeps(k: K)
    requires Ok(k) && k.current == HELPER && k.helper == Checked
    ensures var k2 := Next(k, HelperChildren); var k3 := Next(k2, HelperDiscard); var k4 := Next(k3, HelperUnlink);
            k2.current == k3.current == k4.current == HELPER && k2.helper == Orphaned && k3.helper == Discarded
                && k4.helper == Unlinked
  {
    hide Ok, Without;
    AtReaper(k);
  }

  lemma NotQueued(k: K)
    requires At(k, Killing(2))
    ensures Next(k, MarkDead) == k
  {
  }

  lemma SomeTask(k: K)
    requires Ok(k)
    ensures |k.list| > 0 && k.current < k.nextTask && k.nextTask !in k.procs
  {
  }

  lemma BuilderHolds(k: K)
    requires Ok(k) && k.current in k.procs && k.procs[k.current].stage.Forking?
    ensures var p := k.procs[k.current];
        p.pd in k.blocks && p.fs in k.blocks && p.files in k.blocks && p.stage.child != k.current
  {
    assert HeldOk(k, k.current) && ChildOk(k, k.current);
  }

  lemma KillerHolds(k: K)
    requires Ok(k) && (At(k, Killing(0)) || At(k, Killing(1)))
    ensures var p := k.procs[k.current];
            && p.pd in k.blocks && Holds(k, k.current, p.pd)
            && (p.stage == Killing(0) ==> p.files in k.blocks && Holds(k, k.current, p.files))
  {
    assert HeldOk(k, k.current);
  }

  lemma StartsReaping(k: K)
    requires k.current == HELPER && k.helper == Idle && k.slot in k.procs && k.procs[k.slot].stage == Dead
    ensures Next(k, HelperCheck) == k.(helper := Checked)
  {
  }

  lemma EndsReaping(k: K)
    requires k.current == HELPER && k.helper == Unlinked
    ensures Next(k, HelperClear) == k.(helper := Idle, slot := 0)
  {
  }

  lemma NothingToReap(k: K)
    requires k.helper == Idle && (k.slot !in k.procs || k.procs[k.slot].stage != Dead)
    ensures Next(Next(Next(Next(Next(k, HelperCheck), HelperChildren), HelperDiscard), HelperUnlink), HelperClear) == k
  {
  }

  lemma AtReaper(k: K)
    requires Ok(k) && k.helper != Idle && k.helper != Unlinked
    ensures k.slot in k.procs
  {
    hide ListOk, HeldOk, ChildOk, ParentsOk, BuildersOk, BlocksOk, CoreOk;
  }

  lemma OpenList(k: K)
    requires Ok(k)
    ensures ListOk(k)
  {
    hide ListOk, HeldOk, ChildOk, ParentsOk, BuildersOk, BlocksOk, SlotOk, CoreOk;
  }

  lemma NotReleased(k: K, b: int)
    requires Ok(k) && b in k.blocks && k.blocks[b] > 0
    ensures b !in k.released
  {
    hide HeldOk, ChildOk, ParentsOk, BuildersOk, ListOk, SlotOk, CoreOk;
  }

  lemma ChainOk(k: K)
    requires Ok(k)
    ensures var k1 := Next(k, HelperCheck);
            var k2 := Next(k1, HelperChildren);
            var k3 := Next(k2, HelperDiscard);
            var k4 := Next(k3, HelperUnlink);
            Ok(k1) && Ok(k2) && Ok(k3) && Ok(k4) && Ok(Next(k4, HelperClear))
  {
    hide Ok, Next;
    var k1 := Next(k, HelperCheck);
    var k2 := Next(k1, HelperChildren);
    var k3 := Next(k2, HelperDiscard);
    var k4 := Next(k3, HelperUnlink);
    NextOk(k, HelperCheck);
    NextOk(k1, HelperChildren);
    NextOk(k2, HelperDiscard);
    NextOk(k3, HelperUnlink);
    NextOk(k4, HelperClear);
  }

  lemma SlotIs(k: K)
    requires Ok(k) && k.helper == Idle
    ensures k.slot != 0 ==> k.slot in k.procs
    ensures ListOk(k) && 0 !in k.procs
  {
    hide HeldOk, ChildOk, ParentsOk, BuildersOk, BlocksOk;
  }

  lemma HeldAtReaper(k: K)
    requires Ok(k) && k.helper == Orphaned
    ensures k.slot in k.procs && Holds(k, k.slot, k.procs[k.slot].fs) && k.procs[k.slot].fs in k.blocks
  {
    hide ChildOk, ParentsOk, BuildersOk, BlocksOk, ListOk;
    assert HeldOk(k, k.slot);
  }

  lemma UnlinkReady(k: K)
    requires Ok(k) && k.helper == Discarded
    ensures k.slot in k.procs && k.slot in k.list && |k.list| > 0 && k.list[0] != k.slot
    ensures forall i, j :: 0 <= i < j < |k.list| ==> k.list[i] != k.list[j]
  {
    hide ChildOk, ParentsOk, BuildersOk, BlocksOk, HeldOk;
  }
}
