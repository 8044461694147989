/**
  Fork, kill and the reaper handoff as a state machine: one core, steps interleaved in any order at the points where
  the kernel can be preempted.
 */
module TaskProtocol {

  /**
    Where a task is: being built by its parent, running, inside taskFork (with the number of info blocks the child has),
    inside taskKill (with the number of info blocks given up), in the reaper slot, or dead.
   */
  datatype Stage = Fresh | Live | Forking(child: int, step: nat) | Killing(step: nat) | Queued | Dead

  /** A task; held are the info blocks it has and has not given up. */
  datatype Proc = Proc(stage: Stage, parent: int, noInform: bool, fs: int, pd: int, files: int, held: set<int>)

  /** How far helperReaper has got with the task in the slot. It holds the reaper lock unless it is idle. */
  datatype Helper = Idle | Checked | Orphaned | Discarded | Unlinked

  /**
    The tasks in list order and by address, the task running, the reaper slot (0 when empty), the helper, the info
    blocks with their utilizedBy counts, and, for the record, which blocks were released and which tasks freed.
   */
  datatype K = K(list: seq<int>, procs: map<int, Proc>, current: int, slot: int, helper: Helper, blocks: map<int, int>,
                 released: set<int>, freed: set<int>, freedInformed: set<int>, nextTask: int, nextBlock: int)

  // firstTask, dummyTask and the helper thread never die.
  const FIRST: int := 1
  const DUMMY: int := 2
  const HELPER: int := 3

  ghost predicate Immortal(t: int) { t == FIRST || t == DUMMY || t == HELPER }

  // ---- info blocks ----

  /** taskInfoXAllocate: a block that its maker holds. */
  function Allocated(k: K): K { k.(blocks := k.blocks[k.nextBlock := 1], nextBlock := k.nextBlock + 1) }

  /** taskInfoXDiscard: one holder less; the last one releases the block. */
  function Discard(k: K, b: int): K {
    if b !in k.blocks then k
    else
      var n := k.blocks[b] - 1;
      k.(blocks := k.blocks[b := n], released := if n == 0 then k.released + {b} else k.released)
  }

  function WithProc(k: K, t: int, p: Proc): K { k.(procs := k.procs[t := p]) }

  /** Gives child c the block of its parent, counted once more, or a new one. */
  function Given(k: K, b: int, share: bool): K {
    if share && b in k.blocks then k.(blocks := k.blocks[b := k.blocks[b] + 1]) else Allocated(k)
  }

  function GivenBlock(k: K, b: int, share: bool): int { if share && b in k.blocks then b else k.nextBlock }

  // ---- the steps ----

  datatype Step =
    | Fork | ForkPd(share: bool) | ForkFs(share: bool) | ForkFiles(share: bool)
    | Kill(quiet: bool) | KillFiles | KillPd | CallReaper | MarkDead
    | Switch(to: int)
    | HelperCheck | HelperChildren | HelperDiscard | HelperUnlink | HelperClear

  /** The running task, and what it is doing. */
  predicate At(k: K, s: Stage) { k.current in k.procs && k.procs[k.current].stage == s }

  predicate Building(k: K, step: nat) {
    && k.current in k.procs && k.procs[k.current].stage.Forking? && k.procs[k.current].stage.step == step
    && k.procs[k.current].stage.child in k.procs
  }

  /** taskListAllocate: a zeroed task at the end of the list. */
  function ForkStart(k: K): K {
    if !At(k, Live) then k
    else
      var c := k.nextTask;
      var p := k.procs[k.current];
      k.(list := k.list + [c],
         procs := k.procs[c := Proc(Fresh, 0, false, 0, 0, 0, {})][k.current := p.(stage := Forking(c, 0))],
         nextTask := c + 1)
  }

  function ForkPdStep(k: K, share: bool): K {
    if !Building(k, 0) then k
    else
      var p := k.procs[k.current];
      var b := GivenBlock(k, p.pd, share);
      var c := k.procs[p.stage.child].(pd := b, held := k.procs[p.stage.child].held + {b});
      WithProc(WithProc(Given(k, p.pd, share), p.stage.child, c), k.current, p.(stage := Forking(p.stage.child, 1)))
  }

  function ForkFsStep(k: K, share: bool): K {
    if !Building(k, 1) then k
    else
      var p := k.procs[k.current];
      var b := GivenBlock(k, p.fs, share);
      var c := k.procs[p.stage.child].(fs := b, held := k.procs[p.stage.child].held + {b});
      WithProc(WithProc(Given(k, p.fs, share), p.stage.child, c), k.current, p.(stage := Forking(p.stage.child, 2)))
  }

  /** The last block, and the child is on its own. */
  function ForkFilesStep(k: K, share: bool): K {
    if !Building(k, 2) then k
    else
      var p := k.procs[k.current];
      var b := GivenBlock(k, p.files, share);
      var held := k.procs[p.stage.child].held + {b};
      var c := k.procs[p.stage.child].(files := b, held := held, stage := Live, parent := k.current);
      WithProc(WithProc(Given(k, p.files, share), p.stage.child, c), k.current, p.(stage := Live))
  }

  function KillStart(k: K, quiet: bool): K {
    if !At(k, Live) || k.current == FIRST || k.current == DUMMY || k.current == HELPER then k
    else
      var p := k.procs[k.current];
      WithProc(k, k.current, p.(stage := Killing(0), noInform := p.noInform || quiet))
  }

  function KillFilesStep(k: K): K {
    if !At(k, Killing(0)) then k
    else
      var p := k.procs[k.current];
      WithProc(Discard(k, p.files), k.current, p.(stage := Killing(1), held := p.held - {p.files}))
  }

  function KillPdStep(k: K): K {
    if !At(k, Killing(1)) then k
    else
      var p := k.procs[k.current];
      WithProc(Discard(k, p.pd), k.current, p.(stage := Killing(2), held := p.held - {p.pd}))
  }

  /** taskCallReaper: takes the slot if it is empty and the lock is free, else tries again later. */
  function CallReaperStep(k: K): K {
    if !At(k, Killing(2)) || k.helper != Idle || k.slot != 0 then k
    else WithProc(k, k.current, k.procs[k.current].(stage := Queued)).(slot := k.current)
  }

  function MarkDeadStep(k: K): K {
    if !At(k, Queued) then k else WithProc(k, k.current, k.procs[k.current].(stage := Dead))
  }

  /** The scheduler runs another task; dead tasks, and those still being built, are never chosen. */
  function SwitchStep(k: K, to: int): K {
    if to in k.procs && k.procs[to].stage != Dead && k.procs[to].stage != Fresh then k.(current := to) else k
  }

  function HelperCheckStep(k: K): K {
    if k.current == HELPER && k.helper == Idle && k.slot in k.procs && k.procs[k.slot].stage == Dead then
      k.(helper := Checked)
    else k
  }

  /** taskFreeChildren */
  function Reparented(procs: map<int, Proc>, v: int): map<int, Proc> {
    map t | t in procs ::
      if procs[t].parent == v && procs[t].stage != Dead then procs[t].(parent := DUMMY) else procs[t]
  }

  function HelperChildrenStep(k: K): K {
    if k.current == HELPER && k.helper == Checked && k.slot in k.procs then
      k.(helper := Orphaned, procs := if k.procs[k.slot].noInform then k.procs else Reparented(k.procs, k.slot))
    else k
  }

  function HelperDiscardStep(k: K): K {
    if k.current == HELPER && k.helper == Orphaned && k.slot in k.procs then
      var p := k.procs[k.slot];
      WithProc(Discard(k, p.fs), k.slot, p.(held := p.held - {p.fs})).(helper := Discarded)
    else k
  }

  function Without(s: seq<int>, v: int): seq<int> {
    if |s| == 0 then [] else if s[0] == v then s[1..] else [s[0]] + Without(s[1..], v)
  }

  /** taskListDestroy, with the final free */
  function HelperUnlinkStep(k: K): K {
    if k.current == HELPER && k.helper == Discarded && k.slot in k.procs then
      k.(helper := Unlinked, list := Without(k.list, k.slot), procs := k.procs - {k.slot}, freed := k.freed + {k.slot},
         freedInformed := if k.procs[k.slot].noInform then k.freedInformed else k.freedInformed + {k.slot})
    else k
  }

  function HelperClearStep(k: K): K {
    if k.current == HELPER && k.helper == Unlinked then k.(helper := Idle, slot := 0) else k
  }

  function Next(k: K, s: Step): K {
    match s
    case Fork => ForkStart(k)
    case ForkPd(share) => ForkPdStep(k, share)
    case ForkFs(share) => ForkFsStep(k, share)
    case ForkFiles(share) => ForkFilesStep(k, share)
    case Kill(quiet) => KillStart(k, quiet)
    case KillFiles => KillFilesStep(k)
    case KillPd => KillPdStep(k)
    case CallReaper => CallReaperStep(k)
    case MarkDead => MarkDeadStep(k)
    case Switch(to) => SwitchStep(k, to)
    case HelperCheck => HelperCheckStep(k)
    case HelperChildren => HelperChildrenStep(k)
    case HelperDiscard => HelperDiscardStep(k)
    case HelperUnlink => HelperUnlinkStep(k)
    case HelperClear => HelperClearStep(k)
  }

  // ---- the invariant ----

  ghost predicate ListOk(k: K) {
    && |k.list| > 0 && k.list[0] == FIRST && (forall t :: t in k.procs <==> t in k.list)
    && (forall i, j :: 0 <= i < j < |k.list| ==> k.list[i] != k.list[j])
    && (forall t :: t in k.procs ==> 0 < t < k.nextTask)
    && (forall t :: t in k.freed ==> 0 < t < k.nextTask && t !in k.procs)
    && k.freedInformed <= k.freed
  }

  /** The tasks past taskCallReaper are exactly the one in the slot. */
  ghost predicate SlotOk(k: K) {
    && (forall t :: t in k.procs ==> ((k.procs[t].stage == Queued || k.procs[t].stage == Dead) <==> t == k.slot))
    && (k.slot != 0 ==> k.slot in k.procs || k.helper == Unlinked)
    && (k.helper == Unlinked ==> k.slot in k.freed)
    && (k.helper != Idle && k.helper != Unlinked ==> k.slot in k.procs && k.procs[k.slot].stage == Dead)
    && !Immortal(k.slot)
  }

  ghost predicate CoreOk(k: K) {
    && k.current in k.procs && k.procs[k.current].stage != Fresh
    && FIRST in k.procs && DUMMY in k.procs && HELPER in k.procs
    && (forall t :: t in k.procs && Immortal(t) ==> k.procs[t].stage.Live? || k.procs[t].stage.Forking?)
  }

  /** The blocks a task should hold at its stage. */
  ghost predicate HeldOk(k: K, t: int)
    requires t in k.procs
  {
    var p := k.procs[t];
    && (match p.stage
        case Fresh => true
        case Live => p.held == {p.fs, p.pd, p.files}
        case Forking(_, _) => p.held == {p.fs, p.pd, p.files}
        case Killing(n) => p.held == if n == 0 then {p.fs, p.pd, p.files} else if n == 1 then {p.fs, p.pd} else {p.fs}
        case Queued => p.held == {p.fs}
        case Dead => p.held == if k.helper == Discarded then {} else {p.fs})
    && (!p.stage.Fresh? ==> p.fs != p.pd && p.fs != p.files && p.pd != p.files)
    && (forall b :: b in p.held ==> b in k.blocks)
  }

  /** A child being built has the blocks its parent has given it so far. */
  ghost predicate ChildOk(k: K, t: int)
    requires t in k.procs
  {
    var p := k.procs[t];
    p.stage.Forking? ==>
      && p.stage.child in k.procs && k.procs[p.stage.child].stage == Fresh && p.stage.step <= 2 && p.stage.child != t
      && var c := k.procs[p.stage.child];
         && c.held == (if p.stage.step == 0 then {} else if p.stage.step == 1 then {c.pd} else {c.pd, c.fs})
         && (p.stage.step >= 1 ==> c.pd != p.fs && c.pd != p.files)
         && (p.stage.step == 2 ==> c.fs != p.files && c.pd != c.fs)
  }

  ghost predicate BuildersOk(k: K) {
    forall s, t :: s in k.procs && t in k.procs && s != t && k.procs[s].stage.Forking? && k.procs[t].stage.Forking? ==>
      k.procs[s].stage.child != k.procs[t].stage.child
  }

  ghost predicate Holds(k: K, t: int, b: int) { t in k.procs && b in k.procs[t].held }

  ghost function Holders(k: K, b: int): set<int> { set t | t in k.procs && Holds(k, t, b) }

  /** utilizedBy is the number of holders, and a block is released exactly when it has none. */
  ghost predicate BlocksOk(k: K) {
    && (forall b :: b in k.blocks ==> k.blocks[b] == |Holders(k, b)| && b < k.nextBlock)
    && (forall b :: b in k.blocks ==> (b in k.released <==> k.blocks[b] == 0))
    && (forall b :: b in k.released ==> b in k.blocks)
  }

  /** No task that is not dead has a freed parent, unless the parent was execve's leftover. */
  ghost predicate ParentsOk(k: K) {
    && (forall t :: t in k.procs && k.procs[t].stage != Dead ==> k.procs[t].parent !in k.freedInformed)
    && (forall t :: t in k.procs ==> k.procs[t].parent < k.nextTask)
    && (k.slot in k.procs && (k.helper == Orphaned || k.helper == Discarded) && !k.procs[k.slot].noInform ==>
        forall t :: t in k.procs && k.procs[t].stage != Dead ==> k.procs[t].parent != k.slot)
  }

  ghost predicate Ok(k: K) {
    && ListOk(k) && SlotOk(k) && CoreOk(k) && BuildersOk(k) && BlocksOk(k) && ParentsOk(k)
    && (forall t {:trigger HeldOk(k, t)} :: t in k.procs ==> HeldOk(k, t))
    && (forall t {:trigger ChildOk(k, t)} :: t in k.procs ==> ChildOk(k, t))
  }
}
