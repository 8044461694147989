/** The clock-tick scheduler: which task runs next. */
module Scheduler {

  datatype State =
    | Dead | Ready | Idle | WaitingInput | Created | WaitingChild | WaitingChildSpecific | WaitingVfork | Blocked
    | Sigkilled | Futex | Dummy

  /**
    The fields of a task that the scheduler looks at: pending says whether an unblocked signal that is not ignored
    is pending, wakeup is the forceful wake-up time or 0, user whether the task would return to user mode.
   */
  datatype Task = Task(state: State, pending: bool, wakeup: nat, involuntary: bool, user: bool)

  /** signalsRevivableState */
  predicate Revivable(s: State) { s == WaitingChild || s == WaitingChildSpecific || s == Futex || s == Blocked }

  /** The task runs or can be woken now. */
  predicate Eligible(t: Task, ticks: nat) {
    t.state == Ready || (Revivable(t.state) && t.pending) || 0 < t.wakeup <= ticks
  }

  /** How many tasks lie between cur and k in list order, going round; cur itself comes last. */
  function Dist(cur: int, k: int, n: int): int { if k > cur then k - cur - 1 else k - cur - 1 + n }

  /** The first eligible task strictly after cur in cyclic order. */
  ghost predicate Picked(ts: seq<Task>, cur: int, ticks: nat, k: int) {
    && 0 <= k < |ts| && Eligible(ts[k], ticks)
    && forall i :: 0 <= i < |ts| && Eligible(ts[i], ticks) ==> Dist(cur, k, |ts|) <= Dist(cur, i, |ts|)
  }

  /** The task after cur in a list of n, the first one after the last. */
  function NextOf(cur: nat, n: nat): nat { if cur + 1 < n then cur + 1 else 0 }

  function NthNext(cur: nat, d: nat, n: nat): nat {
    if d == 0 then NextOf(cur, n) else NextOf(NthNext(cur, d - 1, n), n)
  }

  lemma {:induction false} NthDist(cur: nat, d: nat, n: nat)
    requires cur < n && d < n
    ensures NthNext(cur, d, n) < n && Dist(cur, NthNext(cur, d, n), n) == d
  {
    if d > 0 { NthDist(cur, d - 1, n); }
  }

  lemma SameDist(cur: nat, k: nat, l: nat, n: nat)
    requires cur < n && k < n && l < n && Dist(cur, k, n) == Dist(cur, l, n)
    ensures k == l && 0 <= Dist(cur, k, n) < n
  {
  }

  /** In other words, following the list from cur, every task before k is passed over. */
  lemma PickedIsFirst(ts: seq<Task>, cur: nat, ticks: nat, k: nat) returns (d: nat)
    requires cur < |ts| && Picked(ts, cur, ticks, k)
    ensures d < |ts| && k == NthNext(cur, d, |ts|)
    ensures forall e: nat :: e < d ==> NthNext(cur, e, |ts|) < |ts| && !Eligible(ts[NthNext(cur, e, |ts|)], ticks)
  {
    hide Eligible, NthNext, Dist;
    var n := |ts|;
    SameDist(cur, k, k, n);
    d := Dist(cur, k, n);
    NthDist(cur, d, n);
    SameDist(cur, k, NthNext(cur, d, n), n);
    forall e: nat | e < d ensures NthNext(cur, e, n) < n && !Eligible(ts[NthNext(cur, e, n)], ticks) {
      NthDist(cur, e, n);
    }
  }

  ghost predicate Nobody(ts: seq<Task>, ticks: nat) { forall i :: 0 <= i < |ts| ==> !Eligible(ts[i], ticks) }

  /** A task that was not ready is made ready, and told that it did not wake by itself. */
  function Woken(t: Task): Task { if t.state == Ready then t else t.(state := Ready, involuntary := true, wakeup := 0) }

  /** Tasks seen since the search began: those from cur up to next, going round. */
  ghost predicate Passed(ts: seq<Task>, cur: nat, ticks: nat, next: int, run: nat) {
    if run == 0 then forall i :: cur < i < next && i < |ts| ==> !Eligible(ts[i], ticks)
    else
      && (forall i :: cur < i < |ts| ==> !Eligible(ts[i], ticks))
      && (forall i :: 0 <= i < next && i < |ts| ==> !Eligible(ts[i], ticks))
  }

  // ---- the retry after a signal kill comes to an end ----

  /** How often a task can still be chosen and killed. */
  function Chances(t: Task): nat {
    (if t.state == Ready then 1 else 0) + (if t.wakeup > 0 then 2 else 0) + (if Revivable(t.state) then 2 else 0)
  }

  function TotalChances(ts: seq<Task>): nat {
    if |ts| == 0 then 0 else TotalChances(ts[..|ts| - 1]) + Chances(ts[|ts| - 1])
  }

  lemma {:induction false} FewerChances(ts: seq<Task>, k: nat, t: Task)
    requires k < |ts| && Chances(t) < Chances(ts[k])
    ensures TotalChances(ts[k := t]) < TotalChances(ts)
    decreases |ts|
  {
    var n := |ts| - 1;
    if k == n {
      assert ts[k := t][..n] == ts[..n];
    } else {
      FewerChances(ts[..n], k, t);
      assert ts[k := t][..n] == ts[..n][k := t];
    }
  }

  /** A task that was chosen and killed has fewer chances than before. */
  lemma KilledFewer(t: Task, ticks: nat)
    requires Eligible(t, ticks)
    ensures Chances(Woken(t).(state := Sigkilled)) < Chances(t)
  {
  }

  lemma WokenSame(t: Task)
    ensures Woken(t).user == t.user
  {
  }

  // ---- fairness ----

  /** What the scheduler sees at one clock tick. */
  datatype Tick = Tick(tasks: seq<Task>, current: nat, ticks: nat)

  /**
    Due to run: ready, or past its wake-up time whatever it waits for, or with a signal pending while it is blocked or
    waits for a futex or a child.
   */
  predicate Due(t: Task, ticks: nat) {
    || t.state == Ready
    || (t.wakeup != 0 && t.wakeup <= ticks)
    || (t.pending && t.state in {Blocked, Futex, WaitingChild, WaitingChildSpecific})
  }

  /** What becomes of a task that runs: it is ready, and one that was not knows that it did not wake by itself. */
  predicate Runs(before: Task, after: Task) {
    && after.state == Ready && after.pending == before.pending && after.user == before.user
    && (before.state == Ready ==> after == before)
    && (before.state != Ready ==> after.involuntary && after.wakeup == 0)
  }

  lemma DueIsEligible(t: Task, ticks: nat)
    ensures Due(t, ticks) <==> Eligible(t, ticks)
    ensures Runs(t, Woken(t))
  {
  }

  /** A run of clock ticks over n tasks in which task j stays due and each tick picks the next task. */
  ghost predicate StaysDue(run: seq<Tick>, n: nat, j: nat) {
    && (forall i :: 0 <= i < |run| ==> |run[i].tasks| == n && run[i].current < n && j < n)
    && (forall i :: 0 <= i < |run| - 1 ==> Due(run[i].tasks[j], run[i].ticks))
    && (forall i :: 0 <= i < |run| - 1 ==> Picked(run[i].tasks, run[i].current, run[i].ticks, run[i + 1].current))
  }

  /** A task that stays due comes strictly nearer with every tick that does not run it. */
  lemma Nearer(run: seq<Tick>, n: nat, j: nat, i: nat)
    requires StaysDue(run, n, j) && i + 1 < |run| && run[i + 1].current != j
    ensures 0 <= Dist(run[i + 1].current, j, n) < Dist(run[i].current, j, n)
  {
    assert Picked(run[i].tasks, run[i].current, run[i].ticks, run[i + 1].current);
    DueIsEligible(run[i].tasks[j], run[i].ticks);
  }

  lemma {:induction false} WithinDist(run: seq<Tick>, n: nat, j: nat, i: nat)
    requires StaysDue(run, n, j) && i < |run| && i + Dist(run[i].current, j, n) + 1 < |run|
    ensures exists k :: i < k <= i + Dist(run[i].current, j, n) + 1 && run[k].current == j
    decreases Dist(run[i].current, j, n)
  {
    if run[i + 1].current != j {
      Nearer(run, n, j, i);
      WithinDist(run, n, j, i + 1);
    }
  }

  /** Of n tasks, one that stays due runs within n ticks. */
  lemma RunsWithinN(run: seq<Tick>, n: nat, j: nat)
    requires StaysDue(run, n, j) && |run| > n > 0
    ensures exists k :: 0 < k <= n && run[k].current == j
  {
    WithinDist(run, n, j, 0);
  }

  lemma StartsDue(tasks: seq<Task>, current: nat, j: nat)
    requires current < |tasks| && j < |tasks|
    ensures StaysDue([Tick(tasks, current, 0)], |tasks|, j)
  {
  }

  /** One more tick: the last entry is replaced by what it saw, t, and what comes next, u. */
  lemma OneMore(run: seq<Tick>, n: nat, j: nat, t: Tick, u: Tick)
    requires |run| > 0 && StaysDue(run, n, j) && t.current == run[|run| - 1].current && |t.tasks| == |u.tasks| == n
    requires j < n && u.current < n && Due(t.tasks[j], t.ticks) && Picked(t.tasks, t.current, t.ticks, u.current)
    ensures var r := run[..|run| - 1] + [t, u];
            StaysDue(r, n, j) && forall k :: 0 <= k < |run| ==> r[k].current == run[k].current
  {
    hide Due, Picked;
    var r, l := run[..|run| - 1] + [t, u], |run| - 1;
    assert forall k :: 0 <= k < l ==> r[k] == run[k];
    forall k | 0 <= k < l ensures Picked(r[k].tasks, r[k].current, r[k].ticks, r[k + 1].current) {
      assert r[k + 1].current == run[k + 1].current;
    }
  }

  /** The dummy task is a kernel task in a state of its own, which is never chosen. */
  predicate Idles(t: Task) { t.state == Dummy && t.wakeup == 0 && !t.user }

  class Scheduler {
    var tasks: seq<Task>
    /** The index of currentTask; dummyTask is one of the tasks. */
    var current: nat
    const dummy: nat

    ghost predicate Valid()
      reads this
    {
      current < |tasks| && dummy < |tasks| && Idles(tasks[dummy])
    }

    /** The search loop of schedule: the index of the chosen task, or -1. A task it wakes is made ready. */
    method Select(ticks: nat) returns (k: int)
      requires Valid()
      modifies `tasks
      ensures Valid() && |tasks| == |old(tasks)|
      ensures k == -1 <==> Nobody(old(tasks), ticks)
      ensures k == -1 ==> tasks == old(tasks)
      ensures k != -1 ==> Picked(old(tasks), current, ticks, k) && tasks == old(tasks)[k := Woken(old(tasks)[k])]
    {
      ghost var ts := tasks;
      var next := if current + 1 < |tasks| then current + 1 else 0;
      ghost var start := if current + 1 < |tasks| then 0 else 1;
      ghost var turns := start;
      var fullRun := 0;
      while next != -1 && tasks[next].state != Ready
        invariant -1 <= next < |tasks| && tasks == ts && 0 <= fullRun <= 3 && turns == start + fullRun
        invariant next == -1 ==> Nobody(ts, ticks)
        invariant next != -1 ==>
          fullRun <= 2 && Passed(ts, current, ticks, next, turns) && (turns >= 2 ==> Nobody(ts, ticks))
        decreases 3 - fullRun, |tasks| - next
      {
        if Revivable(tasks[next].state) && tasks[next].pending {
          tasks := tasks[next := tasks[next].(involuntary := true, wakeup := 0, state := Ready)];
          return next;
        }
        if tasks[next].wakeup != 0 && tasks[next].wakeup <= ticks {
          tasks := tasks[next := tasks[next].(state := Ready, involuntary := true, wakeup := 0)];
          return next;
        }
        next := next + 1;
        if next == |tasks| {
          fullRun := fullRun + 1;
          turns := turns + 1;
          next := if fullRun > 2 then -1 else 0;
        }
      }
      k := next;
      assert k != -1 ==> tasks == tasks[k := tasks[k]];
    }

    /**
      schedule. The argument dies says for each attempt and task whether handling its signals kills the task; after a
      kill the search starts over from the same current task.
     */
    method Schedule(ticks: nat, dies: (nat, nat) -> bool, attempt: nat) returns (ghost seen: seq<Task>)
      requires Valid()
      modifies this
      ensures Valid() && |seen| == |tasks| == |old(tasks)|
      ensures forall i :: 0 <= i < |seen| && !old(tasks)[i].user ==> seen[i] == old(tasks)[i]
      ensures forall i :: 0 <= i < |seen| ==> seen[i] == old(tasks)[i] || seen[i].state == Sigkilled
      ensures forall i :: 0 <= i < |seen| && (forall a :: !dies(a, i)) ==> seen[i] == old(tasks)[i]
      ensures current == dummy <==> Nobody(seen, ticks)
      ensures current != dummy ==> Due(seen[current], ticks) && Runs(seen[current], tasks[current])
      ensures if Nobody(seen, ticks) then current == dummy && tasks == seen
              else Picked(seen, old(current), ticks, current) && tasks == seen[current := Woken(seen[current])]
      decreases TotalChances(tasks)
    {
      hide Chances, Eligible, Woken, Due, Runs;
      seen := tasks;
      ghost var before := tasks;
      var k := Select(ticks);
      var previous := current;
      current := if k == -1 then dummy else k;
      DueIsEligible(before[current], ticks);
      WokenSame(before[current]);
      if tasks[current].user && dies(attempt, current) {
        KilledFewer(before[current], ticks);
        FewerChances(before, current, Woken(before[current]).(state := Sigkilled));
        tasks := tasks[current := tasks[current].(state := Sigkilled)];
        assert tasks == before[current := Woken(before[current]).(state := Sigkilled)];
        current := previous;
        seen := Schedule(ticks, dies, attempt + 1);
      }
    }

    /**
      A run of clock ticks. Before each the other tasks may have changed in any way, but task j is due and handling its
      signals does not kill it. The ghost results record what each call of schedule saw and left.
     */
    method Ticks(j: nat, worlds: seq<seq<Task>>, ticks: seq<nat>, dies: seq<(nat, nat) -> bool>)
      returns (ghost run: seq<Tick>, ghost left: seq<seq<Task>>)
      requires Valid() && j < |tasks| && |worlds| == |ticks| == |dies|
      requires forall i :: 0 <= i < |worlds| ==>
          |worlds[i]| == |tasks| && Idles(worlds[i][dummy]) && Due(worlds[i][j], ticks[i])
      requires forall i, a :: 0 <= i < |dies| ==> !dies[i](a, j)
      modifies this
      ensures Valid() && |tasks| == |old(tasks)| && |run| == |worlds| + 1 && StaysDue(run, |tasks|, j)
      ensures run[0].current == old(current) && run[|worlds|].current == current
      ensures |left| == |worlds| && forall i :: 0 <= i < |left| ==> |left[i]| == |tasks|
      ensures forall i :: 0 <= i < |left| && run[i + 1].current == j ==> Runs(worlds[i][j], left[i][j])
      ensures |worlds| >= |tasks| ==> exists k :: 0 < k <= |tasks| && run[k].current == j
    {
      hide StaysDue, Runs, Due, Eligible, Woken;
      ghost var n := |tasks|;
      StartsDue(tasks, current, j);
      run, left := [Tick(tasks, current, 0)], [];
      for i := 0 to |worlds|
        invariant Valid() && |tasks| == n && |run| == i + 1 && StaysDue(run, n, j)
        invariant run[0].current == old(current) && run[i].current == current
        invariant |left| == i && forall k :: 0 <= k < i ==> |left[k]| == n
        invariant forall k :: 0 <= k < i && run[k + 1].current == j ==> Runs(worlds[k][j], left[k][j])
      {
        tasks := worlds[i];
        ghost var before := current;
        ghost var seen := Schedule(ticks[i], dies[i], 0);
        DueIsEligible(seen[j], ticks[i]);
        assert seen[j] == worlds[i][j] && Eligible(seen[j], ticks[i]);
        OneMore(run, n, j, Tick(seen, before, ticks[i]), Tick(tasks, current, 0));
        run := run[..i] + [Tick(seen, before, ticks[i]), Tick(tasks, current, 0)];
        left := left + [tasks];
      }
      if |worlds| >= n { RunsWithinN(run, n, j); }
    }
  }
}
