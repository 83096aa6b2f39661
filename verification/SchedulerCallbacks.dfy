/** The callbacks of the scheduler, told from the actions of a run alone: in which order each
    thread takes its steps, what becomes of the process a callback takes from its CPU, and
    which process the next dispatch installs. */
module SchedulerCallbacks {
  import opened Basics
  import opened SchedulerModel
  import opened SchedulerProof

  // ---------- Runs with their actions ----------

  ghost predicate StepsTo(s: System, a: Action, s': System) {
    Enabled(s, a) && s' == Apply(s, a)
  }

  /** `run` takes the actions `acts` one after the other. */
  ghost predicate Executes(procs: nat, cpus: nat, run: seq<System>, acts: seq<Action>) {
    && |run| == |acts| + 1 && run[0] == Boot(procs, cpus)
    && forall i | 0 <= i < |acts| :: StepsTo(run[i], acts[i], run[i + 1])
  }

  lemma ExecutesIsRun(procs: nat, cpus: nat, run: seq<System>, acts: seq<Action>)
    requires Executes(procs, cpus, run, acts)
    ensures IsRun(procs, cpus, run)
  {
    forall i | 0 <= i < |run| - 1
      ensures Follows(run[i], run[i + 1])
    {
      assert StepsTo(run[i], acts[i], run[i + 1]);
    }
  }

  /** Every run takes some actions. */
  lemma {:induction false} RunHasActions(procs: nat, cpus: nat, run: seq<System>)
    requires IsRun(procs, cpus, run)
    ensures exists acts :: Executes(procs, cpus, run, acts)
    decreases |run|
  {
    var n := |run| - 1;
    if n == 0 {
      assert Executes(procs, cpus, run, []);
    } else {
      var front := run[..n];
      assert forall i | 0 <= i < n - 1 :: Follows(run[i], run[i + 1]) ==> Follows(front[i], front[i + 1]);
      RunHasActions(procs, cpus, front);
      var before :| Executes(procs, cpus, front, before);
      assert Follows(run[n - 1], run[n - 1 + 1]);
      var a :| Enabled(run[n - 1], a) && run[n] == Apply(run[n - 1], a);
      OneMoreAction(procs, cpus, run, before, a);
    }
  }

  lemma OneMoreAction(procs: nat, cpus: nat, run: seq<System>, before: seq<Action>, a: Action)
    requires |run| == |before| + 2 && Executes(procs, cpus, run[..|run| - 1], before)
    requires StepsTo(run[|before|], a, run[|before| + 1])
    ensures Executes(procs, cpus, run, before + [a])
  {
    var front, acts := run[..|run| - 1], before + [a];
    forall i | 0 <= i < |acts|
      ensures StepsTo(run[i], acts[i], run[i + 1])
    {
      if i < |before| {
        assert StepsTo(front[i], before[i], front[i + 1]);
      }
    }
  }

  /** The action is a step of thread `c`. */
  predicate Own(a: Action, c: nat) {
    !a.WakeUp? && a.cpu == c
  }

  /** The signal of the action wakes thread `c`. */
  predicate Signals(a: Action, c: nat) {
    (a.WakeUp? || a.PreemptRequeue?) && c in a.wakes
  }

  /** Thread `c` takes no step from `i` up to `j`. */
  ghost predicate Rests(acts: seq<Action>, i: nat, j: nat, c: nat) {
    i <= j <= |acts| && forall k | i <= k < j :: !Own(acts[k], c)
  }

  ghost predicate SignalledIn(acts: seq<Action>, i: nat, j: nat, c: nat) {
    i <= j <= |acts| && exists k :: i <= k < j && Signals(acts[k], c)
  }

  lemma {:induction false} SizesStay(procs: nat, cpus: nat, run: seq<System>, acts: seq<Action>, i: nat)
    requires Executes(procs, cpus, run, acts) && i < |run|
    ensures |run[i].points| == |run[i].shared.current| == cpus && |run[i].shared.states| == procs
  {
    if i > 0 {
      SizesStay(procs, cpus, run, acts, i - 1);
      assert StepsTo(run[i - 1], acts[i - 1], run[i - 1 + 1]);
    }
  }

  lemma OthersKeep(s: System, a: Action, c: nat)
    requires Enabled(s, a) && c < |s.points| == |s.shared.current| && !Own(a, c)
    ensures var s' := Apply(s, a);
      && |s'.points| == |s.points| == |s'.shared.current| && s'.shared.current[c] == s.shared.current[c]
      && s'.points[c] == (if Signals(a, c) then Woken else s.points[c])
      && (Signals(a, c) ==> s.points[c] == Asleep)
  {
  }

  /** While a thread rests, the others can only wake it. */
  lemma {:induction false} Undisturbed(procs: nat, cpus: nat, run: seq<System>, acts: seq<Action>, i: nat, j: nat, c: nat)
    requires Executes(procs, cpus, run, acts) && Rests(acts, i, j, c) && c < cpus
    ensures c < |run[i].points| == |run[j].points| == |run[i].shared.current| == |run[j].shared.current|
    ensures run[j].shared.current[c] == run[i].shared.current[c]
    ensures run[j].points[c] == if SignalledIn(acts, i, j, c) then Woken else run[i].points[c]
    ensures SignalledIn(acts, i, j, c) ==> run[i].points[c] == Asleep
    decreases j
  {
    SizesStay(procs, cpus, run, acts, i);
    if i < j {
      Undisturbed(procs, cpus, run, acts, i, j - 1, c);
      assert StepsTo(run[j - 1], acts[j - 1], run[j - 1 + 1]);
      OthersKeep(run[j - 1], acts[j - 1], c);
      assert SignalledIn(acts, i, j, c) <==> SignalledIn(acts, i, j - 1, c) || Signals(acts[j - 1], c);
    }
  }

  // ---------- The order of a thread's steps ----------

  /** The simulator calls a callback for CPU `c`. */
  predicate Calls(now: System, c: nat, next: Action) {
    || next.CallPreempt? || next.CallYield? || next.CallTerminate?
    || (next.CallIdle? && c < |now.shared.current| && now.shared.current[c] == None)
  }

  /** A signal wakes sleepers only, and at least one if there is any. */
  ghost predicate ProperSignal(now: System, wakes: set<nat>) {
    && (forall d | d in wakes :: d < |now.points| && now.points[d] == Asleep)
    && ((exists d: nat :: d < |now.points| && now.points[d] == Asleep) ==> exists d :: d in wakes)
  }

  /** Thread `c` whose last step was `last`, taken in state `before`, and which has or has not
      been signalled since, can take the step `next` now. */
  ghost predicate Continues(c: nat, before: System, last: Action, signalled: bool, now: System, next: Action)
    requires c < |before.shared.current|
  {
    match last
    case CallIdle(_) => next.TestQueue?
    case TestQueue(_) =>
      if before.shared.queue != [] then next.ScheduleTake?
      else if signalled then next.TestQueue?
      else next.SpuriousWakeup?
    case SpuriousWakeup(_) => next.TestQueue?
    case ScheduleTake(_) => next.ScheduleInstall?
    case ScheduleInstall(_) => Calls(now, c, next)
    case CallPreempt(_) => next.PreemptDetach?
    case PreemptDetach(_) =>
      if before.shared.current[c] == None then next.ScheduleTake?
      else next.PreemptRequeue? && ProperSignal(now, next.wakes)
    case PreemptRequeue(_, _) => next.ScheduleTake?
    case CallYield(_) => next.YieldSection?
    case YieldSection(_) => next.ScheduleTake?
    case CallTerminate(_) => next.TerminateSection?
    case TerminateSection(_) => next.ScheduleTake?
    case WakeUp(_, _) => false
  }

  lemma SignalIsProper(s: System, wakes: set<nat>)
    ensures SignalWakes(s, wakes) <==> ProperSignal(s, wakes)
  {
    assert Sleepers(s) != {} <==> exists d: nat :: d in Sleepers(s);
    assert wakes != {} <==> exists d :: d in wakes;
  }

  /** The steps that a thread can take, by its program point. */
  ghost predicate CanStep(s: System, c: nat, point: Point, next: Action)
  {
    match point
    case InSimulator => Calls(s, c, next)
    case IdleEntry => next.TestQueue?
    case Woken => next.TestQueue?
    case Asleep => next.SpuriousWakeup?
    case ScheduleEntry => next.ScheduleTake?
    case Installing(_) => next.ScheduleInstall?
    case PreemptEntry => next.PreemptDetach?
    case Requeueing(_) => next.PreemptRequeue? && ProperSignal(s, next.wakes)
    case YieldEntry => next.YieldSection?
    case TerminateEntry => next.TerminateSection?
  }

  lemma EnabledIffCanStep(s: System, c: nat, next: Action)
    requires Inv(s) && c < |s.points| && Own(next, c)
    ensures Enabled(s, next) <==> CanStep(s, c, s.points[c], next)
  {
    assert ThreadOk(s, c);
    if next.PreemptRequeue? {
      SignalIsProper(s, next.wakes);
    }
  }

  lemma PointAfter(s: System, c: nat, a: Action, signalled: bool, now: System, next: Action)
    requires Inv(s) && Enabled(s, a) && Own(a, c) && c < |s.points| && Own(next, c)
    requires signalled ==> Apply(s, a).points[c] == Asleep
    ensures CanStep(now, c, if signalled then Woken else Apply(s, a).points[c], next)
        <==> Continues(c, s, a, signalled, now, next)
    ensures Apply(s, a).points[c] == Asleep <==> a.TestQueue? && s.shared.queue == []
  {
  }

  /** The program of a thread: what it can do next is decided by its own last step, by what it
      found then, and by the signals since. */
  lemma ControlFlow(procs: nat, cpus: nat, run: seq<System>, acts: seq<Action>, i: nat, j: nat, c: nat, next: Action)
    requires Executes(procs, cpus, run, acts) && c < cpus && Own(next, c)
    requires i < j < |run| && Own(acts[i], c) && Rests(acts, i + 1, j, c)
    ensures c < |run[i].shared.current|
    ensures Enabled(run[j], next) <==>
        Continues(c, run[i], acts[i], SignalledIn(acts, i + 1, j, c), run[j], next)
    ensures c in Sleepers(run[j]) <==>
        acts[i].TestQueue? && run[i].shared.queue == [] && !SignalledIn(acts, i + 1, j, c)
  {
    ExecutesIsRun(procs, cpus, run, acts);
    RunInv(procs, cpus, run, i);
    RunInv(procs, cpus, run, j);
    SizesStay(procs, cpus, run, acts, i);
    assert StepsTo(run[i], acts[i], run[i + 1]);
    Undisturbed(procs, cpus, run, acts, i + 1, j, c);
    EnabledIffCanStep(run[j], c, next);
    PointAfter(run[i], c, acts[i], SignalledIn(acts, i + 1, j, c), run[j], next);
  }

  /** A thread starts in the simulator. */
  lemma FirstCall(procs: nat, cpus: nat, run: seq<System>, acts: seq<Action>, j: nat, c: nat, next: Action)
    requires Executes(procs, cpus, run, acts) && c < cpus && Own(next, c)
    requires j < |run| && Rests(acts, 0, j, c)
    ensures Enabled(run[j], next) <==> Calls(run[j], c, next)
    ensures c < |run[j].shared.current| && run[j].shared.current[c] == None
  {
    ExecutesIsRun(procs, cpus, run, acts);
    RunInv(procs, cpus, run, j);
    Undisturbed(procs, cpus, run, acts, 0, j, c);
    EnabledIffCanStep(run[j], c, next);
  }

  // ---------- What the callbacks do ----------

  /** `schedule` installs the process that was at the head of the queue when it looked, which is
      then RUNNING, or none if the queue was empty. */
  lemma DispatchInstallsHead(procs: nat, cpus: nat, run: seq<System>, acts: seq<Action>, i: nat, j: nat, c: nat)
    requires Executes(procs, cpus, run, acts) && c < cpus && i < j < |acts|
    requires acts[i] == ScheduleTake(c) && Rests(acts, i + 1, j, c) && Own(acts[j], c)
    ensures c < |run[j + 1].shared.current|
    ensures run[i].shared.queue == [] ==>
        run[i + 1].shared.queue == [] && run[j + 1].shared.current[c] == None
        && run[j + 1].shared.states == run[j].shared.states
    ensures run[i].shared.queue != [] ==>
        var p := run[i].shared.queue[0];
        && run[i + 1].shared.queue == run[i].shared.queue[1..]
        && run[j + 1].shared.current[c] == Some(p) && p < |run[j].shared.states|
        && run[j + 1].shared.states == run[j].shared.states[p := Running]
  {
    ControlFlow(procs, cpus, run, acts, i, j, c, acts[j]);
    SizesStay(procs, cpus, run, acts, i);
    assert StepsTo(run[i], acts[i], run[i + 1]);
    assert StepsTo(run[j], acts[j], run[j + 1]);
    Undisturbed(procs, cpus, run, acts, i + 1, j, c);
  }

  /** `preempt` puts the process it found on its CPU READY at the end of the queue. */
  lemma PreemptRequeues(procs: nat, cpus: nat, run: seq<System>, acts: seq<Action>, i: nat, j: nat, c: nat, p: nat)
    requires Executes(procs, cpus, run, acts) && c < cpus && i < j < |acts|
    requires acts[i] == PreemptDetach(c) && Rests(acts, i + 1, j, c) && Own(acts[j], c)
    requires c < |run[i].shared.current| && run[i].shared.current[c] == Some(p)
    ensures c < |run[i + 1].shared.current| && run[i + 1].shared.current[c] == None
    ensures acts[j].PreemptRequeue? && p < |run[j].shared.states|
    ensures run[j + 1].shared.queue == run[j].shared.queue + [p]
    ensures run[j + 1].shared.states == run[j].shared.states[p := Ready]
  {
    ControlFlow(procs, cpus, run, acts, i, j, c, acts[j]);
    SizesStay(procs, cpus, run, acts, i);
    assert StepsTo(run[i], acts[i], run[i + 1]);
    assert StepsTo(run[j], acts[j], run[j + 1]);
    Undisturbed(procs, cpus, run, acts, i + 1, j, c);
  }

  /** Process `p` is in the ready queue or on a CPU. */
  ghost predicate InService(s: System, p: nat) {
    p in s.shared.queue || Some(p) in s.shared.current
  }

  /** `yield`: the process that was on the CPU is WAITING and in no queue and on no CPU, the
      other processes are as they were, and the end of its I/O can be signalled. */
  lemma YieldBlocks(procs: nat, cpus: nat, run: seq<System>, acts: seq<Action>, i: nat, c: nat, p: nat)
    requires Executes(procs, cpus, run, acts) && i < |acts| && acts[i] == YieldSection(c)
    requires c < |run[i].shared.current| && run[i].shared.current[c] == Some(p)
    ensures p < |run[i].shared.states| && run[i + 1].shared.states == run[i].shared.states[p := Waiting]
    ensures run[i + 1].shared.current == run[i].shared.current[c := None]
    ensures run[i + 1].shared.queue == run[i].shared.queue
    ensures !InService(run[i + 1], p)
    ensures Enabled(run[i + 1], WakeUp(p, Sleepers(run[i + 1])))
  {
    assert StepsTo(run[i], acts[i], run[i + 1]);
    ExecutesIsRun(procs, cpus, run, acts);
    RunInv(procs, cpus, run, i);
    assert ThreadOk(run[i], c);
    RunInv(procs, cpus, run, i + 1);
    OutOfService(run[i + 1], p);
  }

  /** A new, waiting or terminated process is in no queue and on no CPU. */
  lemma OutOfService(s: System, p: nat)
    requires Inv(s) && p < |s.shared.states| && s.shared.states[p] in {New, Waiting, Terminated}
    ensures !InService(s, p)
    ensures forall c: nat | c < |s.points| :: Held(s, c) != Some(p)
  {
    forall c: nat | c < |s.points|
      ensures s.shared.current[c] != Some(p) && Held(s, c) != Some(p)
    {
      assert ThreadOk(s, c);
    }
  }

  /** Only `wake_up` ends the wait of a process. */
  lemma {:induction false} BlockedUntilWoken(procs: nat, cpus: nat, run: seq<System>, acts: seq<Action>, i: nat, j: nat, p: nat)
    requires Executes(procs, cpus, run, acts) && i <= j < |run|
    requires p < |run[i].shared.states| && run[i].shared.states[p] in {New, Waiting, Terminated}
    requires forall k | i <= k < j :: !(acts[k].WakeUp? && acts[k].process == p)
    ensures p < |run[j].shared.states| && run[j].shared.states[p] == run[i].shared.states[p] && !InService(run[j], p)
    decreases j
  {
    ExecutesIsRun(procs, cpus, run, acts);
    RunInv(procs, cpus, run, j);
    if i < j {
      BlockedUntilWoken(procs, cpus, run, acts, i, j - 1, p);
      assert StepsTo(run[j - 1], acts[j - 1], run[j - 1 + 1]);
      RunInv(procs, cpus, run, j - 1);
      OutOfService(run[j - 1], p);
      OthersKeepState(run[j - 1], acts[j - 1], p);
    }
    OutOfService(run[j], p);
  }

  /** A process is NEW, in no queue and on no CPU until the first `wake_up` that names it. */
  lemma NewUntilWoken(procs: nat, cpus: nat, run: seq<System>, acts: seq<Action>, j: nat, p: nat)
    requires Executes(procs, cpus, run, acts) && j < |run| && p < procs
    requires forall k | 0 <= k < j :: !(acts[k].WakeUp? && acts[k].process == p)
    ensures p < |run[j].shared.states| && run[j].shared.states[p] == New && !InService(run[j], p)
  {
    BlockedUntilWoken(procs, cpus, run, acts, 0, j, p);
  }

  /** A process that no thread holds and that `wake_up` does not name keeps its state. */
  lemma OthersKeepState(s: System, a: Action, p: nat)
    requires Inv(s) && Enabled(s, a) && p < |s.shared.states|
    requires forall c: nat | c < |s.points| :: Held(s, c) != Some(p)
    requires !(a.WakeUp? && a.process == p)
    ensures p < |Apply(s, a).shared.states| && Apply(s, a).shared.states[p] == s.shared.states[p]
  {
    if !a.WakeUp? {
      assert Enabled(s, a) ==> a.cpu < |s.points|;
      assert Held(s, a.cpu) != Some(p);
    }
  }

  /** `wake_up` puts a new process, or one whose I/O is complete, READY at the end of the queue,
      and can be called for exactly these. */
  lemma WakeUpReadies(procs: nat, cpus: nat, run: seq<System>, acts: seq<Action>, i: nat, p: nat, wakes: set<nat>)
    requires Executes(procs, cpus, run, acts) && i < |run|
    ensures Enabled(run[i], WakeUp(p, wakes)) <==>
        && p < |run[i].shared.states|
        && (run[i].shared.states[p] == New || run[i].shared.states[p] == Waiting)
        && ProperSignal(run[i], wakes)
    ensures i < |acts| && acts[i] == WakeUp(p, wakes) ==>
        && p < |run[i].shared.states|
        && run[i + 1].shared.states == run[i].shared.states[p := Ready]
        && run[i + 1].shared.queue == run[i].shared.queue + [p]
        && run[i + 1].shared.current == run[i].shared.current
  {
    SignalIsProper(run[i], wakes);
    if i < |acts| {
      assert StepsTo(run[i], acts[i], run[i + 1]);
    }
  }

  /** `terminate`: from then on the process that was on the CPU is TERMINATED and is never again
      in the queue or on a CPU. */
  lemma TerminateEnds(procs: nat, cpus: nat, run: seq<System>, acts: seq<Action>, i: nat, j: nat, c: nat, p: nat)
    requires Executes(procs, cpus, run, acts) && i < |acts| && acts[i] == TerminateSection(c) && i < j < |run|
    requires c < |run[i].shared.current| && run[i].shared.current[c] == Some(p)
    ensures p < |run[i].shared.states| && run[i + 1].shared.states == run[i].shared.states[p := Terminated]
    ensures run[i + 1].shared.current == run[i].shared.current[c := None]
    ensures p < |run[j].shared.states| && run[j].shared.states[p] == Terminated && !InService(run[j], p)
  {
    assert StepsTo(run[i], acts[i], run[i + 1]);
    ExecutesIsRun(procs, cpus, run, acts);
    TerminatedForGood(procs, cpus, run, i + 1, j, p);
    RunInv(procs, cpus, run, j);
    OutOfService(run[j], p);
  }

  /** `yield` and `terminate` on a CPU without a process change no process. */
  lemma NothingToLeave(procs: nat, cpus: nat, run: seq<System>, acts: seq<Action>, i: nat, c: nat)
    requires Executes(procs, cpus, run, acts) && i < |acts|
    requires acts[i] == YieldSection(c) || acts[i] == TerminateSection(c)
    requires c < |run[i].shared.current| && run[i].shared.current[c] == None
    ensures run[i + 1].shared == run[i].shared
  {
    assert StepsTo(run[i], acts[i], run[i + 1]);
  }
}
