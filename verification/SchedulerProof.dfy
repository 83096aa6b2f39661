/** Safety of the scheduler over every interleaving: no process is lost or duplicated, no
    wakeup is lost, and the ready queue is first in, first out. */
module SchedulerProof {
  import opened Basics
  import opened SchedulerModel

  // ---------- Conservation of processes ----------

  /** The process in the hands of a CPU thread: the one it runs or the one in its local variable. */
  ghost function Held(s: System, c: nat): Option<nat>
    requires HasPoint(s, c)
  {
    match s.points[c]
    case Installing(next) => next
    case Requeueing(p) => Some(p)
    case _ => s.shared.current[c]
  }

  /** A thread that holds a process in `current` is between a dispatch and the section that
      takes it away; a process in a local variable is in a state that fits. */
  ghost predicate ThreadOk(s: System, c: nat)
    requires HasPoint(s, c)
  {
    && (Held(s, c).Some? ==>
      && Held(s, c).value < |s.shared.states|
      && s.shared.states[Held(s, c).value] == (if s.points[c].Installing? then Ready else Running)
      && Held(s, c).value !in s.shared.queue)
    && (s.shared.current[c].Some? ==> s.points[c] in {InSimulator, PreemptEntry, YieldEntry, TerminateEntry})
  }

  ghost predicate QueueOk(s: System) {
    && (forall i | 0 <= i < |s.shared.queue| ::
          s.shared.queue[i] < |s.shared.states| && s.shared.states[s.shared.queue[i]] == Ready)
    && (forall i, j | 0 <= i < j < |s.shared.queue| :: s.shared.queue[i] != s.shared.queue[j])
  }

  /** No two threads hold the same process. */
  ghost predicate HeldApart(s: System)
    requires |s.points| == |s.shared.current|
  {
    forall c: nat, d: nat | c < |s.points| && d < |s.points| && c != d && Held(s, c).Some? :: Held(s, c) != Held(s, d)
  }

  /** A ready process waits in the queue or is being dispatched; a running one is held. */
  ghost predicate NotLost(s: System, p: nat)
    requires |s.points| == |s.shared.current| && p < |s.shared.states|
  {
    && (s.shared.states[p] == Ready ==> p in s.shared.queue || exists c: nat :: HolderOf(s, c, p))
    && (s.shared.states[p] == Running ==> exists c: nat :: HolderOf(s, c, p))
  }

  ghost predicate HolderOf(s: System, c: nat, p: nat) {
    HasPoint(s, c) && Held(s, c) == Some(p)
  }

  ghost predicate Conserved(s: System) {
    && |s.points| == |s.shared.current|
    && (forall c: nat | c < |s.points| :: ThreadOk(s, c))
    && QueueOk(s)
    && HeldApart(s)
    && (forall p: nat | p < |s.shared.states| :: NotLost(s, p))
  }

  // ---------- No lost wakeup ----------

  /** The threads that are awake and will next look at the ready queue under its mutex. */
  ghost function Committed(s: System): (r: set<nat>)
    ensures forall c: nat :: c in r <==> c < |s.points| && s.points[c] in {Woken, ScheduleEntry}
  {
    set c: nat | c < |s.points| && s.points[c] in {Woken, ScheduleEntry}
  }

  /** Sleeping is safe: while some thread sleeps, every queued process has an awake thread
      that is on its way to the queue. */
  ghost predicate NoLostWakeup(s: System) {
    Sleepers(s) != {} ==> |s.shared.queue| <= |Committed(s)|
  }

  // ---------- First in, first out ----------

  /** What was enqueued is what was dequeued followed by what waits, in the same order. */
  ghost predicate Fifo(s: System) {
    s.enqueued == s.dequeued + s.shared.queue
  }

  ghost predicate Inv(s: System) {
    Conserved(s) && NoLostWakeup(s) && Fifo(s)
  }

  // ---------- Every step keeps the invariant ----------

  lemma FifoStep(s: System, a: Action)
    requires Fifo(s) && Enabled(s, a)
    ensures Fifo(Apply(s, a))
  {
  }

  /** Changes of program point that move no process. */
  lemma MoveConserves(s: System, c: nat, point: Point)
    requires Conserved(s) && HasPoint(s, c)
    requires Held(Go(s, c, point), c) == Held(s, c) && !s.points[c].Installing? && !point.Installing?
    requires s.shared.current[c].Some? ==> point in {InSimulator, PreemptEntry, YieldEntry, TerminateEntry}
    ensures Conserved(Go(s, c, point))
  {
    var r := Go(s, c, point);
    forall d: nat | d < |r.points|
      ensures Held(r, d) == Held(s, d) && ThreadOk(r, d)
    {
      assert ThreadOk(s, d);
    }
    forall p: nat | p < |r.shared.states|
      ensures NotLost(r, p)
    {
      assert NotLost(s, p);
      if d: nat :| HolderOf(s, d, p) {
        assert HolderOf(r, d, p);
      }
    }
  }

  /** A process that no thread holds and that is not queued joins the queue. */
  lemma EnqueueConserves(s: System, p: nat, wakes: set<nat>)
    requires Conserved(s) && p < |s.shared.states| && wakes <= Sleepers(s)
    requires s.shared.states[p] in {New, Waiting}
    ensures Conserved(Enqueue(s, p, wakes))
  {
    var r := Enqueue(s, p, wakes);
    forall d: nat | d < |r.points|
      ensures Held(r, d) == Held(s, d) && ThreadOk(r, d)
    {
      assert ThreadOk(s, d);
    }
    forall q: nat | q < |r.shared.states|
      ensures NotLost(r, q)
    {
      assert NotLost(s, q);
      if q == p {
        assert r.shared.queue[|s.shared.queue|] == p;
      } else if d: nat :| HolderOf(s, d, q) {
        assert HolderOf(r, d, q);
      }
    }
  }

  lemma RequeueConserves(s: System, c: nat, wakes: set<nat>)
    requires Conserved(s) && Enabled(s, PreemptRequeue(c, wakes))
    ensures Conserved(Apply(s, PreemptRequeue(c, wakes)))
  {
    var r := Apply(s, PreemptRequeue(c, wakes));
    var p := s.points[c].process;
    assert ThreadOk(s, c) && Held(s, c) == Some(p);
    forall d: nat | d < |r.points|
      ensures d != c ==> Held(r, d) == Held(s, d)
      ensures Held(r, c) == None && ThreadOk(r, d)
    {
      assert ThreadOk(s, d);
    }
    forall q: nat | q < |r.shared.states|
      ensures NotLost(r, q)
    {
      assert NotLost(s, q);
      if q == p {
        assert r.shared.queue[|s.shared.queue|] == p;
      } else if d: nat :| HolderOf(s, d, q) {
        assert HolderOf(r, d, q);
      }
    }
  }

  lemma TakeConserves(s: System, c: nat)
    requires Conserved(s) && Enabled(s, ScheduleTake(c))
    ensures Conserved(Apply(s, ScheduleTake(c)))
  {
    var r := Apply(s, ScheduleTake(c));
    assert ThreadOk(s, c);
    forall d: nat | d < |r.points|
      ensures d != c ==> Held(r, d) == Held(s, d)
      ensures d != c && s.shared.queue != [] ==> Held(s, d) != Some(s.shared.queue[0])
      ensures ThreadOk(r, d)
    {
      assert ThreadOk(s, d);
    }
    forall q: nat | q < |r.shared.states|
      ensures NotLost(r, q)
    {
      assert NotLost(s, q);
      if s.shared.queue != [] && q == s.shared.queue[0] {
        assert HolderOf(r, c, q);
      } else if d: nat :| HolderOf(s, d, q) {
        assert HolderOf(r, d, q);
      }
    }
  }

  lemma InstallConserves(s: System, c: nat)
    requires Conserved(s) && Enabled(s, ScheduleInstall(c))
    ensures Conserved(Apply(s, ScheduleInstall(c)))
  {
    var r := Apply(s, ScheduleInstall(c));
    assert ThreadOk(s, c);
    forall d: nat | d < |r.points|
      ensures Held(r, d) == Held(s, d) && ThreadOk(r, d)
    {
      assert ThreadOk(s, d);
    }
    forall q: nat | q < |r.shared.states|
      ensures NotLost(r, q)
    {
      assert NotLost(s, q);
      if d: nat :| HolderOf(s, d, q) {
        assert HolderOf(r, d, q);
      }
    }
  }

  lemma DetachConserves(s: System, c: nat)
    requires Conserved(s) && Enabled(s, PreemptDetach(c))
    ensures Conserved(Apply(s, PreemptDetach(c)))
  {
    var r := Apply(s, PreemptDetach(c));
    assert ThreadOk(s, c);
    forall d: nat | d < |r.points|
      ensures Held(r, d) == Held(s, d) && ThreadOk(r, d)
    {
      assert ThreadOk(s, d);
    }
    forall q: nat | q < |r.shared.states|
      ensures NotLost(r, q)
    {
      assert NotLost(s, q);
      if d: nat :| HolderOf(s, d, q) {
        assert HolderOf(r, d, q);
      }
    }
  }

  lemma LeaveConserves(s: System, c: nat, state: ProcState)
    requires Conserved(s) && HasPoint(s, c) && CurrentNamed(s, c)
    requires s.points[c] in {YieldEntry, TerminateEntry} && state in {Waiting, Terminated}
    ensures Conserved(Go(s, c, ScheduleEntry).(shared := Leave(s.shared, c, state)))
  {
    var r := Go(s, c, ScheduleEntry).(shared := Leave(s.shared, c, state));
    assert ThreadOk(s, c);
    forall d: nat | d < |r.points|
      ensures d != c ==> Held(r, d) == Held(s, d)
      ensures Held(r, c) == None && ThreadOk(r, d)
    {
      assert ThreadOk(s, d);
    }
    forall q: nat | q < |r.shared.states|
      ensures NotLost(r, q)
    {
      assert NotLost(s, q);
      if d: nat :| HolderOf(s, d, q) && d != c {
        assert HolderOf(r, d, q);
      }
    }
  }

  lemma ConservedStep(s: System, a: Action)
    requires Conserved(s) && Enabled(s, a)
    ensures Conserved(Apply(s, a))
  {
    match a
    case WakeUp(p, wakes) => EnqueueConserves(s, p, wakes);
    case PreemptRequeue(c, wakes) => RequeueConserves(s, c, wakes);
    case ScheduleTake(c) => TakeConserves(s, c);
    case ScheduleInstall(c) => InstallConserves(s, c);
    case PreemptDetach(c) => DetachConserves(s, c);
    case YieldSection(c) => LeaveConserves(s, c, Waiting);
    case TerminateSection(c) => LeaveConserves(s, c, Terminated);
    case CallIdle(c) => MoveConserves(s, c, IdleEntry);
    case TestQueue(c) =>
      assert ThreadOk(s, c);
      MoveConserves(s, c, if s.shared.queue == [] then Asleep else ScheduleEntry);
    case SpuriousWakeup(c) =>
      assert ThreadOk(s, c);
      MoveConserves(s, c, Woken);
    case CallPreempt(c) => MoveConserves(s, c, PreemptEntry);
    case CallYield(c) => MoveConserves(s, c, YieldEntry);
    case CallTerminate(c) => MoveConserves(s, c, TerminateEntry);
  }

  /** The intrusive queue is never corrupted: a process that is about to be linked in is not
      linked in already. */
  lemma EnqueuedOnlyOnce(s: System, a: Action)
    requires Conserved(s) && Enabled(s, a)
    ensures a.WakeUp? ==> a.process !in s.shared.queue
    ensures a.PreemptRequeue? ==> s.points[a.cpu].process !in s.shared.queue
  {
    if a.PreemptRequeue? {
      assert ThreadOk(s, a.cpu);
    }
  }

  // ---------- Wakeups ----------

  lemma SignalSets(s: System, p: nat, wakes: set<nat>)
    requires p < |s.shared.states| && wakes <= Sleepers(s)
    ensures Committed(Enqueue(s, p, wakes)) == Committed(s) + wakes
    ensures Sleepers(Enqueue(s, p, wakes)) == Sleepers(s) - wakes
    ensures Committed(s) !! wakes
  {
  }

  /** Adding a process is matched by a thread that the signal woke. */
  lemma SignalCounts(s: System, p: nat, wakes: set<nat>)
    requires NoLostWakeup(s) && p < |s.shared.states| && SignalWakes(s, wakes)
    ensures NoLostWakeup(Enqueue(s, p, wakes))
  {
    SignalSets(s, p, wakes);
    assert |Committed(s) + wakes| == |Committed(s)| + |wakes|;
  }

  lemma MoveSets(s: System, r: System, c: nat)
    requires HasPoint(s, c) && HasPoint(r, c) && r.points == s.points[c := r.points[c]]
    ensures Committed(r) == if r.points[c] in {Woken, ScheduleEntry} then Committed(s) + {c} else Committed(s) - {c}
    ensures r.points[c] != Asleep ==> Sleepers(r) <= Sleepers(s)
  {
  }

  /** A thread that does not go to sleep: no committed thread is lost unless it takes its
      process along, and no sleeper is gained. */
  lemma MoveCounts(s: System, r: System, c: nat)
    requires HasPoint(s, c) && HasPoint(r, c) && r.points == s.points[c := r.points[c]]
    requires NoLostWakeup(s) && r.points[c] != Asleep
    requires |r.shared.queue| <= |s.shared.queue|
    requires s.points[c] in {Woken, ScheduleEntry} && r.points[c] !in {Woken, ScheduleEntry} ==>
      |r.shared.queue| == if s.shared.queue == [] then 0 else |s.shared.queue| - 1
    ensures NoLostWakeup(r)
  {
    MoveSets(s, r, c);
    if r.points[c] in {Woken, ScheduleEntry} {
      SubsetSize(Committed(s), Committed(r));
    } else {
      assert Committed(s) == if c in Committed(s) then Committed(r) + {c} else Committed(r);
    }
  }

  lemma WakeupStep(s: System, a: Action)
    requires Conserved(s) && NoLostWakeup(s) && Enabled(s, a)
    ensures NoLostWakeup(Apply(s, a))
  {
    match a
    case WakeUp(p, wakes) => SignalCounts(s, p, wakes);
    case PreemptRequeue(c, wakes) => RequeueCounts(s, c, wakes);
    case TestQueue(c) => TestCounts(s, c);
    case _ => MoveCounts(s, Apply(s, a), a.cpu);
  }

  lemma RequeueCounts(s: System, c: nat, wakes: set<nat>)
    requires NoLostWakeup(s) && Enabled(s, PreemptRequeue(c, wakes))
    ensures NoLostWakeup(Apply(s, PreemptRequeue(c, wakes)))
  {
    SignalCounts(s, s.points[c].process, wakes);
    MoveCounts(Enqueue(s, s.points[c].process, wakes), Apply(s, PreemptRequeue(c, wakes)), c);
  }

  lemma TestCounts(s: System, c: nat)
    requires NoLostWakeup(s) && Enabled(s, TestQueue(c))
    ensures NoLostWakeup(Apply(s, TestQueue(c)))
  {
    if s.shared.queue != [] {
      MoveCounts(s, Apply(s, TestQueue(c)), c);
    }
  }

  // ---------- Whole runs ----------

  lemma InvStep(s: System, a: Action)
    requires Inv(s) && Enabled(s, a)
    ensures Inv(Apply(s, a))
  {
    ConservedStep(s, a);
    WakeupStep(s, a);
    FifoStep(s, a);
  }

  lemma {:induction false} RunInv(procs: nat, cpus: nat, run: seq<System>, i: nat)
    requires IsRun(procs, cpus, run) && i < |run|
    ensures Inv(run[i])
  {
    if i > 0 {
      RunInv(procs, cpus, run, i - 1);
      assert Follows(run[i - 1], run[i]);
      var a :| Enabled(run[i - 1], a) && run[i] == Apply(run[i - 1], a);
      InvStep(run[i - 1], a);
    }
  }

  /** No wakeup is lost, in any interleaving: while a CPU sleeps in `idle`, the ready queue is
      no longer than the number of threads that are awake and bound for it. */
  lemma SleepersAreSafe(procs: nat, cpus: nat, run: seq<System>, i: nat)
    requires IsRun(procs, cpus, run) && i < |run|
    ensures Sleepers(run[i]) != {} ==> |run[i].shared.queue| <= |Committed(run[i])|
  {
    RunInv(procs, cpus, run, i);
  }

  /** So when no thread is on its way to the queue, work waits only if no CPU sleeps. */
  lemma QuiescentIsBusy(procs: nat, cpus: nat, run: seq<System>, i: nat)
    requires IsRun(procs, cpus, run) && i < |run|
    requires forall c: nat | c < |run[i].points| :: run[i].points[c] !in {Woken, ScheduleEntry}
    ensures run[i].shared.queue != [] ==> forall c: nat | c < |run[i].points| :: run[i].points[c] != Asleep
  {
    RunInv(procs, cpus, run, i);
    assert Committed(run[i]) == {};
    assert forall c: nat | c < |run[i].points| && run[i].points[c] == Asleep :: c in Sleepers(run[i]);
  }

  /** Where a process is. */
  datatype Place =
    | Unborn
    | InQueue(position: nat)
    | WithThread(cpu: nat)
    | OnCpu(cpu: nat)
    | Blocked
    | Finished

  ghost predicate IsAt(s: System, p: nat, place: Place)
    requires p < |s.shared.states|
  {
    match place
    case Unborn => s.shared.states[p] == New
    case InQueue(i) => i < |s.shared.queue| && s.shared.queue[i] == p
    case WithThread(c) => HolderOf(s, c, p) && s.shared.current[c] != Some(p)
    case OnCpu(c) => HasPoint(s, c) && s.shared.current[c] == Some(p)
    case Blocked => s.shared.states[p] == Waiting
    case Finished => s.shared.states[p] == Terminated
  }

  lemma PlaceFixesState(s: System, p: nat, place: Place)
    requires Conserved(s) && p < |s.shared.states| && IsAt(s, p, place)
    ensures s.shared.states[p] == match place
      case Unborn => New
      case InQueue(_) => Ready
      case WithThread(c) => if s.points[c].Installing? then Ready else Running
      case OnCpu(_) => Running
      case Blocked => Waiting
      case Finished => Terminated
    ensures place.OnCpu? || place.WithThread? ==> HolderOf(s, place.cpu, p) && p !in s.shared.queue
  {
    if place.OnCpu? || place.WithThread? {
      assert ThreadOk(s, place.cpu);
    }
  }

  lemma SomePlace(s: System, p: nat) returns (place: Place)
    requires Conserved(s) && p < |s.shared.states|
    ensures IsAt(s, p, place)
  {
    assert NotLost(s, p);
    match s.shared.states[p]
    case New => place := Unborn;
    case Waiting => place := Blocked;
    case Terminated => place := Finished;
    case Ready =>
      if p in s.shared.queue {
        var i :| 0 <= i < |s.shared.queue| && s.shared.queue[i] == p;
        place := InQueue(i);
      } else {
        var c: nat :| HolderOf(s, c, p);
        place := if s.shared.current[c] == Some(p) then OnCpu(c) else WithThread(c);
      }
    case Running =>
      var c: nat :| HolderOf(s, c, p);
      place := if s.shared.current[c] == Some(p) then OnCpu(c) else WithThread(c);
  }

  /** Conservation: at every point of every interleaving each process is in exactly one place,
      and only queue members and processes being dispatched are READY, only held ones RUNNING. */
  lemma ExactlyOnePlace(procs: nat, cpus: nat, run: seq<System>, i: nat, p: nat)
    requires IsRun(procs, cpus, run) && i < |run| && p < |run[i].shared.states|
    ensures exists place :: IsAt(run[i], p, place)
    ensures forall x, y | IsAt(run[i], p, x) && IsAt(run[i], p, y) :: x == y
  {
    RunInv(procs, cpus, run, i);
    var place := SomePlace(run[i], p);
    forall x, y | IsAt(run[i], p, x) && IsAt(run[i], p, y)
      ensures x == y
    {
      PlaceFixesState(run[i], p, x);
      PlaceFixesState(run[i], p, y);
    }
  }

  /** A terminated process stays terminated. */
  lemma TerminatedIsFinal(s: System, a: Action, p: nat)
    requires Inv(s) && Enabled(s, a) && p < |s.shared.states| && s.shared.states[p] == Terminated
    ensures p < |Apply(s, a).shared.states| && Apply(s, a).shared.states[p] == Terminated
  {
    match a
    case ScheduleInstall(c) => assert ThreadOk(s, c);
    case PreemptRequeue(c, _) => assert ThreadOk(s, c);
    case YieldSection(c) => assert ThreadOk(s, c);
    case TerminateSection(c) => assert ThreadOk(s, c);
    case _ =>
  }

  lemma {:induction false} TerminatedForGood(procs: nat, cpus: nat, run: seq<System>, i: nat, j: nat, p: nat)
    requires IsRun(procs, cpus, run) && i <= j < |run|
    requires p < |run[i].shared.states| && run[i].shared.states[p] == Terminated
    ensures p < |run[j].shared.states| && run[j].shared.states[p] == Terminated
  {
    if i < j {
      TerminatedForGood(procs, cpus, run, i, j - 1, p);
      RunInv(procs, cpus, run, j - 1);
      assert Follows(run[j - 1], run[j]);
      var a :| Enabled(run[j - 1], a) && run[j] == Apply(run[j - 1], a);
      TerminatedIsFinal(run[j - 1], a, p);
    }
  }

  /** First in, first out: the process enqueued at position `k` of a run is the one dispatched
      after exactly `k` others, and until then it is in the queue behind those still waiting. */
  lemma DispatchedInOrder(procs: nat, cpus: nat, run: seq<System>, i: nat, k: nat)
    requires IsRun(procs, cpus, run) && i < |run| && k < |run[i].enqueued|
    ensures var s := run[i];
      if k < |s.dequeued| then s.dequeued[k] == s.enqueued[k]
      else k - |s.dequeued| < |s.shared.queue| && s.shared.queue[k - |s.dequeued|] == s.enqueued[k]
  {
    RunInv(procs, cpus, run, i);
  }
}
