/** The multi-CPU scheduler as a protocol: each section under a mutex is one atomic step, and
    between sections a CPU thread is at a program point with its local variable. */
module SchedulerModel {
  import opened Basics

  datatype ProcState = New | Ready | Running | Waiting | Terminated

  // ---------- Shared data and the critical sections ----------

  /** PCB states, the ready queue from head to tail, and `current[]`. */
  datatype Shared = Shared(states: seq<ProcState>, queue: seq<nat>, current: seq<Option<nat>>)

  /** The ready_mutex section of `wake_up` and of `preempt`, without the signal. */
  function MakeReady(s: Shared, p: nat): Shared
    requires p < |s.states|
  {
    s.(states := s.states[p := Ready], queue := s.queue + [p])
  }

  /** The ready_mutex section of `schedule`. */
  function TakeNext(s: Shared): (Shared, Option<nat>) {
    if s.queue == [] then (s, None) else (s.(queue := s.queue[1..]), Some(s.queue[0]))
  }

  /** The current_mutex section of `schedule`. */
  function Install(s: Shared, cpu: nat, next: Option<nat>): Shared
    requires cpu < |s.current| && (next.Some? ==> next.value < |s.states|)
  {
    var s1 := s.(current := s.current[cpu := next]);
    if next.Some? then s1.(states := s1.states[next.value := Running]) else s1
  }

  /** The current_mutex section of `preempt`. */
  function Detach(s: Shared, cpu: nat): (Shared, Option<nat>)
    requires cpu < |s.current|
  {
    (s.(current := s.current[cpu := None]), s.current[cpu])
  }

  /** The section of `yield` (with Waiting) and of `terminate` (with Terminated). */
  function Leave(s: Shared, cpu: nat, state: ProcState): Shared
    requires cpu < |s.current| && (s.current[cpu].Some? ==> s.current[cpu].value < |s.states|)
  {
    match s.current[cpu]
    case None => s
    case Some(p) => s.(states := s.states[p := state], current := s.current[cpu := None])
  }

  // ---------- Threads ----------

  /** Where a CPU thread is. `Asleep` is inside `pthread_cond_wait`; `Woken` has left the wait
      and has yet to take the mutex and test the queue again. */
  datatype Point =
    | InSimulator
    | IdleEntry
    | Asleep
    | Woken
    | ScheduleEntry
    | Installing(next: Option<nat>)
    | PreemptEntry
    | Requeueing(process: nat)
    | YieldEntry
    | TerminateEntry

  /** The whole system, with the history of the ready queue. */
  datatype System = System(shared: Shared, points: seq<Point>, enqueued: seq<nat>, dequeued: seq<nat>)

  /** One atomic step. `wakes` are the threads that the signal of a step wakes. */
  datatype Action =
    | CallIdle(cpu: nat)
    | TestQueue(cpu: nat)
    | SpuriousWakeup(cpu: nat)
    | ScheduleTake(cpu: nat)
    | ScheduleInstall(cpu: nat)
    | CallPreempt(cpu: nat)
    | PreemptDetach(cpu: nat)
    | PreemptRequeue(cpu: nat, wakes: set<nat>)
    | CallYield(cpu: nat)
    | YieldSection(cpu: nat)
    | CallTerminate(cpu: nat)
    | TerminateSection(cpu: nat)
    | WakeUp(process: nat, wakes: set<nat>)

  function Sleepers(s: System): (r: set<nat>)
    ensures forall c: nat :: c in r <==> c < |s.points| && s.points[c] == Asleep
  {
    set c: nat | c < |s.points| && s.points[c] == Asleep
  }

  /** `pthread_cond_signal` wakes at least one sleeper if there is one. */
  predicate SignalWakes(s: System, wakes: set<nat>) {
    wakes <= Sleepers(s) && (Sleepers(s) != {} ==> wakes != {})
  }

  function Wake(points: seq<Point>, wakes: set<nat>): (r: seq<Point>)
    ensures |r| == |points|
  {
    seq(|points|, c requires 0 <= c < |points| => if c in wakes then Woken else points[c])
  }

  /** The step can happen: the thread is at the right point, and the simulator keeps its side:
      `idle` is called for a CPU without a process, `wake_up` for a new or waiting process. */
  predicate Enabled(s: System, a: Action) {
    match a
    case WakeUp(p, wakes) =>
      p < |s.shared.states| && s.shared.states[p] in {New, Waiting} && SignalWakes(s, wakes)
    case CallIdle(c) => At(s, c, InSimulator) && s.shared.current[c] == None
    case TestQueue(c) => At(s, c, IdleEntry) || At(s, c, Woken)
    case SpuriousWakeup(c) => At(s, c, Asleep)
    case ScheduleTake(c) => At(s, c, ScheduleEntry)
    case ScheduleInstall(c) => HasPoint(s, c) && s.points[c].Installing?
      && (s.points[c].next.Some? ==> s.points[c].next.value < |s.shared.states|)
    case CallPreempt(c) => At(s, c, InSimulator)
    case PreemptDetach(c) => At(s, c, PreemptEntry)
    case PreemptRequeue(c, wakes) => HasPoint(s, c) && s.points[c].Requeueing?
      && s.points[c].process < |s.shared.states| && SignalWakes(s, wakes)
    case CallYield(c) => At(s, c, InSimulator)
    case YieldSection(c) => At(s, c, YieldEntry) && CurrentNamed(s, c)
    case CallTerminate(c) => At(s, c, InSimulator)
    case TerminateSection(c) => At(s, c, TerminateEntry) && CurrentNamed(s, c)
  }

  predicate HasPoint(s: System, c: nat) {
    c < |s.points| == |s.shared.current|
  }

  predicate At(s: System, c: nat, point: Point) {
    HasPoint(s, c) && s.points[c] == point
  }

  predicate CurrentNamed(s: System, c: nat)
    requires HasPoint(s, c)
  {
    s.shared.current[c].Some? ==> s.shared.current[c].value < |s.shared.states|
  }

  function Go(s: System, c: nat, point: Point): System
    requires HasPoint(s, c)
  {
    s.(points := s.points[c := point])
  }

  /** A process joins the ready queue and the signal wakes `wakes`. */
  function Enqueue(s: System, p: nat, wakes: set<nat>): System
    requires p < |s.shared.states|
  {
    s.(shared := MakeReady(s.shared, p), points := Wake(s.points, wakes), enqueued := s.enqueued + [p])
  }

  function Apply(s: System, a: Action): System
    requires Enabled(s, a)
  {
    match a
    case WakeUp(p, wakes) => Enqueue(s, p, wakes)
    case CallIdle(c) => Go(s, c, IdleEntry)
    case TestQueue(c) => Go(s, c, if s.shared.queue == [] then Asleep else ScheduleEntry)
    case SpuriousWakeup(c) => Go(s, c, Woken)
    case ScheduleTake(c) =>
      var (shared, next) := TakeNext(s.shared);
      var s1 := Go(s, c, Installing(next)).(shared := shared);
      if next.Some? then s1.(dequeued := s.dequeued + [next.value]) else s1
    case ScheduleInstall(c) =>
      Go(s, c, InSimulator).(shared := Install(s.shared, c, s.points[c].next))
    case CallPreempt(c) => Go(s, c, PreemptEntry)
    case PreemptDetach(c) =>
      var (shared, process) := Detach(s.shared, c);
      Go(s, c, if process.Some? then Requeueing(process.value) else ScheduleEntry).(shared := shared)
    case PreemptRequeue(c, wakes) => Go(Enqueue(s, s.points[c].process, wakes), c, ScheduleEntry)
    case CallYield(c) => Go(s, c, YieldEntry)
    case YieldSection(c) => Go(s, c, ScheduleEntry).(shared := Leave(s.shared, c, Waiting))
    case CallTerminate(c) => Go(s, c, TerminateEntry)
    case TerminateSection(c) => Go(s, c, ScheduleEntry).(shared := Leave(s.shared, c, Terminated))
  }

  function Boot(procs: nat, cpus: nat): System {
    System(Shared(seq(procs, _ => New), [], seq(cpus, _ => None)), seq(cpus, _ => InSimulator), [], [])
  }

  /** A run is any interleaving of enabled steps from the initial state. */
  ghost predicate IsRun(procs: nat, cpus: nat, run: seq<System>) {
    && run != [] && run[0] == Boot(procs, cpus)
    && forall i | 0 <= i < |run| - 1 :: Follows(run[i], run[i + 1])
  }

  ghost predicate Follows(s: System, s': System) {
    exists a :: Enabled(s, a) && s' == Apply(s, a)
  }
}
