/** The scheduler's data as it is: PCBs threaded by their own `next` field into the ready
    queue, and the array `current`. Each method is the body of one critical section and is
    proved to do what SchedulerModel.dfy says of it. */
module SchedulerMachine {
  import opened Basics
  import opened SchedulerModel

  class Pcb {
    const pid: nat
    var state: ProcState
    var next: Pcb?

    constructor (pid: nat)
      ensures this.pid == pid && state == New && next == null
    {
      this.pid, state, next := pid, New, null;
    }
  }

  /** `ready_head` and `ready_tail` with the PCBs between them. */
  class ReadyQueue {
    var head: Pcb?
    var tail: Pcb?
    ghost var members: seq<Pcb>

    ghost predicate Valid()
      reads this, members
    {
      && (members == [] ==> head == null && tail == null)
      && (members != [] ==> head == members[0] && tail == members[|members| - 1])
      && (members != [] ==> members[|members| - 1].next == null)
      && (forall i, j | 0 <= i < j == i + 1 < |members| :: members[i].next == members[j])
      && (forall i, j | 0 <= i < j < |members| :: members[i] != members[j])
    }

    constructor ()
      ensures Valid() && members == []
    {
      head, tail, members := null, null, [];
    }

    /** `enqueue_process`: a PCB already in the queue would be linked into a cycle. */
    method Enqueue(process: Pcb)
      requires Valid() && process !in members
      modifies this, process`next, members`next
      ensures Valid() && members == old(members) + [process]
    {
      process.next := null;
      if tail == null {
        head := process;
        tail := process;
      } else {
        tail.next := process;
        tail := process;
      }
      members := members + [process];
    }

    /** `dequeue_process` */
    method Dequeue() returns (process: Pcb?)
      requires Valid()
      modifies this, members`next
      ensures Valid()
      ensures old(members) == [] ==> process == null && members == []
      ensures old(members) != [] ==> process == old(members)[0] && members == old(members)[1..] && process.next == null
    {
      process := head;
      if process == null {
        return;
      }
      head := process.next;
      if head == null {
        tail := null;
      }
      process.next := null;
      members := members[1..];
    }
  }

  class Scheduler {
    const processes: seq<Pcb>
    const ready: ReadyQueue
    const current: array<Pcb?>

    ghost predicate Valid()
      reads this, ready, ready.members, current
    {
      && ready.Valid()
      && (forall i | 0 <= i < |processes| :: processes[i].pid == i)
      && (forall p | p in ready.members :: IsProcess(p))
      && (forall c | 0 <= c < current.Length && current[c] != null :: IsProcess(current[c]))
    }

    ghost predicate IsProcess(p: Pcb) {
      p.pid < |processes| && processes[p.pid] == p
    }

    ghost function Name(p: Pcb?): Option<nat> {
      if p == null then None else Some(p.pid)
    }

    /** The protocol's view of the data. */
    ghost function View(): Shared
      reads this, processes, ready, ready.members, current
    {
      Shared(
        seq(|processes|, i requires 0 <= i < |processes| reads processes => processes[i].state),
        seq(|ready.members|, i requires 0 <= i < |ready.members| reads ready => ready.members[i].pid),
        seq(current.Length, i requires 0 <= i < current.Length reads current => Name(current[i])))
    }

    lemma StatesAfter(was: seq<ProcState>, p: Pcb)
      requires Valid() && IsProcess(p) && |was| == |processes|
      requires forall i | 0 <= i < |processes| && processes[i] != p :: processes[i].state == was[i]
      ensures View().states == was[p.pid := p.state]
    {
    }

    /** The initialisation in `main`; `processes` is the table of the simulator. */
    constructor (processes: seq<Pcb>, cpus: nat)
      requires forall i | 0 <= i < |processes| :: processes[i].pid == i && processes[i].state == New
      ensures Valid() && View() == Boot(|processes|, cpus).shared
      ensures fresh(ready) && fresh(current) && this.processes == processes
    {
      this.processes := processes;
      ready := new ReadyQueue();
      current := new Pcb?[cpus](_ => null);
    }

    /** The section of `wake_up` and the last one of `preempt`. */
    method ReadySection(process: Pcb)
      requires Valid() && IsProcess(process) && process !in ready.members
      modifies process, ready, ready.members`next
      ensures Valid() && View() == MakeReady(old(View()), process.pid)
    {
      ghost var was := View();
      process.state := Ready;
      StatesAfter(was.states, process);
      assert View().states == was.states[process.pid := Ready];
      ready.Enqueue(process);
      assert View().states == was.states[process.pid := Ready];
      assert View().queue == was.queue + [process.pid];
      assert View().current == was.current;
    }

    /** The first section of `schedule`. */
    method TakeSection() returns (next: Pcb?)
      requires Valid()
      modifies ready, ready.members`next
      ensures Valid() && (View(), Name(next)) == TakeNext(old(View()))
      ensures next != null ==> IsProcess(next) && next !in ready.members
    {
      ghost var was := View();
      next := ready.Dequeue();
      assert View().queue == TakeNext(was).0.queue;
      assert View().states == was.states && View().current == was.current;
    }

    /** The second section of `schedule`. */
    method InstallSection(cpu: nat, next: Pcb?)
      requires Valid() && cpu < current.Length && (next != null ==> IsProcess(next))
      modifies current, if next == null then {} else {next}
      ensures Valid() && View() == Install(old(View()), cpu, Name(next))
    {
      ghost var was := View();
      current[cpu] := next;
      if next != null {
        next.state := Running;
        StatesAfter(was.states, next);
      }
      assert View().current == was.current[cpu := Name(next)];
    }

    /** The first section of `preempt`. */
    method DetachSection(cpu: nat) returns (process: Pcb?)
      requires Valid() && cpu < current.Length
      modifies current
      ensures Valid() && (View(), Name(process)) == Detach(old(View()), cpu)
      ensures process != null ==> IsProcess(process)
    {
      ghost var was := View();
      process := current[cpu];
      current[cpu] := null;
      assert View().current == was.current[cpu := None];
      assert View().states == was.states && View().queue == was.queue;
    }

    /** The section of `yield` and of `terminate`. */
    method LeaveSection(cpu: nat, state: ProcState)
      requires Valid() && cpu < current.Length
      modifies current, if current[cpu] == null then {} else {current[cpu]}
      ensures Valid() && View() == Leave(old(View()), cpu, state)
      ensures current[cpu] == null && (old(current[cpu]) != null ==> old(current[cpu]).state == state)
    {
      ghost var was := View();
      var process := current[cpu];
      if process != null {
        process.state := state;
        StatesAfter(was.states, process);
        current[cpu] := null;
      }
    }

    /** The section of `yield`. */
    method YieldSection(cpu: nat)
      requires Valid() && cpu < current.Length
      modifies current, if current[cpu] == null then {} else {current[cpu]}
      ensures Valid() && View() == Leave(old(View()), cpu, Waiting)
      ensures current[cpu] == null && (old(current[cpu]) != null ==> old(current[cpu]).state == Waiting)
    {
      LeaveSection(cpu, Waiting);
    }

    /** The section of `terminate`. */
    method TerminateSection(cpu: nat)
      requires Valid() && cpu < current.Length
      modifies current, if current[cpu] == null then {} else {current[cpu]}
      ensures Valid() && View() == Leave(old(View()), cpu, Terminated)
      ensures current[cpu] == null && (old(current[cpu]) != null ==> old(current[cpu]).state == Terminated)
    {
      LeaveSection(cpu, Terminated);
    }

    /** The test of the loop in `idle`. */
    method QueueIsEmpty() returns (empty: bool)
      requires Valid()
      ensures empty <==> View().queue == []
    {
      empty := ready.head == null;
    }
  }
}
