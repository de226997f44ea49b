/** The pool of networking/epoll_example/server.c as a program on the linked queue. Each method
    performs one interleaving step on the real queue, semaphore, mutex and program counters,
    and is proved to be the step of `WorkerPool`. */
module WorkerPoolProgram {
  import opened Posix
  import opened WorkerPool
  import LinkedQueue

  datatype Line = Lock | Test | UnlockEmpty | SemWait | PopJob | Unlock | Process

  datatype ProducerLine = EpollWait | QueueAdd | SemPostLine | UnlockLine

  ghost predicate AtLine(line: Line, fd: int, pc: WorkerPc) {
    match pc
    case AtLock(_) => line == Lock
    case AtTest(_) => line == Test
    case AtUnlockEmpty => line == UnlockEmpty
    case AtSemWait => line == SemWait
    case AtPop(_) => line == PopJob
    case AtUnlock(job) => line == Unlock && fd == job.fd
    case AtProcess(job) => line == Process && fd == job.fd
  }

  function LineOf(pc: ProducerPc): ProducerLine {
    match pc
    case AtEpollWait => EpollWait
    case AtAdd => QueueAdd
    case AtPost => SemPostLine
    case AtRelease => UnlockLine
  }

  class Pool {
    const q: LinkedQueue.Queue
    var sem: nat
    var locked: bool
    var producerLine: ProducerLine
    const lines: array<Line>      // where each worker stands
    const clientFds: array<int>   // each worker's local variable client_fd
    ghost var state: State

    ghost predicate Valid()
      reads this, q, q.nodes, lines, clientFds
    {
      && q.Valid() && q.Contents() == Fds(state.queue)
      && sem == state.sem
      && (locked <==> state.owner != Free)
      && producerLine == LineOf(state.producer)
      && lines.Length == clientFds.Length == |state.workers|
      && forall i :: 0 <= i < lines.Length ==> AtLine(lines[i], clientFds[i], state.workers[i])
    }

    constructor (nWorkers: nat)
      ensures Valid() && state == Init(nWorkers)
      ensures fresh(q) && fresh(q.nodes) && fresh(lines) && fresh(clientFds)
    {
      q := new LinkedQueue.Queue();
      sem, locked, producerLine := 0, false, EpollWait;
      lines := new Line[nWorkers](_ => Lock);
      clientFds := new int[nWorkers];
      state := Init(nWorkers);
    }

    /** Line 80: the worker pops a job. */
    method TakeJob(i: nat)
      requires Valid() && WorkerEnabled(state, i) && state.workers[i].AtPop?
      modifies this, q, q.nodes, lines, clientFds
      ensures Valid() && state == WorkerStep(old(state), i)
      ensures forall k :: 0 <= k < |q.nodes| ==> q.nodes[k] in old(q.nodes)
    {
      state := WorkerStep(state, i);
      var fd := q.Pop();
      clientFds[i] := fd;
      lines[i] := Unlock;
    }

    /** Lines 72, 75 and 81: the worker takes or gives back the mutex. */
    method MutexLine(i: nat)
      requires Valid() && WorkerEnabled(state, i)
      requires state.workers[i].AtLock? || state.workers[i].AtUnlockEmpty? || state.workers[i].AtUnlock?
      modifies this, lines
      ensures Valid() && state == WorkerStep(old(state), i)
    {
      state := WorkerStep(state, i);
      locked := lines[i] == Lock;
      match lines[i] {
        case Lock => lines[i] := Test;
        case UnlockEmpty => lines[i] := SemWait;
        case Unlock => lines[i] := Process;
      }
    }

    /** Lines 73, 76 and 84: the size test, the wait and the processing. */
    method OtherLine(i: nat)
      requires Valid() && WorkerEnabled(state, i)
      requires state.workers[i].AtTest? || state.workers[i].AtSemWait? || state.workers[i].AtProcess?
      modifies this, lines
      ensures Valid() && state == WorkerStep(old(state), i)
    {
      state := WorkerStep(state, i);
      match lines[i] {
        case Test =>
          lines[i] := if q.size == 0 then UnlockEmpty else PopJob;
        case SemWait =>
          sem, lines[i] := sem - 1, Lock;
        case Process =>
          lines[i] := Lock;
      }
    }

    /** What the worker's next line does. A worker at a held mutex or a zero semaphore blocks. */
    method WorkerLine(i: nat)
      requires Valid() && WorkerEnabled(state, i)
      modifies this, q, q.nodes, lines, clientFds
      ensures Valid() && state == WorkerStep(old(state), i)
      ensures forall k :: 0 <= k < |q.nodes| ==> q.nodes[k] in old(q.nodes)
    {
      if lines[i] == PopJob {
        TakeJob(i);
      } else if lines[i] in {Lock, UnlockEmpty, Unlock} {
        MutexLine(i);
      } else {
        OtherLine(i);
      }
    }

    /** Line 188: the producer queues a ready descriptor; the result is ignored. */
    method EnqueueFd(fd: int, memory: bool)
      requires Valid() && Enabled(state, Enqueue(fd, memory))
      modifies this, q, q.nodes
      ensures Valid() && state == Apply(old(state), Enqueue(fd, memory))
      ensures forall k :: 0 <= k < |q.nodes| ==> q.nodes[k] in old(q.nodes) || fresh(q.nodes[k])
    {
      ghost var added := Fds(state.queue);
      state := Apply(state, Enqueue(fd, memory));
      assert Fds(state.queue) == if memory then added + [fd] else added;
      var status := q.Add(fd, memory);
      producerLine := SemPostLine;
    }

    /** The other lines of the producer. */
    method ProducerStep(a: Action)
      requires Valid() && !a.Work? && !a.Enqueue? && Enabled(state, a)
      modifies this
      ensures Valid() && state == Apply(old(state), a)
    {
      state := Apply(state, a);
      match a {
        case Arrive =>
          locked, producerLine := true, QueueAdd;
        case Post =>
          sem, producerLine := SemPost(sem), UnlockLine;
        case Release =>
          locked, producerLine := false, EpollWait;
      }
    }

    /** Any schedule of the threads takes the program to where it takes the step system. */
    method Serve(schedule: seq<Action>)
      requires Valid() && Runnable(state, schedule)
      modifies this, q, q.nodes, lines, clientFds
      ensures Valid() && state == After(old(state), schedule)
    {
      for k := 0 to |schedule|
        invariant Valid()
        invariant Runnable(state, schedule[k..]) && After(state, schedule[k..]) == After(old(state), schedule)
        invariant forall j :: 0 <= j < |q.nodes| ==> q.nodes[j] in old(q.nodes) || fresh(q.nodes[j])
      {
        assert schedule[k..][1..] == schedule[k + 1..];
        if schedule[k].Work? {
          WorkerLine(schedule[k].worker);
        } else if schedule[k].Enqueue? {
          EnqueueFd(schedule[k].fd, schedule[k].memory);
        } else {
          ProducerStep(schedule[k]);
        }
      }
    }
  }

  /** A whole run of the program: whatever the schedule, the descriptors handed to workers and
      those left in the linked queue are the accepted ones in order, and a job waits only
      where a token, a post to come or a woken worker waits with it. */
  method RunServer(nWorkers: nat, schedule: seq<Action>) returns (pool: Pool)
    requires Runnable(Init(nWorkers), schedule)
    ensures pool.Valid() && Inv(pool.state)
    ensures Fds(Jobs(pool.state.handed)) + pool.q.Contents() == Accepted(schedule)
  {
    pool := new Pool(nWorkers);
    pool.Serve(schedule);
    HandOverInOrder(nWorkers, schedule);
    InitInv(nWorkers);
    RunInv(Init(nWorkers), schedule);
  }
}
