/** The worker pool of networking/epoll_example/server.c as a step system: one producer
    and any number of workers, interleaved at every call on the mutex, the semaphore and
    the queue. */
module WorkerPool {
  import opened Posix
  import opened Sums

  /** A queued descriptor. The same descriptor may be queued many times; the ticket, which
      the program does not have, tells the entries apart. */
  datatype Job = Job(ticket: nat, fd: int)

  datatype Owner = Free | Producer | Worker(id: nat)

  /** Where a worker stands in `process_request`. `woken` holds from the return of `sem_wait`
      until the worker has tested the size and, if there is a job, taken it. */
  datatype WorkerPc =
    | AtLock(woken: bool)
    | AtTest(woken: bool)
    | AtUnlockEmpty
    | AtSemWait
    | AtPop(woken: bool)
    | AtUnlock(job: Job)
    | AtProcess(job: Job)
  {
    /** The worker is between `pthread_mutex_lock` and `pthread_mutex_unlock`. */
    predicate Critical() {
      AtTest? || AtUnlockEmpty? || AtPop? || AtUnlock?
    }

    predicate Holds() {
      AtUnlock? || AtProcess?
    }
  }

  datatype ProducerPc = AtEpollWait | AtAdd | AtPost | AtRelease

  datatype Handover = Handover(worker: nat, job: Job)

  /** The program's shared state and program counters, then the history: the jobs added,
      the jobs popped and by whom, the jobs processed, and the number of posts that were
      refused while more jobs were queued than tokens and woken workers account for. */
  datatype State = State(
    queue: seq<Job>, sem: nat, owner: Owner, producer: ProducerPc, workers: seq<WorkerPc>,
    added: seq<Job>, handed: seq<Handover>, processed: multiset<Handover>, uncounted: nat)

  datatype Action =
    | Work(worker: nat)                 // one step of a worker
    | Arrive                            // the producer takes the mutex
    | Enqueue(fd: int, memory: bool)    // queue_add of a ready descriptor; the allocation may fail
    | Post
    | Release

  function Init(n: nat): State {
    State([], 0, Free, AtEpollWait, seq(n, _ => AtLock(false)), [], [], multiset{}, 0)
  }

  // ----- steps

  predicate WorkerEnabled(s: State, i: nat) {
    i < |s.workers|
    && (s.workers[i].AtLock? ==> s.owner == Free)
    && (s.workers[i].AtSemWait? ==> s.sem > 0)
  }

  predicate Enabled(s: State, a: Action) {
    match a
    case Work(i) => WorkerEnabled(s, i)
    case Arrive => s.producer == AtEpollWait && s.owner == Free
    case Enqueue(_, _) => s.producer.AtAdd?
    case Post => s.producer == AtPost
    case Release => s.producer == AtRelease
  }

  function WorkerStep(s: State, i: nat): State
    requires WorkerEnabled(s, i)
  {
    match s.workers[i]
    case AtLock(woken) =>
      s.(owner := Worker(i), workers := s.workers[i := AtTest(woken)])
    case AtTest(woken) =>
      s.(workers := s.workers[i := if s.queue == [] then AtUnlockEmpty else AtPop(woken)])
    case AtUnlockEmpty =>
      s.(owner := Free, workers := s.workers[i := AtSemWait])
    case AtSemWait =>
      s.(sem := s.sem - 1, workers := s.workers[i := AtLock(true)])
    case AtPop(_) =>
      if s.queue == [] then  // queue_pop answers -1, which the worker takes for a descriptor
        s.(workers := s.workers[i := AtUnlock(Job(|s.added|, -1))])
      else
        s.(queue := s.queue[1..], workers := s.workers[i := AtUnlock(s.queue[0])],
           handed := s.handed + [Handover(i, s.queue[0])])
    case AtUnlock(job) =>
      s.(owner := Free, workers := s.workers[i := AtProcess(job)])
    case AtProcess(job) =>
      s.(workers := s.workers[i := AtLock(false)],
         processed := s.processed + multiset{Handover(i, job)})
  }

  /** The post is refused, and its job has neither a token nor a woken worker. */
  predicate PostMissed(s: State) {
    s.sem >= SEM_VALUE_MAX && |s.queue| > s.sem + Sum(s.workers, Woken)
  }

  function Apply(s: State, a: Action): State
    requires Enabled(s, a)
  {
    match a
    case Work(i) => WorkerStep(s, i)
    case Arrive => s.(owner := Producer, producer := AtAdd)
    case Enqueue(fd, memory) =>
      if memory then
        var job := Job(|s.added|, fd);
        s.(queue := s.queue + [job], added := s.added + [job], producer := AtPost)
      else
        s.(producer := AtPost)
    case Post =>
      s.(sem := SemPost(s.sem), producer := AtRelease,
         uncounted := s.uncounted + if PostMissed(s) then 1 else 0)
    case Release => s.(owner := Free, producer := AtEpollWait)
  }

  // ----- runs

  predicate Runnable(s: State, run: seq<Action>)
    decreases |run|
  {
    run == [] || (Enabled(s, run[0]) && Runnable(Apply(s, run[0]), run[1..]))
  }

  function After(s: State, run: seq<Action>): State
    requires Runnable(s, run)
    decreases |run|
  {
    if run == [] then s else After(Apply(s, run[0]), run[1..])
  }

  /** `s` is reached by some interleaving of the producer and `n` workers. */
  ghost predicate Reachable(n: nat, s: State) {
    exists run :: Runnable(Init(n), run) && After(Init(n), run) == s
  }

  // ----- what every step keeps

  ghost predicate MutexInv(s: State) {
    && (s.owner == Producer <==> s.producer != AtEpollWait)
    && (s.owner.Worker? ==> s.owner.id < |s.workers|)
    && (forall i {:trigger s.workers[i]} :: 0 <= i < |s.workers| ==>
          (s.owner == Worker(i) <==> s.workers[i].Critical()))
  }

  /** A worker pops only when there is a job: `queue_pop` never answers -1. */
  ghost predicate PopInv(s: State) {
    forall i :: 0 <= i < |s.workers| && s.workers[i].AtPop? ==> s.queue != []
  }

  function Woken(pc: WorkerPc): nat {
    if pc.AtLock? || pc.AtTest? || pc.AtPop? then if pc.woken then 1 else 0 else 0
  }

  function Pending(pc: ProducerPc): nat {
    if pc == AtPost then 1 else 0
  }

  /** Every queued job has its own token, post to come, or woken worker. */
  ghost predicate WakeupInv(s: State) {
    |s.queue| <= s.sem + Pending(s.producer) + Sum(s.workers, Woken) + s.uncounted
  }

  /** The worker will test the queue before it parks. */
  predicate Awake(pc: WorkerPc) { !pc.AtUnlockEmpty? && !pc.AtSemWait? }

  /** With jobs queued, no token and no post to come, some worker will still test the queue. */
  ghost predicate AwakeInv(s: State) {
    s.queue != [] && s.sem == 0 && s.producer != AtPost ==>
      exists i :: 0 <= i < |s.workers| && Awake(s.workers[i])
  }

  function Jobs(hs: seq<Handover>): (r: seq<Job>)
    ensures |r| == |hs| && forall i :: 0 <= i < |hs| ==> r[i] == hs[i].job
  {
    seq(|hs|, i requires 0 <= i < |hs| => hs[i].job)
  }

  /** First in, first out: what was popped, then what is queued, is what was added. */
  ghost predicate FifoInv(s: State) {
    && Jobs(s.handed) + s.queue == s.added
    && forall k :: 0 <= k < |s.added| ==> s.added[k].ticket == k
  }

  /** How often hand-over `h` is in a worker's hands: popped, and not yet processed. */
  function InHand(ws: seq<WorkerPc>, h: Handover): nat {
    if h.worker < |ws| && ws[h.worker].Holds() && ws[h.worker].job == h.job then 1 else 0
  }

  /** Every popped job is either processed or in the hands of the worker that popped it. */
  ghost predicate CustodyInv(s: State) {
    forall h :: multiset(s.handed)[h] == s.processed[h] + InHand(s.workers, h)
  }

  ghost predicate Inv(s: State) {
    MutexInv(s) && PopInv(s) && WakeupInv(s) && AwakeInv(s) && FifoInv(s) && CustodyInv(s)
  }

  lemma {:induction false} InitWoken(n: nat)
    ensures Sum(seq(n, _ => AtLock(false)), Woken) == 0
  {
    SumZero(seq(n, _ => AtLock(false)), Woken);
  }

  lemma InitInv(n: nat)
    ensures Inv(Init(n))
  {
  }

  lemma WorkerStepMutex(s: State, i: nat)
    requires MutexInv(s) && PopInv(s) && WorkerEnabled(s, i)
    ensures MutexInv(WorkerStep(s, i)) && PopInv(WorkerStep(s, i))
  {
  }

  lemma WorkerStepWakeup(s: State, i: nat)
    requires PopInv(s) && WakeupInv(s) && WorkerEnabled(s, i)
    ensures WakeupInv(WorkerStep(s, i))
  {
    SumUpdate(s.workers, i, WorkerStep(s, i).workers[i], Woken);
  }

  /** A refused post leaves a token, a token taken wakes a worker, and no worker parks before it has
      seen an empty queue. */
  lemma AwakeKept(s: State, a: Action)
    requires AwakeInv(s) && Enabled(s, a)
    ensures AwakeInv(Apply(s, a))
  {
    var s' := Apply(s, a);
    if s'.queue != [] && s'.sem == 0 && s'.producer != AtPost {
      if a.Work? && Awake(s'.workers[a.worker]) {
      } else {
        var i :| 0 <= i < |s.workers| && Awake(s.workers[i]);
        assert s'.workers[i] == s.workers[i];
      }
    }
  }

  lemma WorkerStepFifo(s: State, i: nat)
    requires PopInv(s) && FifoInv(s) && WorkerEnabled(s, i)
    ensures FifoInv(WorkerStep(s, i))
  {
    if s.workers[i].AtPop? {
      assert Jobs(WorkerStep(s, i).handed) == Jobs(s.handed) + [s.queue[0]];
      assert s.queue == [s.queue[0]] + s.queue[1..];
    }
  }

  lemma PopCustody(s: State, i: nat)
    requires PopInv(s) && CustodyInv(s) && WorkerEnabled(s, i) && s.workers[i].AtPop?
    ensures CustodyInv(WorkerStep(s, i))
  {
    assert multiset(s.handed + [Handover(i, s.queue[0])]) ==
           multiset(s.handed) + multiset{Handover(i, s.queue[0])};
  }

  lemma ProcessCustody(s: State, i: nat)
    requires CustodyInv(s) && WorkerEnabled(s, i) && s.workers[i].AtProcess?
    ensures CustodyInv(WorkerStep(s, i))
  {
  }

  lemma WorkerStepCustody(s: State, i: nat)
    requires PopInv(s) && CustodyInv(s) && WorkerEnabled(s, i)
    ensures CustodyInv(WorkerStep(s, i))
  {
    if s.workers[i].AtPop? {
      PopCustody(s, i);
    } else if s.workers[i].AtProcess? {
      ProcessCustody(s, i);
    } else {
      assert forall h :: InHand(WorkerStep(s, i).workers, h) == InHand(s.workers, h);
    }
  }

  lemma WorkerStepInv(s: State, i: nat)
    requires Inv(s) && WorkerEnabled(s, i)
    ensures Inv(WorkerStep(s, i))
  {
    WorkerStepMutex(s, i);
    WorkerStepWakeup(s, i);
    AwakeKept(s, Work(i));
    WorkerStepFifo(s, i);
    WorkerStepCustody(s, i);
  }

  lemma StepInv(s: State, a: Action)
    requires Inv(s) && Enabled(s, a)
    ensures Inv(Apply(s, a))
  {
    AwakeKept(s, a);
    if a.Work? {
      WorkerStepInv(s, a.worker);
    } else if a.Enqueue? && a.memory {
      var s' := Apply(s, a);
      assert Jobs(s'.handed) + s'.queue == (Jobs(s.handed) + s.queue) + [s'.added[|s.added|]];
    }
  }

  lemma {:induction false} RunInv(s: State, run: seq<Action>)
    requires Inv(s) && Runnable(s, run)
    ensures Inv(After(s, run))
    decreases |run|
  {
    if run != [] {
      StepInv(s, run[0]);
      RunInv(Apply(s, run[0]), run[1..]);
    }
  }

  lemma ReachableInv(n: nat, s: State)
    requires Reachable(n, s)
    ensures Inv(s)
  {
    var run :| Runnable(Init(n), run) && After(Init(n), run) == s;
    InitInv(n);
    RunInv(Init(n), run);
  }

  // ----- what holds in every reachable state

  /** At most one thread is between the lock and the unlock of the mutex. */
  lemma MutualExclusion(n: nat, s: State, i: nat, j: nat)
    requires Reachable(n, s) && i < |s.workers| && j < |s.workers|
    requires s.workers[i].Critical()
    ensures s.producer == AtEpollWait && (s.workers[j].Critical() ==> i == j)
    ensures s.workers[i].AtPop? ==> s.queue != []
  {
    ReachableInv(n, s);
  }

  /** No lost wake-up, counted: a queue longer than the tokens at hand and to come means
      as many workers on their way to re-test it. */
  lemma NoLostWakeup(n: nat, s: State)
    requires Reachable(n, s)
    ensures |s.queue| <= s.sem + Pending(s.producer) + Sum(s.workers, Woken) + s.uncounted
  {
    ReachableInv(n, s);
  }

  /** The pool never sleeps on a job: with no token and no post to come, some worker will test the
      queue before it parks; one that was woken for it, if every job was counted. */
  lemma NoSleepOnJobs(n: nat, s: State) returns (i: nat)
    requires Reachable(n, s)
    requires s.queue != [] && s.sem == 0 && s.producer != AtPost
    ensures i < |s.workers| && Awake(s.workers[i])
    ensures s.uncounted == 0 ==> Woken(s.workers[i]) == 1
  {
    ReachableInv(n, s);
    if s.uncounted == 0 {
      i := SumPositive(s.workers, Woken);
    } else {
      i :| 0 <= i < |s.workers| && Awake(s.workers[i]);
    }
  }

  /** Every queued job has its own token, post to come, or woken worker. */
  ghost predicate BareCount(s: State) {
    |s.queue| <= s.sem + Pending(s.producer) + Sum(s.workers, Woken)
  }

  ghost predicate CountHoldsThroughout(s: State, run: seq<Action>)
    requires Runnable(s, run)
    decreases |run|
  {
    BareCount(s) && (run != [] ==> CountHoldsThroughout(Apply(s, run[0]), run[1..]))
  }

  ghost predicate NoPostMissed(s: State, run: seq<Action>)
    requires Runnable(s, run)
    decreases |run|
  {
    run != [] ==> !(run[0] == Post && PostMissed(s)) && NoPostMissed(Apply(s, run[0]), run[1..])
  }

  lemma BareCountStep(s: State, a: Action)
    requires Inv(s) && BareCount(s) && Enabled(s, a)
    ensures BareCount(Apply(s, a)) <==> !(a == Post && PostMissed(s))
  {
    if a.Work? {
      SumUpdate(s.workers, a.worker, WorkerStep(s, a.worker).workers[a.worker], Woken);
    }
  }

  lemma {:induction false} BareCountRun(s: State, run: seq<Action>)
    requires Inv(s) && BareCount(s) && Runnable(s, run)
    ensures CountHoldsThroughout(s, run) <==> NoPostMissed(s, run)
    decreases |run|
  {
    if run != [] {
      StepInv(s, run[0]);
      BareCountStep(s, run[0]);
      if BareCount(Apply(s, run[0])) {
        BareCountRun(Apply(s, run[0]), run[1..]);
      }
    }
  }

  lemma {:induction false} MissedAreUncounted(s: State, run: seq<Action>)
    requires Runnable(s, run)
    ensures After(s, run).uncounted >= s.uncounted
    ensures After(s, run).uncounted == s.uncounted <==> NoPostMissed(s, run)
    decreases |run|
  {
    if run != [] {
      MissedAreUncounted(Apply(s, run[0]), run[1..]);
    }
  }

  /** The count alone holds in every state of a run exactly when no post of the run is refused while
      the queue is longer than the tokens and the woken workers account for. */
  lemma BareCountIff(n: nat, run: seq<Action>)
    requires Runnable(Init(n), run)
    ensures CountHoldsThroughout(Init(n), run) <==> NoPostMissed(Init(n), run)
    ensures CountHoldsThroughout(Init(n), run) <==> After(Init(n), run).uncounted == 0
  {
    InitInv(n);
    InitWoken(n);
    BareCountRun(Init(n), run);
    MissedAreUncounted(Init(n), run);
  }

  /** No job goes uncounted in a run whose queue never outgrows the semaphore. */
  lemma {:induction false} AllCounted(s: State, run: seq<Action>)
    requires Runnable(s, run)
    requires forall k :: 0 <= k <= |run| && Runnable(s, run[..k]) ==> |After(s, run[..k]).queue| <= SEM_VALUE_MAX
    ensures After(s, run).uncounted == s.uncounted
    decreases |run|
  {
    if run != [] {
      var s' := Apply(s, run[0]);
      assert run[..0] == [];
      assert |After(s, run[..0]).queue| <= SEM_VALUE_MAX;
      forall k | 0 <= k <= |run[1..]| && Runnable(s', run[1..][..k])
        ensures |After(s', run[1..][..k]).queue| <= SEM_VALUE_MAX
      {
        assert run[..k + 1][1..] == run[1..][..k];
      }
      AllCounted(s', run[1..]);
    }
  }

  lemma ReachableStep(n: nat, s: State, a: Action) returns (s': State)
    requires Reachable(n, s) && Enabled(s, a)
    ensures s' == Apply(s, a) && Reachable(n, s')
  {
    s' := Apply(s, a);
    assert Runnable(s', []) && After(s', []) == s';
    assert [a][1..] == [];
    assert Runnable(s, [a]) && After(s, [a]) == s';
    ReachableAfter(n, s, [a]);
  }

  /** A ready descriptor is queued before any worker runs. */
  lemma OneMoreQueued(n: nat, s: State, fd: int) returns (s': State)
    requires Reachable(n, s) && s.owner == Free && s.producer == AtEpollWait
    ensures Reachable(n, s') && s'.owner == Free && s'.producer == AtEpollWait
    ensures s'.workers == s.workers && |s'.queue| == |s.queue| + 1 && s'.sem == SemPost(s.sem)
  {
    s' := ReachableStep(n, s, Arrive);
    s' := ReachableStep(n, s', Enqueue(fd, true));
    s' := ReachableStep(n, s', Post);
    s' := ReachableStep(n, s', Release);
  }

  /** `k` descriptors are queued before any worker runs. */
  lemma {:induction false} ManyQueued(n: nat, k: nat, fd: int) returns (s: State)
    ensures Reachable(n, s) && s.owner == Free && s.producer == AtEpollWait
    ensures s.workers == Init(n).workers && |s.queue| == k
    ensures s.sem == if k < SEM_VALUE_MAX then k else SEM_VALUE_MAX
  {
    if k == 0 {
      s := Init(n);
      assert Runnable(Init(n), []) && After(Init(n), []) == s;
    } else {
      s := ManyQueued(n, k - 1, fd);
      s := OneMoreQueued(n, s, fd);
    }
  }

  /** The bare count of the jobs fails once there are more of them than a semaphore can count: a
      refused post leaves a job without a token. */
  lemma BareCountFails(n: nat, fd: int) returns (s: State)
    ensures Reachable(n, s) && |s.queue| == SEM_VALUE_MAX + 1
    ensures !BareCount(s)
  {
    s := ManyQueued(n, SEM_VALUE_MAX + 1, fd);
    InitWoken(n);
  }

  /** The descriptors that `queue_add` accepted, in order. */
  function Accepted(run: seq<Action>): seq<int> {
    if run == [] then []
    else
      (if run[0].Enqueue? && run[0].memory then [run[0].fd] else []) + Accepted(run[1..])
  }

  function Fds(js: seq<Job>): (r: seq<int>)
    ensures |r| == |js| && forall i :: 0 <= i < |js| ==> r[i] == js[i].fd
  {
    seq(|js|, i requires 0 <= i < |js| => js[i].fd)
  }

  lemma {:induction false} AddedByRun(s: State, run: seq<Action>)
    requires Runnable(s, run)
    ensures Fds(After(s, run).added) == Fds(s.added) + Accepted(run)
    decreases |run|
  {
    if run != [] {
      var s' := Apply(s, run[0]);
      AddedByRun(s', run[1..]);
      assert Fds(s'.added) == Fds(s.added) +
               if run[0].Enqueue? && run[0].memory then [run[0].fd] else [];
    }
  }

  /** First in, first out over every interleaving: the popped descriptors, then the queued
      ones, are the accepted ones in order. */
  lemma HandOverInOrder(n: nat, run: seq<Action>)
    requires Runnable(Init(n), run)
    ensures var s := After(Init(n), run);
            Fds(Jobs(s.handed)) + Fds(s.queue) == Accepted(run)
  {
    var s := After(Init(n), run);
    InitInv(n);
    RunInv(Init(n), run);
    AddedByRun(Init(n), run);
    assert Fds(Jobs(s.handed)) + Fds(s.queue) == Fds(Jobs(s.handed) + s.queue);
  }

  lemma {:induction false} DistinctOnce(hs: seq<Handover>, k: nat)
    requires k < |hs|
    requires forall i, j :: 0 <= i < j < |hs| ==> hs[i] != hs[j]
    ensures multiset(hs)[hs[k]] == 1
  {
    assert hs == hs[..k] + [hs[k]] + hs[k + 1..];
    assert hs[k] !in hs[..k] && hs[k] !in hs[k + 1..];
  }

  /** No loss and no duplication: each accepted job is queued, or was popped by exactly one
      worker, which either still holds it or has processed it once. */
  lemma EachJobOnce(n: nat, s: State, k: nat)
    requires Reachable(n, s) && k < |s.added|
    ensures |s.handed| + |s.queue| == |s.added|
    ensures k >= |s.handed| ==> s.queue[k - |s.handed|] == s.added[k]
    ensures k < |s.handed| ==> s.handed[k].job == s.added[k]
    ensures k < |s.handed| ==> s.processed[s.handed[k]] + InHand(s.workers, s.handed[k]) == 1
    ensures forall h :: h in s.processed && h.job.ticket == k ==> k < |s.handed| && h == s.handed[k]
    ensures forall h :: h in s.processed ==> h in s.handed && h.job.ticket < |s.added|
  {
    ReachableInv(n, s);
    var jobs := Jobs(s.handed);
    assert s.added == jobs + s.queue;
    forall i | 0 <= i < |s.handed| ensures s.handed[i].job == s.added[i] && s.handed[i].job.ticket == i {
      assert jobs[i] == s.added[i];
    }
    if k < |s.handed| {
      DistinctOnce(s.handed, k);
    }
    forall h | h in s.processed && h.job.ticket == k ensures k < |s.handed| && h == s.handed[k] {
      assert h in multiset(s.handed);
      assert h in s.handed;
    }
  }

  // ----- tokens

  function Enqueues(run: seq<Action>): nat {
    if run == [] then 0 else (if run[0].Enqueue? then 1 else 0) + Enqueues(run[1..])
  }

  /** The returns from `sem_wait`. */
  function Wakeups(s: State, run: seq<Action>): nat
    requires Runnable(s, run)
    decreases |run|
  {
    if run == [] then 0
    else
      (if run[0].Work? && s.workers[run[0].worker].AtSemWait? then 1 else 0) +
      Wakeups(Apply(s, run[0]), run[1..])
  }

  /** The posts at the largest value. */
  function RefusedPosts(s: State, run: seq<Action>): nat
    requires Runnable(s, run)
    decreases |run|
  {
    if run == [] then 0
    else (if run[0] == Post && s.sem >= 0x7FFF_FFFF then 1 else 0) + RefusedPosts(Apply(s, run[0]), run[1..])
  }

  /** Tokens are conserved: one is posted for every ready descriptor, also for one that could not be
      queued, and each is still there, was taken by one return from `sem_wait`, or was refused. */
  lemma {:induction false} TokensConserved(s: State, run: seq<Action>)
    requires Runnable(s, run)
    ensures After(s, run).sem + Wakeups(s, run) + RefusedPosts(s, run) + Pending(After(s, run).producer) ==
            s.sem + Pending(s.producer) + Enqueues(run)
    decreases |run|
  {
    if run != [] {
      TokensConserved(Apply(s, run[0]), run[1..]);
    }
  }

  // ----- draining

  /** How far a worker is from parking in `sem_wait` when it finds no job. */
  function Rank(pc: WorkerPc): nat {
    match pc
    case AtSemWait => 0
    case AtUnlockEmpty => 1
    case AtPop(_) => 1
    case AtTest(_) => 2
    case AtLock(_) => 3
    case AtProcess(_) => 4
    case AtUnlock(_) => 5
  }

  function Measure(s: State): nat {
    5 * (|s.queue| + s.sem) + Sum(s.workers, Rank)
  }

  lemma WorkerStepFalls(s: State, i: nat)
    requires Inv(s) && WorkerEnabled(s, i)
    ensures Measure(WorkerStep(s, i)) < Measure(s)
  {
    SumUpdate(s.workers, i, WorkerStep(s, i).workers[i], Rank);
  }

  predicate WorkersOnly(run: seq<Action>) {
    forall k :: 0 <= k < |run| ==> run[k].Work?
  }

  /** While the producer is quiet, no schedule of the workers runs longer than the measure. */
  lemma {:induction false} WorkersStop(s: State, run: seq<Action>)
    requires Inv(s) && Runnable(s, run) && WorkersOnly(run)
    ensures |run| + Measure(After(s, run)) <= Measure(s)
    ensures Measure(s) <= 5 * (|s.queue| + s.sem + |s.workers|)
    decreases |run|
  {
    SumBound(s.workers, Rank, 5);
    if run != [] {
      StepInv(s, run[0]);
      WorkerStepFalls(s, run[0].worker);
      WorkersStop(Apply(s, run[0]), run[1..]);
    }
  }

  /** Deadlock freedom: with the producer idle, no worker can step exactly when all of them are
      parked in `sem_wait` on a zero semaphore; the mutex is then free, and no job is left. */
  lemma QuietMeansDrained(n: nat, s: State)
    requires Reachable(n, s) && s.producer == AtEpollWait
    ensures (forall i :: !WorkerEnabled(s, i)) <==>
            (|s.workers| == 0 || s.sem == 0) && forall i :: 0 <= i < |s.workers| ==> s.workers[i] == AtSemWait
    ensures |s.workers| > 0 && (forall i :: !WorkerEnabled(s, i)) ==>
              s.owner == Free && s.sem == 0 && s.queue == []
  {
    ReachableInv(n, s);
    if (forall i :: !WorkerEnabled(s, i)) && |s.workers| > 0 {
      if s.owner.Worker? {
        assert WorkerEnabled(s, s.owner.id);
      }
      assert s.owner == Free;
      forall i | 0 <= i < |s.workers| ensures s.workers[i] == AtSemWait && s.sem == 0 {
        assert !WorkerEnabled(s, i);
      }
      assert s.workers[0] == AtSemWait;
    }
  }

  lemma {:induction false} AfterAppend(s: State, first: seq<Action>, second: seq<Action>)
    requires Runnable(s, first) && Runnable(After(s, first), second)
    ensures Runnable(s, first + second)
    ensures After(s, first + second) == After(After(s, first), second)
    decreases |first|
  {
    if first == [] {
      assert first + second == second;
    } else {
      assert (first + second)[1..] == first[1..] + second;
      AfterAppend(Apply(s, first[0]), first[1..], second);
    }
  }

  lemma ReachableAfter(n: nat, s: State, run: seq<Action>)
    requires Reachable(n, s) && Runnable(s, run)
    ensures Reachable(n, After(s, run))
  {
    var start :| Runnable(Init(n), start) && After(Init(n), start) == s;
    AfterAppend(Init(n), start, run);
  }

  /** Every accepted job has been popped and processed exactly once, in order of arrival. */
  ghost predicate AllProcessed(s: State) {
    && s.queue == []
    && Jobs(s.handed) == s.added
    && forall k :: 0 <= k < |s.handed| ==> s.processed[s.handed[k]] == 1
  }

  lemma QuietMeansProcessed(n: nat, s: State)
    requires Reachable(n, s) && s.producer == AtEpollWait && |s.workers| > 0
    requires forall i :: !WorkerEnabled(s, i)
    ensures AllProcessed(s)
  {
    QuietMeansDrained(n, s);
    ReachableInv(n, s);
    assert Jobs(s.handed) + s.queue == Jobs(s.handed);
    forall k | 0 <= k < |s.handed| ensures s.processed[s.handed[k]] == 1 {
      EachJobOnce(n, s, k);
    }
  }

  /** The pool drains: once the producer is quiet, any schedule of the workers ends within the
      measure, and when no worker can go on every accepted job has been processed exactly once. */
  lemma PoolDrains(n: nat, s: State, run: seq<Action>)
    requires Reachable(n, s) && s.producer == AtEpollWait && |s.workers| > 0
    requires Runnable(s, run) && WorkersOnly(run)
    ensures |run| <= 5 * (|s.queue| + s.sem + |s.workers|)
    ensures (exists i :: WorkerEnabled(After(s, run), i)) ||
            (AllProcessed(After(s, run)) && After(s, run).added == s.added)
  {
    ReachableInv(n, s);
    WorkersStop(s, run);
    WorkersKeep(s, run);
    ReachableAfter(n, s, run);
    if forall i :: !WorkerEnabled(After(s, run), i) {
      QuietMeansProcessed(n, After(s, run));
    }
  }

  lemma {:induction false} WorkersKeep(s: State, run: seq<Action>)
    requires Runnable(s, run) && WorkersOnly(run)
    ensures var e := After(s, run);
            e.producer == s.producer && e.uncounted == s.uncounted && e.added == s.added && |e.workers| == |s.workers|
    decreases |run|
  {
    if run != [] {
      WorkersKeep(Apply(s, run[0]), run[1..]);
    }
  }
}
