/** The receiver and manager threads of networking/threaded_chat_server_with_channels/server.c as
    a step system: one manager, and as many receivers as clients are accepted. */
module ChannelProtocol {
  import opened Posix
  import opened ChannelMessages
  import opened ChannelRegistry
  import Text

  datatype Event = Event(conn: nat, channel: int, text: string)

  datatype Owner = Free | Manager | Receiver(id: nat)

  /** Where a receiver stands in `receiver_process`. */
  datatype ReceiverPc =
    | AtRecv
    | AtLock(buf: string)
    | AtAdd(buf: string)
    | AtPost
    | AtUnlock
    | AtFailUnlock
    | Stopped
  {
    predicate Critical() { AtAdd? || AtPost? || AtUnlock? || AtFailUnlock? }

    /** The connection has not been closed. */
    predicate Open() { !AtFailUnlock? && !Stopped? }
  }

  /** A client's connection and the thread that serves it. */
  datatype Client = Client(sock: int, channels: seq<int>, pc: ReceiverPc)

  datatype ManagerPc = AtSemWait | AtManagerLock | AtPeek | AtManagerUnlock(idx: nat) | AtHandle(idx: nat)

  /** One message sent: for which event of the log, and to which client. */
  datatype Sent = Sent(event: nat, to: nat)

  /** The shared state and the program counters, then the history: the posts that raised the
      semaphore, those refused at its limit, the completed waits, the log positions that the
      manager peeked and those it has handled, and the messages sent. */
  datatype State = State(
    log: seq<Event>, sem: nat, owner: Owner, manager: ManagerPc, clients: seq<Client>, conns: seq<nat>,
    posts: nat, refused: nat, waits: nat, peeks: seq<nat>, handled: seq<nat>, sent: seq<Sent>)

  datatype Action =
    | Accept(sock: int)
    | Recv(r: nat, buf: string)
    | Hangup(r: nat)
    | Work(r: nat, beyond: string)   // the receiver's next line; `beyond` as in `Receive`
    | Manage                         // the manager's next line

  const INIT := State([], 0, Free, AtSemWait, [], [], 0, 0, 0, [], [], [])

  /** Every connection in the table and in the log is one that was created. */
  ghost predicate Linked(s: State) {
    && (forall i :: 0 <= i < |s.conns| ==> s.conns[i] < |s.clients|)
    && (forall i :: 0 <= i < |s.log| ==> s.log[i].conn < |s.clients|)
  }

  ghost function TableSocks(s: State): (r: seq<int>)
    requires Linked(s)
    ensures |r| == |s.conns|
  {
    seq(|s.conns|, i requires 0 <= i < |s.conns| => s.clients[s.conns[i]].sock)
  }

  ghost function Peers(s: State): (r: seq<Peer>)
    requires Linked(s)
    ensures |r| == |s.conns|
  {
    seq(|s.conns|, i requires 0 <= i < |s.conns| =>
      Peer(s.clients[s.conns[i]].sock, s.clients[s.conns[i]].channels))
  }

  /** A step that is not enabled blocks, or would read an event that does not exist. */
  ghost predicate Enabled(s: State, a: Action) {
    && Linked(s)
    && match a
       case Accept(sock) => sock !in TableSocks(s)   // the kernel hands out a free descriptor
       case Recv(r, buf) => r < |s.clients| && s.clients[r].pc.AtRecv? && |buf| < 1024
       case Hangup(r) => r < |s.clients| && s.clients[r].pc.AtRecv?
       case Work(r, _) =>
         && r < |s.clients|
         && match s.clients[r].pc {
              case AtLock(_) => s.owner == Free
              case AtRecv => false
              case Stopped => false
              case _ => true
            }
       case Manage =>
         match s.manager {
           case AtSemWait => s.sem > 0
           case AtManagerLock => s.owner == Free
           case AtPeek => s.log != []
           case AtManagerUnlock(_) => true
           case AtHandle(idx) => idx < |s.log|
         }
  }

  function SetPc(s: State, r: nat, pc: ReceiverPc): State
    requires r < |s.clients|
  {
    s.(clients := s.clients[r := s.clients[r].(pc := pc)])
  }

  /** The socket is closed and its connection leaves the table. */
  ghost function Drop(s: State, r: nat): seq<nat>
    requires Linked(s) && r < |s.clients|
  {
    Without(s.conns, TableSocks(s), s.clients[r].sock)
  }

  ghost function ReceiverStep(s: State, r: nat, beyond: string): State
    requires Enabled(s, Work(r, beyond))
  {
    match s.clients[r].pc
    case AtLock(buf) => SetPc(s, r, AtAdd(buf)).(owner := Receiver(r))
    case AtAdd(buf) =>
      var p := Receive(buf, beyond);
      if p.Parsed? then
        SetPc(s, r, AtPost).(log := s.log + [Event(r, p.channel, p.text)])
      else
        SetPc(s, r, AtFailUnlock).(conns := Drop(s, r))
    case AtPost =>
      SetPc(s, r, AtUnlock).(
        sem := SemPost(s.sem),
        posts := s.posts + if s.sem < SEM_VALUE_MAX then 1 else 0,
        refused := s.refused + if s.sem < SEM_VALUE_MAX then 0 else 1)
    case AtUnlock => SetPc(s, r, AtRecv).(owner := Free)
    case AtFailUnlock => SetPc(s, r, Stopped).(owner := Free)
  }

  /** What the manager sends for the event at `idx`, in table order. */
  ghost function FanOut(s: State, idx: nat): seq<Sent>
    requires Linked(s) && idx < |s.log|
  {
    var ev := s.log[idx];
    var t := Targets(Peers(s), s.clients[ev.conn].sock, ev.channel, |s.conns|);
    seq(|t|, i requires 0 <= i < |t| => Sent(idx, s.conns[t[i]]))
  }

  ghost function Handle(s: State, idx: nat): State
    requires Linked(s) && idx < |s.log|
  {
    var ev := s.log[idx];
    var c := s.clients[ev.conn];
    if IsRegistration(ev.text) then
      s.(manager := AtSemWait, handled := s.handled + [idx],
         clients := s.clients[ev.conn := c.(channels := c.channels + [ev.channel])])
    else
      s.(manager := AtSemWait, handled := s.handled + [idx], sent := s.sent + FanOut(s, idx))
  }

  ghost function ManagerStep(s: State): State
    requires Enabled(s, Manage)
  {
    match s.manager
    case AtSemWait => s.(sem := s.sem - 1, waits := s.waits + 1, manager := AtManagerLock)
    case AtManagerLock => s.(owner := Manager, manager := AtPeek)
    case AtPeek => s.(manager := AtManagerUnlock(|s.log| - 1), peeks := s.peeks + [|s.log| - 1])
    case AtManagerUnlock(idx) => s.(owner := Free, manager := AtHandle(idx))
    case AtHandle(idx) => Handle(s, idx)
  }

  ghost function Apply(s: State, a: Action): State
    requires Enabled(s, a)
  {
    match a
    case Accept(sock) =>
      s.(clients := s.clients + [Client(sock, [], AtRecv)], conns := s.conns + [|s.clients|])
    case Recv(r, buf) => SetPc(s, r, AtLock(buf))
    case Hangup(r) => SetPc(s, r, Stopped).(conns := Drop(s, r))
    case Work(r, beyond) => ReceiverStep(s, r, beyond)
    case Manage => ManagerStep(s)
  }

  ghost predicate Runnable(s: State, run: seq<Action>)
    decreases |run|
  {
    run == [] || (Enabled(s, run[0]) && Runnable(Apply(s, run[0]), run[1..]))
  }

  ghost function After(s: State, run: seq<Action>): State
    requires Runnable(s, run)
    decreases |run|
  {
    if run == [] then s else After(Apply(s, run[0]), run[1..])
  }

  ghost predicate Reachable(s: State) {
    exists run :: Runnable(INIT, run) && After(INIT, run) == s
  }

  // ----- what every step keeps

  ghost predicate MutexInv(s: State) {
    && (s.owner.Receiver? ==> s.owner.id < |s.clients|)
    && (forall r {:trigger s.clients[r]} :: 0 <= r < |s.clients| ==>
          (s.owner == Receiver(r) <==> s.clients[r].pc.Critical()))
    && (s.owner == Manager <==> s.manager.AtPeek? || s.manager.AtManagerUnlock?)
  }

  /** An event is in the log and its post is still to come. */
  function Pending(s: State): nat {
    if s.owner.Receiver? && s.owner.id < |s.clients| && s.clients[s.owner.id].pc.AtPost? then 1 else 0
  }

  /** The manager has taken a token and not yet looked at the log. */
  predicate InWindow(pc: ManagerPc) { pc.AtManagerLock? || pc.AtPeek? }

  ghost predicate CountInv(s: State) {
    && s.sem + s.waits == s.posts
    && s.posts + s.refused + Pending(s) == |s.log|
    && s.waits == |s.peeks| + if InWindow(s.manager) then 1 else 0
  }

  ghost predicate PeekInv(s: State) {
    && (forall k :: 0 <= k < |s.peeks| ==> k <= s.peeks[k] < |s.log|)
    && (forall i, j :: 0 <= i < j < |s.peeks| ==> s.peeks[i] <= s.peeks[j])
    && s.peeks == s.handled + if s.manager.AtManagerUnlock? || s.manager.AtHandle? then [s.manager.idx] else []
  }

  ghost predicate FreshInv(s: State) {
    s.sem == 0 && Pending(s) == 0 && !InWindow(s.manager) && s.log != [] ==>
      s.peeks != [] && s.peeks[|s.peeks| - 1] == |s.log| - 1
  }

  lemma LinkedKept(s: State, a: Action)
    requires Linked(s) && Enabled(s, a)
    ensures Linked(Apply(s, a))
  {
  }

  lemma MutexKept(s: State, a: Action)
    requires MutexInv(s) && Enabled(s, a)
    ensures MutexInv(Apply(s, a))
  {
  }

  lemma CountKept(s: State, a: Action)
    requires MutexInv(s) && CountInv(s) && Enabled(s, a)
    ensures CountInv(Apply(s, a))
  {
    match a
    case Work(_, _) =>
    case Manage =>
    case _ => assert Pending(Apply(s, a)) == Pending(s);
  }

  lemma PeekKept(s: State, a: Action)
    requires CountInv(s) && PeekInv(s) && Enabled(s, a)
    ensures PeekInv(Apply(s, a))
  {
  }

  lemma FreshKept(s: State, a: Action)
    requires MutexInv(s) && FreshInv(s) && Enabled(s, a)
    ensures FreshInv(Apply(s, a))
  {
    match a
    case Work(_, _) =>
    case Manage =>
    case _ => assert Pending(Apply(s, a)) == Pending(s);
  }

  // ----- the connection table

  /** The table holds the open connections, each once, on distinct sockets. */
  ghost predicate TableInv(s: State) {
    && Linked(s)
    && (forall i, j :: 0 <= i < j < |s.conns| ==> s.clients[s.conns[i]].sock != s.clients[s.conns[j]].sock)
    && (forall c :: 0 <= c < |s.clients| ==> (s.clients[c].pc.Open() <==> c in s.conns))
  }

  /** Dropping an open connection takes exactly that one out of the table. */
  lemma DropExact(s: State, r: nat)
    requires TableInv(s) && r < |s.clients| && s.clients[r].pc.Open()
    ensures forall c :: c in Drop(s, r) <==> c in s.conns && c != r
    ensures |Drop(s, r)| == |s.conns| - 1
    ensures forall i, j :: 0 <= i < j < |Drop(s, r)| ==>
              s.clients[Drop(s, r)[i]].sock != s.clients[Drop(s, r)[j]].sock
  {
    var p :| 0 <= p < |s.conns| && s.conns[p] == r;
    PositionAt(TableSocks(s), s.clients[r].sock, p);
    var last, d := |s.conns| - 1, Drop(s, r);
    assert forall i :: 0 <= i < |d| ==> d[i] == s.conns[if i == p then last else i];
    forall c | c in s.conns && c != r ensures c in d {
      var q :| 0 <= q < |s.conns| && s.conns[q] == c;
      assert d[if q == last then p else q] == c;
    }
  }

  lemma AcceptTable(s: State, sock: int)
    requires TableInv(s) && Enabled(s, Accept(sock))
    ensures TableInv(Apply(s, Accept(sock)))
  {
    forall i | 0 <= i < |s.conns| ensures s.clients[s.conns[i]].sock != sock {
      assert TableSocks(s)[i] == s.clients[s.conns[i]].sock;
    }
  }

  lemma CloseTable(s: State, r: nat, pc: ReceiverPc)
    requires TableInv(s) && r < |s.clients| && s.clients[r].pc.Open() && !pc.Open()
    ensures TableInv(SetPc(s, r, pc).(conns := Drop(s, r)))
  {
    DropExact(s, r);
    var s' := SetPc(s, r, pc).(conns := Drop(s, r));
    assert forall c :: 0 <= c < |s.clients| ==> s'.clients[c].sock == s.clients[c].sock;
  }

  /** A step that leaves the table, the sockets and the open connections alone. */
  lemma SameTable(s: State, s': State)
    requires TableInv(s) && Linked(s') && s'.conns == s.conns && |s'.clients| == |s.clients|
    requires forall c :: 0 <= c < |s.clients| ==>
               s'.clients[c].sock == s.clients[c].sock && (s'.clients[c].pc.Open() <==> s.clients[c].pc.Open())
    ensures TableInv(s')
  {
  }

  lemma TableKept(s: State, a: Action)
    requires TableInv(s) && Enabled(s, a)
    ensures TableInv(Apply(s, a))
  {
    LinkedKept(s, a);
    if a.Accept? {
      AcceptTable(s, a.sock);
    } else if a.Hangup? {
      CloseTable(s, a.r, Stopped);
    } else if a.Work? && s.clients[a.r].pc.AtAdd? && !Receive(s.clients[a.r].pc.buf, a.beyond).Parsed? {
      CloseTable(s, a.r, AtFailUnlock);
    } else {
      SameTable(s, Apply(s, a));
    }
  }

  // ----- registrations and messages

  predicate Within(handled: seq<nat>, log: seq<Event>) {
    forall k :: 0 <= k < |handled| ==> handled[k] < |log|
  }

  /** The channels that client `c` registered for in the handled events, in the order of handling. */
  function Registered(log: seq<Event>, handled: seq<nat>, c: nat): seq<int>
    requires Within(handled, log)
  {
    if handled == [] then []
    else
      var ev := log[handled[|handled| - 1]];
      Registered(log, handled[..|handled| - 1], c) +
      if ev.conn == c && IsRegistration(ev.text) then [ev.channel] else []
  }

  /** Every client's channel list is its handled registrations, repeats included. */
  ghost predicate RegistrationInv(s: State) {
    && Within(s.handled, s.log)
    && forall c :: 0 <= c < |s.clients| ==> s.clients[c].channels == Registered(s.log, s.handled, c)
  }

  lemma {:induction false} RegisteredStable(log: seq<Event>, ev: Event, handled: seq<nat>, c: nat)
    requires Within(handled, log)
    ensures Registered(log + [ev], handled, c) == Registered(log, handled, c)
  {
    if handled != [] {
      RegisteredStable(log, ev, handled[..|handled| - 1], c);
    }
  }

  lemma RegisteredSnoc(log: seq<Event>, handled: seq<nat>, idx: nat, c: nat)
    requires Within(handled, log) && idx < |log|
    ensures Registered(log, handled + [idx], c) == Registered(log, handled, c) +
            if log[idx].conn == c && IsRegistration(log[idx].text) then [log[idx].channel] else []
  {
    assert (handled + [idx])[..|handled|] == handled;
  }

  lemma {:induction false} RegisteredByStranger(log: seq<Event>, handled: seq<nat>, c: nat)
    requires Within(handled, log) && forall i :: 0 <= i < |log| ==> log[i].conn != c
    ensures Registered(log, handled, c) == []
  {
    if handled != [] {
      RegisteredByStranger(log, handled[..|handled| - 1], c);
    }
  }

  lemma HandlingRegisters(s: State, c: nat)
    requires RegistrationInv(s) && Enabled(s, Manage) && s.manager.AtHandle? && c < |s.clients|
    ensures var s' := ManagerStep(s);
            Within(s'.handled, s'.log) && |s'.clients| == |s.clients| &&
            s'.clients[c].channels == Registered(s'.log, s'.handled, c)
  {
    RegisteredSnoc(s.log, s.handled, s.manager.idx, c);
  }

  lemma RegistrationKept(s: State, a: Action)
    requires RegistrationInv(s) && Enabled(s, a)
    ensures RegistrationInv(Apply(s, a))
  {
    var s' := Apply(s, a);
    if a.Manage? && s.manager.AtHandle? {
      forall c | 0 <= c < |s'.clients| ensures s'.clients[c].channels == Registered(s'.log, s'.handled, c) {
        HandlingRegisters(s, c);
      }
    } else {
      forall c | 0 <= c < |s'.clients| ensures s'.clients[c].channels == Registered(s'.log, s'.handled, c) {
        if |s'.log| > |s.log| {
          RegisteredStable(s.log, s'.log[|s.log|], s.handled, c);
        } else if c == |s.clients| {
          RegisteredByStranger(s.log, s.handled, c);
        }
      }
    }
  }

  /** The message was sent for a handled event that is no registration, to a registered client on
      another socket. */
  ghost predicate Deserved(s: State, d: Sent) {
    && d.event in s.handled && d.event < |s.log| && d.to < |s.clients|
    && !IsRegistration(s.log[d.event].text)
    && s.log[d.event].conn < |s.clients|
    && s.clients[d.to].sock != s.clients[s.log[d.event].conn].sock
    && s.log[d.event].channel in s.clients[d.to].channels
  }

  ghost predicate SentInv(s: State) {
    forall d :: d in s.sent ==> Deserved(s, d)
  }

  /** A client gets the event if it is in the table, on another socket than the sender, and
      registered for the event's channel. */
  predicate Listens(s: State, ev: Event, c: nat)
    requires ev.conn < |s.clients| && c < |s.clients|
  {
    c in s.conns && s.clients[c].sock != s.clients[ev.conn].sock && ev.channel in s.clients[c].channels
  }

  lemma FanOutReaches(s: State, idx: nat, c: nat)
    requires Linked(s) && idx < |s.log| && c < |s.clients| && Listens(s, s.log[idx], c)
    ensures Sent(idx, c) in FanOut(s, idx)
  {
    var ev, peers, f := s.log[idx], Peers(s), FanOut(s, idx);
    var sender := s.clients[ev.conn].sock;
    var t := Targets(peers, sender, ev.channel, |peers|);
    TargetsExact(peers, sender, ev.channel, |peers|);
    var k :| 0 <= k < |s.conns| && s.conns[k] == c;
    assert Wants(peers[k], sender, ev.channel);
    var i :| 0 <= i < |t| && t[i] == k;
    assert f[i] == Sent(idx, c);
  }

  lemma FanOutOnly(s: State, idx: nat, d: Sent)
    requires Linked(s) && idx < |s.log| && d in FanOut(s, idx)
    ensures d.event == idx && d.to < |s.clients| && Listens(s, s.log[idx], d.to)
  {
    var ev, peers, f := s.log[idx], Peers(s), FanOut(s, idx);
    var sender := s.clients[ev.conn].sock;
    var t := Targets(peers, sender, ev.channel, |peers|);
    TargetsExact(peers, sender, ev.channel, |peers|);
    var i :| 0 <= i < |f| && f[i] == d;
    var k := t[i];
    assert Wants(peers[k], sender, ev.channel);
    assert s.conns[k] == d.to;
  }

  /** The fan-out of an event reaches exactly the clients that listen, each once. */
  lemma FanOutExact(s: State, idx: nat)
    requires TableInv(s) && idx < |s.log|
    ensures forall c :: 0 <= c < |s.clients| ==> (Sent(idx, c) in FanOut(s, idx) <==> Listens(s, s.log[idx], c))
    ensures forall d :: d in FanOut(s, idx) ==> d.event == idx && d.to < |s.clients|
    ensures forall i, j :: 0 <= i < j < |FanOut(s, idx)| ==> FanOut(s, idx)[i].to != FanOut(s, idx)[j].to
  {
    var ev := s.log[idx];
    forall c | 0 <= c < |s.clients| ensures Sent(idx, c) in FanOut(s, idx) <==> Listens(s, ev, c) {
      if Listens(s, ev, c) {
        FanOutReaches(s, idx, c);
      }
      if Sent(idx, c) in FanOut(s, idx) {
        FanOutOnly(s, idx, Sent(idx, c));
      }
    }
    forall d | d in FanOut(s, idx) ensures d.event == idx && d.to < |s.clients| {
      FanOutOnly(s, idx, d);
    }
    TargetsExact(Peers(s), s.clients[ev.conn].sock, ev.channel, |s.conns|);
  }

  lemma DeservedStays(s: State, a: Action, d: Sent)
    requires Deserved(s, d) && Enabled(s, a)
    ensures Deserved(Apply(s, a), d)
  {
  }

  lemma SentKept(s: State, a: Action)
    requires TableInv(s) && SentInv(s) && Enabled(s, a)
    ensures SentInv(Apply(s, a))
  {
    forall d | d in Apply(s, a).sent ensures Deserved(Apply(s, a), d) {
      if d in s.sent {
        DeservedStays(s, a, d);
      } else {
        FanOutOnly(s, s.manager.idx, d);
      }
    }
  }

  /** A received message fits the buffer with its terminating zero. */
  predicate BuffersFit(s: State) {
    forall c :: 0 <= c < |s.clients| ==>
      (s.clients[c].pc.AtLock? || s.clients[c].pc.AtAdd? ==> |s.clients[c].pc.buf| < BUF_SIZE)
  }

  lemma BuffersKept(s: State, a: Action)
    requires BuffersFit(s) && Enabled(s, a)
    ensures BuffersFit(Apply(s, a))
  {
  }

  ghost predicate Inv(s: State) {
    && Linked(s) && BuffersFit(s) && MutexInv(s) && CountInv(s) && PeekInv(s) && FreshInv(s)
    && TableInv(s) && RegistrationInv(s) && SentInv(s)
  }

  lemma StepInv(s: State, a: Action)
    requires Inv(s) && Enabled(s, a)
    ensures Inv(Apply(s, a))
  {
    LinkedKept(s, a);
    BuffersKept(s, a);
    MutexKept(s, a);
    CountKept(s, a);
    PeekKept(s, a);
    FreshKept(s, a);
    TableKept(s, a);
    RegistrationKept(s, a);
    SentKept(s, a);
  }

  lemma {:induction false} RunInv(s: State, run: seq<Action>)
    requires Inv(s) && Runnable(s, run)
    ensures Inv(After(s, run))
    decreases |run|
  {
    if run != [] {
      StepInv(s, run[0]);
      RunInv(Apply(s, run[0]), run[1..]);
    }
  }

  lemma InitInv()
    ensures Inv(INIT)
  {
  }

  lemma RunKeepsInv(run: seq<Action>)
    requires Runnable(INIT, run)
    ensures Inv(After(INIT, run))
  {
    InitInv();
    RunInv(INIT, run);
  }

  lemma ReachableInv(s: State)
    requires Reachable(s)
    ensures Inv(s)
  {
    var run :| Runnable(INIT, run) && After(INIT, run) == s;
    RunKeepsInv(run);
  }

  // ----- what holds in every reachable state

  /** The manager never looks at an empty log or handles an event that is not there. */
  lemma NeverPeeksEmpty(s: State)
    requires Reachable(s)
    ensures s.sem + s.waits == s.posts <= |s.log|
    ensures InWindow(s.manager) ==> s.log != []
    ensures s.manager.AtManagerUnlock? || s.manager.AtHandle? ==>
              s.manager.idx < |s.log| && s.log[s.manager.idx].conn < |s.clients|
  {
    ReachableInv(s);
    if s.manager.AtManagerUnlock? || s.manager.AtHandle? {
      assert s.peeks[|s.handled|] == s.manager.idx;
    }
  }

  /** The positions peeked never go back, and the k-th is at least k - 1. */
  lemma PeeksMoveForward(s: State, k: nat)
    requires Reachable(s) && k < |s.peeks|
    ensures k <= s.peeks[k] < |s.log|
    ensures k > 0 ==> s.peeks[k - 1] <= s.peeks[k]
  {
    ReachableInv(s);
  }

  /** Freshness: when no token is left, no post is to come and the manager is not between a wait and
      its look at the log, the event it looked at last is the newest of the log; and once it
      waits again, the event it handled last. */
  lemma LastHandledIsNewest(s: State)
    requires Reachable(s)
    requires s.sem == 0 && Pending(s) == 0 && !InWindow(s.manager) && s.log != []
    ensures s.peeks != [] && s.peeks[|s.peeks| - 1] == |s.log| - 1
    ensures s.manager == AtSemWait ==> s.handled != [] && s.handled[|s.handled| - 1] == |s.log| - 1
  {
    ReachableInv(s);
  }

  /** What the manager does with an event. If its text begins with "$reg", the event's channel goes to
      the list of the client that sent it, and nothing is sent. Otherwise no list changes, and the event
      is sent to exactly the clients in the table that are registered for its channel and are not on
      the sender's socket, each once. */
  lemma HandledEventReaches(s: State)
    requires Reachable(s) && s.manager.AtHandle?
    ensures Enabled(s, Manage)
    ensures var idx := s.manager.idx; var ev := s.log[idx]; var s' := ManagerStep(s);
            && |s'.clients| == |s.clients| && s'.conns == s.conns && s'.log == s.log
            && (forall c :: 0 <= c < |s.clients| ==>
                  s'.clients[c].channels ==
                  s.clients[c].channels + if |ev.text| >= 4 && ev.text[..4] == "$reg" && c == ev.conn then [ev.channel] else [])
            && if |ev.text| >= 4 && ev.text[..4] == "$reg" then s'.sent == s.sent
               else
                 && s.sent <= s'.sent
                 && (forall c :: 0 <= c < |s.clients| ==>
                       (Sent(idx, c) in s'.sent[|s.sent|..] <==>
                        c in s.conns && s.clients[c].sock != s.clients[ev.conn].sock && ev.channel in s.clients[c].channels))
                 && (forall d :: d in s'.sent[|s.sent|..] ==> d.event == idx && d.to < |s.clients|)
                 && (forall i, j :: |s.sent| <= i < j < |s'.sent| ==> s'.sent[i].to != s'.sent[j].to)
  {
    ReachableInv(s);
    NeverPeeksEmpty(s);
    var idx, s' := s.manager.idx, ManagerStep(s);
    FanOutExact(s, idx);
    if !IsRegistration(s.log[idx].text) {
      assert s'.sent[|s.sent|..] == FanOut(s, idx);
      assert forall c :: 0 <= c < |s.clients| ==>
          (Sent(idx, c) in s'.sent[|s.sent|..] <==> Listens(s, s.log[idx], c));
    }
  }

  /** Each channel list is the client's handled registrations, and every message sent went to
      a registered client on another socket. */
  lemma ListsAndMessages(s: State)
    requires Reachable(s)
    ensures RegistrationInv(s) && SentInv(s)
  {
    ReachableInv(s);
  }

  /** Not first in, first out: with the mutex held to peek, the k-th peek takes the k-th event
      exactly when no further token waits and no post was ever refused. */
  lemma TakesNextIff(s: State)
    requires Reachable(s) && s.manager.AtPeek?
    ensures Enabled(s, Manage)
    ensures ManagerStep(s).peeks == s.peeks + [|s.peeks| + s.sem + s.refused]
    ensures ManagerStep(s).peeks == s.peeks + [|s.peeks|] <==> s.sem == 0 && s.refused == 0
  {
    ReachableInv(s);
    assert Pending(s) == 0;
    assert ManagerStep(s).peeks[|s.peeks|] == |s.log| - 1;
  }

  lemma {:induction false} AfterSnoc(s: State, run: seq<Action>, a: Action)
    requires Runnable(s, run) && Enabled(After(s, run), a)
    ensures Runnable(s, run + [a]) && After(s, run + [a]) == Apply(After(s, run), a)
    decreases |run|
  {
    if run == [] {
      assert [a][1..] == [];
      assert run + [a] == [a];
    } else {
      assert (run + [a])[1..] == run[1..] + [a];
      AfterSnoc(Apply(s, run[0]), run[1..], a);
    }
  }

  lemma Reach(s: State, a: Action) returns (s': State)
    requires Reachable(s) && Enabled(s, a)
    ensures Reachable(s') && s' == Apply(s, a) && Linked(s')
  {
    LinkedKept(s, a);
    var run :| Runnable(INIT, run) && After(INIT, run) == s;
    AfterSnoc(INIT, run, a);
    s' := Apply(s, a);
  }

  /** The receiver has the mutex and its event is in the log. */
  lemma MessageAdded(s: State, r: nat, buf: string) returns (s': State)
    requires Reachable(s) && Linked(s) && r < |s.clients| && s.clients[r].pc == AtRecv && s.owner == Free
    requires |buf| < BUF_SIZE && Receive(buf, "").Parsed?
    ensures Reachable(s') && Linked(s')
    ensures var p := Receive(buf, "");
            s' == SetPc(s, r, AtPost).(owner := Receiver(r), log := s.log + [Event(r, p.channel, p.text)])
  {
    var s1 := Reach(s, Recv(r, buf));
    var s2 := Reach(s1, Work(r, ""));
    s' := Reach(s2, Work(r, ""));
    assert s'.clients == SetPc(s, r, AtPost).clients;
  }

  /** A message that names a channel goes into the log and raises the semaphore. */
  lemma MessageLogged(s: State, r: nat, buf: string) returns (s': State)
    requires Reachable(s) && Linked(s) && r < |s.clients| && s.clients[r].pc == AtRecv && s.owner == Free
    requires |buf| < BUF_SIZE && Receive(buf, "").Parsed? && s.sem < SEM_VALUE_MAX
    ensures Reachable(s') && Linked(s')
    ensures var p := Receive(buf, "");
            s' == s.(log := s.log + [Event(r, p.channel, p.text)], sem := s.sem + 1, posts := s.posts + 1)
  {
    var s1 := MessageAdded(s, r, buf);
    var s2 := Reach(s1, Work(r, ""));
    s' := Reach(s2, Work(r, ""));
    assert s'.clients == s.clients;
  }

  lemma NewestPeeked(s: State) returns (s': State)
    requires Reachable(s) && Linked(s) && s.manager == AtSemWait && s.owner == Free && s.sem > 0 && s.log != []
    ensures Reachable(s') && Linked(s')
    ensures s' == s.(sem := s.sem - 1, waits := s.waits + 1, owner := Manager,
                     manager := AtManagerUnlock(|s.log| - 1), peeks := s.peeks + [|s.log| - 1])
  {
    var s1 := Reach(s, Manage);
    var s2 := Reach(s1, Manage);
    s' := Reach(s2, Manage);
  }

  lemma NewestDone(s: State) returns (s': State)
    requires Reachable(s) && Linked(s) && s.manager == AtSemWait && s.owner == Free && s.sem > 0 && s.log != []
    ensures Reachable(s') && Linked(s')
    ensures s' == Handle(s.(sem := s.sem - 1, waits := s.waits + 1, peeks := s.peeks + [|s.log| - 1]), |s.log| - 1)
  {
    var s1 := NewestPeeked(s);
    var s2 := Reach(s1, Manage);
    s' := Reach(s2, Manage);
  }

  /** One round of the manager handles the newest event. */
  lemma NewestHandled(s: State) returns (s': State)
    requires Reachable(s) && Linked(s) && s.manager == AtSemWait && s.owner == Free && s.sem > 0 && s.log != []
    ensures Reachable(s') && Linked(s') && s'.manager == AtSemWait && s'.owner == Free
    ensures s'.log == s.log && s'.sem == s.sem - 1 && s'.handled == s.handled + [|s.log| - 1]
  {
    s' := NewestDone(s);
  }

  /** A message comes in while everything is quiet, and the manager handles it. */
  lemma MessageHandled(s: State, r: nat, buf: string, channel: int, text: string) returns (s': State)
    requires Reachable(s) && Linked(s) && r < |s.clients| && s.clients[r].pc == AtRecv && s.owner == Free
    requires s.manager == AtSemWait && s.sem == 0 && |buf| < BUF_SIZE && Receive(buf, "") == Parsed(channel, text)
    ensures Reachable(s') && Linked(s') && s'.owner == Free && s'.manager == AtSemWait && s'.sem == 0
    ensures s'.log == s.log + [Event(r, channel, text)] && s'.conns == s.conns
    ensures if IsRegistration(text) then
              && s'.clients == s.clients[r := s.clients[r].(channels := s.clients[r].channels + [channel])]
              && s'.sent == s.sent
            else
              && s'.clients == s.clients
              && var t := Targets(Peers(s), s.clients[r].sock, channel, |s.conns|);
                 s'.sent == s.sent + seq(|t|, i requires 0 <= i < |t| => Sent(|s.log|, s.conns[t[i]]))
  {
    var s1 := MessageLogged(s, r, buf);
    assert Peers(s1.(sem := 0, waits := s1.waits + 1, peeks := s1.peeks + [|s.log|])) == Peers(s);
    s' := NewestDone(s1);
  }

  lemma OneClient() returns (s: State)
    ensures Reachable(s) && Linked(s) && s == INIT.(clients := [Client(5, [], AtRecv)], conns := [0])
  {
    assert Runnable(INIT, []) && After(INIT, []) == INIT;
    s := Reach(INIT, Accept(5));
  }

  lemma TwoMessages(buf: string) returns (s: State)
    requires |buf| < BUF_SIZE && Receive(buf, "").Parsed?
    ensures Reachable(s) && Linked(s) && s.owner == Free && s.manager == AtSemWait
    ensures |s.log| == 2 && s.sem == 2 && s.handled == []
  {
    s := OneClient();
    s := MessageLogged(s, 0, buf);
    s := MessageLogged(s, 0, buf);
  }

  /** So an event can be passed over for good: two messages that arrive before the manager looks
      lead to the second being handled twice and the first never. */
  lemma EventPassedOver() returns (s: State)
    ensures Reachable(s) && |s.log| == 2 && s.handled == [1, 1] && s.sem == 0 && s.manager == AtSemWait
  {
    var buf := "1 a";
    assert Receive(buf, "").Parsed? by {
      assert buf == Text.Decimal(1) + " " + "a";
      ReceiveRoundTrip(1, "a", "");
    }
    s := TwoMessages(buf);
    s := NewestHandled(s);
    s := NewestHandled(s);
  }
}
