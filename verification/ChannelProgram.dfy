/** The receivers and the manager of networking/threaded_chat_server_with_channels/server.c on the
    growing arrays of the log, the table and the channel lists. What the variables hold stands
    for a state of `ChannelProtocol`, and each step of the program for a step there. */
module ChannelProgram {
  import opened Posix
  import opened GrowArrays
  import opened ChannelMessages
  import opened ChannelProtocol
  import opened ChannelRegistry
  import Text

  datatype ManagerLine = SemWaitLine | LockLine | PeekLine | UnlockLine | HandleLine

  function ManagerLineOf(pc: ManagerPc): ManagerLine {
    match pc
    case AtSemWait => SemWaitLine
    case AtManagerLock => LockLine
    case AtPeek => PeekLine
    case AtManagerUnlock(_) => UnlockLine
    case AtHandle(_) => HandleLine
  }

  // ----- what the variables stand for

  /** What the variables hold: the log and the table, the receivers' connections with their channel
      lists and places, the manager's place and event, the semaphore, the mutex, and the sends. */
  datatype View = View(
    events: seq<LogEvent>, table: seq<Conn>,
    threads: seq<Conn>, channels: seq<seq<int>>, pcs: seq<ReceiverPc>,
    line: ManagerLine, ev: LogEvent, sem: nat, locked: bool, sends: seq<Delivery>)

  const START := View([], [], [], [], [], SemWaitLine, LogEvent(null, 0, ""), 0, false, [])

  predicate ClientsMatch(v: View, s: State) {
    && |v.threads| == |v.channels| == |v.pcs| == |s.clients|
    && forall c :: 0 <= c < |s.clients| ==> s.clients[c] == Client(v.threads[c].sock, v.channels[c], v.pcs[c])
  }

  predicate TableMatches(v: View, s: State) {
    && |v.table| == |s.conns|
    && forall i :: 0 <= i < |s.conns| ==> s.conns[i] < |v.threads| && v.table[i] == v.threads[s.conns[i]]
  }

  predicate LogMatches(v: View, s: State) {
    && |v.events| == |s.log|
    && forall k :: 0 <= k < |s.log| ==>
         && s.log[k].conn < |v.threads|
         && v.events[k] == LogEvent(v.threads[s.log[k].conn], s.log[k].channel, s.log[k].text)
  }

  /** The socket and the text of a message that was sent. */
  function Rendered(d: Sent, v: View): Delivery
    requires d.event < |v.events| && v.events[d.event].conn != null && d.to < |v.threads|
  {
    var ev := v.events[d.event];
    Delivery(v.threads[d.to].sock, Labelled(ev.conn.sock, ev.text))
  }

  predicate SendsMatch(v: View, s: State) {
    && |v.sends| == |s.sent|
    && forall i :: 0 <= i < |s.sent| ==>
         && s.sent[i].event < |v.events| && v.events[s.sent[i].event].conn != null && s.sent[i].to < |v.threads|
         && v.sends[i] == Rendered(s.sent[i], v)
  }

  predicate ManagerMatches(v: View, s: State) {
    && v.line == ManagerLineOf(s.manager)
    && (s.manager.AtManagerUnlock? || s.manager.AtHandle? ==>
          s.manager.idx < |v.events| && v.ev == v.events[s.manager.idx])
  }

  ghost predicate Matches(v: View, s: State) {
    && Linked(s) && ClientsMatch(v, s) && TableMatches(v, s) && LogMatches(v, s) && SendsMatch(v, s)
    && ManagerMatches(v, s) && v.sem == s.sem && (v.locked <==> s.owner != Free)
  }

  /** The states that the variables may stand for. */
  ghost function StatesOf(v: View): iset<State> {
    iset s | Matches(v, s)
  }

  lemma StartMatches()
    ensures INIT in StatesOf(START)
  {
  }

  // ----- what each step does to the variables

  function Accepted(v: View, conn: Conn): View {
    v.(table := v.table + [conn], threads := v.threads + [conn], channels := v.channels + [[]],
       pcs := v.pcs + [AtRecv])
  }

  function Received(v: View, r: nat, buf: string): View
    requires r < |v.pcs|
  {
    v.(pcs := v.pcs[r := AtLock(buf)])
  }

  function Dropped(v: View, r: nat, pc: ReceiverPc): View
    requires r < |v.threads| == |v.pcs|
  {
    v.(table := Without(v.table, Socks(v.table), v.threads[r].sock), pcs := v.pcs[r := pc])
  }

  function Logged(v: View, r: nat, channel: int, text: string): View
    requires r < |v.threads| == |v.pcs|
  {
    v.(events := v.events + [LogEvent(v.threads[r], channel, text)], pcs := v.pcs[r := AtPost])
  }

  function Signalled(v: View, r: nat): View
    requires r < |v.pcs|
  {
    match v.pcs[r]
    case AtLock(buf) => v.(locked := true, pcs := v.pcs[r := AtAdd(buf)])
    case AtPost => v.(sem := SemPost(v.sem), pcs := v.pcs[r := AtUnlock])
    case AtUnlock => v.(locked := false, pcs := v.pcs[r := AtRecv])
    case AtFailUnlock => v.(locked := false, pcs := v.pcs[r := Stopped])
    case _ => v
  }

  function Peeked(v: View): View
    requires v.line == SemWaitLine ==> v.sem > 0
    requires v.line == PeekLine ==> v.events != []
  {
    match v.line
    case SemWaitLine => v.(sem := v.sem - 1, line := LockLine)
    case LockLine => v.(locked := true, line := PeekLine)
    case PeekLine => v.(ev := v.events[|v.events| - 1], line := UnlockLine)
    case UnlockLine => v.(locked := false, line := HandleLine)
    case HandleLine => v
  }

  lemma AcceptMatches(v: View, s: State, conn: Conn)
    requires s in StatesOf(v) && Enabled(s, Accept(conn.sock))
    ensures Apply(s, Accept(conn.sock)) in StatesOf(Accepted(v, conn))
  {
  }

  lemma ReceiveMatches(v: View, s: State, r: nat, buf: string)
    requires s in StatesOf(v) && Enabled(s, Recv(r, buf))
    ensures r < |v.pcs| && Apply(s, Recv(r, buf)) in StatesOf(Received(v, r, buf))
  {
  }

  lemma DropMatches(v: View, s: State, r: nat, pc: ReceiverPc)
    requires s in StatesOf(v) && r < |s.clients|
    ensures r < |v.threads| == |v.pcs|
    ensures SetPc(s, r, pc).(conns := Drop(s, r)) in StatesOf(Dropped(v, r, pc))
  {
    assert Socks(v.table) == TableSocks(s);
  }

  lemma LoggedMatches(v: View, s: State, r: nat, channel: int, text: string)
    requires s in StatesOf(v) && r < |s.clients|
    ensures r < |v.threads| == |v.pcs|
    ensures SetPc(s, r, AtPost).(log := s.log + [Event(r, channel, text)]) in StatesOf(Logged(v, r, channel, text))
  {
  }

  /** A receiver takes or gives back the mutex, or posts. */
  lemma SignalMatches(v: View, s: State, r: nat, beyond: string)
    requires s in StatesOf(v) && Enabled(s, Work(r, beyond)) && !s.clients[r].pc.AtAdd?
    ensures r < |v.pcs| && Apply(s, Work(r, beyond)) in StatesOf(Signalled(v, r))
  {
  }

  /** The manager waits, takes or gives back the mutex, or looks at the log. */
  lemma PeekMatches(v: View, s: State)
    requires s in StatesOf(v) && Enabled(s, Manage) && !s.manager.AtHandle?
    ensures (v.line == SemWaitLine ==> v.sem > 0) && (v.line == PeekLine ==> v.events != [])
    ensures ManagerStep(s) in StatesOf(Peeked(v))
  {
  }

  /** What the manager sends is what the step system says it sends. */
  lemma FanOutRendered(v: View, s: State, idx: nat)
    requires s in StatesOf(v) && idx < |s.log|
    ensures idx < |v.events| && v.events[idx].conn != null
    ensures var ev := v.events[idx];
            var t := Targets(ChannelProtocol.Peers(s), ev.conn.sock, ev.channel, |s.conns|);
            var sends := Sends(ChannelProtocol.Peers(s), t, Labelled(ev.conn.sock, ev.text));
            && |FanOut(s, idx)| == |sends|
            && forall i :: 0 <= i < |sends| ==>
                 && FanOut(s, idx)[i].event == idx && FanOut(s, idx)[i].to < |v.threads|
                 && sends[i] == Rendered(FanOut(s, idx)[i], v)
  {
  }

  lemma SendsMatchMore(v: View, s: State, sends: seq<Delivery>, sent: seq<Sent>)
    requires SendsMatch(v, s) && |sends| == |sent|
    requires forall i :: 0 <= i < |sent| ==>
               && sent[i].event < |v.events| && v.events[sent[i].event].conn != null && sent[i].to < |v.threads|
               && sends[i] == Rendered(sent[i], v)
    ensures SendsMatch(v.(line := SemWaitLine, sends := v.sends + sends), s.(sent := s.sent + sent))
  {
  }

  /** A message goes out to every connection that wants it. */
  lemma FanOutMatches(v: View, s: State)
    requires s in StatesOf(v) && Enabled(s, Manage) && s.manager.AtHandle?
    requires !IsRegistration(v.ev.text)
    ensures v.ev.conn != null
    ensures var t := Targets(ChannelProtocol.Peers(s), v.ev.conn.sock, v.ev.channel, |s.conns|);
            var sends := Sends(ChannelProtocol.Peers(s), t, Labelled(v.ev.conn.sock, v.ev.text));
            ManagerStep(s) in StatesOf(v.(line := SemWaitLine, sends := v.sends + sends))
  {
    var idx := s.manager.idx;
    FanOutRendered(v, s, idx);
    var t := Targets(ChannelProtocol.Peers(s), v.ev.conn.sock, v.ev.channel, |s.conns|);
    var sends := Sends(ChannelProtocol.Peers(s), t, Labelled(v.ev.conn.sock, v.ev.text));
    SendsMatchMore(v, s, sends, FanOut(s, idx));
    var v' := v.(line := SemWaitLine, sends := v.sends + sends);
    assert SendsMatch(v', ManagerStep(s));
  }

  lemma RegistrationMatches(v: View, s: State)
    requires s in StatesOf(v) && Enabled(s, Manage) && s.manager.AtHandle?
    requires IsRegistration(v.ev.text)
    ensures var c := s.log[s.manager.idx].conn;
            && c < |v.threads| == |v.channels| && v.ev.conn == v.threads[c]
            && var v' := v.(line := SemWaitLine, channels := v.channels[c := v.channels[c] + [v.ev.channel]]);
               ManagerStep(s) in StatesOf(v')
  {
  }

  // ----- the program

  /** The receivers' channel lists and their buffers. */
  ghost function ListObjects(threads: seq<Conn>): set<object>
    reads set c | c in threads :: c.channels
  {
    (set c | c in threads :: c.channels) + (set c | c in threads :: c.channels.items)
  }

  /** Every receiver's channel list is in order, and shared with no other. */
  ghost predicate ListsValid(threads: seq<Conn>)
    reads set c | c in threads :: c.channels
  {
    && Apart(threads)
    && forall c :: 0 <= c < |threads| ==> threads[c].channels.Valid()
  }

  ghost function ListsOf(threads: seq<Conn>): (r: seq<seq<int>>)
    reads set c | c in threads :: c.channels
    reads set c | c in threads :: c.channels.items
    requires ListsValid(threads)
    ensures |r| == |threads| && forall c :: 0 <= c < |r| ==> r[c] == threads[c].channels.Contents()
  {
    seq(|threads|, c requires 0 <= c < |threads| && ListsValid(threads)
                   reads (set c | c in threads :: c.channels), (set c | c in threads :: c.channels.items) =>
      threads[c].channels.Contents())
  }

  lemma ListsSnoc(threads: seq<Conn>, conn: Conn)
    requires ListsValid(threads) && conn.channels.Valid()
    requires forall c :: 0 <= c < |threads| ==>
               threads[c].channels != conn.channels && threads[c].channels.items != conn.channels.items
    ensures ListsValid(threads + [conn])
    ensures ListsOf(threads + [conn]) == ListsOf(threads) + [conn.channels.Contents()]
  {
  }

  /** `channels_add` on one connection leaves the others as they were. */
  method AddChannel(threads: seq<Conn>, ghost c: nat, conn: Conn, channel: int)
    requires ListsValid(threads) && c < |threads| && conn == threads[c]
    modifies conn.channels, conn.channels.items
    ensures ListsValid(threads) && ListsOf(threads) == old(ListsOf(threads))[c := old(ListsOf(threads)[c]) + [channel]]
    ensures fresh(ListObjects(threads) - old(ListObjects(threads)))
  {
    conn.channels.Push(channel);
  }

  class Server {
    const q: GrowArray<LogEvent>
    const conns: Conns
    var threads: seq<Conn>     // the connection of each receiver
    var pcs: seq<ReceiverPc>   // where each receiver stands, with its buffer
    var line: ManagerLine
    var ev: LogEvent           // the manager's event
    var sem: nat
    var locked: bool
    var sends: seq<Delivery>   // what was sent

    ghost predicate Valid()
      reads this`threads, q, q.items, conns, conns.arr, conns.arr.items
      reads set c | c in threads :: c.channels
    {
      q.Valid() && conns.Valid() && ListsValid(threads)
    }

    ghost function Value(): View
      reads this, q, q.items, conns, conns.arr, conns.arr.items
      reads set c | c in threads :: c.channels
      reads set c | c in threads :: c.channels.items
      requires Valid()
    {
      View(q.Contents(), conns.list, threads, ListsOf(threads), pcs, line, ev, sem, locked, sends)
    }

    /** The objects that the program changes. */
    ghost function Repr(): set<object>
      reads this`threads, q, conns, conns.arr
      reads set c | c in threads :: c.channels
    {
      {q, q.items, conns, conns.arr, conns.arr.items} + ListObjects(threads)
    }

    constructor ()
      ensures Valid() && Value() == START
      ensures fresh(q) && fresh(q.items) && fresh(conns) && fresh(conns.arr) && fresh(conns.arr.items)
    {
      q := new GrowArray<LogEvent>(1000);
      conns := new Conns(1000);
      threads, pcs, sends := [], [], [];
      line, ev := SemWaitLine, LogEvent(null, 0, "");
      sem, locked := 0, false;
    }

    /** Line 503: a client gets a connection, which is in no receiver's hands yet. */
    method NewConn(sock: int) returns (conn: Conn)
      requires Valid()
      modifies conns, conns.arr, conns.arr.items
      ensures conns.arr.items == old(conns.arr.items) || fresh(conns.arr.items)
      ensures fresh(conn.channels) && fresh(conn.channels.items)
      ensures conn.sock == sock && conn.channels.Valid() && conn.channels.Contents() == []
      ensures Valid() && Value() == old(Value()).(table := old(conns.list) + [conn])
    {
      ghost var lists := ListsOf(threads);
      conn := conns.Add(sock);
      assert ListsOf(threads) == lists;
    }

    /** Lines 503 to 514: a client gets a connection and a receiver. */
    method AcceptClient(sock: int) returns (conn: Conn)
      requires Valid()
      modifies this`threads, this`pcs, conns, conns.arr, conns.arr.items
      ensures threads == old(threads) + [conn] && fresh(conn.channels) && fresh(conn.channels.items)
      ensures conns.arr.items == old(conns.arr.items) || fresh(conns.arr.items)
      ensures Valid() && conn.sock == sock && Value() == Accepted(old(Value()), conn)
    {
      conn := NewConn(sock);
      ListsSnoc(threads, conn);
      threads := threads + [conn];
      pcs := pcs + [AtRecv];
    }

    /** Line 357: a receiver's `recv` returns data. */
    method ReceiveBytes(r: nat, buf: string)
      requires Valid() && r < |pcs|
      modifies this`pcs
      ensures Valid() && Value() == Received(old(Value()), r, buf)
    {
      pcs := pcs[r := AtLock(buf)];
    }

    /** `conns_remove`. */
    method RemoveConn(sock: int)
      requires Valid()
      modifies conns, conns.arr, conns.arr.items
      ensures conns.arr.items == old(conns.arr.items)
      ensures ListObjects(threads) == old(ListObjects(threads))
      ensures Valid() && Value() == old(Value()).(table := Without(old(conns.list), Socks(old(conns.list)), sock))
    {
      ghost var lists := ListsOf(threads);
      conns.Remove(sock);
      assert ListsOf(threads) == lists;
    }

    /** Lines 363 to 364 and 371 to 373: a connection leaves the table. */
    method Disconnect(r: nat, pc: ReceiverPc)
      requires Valid() && r < |threads| == |pcs|
      modifies this`pcs, conns, conns.arr, conns.arr.items
      ensures conns.arr.items == old(conns.arr.items)
      ensures ListObjects(threads) == old(ListObjects(threads))
      ensures Valid() && Value() == Dropped(old(Value()), r, pc)
    {
      RemoveConn(threads[r].sock);
      pcs := pcs[r := pc];
    }

    /** `queue_add`. */
    method AddToLog(r: nat, buf: string, beyond: string) returns (status: int)
      requires Valid() && r < |threads| && |buf| < BUF_SIZE
      modifies q, q.items
      ensures q.items == old(q.items) || fresh(q.items)
      ensures ListObjects(threads) == old(ListObjects(threads))
      ensures Valid()
      ensures var p, v := Receive(buf, beyond), old(Value());
              && status == (if p.Parsed? then 0 else -1)
              && Value() == if p.Parsed? then v.(events := v.events + [LogEvent(threads[r], p.channel, p.text)]) else v
    {
      ghost var lists := ListsOf(threads);
      status := QueueAdd(q, threads[r], buf, beyond);
      assert ListsOf(threads) == lists;
    }

    /** Line 362: a receiver's message goes into the log, if it names a channel. */
    method LogMessage(r: nat, beyond: string) returns (status: int)
      requires Valid() && r < |threads| == |pcs| && pcs[r].AtAdd? && |pcs[r].buf| < BUF_SIZE
      modifies this`pcs, q, q.items
      ensures q.items == old(q.items) || fresh(q.items)
      ensures ListObjects(threads) == old(ListObjects(threads))
      ensures Valid()
      ensures var p := Receive(old(pcs)[r].buf, beyond);
              && status == (if p.Parsed? then 0 else -1)
              && Value() == if p.Parsed? then Logged(old(Value()), r, p.channel, p.text) else old(Value())
    {
      status := AddToLog(r, pcs[r].buf, beyond);
      if status == 0 {
        pcs := pcs[r := AtPost];
      }
    }

    /** Lines 362 to 366: a message that does not go into the log costs its sender the connection. */
    method AddEvent(r: nat, beyond: string)
      requires Valid() && r < |threads| == |pcs| && pcs[r].AtAdd? && |pcs[r].buf| < BUF_SIZE
      modifies this`pcs, q, q.items, conns, conns.arr, conns.arr.items
      ensures conns.arr.items == old(conns.arr.items) && (q.items == old(q.items) || fresh(q.items))
      ensures ListObjects(threads) == old(ListObjects(threads))
      ensures Valid()
      ensures var p := Receive(old(pcs)[r].buf, beyond);
              Value() == if p.Parsed? then Logged(old(Value()), r, p.channel, p.text)
                         else Dropped(old(Value()), r, AtFailUnlock)
    {
      var status := LogMessage(r, beyond);
      if status == -1 {
        Disconnect(r, AtFailUnlock);
      }
    }

    /** Lines 361, 365, 368 and 369: the mutex and the semaphore. */
    method SignalLine(r: nat)
      requires Valid() && r < |pcs|
      modifies this`pcs, this`sem, this`locked
      ensures Valid() && Value() == Signalled(old(Value()), r)
    {
      match pcs[r] {
        case AtLock(buf) => locked, pcs := true, pcs[r := AtAdd(buf)];
        case AtPost => sem, pcs := SemPost(sem), pcs[r := AtUnlock];
        case AtUnlock => locked, pcs := false, pcs[r := AtRecv];
        case AtFailUnlock => locked, pcs := false, pcs[r := Stopped];
        case _ =>
      }
    }

    /** Lines 396, 397 and 399: the wait and the mutex. */
    method WaitOrLock()
      requires Valid() && line != PeekLine && (line == SemWaitLine ==> sem > 0)
      modifies this`line, this`sem, this`locked
      ensures Valid() && Value() == Peeked(old(Value()))
    {
      match line {
        case SemWaitLine => sem, line := sem - 1, LockLine;
        case LockLine => locked, line := true, PeekLine;
        case UnlockLine => locked, line := false, HandleLine;
        case HandleLine =>
      }
    }

    /** Line 398: the look at the log. */
    method PeekLog()
      requires Valid() && line == PeekLine && q.Contents() != []
      modifies this`line, this`ev
      ensures Valid() && Value() == Peeked(old(Value()))
    {
      var found;
      found, ev := QueuePeek(q);
      line := UnlockLine;
    }

    /** Lines 404 to 410: a registration. */
    method RegisterChannel(ghost c: nat)
      requires Valid() && c < |threads| && ev.conn == threads[c]
      modifies ev.conn.channels, ev.conn.channels.items
      ensures fresh(ListObjects(threads) - old(ListObjects(threads)))
      ensures Valid()
      ensures var v := old(Value());
              Value() == v.(channels := v.channels[c := v.channels[c] + [v.ev.channel]])
    {
      AddChannel(threads, c, ev.conn, ev.channel);
    }

    /** Lines 411 to 437: the sending of an event. */
    method SendEvent()
      requires Valid() && ev.conn != null && conns.ListsValid()
      modifies this`sends
      ensures Valid()
      ensures var v, peers := old(Value()), old(conns.Peers());
              var t := Targets(peers, v.ev.conn.sock, v.ev.channel, |peers|);
              Value() == v.(sends := v.sends + Sends(peers, t, Labelled(v.ev.conn.sock, v.ev.text)))
    {
      var now := conns.FanOut(ev.conn.sock, ev.channel, ev.text);
      assert conns.Peers() == old(conns.Peers());
      sends := sends + now;
    }

    /** The lists of the connections in the table, as the step system sees them. */
    lemma TheirPeers(s: State)
      requires Valid() && s in StatesOf(Value())
      ensures conns.ListsValid() && conns.Peers() == ChannelProtocol.Peers(s)
    {
      var v := Value();
      assert TableMatches(v, s) && ClientsMatch(v, s);
      assert forall i :: 0 <= i < |s.conns| ==> conns.list[i] == threads[s.conns[i]];
    }

    /** The manager's next round begins. */
    method GoBack()
      requires Valid()
      modifies this`line
      ensures Valid() && Value() == old(Value()).(line := SemWaitLine)
    {
      line := SemWaitLine;
    }

    /** Lines 404 to 410. */
    method HandleRegistration(ghost s: State)
      requires Valid() && s in StatesOf(Value()) && Enabled(s, Manage) && s.manager.AtHandle?
      requires IsRegistration(ev.text)
      modifies this`line, ListObjects(threads)
      ensures q.items == old(q.items) && conns.arr.items == old(conns.arr.items)
      ensures fresh(ListObjects(threads) - old(ListObjects(threads)))
      ensures Valid() && Apply(s, Manage) in StatesOf(Value())
    {
      RegistrationMatches(Value(), s);
      RegisterChannel(s.log[s.manager.idx].conn);
      GoBack();
    }

    /** Lines 411 to 437. */
    method HandleMessage(ghost s: State)
      requires Valid() && s in StatesOf(Value()) && Enabled(s, Manage) && s.manager.AtHandle?
      requires !IsRegistration(ev.text)
      modifies this`line, this`sends
      ensures Valid() && Apply(s, Manage) in StatesOf(Value())
    {
      FanOutMatches(Value(), s);
      TheirPeers(s);
      SendEvent();
      GoBack();
    }

    /** Lines 404 to 437: what the manager does with its event. */
    method HandleEvent(ghost s: State)
      requires Valid() && s in StatesOf(Value()) && Enabled(s, Manage) && s.manager.AtHandle?
      modifies this`line, this`sends, ListObjects(threads)
      ensures q.items == old(q.items) && conns.arr.items == old(conns.arr.items)
      ensures fresh(ListObjects(threads) - old(ListObjects(threads)))
      ensures Valid() && Apply(s, Manage) in StatesOf(Value())
    {
      if Text.StartsWith(ev.text, "$reg") {
        HandleRegistration(s);
      } else {
        HandleMessage(s);
      }
    }

    /** One line of a receiver. */
    method ReceiverLine(r: nat, beyond: string, ghost s: State)
      requires Valid() && s in StatesOf(Value()) && Enabled(s, Work(r, beyond))
      requires s.clients[r].pc.AtAdd? ==> |s.clients[r].pc.buf| < BUF_SIZE
      modifies this, q, q.items, conns, conns.arr, conns.arr.items
      ensures ListObjects(threads) == old(ListObjects(threads))
      ensures conns.arr.items == old(conns.arr.items) && (q.items == old(q.items) || fresh(q.items))
      ensures Valid() && Apply(s, Work(r, beyond)) in StatesOf(Value())
    {
      ghost var v := Value();
      assert ClientsMatch(v, s);
      if pcs[r].AtAdd? {
        ghost var p := Receive(pcs[r].buf, beyond);
        if p.Parsed? {
          LoggedMatches(v, s, r, p.channel, p.text);
        } else {
          DropMatches(v, s, r, AtFailUnlock);
        }
        AddEvent(r, beyond);
      } else {
        SignalMatches(v, s, r, beyond);
        SignalLine(r);
      }
    }

    /** Lines 396 to 399. */
    method PeekLines(ghost s: State)
      requires Valid() && s in StatesOf(Value()) && Enabled(s, Manage) && !s.manager.AtHandle?
      modifies this`line, this`sem, this`locked, this`ev
      ensures Valid() && Apply(s, Manage) in StatesOf(Value())
    {
      PeekMatches(Value(), s);
      assert ManagerMatches(Value(), s);
      if line == PeekLine {
        PeekLog();
      } else {
        WaitOrLock();
      }
    }

    /** One line of the manager. */
    method ManagerLine(ghost s: State)
      requires Valid() && s in StatesOf(Value()) && Enabled(s, Manage)
      modifies this`line, this`sem, this`locked, this`ev, this`sends, ListObjects(threads)
      ensures q.items == old(q.items) && conns.arr.items == old(conns.arr.items)
      ensures fresh(ListObjects(threads) - old(ListObjects(threads)))
      ensures Valid() && Apply(s, Manage) in StatesOf(Value())
    {
      assert ManagerMatches(Value(), s);
      if line == HandleLine {
        HandleEvent(s);
      } else {
        PeekLines(s);
      }
    }

    method AcceptStep(sock: int, ghost s: State)
      requires Valid() && s in StatesOf(Value()) && Enabled(s, Accept(sock))
      modifies this`threads, this`pcs, conns, conns.arr, conns.arr.items
      ensures Valid() && Apply(s, Accept(sock)) in StatesOf(Value())
      ensures q.items == old(q.items)
      ensures fresh(ListObjects(threads) - old(ListObjects(threads)))
      ensures conns.arr.items == old(conns.arr.items) || fresh(conns.arr.items)
    {
      ghost var v := Value();
      var conn := AcceptClient(sock);
      AcceptMatches(v, s, conn);
    }

    /** A client sends, or goes. */
    method RecvStep(a: Action, ghost s: State)
      requires Valid() && s in StatesOf(Value()) && Enabled(s, a) && (a.Recv? || a.Hangup?)
      modifies this`pcs, conns, conns.arr, conns.arr.items
      ensures Valid() && Apply(s, a) in StatesOf(Value())
      ensures q.items == old(q.items) && conns.arr.items == old(conns.arr.items)
      ensures ListObjects(threads) == old(ListObjects(threads))
    {
      if a.Recv? {
        ReceiveMatches(Value(), s, a.r, a.buf);
        ReceiveBytes(a.r, a.buf);
      } else {
        DropMatches(Value(), s, a.r, Stopped);
        Disconnect(a.r, Stopped);
      }
    }

    /** One step of the program. */
    method Step(a: Action, ghost s: State)
      requires Valid() && s in StatesOf(Value()) && BuffersFit(s) && Enabled(s, a)
      modifies this, Repr()
      ensures Valid() && Apply(s, a) in StatesOf(Value())
      ensures fresh(Repr() - old(Repr()))
    {
      if a.Work? {
        ReceiverLine(a.r, a.beyond, s);
      } else if a.Manage? {
        ManagerLine(s);
      } else if a.Accept? {
        AcceptStep(a.sock, s);
      } else {
        RecvStep(a, s);
      }
    }

    /** Any schedule of the threads takes the program to where it takes the step system. */
    method Serve(schedule: seq<Action>, ghost s: State)
      requires Valid() && s in StatesOf(Value()) && BuffersFit(s) && Runnable(s, schedule)
      modifies this, Repr()
      ensures Valid() && After(s, schedule) in StatesOf(Value())
      decreases |schedule|
    {
      if schedule != [] {
        Step(schedule[0], s);
        BuffersKept(s, schedule[0]);
        Serve(schedule[1..], Apply(s, schedule[0]));
      }
    }
  }

  /** Each receiver's channel list is the client's handled registrations, and what was sent
      is what the step system sent. */
  lemma ReachedValue(v: View, s: State)
    requires Reachable(s) && s in StatesOf(v)
    ensures SendsMatch(v, s) && Within(s.handled, s.log) && |v.channels| == |s.clients|
    ensures forall c :: 0 <= c < |s.clients| ==> v.channels[c] == Registered(s.log, s.handled, c)
  {
    ListsAndMessages(s);
    assert ClientsMatch(v, s);
  }

  /** A whole run of the program, under any schedule, ends in the state that the step system
      reaches; there `ReachedValue` says what the channel lists hold and what was sent. */
  method RunServer(schedule: seq<Action>) returns (server: Server)
    requires Runnable(INIT, schedule)
    ensures server.Valid() && Reachable(After(INIT, schedule))
    ensures After(INIT, schedule) in StatesOf(server.Value())
  {
    server := new Server();
    StartMatches();
    server.Serve(schedule, INIT);
  }
}
