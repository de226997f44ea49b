/** The sessions of networking/epoll_chat_server/server.c: which message names a client, which
    one is broadcast, which one ends the session, over whole runs of the server. */
module ChatSession {
  import opened Text
  import opened ClientTable

  datatype Role = Naming | Leaving | Said

  /** A message the server handled: who sent it, on which socket and under which name, and what
      became of it. */
  datatype Heard = Heard(id: nat, sock: int, name: string, text: string, role: Role)

  /** One send of a broadcast: for which handled message, and to which client. */
  datatype Sent = Sent(msg: nat, to: nat, sock: int, text: string)

  /** What ends the defined behaviour of the server: it reads the name of a client that is not
      there, or destroys a client once for each entry on its socket, and there are several. */
  datatype Fault = NoFault | MissingClient | DoubleDestroy

  /** The table, its growth, the open sockets that epoll watches, and the fault, if any; then the
      history: the messages handled and sent, how many had been handled when each client joined, the
      clients refused, and the receive errors that closed the socket of a client without taking it
      out of the table. */
  datatype Chat = Chat(
    table: seq<Entry>, growth: Growth, watched: set<int>, next: nat, fault: Fault,
    heard: seq<Heard>, sent: seq<Sent>, joined: seq<nat>, refused: nat, stale: nat)

  datatype Action =
    | Accept(sock: int)
    | Say(sock: int, text: string)   // a message, as the buffer shows it
    | Close(sock: int)               // the client closed the connection
    | Fail(sock: int)                // a receive error

  const INIT := Chat([], STARTED, {}, 0, NoFault, [], [], [], 0, 0)

  /** The kernel hands out descriptors that are not open, and reports open ones. */
  predicate Enabled(s: Chat, a: Action) {
    s.fault == NoFault && if a.Accept? then a.sock !in s.watched else a.sock in s.watched
  }

  function Line(name: string, text: string): string {
    "[" + name + "] " + text + "\n"
  }

  /** The size of the buffer into which `broadcast` prints the line, and the bytes it sends. */
  function LineLength(name: string, text: string): nat {
    |text| + 4 + |name|
  }

  /** Every send carries exactly the line. But the line fills its buffer, so that the zero which
      `sprintf` writes behind it always goes one byte past the end. */
  lemma LineFillsBuffer(name: string, text: string)
    ensures |Line(name, text)| == LineLength(name, text)
    ensures |Line(name, text) + "\0"| == LineLength(name, text) + 1
  {
  }

  /** The receiver can read the line back: up to the first closing bracket stands the name, if the name
      has none, and between it with its blank and the final newline the text. */
  lemma LineReadsBack(name: string, text: string)
    ensures var l, k := Line(name, text), |name| + 1;
            && |l| == k + 3 + |text| && l[0] == '[' && l[1..k] == name && l[k] == ']' && l[k + 1] == ' '
            && l[k + 2..|l| - 1] == text && l[|l| - 1] == '\n'
            && (']' !in name ==> ']' !in l[..k])
  {
    var l, k := Line(name, text), |name| + 1;
    assert l[..k] == "[" + name;
  }

  /** The clients, in table order, on other sockets than `sock`. */
  function Others(t: seq<Entry>, sock: int): (r: seq<Entry>)
    ensures forall e :: e in r ==> e in t && e.sock != sock
  {
    if t == [] then []
    else
      var last := t[|t| - 1];
      Others(t[..|t| - 1], sock) + if last.sock != sock then [last] else []
  }

  function Broadcast(t: seq<Entry>, sock: int, msg: nat, line: string): (r: seq<Sent>)
    ensures |r| == |Others(t, sock)|
    ensures forall i :: 0 <= i < |r| ==> r[i] == Sent(msg, Others(t, sock)[i].id, Others(t, sock)[i].sock, line)
  {
    var o := Others(t, sock);
    seq(|o|, i requires 0 <= i < |o| => Sent(msg, o[i].id, o[i].sock, line))
  }

  /** The scan of `client_disconnect` destroys the client at every entry on its socket, and takes out
      the first. */
  function Leave(s: Chat, sock: int): Chat
    requires Find(s.table, sock) < |s.table| && s.growth.len > 0
  {
    s.(table := Without(s.table, sock), growth := s.growth.Removed(), watched := s.watched - {sock},
       fault := if Count(s.table, sock) > 1 then DoubleDestroy else s.fault)
  }

  function OnMessage(s: Chat, sock: int, text: string): Chat
    requires s.growth.len == |s.table|
  {
    var k := Find(s.table, sock);
    if k == |s.table| then s.(fault := MissingClient)
    else
      var e := s.table[k];
      if e.name == "" then
        s.(table := s.table[k := e.(name := Clip(text))], heard := s.heard + [Heard(e.id, sock, e.name, text, Naming)])
      else if StartsWith(text, "exit") then
        Leave(s, sock).(heard := s.heard + [Heard(e.id, sock, e.name, text, Leaving)])
      else
        s.(heard := s.heard + [Heard(e.id, sock, e.name, text, Said)],
           sent := s.sent + Broadcast(s.table, sock, |s.heard|, Line(e.name, text)))
  }

  function Apply(s: Chat, a: Action): (r: Chat)
    requires s.growth.len == |s.table|
    ensures r.growth.len == |r.table|
  {
    match a
    case Accept(sock) =>
      if s.growth.Full() then s.(watched := s.watched + {sock}, refused := s.refused + 1)
      else
        s.(table := s.table + [Entry(s.next, sock, "")], growth := s.growth.Added(),
           watched := s.watched + {sock}, next := s.next + 1, joined := s.joined + [|s.heard|])
    case Say(sock, text) => OnMessage(s, sock, text)
    case Close(sock) => if Find(s.table, sock) < |s.table| then Leave(s, sock) else s
    case Fail(sock) =>
      s.(watched := s.watched - {sock},
         stale := s.stale + if Find(s.table, sock) < |s.table| then 1 else 0)
  }

  predicate Runnable(s: Chat, run: seq<Action>)
    requires s.growth.len == |s.table|
    decreases |run|
  {
    run == [] || (Enabled(s, run[0]) && Runnable(Apply(s, run[0]), run[1..]))
  }

  function After(s: Chat, run: seq<Action>): (r: Chat)
    requires s.growth.len == |s.table|
    ensures r.growth.len == |r.table|
    decreases |run|
  {
    if run == [] then s else After(Apply(s, run[0]), run[1..])
  }

  // ----- what every step keeps

  /** Ids number the clients in the order of connection, and the table grows by doubling. */
  ghost predicate OrderInv(s: Chat) {
    Ordered(s.table, s.next) && s.growth.len == |s.table| && GrowthInv(s.growth)
  }

  /** Messages are broadcast under a name, and the others that were handled name a client or
      end a session. No client is sent its own message. */
  ghost predicate MessageInv(s: Chat) {
    && (forall h :: h in s.heard ==> (h.role == Naming <==> h.name == ""))
    && (forall d :: d in s.sent ==>
          && d.msg < |s.heard| && s.heard[d.msg].role == Said && s.heard[d.msg].name != ""
          && d.to != s.heard[d.msg].id
          && d.text == Line(s.heard[d.msg].name, s.heard[d.msg].text))
  }

  /** As long as no receive error left a client behind, the table holds one client per socket, and
      only open ones, and no client has been destroyed twice. */
  ghost predicate TableInv(s: Chat) {
    s.stale == 0 ==>
      s.fault != DoubleDestroy && DistinctSocks(s.table) && forall e :: e in s.table ==> e.sock in s.watched
  }

  /** As long as no client was refused, every open socket is in the table, and no missing client has
      been read. */
  ghost predicate ServedInv(s: Chat) {
    s.refused == 0 ==> s.fault != MissingClient && forall x :: x in s.watched ==> Find(s.table, x) < |s.table|
  }

  ghost predicate SocketInv(s: Chat) {
    TableInv(s) && ServedInv(s)
  }

  ghost predicate Inv(s: Chat) {
    OrderInv(s) && MessageInv(s) && SocketInv(s)
  }

  lemma OrderKept(s: Chat, a: Action)
    requires OrderInv(s)
    ensures OrderInv(Apply(s, a))
  {
    if a.Accept? {
      AddedKeeps(s.growth);
      StepOrdered(s.table, s.next, Add(a.sock, ""));
    } else {
      WithoutOrdered(s.table, a.sock, s.next);
    }
  }

  lemma LeaveOrder(s: Chat, sock: int)
    requires OrderInv(s) && Find(s.table, sock) < |s.table|
    ensures OrderInv(Leave(s, sock))
  {
    WithoutOrdered(s.table, sock, s.next);
  }

  lemma OthersHaveOtherIds(s: Chat, sock: int, e: Entry)
    requires OrderInv(s) && Find(s.table, sock) < |s.table| && e in Others(s.table, sock)
    ensures e.id != s.table[Find(s.table, sock)].id
  {
  }

  lemma MessageKept(s: Chat, a: Action)
    requires OrderInv(s) && MessageInv(s)
    ensures MessageInv(Apply(s, a))
  {
    if a.Say? && Find(s.table, a.sock) < |s.table| {
      var s' := Apply(s, a);
      forall d | d in s'.sent
        ensures d.msg < |s'.heard| && s'.heard[d.msg].role == Said && s'.heard[d.msg].name != ""
                && d.to != s'.heard[d.msg].id
                && d.text == Line(s'.heard[d.msg].name, s'.heard[d.msg].text)
      {
        if d !in s.sent {
          var e := s.table[Find(s.table, a.sock)];
          var b := Broadcast(s.table, a.sock, |s.heard|, Line(e.name, a.text));
          var i :| 0 <= i < |b| && b[i] == d;
          OthersHaveOtherIds(s, a.sock, Others(s.table, a.sock)[i]);
        }
      }
    }
  }

  lemma LeaveSockets(s: Chat, sock: int)
    requires OrderInv(s) && SocketInv(s) && Find(s.table, sock) < |s.table|
    ensures SocketInv(Leave(s, sock))
  {
    var s' := Leave(s, sock);
    if s.stale == 0 {
      WithoutMembers(s.table, sock);
      CountIsOne(s.table, Find(s.table, sock));
    }
    forall x | s.refused == 0 && x in s'.watched ensures Find(s'.table, x) < |s'.table| {
      WithoutKeepsOthers(s.table, sock, x);
    }
  }

  lemma AcceptSockets(s: Chat, sock: int)
    requires OrderInv(s) && SocketInv(s) && Enabled(s, Accept(sock))
    ensures SocketInv(Apply(s, Accept(sock)))
  {
    var s' := Apply(s, Accept(sock));
    if !s.growth.Full() {
      forall x | s.refused == 0 && x in s'.watched ensures Find(s'.table, x) < |s'.table| {
        FindMember(s'.table, if x == sock then Entry(s.next, sock, "") else s.table[Find(s.table, x)]);
      }
    }
  }

  lemma NameSockets(s: Chat, k: nat, name: string)
    requires SocketInv(s) && k < |s.table|
    ensures SocketInv(s.(table := s.table[k := s.table[k].(name := name)]))
  {
    forall x ensures Find(s.table[k := s.table[k].(name := name)], x) == Find(s.table, x) {
      RenameKeepsPlaces(s.table, k, name, x);
    }
  }

  lemma SaySockets(s: Chat, sock: int, text: string)
    requires OrderInv(s) && SocketInv(s) && Enabled(s, Say(sock, text)) && Find(s.table, sock) < |s.table|
    ensures SocketInv(OnMessage(s, sock, text))
  {
    var k := Find(s.table, sock);
    if s.table[k].name == "" {
      NameSockets(s, k, Clip(text));
    } else if StartsWith(text, "exit") {
      LeaveSockets(s, sock);
    }
  }

  lemma SocketKept(s: Chat, a: Action)
    requires OrderInv(s) && SocketInv(s) && Enabled(s, a)
    ensures SocketInv(Apply(s, a))
  {
    match a
    case Accept(sock) => AcceptSockets(s, sock);
    case Close(sock) => if Find(s.table, sock) < |s.table| { LeaveSockets(s, sock); }
    case Fail(sock) =>
      if Find(s.table, sock) == |s.table| {
        assert forall e :: e in s.table ==> e.sock != sock;
      }
    case Say(sock, text) => if Find(s.table, sock) < |s.table| { SaySockets(s, sock, text); }
  }

  lemma {:induction false} RunInv(s: Chat, run: seq<Action>)
    requires Inv(s) && Runnable(s, run)
    ensures Inv(After(s, run))
    decreases |run|
  {
    if run != [] {
      OrderKept(s, run[0]);
      MessageKept(s, run[0]);
      SocketKept(s, run[0]);
      RunInv(Apply(s, run[0]), run[1..]);
    }
  }

  lemma InitInv()
    ensures Inv(INIT)
  {
    StartedInv();
  }

  // ----- whole runs

  /** The entry that an entry of the next table comes from. */
  lemma StepOrigin(s: Chat, a: Action, f: Entry) returns (e: Entry)
    requires OrderInv(s) && f in Apply(s, a).table && f.id < s.next
    ensures e in s.table && e.id == f.id && e.sock == f.sock && (e.name != "" ==> f == e)
  {
    var i :| 0 <= i < |Apply(s, a).table| && Apply(s, a).table[i] == f;
    if a.Say? && i < |s.table| && i == Find(s.table, a.sock) && s.table[i].name == "" {
      e := s.table[i];
    } else {
      e := f;
    }
  }

  /** A client keeps its socket, and its name once it has one, for as long as it stays connected. */
  lemma {:induction false} NameOnce(s: Chat, run: seq<Action>, e: Entry, f: Entry)
    requires OrderInv(s) && Runnable(s, run)
    requires e in s.table && f in After(s, run).table && e.id == f.id
    ensures f.sock == e.sock && (e.name != "" ==> f.name == e.name)
    decreases |run|
  {
    var o := RunOrigin(s, run, f);
    assert o == e;
  }

  lemma {:induction false} RunOrigin(s: Chat, run: seq<Action>, f: Entry) returns (e: Entry)
    requires OrderInv(s) && Runnable(s, run) && f in After(s, run).table && f.id < s.next
    ensures e in s.table && e.id == f.id && e.sock == f.sock && (e.name != "" ==> f == e)
    decreases |run|
  {
    if run == [] {
      e := f;
    } else {
      OrderKept(s, run[0]);
      var m := RunOrigin(Apply(s, run[0]), run[1..], f);
      e := StepOrigin(s, run[0], m);
    }
  }

  /** Over every run: a broadcast carries the name and the text of a message said under a nonempty
      name, and goes to another client; a message that names a client is never sent to anyone. */
  lemma MessagesOfRun(run: seq<Action>)
    requires Runnable(INIT, run)
    ensures var s := After(INIT, run);
            && (forall d :: d in s.sent ==>
                  && d.msg < |s.heard| && s.heard[d.msg].name != "" && d.to != s.heard[d.msg].id
                  && d.text == Line(s.heard[d.msg].name, s.heard[d.msg].text))
            && (forall j :: 0 <= j < |s.heard| && s.heard[j].name == "" ==>
                  s.heard[j].role == Naming && forall d :: d in s.sent ==> d.msg != j)
  {
    InitInv();
    RunInv(INIT, run);
    var s := After(INIT, run);
    forall j | 0 <= j < |s.heard| && s.heard[j].name == "" ensures s.heard[j].role == Naming {
      assert s.heard[j] in s.heard;
    }
  }

  // ----- a client's name is its first message that is not empty

  /** The first message of a client that is not empty, clipped. */
  function FirstWords(heard: seq<Heard>, id: nat): string {
    if heard == [] then ""
    else
      var before, last := FirstWords(heard[..|heard| - 1], id), heard[|heard| - 1];
      if before == "" && last.id == id then Clip(last.text) else before
  }

  /** The clients in the table, and the messages when they were handled, go by those first words. */
  ghost predicate NameInv(s: Chat) {
    && (forall h :: h in s.heard ==> h.id < s.next)
    && (forall i :: 0 <= i < |s.table| ==> s.table[i].name == FirstWords(s.heard, s.table[i].id))
    && (forall j :: 0 <= j < |s.heard| ==> s.heard[j].name == FirstWords(s.heard[..j], s.heard[j].id))
  }

  lemma {:induction false} StrangerIsSilent(heard: seq<Heard>, id: nat)
    requires forall h :: h in heard ==> h.id != id
    ensures FirstWords(heard, id) == ""
  {
    if heard != [] {
      StrangerIsSilent(heard[..|heard| - 1], id);
    }
  }

  lemma FirstWordsSnoc(heard: seq<Heard>, h: Heard, id: nat)
    ensures FirstWords(heard + [h], id) ==
            if FirstWords(heard, id) == "" && h.id == id then Clip(h.text) else FirstWords(heard, id)
  {
    assert (heard + [h])[..|heard|] == heard;
  }

  /** Another message by the client in slot `k`, which names it if it has no name yet. */
  lemma HeardKeepsNames(s: Chat, k: nat, text: string, role: Role)
    requires OrderInv(s) && NameInv(s) && k < |s.table|
    ensures var e := s.table[k];
            var t := if e.name == "" then s.table[k := e.(name := Clip(text))] else s.table;
            NameInv(s.(table := t, heard := s.heard + [Heard(e.id, e.sock, e.name, text, role)]))
  {
    var e := s.table[k];
    var h := Heard(e.id, e.sock, e.name, text, role);
    var t := if e.name == "" then s.table[k := e.(name := Clip(text))] else s.table;
    forall i | 0 <= i < |t| ensures t[i].name == FirstWords(s.heard + [h], t[i].id) {
      FirstWordsSnoc(s.heard, h, t[i].id);
      assert i != k ==> s.table[i].id != e.id;
    }
    forall j | 0 <= j < |s.heard + [h]|
      ensures (s.heard + [h])[j].name == FirstWords((s.heard + [h])[..j], (s.heard + [h])[j].id)
    {
      assert (s.heard + [h])[..j] == s.heard[..j];
      assert s.heard[..|s.heard|] == s.heard;
    }
  }

  lemma LeaveKeepsNames(s: Chat, sock: int)
    requires NameInv(s) && Find(s.table, sock) < |s.table| && s.growth.len > 0
    ensures NameInv(Leave(s, sock))
  {
    forall i | 0 <= i < |Without(s.table, sock)|
      ensures Without(s.table, sock)[i].name == FirstWords(s.heard, Without(s.table, sock)[i].id)
    {
      WithoutAt(s.table, sock, i);
    }
  }

  lemma NameKept(s: Chat, a: Action)
    requires OrderInv(s) && NameInv(s)
    ensures NameInv(Apply(s, a))
  {
    var k := Find(s.table, a.sock);
    match a
    case Accept(_) =>
      StrangerIsSilent(s.heard, s.next);
    case Say(sock, text) =>
      if k < |s.table| {
        HeardKeepsNames(s, k, text, Naming);
        HeardKeepsNames(s, k, text, Said);
        if s.table[k].name != "" && StartsWith(text, "exit") {
          HeardKeepsNames(s, k, text, Leaving);
          LeaveKeepsNames(s.(heard := s.heard + [Heard(s.table[k].id, sock, s.table[k].name, text, Leaving)]), sock);
        }
      }
    case Close(sock) => if k < |s.table| { LeaveKeepsNames(s, sock); }
    case Fail(_) =>
  }

  lemma {:induction false} NameRunInv(s: Chat, run: seq<Action>)
    requires OrderInv(s) && NameInv(s) && Runnable(s, run)
    ensures NameInv(After(s, run))
    decreases |run|
  {
    if run != [] {
      OrderKept(s, run[0]);
      NameKept(s, run[0]);
      NameRunInv(Apply(s, run[0]), run[1..]);
    }
  }

  /** Over every run: a client goes by its first message that is not empty, and each message is
      handled under the name that the messages before it gave its sender. */
  lemma NamesAreFirstWords(run: seq<Action>)
    requires Runnable(INIT, run)
    ensures NameInv(After(INIT, run))
  {
    InitInv();
    NameRunInv(INIT, run);
  }

  lemma {:induction false} OthersMembers(t: seq<Entry>, sock: int, e: Entry)
    requires e in t && e.sock != sock
    ensures e in Others(t, sock)
  {
    if e != t[|t| - 1] {
      OthersMembers(t[..|t| - 1], sock, e);
    }
  }

  lemma OrderedSnoc(t: seq<Entry>, e: Entry, next: nat)
    requires Ordered(t, e.id) && e.id < next
    ensures Ordered(t + [e], next) && Ordered(t, next)
  {
  }

  lemma OrderedInit(t: seq<Entry>, next: nat)
    requires Ordered(t, next) && t != []
    ensures Ordered(t[..|t| - 1], t[|t| - 1].id) && t[|t| - 1].id < next
  {
  }

  /** The others stand in the order of the table. */
  lemma {:induction false} OthersInOrder(t: seq<Entry>, sock: int, next: nat)
    requires Ordered(t, next)
    ensures Ordered(Others(t, sock), next)
    decreases |t|
  {
    if t != [] {
      var before, last := t[..|t| - 1], t[|t| - 1];
      OrderedInit(t, next);
      OthersInOrder(before, sock, last.id);
      OrderedSnoc(Others(before, sock), last, next);
      if last.sock == sock {
        assert Others(t, sock) == Others(before, sock) + [] == Others(before, sock);
      }
    }
  }

  lemma {:induction false} OthersCount(t: seq<Entry>, sock: int)
    ensures |Others(t, sock)| == |t| - Count(t, sock)
  {
    if t != [] {
      var last := |t| - 1;
      OthersCount(t[..last], sock);
      CountSnoc(t[..last], t[last], sock);
      assert t[..last] + [t[last]] == t;
    }
  }

  /** A broadcast goes to every client in the table on another socket, once each; on the sender's
      socket there is no other client, unless a receive error left one. */
  lemma SaidToAllOthers(s: Chat, sock: int, text: string)
    requires Inv(s) && Enabled(s, Say(sock, text))
    requires Find(s.table, sock) < |s.table| && s.table[Find(s.table, sock)].name != "" && !StartsWith(text, "exit")
    ensures var s' := Apply(s, Say(sock, text));
            var e := s.table[Find(s.table, sock)];
            && s'.table == s.table && |s'.sent| == |s.sent| + |s.table| - Count(s.table, sock)
            && (forall c :: c in s.table && c.sock != sock ==>
                  Sent(|s.heard|, c.id, c.sock, Line(e.name, text)) in s'.sent)
            && (s.stale == 0 ==> Count(s.table, sock) == 1 && forall c :: c in s.table && c != e ==> c.sock != sock)
  {
    var e := s.table[Find(s.table, sock)];
    OthersCount(s.table, sock);
    CountIsOne(s.table, Find(s.table, sock));
    forall c | c in s.table && c.sock != sock
      ensures Sent(|s.heard|, c.id, c.sock, Line(e.name, text)) in Apply(s, Say(sock, text)).sent
    {
      SaidTo(s.table, sock, |s.heard|, Line(e.name, text), c);
    }
  }

  lemma SaidTo(t: seq<Entry>, sock: int, msg: nat, line: string, c: Entry)
    requires c in t && c.sock != sock
    ensures Sent(msg, c.id, c.sock, line) in Broadcast(t, sock, msg, line)
  {
    OthersMembers(t, sock, c);
    var i :| 0 <= i < |Others(t, sock)| && Others(t, sock)[i] == c;
    assert Broadcast(t, sock, msg, line)[i] == Sent(msg, c.id, c.sock, line);
  }

  // ----- crashes

  lemma {:induction false} AfterSnoc(s: Chat, run: seq<Action>, a: Action)
    requires s.growth.len == |s.table|
    ensures After(s, run + [a]) == Apply(After(s, run), a)
    ensures Runnable(s, run + [a]) <==> Runnable(s, run) && Enabled(After(s, run), a)
    decreases |run|
  {
    if run == [] {
      assert [a][1..] == [] && run + [a] == [a];
      assert Runnable(Apply(s, a), []) && After(Apply(s, a), []) == Apply(s, a);
    } else {
      assert (run + [a])[1..] == run[1..] + [a];
      AfterSnoc(Apply(s, run[0]), run[1..], a);
    }
  }

  /** How many clients of the table were on the socket once it had last been accepted: those that
      were left behind on it, and the accepted one unless the table was full. */
  function Entries(run: seq<Action>, sock: int): nat {
    if run == [] then 0
    else
      var before := run[..|run| - 1];
      if run[|run| - 1] == Accept(sock) then
        var s := After(INIT, before);
        Count(s.table, sock) + if s.growth.Full() then 0 else 1
      else Entries(before, sock)
  }

  predicate TurnedAway(run: seq<Action>, sock: int) { Entries(run, sock) == 0 }

  predicate Shared(run: seq<Action>, sock: int) { Entries(run, sock) > 1 }

  lemma StepKeepsCount(s: Chat, a: Action, x: int)
    requires OrderInv(s) && a != Accept(x) && Apply(s, a).fault == NoFault && x in Apply(s, a).watched
    ensures Count(Apply(s, a).table, x) == Count(s.table, x)
  {
    match a
    case Accept(sock) => CountSnoc(s.table, Entry(s.next, sock, ""), x);
    case Say(sock, text) =>
      var k := Find(s.table, sock);
      if k < |s.table| && s.table[k].name == "" {
        CountRenamed(s.table, k, Clip(text), x);
      } else if k < |s.table| && StartsWith(text, "exit") {
        CountWithout(s.table, sock, x);
      }
    case Close(sock) =>
      if Find(s.table, sock) < |s.table| {
        CountWithout(s.table, sock, x);
      }
    case Fail(_) =>
  }

  /** As long as a socket is open, the clients on it are those of its last accept. */
  lemma {:induction false} EntriesExact(run: seq<Action>, x: int)
    requires Runnable(INIT, run) && After(INIT, run).fault == NoFault && x in After(INIT, run).watched
    ensures Count(After(INIT, run).table, x) == Entries(run, x)
  {
    if run != [] {
      var before, a := run[..|run| - 1], run[|run| - 1];
      assert before + [a] == run;
      AfterSnoc(INIT, before, a);
      InitInv();
      RunInv(INIT, before);
      var s := After(INIT, before);
      if a == Accept(x) {
        CountSnoc(s.table, Entry(s.next, x, ""), x);
      } else {
        StepKeepsCount(s, a, x);
        EntriesExact(before, x);
      }
    }
  }

  /** An open socket is missing from the table exactly if it was turned away. */
  lemma MissingIff(run: seq<Action>, x: int)
    requires Runnable(INIT, run) && After(INIT, run).fault == NoFault && x in After(INIT, run).watched
    ensures Find(After(INIT, run).table, x) == |After(INIT, run).table| <==> TurnedAway(run, x)
  {
    EntriesExact(run, x);
    CountIsZero(After(INIT, run).table, x);
  }

  /** The action ends a session. */
  predicate Disconnects(s: Chat, a: Action) {
    a.Close? ||
    (a.Say? && |a.text| >= 4 && a.text[..4] == "exit" &&
     var k := Find(s.table, a.sock); k < |s.table| && s.table[k].name != "")
  }

  /** After any run, receive errors included: a message makes the server read a missing client exactly
      if its socket was turned away at its last accept, and the end of a session makes it destroy a
      client twice exactly if another client was left behind on the socket. Nothing else does. */
  lemma CrashIff(run: seq<Action>, a: Action)
    requires Runnable(INIT, run) && Enabled(After(INIT, run), a)
    ensures var fault := After(INIT, run + [a]).fault;
            && (fault == MissingClient <==> a.Say? && TurnedAway(run, a.sock))
            && (fault == DoubleDestroy <==> Disconnects(After(INIT, run), a) && Shared(run, a.sock))
  {
    AfterSnoc(INIT, run, a);
    var t := After(INIT, run).table;
    CountIsZero(t, a.sock);
    if !a.Accept? {
      EntriesExact(run, a.sock);
    }
  }

  /** Over every run: without refusals no missing client is read and every open socket is in the
      table; without receive errors on clients' sockets no client is destroyed twice and only open
      sockets are in the table. */
  lemma FaultsNeedLoss(run: seq<Action>)
    requires Runnable(INIT, run)
    ensures var s := After(INIT, run);
            && (s.refused == 0 ==>
                  s.fault != MissingClient && forall x :: x in s.watched ==> Find(s.table, x) < |s.table|)
            && (s.stale == 0 ==>
                  s.fault != DoubleDestroy && forall x :: Find(s.table, x) < |s.table| ==> x in s.watched)
  {
    InitInv();
    RunInv(INIT, run);
    var s := After(INIT, run);
    forall x | s.stale == 0 && Find(s.table, x) < |s.table| ensures x in s.watched {
      assert s.table[Find(s.table, x)] in s.table;
    }
  }

  /** Clients connect on the sockets from 0 on, until the table holds `n`. */
  lemma {:induction false} Filled(n: nat) returns (run: seq<Action>)
    requires n <= LARGEST
    ensures Runnable(INIT, run)
    ensures var s := After(INIT, run);
            && s.fault == NoFault && s.refused == 0 && s.stale == 0 && |s.table| == n && (forall x :: x in s.watched ==> 0 <= x < n)
            && (forall i :: 0 <= i < n ==> s.table[i].sock < n)
  {
    if n == 0 {
      run := [];
    } else {
      var before := Filled(n - 1);
      var s := After(INIT, before);
      run := before + [Accept(n - 1)];
      AfterSnoc(INIT, before, Accept(n - 1));
      InitInv();
      RunInv(INIT, before);
      RefusedIff(s.growth);
    }
  }

  /** The crash: the table is full, one more client connects, and says something. */
  lemma OneClientTooMany() returns (run: seq<Action>)
    ensures Runnable(INIT, run) && After(INIT, run).fault == MissingClient && After(INIT, run).stale == 0
  {
    var full := Filled(LARGEST);
    var s := After(INIT, full);
    InitInv();
    RunInv(INIT, full);
    RefusedIff(s.growth);
    AfterSnoc(INIT, full, Accept(LARGEST));
    AfterSnoc(INIT, full + [Accept(LARGEST)], Say(LARGEST, "hello"));
    run := full + [Accept(LARGEST)] + [Say(LARGEST, "hello")];
  }

  /** What a receive error leads to: the client stays in the table, its descriptor can be
      handed out again, and then two clients of the table share it. */
  lemma ErrorLeavesStaleClient(s: Chat, sock: int)
    requires Inv(s) && Enabled(s, Fail(sock)) && Find(s.table, sock) < |s.table| && !s.growth.Full()
    ensures var s1 := Apply(s, Fail(sock));
            Enabled(s1, Accept(sock)) && !DistinctSocks(Apply(s1, Accept(sock)).table)
  {
    var s2 := Apply(Apply(s, Fail(sock)), Accept(sock));
    assert s2.table[Find(s.table, sock)].sock == s2.table[|s.table|].sock;
  }

  /** A client joins on the socket of another one. */
  predicate Joins(s: Chat, a: Action) {
    a.Accept? && !s.growth.Full() && Find(s.table, a.sock) < |s.table|
  }

  ghost predicate DistinctThroughout(s: Chat, run: seq<Action>)
    requires s.growth.len == |s.table|
    decreases |run|
  {
    DistinctSocks(s.table) && (run != [] ==> DistinctThroughout(Apply(s, run[0]), run[1..]))
  }

  ghost predicate NoneJoins(s: Chat, run: seq<Action>)
    requires s.growth.len == |s.table|
    decreases |run|
  {
    run != [] ==> !Joins(s, run[0]) && NoneJoins(Apply(s, run[0]), run[1..])
  }

  lemma DistinctStep(s: Chat, a: Action)
    requires s.growth.len == |s.table| && DistinctSocks(s.table)
    ensures DistinctSocks(Apply(s, a).table) <==> !Joins(s, a)
  {
    if a.Accept? {
      if Joins(s, a) {
        var t := Apply(s, a).table;
        assert t[Find(s.table, a.sock)].sock == t[|s.table|].sock;
      }
    } else {
      WithoutDistinct(s.table, a.sock);
    }
  }

  lemma {:induction false} DistinctRun(s: Chat, run: seq<Action>)
    requires s.growth.len == |s.table| && DistinctSocks(s.table)
    ensures DistinctThroughout(s, run) <==> NoneJoins(s, run)
    decreases |run|
  {
    if run != [] {
      DistinctStep(s, run[0]);
      if !Joins(s, run[0]) {
        DistinctRun(Apply(s, run[0]), run[1..]);
      }
    }
  }

  /** The clients of the table have different sockets in every state of a run exactly if none joins
      on a socket on which one was left behind. */
  lemma DistinctIff(run: seq<Action>)
    requires Runnable(INIT, run)
    ensures DistinctThroughout(INIT, run) <==> NoneJoins(INIT, run)
  {
    DistinctRun(INIT, run);
  }

  /** A receive error, a client on the same descriptor, and the end of its session: two clients share
      the socket, and one of them is destroyed twice. */
  lemma SocketReused() returns (run: seq<Action>)
    ensures run == [Accept(3), Fail(3), Accept(3)]
    ensures Runnable(INIT, run + [Close(3)]) && After(INIT, run).refused == 0
    ensures !DistinctSocks(After(INIT, run).table) && Shared(run, 3)
    ensures After(INIT, run + [Close(3)]).fault == DoubleDestroy
  {
    run := [Accept(3), Fail(3), Accept(3)];
    assert [] + [Accept(3)] == [Accept(3)];
    assert [Accept(3)] + [Fail(3)] == [Accept(3), Fail(3)];
    assert [Accept(3), Fail(3)] + [Accept(3)] == run;
    AfterSnoc(INIT, [], Accept(3));
    AfterSnoc(INIT, [Accept(3)], Fail(3));
    AfterSnoc(INIT, [Accept(3), Fail(3)], Accept(3));
    AfterSnoc(INIT, run, Close(3));
    var t := After(INIT, run).table;
    assert t == [Entry(0, 3, ""), Entry(1, 3, "")];
    assert t[0].sock == t[1].sock;
    EntriesExact(run, 3);
    CountIsOne(t, 0);
    CountIsZero(t, 3);
  }

  /** What a step means for the map from sockets to names. */
  function OnMap(m: map<int, string>, a: Action, full: bool): map<int, string> {
    match a
    case Accept(sock) => if full then m else m[sock := ""]
    case Say(sock, text) =>
      if sock !in m then m
      else if m[sock] == "" then m[sock := Clip(text)]
      else if |text| >= 4 && text[..4] == "exit" then m - {sock}
      else m
    case Close(sock) => m - {sock}
    case Fail(_) => m
  }

  lemma MessageOnMap(s: Chat, m: map<int, string>, sock: int, text: string)
    requires Inv(s) && StandsFor(s.table, m)
    ensures StandsFor(OnMessage(s, sock, text).table, OnMap(m, Say(sock, text), s.growth.Full()))
  {
    var k := Find(s.table, sock);
    FindIsLookup(s.table, m, sock);
    if k < |s.table| {
      RenameIsUpdate(s.table, m, k, Clip(text));
      WithoutIsRemoval(s.table, m, sock);
    }
  }

  /** Sessions on the map: a client connects without a name, its first message that is not empty
      names it, and "exit" or the end of the connection takes it out; nothing else changes
      the map. */
  lemma SessionOnMap(s: Chat, m: map<int, string>, a: Action)
    requires Inv(s) && s.stale == 0 && Enabled(s, a) && StandsFor(s.table, m)
    ensures StandsFor(Apply(s, a).table, OnMap(m, a, s.growth.Full()))
  {
    FindIsLookup(s.table, m, a.sock);
    match a
    case Accept(sock) =>
      if !s.growth.Full() {
        AddIsInsertion(s.table, m, Entry(s.next, sock, ""));
      }
    case Say(sock, text) => MessageOnMap(s, m, sock, text);
    case Close(sock) => WithoutIsRemoval(s.table, m, sock);
    case Fail(_) =>
  }
}
