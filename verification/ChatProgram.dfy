/** The request loop of networking/epoll_chat_server/server.c on the array of client objects and
    the reused buffer, proved to be a run of `ChatSession`. */
module ChatProgram {
  import opened Text
  import opened ClientTable
  import opened ClientArray
  import opened ChatSession
  import opened ChatBuffer
  import opened ChatInbox

  /** What one call of `recv` returns: data, the end of the connection, nothing yet, an error. */
  datatype Recv = Data(bytes: string) | Eof | Again | Error

  predicate Fits(recvs: seq<Recv>) {
    forall i :: 0 <= i < |recvs| && recvs[i].Data? ==> 0 < |recvs[i].bytes| < 1024
  }

  /** After this message the loop of `handle_request` does not go on. */
  predicate Ends(s: Chat, sock: int, text: string) {
    var k := Find(s.table, sock);
    k == |s.table| || (s.table[k].name != "" && StartsWith(text, "exit"))
  }

  /** The session steps that one call of `handle_request` takes. */
  function Steps(s: Chat, buf: string, sock: int, recvs: seq<Recv>): seq<Action>
    requires s.growth.len == |s.table| && |buf| == BUF_SIZE && Fits(recvs)
    decreases |recvs|
  {
    if recvs == [] || recvs[0].Again? then []
    else if recvs[0].Eof? then [Close(sock)]
    else if recvs[0].Error? then [Fail(sock)]
    else
      var r := Received(buf, recvs[0].bytes);
      var a := Say(sock, Shown(buf, recvs[0].bytes));
      [a] +
      if Ends(s, sock, a.text) || |CString(r)| == |r| then []
      else Steps(Apply(s, a), Trimmed(r), sock, recvs[1..])
  }

  /** The kernel reports requests on open sockets; then all of the call is a run of the server. */
  lemma {:induction false} StepsRunnable(s: Chat, buf: string, sock: int, recvs: seq<Recv>)
    requires s.growth.len == |s.table| && |buf| == BUF_SIZE && Fits(recvs)
    requires s.fault == NoFault && sock in s.watched
    ensures Runnable(s, Steps(s, buf, sock, recvs))
    decreases |recvs|
  {
    if recvs != [] && recvs[0].Data? {
      var r := Received(buf, recvs[0].bytes);
      var a := Say(sock, Shown(buf, recvs[0].bytes));
      if !Ends(s, sock, a.text) && |CString(r)| < |r| {
        StepsRunnable(Apply(s, a), Trimmed(r), sock, recvs[1..]);
        assert Steps(s, buf, sock, recvs)[1..] == Steps(Apply(s, a), Trimmed(r), sock, recvs[1..]);
      }
    }
  }

  lemma AfterFirst(s: Chat, a: Action, rest: seq<Action>)
    requires s.growth.len == |s.table|
    ensures After(s, [a] + rest) == After(Apply(s, a), rest)
  {
    assert ([a] + rest)[1..] == rest;
  }

  /** The steps of a call, by what its first receive returns. */
  lemma FirstRecv(s: Chat, buf: string, sock: int, r: Recv, rest: seq<Recv>)
    requires s.growth.len == |s.table| && |buf| == BUF_SIZE && Fits([r] + rest)
    ensures Fits(rest) && (r.Data? ==> |r.bytes| < BUF_SIZE)
    ensures var end := After(s, Steps(s, buf, sock, [r] + rest));
            match r
            case Data(bytes) =>
              var now := Received(buf, bytes);
              var s' := Apply(s, Say(sock, Shown(buf, bytes)));
              if Ends(s, sock, Shown(buf, bytes)) || |CString(now)| == |now| then end == s'
              else end == After(s', Steps(s', Trimmed(now), sock, rest))
            case Eof => end == Apply(s, Close(sock))
            case Again => end == s
            case Error => end == Apply(s, Fail(sock))
  {
    var all := [r] + rest;
    assert all[0] == r && all[1..] == rest;
    assert forall i :: 0 <= i < |rest| ==> rest[i] == all[i + 1];
    match r
    case Data(bytes) =>
      var now := Received(buf, bytes);
      var a := Say(sock, Shown(buf, bytes));
      AfterFirst(s, a, []);
      if !Ends(s, sock, a.text) && |CString(now)| < |now| {
        AfterFirst(s, a, Steps(Apply(s, a), Trimmed(now), sock, rest));
      }
    case Eof => AfterFirst(s, Close(sock), []);
    case Again =>
    case Error => AfterFirst(s, Fail(sock), []);
  }

  // ----- whole runs

  /** What `epoll_wait` reports: a connection to accept, or a socket with something to receive. */
  datatype Report = NewConnection(sock: int) | Ready(sock: int, recvs: seq<Recv>)

  function ReportSteps(s: Chat, r: Report): seq<Action>
    requires s.growth.len == |s.table| && (r.Ready? ==> Fits(r.recvs))
  {
    match r
    case NewConnection(sock) => [Accept(sock)]
    case Ready(sock, recvs) => Steps(s, seq(1024, _ => '\0'), sock, recvs)
  }

  /** The kernel accepts on free sockets and reports open ones, for as long as the server is up. */
  predicate Possible(s: Chat, reports: seq<Report>)
    requires s.growth.len == |s.table|
    decreases |reports|
  {
    reports == [] ||
    var r := reports[0];
    && s.fault == NoFault && (r.NewConnection? <==> r.sock !in s.watched) && (r.Ready? ==> Fits(r.recvs))
    && Possible(After(s, ReportSteps(s, r)), reports[1..])
  }

  /** The session steps that the server takes for all the reports. */
  function AllSteps(s: Chat, reports: seq<Report>): seq<Action>
    requires s.growth.len == |s.table| && Possible(s, reports)
    decreases |reports|
  {
    if reports == [] then []
    else
      var now := ReportSteps(s, reports[0]);
      now + AllSteps(After(s, now), reports[1..])
  }

  lemma {:induction false} AfterAppend(s: Chat, first: seq<Action>, second: seq<Action>)
    requires s.growth.len == |s.table|
    ensures After(s, first + second) == After(After(s, first), second)
    ensures Runnable(s, first) && Runnable(After(s, first), second) ==> Runnable(s, first + second)
    decreases |first|
  {
    if first == [] {
      assert first + second == second;
    } else {
      assert (first + second)[1..] == first[1..] + second;
      AfterAppend(Apply(s, first[0]), first[1..], second);
    }
  }

  /** Whatever is reported and received, what the server does is a run of the session machine. */
  lemma {:induction false} AllStepsRunnable(s: Chat, reports: seq<Report>)
    requires s.growth.len == |s.table| && Possible(s, reports)
    ensures Runnable(s, AllSteps(s, reports))
    decreases |reports|
  {
    if reports != [] {
      var r, now := reports[0], ReportSteps(s, reports[0]);
      if r.Ready? {
        StepsRunnable(s, seq(BUF_SIZE, _ => '\0'), r.sock, r.recvs);
      } else {
        assert Runnable(Apply(s, Accept(r.sock)), []) && now[1..] == [];
      }
      AllStepsRunnable(After(s, now), reports[1..]);
      AfterAppend(s, now, AllSteps(After(s, now), reports[1..]));
    }
  }

  class Server {
    const clients: Clients
    var next: nat            // how many clients have connected
    var handled: nat         // how many messages have been handled
    var sent: seq<Sent>      // what was sent
    var fault: Fault
    ghost var chat: Chat

    ghost predicate Valid()
      reads this, clients, clients.items, clients.list
    {
      && clients.Valid() && OrderInv(chat)
      && Values(clients.list) == chat.table && clients.growth == chat.growth
      && next == chat.next && handled == |chat.heard| && sent == chat.sent && fault == chat.fault
    }

    constructor ()
      ensures Valid() && chat == INIT
      ensures fresh(clients) && fresh(clients.items) && clients.list == []
    {
      clients := new Clients();
      next, handled, sent, fault := 0, 0, [], NoFault;
      chat := INIT;
      InitInv();
    }

    /** `clients_add` of a client without a name. */
    method AddClient(sock: int) returns (status: int)
      requires clients.Valid()
      modifies clients, clients.items
      ensures clients.Valid() && clients.growth == old(clients.growth).Added()
      ensures status == if old(clients.growth).Full() then -1 else 0
      ensures Values(clients.list) ==
              old(Values(clients.list)) + if status == 0 then [Entry(next, sock, "")] else []
      ensures clients.items == old(clients.items) || fresh(clients.items)
      ensures forall i :: 0 <= i < |clients.list| ==> clients.list[i] in old(clients.list) || fresh(clients.list[i])
    {
      status := clients.Add(next, sock, "");
    }

    /** Line 338: a connection is accepted; the result of `clients_add` is ignored. */
    method AcceptClient(sock: int)
      requires Valid() && Enabled(chat, Accept(sock))
      modifies this, clients, clients.items
      ensures Valid() && chat == Apply(old(chat), Accept(sock))
      ensures clients.items == old(clients.items) || fresh(clients.items)
      ensures forall i :: 0 <= i < |clients.list| ==> clients.list[i] in old(clients.list) || fresh(clients.list[i])
    {
      OrderKept(chat, Accept(sock));
      var status := AddClient(sock);
      if status == 0 {
        next := next + 1;
      }
      chat := Apply(chat, Accept(sock));
    }

    /** `broadcast`: one send to each client on another socket. */
    method BroadcastMessage(msg: string, client: Client)
      requires Valid()
      modifies this`sent
      ensures sent == old(sent) + Broadcast(Values(clients.list), client.sock, handled, Line(client.name, msg))
    {
      var line := Line(client.name, msg);
      ghost var t := Values(clients.list);
      assert t[..0] == [];
      for i := 0 to clients.len
        invariant sent == old(sent) + Broadcast(t[..i], client.sock, handled, line)
      {
        var c := clients.items[i];
        assert c == clients.items[..clients.len][i] == clients.list[i];
        assert t[..i + 1][..i] == t[..i];
        if c.sock != client.sock {
          sent := sent + [Sent(handled, c.id, c.sock, line)];
        }
      }
      assert t[..clients.len] == t;
    }

    /** Line 233: the first message of a client is its name. */
    method NameClient(client: Client, text: string, ghost k: nat)
      requires Valid() && k < |clients.list| && clients.list[k] == client
      requires k == Find(chat.table, client.sock) && client.name == ""
      modifies this, client
      ensures Valid() && chat == Apply(old(chat), Say(client.sock, text))
    {
      OrderKept(chat, Say(client.sock, text));
      ghost var before := Values(clients.list);
      forall i | 0 <= i < |clients.list| && i != k ensures clients.list[i] != client {
        assert before[i].id != before[k].id;
      }
      var updated := client.UpdateName(text, false);
      handled := handled + 1;
      assert Values(clients.list) == before[k := before[k].(name := Clip(text))];
      chat := Apply(chat, Say(client.sock, text));
    }

    /** The client leaves the table, and is destroyed as often as its socket occurs there. */
    method Remove(client: Client) returns (destroys: nat)
      requires clients.Valid() && Find(Values(clients.list), client.sock) < |clients.list|
      modifies clients, clients.items
      ensures clients.Valid() && clients.items == old(clients.items)
      ensures destroys == Count(old(Values(clients.list)), client.sock)
      ensures Values(clients.list) == Without(old(Values(clients.list)), client.sock)
      ensures clients.growth == old(clients.growth).Removed()
      ensures forall i :: 0 <= i < |clients.list| ==> clients.list[i] in old(clients.list)
    {
      ghost var list, t := clients.list, Values(clients.list);
      destroys := clients.Disconnect(client);
      assert Values(list) == t;
      ValuesWithout(list, client.sock);
    }

    /** `client_disconnect`. */
    method Disconnect(client: Client)
      requires Valid() && Find(chat.table, client.sock) < |chat.table|
      modifies this`chat, this`fault, clients, clients.items
      ensures Valid() && chat == Leave(old(chat), client.sock) && clients.items == old(clients.items)
      ensures forall i :: 0 <= i < |clients.list| ==> clients.list[i] in old(clients.list)
    {
      LeaveOrder(chat, client.sock);
      var destroys := Remove(client);
      if destroys > 1 {
        fault := DoubleDestroy;
      }
      chat := Leave(chat, client.sock);
    }

    /** Lines 209 to 212: a message that ends the session. */
    method SayGoodbye(client: Client, text: string, ghost k: nat)
      requires Valid() && k < |clients.list| && clients.list[k] == client
      requires k == Find(chat.table, client.sock) && client.name != "" && StartsWith(text, "exit")
      modifies this, clients, clients.items
      ensures Valid() && chat == Apply(old(chat), Say(client.sock, text))
      ensures clients.items == old(clients.items)
      ensures forall i :: 0 <= i < |clients.list| ==> clients.list[i] in old(clients.list)
    {
      assert chat.table[k] == client.Value();
      ghost var heard := chat.heard + [Heard(client.id, client.sock, client.name, text, Leaving)];
      Disconnect(client);
      handled := handled + 1;
      chat := chat.(heard := heard);
    }

    /** Line 214: any other message. */
    method SayToOthers(client: Client, text: string, ghost k: nat)
      requires Valid() && k < |clients.list| && clients.list[k] == client
      requires k == Find(chat.table, client.sock) && client.name != "" && !StartsWith(text, "exit")
      modifies this
      ensures Valid() && chat == Apply(old(chat), Say(client.sock, text))
    {
      assert chat.table[k] == client.Value();
      ghost var s, heard := chat, Heard(client.id, client.sock, client.name, text, Said);
      BroadcastMessage(text, client);
      handled := handled + 1;
      chat := s.(heard := s.heard + [heard], sent := sent);
    }

    /** `process_message` on a named client. */
    method ProcessMessage(client: Client, text: string, ghost k: nat) returns (disconnected: bool)
      requires Valid() && k < |clients.list| && clients.list[k] == client
      requires k == Find(chat.table, client.sock) && client.name != ""
      modifies this, clients, clients.items
      ensures Valid() && chat == Apply(old(chat), Say(client.sock, text))
      ensures disconnected <==> StartsWith(text, "exit")
      ensures clients.items == old(clients.items)
      ensures forall i :: 0 <= i < |clients.list| ==> clients.list[i] in old(clients.list)
    {
      disconnected := StartsWith(text, "exit");
      if disconnected {
        SayGoodbye(client, text, k);
      } else {
        SayToOthers(client, text, k);
      }
    }

    /** Lines 230 to 243: what is done with one message. */
    method OnText(sock: int, text: string) returns (stop: bool)
      requires Valid() && fault == NoFault
      modifies this, clients, clients.items, clients.list
      ensures Valid() && chat == Apply(old(chat), Say(sock, text))
      ensures stop <==> Ends(old(chat), sock, text)
      ensures clients.items == old(clients.items)
      ensures forall i :: 0 <= i < |clients.list| ==> clients.list[i] in old(clients.list)
    {
      var client := clients.GetBySocket(sock);
      ghost var k := Find(chat.table, sock);
      if client == null {
        fault := MissingClient;
        chat := chat.(fault := MissingClient);
        return true;
      }
      assert client == clients.list[k] && Values(clients.list)[k] == client.Value();
      if client.name == "" {
        NameClient(client, text, k);
        return false;
      }
      stop := ProcessMessage(client, text, k);
    }

    /** What `recv` and `etrim_whitespaces` make of the buffer. */
    method Receive(buf: array<char>, data: string) returns (text: string)
      requires BufferInv(buf[..]) && |data| < BUF_SIZE
      modifies buf
      ensures BufferInv(buf[..]) && |CString(Received(old(buf[..]), data))| < BUF_SIZE
      ensures buf[..] == Trimmed(Received(old(buf[..]), data)) && text == Shown(old(buf[..]), data)
    {
      ghost var was := buf[..];
      ReceivedKeeps(was, data);
      forall i | 0 <= i < |data| {
        buf[i] := data[i];
      }
      assert buf[..] == Received(was, data);
      TrimInPlace(buf);
      TrimmedShows(Received(was, data));
      text := CString(buf[..]);
    }

    /** Lines 225 to 243: data has been received. */
    method OnData(sock: int, buf: array<char>, data: string) returns (stop: bool)
      requires Valid() && fault == NoFault && BufferInv(buf[..]) && |data| < BUF_SIZE
      modifies this, clients, clients.items, clients.list, buf
      ensures Valid() && BufferInv(buf[..]) && clients.items == old(clients.items)
      ensures forall i :: 0 <= i < |clients.list| ==> clients.list[i] in old(clients.list)
      ensures |CString(Received(old(buf[..]), data))| < BUF_SIZE
      ensures buf[..] == Trimmed(Received(old(buf[..]), data))
      ensures chat == Apply(old(chat), Say(sock, Shown(old(buf[..]), data)))
      ensures stop <==> Ends(old(chat), sock, Shown(old(buf[..]), data))
    {
      var text := Receive(buf, data);
      stop := OnText(sock, text);
    }

    /** Lines 244 to 250: the client closed the connection. */
    method OnEof(sock: int)
      requires Valid()
      modifies this`chat, this`fault, clients, clients.items
      ensures Valid() && chat == Apply(old(chat), Close(sock)) && clients.items == old(clients.items)
      ensures forall i :: 0 <= i < |clients.list| ==> clients.list[i] in old(clients.list)
    {
      var client := clients.GetBySocket(sock);
      if client != null {
        assert client == clients.list[Find(chat.table, sock)];
        Disconnect(client);
      }
    }

    /** One round of the loop of `handle_request`, and whether it leaves the loop. */
    method OnRecv(sock: int, buf: array<char>, r: Recv, ghost rest: seq<Recv>) returns (stop: bool)
      requires Valid() && fault == NoFault && BufferInv(buf[..]) && Fits([r] + rest)
      modifies this, clients, clients.items, clients.list, buf
      ensures Valid() && BufferInv(buf[..]) && clients.items == old(clients.items)
      ensures forall i :: 0 <= i < |clients.list| ==> clients.list[i] in old(clients.list)
      ensures Fits(rest)
      ensures After(old(chat), Steps(old(chat), old(buf[..]), sock, [r] + rest)) ==
              if stop then chat else After(chat, Steps(chat, buf[..], sock, rest))
      ensures !stop ==> fault == NoFault
    {
      FirstRecv(chat, buf[..], sock, r, rest);
      match r {
        case Data(bytes) => stop := OnData(sock, buf, bytes);
        case Eof => OnEof(sock); stop := true;
        case Again => stop := true;
        case Error => chat := Apply(chat, Fail(sock)); stop := true;
      }
    }

    /** The round for the receive at `i`, on the way to the state `goal`. */
    method Round(sock: int, buf: array<char>, recvs: seq<Recv>, i: nat, ghost goal: Chat) returns (stop: bool)
      requires Valid() && fault == NoFault && BufferInv(buf[..]) && i < |recvs| && Fits(recvs[i..])
      requires goal == After(chat, Steps(chat, buf[..], sock, recvs[i..]))
      modifies this, clients, clients.items, clients.list, buf
      ensures Valid() && BufferInv(buf[..]) && clients.items == old(clients.items)
      ensures forall j :: 0 <= j < |clients.list| ==> clients.list[j] in old(clients.list)
      ensures Fits(recvs[i + 1..])
      ensures goal == if stop then chat else After(chat, Steps(chat, buf[..], sock, recvs[i + 1..]))
      ensures !stop ==> fault == NoFault
    {
      assert recvs[i..] == [recvs[i]] + recvs[i + 1..];
      stop := OnRecv(sock, buf, recvs[i], recvs[i + 1..]);
    }

    /** The loop of `handle_request`: messages are taken until there is none left, the session
        ends, or the receive fails. */
    method ReceiveLoop(sock: int, buf: array<char>, recvs: seq<Recv>)
      requires Valid() && fault == NoFault && BufferInv(buf[..]) && Fits(recvs)
      modifies this, clients, clients.items, clients.list, buf
      ensures clients.items == old(clients.items)
      ensures forall i :: 0 <= i < |clients.list| ==> clients.list[i] in old(clients.list)
      ensures Valid() && chat == After(old(chat), Steps(old(chat), old(buf[..]), sock, recvs))
    {
      ghost var goal := After(chat, Steps(chat, buf[..], sock, recvs));
      var i, stop := 0, false;
      assert recvs[0..] == recvs;
      while i < |recvs| && !stop
        invariant 0 <= i <= |recvs| && Fits(recvs[i..])
        invariant Valid() && BufferInv(buf[..]) && clients.items == old(clients.items)
        invariant forall j :: 0 <= j < |clients.list| ==> clients.list[j] in old(clients.list)
        invariant !stop ==> fault == NoFault
        invariant goal == if stop then chat else After(chat, Steps(chat, buf[..], sock, recvs[i..]))
      {
        stop := Round(sock, buf, recvs, i, goal);
        i := i + 1;
      }
    }

    /** `handle_request`: the buffer is zeroed once for all the messages of the call. */
    method HandleRequest(sock: int, recvs: seq<Recv>)
      requires Valid() && fault == NoFault && Fits(recvs)
      modifies this, clients, clients.items, clients.list
      ensures clients.items == old(clients.items)
      ensures forall i :: 0 <= i < |clients.list| ==> clients.list[i] in old(clients.list)
      ensures Valid()
      ensures chat == After(old(chat), Steps(old(chat), seq(BUF_SIZE, _ => '\0'), sock, recvs))
    {
      var buf := new char[BUF_SIZE](_ => '\0');
      assert buf[..] == seq(BUF_SIZE, _ => '\0');
      ReceiveLoop(sock, buf, recvs);
    }

    /** Lines 325 to 340: what one report leads to. */
    method HandleReport(r: Report)
      requires Valid() && fault == NoFault && (r.NewConnection? <==> r.sock !in chat.watched) && (r.Ready? ==> Fits(r.recvs))
      modifies this, clients, clients.items, clients.list
      ensures Valid() && chat == After(old(chat), ReportSteps(old(chat), r))
      ensures clients.items == old(clients.items) || fresh(clients.items)
      ensures forall i :: 0 <= i < |clients.list| ==> clients.list[i] in old(clients.list) || fresh(clients.list[i])
    {
      match r {
        case NewConnection(sock) =>
          AfterFirst(chat, Accept(sock), []);
          assert [Accept(sock)] + [] == [Accept(sock)];
          AcceptClient(sock);
        case Ready(sock, recvs) =>
          HandleRequest(sock, recvs);
      }
    }

    /** The loop of `main`. */
    method Serve(reports: seq<Report>)
      requires Valid() && Possible(chat, reports)
      modifies this, clients, clients.items, clients.list
      ensures Valid() && chat == After(old(chat), AllSteps(old(chat), reports))
      decreases |reports|
    {
      if reports != [] {
        ghost var s := chat;
        ghost var now := ReportSteps(s, reports[0]);
        AfterAppend(s, now, AllSteps(After(s, now), reports[1..]));
        HandleReport(reports[0]);
        Serve(reports[1..]);
      }
    }
  }

  /** A whole run of the program: whatever is reported and received, it ends in a state that the
      session machine reaches; there the clients go by their first words, and each connected client has
      been sent exactly the messages said on other sockets since it joined. */
  method RunServer(reports: seq<Report>) returns (server: Server)
    requires Possible(INIT, reports)
    ensures server.Valid() && server.chat == After(INIT, AllSteps(INIT, reports))
    ensures Runnable(INIT, AllSteps(INIT, reports))
    ensures NameInv(server.chat)
    ensures forall d :: d in server.sent ==>
              && d.msg < |server.chat.heard| && server.chat.heard[d.msg].name != ""
              && d.to != server.chat.heard[d.msg].id
              && d.text == Line(server.chat.heard[d.msg].name, server.chat.heard[d.msg].text)
    ensures forall k :: 0 <= k < |server.chat.table| ==>
              var e := server.chat.table[k];
              && e.id < |server.chat.joined|
              && Inbox(server.sent, e.id) == Addressed(server.chat.heard, server.chat.joined[e.id], e.id, e.sock)
  {
    server := new Server();
    server.Serve(reports);
    ghost var run := AllSteps(INIT, reports);
    AllStepsRunnable(INIT, reports);
    NamesAreFirstWords(run);
    MessagesOfRun(run);
    forall k | 0 <= k < |server.chat.table|
      ensures var e := server.chat.table[k];
              && e.id < |server.chat.joined|
              && Inbox(server.sent, e.id) == Addressed(server.chat.heard, server.chat.joined[e.id], e.id, e.sock)
    {
      InboxExact(run, k);
    }
  }
}
