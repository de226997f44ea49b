/** What each client of networking/epoll_chat_server/server.c is sent over a whole run. */
module ChatInbox {
  import opened Text
  import opened ClientTable
  import opened ChatSession

  /** What was sent to client `id`, in order. */
  function Inbox(sent: seq<Sent>, id: nat): seq<Sent> {
    if sent == [] then []
    else
      var last := sent[|sent| - 1];
      Inbox(sent[..|sent| - 1], id) + if last.to == id then [last] else []
  }

  /** What client `id` on socket `sock` should be sent: every message that was said on another
      socket, under the name of its sender, after the first `from` messages handled. */
  function Addressed(heard: seq<Heard>, from: nat, id: nat, sock: int): seq<Sent> {
    if |heard| <= from then []
    else
      var n := |heard| - 1;
      var h := heard[n];
      Addressed(heard[..n], from, id, sock) +
      if h.role == Said && h.sock != sock then [Sent(n, id, sock, Line(h.name, h.text))] else []
  }

  ghost predicate InboxOf(s: Chat, e: Entry) {
    && e.id < |s.joined| && s.joined[e.id] <= |s.heard|
    && Inbox(s.sent, e.id) == Addressed(s.heard, s.joined[e.id], e.id, e.sock)
  }

  ghost predicate InboxInv(s: Chat) {
    && |s.joined| == s.next
    && (forall d :: d in s.sent ==> d.to < s.next)
    && forall k :: 0 <= k < |s.table| ==> InboxOf(s, s.table[k])
  }

  lemma {:induction false} InboxAppend(a: seq<Sent>, b: seq<Sent>, id: nat)
    ensures Inbox(a + b, id) == Inbox(a, id) + Inbox(b, id)
  {
    if b == [] {
      assert a + b == a;
    } else {
      assert (a + b)[..|a + b| - 1] == a + b[..|b| - 1];
      InboxAppend(a, b[..|b| - 1], id);
    }
  }

  lemma {:induction false} NothingSent(sent: seq<Sent>, id: nat)
    requires forall d :: d in sent ==> d.to != id
    ensures Inbox(sent, id) == []
  {
    if sent != [] {
      NothingSent(sent[..|sent| - 1], id);
    }
  }

  lemma AddressedSnoc(heard: seq<Heard>, h: Heard, from: nat, id: nat, sock: int)
    requires from <= |heard|
    ensures Addressed(heard + [h], from, id, sock) ==
            Addressed(heard, from, id, sock) +
            if h.role == Said && h.sock != sock then [Sent(|heard|, id, sock, Line(h.name, h.text))] else []
  {
    assert (heard + [h])[..|heard|] == heard;
  }

  function OneSend(e: Entry, sock: int, msg: nat, line: string): seq<Sent> {
    if e.sock != sock then [Sent(msg, e.id, e.sock, line)] else []
  }

  lemma BroadcastSnoc(t: seq<Entry>, sock: int, msg: nat, line: string)
    requires t != []
    ensures Broadcast(t, sock, msg, line) ==
            Broadcast(t[..|t| - 1], sock, msg, line) + OneSend(t[|t| - 1], sock, msg, line)
  {
  }

  lemma OneSendInbox(e: Entry, sock: int, msg: nat, line: string, id: nat)
    ensures Inbox(OneSend(e, sock, msg, line), id) == if e.id == id then OneSend(e, sock, msg, line) else []
  {
    var one := OneSend(e, sock, msg, line);
    if one != [] {
      assert one[..|one| - 1] == [];
    }
  }

  lemma StrangerGetsNothing(t: seq<Entry>, sock: int, msg: nat, line: string, id: nat)
    requires forall e :: e in t ==> e.id != id
    ensures Inbox(Broadcast(t, sock, msg, line), id) == []
  {
    var b := Broadcast(t, sock, msg, line);
    forall i | 0 <= i < |b| ensures b[i].to != id {
      assert Others(t, sock)[i] in t;
    }
    NothingSent(b, id);
  }

  lemma InboxGrows(t: seq<Entry>, sock: int, msg: nat, line: string, id: nat)
    requires t != []
    ensures var last := t[|t| - 1];
            Inbox(Broadcast(t, sock, msg, line), id) ==
            Inbox(Broadcast(t[..|t| - 1], sock, msg, line), id) +
            if last.id == id then OneSend(last, sock, msg, line) else []
  {
    var before, one := Broadcast(t[..|t| - 1], sock, msg, line), OneSend(t[|t| - 1], sock, msg, line);
    BroadcastSnoc(t, sock, msg, line);
    InboxAppend(before, one, id);
    OneSendInbox(t[|t| - 1], sock, msg, line, id);
  }

  /** A broadcast puts one message into the inbox of each client on another socket. */
  lemma {:induction false} BroadcastInbox(t: seq<Entry>, sock: int, msg: nat, line: string, k: nat)
    requires k < |t| && forall i, j :: 0 <= i < j < |t| ==> t[i].id != t[j].id
    ensures Inbox(Broadcast(t, sock, msg, line), t[k].id) == OneSend(t[k], sock, msg, line)
    decreases |t|
  {
    var last := |t| - 1;
    InboxGrows(t, sock, msg, line, t[k].id);
    if k < last {
      BroadcastInbox(t[..last], sock, msg, line, k);
    } else {
      StrangerGetsNothing(t[..last], sock, msg, line, t[k].id);
    }
  }

  /** A message by the client in slot `k` that is handled, and sent around if it is said. */
  lemma SaidKeepsInbox(s: Chat, k: nat, text: string, e: Entry)
    requires OrderInv(s) && k < |s.table| && e in s.table && InboxOf(s, e)
    ensures var c := s.table[k];
            var b := Broadcast(s.table, c.sock, |s.heard|, Line(c.name, text));
            InboxOf(s.(heard := s.heard + [Heard(c.id, c.sock, c.name, text, Said)], sent := s.sent + b), e)
  {
    var c := s.table[k];
    var b := Broadcast(s.table, c.sock, |s.heard|, Line(c.name, text));
    var i :| 0 <= i < |s.table| && s.table[i] == e;
    BroadcastInbox(s.table, c.sock, |s.heard|, Line(c.name, text), i);
    InboxAppend(s.sent, b, e.id);
    AddressedSnoc(s.heard, Heard(c.id, c.sock, c.name, text, Said), s.joined[e.id], e.id, e.sock);
  }

  /** A message that is not said, or none at all, changes no inbox. */
  lemma SilentKeepsInbox(s: Chat, s': Chat, e: Entry, f: Entry)
    requires InboxOf(s, e) && f.id == e.id && f.sock == e.sock
    requires s'.sent == s.sent && s.joined <= s'.joined
    requires s'.heard == s.heard || exists h: Heard :: h.role != Said && s'.heard == s.heard + [h]
    ensures InboxOf(s', f)
  {
    if s'.heard != s.heard {
      var h: Heard :| h.role != Said && s'.heard == s.heard + [h];
      AddressedSnoc(s.heard, h, s.joined[e.id], e.id, e.sock);
    }
  }

  lemma AcceptKeepsInbox(s: Chat, sock: int)
    requires OrderInv(s) && InboxInv(s)
    ensures InboxInv(Apply(s, Accept(sock)))
  {
    var s' := Apply(s, Accept(sock));
    forall i | 0 <= i < |s'.table| ensures InboxOf(s', s'.table[i]) {
      if i < |s.table| {
        SilentKeepsInbox(s, s', s.table[i], s'.table[i]);
      } else {
        NothingSent(s.sent, s.next);
      }
    }
  }

  /** A step of a connected client that says nothing to the others. */
  lemma QuietKeepsInbox(s: Chat, a: Action)
    requires OrderInv(s) && InboxInv(s) && !a.Accept? && Apply(s, a).sent == s.sent
    requires Apply(s, a).heard == s.heard || exists h: Heard :: h.role != Said && Apply(s, a).heard == s.heard + [h]
    ensures InboxInv(Apply(s, a))
  {
    var s' := Apply(s, a);
    forall i | 0 <= i < |s'.table| ensures InboxOf(s', s'.table[i]) {
      var e := StepOrigin(s, a, s'.table[i]);
      SilentKeepsInbox(s, s', e, s'.table[i]);
    }
  }

  /** What the others hear of a step: a message, or nothing. */
  lemma SaidOrQuiet(s: Chat, a: Action)
    requires OrderInv(s) && !a.Accept?
    ensures var s', k := Apply(s, a), Find(s.table, a.sock);
            if a.Say? && k < |s.table| && s.table[k].name != "" && !StartsWith(a.text, "exit") then
              s' == s.(heard := s.heard + [Heard(s.table[k].id, a.sock, s.table[k].name, a.text, Said)],
                       sent := s.sent + Broadcast(s.table, a.sock, |s.heard|, Line(s.table[k].name, a.text)))
            else
              s'.sent == s.sent &&
              (s'.heard == s.heard || exists h: Heard :: h.role != Said && s'.heard == s.heard + [h])
  {
    var k := Find(s.table, a.sock);
    if a.Say? && k < |s.table| && s.table[k].name == "" {
      assert Heard(s.table[k].id, a.sock, s.table[k].name, a.text, Naming).role != Said;
    } else if a.Say? && k < |s.table| && StartsWith(a.text, "exit") {
      assert Heard(s.table[k].id, a.sock, s.table[k].name, a.text, Leaving).role != Said;
    }
  }

  lemma InboxKept(s: Chat, a: Action)
    requires OrderInv(s) && InboxInv(s)
    ensures InboxInv(Apply(s, a))
  {
    if a.Accept? {
      AcceptKeepsInbox(s, a.sock);
    } else {
      var s', k := Apply(s, a), Find(s.table, a.sock);
      SaidOrQuiet(s, a);
      if a.Say? && k < |s.table| && s.table[k].name != "" && !StartsWith(a.text, "exit") {
        forall i | 0 <= i < |s.table| ensures InboxOf(s', s.table[i]) {
          SaidKeepsInbox(s, k, a.text, s.table[i]);
        }
      } else {
        QuietKeepsInbox(s, a);
      }
    }
  }

  lemma {:induction false} InboxRun(s: Chat, run: seq<Action>)
    requires OrderInv(s) && InboxInv(s) && Runnable(s, run)
    ensures InboxInv(After(s, run))
    decreases |run|
  {
    if run != [] {
      OrderKept(s, run[0]);
      InboxKept(s, run[0]);
      InboxRun(Apply(s, run[0]), run[1..]);
    }
  }

  /** Over every run: each connected client has been sent, once and in order, exactly the messages
      said on other sockets since it joined, each under the name of its sender. */
  lemma InboxExact(run: seq<Action>, k: nat)
    requires Runnable(INIT, run) && k < |After(INIT, run).table|
    ensures var s := After(INIT, run);
            var e := s.table[k];
            && e.id < |s.joined| && s.joined[e.id] <= |s.heard|
            && Inbox(s.sent, e.id) == Addressed(s.heard, s.joined[e.id], e.id, e.sock)
  {
    InitInv();
    InboxRun(INIT, run);
  }
}
