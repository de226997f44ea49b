/** What messages do in networking/threaded_chat_server_with_channels/server.c, from their bytes on. */
module ChannelRuns {
  import opened Text
  import opened ChannelMessages
  import opened ChannelRegistry
  import opened ChannelProtocol
  import opened ChannelProgram

  /** A message that begins with no number, or with 0, costs its sender the connection, and nobody
      else; nothing is logged or posted. */
  lemma RefusedDropsSender(s: State, r: nat, buf: string, n: Numeral, tail: string, beyond: string)
    requires Reachable(s) && r < |s.clients| && s.clients[r].pc == AtAdd(buf)
    requires n.Reads() && ' ' !in n.Whole() && Positional(n.digits) == 0
    requires CString(buf) == n.Whole() || CString(buf) == n.Whole() + " " + tail
    ensures Enabled(s, Work(r, beyond))
    ensures var s' := Apply(s, Work(r, beyond));
            && s'.log == s.log && s'.sem == s.sem
            && (forall c :: c in s'.conns <==> c in s.conns && c != r)
            && s'.clients == s.clients[r := s.clients[r].(pc := AtFailUnlock)]
  {
    ReachableInv(s);
    ParseReads(n, tail);
    DropExact(s, r);
  }

  /** Any other message with a space is logged for its sender, under the number at its start and with
      everything behind the space as its text; the connection stays. */
  lemma NumberedIsLogged(s: State, r: nat, buf: string, n: Numeral, text: string, beyond: string)
    requires Reachable(s) && r < |s.clients| && s.clients[r].pc == AtAdd(buf)
    requires n.Reads() && ' ' !in n.Whole() && Positional(n.digits) != 0
    requires CString(buf) == n.Whole() + " " + text
    ensures Enabled(s, Work(r, beyond))
    ensures var s' := Apply(s, Work(r, beyond));
            && s'.log == s.log + [Event(r, n.Value(), text)] && s'.conns == s.conns
            && s'.clients == s.clients[r := s.clients[r].(pc := AtPost)]
  {
    ReachableInv(s);
    ParseReads(n, text);
  }

  lemma SevenReceived(text: string) returns (buf: string)
    requires '\0' !in text
    ensures buf == "7 " + text && Receive(buf, "") == Parsed(7, text)
  {
    buf := "7 " + text;
    assert Decimal(7) == "7";
    assert "7" + " " + text == buf;
    ReceiveRoundTrip(7, text, "");
  }

  lemma TwoClients() returns (s: State)
    ensures Reachable(s) && Linked(s)
    ensures s == INIT.(clients := [Client(5, [], AtRecv), Client(6, [], AtRecv)], conns := [0, 1])
  {
    var s1 := OneClient();
    assert TableSocks(s1) == [5];
    s := Reach(s1, Accept(6));
  }

  lemma FirstRegistered() returns (s: State)
    ensures Reachable(s) && Linked(s) && s.owner == Free && s.manager == AtSemWait && s.sem == 0
    ensures s.log == [Event(0, 7, "$reg")] && s.conns == [0, 1] && s.sent == []
    ensures s.clients == [Client(5, [7], AtRecv), Client(6, [], AtRecv)]
  {
    var buf := SevenReceived("$reg");
    s := TwoClients();
    assert "$reg"[..4] == "$reg";
    s := MessageHandled(s, 0, buf, 7, "$reg");
    assert [] + [7] == [7];
  }

  lemma OnlyFirstWants(peers: seq<Peer>)
    requires peers == [Peer(5, [7]), Peer(6, [])]
    ensures Targets(peers, 6, 7, 2) == [0]
  {
    assert Targets(peers, 6, 7, 0) == [];
    assert Targets(peers, 6, 7, 1) == [0];
  }

  /** One client registers for channel 7, another one says hello there: the first one is sent it. */
  lemma RegisteredHears() returns (s: State)
    ensures Reachable(s) && s.log == [Event(0, 7, "$reg"), Event(1, 7, "hello")]
    ensures s.clients == [Client(5, [7], AtRecv), Client(6, [], AtRecv)] && s.sent == [Sent(1, 0)]
  {
    var buf := SevenReceived("hello");
    s := FirstRegistered();
    var peers := ChannelProtocol.Peers(s);
    assert peers == [Peer(5, [7]), Peer(6, [])];
    OnlyFirstWants(peers);
    assert "hello"[..4][0] == 'h' && "$reg"[0] == '$';
    s := MessageHandled(s, 1, buf, 7, "hello");
  }

  /** What the program then has sent: on the first client's socket, the second one's in brackets and
      the text. */
  lemma RegisteredIsSent(v: View) returns (s: State)
    ensures Reachable(s) && s.sent == [Sent(1, 0)]
    ensures s in StatesOf(v) ==> v.sends == [Delivery(5, "[6] hello")]
  {
    s := RegisteredHears();
    assert Decimal(6) == "6";
    assert Labelled(6, "hello") == "[6] hello";
  }

  /** The text that goes out can be read back: the sender's socket stands between the brackets, and the
      text behind them. */
  lemma LabelReadsBack(sender: int, text: string)
    ensures var l, k := Labelled(sender, text), |Decimal(sender)| + 1;
            && |l| == k + 2 + |text| && l[0] == '[' && ']' !in l[..k] && l[k] == ']' && l[k + 1] == ' '
            && Atoi(l[1..k]) == sender && l[k + 2..] == text
  {
    var l, d := Labelled(sender, text), Decimal(sender);
    var n: nat := if sender < 0 then -sender else sender;
    DecimalShape(n);
    AtoiOfDecimal(sender);
    assert l[1..|d| + 1] == d;
  }
}
