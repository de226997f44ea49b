/** What one call of `handle_request` in networking/epoll_chat_server/server.c does with what it
    receives, receive by receive. */
module ChatCalls {
  import opened Text
  import opened ClientTable
  import opened ChatSession
  import opened ChatBuffer
  import opened ChatProgram

  /** The buffer after one message. */
  ghost function NextBuffer(buf: string, data: string): (r: string)
    requires BufferInv(buf) && |data| < BUF_SIZE
    ensures BufferInv(r) && |CString(Received(buf, data))| < |Received(buf, data)|
    ensures r == Trimmed(Received(buf, data))
  {
    ReceivedKeeps(buf, data);
    Trimmed(Received(buf, data))
  }

  /** The buffer before the receive at `i`, all those before it having brought data. */
  ghost function BufferAt(buf: string, recvs: seq<Recv>, i: nat): (r: string)
    requires BufferInv(buf) && Fits(recvs) && i <= |recvs|
    requires forall j :: 0 <= j < i ==> recvs[j].Data?
    ensures BufferInv(r)
    decreases i
  {
    if i == 0 then buf
    else BufferAt(NextBuffer(buf, recvs[0].bytes), recvs[1..], i - 1)
  }

  /** What the receive at `i` means for the session. */
  ghost function Meaning(buf: string, sock: int, recvs: seq<Recv>, i: nat): Action
    requires BufferInv(buf) && Fits(recvs) && i < |recvs| && !recvs[i].Again?
    requires forall j :: 0 <= j < i ==> recvs[j].Data?
  {
    if recvs[i].Data? then Say(sock, Shown(BufferAt(buf, recvs, i), recvs[i].bytes))
    else if recvs[i].Eof? then Close(sock)
    else Fail(sock)
  }

  /** The message ends the call: nobody is in the table on the socket, or a client with a name there
      says something that begins with "exit". */
  predicate Final(s: Chat, sock: int, text: string) {
    (forall e :: e in s.table ==> e.sock != sock) ||
    (exists k :: 0 <= k < |s.table| && s.table[k].sock == sock && (forall j :: 0 <= j < k ==> s.table[j].sock != sock)
                 && s.table[k].name != "" && |text| >= 4 && text[..4] == "exit")
  }

  lemma FinalIff(s: Chat, sock: int, text: string)
    ensures Ends(s, sock, text) <==> Final(s, sock, text)
  {
    var k := Find(s.table, sock);
    if k == |s.table| {
      assert forall e :: e in s.table ==> e.sock != sock;
    } else {
      assert s.table[k] in s.table;
    }
  }

  /** What is done at `i`, if the call gets there. */
  ghost predicate DoneAt(s: Chat, buf: string, sock: int, recvs: seq<Recv>, i: nat)
    requires s.growth.len == |s.table| && BufferInv(buf) && Fits(recvs)
  {
    var steps := Steps(s, buf, sock, recvs);
    i < |steps| &&
    i < |recvs| && !recvs[i].Again? && (forall j :: 0 <= j < i ==> recvs[j].Data?) &&
    steps[i] == Meaning(buf, sock, recvs, i)
  }

  /** The call goes on after `i`. */
  ghost predicate GoesOnAt(s: Chat, buf: string, sock: int, recvs: seq<Recv>, i: nat)
    requires s.growth.len == |s.table| && BufferInv(buf) && Fits(recvs)
    requires DoneAt(s, buf, sock, recvs, i)
  {
    recvs[i].Data? &&
    !Final(After(s, Steps(s, buf, sock, recvs)[..i]), sock, Shown(BufferAt(buf, recvs, i), recvs[i].bytes))
  }

  lemma Later(s: Chat, buf: string, sock: int, recvs: seq<Recv>, i: nat)
    requires s.growth.len == |s.table| && BufferInv(buf) && Fits(recvs) && recvs != [] && recvs[0].Data?
    requires !Ends(s, sock, Shown(buf, recvs[0].bytes))
    ensures var r := Received(buf, recvs[0].bytes);
            var a := Say(sock, Shown(buf, recvs[0].bytes));
            var later := Steps(Apply(s, a), Trimmed(r), sock, recvs[1..]);
            && |CString(r)| < |r| && BufferInv(Trimmed(r)) && Fits(recvs[1..])
            && Steps(s, buf, sock, recvs) == [a] + later
            && (i <= |later| ==> After(s, Steps(s, buf, sock, recvs)[..i + 1]) == After(Apply(s, a), later[..i]))
  {
    ReceivedKeeps(buf, recvs[0].bytes);
    var a := Say(sock, Shown(buf, recvs[0].bytes));
    var later := Steps(Apply(s, a), Trimmed(Received(buf, recvs[0].bytes)), sock, recvs[1..]);
    if i <= |later| {
      assert ([a] + later)[..i + 1] == [a] + later[..i];
      AfterFirst(s, a, later[..i]);
    }
  }

  lemma LongCall(s: Chat, buf: string, sock: int, recvs: seq<Recv>)
    requires s.growth.len == |s.table| && BufferInv(buf) && Fits(recvs) && |Steps(s, buf, sock, recvs)| > 1
    ensures recvs != [] && recvs[0].Data? && !Ends(s, sock, Shown(buf, recvs[0].bytes))
  {
  }

  lemma DoneLater(s: Chat, buf: string, sock: int, recvs: seq<Recv>, i: nat)
    requires s.growth.len == |s.table| && BufferInv(buf) && Fits(recvs) && recvs != [] && recvs[0].Data? && i > 0
    requires !Ends(s, sock, Shown(buf, recvs[0].bytes)) && Fits(recvs[1..])
    requires DoneAt(Apply(s, Say(sock, Shown(buf, recvs[0].bytes))), NextBuffer(buf, recvs[0].bytes), sock, recvs[1..], i - 1)
    ensures DoneAt(s, buf, sock, recvs, i)
  {
    var rest := recvs[1..];
    Later(s, buf, sock, recvs, i);
    assert forall j :: 0 < j < |recvs| ==> recvs[j] == rest[j - 1];
    assert recvs[i] == rest[i - 1];
  }

  /** Each step of the call is what the receive at its place means: for data, one message with the text
      that the buffer then shows. */
  lemma {:induction false} EachReceiveDone(s: Chat, buf: string, sock: int, recvs: seq<Recv>, i: nat)
    requires s.growth.len == |s.table| && BufferInv(buf) && Fits(recvs)
    requires i < |Steps(s, buf, sock, recvs)|
    ensures DoneAt(s, buf, sock, recvs, i)
    decreases i
  {
    if i > 0 {
      LongCall(s, buf, sock, recvs);
      var a := Say(sock, Shown(buf, recvs[0].bytes));
      Later(s, buf, sock, recvs, i);
      EachReceiveDone(Apply(s, a), NextBuffer(buf, recvs[0].bytes), sock, recvs[1..], i - 1);
      DoneLater(s, buf, sock, recvs, i);
    }
  }

  /** The call goes on after every step but the last one; and after the last one too, unless nothing
      more was received, so that it neither stops early nor goes on too long. */
  lemma {:induction false} GoesOnUnlessFinal(s: Chat, buf: string, sock: int, recvs: seq<Recv>, i: nat)
    requires s.growth.len == |s.table| && BufferInv(buf) && Fits(recvs)
    requires i < |Steps(s, buf, sock, recvs)|
    ensures DoneAt(s, buf, sock, recvs, i)
    ensures GoesOnAt(s, buf, sock, recvs, i) && i + 1 < |recvs| && !recvs[i + 1].Again? <==>
            i + 1 < |Steps(s, buf, sock, recvs)|
    decreases i
  {
    EachReceiveDone(s, buf, sock, recvs, i);
    if recvs[0].Data? {
      var text := Shown(buf, recvs[0].bytes);
      FinalIff(s, sock, text);
      assert Steps(s, buf, sock, recvs)[..0] == [];
      if !Ends(s, sock, text) {
        Later(s, buf, sock, recvs, 0);
        if i > 0 {
          var rest, next := recvs[1..], NextBuffer(buf, recvs[0].bytes);
          Later(s, buf, sock, recvs, i - 1);
          GoesOnUnlessFinal(Apply(s, Say(sock, text)), next, sock, rest, i - 1);
          assert forall j :: 0 < j < |recvs| ==> recvs[j] == rest[j - 1];
        }
      }
    }
  }

  /** The message at `i`, if the call gets there, does not end it. */
  ghost predicate NotFinalAt(s: Chat, buf: string, sock: int, recvs: seq<Recv>, i: nat)
    requires s.growth.len == |s.table| && BufferInv(buf) && Fits(recvs)
  {
    i < |Steps(s, buf, sock, recvs)| ==>
      DoneAt(s, buf, sock, recvs, i) && GoesOnAt(s, buf, sock, recvs, i)
  }

  /** So a call that first receives data `k` times handles `k` messages, if none of them is final. */
  lemma {:induction false} EveryMessageHandled(s: Chat, buf: string, sock: int, recvs: seq<Recv>, k: nat)
    requires s.growth.len == |s.table| && BufferInv(buf) && Fits(recvs) && k <= |recvs|
    requires forall j :: 0 <= j < k ==> recvs[j].Data? && NotFinalAt(s, buf, sock, recvs, j)
    ensures |Steps(s, buf, sock, recvs)| >= k
    ensures forall i :: 0 <= i < k ==>
              Steps(s, buf, sock, recvs)[i] == Say(sock, Shown(BufferAt(buf, recvs, i), recvs[i].bytes))
    decreases k
  {
    if k > 0 {
      EveryMessageHandled(s, buf, sock, recvs, k - 1);
      if k > 1 {
        assert NotFinalAt(s, buf, sock, recvs, k - 2);
        GoesOnUnlessFinal(s, buf, sock, recvs, k - 2);
      }
      EachReceiveDone(s, buf, sock, recvs, k - 1);
    }
  }

  // ----- a call with a name and a message

  /** A text that is read as it was sent. */
  predicate Plain(text: string) {
    0 < |text| <= 100 && '\0' !in text && Trim(text) == text && !StartsWith(text, "exit")
  }

  const ZEROED: string := seq(BUF_SIZE, _ => '\0')

  lemma BothShown(name: string, text: string)
    requires Plain(name) && Plain(text) && |name| <= |text|
    ensures BufferInv(ZEROED) && Shown(ZEROED, name) == name
    ensures Shown(NextBuffer(ZEROED, name), text) == text
  {
    var next := NextBuffer(ZEROED, name);
    FirstShown(name);
    DataAloneIff(ZEROED, name);
    assert next[|text|] == '\0';
    DataAloneIff(next, text);
  }

  /** The call takes both messages, and waits for more. */
  lemma BothTaken(s: Chat, name: string, text: string)
    requires s.growth.len == |s.table| && Plain(name) && Plain(text) && |name| <= |text|
    requires !Ends(s, 5, name) && !Ends(Apply(s, Say(5, name)), 5, text)
    ensures var recvs := [Data(name), Data(text), Again];
            Fits(recvs) && After(s, Steps(s, ZEROED, 5, recvs)) == Apply(Apply(s, Say(5, name)), Say(5, text))
  {
    BothShown(name, text);
    var next := NextBuffer(ZEROED, name);
    var s1 := Apply(s, Say(5, name));
    assert [Data(name)] + [Data(text), Again] == [Data(name), Data(text), Again];
    assert [Data(text)] + [Again] == [Data(text), Again] && [Again] + [] == [Again];
    FirstRecv(s, ZEROED, 5, Data(name), [Data(text), Again]);
    FirstRecv(s1, next, 5, Data(text), [Again]);
    FirstRecv(Apply(s1, Say(5, text)), NextBuffer(next, text), 5, Again, []);
  }

  lemma OneOther(t: seq<Entry>, sock: int)
    requires |t| == 2 && t[0].sock == sock != t[1].sock
    ensures Others(t, sock) == [t[1]]
  {
    assert t[..1] == [t[0]] && Others([], sock) == [] && t[..1][..0] == [];
    assert Others(t[..1], sock) == [];
  }

  lemma NamedThenSaid(s: Chat, name: string, text: string)
    requires s.growth.len == |s.table| && Plain(name) && Plain(text)
    requires s.table == [Entry(0, 5, ""), Entry(1, 6, "")] && s.heard == [] && s.sent == []
    ensures !Ends(s, 5, name) && !Ends(Apply(s, Say(5, name)), 5, text)
    ensures var s' := Apply(Apply(s, Say(5, name)), Say(5, text));
            && s'.heard == [Heard(0, 5, "", name, Naming), Heard(0, 5, name, text, Said)]
            && s'.sent == [Sent(1, 1, 6, Line(name, text))]
            && s'.table == [Entry(0, 5, name), Entry(1, 6, "")]
  {
    var s1 := Apply(s, Say(5, name));
    assert s1.table == [Entry(0, 5, name), Entry(1, 6, "")];
    OneOther(s1.table, 5);
  }

  lemma TwoConnected() returns (s: Chat)
    ensures s == After(INIT, [Accept(5), Accept(6)])
    ensures s.growth.len == |s.table| && s.fault == NoFault && s.watched == {5, 6}
    ensures s.table == [Entry(0, 5, ""), Entry(1, 6, "")] && s.heard == [] && s.sent == []
  {
    var s1 := Apply(INIT, Accept(5));
    s := Apply(s1, Accept(6));
    assert [Accept(5), Accept(6)] == [Accept(5)] + [Accept(6)] && [Accept(6)] == [Accept(6)] + [];
    AfterFirst(INIT, Accept(5), [Accept(6)]);
    AfterFirst(s1, Accept(6), []);
  }

  /** Two clients connect; the first sends its name, and then a text. */
  function Talk(name: string, text: string): seq<Report> {
    [NewConnection(5), NewConnection(6), Ready(5, [Data(name), Data(text), Again])]
  }

  lemma TalkGoes(name: string, text: string)
    requires Plain(name) && Plain(text) && |name| <= |text|
    ensures Possible(INIT, Talk(name, text))
    ensures var s := After(INIT, AllSteps(INIT, Talk(name, text)));
            && s.heard == [Heard(0, 5, "", name, Naming), Heard(0, 5, name, text, Said)]
            && s.sent == [Sent(1, 1, 6, Line(name, text))]
  {
    var recvs := [Data(name), Data(text), Again];
    var s1, s2 := Apply(INIT, Accept(5)), Apply(Apply(INIT, Accept(5)), Accept(6));
    var s := TwoConnected();
    assert s == s2 by {
      assert [Accept(5), Accept(6)] == [Accept(5)] + ([Accept(6)] + []);
      AfterFirst(INIT, Accept(5), [Accept(6)] + []);
      AfterFirst(s1, Accept(6), []);
    }
    NamedThenSaid(s2, name, text);
    BothTaken(s2, name, text);
    TalkSteps(name, text, s1, s2);
  }

  lemma TalkSteps(name: string, text: string, s1: Chat, s2: Chat)
    requires Plain(name) && Plain(text)
    requires s1 == Apply(INIT, Accept(5)) && s2 == Apply(s1, Accept(6))
    requires s1.fault == NoFault && s1.watched == {5} && s2.fault == NoFault && s2.watched == {5, 6}
    ensures Possible(INIT, Talk(name, text))
    ensures var recvs := [Data(name), Data(text), Again];
            Fits(recvs) && After(INIT, AllSteps(INIT, Talk(name, text))) == After(s2, Steps(s2, ZEROED, 5, recvs))
  {
    var r := Ready(5, [Data(name), Data(text), Again]);
    var last := ReportSteps(s2, r);
    OneConnection(INIT, 5);
    OneConnection(s1, 6);
    assert Talk(name, text)[1..] == [NewConnection(6), r] && [NewConnection(6), r][1..] == [r] && [r][1..] == [];
    assert Possible(After(s2, last), []) && AllSteps(After(s2, last), []) == [];
    assert AllSteps(s2, [r]) == last + [] == last;
    AfterAppend(s1, [Accept(6)], last);
    AfterAppend(INIT, [Accept(5)], [Accept(6)] + last);
  }

  lemma OneConnection(s: Chat, sock: int)
    requires s.growth.len == |s.table|
    ensures ReportSteps(s, NewConnection(sock)) == [Accept(sock)]
    ensures After(s, [Accept(sock)]) == Apply(s, Accept(sock))
  {
    assert [Accept(sock)] == [Accept(sock)] + [];
    AfterFirst(s, Accept(sock), []);
  }

  lemma PlainWord(word: string)
    requires word == "bob" || word == "hello"
    ensures Plain(word)
  {
    assert word[0] != 'e' && "exit"[0] == 'e';
  }

  /** Bob names himself and says hello, in one call: the other client is sent "[bob] hello". */
  lemma BobSaysHello(name: string, text: string)
    requires name == "bob" && text == "hello"
    ensures Possible(INIT, Talk(name, text))
    ensures var s := After(INIT, AllSteps(INIT, Talk(name, text)));
            && s.heard == [Heard(0, 5, "", "bob", Naming), Heard(0, 5, "bob", "hello", Said)]
            && s.sent == [Sent(1, 1, 6, "[bob] hello\n")]
  {
    PlainWord(name);
    PlainWord(text);
    TalkGoes(name, text);
    assert Line(name, text) == "[bob] hello\n";
  }
}
