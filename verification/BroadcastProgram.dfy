/** The three threads of networking/inte_server_broadcast_with_controller/server.c on their shared
    variables: the integer signal, the array of client descriptors and its length, and the mutex; and
    on the sender's buffer. Each method performs one step and is proved to be the step of
    `BroadcastServer`. */
module BroadcastProgram {
  import opened BroadcastServer
  import opened BroadcastBuffer
  import opened Text

  const C_NO_SIGNAL := -1
  const C_EXIT := 1
  const C_RESET := 2

  datatype SenderLine = TestExit | TestReset | ClearSignal | SendLock | SendNext | SendUnlock
  datatype AcceptorLine = AcceptLine | AddLock | AddClient | AddUnlock

  function SenderLineOf(pc: SenderPc): SenderLine {
    match pc
    case AtTestExit => TestExit
    case AtTestReset => TestReset
    case AtClear(_, _) => ClearSignal
    case AtSendLock(_) => SendLock
    case AtSend(_, _) => SendNext
    case AtSendUnlock => SendUnlock
  }

  function AcceptorLineOf(pc: AcceptorPc): AcceptorLine {
    match pc
    case AtAccept => AcceptLine
    case AtAddLock(_) => AddLock
    case AtAdd(_) => AddClient
    case AtAddUnlock => AddUnlock
  }

  function SignalValue(signal: Signal): int {
    match signal
    case NoSignal => C_NO_SIGNAL
    case ExitSignal(_) => C_EXIT
    case ResetSignal(_) => C_RESET
  }

  /** What the controller thread makes of the bytes it received. */
  function CommandOf(buf: string): Command {
    if StartsWith(buf, "exit") then ExitCommand
    else if StartsWith(buf, "reset") then ResetCommand
    else Unknown
  }

  /** What was sent on a client's descriptor is the texts of its log. */
  predicate StreamMatches(stream: seq<string>, c: Client, texts: seq<string>) {
    c.joined + |c.log| <= |texts| && stream == texts[c.joined..c.joined + |c.log|]
  }

  predicate StreamsMatch(streams: seq<seq<string>>, clients: seq<Client>, texts: seq<string>) {
    && |streams| == |clients|
    && forall j :: 0 <= j < |clients| ==> StreamMatches(streams[j], clients[j], texts)
  }

  lemma OneMoreText(streams: seq<seq<string>>, clients: seq<Client>, texts: seq<string>, text: string)
    requires StreamsMatch(streams, clients, texts)
    ensures StreamsMatch(streams, clients, texts + [text])
  {
    forall j | 0 <= j < |clients| ensures StreamMatches(streams[j], clients[j], texts + [text]) {
      var c := clients[j];
      assert (texts + [text])[c.joined..c.joined + |c.log|] == texts[c.joined..c.joined + |c.log|];
    }
  }

  lemma OneMoreSent(stream: seq<string>, c: Client, texts: seq<string>, msg: Msg)
    requires StreamMatches(stream, c, texts) && c.joined + |c.log| + 1 == |texts|
    ensures StreamMatches(stream + [texts[|texts| - 1]], c.(log := c.log + [msg]), texts)
  {
    assert texts[c.joined..|texts|] == texts[c.joined..|texts| - 1] + [texts[|texts| - 1]];
  }

  /** The buffer holds the message made last, and the streams what was sent. */
  ghost predicate BufferMatches(buf: string, streams: seq<seq<string>>, memory: string, s: State) {
    && |memory| == MAX_BUFSIZE && NumberInv(s) && SuffixInv(s) && AllFit(s.made) && AllFit(s.broadcasts)
    && buf == Memory(memory, s.made)
    && StreamsMatch(streams, s.clients, Texts(memory, s.broadcasts))
  }

  /** The states for which the buffer and the streams are as they should be. */
  ghost function StatesOf(buf: string, streams: seq<seq<string>>, memory: string): iset<State> {
    iset s | BufferMatches(buf, streams, memory, s)
  }

  lemma InitMatches(memory: string)
    requires |memory| == MAX_BUFSIZE
    ensures INIT in StatesOf(memory, [], memory)
  {
  }

  /** A message is made, and written over the start of the buffer. */
  lemma MakeMatches(
    buf: string, streams: seq<seq<string>>, memory: string, s: State, msg: Msg, taken: Signal, counter: nat)
    requires s in StatesOf(buf, streams, memory) && (s.sender.AtTestExit? || s.sender.AtTestReset?)
    requires msg.Number? ==> msg.n == if msg.restart then 0 else s.counter
    requires counter == if msg.Exit? then s.counter else Next(msg.n)
    ensures |buf| == MAX_BUFSIZE && Fits(msg)
    ensures Make(s, msg, taken, counter) in StatesOf(Written(buf, msg), streams, memory)
  {
    var s' := Make(s, msg, taken, counter);
    MakeKeepsNumbers(s, msg, taken, counter);
    MadeFit(s');
    assert s'.made[|s.made|] == msg;
    MemorySnoc(memory, s.made, msg);
  }

  /** The clients, their logs and the broadcasts stay. */
  lemma QuietMatches(buf: string, streams: seq<seq<string>>, memory: string, s: State, a: Action)
    requires s in StatesOf(buf, streams, memory) && MutexInv(s) && Enabled(s, a)
    requires Apply(s, a).clients == s.clients && Apply(s, a).broadcasts == s.broadcasts && Apply(s, a).made == s.made
    ensures Apply(s, a) in StatesOf(buf, streams, memory)
  {
    NumberKept(s, a);
    SuffixKept(s, a);
  }

  /** A broadcast begins. */
  lemma LockMatches(buf: string, streams: seq<seq<string>>, memory: string, s: State)
    requires s in StatesOf(buf, streams, memory) && MutexInv(s) && s.sender.AtSendLock?
    requires Enabled(s, Send)
    ensures SenderStep(s) in StatesOf(buf, streams, memory)
  {
    var texts, s' := Texts(memory, s.broadcasts), SenderStep(s);
    NumberKept(s, Send);
    SuffixKept(s, Send);
    assert s'.broadcasts == s.made && s.made[|s.broadcasts|] == s.sender.msg;
    MemorySnoc(memory, s.broadcasts, s.sender.msg);
    OneMoreText(streams, s.clients, texts, CString(Memory(memory, s'.broadcasts)));
  }

  /** The message in the buffer goes to the client in slot `i`. */
  lemma SendMatches(buf: string, streams: seq<seq<string>>, memory: string, s: State)
    requires s in StatesOf(buf, streams, memory) && MutexInv(s) && s.sender.AtSend? && s.sender.i < |s.clients|
    ensures |streams| == |s.clients|
    ensures var i := s.sender.i;
            SenderStep(s) in StatesOf(buf, streams[i := streams[i] + [CString(buf)]], memory)
  {
    var i, texts := s.sender.i, Texts(memory, s.broadcasts);
    NumberKept(s, Send);
    SuffixKept(s, Send);
    assert InStep(s.clients[i], s.broadcasts, true);
    assert s.made == s.broadcasts && texts[|texts| - 1] == CString(buf);
    OneMoreSent(streams[i], s.clients[i], texts, s.sender.msg);
  }

  lemma JoinMatches(buf: string, streams: seq<seq<string>>, memory: string, s: State)
    requires s in StatesOf(buf, streams, memory) && MutexInv(s) && s.acceptor.AtAdd?
    ensures AcceptorStep(s) in StatesOf(buf, streams + [[]], memory)
  {
    NumberKept(s, AcceptStep);
    SuffixKept(s, AcceptStep);
    assert StreamMatches([], Client(s.acceptor.fd, |s.broadcasts|, []), Texts(memory, s.broadcasts));
  }

  /** The bytes are a command exactly if they begin with one of the two words. */
  lemma CommandOfText(buf: string)
    ensures CommandOf(buf) == ExitCommand <==> |buf| >= 4 && buf[..4] == "exit"
    ensures CommandOf(buf) == ResetCommand <==> |buf| >= 5 && buf[..5] == "reset"
  {
    assert "exit"[0] == 'e' && "reset"[0] == 'r';
    if |buf| >= 5 && buf[..5] == "reset" {
      assert buf[0] == buf[..5][0] == 'r';
      assert |buf[..4]| == 4 && buf[..4][0] == 'r';
    }
  }

  datatype Input = SenderRuns | ClientConnects(fd: int) | AcceptorRuns | ControllerSends(bytes: string)
  {
    function Step(): Action {
      match this
      case SenderRuns => Send
      case ClientConnects(fd) => Connect(fd)
      case AcceptorRuns => AcceptStep
      case ControllerSends(bytes) => Control(CommandOf(bytes))
    }
  }

  function Steps(inputs: seq<Input>): (r: seq<Action>)
    ensures |r| == |inputs| && forall k :: 0 <= k < |r| ==> r[k] == inputs[k].Step()
  {
    seq(|inputs|, k requires 0 <= k < |inputs| => inputs[k].Step())
  }

  class Server {
    var controllerSignal: int
    const clientFds: array<int>
    var nConnections: nat
    var locked: bool
    var senderLine: SenderLine
    var counter: nat
    const buf: array<char>        // the sender's message
    var i: nat                    // the sender's loop index
    var acceptorLine: AcceptorLine
    var newFd: int                // the acceptor's new descriptor
    var streams: seq<seq<string>> // what was sent on each client's descriptor
    ghost const memory: string    // what was in the buffer at the start
    ghost var state: State

    ghost predicate ControlValid()
      reads this, clientFds
    {
      && controllerSignal == SignalValue(state.signal)
      && clientFds.Length == MAX_CONNECTIONS
      && nConnections == |state.clients| == |streams| <= MAX_CONNECTIONS
      && (forall j :: 0 <= j < nConnections ==> clientFds[j] == state.clients[j].fd)
      && (locked <==> state.owner != Free)
      && counter == state.counter
      && senderLine == SenderLineOf(state.sender)
      && (state.sender.AtSend? ==> i == state.sender.i)
      && acceptorLine == AcceptorLineOf(state.acceptor)
      && (state.acceptor.AtAddLock? || state.acceptor.AtAdd? ==> newFd == state.acceptor.fd)
      && MutexInv(state)
    }

    ghost predicate Valid()
      reads this, clientFds, buf
    {
      ControlValid() && buf.Length == MAX_BUFSIZE && state in StatesOf(buf[..], streams, memory)
    }

    /** `memory` is what the buffer happens to hold at the start. */
    constructor (memory: string)
      requires |memory| == MAX_BUFSIZE
      ensures Valid() && state == INIT && this.memory == memory && fresh(clientFds) && fresh(buf)
    {
      controllerSignal := C_NO_SIGNAL;
      clientFds := new int[MAX_CONNECTIONS];
      buf := new char[MAX_BUFSIZE](k requires 0 <= k < MAX_BUFSIZE => memory[k]);
      nConnections, locked, counter, i, newFd, streams := 0, false, 0, 0, 0, [];
      senderLine, acceptorLine := TestExit, AcceptLine;
      state := INIT;
      this.memory := memory;
      new;
      assert buf[..] == memory;
      InitMatches(memory);
    }

    /** `strncpy` of "exit", which writes no zero. */
    method WriteExit()
      requires buf.Length == MAX_BUFSIZE
      modifies buf
      ensures buf[..] == Written(old(buf[..]), Exit)
    {
      var text := "exit";
      forall k | 0 <= k < 4 {
        buf[k] := text[k];
      }
    }

    /** `sprintf` of a number. */
    method WriteNumber(n: nat)
      requires buf.Length == MAX_BUFSIZE && |DecimalNat(n)| < MAX_BUFSIZE
      modifies buf
      ensures forall restart :: buf[..] == Written(old(buf[..]), Number(n, restart))
    {
      var text := DecimalNat(n);
      forall k | 0 <= k < |text| {
        buf[k] := text[k];
      }
      buf[|text|] := '\0';
      assert buf[..] == text + "\0" + old(buf[..])[|text| + 1..];
    }

    /** Lines 32 and 33: the test for an exit command. */
    method TestForExit()
      requires Valid() && state.sender.AtTestExit?
      modifies this, buf
      ensures Valid() && state == SenderStep(old(state))
    {
      if controllerSignal == C_EXIT {
        MakeMatches(buf[..], streams, memory, state, Exit, state.signal, state.counter);
        WriteExit();
        senderLine := ClearSignal;
      } else {
        QuietMatches(buf[..], streams, memory, state, Send);
        senderLine := TestReset;
      }
      state := SenderStep(state);
    }

    /** Lines 34 to 39: the test for a reset command. */
    method TestForReset()
      requires Valid() && state.sender.AtTestReset?
      modifies this, buf
      ensures Valid() && state == SenderStep(old(state))
    {
      if controllerSignal == C_RESET {
        MakeNumber(0, true, state.signal);
      } else {
        MakeNumber(counter, false, NoSignal);
      }
    }

    /** Line 36 or 38: the number goes into the buffer, and the counter on. */
    method MakeNumber(n: nat, ghost restart: bool, ghost taken: Signal)
      requires Valid() && state.sender.AtTestReset? && n == if restart then 0 else counter
      modifies this, buf
      ensures Valid() && state == Make(old(state), Number(n, restart), taken, Next(n))
    {
      MakeMatches(buf[..], streams, memory, state, Number(n, restart), taken, Next(n));
      ghost var made := Make(state, Number(n, restart), taken, Next(n));
      ghost var written := Written(buf[..], Number(n, restart));
      WriteNumber(n);
      assert buf[..] == written;
      Advance(n, made);
    }

    /** The counter goes on, and the sender to its next line. */
    method Advance(n: nat, ghost made: State)
      requires ControlValid() && state.sender.AtTestReset? && made.sender.AtClear?
      requires made == Make(state, made.sender.msg, made.sender.taken, Next(n))
      modifies this`counter, this`senderLine, this`state
      ensures ControlValid() && state == made
    {
      counter := Next(n);
      senderLine := ClearSignal;
      state := made;
    }

    /** Lines 32 to 39: the two tests of the signal. */
    method TestSignal()
      requires Valid() && (state.sender.AtTestExit? || state.sender.AtTestReset?)
      modifies this, buf
      ensures Valid() && state == SenderStep(old(state))
    {
      if senderLine == TestExit {
        TestForExit();
      } else {
        TestForReset();
      }
    }

    /** Line 42: the sender takes the mutex, and its broadcast begins. */
    method LockToSend()
      requires Valid() && Enabled(state, Send) && state.sender.AtSendLock?
      modifies this
      ensures Valid() && state == SenderStep(old(state))
    {
      MutexKept(state, Send);
      LockMatches(buf[..], streams, memory, state);
      state := SenderStep(state);
      locked, i, senderLine := true, 0, SendNext;
    }

    /** Lines 40 and 49: the signal is cleared, and the mutex given back. */
    method ClearOrUnlock()
      requires Valid() && (state.sender.AtClear? || state.sender.AtSendUnlock?)
      modifies this
      ensures Valid() && state == SenderStep(old(state))
    {
      MutexKept(state, Send);
      QuietMatches(buf[..], streams, memory, state, Send);
      state := SenderStep(state);
      if senderLine == ClearSignal {
        controllerSignal, senderLine := C_NO_SIGNAL, SendLock;
      } else {
        locked, senderLine := false, TestExit;
      }
    }

    /** Lines 44 to 47: the message goes to one client. */
    method SendToNext()
      requires Valid() && state.sender.AtSend? && i < nConnections
      modifies this
      ensures Valid() && state == SenderStep(old(state))
    {
      MutexKept(state, Send);
      SendMatches(buf[..], streams, memory, state);
      state := SenderStep(state);
      streams := streams[i := streams[i] + [CString(buf[..])]];
      i := i + 1;
    }

    /** Lines 43 to 48: one round of the sending loop. */
    method SendOne()
      requires Valid() && state.sender.AtSend?
      modifies this
      ensures Valid() && state == SenderStep(old(state))
    {
      if i < nConnections {
        SendToNext();
      } else {
        QuietMatches(buf[..], streams, memory, state, Send);
        MutexKept(state, Send);
        senderLine := SendUnlock;
        state := SenderStep(state);
      }
    }

    /** One step of `send_response`. */
    method SenderThread()
      requires Valid() && Enabled(state, Send)
      modifies this, buf
      ensures Valid() && state == Apply(old(state), Send)
    {
      if senderLine == TestExit || senderLine == TestReset {
        TestSignal();
      } else if senderLine == SendNext {
        SendOne();
      } else if senderLine == SendLock {
        LockToSend();
      } else {
        ClearOrUnlock();
      }
    }

    /** Lines 59 to 73: a connection is accepted, or refused when the list is full. */
    method ConnectClient(fd: int)
      requires Valid() && Enabled(state, Connect(fd))
      modifies this
      ensures Valid() && state == Apply(old(state), Connect(fd))
    {
      QuietMatches(buf[..], streams, memory, state, Connect(fd));
      state := Apply(state, Connect(fd));
      if nConnections < clientFds.Length {
        newFd, acceptorLine := fd, AddLock;
      }
    }

    /** Lines 67 and 70: the acceptor takes the mutex, or gives it back. */
    method LockToAdd()
      requires Valid() && Enabled(state, AcceptStep) && !state.acceptor.AtAdd?
      modifies this
      ensures Valid() && state == Apply(old(state), AcceptStep)
    {
      MutexKept(state, AcceptStep);
      QuietMatches(buf[..], streams, memory, state, AcceptStep);
      state := Apply(state, AcceptStep);
      if acceptorLine == AddLock {
        locked, acceptorLine := true, AddClient;
      } else {
        locked, acceptorLine := false, AcceptLine;
      }
    }

    /** Lines 68 and 69: the new client is added. */
    method AddNew()
      requires Valid() && state.acceptor.AtAdd?
      modifies this, clientFds
      ensures Valid() && state == Apply(old(state), AcceptStep)
    {
      MutexKept(state, AcceptStep);
      JoinMatches(buf[..], streams, memory, state);
      state := Apply(state, AcceptStep);
      clientFds[nConnections] := newFd;
      nConnections := nConnections + 1;
      streams := streams + [[]];
      acceptorLine := AddUnlock;
    }

    /** Lines 67 to 70: the new client is added under the mutex. */
    method AcceptorThread()
      requires Valid() && Enabled(state, AcceptStep)
      modifies this, clientFds
      ensures Valid() && state == Apply(old(state), AcceptStep)
    {
      if acceptorLine == AddClient {
        AddNew();
      } else {
        LockToAdd();
      }
    }

    /** Lines 101 to 107: the controller's bytes set the signal. */
    method ControllerThread(bytes: string)
      requires Valid()
      modifies this
      ensures Valid() && state == Apply(old(state), Control(CommandOf(bytes)))
    {
      QuietMatches(buf[..], streams, memory, state, Control(CommandOf(bytes)));
      state := Apply(state, Control(CommandOf(bytes)));
      if StartsWith(bytes, "exit") {
        controllerSignal := C_EXIT;
      } else if StartsWith(bytes, "reset") {
        controllerSignal := C_RESET;
      }
    }

    method Step(input: Input)
      requires Valid() && Enabled(state, input.Step())
      modifies this, clientFds, buf
      ensures Valid() && state == Apply(old(state), input.Step())
    {
      match input {
        case SenderRuns => SenderThread();
        case ClientConnects(fd) => ConnectClient(fd);
        case AcceptorRuns => AcceptorThread();
        case ControllerSends(bytes) => ControllerThread(bytes);
      }
    }

    /** Any schedule of the threads takes the program to where it takes the step system. */
    method Serve(inputs: seq<Input>)
      requires Valid() && Runnable(state, Steps(inputs))
      modifies this, clientFds, buf
      ensures Valid() && state == After(old(state), Steps(inputs))
    {
      ghost var run := Steps(inputs);
      for k := 0 to |inputs|
        invariant Valid()
        invariant Runnable(state, run[k..]) && After(state, run[k..]) == After(old(state), run)
      {
        assert run[k..][1..] == run[k + 1..];
        Step(inputs[k]);
      }
    }
  }

  /** A whole run of the program: whatever the schedule and whatever the buffer held at the start,
      whenever no broadcast is going out, each client's descriptor has been sent the texts of exactly the
      broadcasts since it joined; `TextIff` says which texts those are. */
  method RunServer(memory: string, inputs: seq<Input>) returns (server: Server)
    requires |memory| == 1024 && Runnable(INIT, Steps(inputs))
    ensures server.Valid()
    ensures var s := After(INIT, Steps(inputs));
            !s.sender.AtSend? ==>
              && AllFit(s.broadcasts) && |server.streams| == |s.clients|
              && forall j :: 0 <= j < |s.clients| ==>
                   && s.clients[j].joined <= |s.broadcasts|
                   && server.streams[j] == Texts(memory, s.broadcasts)[s.clients[j].joined..]
  {
    server := new Server(memory);
    server.Serve(inputs);
    ghost var s := After(INIT, Steps(inputs));
    assert BufferMatches(server.buf[..], server.streams, memory, s);
    forall j | 0 <= j < |s.clients| && !s.sender.AtSend?
      ensures s.clients[j].joined + |s.clients[j].log| == |s.broadcasts|
    {
      LogsAreSuffixes(s, j);
    }
  }
}
