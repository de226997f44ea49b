/** The three threads of networking/inte_server_broadcast_with_controller/server.c as a step
    system: the sender with its counter, the thread that accepts clients, and the thread that
    accepts commands. The signal is shared without a lock; the client list has a mutex. */
module BroadcastServer {

  const MAX_CONNECTIONS: nat := 5

  /** `size_t` counts modulo this. */
  const COUNTER_MODULUS: nat := 0x1_0000_0000_0000_0000

  /** What the sender sends: "exit", or a number, which may have restarted at 0 on a command. */
  datatype Msg = Exit | Number(n: nat, restart: bool)

  /** The shared signal. The command's number, which the program does not have, tells apart the
      commands that set it. */
  datatype Signal = NoSignal | ExitSignal(command: nat) | ResetSignal(command: nat)

  /** Where the sender stands in `send_response`: `taken` is the command it found, if any. */
  datatype SenderPc =
    | AtTestExit
    | AtTestReset
    | AtClear(msg: Msg, taken: Signal)
    | AtSendLock(msg: Msg)
    | AtSend(msg: Msg, i: nat)
    | AtSendUnlock

  datatype AcceptorPc = AtAccept | AtAddLock(fd: int) | AtAdd(fd: int) | AtAddUnlock

  datatype Owner = Free | Sender | Acceptor

  /** A client, the number of broadcasts before it joined, and what was sent to it. */
  datatype Client = Client(fd: int, joined: nat, log: seq<Msg>)

  /** The shared state, the program counters and the sender's counter; then the history: the
      messages made and broadcast, the number of commands accepted, and those taken and lost. */
  datatype State = State(
    signal: Signal, clients: seq<Client>, owner: Owner, sender: SenderPc, acceptor: AcceptorPc, counter: nat,
    made: seq<Msg>, broadcasts: seq<Msg>, commands: nat, taken: seq<nat>, lost: seq<nat>)

  datatype Command = ExitCommand | ResetCommand | Unknown

  datatype Action = Send | Connect(fd: int) | AcceptStep | Control(command: Command)

  const INIT := State(NoSignal, [], Free, AtTestExit, AtAccept, 0, [], [], 0, [], [])

  predicate Enabled(s: State, a: Action) {
    match a
    case Send => s.sender.AtSendLock? ==> s.owner == Free
    case Connect(_) => s.acceptor.AtAccept?
    case AcceptStep => !s.acceptor.AtAccept? && (s.acceptor.AtAddLock? ==> s.owner == Free)
    case Control(_) => true
  }

  /** The signal holds a command that the sender has not found. */
  predicate Unserved(s: State) {
    s.signal != NoSignal && !(s.sender.AtClear? && s.sender.taken == s.signal)
  }

  function Overwritten(s: State): seq<nat> {
    if Unserved(s) then s.lost + [s.signal.command] else s.lost
  }

  function Make(s: State, msg: Msg, taken: Signal, counter: nat): State {
    s.(made := s.made + [msg], counter := counter, sender := AtClear(msg, taken),
       taken := if taken == NoSignal then s.taken else s.taken + [taken.command])
  }

  /** What `size_t` keeps of a count. */
  function Wrap(n: nat): nat { n % COUNTER_MODULUS }

  function Next(counter: nat): nat { Wrap(counter + 1) }

  function SenderStep(s: State): State
    requires Enabled(s, Send)
  {
    match s.sender
    case AtTestExit =>
      if s.signal.ExitSignal? then Make(s, Exit, s.signal, s.counter) else s.(sender := AtTestReset)
    case AtTestReset =>
      if s.signal.ResetSignal? then Make(s, Number(0, true), s.signal, Next(0))
      else Make(s, Number(s.counter, false), NoSignal, Next(s.counter))
    case AtClear(msg, taken) => s.(signal := NoSignal, lost := Overwritten(s), sender := AtSendLock(msg))
    case AtSendLock(msg) => s.(owner := Sender, broadcasts := s.broadcasts + [msg], sender := AtSend(msg, 0))
    case AtSend(msg, i) =>
      if i < |s.clients| then
        s.(clients := s.clients[i := s.clients[i].(log := s.clients[i].log + [msg])], sender := AtSend(msg, i + 1))
      else s.(sender := AtSendUnlock)
    case AtSendUnlock => s.(owner := Free, sender := AtTestExit)
  }

  function AcceptorStep(s: State): State
    requires Enabled(s, AcceptStep)
  {
    match s.acceptor
    case AtAddLock(fd) => s.(owner := Acceptor, acceptor := AtAdd(fd))
    case AtAdd(fd) => s.(clients := s.clients + [Client(fd, |s.broadcasts|, [])], acceptor := AtAddUnlock)
    case AtAddUnlock => s.(owner := Free, acceptor := AtAccept)
  }

  function Apply(s: State, a: Action): State
    requires Enabled(s, a)
  {
    match a
    case Send => SenderStep(s)
    case Connect(fd) => if |s.clients| < MAX_CONNECTIONS then s.(acceptor := AtAddLock(fd)) else s
    case AcceptStep => AcceptorStep(s)
    case Control(ExitCommand) =>
      s.(signal := ExitSignal(s.commands), commands := s.commands + 1, lost := Overwritten(s))
    case Control(ResetCommand) =>
      s.(signal := ResetSignal(s.commands), commands := s.commands + 1, lost := Overwritten(s))
    case Control(Unknown) => s
  }

  predicate Runnable(s: State, run: seq<Action>)
    decreases |run|
  {
    run == [] || (Enabled(s, run[0]) && Runnable(Apply(s, run[0]), run[1..]))
  }

  function After(s: State, run: seq<Action>): State
    requires Runnable(s, run)
    decreases |run|
  {
    if run == [] then s else After(Apply(s, run[0]), run[1..])
  }

  ghost predicate Reachable(s: State) {
    exists run :: Runnable(INIT, run) && After(INIT, run) == s
  }

  // ----- what every step keeps

  predicate MutexInv(s: State) {
    && (s.owner == Sender <==> s.sender.AtSend? || s.sender.AtSendUnlock?)
    && (s.owner == Acceptor <==> s.acceptor.AtAdd? || s.acceptor.AtAddUnlock?)
    && |s.clients| + (if s.acceptor.AtAddLock? || s.acceptor.AtAdd? then 1 else 0) <= MAX_CONNECTIONS
  }

  /** Each client has received the broadcasts since it joined, but for one that is being sent. */
  predicate SuffixInv(s: State) {
    && (s.sender.AtSend? ==> s.broadcasts != [] && s.broadcasts[|s.broadcasts| - 1] == s.sender.msg)
    && forall j :: 0 <= j < |s.clients| ==>
         InStep(s.clients[j], s.broadcasts, s.sender.AtSend? && s.sender.i <= j)
  }

  /** What a client has received: all the broadcasts since it joined, or all `butOne`. */
  predicate InStep(c: Client, broadcasts: seq<Msg>, butOne: bool) {
    var n := |broadcasts|;
    if butOne then c.joined < n && c.log == broadcasts[c.joined..n - 1]
    else c.joined <= n && c.log == broadcasts[c.joined..]
  }

  lemma StartInStep(c: Client, broadcasts: seq<Msg>, msg: Msg)
    requires InStep(c, broadcasts, false)
    ensures InStep(c, broadcasts + [msg], true)
  {
    var b := broadcasts + [msg];
    assert b[c.joined..|b| - 1] == broadcasts[c.joined..];
  }

  lemma SendInStep(c: Client, broadcasts: seq<Msg>)
    requires broadcasts != [] && InStep(c, broadcasts, true)
    ensures InStep(c.(log := c.log + [broadcasts[|broadcasts| - 1]]), broadcasts, false)
  {
    var n := |broadcasts|;
    assert broadcasts[c.joined..n - 1] + [broadcasts[n - 1]] == broadcasts[c.joined..];
  }

  /** How many numbers have been sent since the last restart, the restarted one included. */
  function SinceRestart(log: seq<Msg>): nat {
    if log == [] then 0
    else
      match log[|log| - 1]
      case Exit => SinceRestart(log[..|log| - 1])
      case Number(_, restart) => if restart then 1 else SinceRestart(log[..|log| - 1]) + 1
  }

  predicate NumberedAt(log: seq<Msg>, k: nat)
    requires k < |log|
  {
    log[k].Number? ==> SinceRestart(log[..k + 1]) >= 1 && log[k].n == Wrap(SinceRestart(log[..k + 1]) - 1)
  }

  /** Every number tells how many numbers came before it since the last restart. */
  predicate Numbered(log: seq<Msg>) {
    forall k :: 0 <= k < |log| ==> NumberedAt(log, k)
  }

  predicate NumberInv(s: State) {
    && Numbered(s.made) && s.counter == Wrap(SinceRestart(s.made))
    && s.made == s.broadcasts + if s.sender.AtClear? || s.sender.AtSendLock? then [s.sender.msg] else []
  }

  /** The messages that answer a command. */
  function Answers(log: seq<Msg>): nat {
    if log == [] then 0
    else
      var last := log[|log| - 1];
      Answers(log[..|log| - 1]) + if last.Exit? || last.restart then 1 else 0
  }

  function Waiting(s: State, command: nat): nat {
    if Unserved(s) && s.signal.command == command then 1 else 0
  }

  /** Every command accepted is exactly one of taken, lost, and waiting in the signal. */
  ghost predicate CommandInv(s: State) {
    && (s.signal != NoSignal ==> s.signal.command < s.commands)
    && |s.taken| + |s.lost| + (if Unserved(s) then 1 else 0) == s.commands
    && (forall c: nat :: multiset(s.taken)[c] + multiset(s.lost)[c] + Waiting(s, c) == if c < s.commands then 1 else 0)
    && Answers(s.made) == |s.taken|
  }

  ghost predicate Inv(s: State) {
    MutexInv(s) && SuffixInv(s) && NumberInv(s) && TakenInv(s) && CommandInv(s)
  }

  lemma MutexKept(s: State, a: Action)
    requires MutexInv(s) && Enabled(s, a)
    ensures MutexInv(Apply(s, a))
  {
  }

  lemma SuffixKept(s: State, a: Action)
    requires MutexInv(s) && SuffixInv(s) && Enabled(s, a)
    ensures SuffixInv(Apply(s, a))
  {
    var s' := Apply(s, a);
    forall j | 0 <= j < |s'.clients|
      ensures InStep(s'.clients[j], s'.broadcasts, s'.sender.AtSend? && s'.sender.i <= j)
    {
      if j < |s.clients| {
        assert InStep(s.clients[j], s.broadcasts, s.sender.AtSend? && s.sender.i <= j);
        if a.Send? && s.sender.AtSendLock? {
          StartInStep(s.clients[j], s.broadcasts, s.sender.msg);
        } else if a.Send? && s.sender.AtSend? && s.sender.i == j {
          SendInStep(s.clients[j], s.broadcasts);
        }
      }
    }
  }

  lemma CountsSnoc(log: seq<Msg>, msg: Msg)
    ensures SinceRestart(log + [msg]) ==
            if msg.Exit? then SinceRestart(log) else if msg.restart then 1 else SinceRestart(log) + 1
    ensures Answers(log + [msg]) == Answers(log) + if msg.Exit? || msg.restart then 1 else 0
  {
    assert (log + [msg])[..|log|] == log;
  }

  lemma NumberedLast(log: seq<Msg>, msg: Msg)
    requires msg.Number? ==> msg.n == if msg.restart then 0 else Wrap(SinceRestart(log))
    ensures NumberedAt(log + [msg], |log|)
  {
    var longer := log + [msg];
    CountsSnoc(log, msg);
    assert longer[..|log| + 1] == longer;
    if msg.Number? {
      assert SinceRestart(longer) - 1 == if msg.restart then 0 else SinceRestart(log);
    }
  }

  lemma NumberedBefore(log: seq<Msg>, msg: Msg, k: nat)
    requires k < |log| && NumberedAt(log, k)
    ensures NumberedAt(log + [msg], k)
  {
    assert (log + [msg])[..k + 1] == log[..k + 1];
  }

  lemma NumberedSnoc(log: seq<Msg>, msg: Msg)
    requires Numbered(log)
    requires msg.Number? ==> msg.n == if msg.restart then 0 else Wrap(SinceRestart(log))
    ensures Numbered(log + [msg])
  {
    forall k | 0 <= k < |log + [msg]| ensures NumberedAt(log + [msg], k) {
      if k < |log| {
        NumberedBefore(log, msg, k);
      } else {
        NumberedLast(log, msg);
      }
    }
  }

  lemma WrapNext(n: nat)
    ensures Next(Wrap(n)) == Wrap(n + 1)
  {
  }

  /** The message that the sender makes has the right number. */
  lemma MakeKeepsNumbers(s: State, msg: Msg, taken: Signal, counter: nat)
    requires NumberInv(s) && (s.sender.AtTestExit? || s.sender.AtTestReset?)
    requires msg.Number? ==> msg.n == if msg.restart then 0 else s.counter
    requires counter == if msg.Exit? then s.counter else Next(msg.n)
    ensures NumberInv(Make(s, msg, taken, counter))
  {
    NumberedSnoc(s.made, msg);
    CountsSnoc(s.made, msg);
    WrapNext(SinceRestart(s.made));
  }

  lemma NumberKept(s: State, a: Action)
    requires NumberInv(s) && Enabled(s, a)
    ensures NumberInv(Apply(s, a))
  {
    if a.Send? {
      match s.sender
      case AtTestExit => MakeKeepsNumbers(s, Exit, s.signal, s.counter);
      case AtTestReset =>
        MakeKeepsNumbers(s, Number(0, true), s.signal, Next(0));
        MakeKeepsNumbers(s, Number(s.counter, false), NoSignal, Next(s.counter));
      case _ =>
    }
  }

  lemma CountSnoc(ids: seq<nat>, id: nat, c: nat)
    ensures multiset(ids + [id])[c] == multiset(ids)[c] + if c == id then 1 else 0
  {
  }

  /** The sender has found the command in the signal, or has found none. */
  lemma MakeKeepsCommands(s: State, msg: Msg, taken: Signal, counter: nat)
    requires CommandInv(s) && (s.sender.AtTestExit? || s.sender.AtTestReset?)
    requires if msg.Exit? || msg.restart then taken == s.signal != NoSignal else taken == NoSignal
    ensures CommandInv(Make(s, msg, taken, counter))
  {
    var s' := Make(s, msg, taken, counter);
    CountsSnoc(s.made, msg);
    forall c: nat ensures multiset(s'.taken)[c] + multiset(s'.lost)[c] + Waiting(s', c) == if c < s'.commands then 1 else 0 {
      assert multiset(s.taken)[c] + multiset(s.lost)[c] + Waiting(s, c) == if c < s.commands then 1 else 0;
      if taken != NoSignal {
        CountSnoc(s.taken, taken.command, c);
      }
    }
  }

  /** The signal changes: a command that waited in it is lost, and `signal` may bring a new one. */
  lemma ReplaceKeepsCommands(s: State, s': State)
    requires CommandInv(s)
    requires s'.lost == Overwritten(s) && s'.taken == s.taken && s'.made == s.made
    requires if s'.signal == NoSignal then s'.commands == s.commands
             else s'.signal.command == s.commands && s'.commands == s.commands + 1 && s'.sender == s.sender
    requires s'.sender.AtClear? && s.sender.AtClear? ==> s'.sender == s.sender
    requires s.sender.AtClear? && s.sender.taken != NoSignal ==> s.sender.taken.command < s.commands
    ensures CommandInv(s')
  {
    forall c: nat ensures multiset(s'.taken)[c] + multiset(s'.lost)[c] + Waiting(s', c) == if c < s'.commands then 1 else 0 {
      assert multiset(s.taken)[c] + multiset(s.lost)[c] + Waiting(s, c) == if c < s.commands then 1 else 0;
      if Unserved(s) {
        CountSnoc(s.lost, s.signal.command, c);
      }
    }
  }

  /** A command the sender has found was accepted. */
  predicate TakenInv(s: State) {
    s.sender.AtClear? && s.sender.taken != NoSignal ==> s.sender.taken.command < s.commands
  }

  lemma CommandKept(s: State, a: Action)
    requires TakenInv(s) && CommandInv(s) && Enabled(s, a)
    ensures TakenInv(Apply(s, a)) && CommandInv(Apply(s, a))
  {
    match a
    case Send =>
      if s.sender.AtTestExit? && s.signal.ExitSignal? {
        MakeKeepsCommands(s, Exit, s.signal, s.counter);
      } else if s.sender.AtTestReset? && s.signal.ResetSignal? {
        MakeKeepsCommands(s, Number(0, true), s.signal, Next(0));
      } else if s.sender.AtTestReset? {
        MakeKeepsCommands(s, Number(s.counter, false), NoSignal, Next(s.counter));
      } else if s.sender.AtClear? {
        ReplaceKeepsCommands(s, Apply(s, a));
      } else {
        SameCommands(s, Apply(s, a));
      }
    case Control(command) =>
      if command != Unknown {
        ReplaceKeepsCommands(s, Apply(s, a));
      }
    case _ => SameCommands(s, Apply(s, a));
  }

  lemma SameCommands(s: State, s': State)
    requires CommandInv(s)
    requires s'.signal == s.signal && s'.taken == s.taken && s'.lost == s.lost && s'.made == s.made
    requires s'.commands == s.commands && (s'.sender == s.sender || (!s.sender.AtClear? && !s'.sender.AtClear?))
    ensures CommandInv(s')
  {
    assert forall c: nat :: Waiting(s', c) == Waiting(s, c);
  }

  lemma StepInv(s: State, a: Action)
    requires Inv(s) && Enabled(s, a)
    ensures Inv(Apply(s, a))
  {
    MutexKept(s, a);
    SuffixKept(s, a);
    NumberKept(s, a);
    CommandKept(s, a);
  }

  lemma {:induction false} RunInv(s: State, run: seq<Action>)
    requires Inv(s) && Runnable(s, run)
    ensures Inv(After(s, run))
    decreases |run|
  {
    if run != [] {
      StepInv(s, run[0]);
      RunInv(Apply(s, run[0]), run[1..]);
    }
  }

  lemma ReachableInv(s: State)
    requires Reachable(s)
    ensures Inv(s)
  {
    var run :| Runnable(INIT, run) && After(INIT, run) == s;
    RunInv(INIT, run);
  }

  // ----- what holds in every reachable state

  /** Whatever the interleaving, a client has received exactly the broadcasts since it joined;
      while a broadcast is going out, the clients it has not reached lack just that one. */
  lemma LogsAreSuffixes(s: State, j: nat)
    requires Reachable(s) && j < |s.clients|
    ensures var c := s.clients[j];
            c.joined <= |s.broadcasts| &&
            if s.sender.AtSend? && s.sender.i <= j then c.log + [s.sender.msg] == s.broadcasts[c.joined..]
            else c.log == s.broadcasts[c.joined..]
    ensures |s.clients| <= MAX_CONNECTIONS
  {
    ReachableInv(s);
    var c, n := s.clients[j], |s.broadcasts|;
    if s.sender.AtSend? && s.sender.i <= j {
      assert s.broadcasts[c.joined..] == s.broadcasts[c.joined..n - 1] + [s.broadcasts[n - 1]];
    }
  }

  // ----- who is taken on

  /** The descriptors that the accepting thread got, in order. */
  function Connects(run: seq<Action>): seq<int> {
    if run == [] then [] else (if run[0].Connect? then [run[0].fd] else []) + Connects(run[1..])
  }

  /** The descriptors of the clients, and the one on its way into the list. */
  function Taken(s: State): seq<int> {
    seq(|s.clients|, j requires 0 <= j < |s.clients| => s.clients[j].fd) +
    if s.acceptor.AtAddLock? || s.acceptor.AtAdd? then [s.acceptor.fd] else []
  }

  function FirstFive(fds: seq<int>): seq<int> {
    if |fds| <= 5 then fds else fds[..5]
  }

  lemma TakenStep(s: State, a: Action)
    requires Enabled(s, a) && MutexInv(s)
    ensures Taken(Apply(s, a)) == FirstFive(Taken(s) + if a.Connect? then [a.fd] else [])
  {
  }

  lemma FirstFiveTwice(a: seq<int>, b: seq<int>, c: seq<int>)
    ensures FirstFive(FirstFive(a + b) + c) == FirstFive(a + (b + c))
  {
    assert a + b + c == a + (b + c);
  }

  lemma {:induction false} TakenRun(s: State, run: seq<Action>)
    requires Runnable(s, run) && MutexInv(s)
    ensures Taken(After(s, run)) == FirstFive(Taken(s) + Connects(run))
    decreases |run|
  {
    if run == [] {
      assert Taken(s) + [] == Taken(s);
    } else {
      var one := if run[0].Connect? then [run[0].fd] else [];
      MutexKept(s, run[0]);
      TakenStep(s, run[0]);
      TakenRun(Apply(s, run[0]), run[1..]);
      FirstFiveTwice(Taken(s), one, Connects(run[1..]));
    }
  }

  /** Over every run: the clients of the list, with the one on its way there, are the first five that
      connected, in that order. */
  lemma FirstFiveTakenOn(run: seq<Action>)
    requires Runnable(INIT, run)
    ensures Taken(After(INIT, run)) == FirstFive(Connects(run))
  {
    TakenRun(INIT, run);
    assert Taken(INIT) + Connects(run) == Connects(run);
  }

  predicate ExitsBetween(log: seq<Msg>, j: nat, k: nat)
    requires k <= |log|
  {
    forall i :: j < i < k ==> log[i].Exit?
  }

  lemma {:induction false} ExitsDoNotCount(log: seq<Msg>, j: nat, k: nat)
    requires j < k <= |log| && ExitsBetween(log, j, k)
    ensures SinceRestart(log[..k]) == SinceRestart(log[..j + 1])
    decreases k
  {
    if k > j + 1 {
      assert log[..k][..k - 1] == log[..k - 1];
      ExitsDoNotCount(log, j, k - 1);
    }
  }

  /** Numbers are consecutive: after a number, and past any exit messages, comes its successor, or
      0 if a restart was taken. The first number of all is 0. */
  lemma NumbersConsecutive(s: State, j: nat, k: nat)
    requires Reachable(s) && j < k < |s.made| && ExitsBetween(s.made, j, k)
    requires s.made[j].Number? && s.made[k].Number?
    ensures s.made[k].n ==
            if s.made[k].restart || s.made[j].n == 0xFFFF_FFFF_FFFF_FFFF then 0 else s.made[j].n + 1
    ensures s.broadcasts <= s.made
  {
    ReachableInv(s);
    ExitsDoNotCount(s.made, j, k);
    assert s.made[..k + 1][..k] == s.made[..k];
    assert NumberedAt(s.made, j) && NumberedAt(s.made, k);
    WrapNext(SinceRestart(s.made[..j + 1]) - 1);
    NextIs(s.made[j].n);
  }

  lemma NextIs(n: nat)
    requires n < 0x1_0000_0000_0000_0000
    ensures Next(n) == if n == 0xFFFF_FFFF_FFFF_FFFF then 0 else n + 1
  {
  }

  lemma {:induction false} AllExits(log: seq<Msg>)
    requires forall i :: 0 <= i < |log| ==> log[i].Exit?
    ensures SinceRestart(log) == 0
  {
    if log != [] {
      AllExits(log[..|log| - 1]);
    }
  }

  lemma FirstNumberIsZero(s: State, k: nat)
    requires Reachable(s) && k < |s.made| && s.made[k].Number?
    requires forall i :: 0 <= i < k ==> s.made[i].Exit?
    ensures s.made[k].n == 0
  {
    ReachableInv(s);
    AllExits(s.made[..k]);
    assert s.made[..k + 1][..k] == s.made[..k];
    assert NumberedAt(s.made, k);
  }

  /** Every accepted command is exactly one of taken, lost and waiting, and each taken one is
      answered by one exit message or one restart: never more answers than commands. */
  lemma CommandsAccountedFor(s: State, c: nat)
    requires Reachable(s)
    ensures multiset(s.taken)[c] + multiset(s.lost)[c] + Waiting(s, c) == if c < s.commands then 1 else 0
    ensures Answers(s.made) == |s.taken| == s.commands - |s.lost| - (if Unserved(s) then 1 else 0)
    ensures Answers(s.made) <= s.commands
  {
    ReachableInv(s);
  }

  // ----- which commands are lost

  predicate IsCommand(a: Action) { a.Control? && a.command != Unknown }

  function SignalFor(c: Command, id: nat): Signal
    requires c != Unknown
  {
    if c == ExitCommand then ExitSignal(id) else ResetSignal(id)
  }

  predicate AnswersTo(msg: Msg, c: Command) {
    if c == ExitCommand then msg.Exit? else msg.Number? && msg.restart
  }

  /** The sender has passed the test for the command, and will clear the signal next. */
  predicate TooLate(sender: SenderPc, c: Command) {
    sender.AtClear? || (sender.AtTestReset? && c == ExitCommand)
  }

  /** Another command arrives while only `n` messages have been made. */
  predicate Interrupted(s: State, run: seq<Action>, n: nat)
    requires Runnable(s, run)
    decreases |run|
  {
    run != [] && |s.made| == n && (IsCommand(run[0]) || Interrupted(Apply(s, run[0]), run[1..], n))
  }

  /** The command waits, and the sender's next test for it is still to come. */
  predicate InTime(s: State, c: Command, id: nat, n: nat)
    requires c != Unknown
  {
    s.signal == SignalFor(c, id) && !TooLate(s.sender, c) && |s.made| == n
  }

  /** The command has been taken, and the message made after the first `n` is its answer. */
  predicate Answered(s: State, c: Command, id: nat, n: nat) {
    id in s.taken && n < |s.made| && AnswersTo(s.made[n], c)
  }

  /** The command waits, and the sender will clear it before it tests again. */
  predicate Doomed(s: State, c: Command, id: nat, b: nat)
    requires c != Unknown
  {
    && s.signal == SignalFor(c, id) && TooLate(s.sender, c) && |s.broadcasts| == b
    && (s.sender.AtClear? ==> s.sender.taken != s.signal)
  }

  lemma InTimeStep(s: State, c: Command, id: nat, n: nat, a: Action)
    requires c != Unknown && Enabled(s, a) && InTime(s, c, id, n)
    ensures if IsCommand(a) then id in Apply(s, a).lost
            else InTime(Apply(s, a), c, id, n) || Answered(Apply(s, a), c, id, n)
  {
  }

  lemma DoomedStep(s: State, c: Command, id: nat, b: nat, a: Action)
    requires c != Unknown && Enabled(s, a) && Doomed(s, c, id, b)
    ensures id in Apply(s, a).lost || Doomed(Apply(s, a), c, id, b)
  {
  }

  lemma {:induction false} AnsweredStays(s: State, c: Command, id: nat, n: nat, run: seq<Action>)
    requires Runnable(s, run) && Answered(s, c, id, n)
    ensures Answered(After(s, run), c, id, n)
    decreases |run|
  {
    if run != [] {
      AnsweredStays(Apply(s, run[0]), c, id, n, run[1..]);
    }
  }

  lemma {:induction false} LostStays(s: State, id: nat, run: seq<Action>)
    requires Runnable(s, run) && id in s.lost
    ensures id in After(s, run).lost
    decreases |run|
  {
    if run != [] {
      LostStays(Apply(s, run[0]), id, run[1..]);
    }
  }

  lemma {:induction false} InTimeRun(s: State, c: Command, id: nat, n: nat, run: seq<Action>)
    requires c != Unknown && Runnable(s, run) && InTime(s, c, id, n)
    ensures if Interrupted(s, run, n) then id in After(s, run).lost
            else InTime(After(s, run), c, id, n) || Answered(After(s, run), c, id, n)
    decreases |run|
  {
    if run != [] {
      var s' := Apply(s, run[0]);
      InTimeStep(s, c, id, n, run[0]);
      if IsCommand(run[0]) {
        LostStays(s', id, run[1..]);
      } else if InTime(s', c, id, n) {
        InTimeRun(s', c, id, n, run[1..]);
      } else {
        assert !Interrupted(s', run[1..], n);
        AnsweredStays(s', c, id, n, run[1..]);
      }
    }
  }

  lemma {:induction false} DoomedRun(s: State, c: Command, id: nat, b: nat, run: seq<Action>)
    requires c != Unknown && Runnable(s, run) && Doomed(s, c, id, b)
    ensures id in After(s, run).lost || Doomed(After(s, run), c, id, b)
    decreases |run|
  {
    if run != [] {
      var s' := Apply(s, run[0]);
      DoomedStep(s, c, id, b, run[0]);
      if id in s'.lost {
        LostStays(s', id, run[1..]);
      } else {
        DoomedRun(s', c, id, b, run[1..]);
      }
    }
  }

  /** Once one more message has been broadcast than had been made when the command arrived: it is lost
      exactly if the sender had passed its test by then, or another command arrived before the next
      message was made. Otherwise it is taken, and that next message is its answer. */
  lemma LosesCommandIff(s: State, c: Command, run: seq<Action>)
    requires Reachable(s) && c != Unknown && Runnable(Apply(s, Control(c)), run)
    requires |After(Apply(s, Control(c)), run).broadcasts| > |s.made|
    ensures var s1, n := Apply(s, Control(c)), |s.made|;
            var e, lost := After(s1, run), TooLate(s.sender, c) || Interrupted(s1, run, n);
            && (s.commands in e.lost <==> lost)
            && (s.commands in e.taken <==> !lost)
            && (!lost ==> n < |e.made| && AnswersTo(e.made[n], c))
  {
    var s1, n, id := Apply(s, Control(c)), |s.made|, s.commands;
    var e := After(s1, run);
    ReachableInv(s);
    StepInv(s, Control(c));
    RunInv(s1, run);
    if TooLate(s.sender, c) {
      DoomedRun(s1, c, id, |s.broadcasts|, run);
    } else {
      InTimeRun(s1, c, id, n, run);
    }
    assert multiset(e.taken)[id] + multiset(e.lost)[id] + Waiting(e, id) <= 1;
  }

  /** Commands can be lost: one that comes in between the sender's tests and its clearing of the
      signal is never answered. */
  lemma CommandLost() returns (s: State)
    ensures Reachable(s) && s.commands == 1 && s.signal == NoSignal && s.taken == [] && s.lost == [0]
  {
    var run := [Send, Send, Control(ExitCommand), Send];
    var s1 := Apply(INIT, run[0]);
    var s2 := Apply(s1, run[1]);
    var s3 := Apply(s2, run[2]);
    s := Apply(s3, run[3]);
    assert run[1..] == [Send, Control(ExitCommand), Send];
    assert run[1..][1..] == [Control(ExitCommand), Send];
    assert run[1..][1..][1..] == [Send];
    assert run[1..][1..][1..][1..] == [];
    assert Runnable(s, []) && After(s, []) == s;
    assert Runnable(s3, [Send]) && After(s3, [Send]) == s;
    assert Runnable(s2, run[1..][1..]) && After(s2, run[1..][1..]) == s;
    assert Runnable(s1, run[1..]) && After(s1, run[1..]) == s;
    assert Runnable(INIT, run) && After(INIT, run) == s;
  }
}
