/** The sender's buffer in networking/inte_server_broadcast_with_controller/server.c. The copy of
    "exit" into it has no terminating zero, so what goes out with it depends on what earlier messages
    left there. */
module BroadcastBuffer {
  import opened Text
  import opened BroadcastServer

  const MAX_BUFSIZE: nat := 1024

  // ----- the length of a number

  function Pow10(k: nat): nat {
    if k == 0 then 1 else 10 * Pow10(k - 1)
  }

  lemma {:induction false} DecimalLength(n: nat, k: nat)
    requires k >= 1
    ensures |DecimalNat(n)| <= k <==> n < Pow10(k)
    decreases k
  {
    if k == 1 {
      assert Pow10(1) == 10;
    } else if n >= 10 {
      DecimalLength(n / 10, k - 1);
    } else {
      Pow10Positive(k - 1);
    }
  }

  lemma {:induction false} Pow10Positive(k: nat)
    ensures Pow10(k) >= 1
  {
    if k > 0 {
      Pow10Positive(k - 1);
    }
  }

  /** A counter has at most 20 digits. */
  lemma CounterFits(n: nat)
    requires n < COUNTER_MODULUS
    ensures |DecimalNat(n)| <= 20
  {
    assert Pow10(4) == 1_0000;
    assert Pow10(8) == 1_0000_0000;
    assert Pow10(12) == 1_0000_0000_0000;
    assert Pow10(16) == 1_0000_0000_0000_0000;
    assert Pow10(20) == 1_0000_0000_0000_0000_0000;
    DecimalLength(n, 20);
  }

  // ----- the buffer

  predicate Fits(msg: Msg) {
    msg.Number? ==> |DecimalNat(msg.n)| < MAX_BUFSIZE
  }

  predicate AllFit(made: seq<Msg>) {
    forall k :: 0 <= k < |made| ==> Fits(made[k])
  }

  /** The buffer after a message has been written over its start. */
  function Written(memory: string, msg: Msg): (r: string)
    requires |memory| == MAX_BUFSIZE && Fits(msg)
    ensures |r| == MAX_BUFSIZE
  {
    match msg
    case Exit => "exit" + memory[4..]
    case Number(n, _) => DecimalNat(n) + "\0" + memory[|DecimalNat(n)| + 1..]
  }

  /** The buffer after the messages `made`, from what was in it before the first. */
  function Memory(memory: string, made: seq<Msg>): (r: string)
    requires |memory| == MAX_BUFSIZE && AllFit(made)
    ensures |r| == MAX_BUFSIZE
  {
    if made == [] then memory
    else Written(Memory(memory, made[..|made| - 1]), made[|made| - 1])
  }

  /** The texts that go out for the messages. */
  function Texts(memory: string, made: seq<Msg>): (r: seq<string>)
    requires |memory| == MAX_BUFSIZE && AllFit(made)
    ensures |r| == |made|
  {
    if made == [] then []
    else Texts(memory, made[..|made| - 1]) + [CString(Memory(memory, made))]
  }

  lemma MemorySnoc(memory: string, made: seq<Msg>, msg: Msg)
    requires |memory| == MAX_BUFSIZE && AllFit(made) && Fits(msg)
    ensures AllFit(made + [msg])
    ensures Memory(memory, made + [msg]) == Written(Memory(memory, made), msg)
    ensures Texts(memory, made + [msg]) == Texts(memory, made) + [CString(Memory(memory, made + [msg]))]
  {
    assert (made + [msg])[..|made|] == made;
  }

  lemma NumberText(memory: string, n: nat, restart: bool)
    requires |memory| == MAX_BUFSIZE && Fits(Number(n, restart))
    ensures CString(Written(memory, Number(n, restart))) == DecimalNat(n)
  {
    var d := DecimalNat(n);
    assert forall j :: 0 <= j < |d| ==> d[j] in d;
    CStringUpTo(Written(memory, Number(n, restart)), |d|);
  }

  /** What follows "exit": the digits from the fifth on of the last number of four digits or more, or,
      if there was none, what was in the buffer from the start. */
  function Tail(memory: string, made: seq<Msg>): string
    requires |memory| == MAX_BUFSIZE
  {
    if made == [] then CString(memory[4..])
    else
      var last := made[|made| - 1];
      if last.Number? && |DecimalNat(last.n)| >= 4 then DecimalNat(last.n)[4..]
      else Tail(memory, made[..|made| - 1])
  }

  lemma WrittenTail(memory: string, msg: Msg)
    requires |memory| == MAX_BUFSIZE && Fits(msg)
    ensures CString(Written(memory, msg)[4..]) ==
            if msg.Number? && |DecimalNat(msg.n)| >= 4 then DecimalNat(msg.n)[4..] else CString(memory[4..])
  {
    var w := Written(memory, msg);
    if msg.Number? && |DecimalNat(msg.n)| >= 4 {
      var d := DecimalNat(msg.n);
      assert forall j :: 0 <= j < |d| ==> d[j] in d;
      CStringUpTo(w[4..], |d| - 4);
      assert w[4..][..|d| - 4] == d[4..];
    } else {
      assert w[4..] == memory[4..];
    }
  }

  lemma {:induction false} TailExact(memory: string, made: seq<Msg>)
    requires |memory| == MAX_BUFSIZE && AllFit(made)
    ensures CString(Memory(memory, made)[4..]) == Tail(memory, made)
  {
    if made != [] {
      var before := made[..|made| - 1];
      TailExact(memory, before);
      WrittenTail(Memory(memory, before), made[|made| - 1]);
    }
  }

  /** The last number of four digits or more, if there was any, had four; if there was none, the
      byte behind "exit" was zero from the start. */
  predicate CleanTail(memory: string, made: seq<Msg>)
    requires |memory| == MAX_BUFSIZE
  {
    if made == [] then memory[4] == '\0'
    else
      var last := made[|made| - 1];
      if last.Number? && last.n >= 1000 then last.n < 1_0000 else CleanTail(memory, made[..|made| - 1])
  }

  lemma {:induction false} CleanTailIff(memory: string, made: seq<Msg>)
    requires |memory| == MAX_BUFSIZE
    ensures Tail(memory, made) == "" <==> CleanTail(memory, made)
  {
    if made == [] {
      assert memory[4..][0] == memory[4];
    } else {
      var last := made[|made| - 1];
      CleanTailIff(memory, made[..|made| - 1]);
      if last.Number? {
        assert Pow10(3) == 1000 && Pow10(4) == 1_0000;
        DecimalLength(last.n, 3);
        DecimalLength(last.n, 4);
      }
    }
  }

  lemma {:induction false} TextAt(memory: string, made: seq<Msg>, k: nat)
    requires |memory| == MAX_BUFSIZE && AllFit(made) && k < |made|
    ensures Texts(memory, made)[k] == CString(Memory(memory, made[..k + 1]))
    decreases |made|
  {
    if k < |made| - 1 {
      TextAt(memory, made[..|made| - 1], k);
      assert made[..|made| - 1][..k + 1] == made[..k + 1];
    } else {
      assert made[..k + 1] == made;
    }
  }

  /** A number goes out as its decimal digits, whatever was in the buffer. "exit" goes out with the
      tail of what was sent before: alone exactly if the last number of four digits or more had four, or
      there was none and the buffer was clean. */
  lemma TextIff(memory: string, made: seq<Msg>, k: nat)
    requires |memory| == MAX_BUFSIZE && AllFit(made) && k < |made|
    ensures made[k].Number? ==> Texts(memory, made)[k] == DecimalNat(made[k].n)
    ensures made[k].Exit? ==> Texts(memory, made)[k] == "exit" + Tail(memory, made[..k])
    ensures made[k].Exit? ==> (Texts(memory, made)[k] == "exit" <==> CleanTail(memory, made[..k]))
  {
    TextAt(memory, made, k);
    assert made[..k + 1][..k] == made[..k];
    var before := Memory(memory, made[..k]);
    match made[k]
    case Exit =>
      CStringAppend("exit", before[4..]);
      TailExact(memory, made[..k]);
      CleanTailIff(memory, made[..k]);
    case Number(n, restart) => NumberText(before, n, restart);
  }

  lemma TenThousand()
    ensures DecimalNat(1_0000) == "10000"
  {
    assert DecimalNat(1) == "1";
    assert DecimalNat(10) == "10";
    assert DecimalNat(100) == "100";
    assert DecimalNat(1000) == "1000";
  }

  lemma TailOfLast(memory: string, before: seq<Msg>, n: nat)
    requires |memory| == MAX_BUFSIZE && |DecimalNat(n)| >= 4
    ensures Tail(memory, before + [Number(n, false)]) == DecimalNat(n)[4..]
  {
  }

  /** After 10000, "exit" goes out as "exit0". */
  lemma ExitAfterFiveDigits(memory: string, before: seq<Msg>)
    requires |memory| == MAX_BUFSIZE && AllFit(before)
    ensures var made := before + [Number(1_0000, false), Exit];
            AllFit(made) && Texts(memory, made)[|before| + 1] == "exit0"
  {
    var n := Number(1_0000, false);
    var made := before + [n, Exit];
    TenThousand();
    TailOfLast(memory, before, 1_0000);
    assert made[..|before| + 1] == before + [n];
    assert Fits(n) && made[|before| + 1] == Exit;
    TextIff(memory, made, |before| + 1);
  }

  // ----- a run that sends "exit0"

  lemma {:induction false} RunSnoc(s: State, run: seq<Action>, a: Action)
    requires Runnable(s, run) && Enabled(After(s, run), a)
    ensures Runnable(s, run + [a]) && After(s, run + [a]) == Apply(After(s, run), a)
    decreases |run|
  {
    if run == [] {
      assert run + [a] == [a] && [a][1..] == [];
      assert Runnable(Apply(s, a), []) && After(Apply(s, a), []) == Apply(s, a);
    } else {
      assert (run + [a])[1..] == run[1..] + [a];
      RunSnoc(Apply(s, run[0]), run[1..], a);
    }
  }

  lemma Reach(s: State, a: Action) returns (s': State)
    requires Reachable(s) && Enabled(s, a)
    ensures Reachable(s') && s' == Apply(s, a)
  {
    var run :| Runnable(INIT, run) && After(INIT, run) == s;
    RunSnoc(INIT, run, a);
    s' := Apply(s, a);
  }

  /** The sender alone sends one more number. */
  lemma OneMoreNumber(s: State) returns (s': State)
    requires Reachable(s) && s.sender == AtTestExit && s.signal == NoSignal && s.owner == Free && s.clients == []
    ensures Reachable(s') && s'.sender == AtTestExit && s'.signal == NoSignal && s'.owner == Free && s'.clients == []
    ensures s'.made == s.made + [Number(s.counter, false)] && s'.counter == Next(s.counter)
  {
    s' := Reach(s, Send);
    s' := Reach(s', Send);
    s' := Reach(s', Send);
    s' := Reach(s', Send);
    s' := Reach(s', Send);
    s' := Reach(s', Send);
  }

  function FirstNumbers(n: nat): (r: seq<Msg>)
    ensures |r| == n
  {
    if n == 0 then [] else FirstNumbers(n - 1) + [Number(n - 1, false)]
  }

  lemma {:induction false} CountTo(n: nat) returns (s: State)
    requires n < COUNTER_MODULUS
    ensures Reachable(s) && s.sender == AtTestExit && s.signal == NoSignal && s.owner == Free && s.clients == []
    ensures s.made == FirstNumbers(n) && s.counter == n
  {
    if n == 0 {
      s := INIT;
      assert Runnable(INIT, []) && After(INIT, []) == s;
    } else {
      s := CountTo(n - 1);
      s := OneMoreNumber(s);
    }
  }

  /** The numbers of a run fit the buffer. */
  lemma MadeFit(s: State)
    requires NumberInv(s)
    ensures AllFit(s.made)
  {
    forall k | 0 <= k < |s.made| ensures Fits(s.made[k]) {
      assert NumberedAt(s.made, k);
      if s.made[k].Number? {
        CounterFits(s.made[k].n);
      }
    }
  }

  /** A run in which the controller asks for an exit after 10000 was sent, and "exit0" goes out. */
  lemma DirtyExit(memory: string) returns (s: State)
    requires |memory| == MAX_BUFSIZE
    ensures Reachable(s) && AllFit(s.made)
    ensures s.made == FirstNumbers(1_0001) + [Exit] && Texts(memory, s.made)[1_0001] == "exit0"
  {
    s := CountTo(1_0000);
    var before := s.made;
    ReachableInv(s);
    MadeFit(s);
    s := OneMoreNumber(s);
    s := Reach(s, Control(ExitCommand));
    s := Reach(s, Send);
    assert s.made == before + [Number(1_0000, false), Exit];
    ExitAfterFiveDigits(memory, before);
  }
}
