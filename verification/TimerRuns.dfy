/** Whole runs of the timers of game_loops/simple_array_based_timer/main.c: events are added
    and ticks pass, in any order and with any elapsed times. */
module TimerRuns {
  import opened Counting
  import opened TimerWheel

  /** `fired` and `added` are the history: the events in the order their callbacks ran, and
      the events armed, numbered in order. */
  datatype Wheel = Wheel(live: seq<Entry>, fired: seq<Entry>, added: seq<Key>)

  /** `arr_add` with a wait in seconds, or a tick after a number of elapsed nanoseconds. */
  datatype Op = Add(wait: nat) | Tick(ns: nat)
  {
    function Ms(): nat { if Tick? then ns / NS_PER_MS else 0 }
  }

  const EMPTY := Wheel([], [], [])

  function Apply(w: Wheel, op: Op): (r: Wheel)
    requires WellFormed(w.live)
    ensures WellFormed(r.live)
  {
    match op
    case Add(wait) =>
      var key := Key(|w.added|, wait);
      Wheel(w.live + [Arm(key)], w.fired, w.added + [key])
    case Tick(_) =>
      var o := Sweep(w.live, op.Ms());
      SweepParts(w.live, op.Ms());
      Wheel(o.live, w.fired + o.fired, w.added)
  }

  function After(w: Wheel, ops: seq<Op>): (r: Wheel)
    requires WellFormed(w.live)
    ensures WellFormed(r.live)
    decreases |ops|
  {
    if ops == [] then w
    else After(Apply(w, ops[0]), ops[1..])
  }

  lemma {:induction false} AfterSnoc(w: Wheel, ops: seq<Op>, k: nat)
    requires WellFormed(w.live) && k < |ops|
    ensures After(w, ops[..k + 1]) == Apply(After(w, ops[..k]), ops[k])
    decreases k
  {
    if k > 0 {
      AfterSnoc(Apply(w, ops[0]), ops[1..], k - 1);
      assert ops[..k + 1][1..] == ops[1..][..k];
      assert ops[..k][1..] == ops[1..][..k - 1];
    } else {
      assert ops[..1] == [ops[0]];
    }
  }

  // ----- every event stays accounted for

  lemma {:induction false} SweepKeys(s: seq<Entry>, ms: nat, k: Key)
    requires WellFormed(s)
    ensures var o := Sweep(s, ms);
            multiset(Keys(s))[k] == multiset(Keys(o.live))[k] + multiset(Keys(o.fired))[k]
    decreases |s|
  {
    if s == [] {
    } else if !s[0].remaining.Expired() {
      var p := Sweep(s[1..], ms);
      SweepKeys(s[1..], ms, k);
      KeysHead(s, k);
      KeysCons(s[0].Reduced(ms), p.live, k);
    } else if |s| > 1 {
      var moved, p := s[|s| - 1], Sweep(s[1..|s| - 1], ms);
      SweepKeys(s[1..|s| - 1], ms, k);
      KeysEnds(s, k);
      KeysCons(s[0], p.fired, k);
      KeysCons(moved, p.live, k);
    }
  }

  lemma KeysCons(e: Entry, s: seq<Entry>, k: Key)
    ensures multiset(Keys([e] + s))[k] == One(e.key, k) + multiset(Keys(s))[k]
  {
    assert Keys([e] + s) == [e.key] + Keys(s);
  }

  lemma KeysHead(s: seq<Entry>, k: Key)
    requires |s| > 0
    ensures multiset(Keys(s))[k] == One(s[0].key, k) + multiset(Keys(s[1..]))[k]
  {
    HeadCount(Keys(s), k);
    assert Keys(s)[1..] == Keys(s[1..]);
  }

  lemma KeysEnds(s: seq<Entry>, k: Key)
    requires |s| > 1
    ensures multiset(Keys(s))[k] ==
            One(s[0].key, k) + multiset(Keys(s[1..|s| - 1]))[k] + One(s[|s| - 1].key, k)
  {
    EndsCount(Keys(s), k);
    assert Keys(s)[1..|s| - 1] == Keys(s[1..|s| - 1]);
  }

  lemma KeysAppend(s: seq<Entry>, t: seq<Entry>, k: Key)
    ensures multiset(Keys(s + t))[k] == multiset(Keys(s))[k] + multiset(Keys(t))[k]
  {
    assert Keys(s + t) == Keys(s) + Keys(t);
  }

  /** The armed and the fired events together are the added ones, each exactly once. */
  ghost predicate Accounted(w: Wheel) {
    && (forall k :: multiset(Keys(w.live))[k] + multiset(Keys(w.fired))[k] == multiset(w.added)[k])
    && (forall i :: 0 <= i < |w.added| ==> w.added[i].id == i)
  }

  ghost predicate Inv(w: Wheel) {
    WellFormed(w.live) && Accounted(w)
  }

  lemma AddInv(w: Wheel, wait: nat)
    requires Inv(w)
    ensures Accounted(Apply(w, Add(wait)))
  {
    var w', key := Apply(w, Add(wait)), Key(|w.added|, wait);
    forall k ensures multiset(Keys(w'.live))[k] + multiset(Keys(w'.fired))[k] == multiset(w'.added)[k] {
      assert multiset(Keys(w.live))[k] + multiset(Keys(w.fired))[k] == multiset(w.added)[k];
      KeysAppend(w.live, [Arm(key)], k);
      assert Keys([Arm(key)]) == [key];
    }
  }

  lemma TickInv(w: Wheel, ns: nat)
    requires Inv(w)
    ensures Accounted(Apply(w, Tick(ns)))
  {
    var w', ms := Apply(w, Tick(ns)), Tick(ns).Ms();
    forall k ensures multiset(Keys(w'.live))[k] + multiset(Keys(w'.fired))[k] == multiset(w'.added)[k] {
      assert multiset(Keys(w.live))[k] + multiset(Keys(w.fired))[k] == multiset(w.added)[k];
      SweepKeys(w.live, ms, k);
      KeysAppend(w.fired, Sweep(w.live, ms).fired, k);
    }
  }

  lemma ApplyInv(w: Wheel, op: Op)
    requires Inv(w)
    ensures Inv(Apply(w, op))
  {
    match op
    case Add(wait) => AddInv(w, wait);
    case Tick(ns) => TickInv(w, ns);
  }

  lemma {:induction false} RunInv(w: Wheel, ops: seq<Op>)
    requires Inv(w)
    ensures Inv(After(w, ops))
    decreases |ops|
  {
    if ops != [] {
      ApplyInv(w, ops[0]);
      RunInv(Apply(w, ops[0]), ops[1..]);
    }
  }

  lemma LiveDistinct(w: Wheel)
    requires Inv(w)
    ensures DistinctIds(w.live)
  {
    forall i, j | 0 <= i < j < |w.live| ensures w.live[i].key.id != w.live[j].key.id {
      var keys := Keys(w.live);
      var k := keys[i];
      CountTwo(keys, i, j);
      CountOnce(w.added, k);
      if w.live[i].key.id == w.live[j].key.id {
        AddedKey(w, keys[i]);
        AddedKey(w, keys[j]);
      }
    }
  }

  lemma AddedKey(w: Wheel, k: Key)
    requires Inv(w) && (k in Keys(w.live) || k in Keys(w.fired))
    ensures k.id < |w.added| && w.added[k.id] == k
  {
    assert multiset(w.added)[k] > 0;
    assert k in w.added;
  }

  lemma CountTwo<T>(s: seq<T>, i: nat, j: nat)
    requires i < j < |s|
    ensures s[i] == s[j] ==> multiset(s)[s[i]] >= 2
  {
    assert s == s[..i] + [s[i]] + s[i + 1..j] + [s[j]] + s[j + 1..];
  }

  lemma CountOnce(added: seq<Key>, k: Key)
    requires forall i :: 0 <= i < |added| ==> added[i].id == i
    ensures multiset(added)[k] <= 1
  {
    if k in added {
      var i :| 0 <= i < |added| && added[i] == k;
      assert added == added[..i] + [k] + added[i + 1..];
      assert k !in added[..i] && k !in added[i + 1..];
    }
  }

  // ----- the remaining time is exact, and no event is early

  predicate Visits(o: Outcome, id: nat) {
    exists e :: e in o.reduced && e.key.id == id
  }

  function Charge(w: Wheel, op: Op, id: nat): nat
    requires WellFormed(w.live)
  {
    if op.Tick? && Visits(Sweep(w.live, op.Ms()), id) then op.Ms() else 0
  }

  /** The milliseconds taken off the event `id` over a run: those of the ticks that visit it. */
  function Charged(w: Wheel, ops: seq<Op>, id: nat): nat
    requires WellFormed(w.live)
    decreases |ops|
  {
    if ops == [] then 0 else Charge(w, ops[0], id) + Charged(Apply(w, ops[0]), ops[1..], id)
  }

  /** An event armed before a run and still armed after it was armed all along. */
  lemma {:induction false} LiveBefore(w: Wheel, ops: seq<Op>, f: Entry) returns (e: Entry)
    requires WellFormed(w.live) && f in After(w, ops).live && f.key.id < |w.added|
    ensures e in w.live && e.key == f.key
    decreases |ops|
  {
    if ops == [] {
      e := f;
    } else {
      var e' := LiveBefore(Apply(w, ops[0]), ops[1..], f);
      if ops[0].Tick? {
        e := SweepOrigin(w.live, ops[0].Ms(), e');
      } else {
        e := e';
      }
    }
  }

  lemma UniqueLive(w: Wheel, e: Entry, f: Entry)
    requires Inv(w) && e in w.live && f in w.live && e.key.id == f.key.id
    ensures e == f
  {
    LiveDistinct(w);
  }

  lemma LiveAdded(w: Wheel, e: Entry)
    requires Inv(w) && e in w.live
    ensures e.key.id < |w.added|
  {
    assert e.key in Keys(w.live) by {
      var i :| 0 <= i < |w.live| && w.live[i] == e;
      assert Keys(w.live)[i] == e.key;
    }
    AddedKey(w, e.key);
  }

  /** What the first operation of a run does to an event that outlives the run. */
  lemma FirstStep(w: Wheel, ops: seq<Op>, e: Entry, f: Entry) returns (e': Entry)
    requires Inv(w) && ops != []
    requires e in w.live && f in After(w, ops).live && e.key.id == f.key.id
    ensures Inv(Apply(w, ops[0])) && e' in Apply(w, ops[0]).live && e'.key == e.key
    ensures ops[0].Add? ==> e' == e
    ensures ops[0].Tick? ==>
              var o := Sweep(w.live, ops[0].Ms());
              && e.Ms() >= 0
              && (Visits(o, e.key.id) ==> e.Ms() > 0 && e' == e.Reduced(ops[0].Ms()))
              && (!Visits(o, e.key.id) ==> e' == e && |o.fired| >= 1)
  {
    ApplyInv(w, ops[0]);
    LiveAdded(w, e);
    e' := LiveBefore(Apply(w, ops[0]), ops[1..], f);
    if ops[0].Add? {
      UniqueLive(Apply(w, ops[0]), e, e');
    } else {
      var ms := ops[0].Ms();
      LiveDistinct(w);
      TickFate(w.live, ms, e, e');
      NormalTimer(e.remaining, e.remaining);
      if Visits(Sweep(w.live, ms), e.key.id) {
        var x :| x in Sweep(w.live, ms).reduced && x.key.id == e.key.id;
        ReducedWereLive(w.live, ms, x);
      }
    }
  }

  lemma ReducedWereLive(s: seq<Entry>, ms: nat, e: Entry)
    requires WellFormed(s) && e in Sweep(s, ms).reduced
    ensures e in s
  {
    SweepSplits(s, ms, e);
    assert multiset(s)[e] > 0;
  }

  function Max(a: int, b: int): int { if a >= b then a else b }

  lemma ReducedMs(e: Entry, ms: nat)
    requires e.Ms() >= 0
    ensures e.Reduced(ms).Ms() == Max(0, e.Ms() - ms)
  {
  }

  lemma MaxTwice(a: int, b: nat, c: nat)
    ensures Max(0, Max(0, a - b) - c) == Max(0, a - (b + c))
  {
  }

  /** One step takes off what it charges, but not below 0. */
  lemma ChargeStep(w: Wheel, ops: seq<Op>, e: Entry, f: Entry) returns (e': Entry)
    requires Inv(w) && ops != []
    requires e in w.live && f in After(w, ops).live && e.key.id == f.key.id
    ensures Inv(Apply(w, ops[0])) && e' in Apply(w, ops[0]).live && e'.key == e.key
    ensures e'.Ms() == Max(0, e.Ms() - Charge(w, ops[0], e.key.id))
  {
    e' := FirstStep(w, ops, e, f);
    NormalTimer(e.remaining, e.remaining);
    ReducedMs(e, ops[0].Ms());
  }

  /** Exact saturating arithmetic: after any run, the time an event has left is what it had
      before, less the milliseconds of exactly the ticks that visited it, but not below 0. */
  lemma {:induction false} ExactRemaining(w: Wheel, ops: seq<Op>, e: Entry, f: Entry)
    requires Inv(w) && e in w.live && f in After(w, ops).live && e.key.id == f.key.id
    ensures f.key == e.key && f.Ms() == Max(0, e.Ms() - Charged(w, ops, e.key.id))
    decreases |ops|
  {
    if ops == [] {
      UniqueLive(w, e, f);
      NormalTimer(e.remaining, e.remaining);
    } else {
      var e' := ChargeStep(w, ops, e, f);
      ExactRemaining(Apply(w, ops[0]), ops[1..], e', f);
      MaxTwice(e.Ms(), Charge(w, ops[0], e.key.id), Charged(Apply(w, ops[0]), ops[1..], e.key.id));
    }
  }

  /** The milliseconds of a 64-bit timer never overflow if those of its wait do not. */
  lemma NoOverflow(w: Wheel, ops: seq<Op>, f: Entry)
    requires Inv(w) && f in After(w, ops).live && 1000 * f.key.wait < 0x8000_0000_0000_0000
    ensures f.remaining.Normal()
    ensures 0 <= f.remaining.sec * 1000 <= f.Ms() < 0x8000_0000_0000_0000
  {
    RunInv(w, ops);
  }

  function ElapsedNs(ops: seq<Op>): nat {
    if ops == [] then 0 else (if ops[0].Tick? then ops[0].ns else 0) + ElapsedNs(ops[1..])
  }

  lemma {:induction false} ChargedWithinElapsed(w: Wheel, ops: seq<Op>, id: nat)
    requires WellFormed(w.live)
    ensures Charged(w, ops, id) * 1_000_000 <= ElapsedNs(ops)
    decreases |ops|
  {
    if ops != [] {
      ChargedWithinElapsed(Apply(w, ops[0]), ops[1..], id);
    }
  }

  lemma FiredWasLive(s: seq<Entry>, ms: nat, f: Entry)
    requires WellFormed(s) && f in Sweep(s, ms).fired
    ensures f in s && f.Ms() == 0
  {
    SweepSplits(s, ms, f);
    SweepParts(s, ms);
    assert multiset(s)[f] > 0;
    NormalTimer(f.remaining, f.remaining);
  }

  /** Never early: an event armed for `wait` seconds that a tick fires has seen at least `wait`
      seconds elapse over the ticks before that one. */
  lemma NeverEarly(w: Wheel, wait: nat, ops: seq<Op>, ns: nat, f: Entry)
    requires Inv(w)
    requires f in Sweep(After(Apply(w, Add(wait)), ops).live, Tick(ns).Ms()).fired && f.key.id == |w.added|
    ensures f.key.wait == wait && ElapsedNs(ops) >= wait * 1_000_000_000
  {
    var w1 := Apply(w, Add(wait));
    var e := Arm(Key(|w.added|, wait));
    ApplyInv(w, Add(wait));
    FiredWasLive(After(w1, ops).live, Tick(ns).Ms(), f);
    ExactRemaining(w1, ops, e, f);
    ChargedWithinElapsed(w1, ops, e.key.id);
  }

  // ----- lateness is bounded, and the array drains

  function CeilDiv(a: nat, m: nat): nat
    requires m >= 1
  {
    (a + m - 1) / m
  }

  lemma MulMonotone(a: nat, b: nat, m: nat)
    requires a <= b
    ensures a * m <= b * m
  {
  }

  lemma QuotientAtLeast(x: nat, m: nat, k: nat)
    requires m >= 1 && x >= k * m
    ensures x / m >= k
  {
    var q := x / m;
    assert x < (q + 1) * m;
    if q + 1 <= k {
      MulMonotone(q + 1, k, m);
    }
  }

  lemma CeilDivFalls(a: nat, ms: nat, m: nat)
    requires m >= 1 && a > 0 && ms >= m
    ensures CeilDiv(Max(0, a - ms), m) + 1 <= CeilDiv(a, m)
  {
    var b := Max(0, a - ms);
    var k := CeilDiv(b, m);
    if b == 0 {
      assert k == 0;
      QuotientAtLeast(a + m - 1, m, 1);
    } else {
      assert k * m <= b + m - 1 && (k + 1) * m == k * m + m;
      QuotientAtLeast(a + m - 1, m, k + 1);
    }
  }

  function Ticks(ops: seq<Op>): nat {
    if ops == [] then 0 else (if ops[0].Tick? then 1 else 0) + Ticks(ops[1..])
  }

  /** Every tick lasts at least `m` milliseconds. */
  predicate TicksTake(ops: seq<Op>, m: nat) {
    forall i :: 0 <= i < |ops| && ops[i].Tick? ==> ops[i].ns >= m * 1_000_000
  }

  /** A tick takes off the whole milliseconds that it lasted. */
  lemma MsExact(op: Op)
    ensures op.Tick? ==> op.Ms() * 1_000_000 <= op.ns < (op.Ms() + 1) * 1_000_000
    ensures op.Add? ==> op.Ms() == 0
  {
  }

  lemma TickTakes(ops: seq<Op>, m: nat)
    requires ops != [] && TicksTake(ops, m)
    ensures ops[0].Tick? ==> ops[0].Ms() >= m
  {
    if ops[0].Tick? {
      assert ops[0].ns >= m * 1_000_000;
      QuotientAtLeast(ops[0].ns, 1_000_000, m);
    }
  }

  /** The ceiling of a quotient. */
  lemma CeilDivIs(a: nat, m: nat)
    requires m >= 1
    ensures a <= CeilDiv(a, m) * m < a + m
  {
    var k := CeilDiv(a, m);
    assert a + m - 1 == k * m + (a + m - 1) % m;
  }

  /** The firings of a run, as many as its history grows. */
  function Firings(w: Wheel, ops: seq<Op>): int
    requires WellFormed(w.live)
  {
    |After(w, ops).fired| - |w.fired|
  }

  /** While an event stays armed, every tick either brings it nearer or fires another event. */
  lemma {:induction false} MissedTicks(w: Wheel, ops: seq<Op>, e: Entry, f: Entry, m: nat)
    requires Inv(w) && e in w.live && f in After(w, ops).live && e.key.id == f.key.id
    requires m >= 1 && TicksTake(ops, m)
    ensures e.Ms() >= 0 && Ticks(ops) <= CeilDiv(e.Ms(), m) + Firings(w, ops)
    decreases |ops|
  {
    if ops != [] {
      var e' := FirstStep(w, ops, e, f);
      MissedTicks(Apply(w, ops[0]), ops[1..], e', f, m);
      TickTakes(ops, m);
      if ops[0].Tick? && Visits(Sweep(w.live, ops[0].Ms()), e.key.id) {
        CeilDivFalls(e.Ms(), ops[0].Ms(), m);
      }
    }
  }

  /** Bounded lateness: if every tick takes at least `m` ms, an event armed for `wait` seconds that
      is still armed before a tick has seen at most ceil(1000 * wait / m) ticks and one more for
      each other event fired since; so the tick that fires it comes at most one later. */
  lemma BoundedLateness(w: Wheel, wait: nat, ops: seq<Op>, f: Entry, m: nat)
    requires Inv(w) && m >= 1 && TicksTake(ops, m)
    requires f in After(Apply(w, Add(wait)), ops).live && f.key.id == |w.added|
    ensures Ticks(ops) + 1 <= CeilDiv(1000 * wait, m) + 1 + Firings(Apply(w, Add(wait)), ops)
    ensures forall x :: x in After(Apply(w, Add(wait)), ops).fired ==> x.key.id != |w.added|
  {
    var w1 := Apply(w, Add(wait));
    ApplyInv(w, Add(wait));
    MissedTicks(w1, ops, Arm(Key(|w.added|, wait)), f, m);
    RunInv(w1, ops);
    ArmedNotFired(After(w1, ops), f);
  }

  lemma KeyFound(s: seq<Entry>, k: Key) returns (e: Entry)
    requires multiset(Keys(s))[k] > 0
    ensures e in s && e.key == k
  {
    assert k in Keys(s);
    var i :| 0 <= i < |s| && Keys(s)[i] == k;
    e := s[i];
  }

  /** An event armed before a run is armed or fired after it. */
  lemma ArmedOrFired(w: Wheel, wait: nat, ops: seq<Op>)
    requires Inv(w)
    ensures var end, key := After(Apply(w, Add(wait)), ops), Key(|w.added|, wait);
            Inv(end) && multiset(Keys(end.live))[key] + multiset(Keys(end.fired))[key] > 0
  {
    var w1, key := Apply(w, Add(wait)), Key(|w.added|, wait);
    var end := After(w1, ops);
    ApplyInv(w, Add(wait));
    RunInv(w1, ops);
    AddedByRun(w1, ops);
    assert end.added[|w.added|] == end.added[..|w1.added|][|w.added|] == key;
    assert multiset(end.added)[key] > 0;
    assert multiset(Keys(end.live))[key] + multiset(Keys(end.fired))[key] == multiset(end.added)[key];
  }

  /** So it fires in time: a run with more ticks than that has fired it. */
  lemma FiresInTime(w: Wheel, wait: nat, ops: seq<Op>, m: nat) returns (x: Entry)
    requires Inv(w) && m >= 1 && TicksTake(ops, m)
    requires Ticks(ops) > CeilDiv(1000 * wait, m) + Firings(Apply(w, Add(wait)), ops)
    ensures x in After(Apply(w, Add(wait)), ops).fired && x.key == Key(|w.added|, wait)
  {
    var end, key := After(Apply(w, Add(wait)), ops), Key(|w.added|, wait);
    ArmedOrFired(w, wait, ops);
    if multiset(Keys(end.live))[key] > 0 {
      var f := KeyFound(end.live, key);
      BoundedLateness(w, wait, ops, f, m);
    }
    x := KeyFound(end.fired, key);
  }

  lemma CountsAdd(a: seq<Key>, b: seq<Key>, c: seq<Key>)
    requires forall k :: multiset(a)[k] + multiset(b)[k] == multiset(c)[k]
    ensures |a| + |b| == |c|
  {
    assert multiset(a) + multiset(b) == multiset(c);
    assert |multiset(a)| == |a| && |multiset(b)| == |b| && |multiset(c)| == |c|;
  }

  /** A deadline known beforehand: the other events of the run, armed before or during it, delay the
      event by a tick each at most. */
  lemma FiresByDeadline(w: Wheel, wait: nat, ops: seq<Op>, m: nat) returns (x: Entry)
    requires Inv(w) && m >= 1 && TicksTake(ops, m)
    requires Ticks(ops) >= CeilDiv(1000 * wait, m) + |w.live| + |Waits(ops)| + 1
    ensures x in After(Apply(w, Add(wait)), ops).fired && x.key == Key(|w.added|, wait)
  {
    var w1 := Apply(w, Add(wait));
    var end := After(w1, ops);
    ApplyInv(w, Add(wait));
    RunInv(w1, ops);
    AddedByRun(w1, ops);
    CountsAdd(Keys(w.live), Keys(w.fired), w.added);
    CountsAdd(Keys(end.live), Keys(end.fired), end.added);
    if end.live == [] {
      ArmedOrFired(w, wait, ops);
      x := KeyFound(end.fired, Key(|w.added|, wait));
    } else {
      x := FiresInTime(w, wait, ops, m);
    }
  }

  lemma ArmedNotFired(w: Wheel, f: Entry)
    requires Inv(w) && f in w.live
    ensures forall x :: x in w.fired ==> x.key.id != f.key.id
  {
    forall x | x in w.fired ensures x.key.id != f.key.id {
      assert f.key in Keys(w.live) by { var i :| 0 <= i < |w.live| && w.live[i] == f; assert Keys(w.live)[i] == f.key; }
      assert x.key in Keys(w.fired) by { var i :| 0 <= i < |w.fired| && w.fired[i] == x; assert Keys(w.fired)[i] == x.key; }
      AddedKey(w, f.key);
      AddedKey(w, x.key);
      CountOnce(w.added, f.key);
    }
  }

  /** A tick passes over no event exactly when none but the last event of the array is due. */
  lemma {:induction false} NothingSkippedIff(s: seq<Entry>, ms: nat)
    requires WellFormed(s)
    ensures Sweep(s, ms).skipped == [] <==> forall i :: 0 <= i < |s| - 1 ==> !s[i].remaining.Expired()
    decreases |s|
  {
    if s == [] {
    } else if !s[0].remaining.Expired() {
      NothingSkippedIff(s[1..], ms);
      assert forall i :: 0 < i < |s| ==> s[i] == s[1..][i - 1];
    }
  }

  /** How many of the events are due. */
  function Due(s: seq<Entry>): nat {
    if s == [] then 0 else (if s[0].remaining.Expired() then 1 else 0) + Due(s[1..])
  }

  lemma DueFirst(s: seq<Entry>, j: nat)
    requires 0 < j <= |s|
    ensures Due(s[..j]) == (if s[0].remaining.Expired() then 1 else 0) + Due(s[1..][..j - 1])
  {
    assert s[..j][1..] == s[1..][..j - 1];
  }

  /** The slot `j` is passed over when as many due events come before it as there are slots from it on. */
  predicate PassedOver(s: seq<Entry>, j: nat)
    requires j < |s|
  {
    Due(s[..j]) >= |s| - j
  }

  /** What the first slot does to the later ones: it takes the last of them, or nothing, along. */
  lemma PassedOverStep(s: seq<Entry>, t: seq<Entry>, j: nat)
    requires 0 < j < |s| && |t| <= |s| - 1
    requires if s[0].remaining.Expired() then t == s[1..|s| - 1] else t == s[1..]
    ensures PassedOver(s, j) <==> j - 1 == |t| || PassedOver(t, j - 1)
  {
    DueFirst(s, j);
    assert t[..j - 1] == s[1..][..j - 1];
  }

  /** The tick loop goes on with the events between the first and the last one, or behind the first. */
  function RestOfTick(s: seq<Entry>): seq<Entry>
    requires s != []
  {
    if s[0].remaining.Expired() && |s| > 1 then s[1..|s| - 1] else s[1..]
  }

  lemma {:induction false} SkippedFromEnd(s: seq<Entry>, ms: nat)
    requires WellFormed(s)
    ensures var skipped := Sweep(s, ms).skipped;
            |skipped| <= |s| && forall i :: 0 <= i < |skipped| ==> skipped[i] == s[|s| - 1 - i]
    decreases |s|
  {
    if s != [] {
      SkippedFromEnd(RestOfTick(s), ms);
    }
  }

  lemma {:induction false} PassedOverIff(s: seq<Entry>, ms: nat, j: nat)
    requires WellFormed(s) && j < |s|
    ensures PassedOver(s, j) <==> j >= |s| - |Sweep(s, ms).skipped|
    decreases |s|
  {
    SkippedFromEnd(RestOfTick(s), ms);
    if j > 0 {
      PassedOverStep(s, RestOfTick(s), j);
      if j - 1 < |RestOfTick(s)| {
        PassedOverIff(RestOfTick(s), ms, j - 1);
      }
    }
  }

  /** A tick passes over the last events of the array, from the end backwards: exactly those slots
      before which as many events are due as there are slots left. */
  lemma SkippedSlots(s: seq<Entry>, ms: nat)
    requires WellFormed(s)
    ensures var skipped := Sweep(s, ms).skipped;
            && |skipped| <= |s|
            && (forall i :: 0 <= i < |skipped| ==> skipped[i] == s[|s| - 1 - i])
            && (forall j :: 0 <= j < |s| ==> (PassedOver(s, j) <==> j >= |s| - |skipped|))
  {
    SkippedFromEnd(s, ms);
    forall j | 0 <= j < |s| ensures PassedOver(s, j) <==> j >= |s| - |Sweep(s, ms).skipped| {
      PassedOverIff(s, ms, j);
    }
  }

  function DueOnes(s: seq<Entry>): seq<Entry> {
    if s == [] then [] else (if s[0].remaining.Expired() then [s[0]] else []) + DueOnes(s[1..])
  }

  /** A tick fires the due events of the slots that it does not pass over, in their order. */
  lemma {:induction false} FiredSlots(s: seq<Entry>, ms: nat)
    requires WellFormed(s)
    ensures |Sweep(s, ms).skipped| <= |s|
    ensures Sweep(s, ms).fired == DueOnes(s[..|s| - |Sweep(s, ms).skipped|])
    decreases |s|
  {
    SkippedFromEnd(s, ms);
    if s != [] {
      var t := RestOfTick(s);
      SkippedFromEnd(t, ms);
      FiredSlots(t, ms);
      var n, k := |s| - |Sweep(s, ms).skipped|, |t| - |Sweep(t, ms).skipped|;
      assert n == k + 1;
      assert s[..n][1..] == t[..k];
    }
  }

  /** The event in slot `j` after the tick: the one that was there, reduced; or, if that was due and
      fired, the last event that was still behind it, unchanged. */
  predicate HeldAfter(s: seq<Entry>, ms: nat, j: nat, e: Entry)
    requires WellFormed(s) && j < |s|
  {
    j + Due(s[..j]) < |s| &&
    e == if s[j].remaining.Expired() then s[|s| - 1 - Due(s[..j])] else s[j].Reduced(ms)
  }

  lemma HeldStep(s: seq<Entry>, ms: nat, j: nat, e: Entry)
    requires WellFormed(s) && 0 < j < |s| && j - 1 < |RestOfTick(s)| && HeldAfter(RestOfTick(s), ms, j - 1, e)
    ensures HeldAfter(s, ms, j, e)
  {
    DueFirst(s, j);
    assert RestOfTick(s)[..j - 1] == s[1..][..j - 1];
  }

  lemma {:induction false} SlotAfterTick(s: seq<Entry>, ms: nat, j: nat)
    requires WellFormed(s) && j < |Sweep(s, ms).live|
    ensures j < |s| && HeldAfter(s, ms, j, Sweep(s, ms).live[j])
    decreases |s|
  {
    if j > 0 {
      SlotAfterTick(RestOfTick(s), ms, j - 1);
      HeldStep(s, ms, j, Sweep(s, ms).live[j]);
    } else {
      assert Due(s[..0]) == 0;
    }
  }

  lemma FiredOrSkipped(s: seq<Entry>, ms: nat, e: Entry)
    requires WellFormed(s) && e.remaining.Expired()
    ensures multiset(s)[e] == multiset(Sweep(s, ms).fired)[e] + multiset(Sweep(s, ms).skipped)[e]
  {
    SweepSplits(s, ms, e);
    SweepParts(s, ms);
  }

  /** A tick fires every event that is due exactly when none of them stands in a slot that it passes
      over. */
  lemma AllDueFireIff(s: seq<Entry>, ms: nat)
    requires WellFormed(s)
    ensures (forall e :: e in s && e.remaining.Expired() ==> multiset(Sweep(s, ms).fired)[e] == multiset(s)[e]) <==>
            (forall j :: 0 <= j < |s| && s[j].remaining.Expired() ==> !PassedOver(s, j))
  {
    var o := Sweep(s, ms);
    SkippedSlots(s, ms);
    if j :| 0 <= j < |s| && s[j].remaining.Expired() && PassedOver(s, j) {
      assert o.skipped[|s| - 1 - j] == s[j];
      FiredOrSkipped(s, ms, s[j]);
      assert multiset(o.skipped)[s[j]] > 0;
    } else {
      forall i | 0 <= i < |o.skipped| ensures !o.skipped[i].remaining.Expired() {
        assert PassedOver(s, |s| - 1 - i);
      }
      forall e | e in s && e.remaining.Expired() ensures multiset(o.fired)[e] == multiset(s)[e] {
        FiredOrSkipped(s, ms, e);
        assert e !in o.skipped;
      }
    }
  }

  /** Skipping happens: of two events that are due, one tick fires only the first. */
  lemma DueEventSkipped(a: Key, b: Key)
    ensures var s := [Entry(a, Timespec(0, 0)), Entry(b, Timespec(0, 0))];
            WellFormed(s) && Sweep(s, 1).fired == [s[0]] && Sweep(s, 1).live == [s[1]]
  {
    var s := [Entry(a, Timespec(0, 0)), Entry(b, Timespec(0, 0))];
    assert s[1..|s| - 1] == [];
  }

  /** The time the armed events have left, with one more millisecond for each firing. */
  function Weight(s: seq<Entry>): nat
    requires WellFormed(s)
  {
    if s == [] then 0 else s[0].Ms() + 1 + Weight(s[1..])
  }

  lemma {:induction false} WeightEnds(s: seq<Entry>)
    requires WellFormed(s) && |s| > 1
    ensures Weight(s) == s[0].Ms() + 1 + Weight(s[1..|s| - 1]) + s[|s| - 1].Ms() + 1
  {
    var t := s[1..];
    if |t| > 1 {
      WeightEnds(t);
      assert t[..|t| - 1] == s[1..|s| - 1];
      assert s[1..|s| - 1] == [t[0]] + t[1..|t| - 1];
    } else {
      assert t[1..] == [];
    }
  }

  lemma {:induction false} TickLightens(s: seq<Entry>, ms: nat)
    requires WellFormed(s)
    ensures WellFormed(Sweep(s, ms).live) && Weight(Sweep(s, ms).live) <= Weight(s)
    ensures s != [] && ms >= 1 ==> Weight(Sweep(s, ms).live) < Weight(s)
    decreases |s|
  {
    SweepParts(s, ms);
    if s == [] {
    } else if !s[0].remaining.Expired() {
      NormalTimer(s[0].remaining, s[0].remaining);
      TickLightens(s[1..], ms);
      assert Sweep(s, ms).live[1..] == Sweep(s[1..], ms).live;
    } else if |s| > 1 {
      NormalTimer(s[0].remaining, s[0].remaining);
      TickLightens(s[1..|s| - 1], ms);
      WeightEnds(s);
      assert Sweep(s, ms).live[1..] == Sweep(s[1..|s| - 1], ms).live;
    }
  }

  /** Drain: once additions stop, ticks of at least a millisecond each empty the array within
      its weight. */
  lemma {:induction false} WheelDrains(w: Wheel, ops: seq<Op>)
    requires Inv(w)
    requires TicksTake(ops, 1) && forall i :: 0 <= i < |ops| ==> ops[i].Tick?
    ensures |ops| >= Weight(w.live) ==> After(w, ops).live == []
    decreases |ops|
  {
    if ops != [] {
      ApplyInv(w, ops[0]);
      TickTakes(ops, 1);
      TickLightens(w.live, ops[0].Ms());
      WheelDrains(Apply(w, ops[0]), ops[1..]);
      if w.live == [] {
        assert Sweep(w.live, ops[0].Ms()).live == [];
      }
    }
  }

  lemma EmptyMeansFired(w: Wheel)
    requires Inv(w) && w.live == []
    ensures multiset(Keys(w.fired)) == multiset(w.added)
    ensures forall k :: k in w.added ==> multiset(Keys(w.fired))[k] == 1
  {
    assert Keys(w.live) == [];
    forall k ensures multiset(Keys(w.fired))[k] == multiset(w.added)[k] {
      assert multiset(Keys(w.live))[k] + multiset(Keys(w.fired))[k] == multiset(w.added)[k];
    }
    forall k | k in w.added ensures multiset(w.added)[k] == 1 {
      CountOnce(w.added, k);
    }
  }

  /** The weight is that of the times left: nothing without events, and for each event its
      milliseconds and one more. */
  lemma {:induction false} WeightAppend(s: seq<Entry>, t: seq<Entry>)
    requires WellFormed(s) && WellFormed(t)
    ensures WellFormed(s + t) && Weight(s + t) == Weight(s) + Weight(t)
  {
    if s == [] {
      assert s + t == t;
    } else {
      assert (s + t)[1..] == s[1..] + t;
      WeightAppend(s[1..], t);
    }
  }

  /** Every callback runs exactly once: from the empty array, after any additions and ticks and
      then enough ticks of at least a millisecond, the fired events are the added ones. */
  lemma AllFireOnce(ops: seq<Op>, ticks: seq<Op>)
    requires TicksTake(ticks, 1) && forall i :: 0 <= i < |ticks| ==> ticks[i].Tick?
    requires |ticks| >= Weight(After(EMPTY, ops).live)
    ensures var w := After(After(EMPTY, ops), ticks);
            && w.live == [] && multiset(Keys(w.fired)) == multiset(w.added)
            && forall k :: k in w.added ==> multiset(Keys(w.fired))[k] == 1
  {
    RunInv(EMPTY, ops);
    var w0 := After(EMPTY, ops);
    WheelDrains(w0, ticks);
    RunInv(w0, ticks);
    EmptyMeansFired(After(w0, ticks));
  }

  function Waits(ops: seq<Op>): seq<nat> {
    if ops == [] then [] else (if ops[0].Add? then [ops[0].wait] else []) + Waits(ops[1..])
  }

  /** `longer` is `added` followed by keys with the given waits. */
  predicate Extends(longer: seq<Key>, added: seq<Key>, waits: seq<nat>) {
    && |longer| == |added| + |waits| && longer[..|added|] == added
    && forall i :: 0 <= i < |waits| ==> longer[|added| + i].wait == waits[i]
  }

  lemma OneMoreKey(longer: seq<Key>, added: seq<Key>, key: Key, later: seq<nat>)
    requires Extends(longer, added + [key], later)
    ensures Extends(longer, added, [key.wait] + later)
  {
    assert longer[..|added|] == longer[..|added| + 1][..|added|];
    assert longer[|added|] == longer[..|added| + 1][|added|];
    forall i | 0 <= i <= |later| ensures longer[|added| + i].wait == ([key.wait] + later)[i] {
      if i > 0 {
        assert longer[|added + [key]| + (i - 1)].wait == later[i - 1];
      }
    }
  }

  /** The added events are the additions of the run, in order and with their waits. */
  lemma {:induction false} AddedByRun(w: Wheel, ops: seq<Op>)
    requires WellFormed(w.live)
    ensures Extends(After(w, ops).added, w.added, Waits(ops))
    decreases |ops|
  {
    if ops != [] {
      AddedByRun(Apply(w, ops[0]), ops[1..]);
      if ops[0].Add? {
        OneMoreKey(After(w, ops).added, w.added, Key(|w.added|, ops[0].wait), Waits(ops[1..]));
      } else {
        assert Waits(ops) == Waits(ops[1..]);
      }
    }
  }
}
