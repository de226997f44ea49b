/** The timer program of game_loops/simple_array_based_timer/main.c on its array of event
    objects, proved against `TimerWheel` and `TimerRuns`. */
module TimerProgram {
  import opened TimerWheel
  import TimerRuns
  import opened GrowArrays

  class Event {
    const key: Key
    var sec: int     // remaining.tv_sec
    var nsec: int    // remaining.tv_nsec

    constructor (key: Key)
      ensures this.key == key && Value() == Arm(key)
    {
      this.key := key;
      sec, nsec := key.wait, 0;
    }

    ghost function Value(): Entry
      reads this
    {
      Entry(key, Timespec(sec, nsec))
    }

    method TimerMs() returns (ms: int)
      ensures ms == Value().Ms()
    {
      ms := sec * 1000 + if nsec >= 0 then nsec / NS_PER_MS else -(-nsec / NS_PER_MS);
    }

    method Subtract(ms: nat)
      requires Value().Ms() >= 0
      modifies this
      ensures Value() == old(Value()).Reduced(ms)
    {
      var remainingMs := TimerMs();
      if ms > remainingMs {
        remainingMs := 0;
      } else {
        remainingMs := remainingMs - ms;
      }
      sec := remainingMs / 1000;
      nsec := remainingMs % 1000 * NS_PER_MS;
    }
  }

  /** The entries that a sequence of event objects stands for. */
  ghost function Values(events: seq<Event>): (s: seq<Entry>)
    reads events
    ensures |s| == |events| && forall i :: 0 <= i < |s| ==> s[i] == events[i].Value()
  {
    seq(|events|, i requires 0 <= i < |events| reads events => events[i].Value())
  }

  class Timers {
    const arr: GrowArray<Event?>
    var created: nat            // how many events have been created
    ghost var events: seq<Event>
    ghost var added: seq<Key>

    ghost predicate Valid()
      reads this, arr, arr.items, events
    {
      && arr.Valid() && arr.Contents() == events
      && (forall i, j :: 0 <= i < j < |events| ==> events[i] != events[j])
      && WellFormed(Values(events))
      && created == |added|
    }

    /** The live events and the numbering history, with a given log of callbacks. */
    ghost function Wheel(fired: seq<Entry>): TimerRuns.Wheel
      reads this, events
    {
      TimerRuns.Wheel(Values(events), fired, added)
    }

    constructor (cap: nat)
      requires cap >= 1
      ensures Valid() && Wheel([]) == TimerRuns.EMPTY
      ensures fresh(arr) && fresh(arr.items) && events == []
    {
      arr := new GrowArray<Event?>(cap);
      created, events, added := 0, [], [];
    }

    /** `arr_add`. */
    method Add(wait: nat)
      requires Valid()
      modifies this, arr, arr.items
      ensures Valid()
      ensures arr.items == old(arr.items) || fresh(arr.items)
      ensures |events| == |old(events)| + 1 && events[..|old(events)|] == old(events) && fresh(events[|old(events)|])
      ensures added == old(added) + [Key(|old(added)|, wait)]
      ensures Values(events) == old(Values(events)) + [Arm(Key(|old(added)|, wait))]
    {
      var e := new Event(Key(created, wait));
      arr.Push(e);
      created := created + 1;
      added := added + [e.key];
      events := events + [e];
    }

    /** The loop's first branch: the event in slot `i` is due. */
    method Fire(i: nat) returns (fired: Entry)
      requires Valid() && i < |events| && events[i].Value().remaining.Expired()
      modifies this, arr, arr.items
      ensures Valid() && arr.items == old(arr.items) && added == old(added)
      ensures events == SwapRemoved(old(events), i)
      ensures fired == old(events[i].Value())
      ensures Values(events) == SwapRemoved(old(Values(events)), i)
    {
      var e := arr.items[i];
      fired := Entry(e.key, Timespec(e.sec, e.nsec));
      var status := arr.SwapRemove(i);
      events := SwapRemoved(events, i);
    }

    /** The loop's second branch: the event in slot `i` is not due. */
    method Reduce(i: nat, ms: nat)
      requires Valid() && i < |events|
      modifies events[i]
      ensures Valid()
      ensures Values(events) == old(Values(events))[i := old(events[i].Value()).Reduced(ms)]
    {
      arr.items[i].Subtract(ms);
    }

    /** One round of the tick loop, at slot `i`. */
    method Slot(i: nat, ms: nat, fired: seq<Entry>, ghost goal: Outcome) returns (fired': seq<Entry>)
      requires Valid() && i < |events| && Meets(goal, Values(events), fired, i, ms)
      modifies this, arr, arr.items, events
      ensures Valid() && arr.items == old(arr.items) && added == old(added)
      ensures |events| <= |old(events)| <= |events| + 1
      ensures forall j :: 0 <= j < |events| ==> events[j] in old(events)
      ensures Meets(goal, Values(events), fired', i + 1, ms)
    {
      var e := arr.items[i];
      assert e == events[i];
      if e.sec <= 0 && e.nsec <= 0 {
        FireMeets(goal, Values(events), fired, i, ms);
        var f := Fire(i);
        fired' := fired + [f];
      } else {
        ReduceMeets(goal, Values(events), fired, i, ms);
        Reduce(i, ms);
        fired' := fired;
      }
    }

    /** The tick loop: lines 186 to 196. `fired` logs the events whose callbacks ran. */
    method Tick(ms: nat) returns (fired: seq<Entry>)
      requires Valid()
      modifies this, arr, arr.items, events
      ensures Valid() && arr.items == old(arr.items) && added == old(added)
      ensures forall i :: 0 <= i < |events| ==> events[i] in old(events)
      ensures Values(events) == Sweep(old(Values(events)), ms).live
      ensures fired == Sweep(old(Values(events)), ms).fired
    {
      fired := [];
      ghost var goal := Sweep(Values(events), ms);
      MeetsAtStart(Values(events), ms);
      var i := 0;
      while i < arr.size
        invariant Valid() && arr.items == old(arr.items) && added == old(added)
        invariant forall j :: 0 <= j < |events| ==> events[j] in old(events)
        invariant i <= |events| + 1
        invariant Meets(goal, Values(events), fired, i, ms)
        decreases |events| + 1 - i
      {
        fired := Slot(i, ms, fired, goal);
        i := i + 1;
      }
      MeetsAtEnd(goal, Values(events), fired, i, ms);
    }
  }

  /** With the loop at slot `i` of `v`, what is done and what is still to do make up `goal`. */
  ghost predicate Meets(goal: Outcome, v: seq<Entry>, fired: seq<Entry>, i: nat, ms: nat)
    requires WellFormed(v)
  {
    var k := if i <= |v| then i else |v|;
    && v[..k] + Sweep(v[k..], ms).live == goal.live
    && fired + Sweep(v[k..], ms).fired == goal.fired
  }

  lemma MeetsAtStart(v: seq<Entry>, ms: nat)
    requires WellFormed(v)
    ensures Meets(Sweep(v, ms), v, [], 0, ms)
  {
    assert v[0..] == v;
  }

  lemma MeetsAtEnd(goal: Outcome, v: seq<Entry>, fired: seq<Entry>, i: nat, ms: nat)
    requires WellFormed(v) && i >= |v| && Meets(goal, v, fired, i, ms)
    ensures v == goal.live && fired == goal.fired
  {
    assert v[|v|..] == [] && v[..|v|] == v;
  }

  lemma FireMeets(goal: Outcome, v: seq<Entry>, fired: seq<Entry>, i: nat, ms: nat)
    requires WellFormed(v) && i < |v| && v[i].remaining.Expired() && Meets(goal, v, fired, i, ms)
    ensures WellFormed(SwapRemoved(v, i))
    ensures Meets(goal, SwapRemoved(v, i), fired + [v[i]], i + 1, ms)
  {
    var v', rest := SwapRemoved(v, i), v[i..];
    assert rest[0] == v[i];
    if i + 1 < |v| {
      assert v'[i + 1..] == rest[1..|rest| - 1];
      assert v'[..i + 1] == v[..i] + [rest[|rest| - 1]];
    } else {
      assert v' == v[..i] && v'[|v'|..] == [];
    }
  }

  lemma ReduceMeets(goal: Outcome, v: seq<Entry>, fired: seq<Entry>, i: nat, ms: nat)
    requires WellFormed(v) && i < |v| && !v[i].remaining.Expired() && Meets(goal, v, fired, i, ms)
    ensures var v' := v[i := v[i].Reduced(ms)]; WellFormed(v') && Meets(goal, v', fired, i + 1, ms)
  {
    var v' := v[i := v[i].Reduced(ms)];
    assert v'[i + 1..] == v[i..][1..];
    assert v'[..i + 1] == v[..i] + [v'[i]];
  }

  function Adds(waits: seq<nat>): seq<TimerRuns.Op> {
    seq(|waits|, i requires 0 <= i < |waits| => TimerRuns.Add(waits[i]))
  }

  function Elapses(elapsed: seq<nat>): seq<TimerRuns.Op> {
    seq(|elapsed|, i requires 0 <= i < |elapsed| => TimerRuns.Tick(elapsed[i]))
  }

  /** Lines 156 to 158: `main` arms its events. */
  method ArmAll(timers: Timers, waits: seq<nat>)
    requires timers.Valid()
    modifies timers, timers.arr, timers.arr.items
    ensures timers.Valid()
    ensures timers.arr.items == old(timers.arr.items) || fresh(timers.arr.items)
    ensures forall j :: 0 <= j < |timers.events| ==> timers.events[j] in old(timers.events) || fresh(timers.events[j])
    ensures timers.Wheel([]) == TimerRuns.After(old(timers.Wheel([])), Adds(waits))
  {
    for i := 0 to |waits|
      invariant timers.Valid()
      invariant timers.arr.items == old(timers.arr.items) || fresh(timers.arr.items)
      invariant forall j :: 0 <= j < |timers.events| ==> timers.events[j] in old(timers.events) || fresh(timers.events[j])
      invariant timers.Wheel([]) == TimerRuns.After(old(timers.Wheel([])), Adds(waits)[..i])
    {
      timers.Add(waits[i]);
      TimerRuns.AfterSnoc(old(timers.Wheel([])), Adds(waits), i);
    }
    assert Adds(waits)[..|waits|] == Adds(waits);
  }

  /** Lines 165 to 203: the loop of `main` for a number of ticks, with the nanoseconds that each
      was measured to take. */
  method TickAll(timers: Timers, elapsed: seq<nat>) returns (fired: seq<Entry>)
    requires timers.Valid()
    modifies timers, timers.arr, timers.arr.items, timers.events
    ensures timers.Valid()
    ensures timers.Wheel(fired) == TimerRuns.After(old(timers.Wheel([])), Elapses(elapsed))
  {
    fired := [];
    for i := 0 to |elapsed|
      invariant timers.Valid() && timers.arr.items == old(timers.arr.items)
      invariant forall j :: 0 <= j < |timers.events| ==> timers.events[j] in old(timers.events)
      invariant timers.Wheel(fired) == TimerRuns.After(old(timers.Wheel([])), Elapses(elapsed)[..i])
    {
      var f := timers.Tick(elapsed[i] / NS_PER_MS);
      fired := fired + f;
      TimerRuns.AfterSnoc(old(timers.Wheel([])), Elapses(elapsed), i);
    }
    assert Elapses(elapsed)[..|elapsed|] == Elapses(elapsed);
  }

  /** One millisecond for each of the waits to pass, and one to fire. */
  function TicksNeeded(waits: seq<nat>): nat {
    if waits == [] then 0 else 1000 * waits[0] + 1 + TicksNeeded(waits[1..])
  }

  lemma {:induction false} ArmedWeight(w: TimerRuns.Wheel, waits: seq<nat>)
    requires WellFormed(w.live)
    ensures TimerRuns.Weight(TimerRuns.After(w, Adds(waits)).live) == TimerRuns.Weight(w.live) + TicksNeeded(waits)
    decreases |waits|
  {
    if waits != [] {
      var e := Arm(Key(|w.added|, waits[0]));
      assert Adds(waits)[1..] == Adds(waits[1..]);
      TimerRuns.WeightAppend(w.live, [e]);
      assert [e][1..] == [] && TimerRuns.Weight([e]) == 1000 * waits[0] + 1;
      ArmedWeight(TimerRuns.Apply(w, TimerRuns.Add(waits[0])), waits[1..]);
    }
  }

  /** The program: after enough ticks of at least a millisecond, each callback has run once. */
  method RunTimers(waits: seq<nat>, elapsed: seq<nat>) returns (timers: Timers, fired: seq<Entry>)
    requires forall i :: 0 <= i < |elapsed| ==> elapsed[i] >= 1_000_000
    requires |elapsed| >= TicksNeeded(waits)
    ensures timers.Valid() && timers.events == []
    ensures multiset(Keys(fired)) == multiset(timers.added)
    ensures |timers.added| == |waits| && forall i :: 0 <= i < |waits| ==> timers.added[i].wait == waits[i]
  {
    timers := new Timers(10);
    ArmAll(timers, waits);
    fired := TickAll(timers, elapsed);
    ArmedWeight(TimerRuns.EMPTY, waits);
    TimerRuns.AllFireOnce(Adds(waits), Elapses(elapsed));
    AddsAdd(waits, elapsed);
    assert Values(timers.events) == [];
  }

  lemma AddsAdd(waits: seq<nat>, elapsed: seq<nat>)
    ensures var w := TimerRuns.After(TimerRuns.After(TimerRuns.EMPTY, Adds(waits)), Elapses(elapsed));
            |w.added| == |waits| && forall i :: 0 <= i < |waits| ==> w.added[i].wait == waits[i]
  {
    var w := TimerRuns.After(TimerRuns.EMPTY, Adds(waits));
    TimerRuns.AddedByRun(TimerRuns.EMPTY, Adds(waits));
    TimerRuns.AddedByRun(w, Elapses(elapsed));
    WaitsOfAdds(waits);
    NoWaits(elapsed);
    assert TimerRuns.After(w, Elapses(elapsed)).added == w.added;
  }

  lemma {:induction false} WaitsOfAdds(waits: seq<nat>)
    ensures TimerRuns.Waits(Adds(waits)) == waits
  {
    if waits != [] {
      assert Adds(waits)[1..] == Adds(waits[1..]);
      WaitsOfAdds(waits[1..]);
    }
  }

  lemma {:induction false} NoWaits(elapsed: seq<nat>)
    ensures TimerRuns.Waits(Elapses(elapsed)) == []
  {
    if elapsed != [] {
      assert Elapses(elapsed)[1..] == Elapses(elapsed[1..]);
      NoWaits(elapsed[1..]);
    }
  }
}
