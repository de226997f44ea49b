/** The timers of game_loops/simple_array_based_timer/main.c: the timespec arithmetic and one tick
    of the loop. */
module TimerWheel {
  import opened Counting

  const NS_PER_MS := 1_000_000
  const NS_PER_SEC := 1_000_000_000

  // ----- timespec arithmetic

  datatype Timespec = Timespec(sec: int, nsec: int)
  {
    /** What the loop tests before it fires an event. */
    predicate Expired() { sec <= 0 && nsec <= 0 }

    /** A normalised count of whole milliseconds. */
    predicate Normal() { 0 <= sec && 0 <= nsec < NS_PER_SEC && nsec % NS_PER_MS == 0 }
  }

  /** C's division, which truncates towards zero. */
  function TruncDiv(a: int, b: int): int
    requires b > 0
  {
    if a >= 0 then a / b else -(-a / b)
  }

  function TimerToMs(t: Timespec): int {
    t.sec * 1000 + TruncDiv(t.nsec, NS_PER_MS)
  }

  /** `subtract_ms_from_timer` on a timer that counts a non-negative number of milliseconds. */
  function SubtractMs(t: Timespec, ms: nat): (r: Timespec)
    requires TimerToMs(t) >= 0
    ensures r.Normal()
    ensures TimerToMs(r) == if ms > TimerToMs(t) then 0 else TimerToMs(t) - ms
  {
    var was := TimerToMs(t);
    var left := if ms > was then 0 else was - ms;
    Timespec(left / 1000, left % 1000 * NS_PER_MS)
  }

  /** A normalised timer is its number of milliseconds, and has expired exactly at zero. */
  lemma NormalTimer(t: Timespec, u: Timespec)
    requires t.Normal() && u.Normal()
    ensures TimerToMs(t) >= 0
    ensures t.Expired() <==> TimerToMs(t) == 0
    ensures TimerToMs(t) == TimerToMs(u) ==> t == u
  {
    assert t.nsec == t.nsec / NS_PER_MS * NS_PER_MS;
    assert u.nsec == u.nsec / NS_PER_MS * NS_PER_MS;
  }

  // ----- one tick

  datatype Key = Key(id: nat, wait: nat)

  /** An armed event: which one it is, its wait in seconds, and the time it has left. */
  datatype Entry = Entry(key: Key, remaining: Timespec)
  {
    function Ms(): int { TimerToMs(remaining) }

    function Reduced(ms: nat): Entry
      requires Ms() >= 0
    {
      this.(remaining := SubtractMs(remaining, ms))
    }
  }

  function Arm(key: Key): Entry {
    Entry(key, Timespec(key.wait, 0))
  }

  ghost predicate WellFormed(s: seq<Entry>) {
    forall e :: e in s ==> e.remaining.Normal() && 0 <= e.Ms() <= 1000 * e.key.wait
  }

  /** What a tick does: the array it leaves, then the events it fired, the events it visited and
      found not yet due, and the events it passed over, each in the order it met them. */
  datatype Outcome = Outcome(live: seq<Entry>, fired: seq<Entry>, reduced: seq<Entry>, skipped: seq<Entry>)

  /** The tick loop, from a slot to the end of the array. Firing the event in the slot moves the
      last event into it, and the loop goes on with the next slot. */
  function Sweep(s: seq<Entry>, ms: nat): Outcome
    requires WellFormed(s)
    decreases |s|
  {
    if s == [] then Outcome([], [], [], [])
    else if s[0].remaining.Expired() then
      if |s| == 1 then Outcome([], [s[0]], [], [])
      else
        var moved := s[|s| - 1];
        var o := Sweep(s[1..|s| - 1], ms);
        Outcome([moved] + o.live, [s[0]] + o.fired, o.reduced, [moved] + o.skipped)
    else
      var o := Sweep(s[1..], ms);
      Outcome([s[0].Reduced(ms)] + o.live, o.fired, [s[0]] + o.reduced, o.skipped)
  }

  function ReduceAll(s: seq<Entry>, ms: nat): seq<Entry>
    requires WellFormed(s)
  {
    if s == [] then [] else [s[0].Reduced(ms)] + ReduceAll(s[1..], ms)
  }

  function Keys(s: seq<Entry>): (r: seq<Key>)
    ensures |r| == |s| && forall i :: 0 <= i < |s| ==> r[i] == s[i].key
  {
    seq(|s|, i requires 0 <= i < |s| => s[i].key)
  }

  lemma {:induction false} SweepParts(s: seq<Entry>, ms: nat)
    requires WellFormed(s)
    ensures var o := Sweep(s, ms);
            && WellFormed(o.live) && WellFormed(o.reduced)
            && |o.skipped| <= |o.fired| <= |o.skipped| + 1
            && (forall e :: e in o.fired ==> e.remaining.Expired())
            && (forall e :: e in o.reduced ==> !e.remaining.Expired())
    decreases |s|
  {
    if s != [] {
      if !s[0].remaining.Expired() {
        SweepParts(s[1..], ms);
      } else if |s| > 1 {
        SweepParts(s[1..|s| - 1], ms);
      }
    }
  }

  lemma {:induction false} SweepSplits(s: seq<Entry>, ms: nat, x: Entry)
    requires WellFormed(s)
    ensures var o := Sweep(s, ms);
            multiset(s)[x] == multiset(o.fired)[x] + multiset(o.reduced)[x] + multiset(o.skipped)[x]
    decreases |s|
  {
    if s == [] {
    } else if !s[0].remaining.Expired() {
      SweepSplits(s[1..], ms, x);
      HeadCount(s, x);
      ConsCount(s[0], Sweep(s[1..], ms).reduced, x);
    } else if |s| > 1 {
      var moved, p := s[|s| - 1], Sweep(s[1..|s| - 1], ms);
      SweepSplits(s[1..|s| - 1], ms, x);
      EndsCount(s, x);
      ConsCount(s[0], p.fired, x);
      ConsCount(moved, p.skipped, x);
    }
  }

  lemma {:induction false} SweepLeaves(s: seq<Entry>, ms: nat, x: Entry)
    requires WellFormed(s)
    ensures var o := Sweep(s, ms);
            WellFormed(o.reduced) &&
            multiset(o.live)[x] == multiset(ReduceAll(o.reduced, ms))[x] + multiset(o.skipped)[x]
    decreases |s|
  {
    SweepParts(s, ms);
    if s == [] {
    } else if !s[0].remaining.Expired() {
      var p := Sweep(s[1..], ms);
      SweepLeaves(s[1..], ms, x);
      assert Sweep(s, ms).reduced[1..] == p.reduced;
      ConsCount(s[0].Reduced(ms), p.live, x);
      ConsCount(s[0].Reduced(ms), ReduceAll(p.reduced, ms), x);
    } else if |s| > 1 {
      var moved, p := s[|s| - 1], Sweep(s[1..|s| - 1], ms);
      SweepLeaves(s[1..|s| - 1], ms, x);
      ConsCount(moved, p.live, x);
      ConsCount(moved, p.skipped, x);
    }
  }

  /** Every event is exactly one of fired, reduced and skipped, and the array keeps the
      reduced and the skipped ones. Each skip is paid for by a firing. */
  lemma TickPartition(s: seq<Entry>, ms: nat)
    requires WellFormed(s)
    ensures var o := Sweep(s, ms);
            && WellFormed(o.live) && WellFormed(o.reduced)
            && multiset(s) == multiset(o.fired) + multiset(o.reduced) + multiset(o.skipped)
            && multiset(o.live) == multiset(ReduceAll(o.reduced, ms)) + multiset(o.skipped)
            && |o.skipped| <= |o.fired| <= |o.skipped| + 1
            && (forall e :: e in o.fired ==> e.remaining.Expired())
            && (forall e :: e in o.reduced ==> !e.remaining.Expired())
  {
    SweepParts(s, ms);
    var o := Sweep(s, ms);
    forall x ensures multiset(s)[x] == (multiset(o.fired) + multiset(o.reduced) + multiset(o.skipped))[x] {
      SweepSplits(s, ms, x);
    }
    forall x ensures multiset(o.live)[x] == (multiset(ReduceAll(o.reduced, ms)) + multiset(o.skipped))[x] {
      SweepLeaves(s, ms, x);
    }
  }

  /** Every event in the array after a tick comes from one that was there before it. */
  lemma {:induction false} SweepOrigin(s: seq<Entry>, ms: nat, f: Entry) returns (e: Entry)
    requires WellFormed(s) && f in Sweep(s, ms).live
    ensures e in s && e.Ms() >= 0
    ensures var o := Sweep(s, ms);
            || (e in o.reduced && !e.remaining.Expired() && f == e.Reduced(ms))
            || (e in o.skipped && f == e && |o.fired| >= 1)
    decreases |s|
  {
    if !s[0].remaining.Expired() {
      if f == s[0].Reduced(ms) {
        e := s[0];
      } else {
        e := SweepOrigin(s[1..], ms, f);
      }
    } else if f == s[|s| - 1] {
      e := f;
    } else {
      e := SweepOrigin(s[1..|s| - 1], ms, f);
    }
  }

  ghost predicate DistinctIds(s: seq<Entry>) {
    forall i, j :: 0 <= i < j < |s| ==> s[i].key.id != s[j].key.id
  }

  lemma DistinctCount(s: seq<Entry>, e: Entry)
    requires DistinctIds(s) && e in s
    ensures multiset(s)[e] == 1
  {
    var i :| 0 <= i < |s| && s[i] == e;
    assert multiset(s) == multiset(s[..i]) + multiset{e} + multiset(s[i + 1..]) by {
      assert s == s[..i] + [e] + s[i + 1..];
    }
    assert e !in s[..i] && e !in s[i + 1..];
  }

  /** What a tick does to an event `e` that is still armed, as `f`, after it: either it was
      visited once and lost exactly the elapsed milliseconds, or it was passed over unchanged
      in a tick that fired some other event. */
  lemma TickFate(s: seq<Entry>, ms: nat, e: Entry, f: Entry)
    requires WellFormed(s) && DistinctIds(s)
    requires e in s && f in Sweep(s, ms).live && e.key.id == f.key.id
    ensures var o := Sweep(s, ms);
            if e in o.reduced then !e.remaining.Expired() && f == e.Reduced(ms)
            else e in o.skipped && f == e && |o.fired| >= 1
  {
    var e' := SweepOrigin(s, ms, f);
    assert e' == e;
    DistinctCount(s, e);
    SweepSplits(s, ms, e);
  }
}
