/** The doubly linked FIFO of networking/epoll_example/queue.c.

    The field names keep the source's reversed sense: `next` points towards the head
    of the queue (the older element) and `prev` towards the tail (the younger one). */
module LinkedQueue {

  class Node {
    var value: int
    var next: Node?
    var prev: Node?

    constructor (value: int)
      ensures this.value == value && next == null && prev == null
    {
      this.value := value;
      next, prev := null, null;
    }
  }

  class Queue {
    var head: Node?
    var tail: Node?
    var size: nat
    ghost var nodes: seq<Node>  // the chain, oldest node first

    ghost predicate Valid()
      reads this, nodes
    {
      && size == |nodes|
      && (forall i, j :: 0 <= i < j < |nodes| ==> nodes[i] != nodes[j])
      && head == (if nodes == [] then null else nodes[0])
      && tail == (if nodes == [] then null else nodes[|nodes| - 1])
      && (forall i {:trigger nodes[i].next} :: 0 <= i < |nodes| ==>
            nodes[i].next == if i == 0 then null else nodes[i - 1])
      && (forall i {:trigger nodes[i].prev} :: 0 <= i < |nodes| ==>
            nodes[i].prev == if i == |nodes| - 1 then null else nodes[i + 1])
    }

    ghost function Contents(): (s: seq<int>)
      reads this, nodes
    {
      seq(|nodes|, i requires 0 <= i < |nodes| reads this, nodes => nodes[i].value)
    }

    constructor ()
      ensures Valid() && Contents() == [] && nodes == []
    {
      size := 0;
      head, tail := null, null;
      nodes := [];
    }

    /** `memory` says whether the allocation of the node succeeds. */
    method Add(value: int, memory: bool) returns (status: int)
      requires Valid()
      modifies this, nodes
      ensures Valid()
      ensures status == if memory then 0 else -1
      ensures Contents() == if memory then old(Contents()) + [value] else old(Contents())
      ensures forall i :: 0 <= i < |nodes| ==> nodes[i] in old(nodes) || fresh(nodes[i])
    {
      if !memory {
        return -1;
      }
      var n := new Node(value);
      if size == 0 {
        head := n;
        tail := n;
      } else {
        n.next := tail;
        tail.prev := n;
        tail := n;
      }
      nodes := nodes + [n];
      size := size + 1;
      return 0;
    }

    method Pop() returns (value: int)
      requires Valid()
      modifies this, nodes
      ensures Valid()
      ensures old(Contents()) == [] ==> value == -1 && Contents() == []
      ensures old(Contents()) != [] ==>
        value == old(Contents())[0] && Contents() == old(Contents())[1..]
      ensures forall i :: 0 <= i < |nodes| ==> nodes[i] in old(nodes)
    {
      if size == 0 {
        return -1;
      }
      value := head.value;
      head := head.prev;
      if head != null {
        head.next := null;
      } else {
        head, tail := null, null;
      }
      size := size - 1;
      nodes := nodes[1..];
    }
  }

  // ----- the sequence the queue stands for, over whole runs of calls

  datatype Op = Add(value: int, memory: bool) | Pop

  /** One call on the sequence: what is left, and what the call returns. */
  function Step(s: seq<int>, op: Op): (seq<int>, int)
  {
    match op
    case Add(v, memory) => if memory then (s + [v], 0) else (s, -1)
    case Pop => if s == [] then (s, -1) else (s[1..], s[0])
  }

  /** The queue after `ops` and what the calls returned, oldest call first. */
  function Run(s: seq<int>, ops: seq<Op>): (r: (seq<int>, seq<int>))
    ensures |r.1| == |ops|
    decreases |ops|
  {
    if ops == [] then (s, [])
    else
      var now := Step(s, ops[0]);
      var later := Run(now.0, ops[1..]);
      (later.0, [now.1] + later.1)
  }

  /** The values that reached the queue, in order. */
  function Added(ops: seq<Op>): seq<int>
  {
    if ops == [] then []
    else (if ops[0].Add? && ops[0].memory then [ops[0].value] else []) + Added(ops[1..])
  }

  /** The values taken from a queue that started as `s`, in order. */
  function Taken(s: seq<int>, ops: seq<Op>): seq<int>
    decreases |ops|
  {
    if ops == [] then []
    else (if ops[0].Pop? && s != [] then [s[0]] else []) + Taken(Step(s, ops[0]).0, ops[1..])
  }

  /** First in, first out, with nothing lost or duplicated, whatever the order of the calls. */
  lemma {:induction false} FifoOrder(s: seq<int>, ops: seq<Op>)
    ensures Taken(s, ops) + Run(s, ops).0 == s + Added(ops)
    decreases |ops|
  {
    if ops != [] {
      var s' := Step(s, ops[0]).0;
      FifoOrder(s', ops[1..]);
      var head := if ops[0].Pop? && s != [] then [s[0]] else [];
      calc {
        Taken(s, ops) + Run(s, ops).0;
        head + (Taken(s', ops[1..]) + Run(s', ops[1..]).0);
        head + (s' + Added(ops[1..]));
        s + Added(ops);
      }
    }
  }

  lemma {:induction false} RunAppend(s: seq<int>, first: seq<Op>, second: seq<Op>)
    ensures Run(s, first + second).0 == Run(Run(s, first).0, second).0
    ensures Run(s, first + second).1 == Run(s, first).1 + Run(Run(s, first).0, second).1
    decreases |first|
  {
    if first == [] {
      assert first + second == second;
    } else {
      assert (first + second)[1..] == first[1..] + second;
      RunAppend(Step(s, first[0]).0, first[1..], second);
    }
  }

  lemma RunOne(s: seq<int>, op: Op)
    ensures Run(s, [op]) == (Step(s, op).0, [Step(s, op).1])
  {
    var now := Step(s, op);
    assert Run(now.0, []) == (now.0, []);
    assert [now.1] + [] == [now.1];
  }

  function Adds(values: seq<int>): (ops: seq<Op>)
  {
    seq(|values|, i requires 0 <= i < |values| => Add(values[i], true))
  }

  lemma {:induction false} RunAdds(s: seq<int>, values: seq<int>)
    ensures Run(s, Adds(values)).0 == s + values
    decreases |values|
  {
    if values != [] {
      assert Adds(values)[1..] == Adds(values[1..]);
      RunAdds(s + [values[0]], values[1..]);
      assert s + [values[0]] + values[1..] == s + values;
    }
  }

  lemma {:induction false} RunPops(s: seq<int>, n: nat)
    requires n <= |s|
    ensures Run(s, seq(n, _ => Pop)) == (s[n..], s[..n])
  {
    if n > 0 {
      var ops := seq(n, _ => Pop);
      assert ops[1..] == seq(n - 1, _ => Pop);
      RunPops(s[1..], n - 1);
      assert s[1..][n - 1..] == s[n..];
      assert [s[0]] + s[1..][..n - 1] == s[..n];
    }
  }

  /** Adding n values to an empty queue and popping n times gives the values back in order. */
  lemma AddsThenPops(values: seq<int>)
    ensures var n := |values|;
            var r := Run([], Adds(values) + seq(n, _ => Pop));
            r.0 == [] && r.1[n..] == values
  {
    RunAppend([], Adds(values), seq(|values|, _ => Pop));
    RunAdds([], values);
    assert [] + values == values;
    RunPops(values, |values|);
  }

  /** The linked structure answers every run of calls exactly as the sequence does. */
  method Execute(q: Queue, ops: seq<Op>) returns (out: seq<int>)
    requires q.Valid()
    modifies q, q.nodes
    ensures q.Valid()
    ensures (q.Contents(), out) == Run(old(q.Contents()), ops)
  {
    out := [];
    for i := 0 to |ops|
      invariant q.Valid()
      invariant forall i :: 0 <= i < |q.nodes| ==> q.nodes[i] in old(q.nodes) || fresh(q.nodes[i])
      invariant (q.Contents(), out) == Run(old(q.Contents()), ops[..i])
    {
      var r;
      ghost var now := Step(q.Contents(), ops[i]);
      RunOne(q.Contents(), ops[i]);
      RunAppend(old(q.Contents()), ops[..i], [ops[i]]);
      assert ops[..i + 1] == ops[..i] + [ops[i]];
      match ops[i] {
        case Add(v, memory) => r := q.Add(v, memory);
        case Pop => r := q.Pop();
      }
      assert (q.Contents(), r) == now;
      out := out + [r];
    }
    assert ops[..|ops|] == ops;
  }
}
