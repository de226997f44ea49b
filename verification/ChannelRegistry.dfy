/** Connections, channel lists, the event log and the fan-out of
    networking/threaded_chat_server_with_channels/server.c. */
module ChannelRegistry {
  import opened Text
  import opened GrowArrays
  import opened ChannelMessages

  // ----- what the structures stand for

  datatype Peer = Peer(sock: int, channels: seq<int>)

  predicate Wants(p: Peer, sender: int, channel: int) {
    p.sock != sender && channel in p.channels
  }

  /** The positions, among the first `n`, of the connections that an event is sent to. */
  function Targets(peers: seq<Peer>, sender: int, channel: int, n: nat): (t: seq<nat>)
    requires n <= |peers|
    ensures forall a :: 0 <= a < |t| ==> t[a] < n
  {
    if n == 0 then []
    else
      Targets(peers, sender, channel, n - 1) +
      if Wants(peers[n - 1], sender, channel) then [n - 1] else []
  }

  /** Fan-out is exact: one send each, in connection order, to precisely the connections that are
      not the sender's and are registered for the channel, however often they registered. */
  lemma {:induction false} TargetsExact(peers: seq<Peer>, sender: int, channel: int, n: nat)
    requires n <= |peers|
    ensures var t := Targets(peers, sender, channel, n);
            && (forall a, b :: 0 <= a < b < |t| ==> t[a] < t[b])
            && (forall a :: 0 <= a < |t| ==> Wants(peers[t[a]], sender, channel))
            && (forall k :: 0 <= k < n && Wants(peers[k], sender, channel) ==> k in t)
  {
    if n > 0 {
      var before := Targets(peers, sender, channel, n - 1);
      TargetsExact(peers, sender, channel, n - 1);
      forall k | 0 <= k < n && Wants(peers[k], sender, channel)
        ensures k in Targets(peers, sender, channel, n)
      {
        assert k < n - 1 ==> k in before;
      }
    }
  }

  datatype Delivery = Delivery(sock: int, text: string)

  function Sends(peers: seq<Peer>, targets: seq<nat>, text: string): seq<Delivery>
    requires forall a :: 0 <= a < |targets| ==> targets[a] < |peers|
  {
    seq(|targets|, i requires 0 <= i < |targets| => Delivery(peers[targets[i]].sock, text))
  }

  lemma SendsStep(peers: seq<Peer>, sender: int, channel: int, text: string, n: nat)
    requires n < |peers|
    ensures Sends(peers, Targets(peers, sender, channel, n + 1), text) ==
            Sends(peers, Targets(peers, sender, channel, n), text) +
            if Wants(peers[n], sender, channel) then [Delivery(peers[n].sock, text)] else []
  {
  }

  /** What the manager sends: the sender's socket in brackets, then the text. */
  function Labelled(sender: int, text: string): string {
    "[" + Decimal(sender) + "] " + text
  }

  predicate IsRegistration(text: string) { StartsWith(text, "$reg") }

  /** The first position of a socket, or the length. */
  function Position(socks: seq<int>, sock: int): (k: nat)
    ensures k <= |socks| && sock !in socks[..k] && (k < |socks| ==> socks[k] == sock)
  {
    if socks == [] || socks[0] == sock then 0 else 1 + Position(socks[1..], sock)
  }

  /** A table of connections without the first one on `sock`. */
  function Without<T>(conns: seq<T>, socks: seq<int>, sock: int): seq<T>
    requires |conns| == |socks|
  {
    var k := Position(socks, sock);
    if k < |conns| then SwapRemoved(conns, k) else conns
  }

  /** The first connection on the socket goes, the last one takes its place, and the others keep theirs. */
  lemma WithoutAt<T>(conns: seq<T>, socks: seq<int>, k: nat, i: nat)
    requires |conns| == |socks| && k < |conns| && socks[k] !in socks[..k] && i < |conns| - 1
    ensures |Without(conns, socks, socks[k])| == |conns| - 1
    ensures Without(conns, socks, socks[k])[i] == if i == k then conns[|conns| - 1] else conns[i]
  {
    PositionAt(socks, socks[k], k);
    SwapRemovedAt(conns, k, i);
  }

  // ----- the structures

  class Conn {
    const sock: int
    const channels: GrowArray<int>

    constructor (sock: int)
      ensures this.sock == sock && channels.Valid() && channels.Contents() == []
      ensures fresh(channels) && fresh(channels.items)
    {
      this.sock := sock;
      channels := new GrowArray<int>(100);
    }
  }

  function Socks(list: seq<Conn>): (r: seq<int>)
    ensures |r| == |list| && forall i :: 0 <= i < |r| ==> r[i] == list[i].sock
  {
    seq(|list|, i requires 0 <= i < |list| => list[i].sock)
  }

  /** No two connections share a channel list or its buffer. */
  ghost predicate Apart(list: seq<Conn>)
    reads set c | c in list :: c.channels
  {
    forall i, j :: 0 <= i < j < |list| ==>
      list[i].channels != list[j].channels && list[i].channels.items != list[j].channels.items
  }

  class Conns {
    const arr: GrowArray<Conn?>
    ghost var list: seq<Conn>

    ghost function Lists(): set<object>
      reads this
    {
      set c | c in list :: c.channels
    }

    ghost function Buffers(): set<object>
      reads this, Lists()
    {
      set c | c in list :: c.channels.items
    }

    ghost predicate Valid()
      reads this, arr, arr.items
    {
      arr.Valid() && arr.Contents() == list
    }

    ghost predicate ListsValid()
      reads this, Lists()
    {
      forall i :: 0 <= i < |list| ==> list[i].channels.Valid()
    }

    ghost function Peers(): (r: seq<Peer>)
      reads this, Lists(), Buffers()
      requires ListsValid()
      ensures |r| == |list|
      ensures forall i :: 0 <= i < |r| ==> r[i] == Peer(list[i].sock, list[i].channels.Contents())
    {
      seq(|list|, i requires 0 <= i < |list| && ListsValid() reads this, Lists(), Buffers() =>
        Peer(list[i].sock, list[i].channels.Contents()))
    }

    constructor (cap: nat)
      requires cap >= 1
      ensures Valid() && list == [] && fresh(arr) && fresh(arr.items)
    {
      arr := new GrowArray<Conn?>(cap);
      list := [];
    }

    /** `conns_add`. */
    method Add(sock: int) returns (conn: Conn)
      requires Valid()
      modifies this, arr, arr.items
      ensures Valid() && fresh(conn) && list == old(list) + [conn]
      ensures conn.sock == sock && conn.channels.Valid() && conn.channels.Contents() == []
      ensures fresh(conn.channels) && fresh(conn.channels.items)
      ensures arr.items == old(arr.items) || fresh(arr.items)
    {
      conn := new Conn(sock);
      arr.Push(conn);
      list := list + [conn];
    }

    method IndexOf(sock: int) returns (i: nat)
      requires Valid()
      ensures i == Position(Socks(list), sock)
    {
      i := 0;
      while i < arr.size
        invariant 0 <= i <= |list|
        invariant sock !in Socks(list)[..i]
      {
        assert arr.items[i] == arr.Contents()[i];
        if arr.items[i].sock == sock {
          break;
        }
        i := i + 1;
      }
      PositionAt(Socks(list), sock, i);
    }

    /** `conns_remove`: the last connection takes the place of the removed one. */
    method Remove(sock: int)
      requires Valid()
      modifies this, arr, arr.items
      ensures Valid()
      ensures list == Without(old(list), Socks(old(list)), sock) && arr.items == old(arr.items)
    {
      var i := IndexOf(sock);
      if i < arr.size {
        var status := arr.SwapRemove(i);
        list := SwapRemoved(list, i);
      }
    }

    /** Lines 415 to 433: the inner loop, which stops at the first match. */
    method SendIfListening(conn: Conn, channel: int, msg: string) returns (sent: seq<Delivery>)
      requires conn.channels.Valid()
      ensures sent == if channel in conn.channels.Contents() then [Delivery(conn.sock, msg)] else []
    {
      var j := 0;
      while j < conn.channels.size
        invariant 0 <= j <= conn.channels.size
        invariant channel !in conn.channels.Contents()[..j]
      {
        if conn.channels.items[j] == channel {
          return [Delivery(conn.sock, msg)];
        }
        j := j + 1;
      }
      return [];
    }

    /** Lines 411 to 437: the sending of an event. */
    method FanOut(sender: int, channel: int, text: string) returns (sent: seq<Delivery>)
      requires Valid() && ListsValid()
      ensures sent == Sends(Peers(), Targets(Peers(), sender, channel, |list|), Labelled(sender, text))
    {
      var msg := Labelled(sender, text);
      ghost var peers := Peers();
      sent := [];
      for i := 0 to arr.size
        invariant peers == Peers()
        invariant sent == Sends(peers, Targets(peers, sender, channel, i), msg)
      {
        var conn := arr.items[i];
        assert conn == list[i];
        SendsStep(peers, sender, channel, msg, i);
        if sender != conn.sock {
          var now := SendIfListening(conn, channel, msg);
          sent := sent + now;
        }
      }
      assert arr.size == |list|;
    }
  }

  // ----- the event log

  datatype LogEvent = LogEvent(conn: Conn?, channel: int, text: string)

  /** `queue_add` of a received buffer; `beyond` is what lies behind a message without a space. */
  method QueueAdd(q: GrowArray<LogEvent>, conn: Conn, buf: string, beyond: string) returns (status: int)
    requires q.Valid() && |buf| < BUF_SIZE
    modifies q, q.items
    ensures q.Valid() && (q.items == old(q.items) || fresh(q.items))
    ensures var p := Receive(buf, beyond);
            if p.Refused? then status == -1 && q.Contents() == old(q.Contents())
            else status == 0 && q.Contents() == old(q.Contents()) + [LogEvent(conn, p.channel, p.text)]
  {
    var p := ParseMessage(CString(buf));
    match p {
      case Refused =>
        return -1;
      case Parsed(channel, text) =>
        q.Push(LogEvent(conn, channel, text));
      case PastEnd(channel) =>
        q.Push(LogEvent(conn, channel, beyond));
    }
    return 0;
  }

  /** `queue_peek`: the newest event. */
  method QueuePeek(q: GrowArray<LogEvent>) returns (found: bool, ev: LogEvent)
    requires q.Valid()
    ensures found <==> q.Contents() != []
    ensures found ==> ev == q.Contents()[|q.Contents()| - 1]
  {
    if q.size > 0 {
      return true, q.items[q.size - 1];
    }
    return false, LogEvent(null, 0, "");
  }

  lemma {:induction false} PositionAt(socks: seq<int>, sock: int, i: nat)
    requires i <= |socks| && sock !in socks[..i] && (i < |socks| ==> socks[i] == sock)
    ensures Position(socks, sock) == i
  {
    if i > 0 {
      assert socks[0] in socks[..i];
      assert forall s :: s in socks[1..][..i - 1] ==> s in socks[..i];
      PositionAt(socks[1..], sock, i - 1);
    }
  }
}
