/** The client table of networking/epoll_chat_server/server.c: how it grows, and the map from
    sockets to names that it stands for. */
module ClientTable {

  const START_CLIENTS: nat := 100
  const MAX_CLIENTS: nat := 1_000_000
  const LARGEST: nat := 1_638_400

  // ----- growth

  /** The length and capacity of the table, and two counts over its history: the clients
      added, and the slots that reallocations copied. */
  datatype Growth = Growth(len: nat, cap: nat, adds: nat, copied: nat)
  {
    predicate Full() { len >= cap && cap >= MAX_CLIENTS }

    function Added(): Growth {
      if Full() then this
      else if len >= cap then Growth(len + 1, cap * 2, adds + 1, copied + len)
      else Growth(len + 1, cap, adds + 1, copied)
    }

    function Removed(): Growth
      requires len > 0
    {
      this.(len := len - 1)
    }
  }

  const STARTED := Growth(0, START_CLIENTS, 0, 0)

  function Pow2(k: nat): nat {
    if k == 0 then 1 else 2 * Pow2(k - 1)
  }

  lemma {:induction false} Pow2Doubles(j: nat, k: nat)
    requires j <= k
    ensures Pow2(j) <= Pow2(k)
  {
    if j < k {
      Pow2Doubles(j, k - 1);
    }
  }

  lemma Pow2Values()
    ensures Pow2(13) == 8192 && Pow2(14) == 16384
  {
    assert Pow2(5) == 32;
    assert Pow2(9) == 512;
    assert Pow2(13) == 8192;
  }

  ghost predicate GrowthInv(g: Growth) {
    && g.len <= g.cap
    && (exists k: nat :: k <= 14 && g.cap == START_CLIENTS * Pow2(k))
    && g.len <= g.adds
    && g.copied + START_CLIENTS == g.cap
    && (g.cap > START_CLIENTS ==> g.cap < 2 * g.adds)
  }

  /** An add is refused exactly when the table is full at its largest capacity. */
  lemma RefusedIff(g: Growth)
    requires GrowthInv(g)
    ensures g.cap <= 1_638_400
    ensures g.Full() <==> g.len == g.cap == 1_638_400
  {
    var k: nat :| k <= 14 && g.cap == START_CLIENTS * Pow2(k);
    Pow2Values();
    Pow2Doubles(k, 14);
    if k <= 13 {
      Pow2Doubles(k, 13);
    }
  }

  lemma AddedKeeps(g: Growth)
    requires GrowthInv(g)
    ensures GrowthInv(g.Added())
  {
    var k: nat :| k <= 14 && g.cap == START_CLIENTS * Pow2(k);
    if !g.Full() && g.len >= g.cap {
      RefusedIff(g);
      Pow2Values();
      assert k <= 13 && Pow2(k + 1) == 2 * Pow2(k);
      assert g.cap * 2 == START_CLIENTS * Pow2(k + 1);
    }
  }

  datatype GrowthOp = Grow | Shrink

  function GrowthAfter(g: Growth, ops: seq<GrowthOp>): Growth
    decreases |ops|
  {
    if ops == [] then g
    else GrowthAfter(if ops[0].Grow? then g.Added() else if g.len > 0 then g.Removed() else g, ops[1..])
  }

  /** Doubling is cheap: whatever removals are interleaved, the reallocations together copy fewer
      than two slots for each client added, and the capacity stays a doubling of the first one. */
  lemma {:induction false} GrowthBounds(g: Growth, ops: seq<GrowthOp>)
    requires GrowthInv(g)
    ensures var e := GrowthAfter(g, ops);
            && GrowthInv(e) && e.len <= e.cap <= 1_638_400 && (exists k: nat :: e.cap == 100 * Pow2(k))
            && (e.adds > 0 ==> e.copied < 2 * e.adds)
    decreases |ops|
  {
    if ops == [] {
      RefusedIff(g);
    } else {
      AddedKeeps(g);
      GrowthBounds(if ops[0].Grow? then g.Added() else if g.len > 0 then g.Removed() else g, ops[1..]);
    }
  }

  lemma StartedInv()
    ensures GrowthInv(STARTED)
  {
    assert STARTED.cap == START_CLIENTS * Pow2(0);
  }

  // ----- the table

  /** A connected client; the id, which the program does not have, is the order of connection. */
  datatype Entry = Entry(id: nat, sock: int, name: string)

  const MAX_NAME_LEN := 100

  /** `strndup` at the longest name: its first 100 characters. */
  function Clip(name: string): (r: string)
    ensures r <= name && |r| == if |name| < 100 then |name| else 100
  {
    if |name| > MAX_NAME_LEN then name[..MAX_NAME_LEN] else name
  }

  /** The first position of a socket, or the length. */
  function Find(t: seq<Entry>, sock: int): (k: nat)
    ensures k <= |t| && (k < |t| ==> t[k].sock == sock)
    ensures forall i :: 0 <= i < k ==> t[i].sock != sock
  {
    if t == [] || t[0].sock == sock then 0 else 1 + Find(t[1..], sock)
  }

  /** The table without the first client on `sock`, the rest in order. */
  function Without(t: seq<Entry>, sock: int): seq<Entry> {
    var k := Find(t, sock);
    if k < |t| then t[..k] + t[k + 1..] else t
  }

  ghost predicate DistinctSocks(t: seq<Entry>) {
    forall i, j :: 0 <= i < j < |t| ==> t[i].sock != t[j].sock
  }

  /** In the order of connection. */
  ghost predicate Ordered(t: seq<Entry>, next: nat) {
    && (forall i, j :: 0 <= i < j < |t| ==> t[i].id < t[j].id)
    && (forall i :: 0 <= i < |t| ==> t[i].id < next)
  }

  /** How many clients are on the socket. */
  function Count(t: seq<Entry>, sock: int): nat {
    if t == [] then 0 else (if t[0].sock == sock then 1 else 0) + Count(t[1..], sock)
  }

  lemma {:induction false} FindIs(t: seq<Entry>, sock: int, k: nat)
    requires k <= |t| && (k < |t| ==> t[k].sock == sock) && forall i :: 0 <= i < k ==> t[i].sock != sock
    ensures Find(t, sock) == k
  {
    if k > 0 {
      FindIs(t[1..], sock, k - 1);
    }
  }

  /** The table stands for the map `m` from sockets to names. */
  ghost predicate StandsFor(t: seq<Entry>, m: map<int, string>) {
    && DistinctSocks(t)
    && (forall i :: 0 <= i < |t| ==> t[i].sock in m && m[t[i].sock] == t[i].name)
    && (forall s :: s in m ==> Find(t, s) < |t|)
  }

  /** Looking a socket up in the table is looking it up in the map. */
  lemma FindIsLookup(t: seq<Entry>, m: map<int, string>, sock: int)
    requires StandsFor(t, m)
    ensures Find(t, sock) < |t| <==> sock in m
    ensures sock in m ==> t[Find(t, sock)].name == m[sock]
  {
  }

  lemma WithoutAt(t: seq<Entry>, sock: int, i: nat)
    requires i < |Without(t, sock)|
    ensures i < |t| && (Find(t, sock) == |t| || i + 1 < |t|)
    ensures Without(t, sock)[i] == t[if i < Find(t, sock) then i else i + 1]
  {
  }

  lemma WithoutOrdered(t: seq<Entry>, sock: int, next: nat)
    requires Ordered(t, next)
    ensures Ordered(Without(t, sock), next)
  {
  }

  lemma WithoutDistinct(t: seq<Entry>, sock: int)
    requires DistinctSocks(t)
    ensures DistinctSocks(Without(t, sock))
  {
  }

  /** Exactly the client on the socket goes. */
  lemma WithoutMembers(t: seq<Entry>, sock: int)
    requires DistinctSocks(t)
    ensures DistinctSocks(Without(t, sock))
    ensures forall e :: e in Without(t, sock) <==> e in t && e.sock != sock
  {
    var k := Find(t, sock);
    WithoutDistinct(t, sock);
    if k < |t| {
      assert t == t[..k] + [t[k]] + t[k + 1..];
      assert forall e :: e in t[k + 1..] ==> e.sock != sock;
    }
  }

  /** No other client goes, whether or not the sockets are distinct. */
  lemma WithoutKeepsOthers(t: seq<Entry>, sock: int, x: int)
    requires x != sock
    ensures Find(t, x) < |t| <==> Find(Without(t, sock), x) < |Without(t, sock)|
  {
    var i, k, w := Find(t, x), Find(t, sock), Without(t, sock);
    if i < |t| {
      assert w[if i < k then i else i - 1] == t[i];
      FindMember(w, t[i]);
    }
    var j := Find(w, x);
    if j < |w| {
      WithoutAt(t, sock, j);
      FindMember(t, w[j]);
    }
  }

  lemma {:induction false} CountIsZero(t: seq<Entry>, sock: int)
    ensures Count(t, sock) == 0 <==> Find(t, sock) == |t|
  {
    if t != [] {
      CountIsZero(t[1..], sock);
    }
  }

  lemma {:induction false} CountAppend(t: seq<Entry>, u: seq<Entry>, sock: int)
    ensures Count(t + u, sock) == Count(t, sock) + Count(u, sock)
  {
    if t == [] {
      assert t + u == u;
    } else {
      assert (t + u)[1..] == t[1..] + u;
      CountAppend(t[1..], u, sock);
    }
  }

  lemma CountSnoc(t: seq<Entry>, e: Entry, sock: int)
    ensures Count(t + [e], sock) == Count(t, sock) + if e.sock == sock then 1 else 0
  {
    CountAppend(t, [e], sock);
    assert [e][1..] == [];
  }

  function CountFrom(t: seq<Entry>, i: nat, sock: int): (n: nat)
    requires i <= |t|
    decreases |t| - i
  {
    if i == |t| then 0 else (if t[i].sock == sock then 1 else 0) + CountFrom(t, i + 1, sock)
  }

  lemma {:induction false} CountFromIs(t: seq<Entry>, i: nat, sock: int)
    requires i <= |t|
    ensures CountFrom(t, i, sock) == Count(t[i..], sock)
    decreases |t| - i
  {
    if i < |t| {
      CountFromIs(t, i + 1, sock);
      assert t[i..][1..] == t[i + 1..];
    }
  }

  lemma CountAround(t: seq<Entry>, k: nat, sock: int)
    requires k < |t|
    ensures Count(t, sock) == Count(t[..k], sock) + (if t[k].sock == sock then 1 else 0) + Count(t[k + 1..], sock)
  {
    CountSnoc(t[..k], t[k], sock);
    CountAppend(t[..k] + [t[k]], t[k + 1..], sock);
    assert t == t[..k] + [t[k]] + t[k + 1..];
  }

  lemma CountWithout(t: seq<Entry>, sock: int, x: int)
    ensures Count(Without(t, sock), x) == Count(t, x) - if x == sock && Find(t, sock) < |t| then 1 else 0
  {
    var k := Find(t, sock);
    if k < |t| {
      CountAround(t, k, x);
      CountAppend(t[..k], t[k + 1..], x);
    }
  }

  lemma CountRenamed(t: seq<Entry>, k: nat, name: string, x: int)
    requires k < |t|
    ensures Count(t[k := t[k].(name := name)], x) == Count(t, x)
  {
    var u := t[k := t[k].(name := name)];
    CountAround(t, k, x);
    CountAround(u, k, x);
    assert u[..k] == t[..k] && u[k + 1..] == t[k + 1..];
  }

  /** A client is alone on its socket exactly if the socket counts once. */
  lemma CountIsOne(t: seq<Entry>, k: nat)
    requires k < |t|
    ensures Count(t, t[k].sock) == 1 <==> forall j :: 0 <= j < |t| && j != k ==> t[j].sock != t[k].sock
  {
    var sock, before, after := t[k].sock, t[..k], t[k + 1..];
    CountAround(t, k, sock);
    CountIsZero(before, sock);
    CountIsZero(after, sock);
    if j :| 0 <= j < |t| && j != k && t[j].sock == sock {
      if j < k {
        FindMember(before, before[j]);
      } else {
        FindMember(after, after[j - k - 1]);
      }
    } else {
      assert forall j :: 0 <= j < |before| ==> before[j] == t[j];
      assert forall j :: 0 <= j < |after| ==> after[j] == t[j + k + 1];
    }
  }

  lemma FindMember(t: seq<Entry>, e: Entry)
    requires e in t
    ensures Find(t, e.sock) < |t|
  {
    var i :| 0 <= i < |t| && t[i] == e;
  }

  /** Removing a client removes its socket from the map and keeps the order of the rest. */
  lemma WithoutIsRemoval(t: seq<Entry>, m: map<int, string>, sock: int)
    requires StandsFor(t, m)
    ensures StandsFor(Without(t, sock), m - {sock})
  {
    var w := Without(t, sock);
    WithoutMembers(t, sock);
    forall i | 0 <= i < |w| ensures w[i].sock in m - {sock} && (m - {sock})[w[i].sock] == w[i].name {
      assert w[i] in t;
    }
    forall s | s in m - {sock} ensures Find(w, s) < |w| {
      assert t[Find(t, s)] in w;
      FindMember(w, t[Find(t, s)]);
    }
  }

  lemma AddIsInsertion(t: seq<Entry>, m: map<int, string>, e: Entry)
    requires StandsFor(t, m) && e.sock !in m
    ensures StandsFor(t + [e], m[e.sock := e.name])
  {
    var w := t + [e];
    forall s | s in m[e.sock := e.name] ensures Find(w, s) < |w| {
      FindIs(w, s, if s == e.sock then |t| else Find(t, s));
    }
  }

  lemma RenameIsUpdate(t: seq<Entry>, m: map<int, string>, k: nat, name: string)
    requires StandsFor(t, m) && k < |t|
    ensures StandsFor(t[k := t[k].(name := name)], m[t[k].sock := name])
  {
    var w := t[k := t[k].(name := name)];
    forall s | s in m[t[k].sock := name] ensures Find(w, s) < |w| {
      FindIs(w, s, Find(t, s));
    }
  }

  lemma RenameKeepsPlaces(t: seq<Entry>, k: nat, name: string, x: int)
    requires k < |t|
    ensures Find(t[k := t[k].(name := name)], x) == Find(t, x)
  {
    FindIs(t[k := t[k].(name := name)], x, Find(t, x));
  }

  datatype Op = Add(sock: int, name: string) | Remove(sock: int) | Rename(sock: int, name: string)

  /** One operation on the table; `next` numbers the client it may add. */
  function TableStep(t: seq<Entry>, next: nat, op: Op): seq<Entry> {
    match op
    case Add(sock, name) => t + [Entry(next, sock, name)]
    case Remove(sock) => Without(t, sock)
    case Rename(sock, name) =>
      var k := Find(t, sock);
      if k < |t| then t[k := t[k].(name := name)] else t
  }

  function MapStep(m: map<int, string>, op: Op): map<int, string> {
    match op
    case Add(sock, name) => m[sock := name]
    case Remove(sock) => m - {sock}
    case Rename(sock, name) => if sock in m then m[sock := name] else m
  }

  lemma StepRefines(t: seq<Entry>, m: map<int, string>, next: nat, op: Op)
    requires StandsFor(t, m) && (op.Add? ==> op.sock !in m)
    ensures StandsFor(TableStep(t, next, op), MapStep(m, op))
  {
    match op
    case Add(sock, name) => AddIsInsertion(t, m, Entry(next, sock, name));
    case Remove(sock) => WithoutIsRemoval(t, m, sock);
    case Rename(sock, name) =>
      FindIsLookup(t, m, sock);
      if Find(t, sock) < |t| {
        RenameIsUpdate(t, m, Find(t, sock), name);
      }
  }

  lemma StepOrdered(t: seq<Entry>, next: nat, op: Op)
    requires Ordered(t, next)
    ensures Ordered(TableStep(t, next, op), next + 1)
  {
    if op.Remove? {
      WithoutOrdered(t, op.sock, next);
    }
  }

  function TableAfter(t: seq<Entry>, next: nat, ops: seq<Op>): seq<Entry>
    decreases |ops|
  {
    if ops == [] then t else TableAfter(TableStep(t, next, ops[0]), next + 1, ops[1..])
  }

  function MapAfter(m: map<int, string>, ops: seq<Op>): map<int, string>
    decreases |ops|
  {
    if ops == [] then m else MapAfter(MapStep(m, ops[0]), ops[1..])
  }

  /** Clients connect on sockets that are not in use. */
  predicate FreshAdds(m: map<int, string>, ops: seq<Op>)
    decreases |ops|
  {
    ops == [] || ((ops[0].Add? ==> ops[0].sock !in m) && FreshAdds(MapStep(m, ops[0]), ops[1..]))
  }

  /** After any sequence of operations the table stands for the map after them, in the order
      of connection. */
  lemma {:induction false} TableRefinesMap(t: seq<Entry>, m: map<int, string>, next: nat, ops: seq<Op>)
    requires StandsFor(t, m) && Ordered(t, next) && FreshAdds(m, ops)
    ensures StandsFor(TableAfter(t, next, ops), MapAfter(m, ops))
    ensures Ordered(TableAfter(t, next, ops), next + |ops|)
    decreases |ops|
  {
    if ops != [] {
      StepRefines(t, m, next, ops[0]);
      StepOrdered(t, next, ops[0]);
      TableRefinesMap(TableStep(t, next, ops[0]), MapStep(m, ops[0]), next + 1, ops[1..]);
    }
  }
}
