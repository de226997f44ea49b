/** The array of client objects of networking/epoll_chat_server/server.c, proved against
    `ClientTable`. */
module ClientArray {
  import opened ClientTable

  class Client {
    const id: nat
    const sock: int
    var name: string

    constructor (id: nat, sock: int, name: string)
      ensures Value() == Entry(id, sock, Clip(name))
    {
      this.id, this.sock := id, sock;
      this.name := Clip(name);
    }

    ghost function Value(): Entry
      reads this
    {
      Entry(id, sock, name)
    }

    /** `client_update_name`: a name that is set stays, unless overwriting is asked for. */
    method UpdateName(name: string, overwrite: bool) returns (updated: bool)
      modifies this
      ensures updated <==> overwrite || old(this.name) == []
      ensures this.name == if updated then Clip(name) else old(this.name)
    {
      if !overwrite && this.name != [] {
        return false;
      }
      this.name := Clip(name);
      return true;
    }
  }

  ghost function Values(list: seq<Client>): (t: seq<Entry>)
    reads list
    ensures |t| == |list| && forall i :: 0 <= i < |t| ==> t[i] == list[i].Value()
  {
    seq(|list|, i requires 0 <= i < |list| reads list => list[i].Value())
  }

  lemma ValuesWithout(list: seq<Client>, sock: int)
    ensures var k := Find(Values(list), sock);
            k < |list| ==> Values(list[..k] + list[k + 1..]) == Without(Values(list), sock)
  {
    var t := Values(list);
    var k := Find(t, sock);
    if k < |list| {
      var rest := list[..k] + list[k + 1..];
      forall i | 0 <= i < |rest| ensures Values(rest)[i] == Without(t, sock)[i] {
        WithoutAt(t, sock, i);
        assert rest[i] == list[if i < k then i else i + 1];
      }
    }
  }

  /** The first client on the socket stands at `k`, if there is one. */
  predicate FirstOn(list: seq<Client>, sock: int, k: nat) {
    && k <= |list| && (k < |list| ==> list[k].sock == sock)
    && forall j :: 0 <= j < k ==> list[j].sock != sock
  }

  class Clients {
    var items: array<Client?>
    var len: nat
    ghost var list: seq<Client>
    ghost var growth: Growth

    ghost predicate Valid()
      reads this, items
    {
      && len == |list| <= items.Length
      && items[..len] == list
      && growth.len == len && growth.cap == items.Length && GrowthInv(growth)
    }

    constructor ()
      ensures Valid() && list == [] && growth == STARTED && fresh(items)
    {
      items := new Client?[START_CLIENTS];
      len, list, growth := 0, [], STARTED;
      StartedInv();
    }

    /** `clients_add`: refused, or appended to an array that doubles when it is full. */
    method Add(id: nat, sock: int, name: string) returns (status: int)
      requires Valid()
      modifies this, items
      ensures Valid() && (items == old(items) || fresh(items))
      ensures growth == old(growth).Added()
      ensures status == if old(growth).Full() then -1 else 0
      ensures status == -1 ==> list == old(list) && old(len) == LARGEST
      ensures status == 0 ==>
                |list| == |old(list)| + 1 && list[..|old(list)|] == old(list) && fresh(list[|old(list)|])
                && list[|old(list)|].Value() == Entry(id, sock, Clip(name))
    {
      AddedKeeps(growth);
      RefusedIff(growth);
      growth := growth.Added();
      if len >= items.Length && items.Length >= MAX_CLIENTS {
        return -1;
      }
      if len >= items.Length && items.Length < MAX_CLIENTS {
        Grow();
      }
      var c := new Client(id, sock, name);
      items[len] := c;
      len := len + 1;
      list := list + [c];
      return 0;
    }

    /** `realloc` to twice the capacity. */
    method Grow()
      requires len == |list| <= items.Length && items[..len] == list && items.Length > 0
      modifies this`items
      ensures fresh(items) && items.Length == 2 * old(items.Length) && items[..len] == list
    {
      var grown := new Client?[items.Length * 2];
      for k := 0 to len
        invariant items == old(items) && items[..len] == list
        invariant grown[..k] == list[..k]
      {
        grown[k] := items[k];
      }
      items := grown;
    }

    /** `clients_get_by_socket`. */
    method GetBySocket(sock: int) returns (c: Client?)
      requires Valid()
      ensures var k := Find(Values(list), sock); c == if k < |list| then list[k] else null
    {
      for i := 0 to len
        invariant forall j :: 0 <= j < i ==> list[j].sock != sock
      {
        if items[i].sock == sock {
          assert items[..len][i] == list[i];
          FindIs(Values(list), sock, i);
          return items[i];
        }
      }
      FindIs(Values(list), sock, len);
      return null;
    }

    /** The scan has passed `i` slots, and moved the entries behind the `k`-th down into them. */
    ghost predicate ShiftedTo(i: nat, k: nat)
      reads this, items
    {
      && len == |list| <= items.Length
      && forall j :: 0 <= j < len ==> items[j] == list[if k <= j < i && j + 1 < len then j + 1 else j]
    }

    /** One slot of the scan. */
    method ScanSlot(sock: int, i: nat, move: bool, ghost k: nat) returns (found: bool)
      requires i < len && ShiftedTo(i, k)
      requires FirstOn(list, sock, k) && (move <==> k < i)
      modifies items
      ensures ShiftedTo(i + 1, k)
      ensures found <==> list[i].sock == sock
    {
      found := items[i].sock == sock;
      if (move || found) && i + 1 < len {
        items[i] := items[i + 1];
      }
    }

    /** The scan of `client_disconnect`: it destroys the client at every entry on its socket, and moves
        the entries behind the first of them down by one slot. The last slot keeps a copy, which the
        shorter length then leaves out. */
    method ShiftDown(sock: int) returns (move: bool, destroys: nat)
      requires Valid()
      modifies items
      ensures items.Length == old(items.Length)
      ensures destroys == Count(old(Values(list)), sock)
      ensures var k := Find(old(Values(list)), sock);
              && (move <==> k < |list|)
              && (forall j :: 0 <= j < len && j < k ==> items[j] == list[j])
              && (forall j :: k <= j < len - 1 ==> items[j] == list[j + 1])
    {
      move, destroys := false, 0;
      ghost var t := Values(list);
      ghost var k := Find(t, sock);
      assert FirstOn(list, sock, k) && t[0..] == t;
      CountFromIs(t, 0, sock);
      for i := 0 to len
        invariant move <==> k < i
        invariant destroys + CountFrom(t, i, sock) == Count(t, sock)
        invariant ShiftedTo(i, k)
      {
        var found := ScanSlot(sock, i, move, k);
        if found {
          move, destroys := true, destroys + 1;
        }
      }
    }

    /** `client_disconnect`, and how often it destroys the client. */
    method Disconnect(client: Client) returns (destroys: nat)
      requires Valid()
      modifies this, items
      ensures Valid() && items == old(items)
      ensures destroys == Count(old(Values(list)), client.sock)
      ensures var k := Find(old(Values(list)), client.sock);
              if k < |old(list)| then list == old(list)[..k] + old(list)[k + 1..] && growth == old(growth).Removed()
              else list == old(list) && growth == old(growth)
    {
      ghost var k := Find(Values(list), client.sock);
      var move;
      move, destroys := ShiftDown(client.sock);
      if move {
        len := len - 1;
        list := list[..k] + list[k + 1..];
        growth := growth.Removed();
        assert forall j :: 0 <= j < len ==> items[j] == list[j];
      }
    }
  }
}
