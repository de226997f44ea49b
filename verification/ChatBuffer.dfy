/** The receive buffer of networking/epoll_chat_server/server.c, which one call of
    `handle_request` zeroes once and then reuses for every message. */
module ChatBuffer {
  import opened Text

  const BUF_SIZE: nat := 1024

  /** What `etrim_whitespaces` takes off the end: white space and whatever is not printable ASCII. */
  predicate Junk(c: char) { IsSpace(c) || c as int < 32 || c as int > 126 }

  /** What stays at the end is printable and no blank. */
  lemma JunkIff(c: char)
    ensures Junk(c) <==> !(33 <= c as int <= 126)
  {
  }

  /** The first character is never taken off. */
  function Trim(s: string): (r: string)
    ensures r <= s && (s != [] ==> r != [])
    ensures |r| > 1 ==> !Junk(r[|r| - 1])
    ensures forall i :: |r| <= i < |s| ==> Junk(s[i])
  {
    if |s| > 1 && Junk(s[|s| - 1]) then Trim(s[..|s| - 1]) else s
  }

  /** A buffer after a receive has written `data` over its start. */
  function Received(buf: string, data: string): string
    requires |data| < BUF_SIZE == |buf|
  {
    data + buf[|data|..]
  }

  /** The message that a receive leaves in the buffer. */
  function Shown(buf: string, data: string): string
    requires |data| < BUF_SIZE == |buf|
  {
    Trim(CString(Received(buf, data)))
  }

  /** The buffer once the message has been cut off where its text ends. */
  function Trimmed(buf: string): (r: string)
    requires |CString(buf)| < |buf|
    ensures |r| == |buf|
  {
    buf[|Trim(CString(buf))| := '\0']
  }

  ghost predicate BufferInv(buf: string) {
    |buf| == BUF_SIZE && buf[BUF_SIZE - 1] == '\0'
  }

  lemma ReceivedKeeps(buf: string, data: string)
    requires BufferInv(buf) && |data| < BUF_SIZE
    ensures var r := Received(buf, data);
            BufferInv(r) && |CString(r)| < |r| && BufferInv(Trimmed(r))
  {
    CStringStops(Received(buf, data), BUF_SIZE - 1);
  }

  lemma {:induction false} CStringStops(buf: string, i: nat)
    requires i < |buf| && buf[i] == '\0'
    ensures |CString(buf)| <= i
  {
    if i > 0 {
      CStringStops(buf[1..], i - 1);
    }
  }

  /** Before trimming, the buffer holds the data alone exactly when the byte behind it is zero;
      otherwise the tail of an earlier, longer message follows. */
  lemma DataAloneIff(buf: string, data: string)
    requires BufferInv(buf) && |data| < BUF_SIZE && '\0' !in data
    ensures CString(Received(buf, data)) == data <==> buf[|data|] == '\0'
    ensures CString(Received(buf, data)) == data + CString(buf[|data|..])
  {
    CStringAppend(data, buf[|data|..]);
  }

  /** What the server reads is what the client sent, up to a zero in the data and trimmed, exactly when
      there is such a zero, or nothing but junk is left of an earlier message behind the data. */
  lemma ShownIff(buf: string, data: string)
    requires BufferInv(buf) && 0 < |data| < BUF_SIZE
    ensures Shown(buf, data) == Trim(CString(data)) <==>
            '\0' in data || forall c :: c in CString(buf[|data|..]) ==> Junk(c)
  {
    if '\0' in data {
      CStringInData(data, buf[|data|..]);
    } else {
      DataAloneIff(buf, data);
      CStringWhole(data);
      TrimTail(data, CString(buf[|data|..]));
    }
  }

  lemma {:induction false} CStringInData(data: string, rest: string)
    requires '\0' in data
    ensures CString(data + rest) == CString(data)
  {
    if data[0] != '\0' {
      assert (data + rest)[1..] == data[1..] + rest;
      CStringInData(data[1..], rest);
    }
  }

  /** Trimming takes off a tail exactly when all of it is junk. */
  lemma {:induction false} TrimTail(s: string, tail: string)
    requires s != []
    ensures Trim(s + tail) == Trim(s) <==> forall c :: c in tail ==> Junk(c)
    decreases |tail|
  {
    if tail == [] {
      assert s + tail == s;
    } else {
      var last := |tail| - 1;
      assert (s + tail)[..|s| + last] == s + tail[..last];
      assert (s + tail)[|s| + last] == tail[last];
      assert tail == tail[..last] + [tail[last]];
      if Junk(tail[last]) {
        TrimTail(s, tail[..last]);
      } else {
        assert |Trim(s)| < |Trim(s + tail)|;
        assert tail[last] in tail;
      }
    }
  }

  /** The first message of a call is read as it was sent, up to a zero in it. */
  lemma FirstShown(data: string)
    requires |data| < BUF_SIZE
    ensures Shown(seq(BUF_SIZE, _ => '\0'), data) == Trim(CString(data))
    ensures '\0' !in data ==> CString(data) == data
  {
    if '\0' in data {
      CStringInData(data, seq(BUF_SIZE, _ => '\0')[|data|..]);
    } else {
      DataAloneIff(seq(BUF_SIZE, _ => '\0'), data);
      CStringWhole(data);
    }
  }

  /** The first `hello` of a call is read as it is, and the `x` that follows it as `xello`. */
  lemma StaleTailShown()
    ensures var zeroed := seq(BUF_SIZE, _ => '\0');
            && Shown(zeroed, "hello") == "hello"
            && |CString(Received(zeroed, "hello"))| < BUF_SIZE
            && Shown(Trimmed(Received(zeroed, "hello")), "x") == "xello"
  {
    var zeroed := seq(BUF_SIZE, _ => '\0');
    var first := Received(zeroed, "hello");
    FirstShown("hello");
    CStringUpTo(first, 5);
    assert CString(first) == "hello";
    var second := Received(Trimmed(first), "x");
    assert forall i :: 1 <= i < 5 ==> second[i] == "hello"[i];
    CStringUpTo(second, 5);
    assert CString(second) == "xello";
  }

  /** `strlen`. */
  method StrLen(buf: array<char>) returns (n: nat)
    requires |CString(buf[..])| < buf.Length
    ensures n == |CString(buf[..])|
  {
    ghost var s := CString(buf[..]);
    assert buf[|s|] == '\0' && forall j :: 0 <= j < |s| ==> buf[j] == s[j] && s[j] in s;
    n := 0;
    while n < buf.Length && buf[n] != '\0'
      invariant n <= |s|
    {
      n := n + 1;
    }
  }

  /** Cutting the buffer leaves the trimmed text in it. */
  lemma TrimmedShows(buf: string)
    requires |CString(buf)| < |buf|
    ensures CString(Trimmed(buf)) == Trim(CString(buf))
  {
    var s, n := CString(buf), |Trim(CString(buf))|;
    forall j | 0 <= j < n ensures Trimmed(buf)[j] != '\0' {
      assert buf[j] == s[j] && s[j] in s;
    }
    CStringUpTo(Trimmed(buf), n);
    assert Trimmed(buf)[..n] == s[..n];
  }

  /** The scan of `etrim_whitespaces`, from the last character back. */
  method TrimEnd(buf: array<char>, len: nat) returns (end: int)
    requires len < buf.Length
    ensures -1 <= end < len && end + 1 == |Trim(buf[..len])|
  {
    ghost var s := buf[..len];
    assert s[..len] == s;
    end := len as int - 1;
    while end > 0 && Junk(buf[end])
      invariant -1 <= end < len && (end == -1 ==> len == 0)
      invariant Trim(s[..end + 1]) == Trim(s)
      decreases end
    {
      assert s[..end + 1][..end] == s[..end];
      end := end - 1;
    }
  }

  /** `etrim_whitespaces`, in place. */
  method TrimInPlace(buf: array<char>)
    requires |CString(buf[..])| < buf.Length
    modifies buf
    ensures buf[..] == Trimmed(old(buf[..]))
  {
    var len := StrLen(buf);
    assert buf[..len] == buf[..][..len] == CString(buf[..]);
    var end := TrimEnd(buf, len);
    buf[end + 1] := '\0';
  }
}
