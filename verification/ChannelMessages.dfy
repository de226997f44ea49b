/** The message parser of networking/threaded_chat_server_with_channels/server.c. */
module ChannelMessages {
  import opened Text

  const BUF_SIZE := 1024

  /** A message is refused, or names a channel. Its text follows the first space; without a
      space the text pointer is left behind the end of the message. */
  datatype Parsed = Refused | Parsed(channel: int, text: string) | PastEnd(channel: int)

  /** The first space of a message, or its length. */
  function FirstSpace(msg: string): (k: nat)
    ensures k <= |msg| && ' ' !in msg[..k]
    ensures k < |msg| ==> msg[k] == ' '
  {
    if msg == [] || msg[0] == ' ' then 0 else 1 + FirstSpace(msg[1..])
  }

  function Parse(msg: string): Parsed {
    var k := FirstSpace(msg);
    var channel := Atoi(msg[..k]);
    if channel == 0 then Refused
    else if k < |msg| then Parsed(channel, msg[k + 1..])
    else PastEnd(channel)
  }

  /** What a received buffer adds to the log, if anything. A message without a space takes
      whatever lies `beyond` its end as the text. */
  function Receive(buf: string, beyond: string): Parsed {
    match Parse(CString(buf))
    case PastEnd(channel) => Parsed(channel, beyond)
    case p => p
  }

  lemma {:induction false} FirstSpaceAt(prefix: string, text: string)
    requires ' ' !in prefix
    ensures FirstSpace(prefix + " " + text) == |prefix|
    ensures FirstSpace(prefix) == |prefix|
  {
    var msg := prefix + " " + text;
    if prefix != [] {
      assert msg[1..] == prefix[1..] + " " + text;
      FirstSpaceAt(prefix[1..], text);
    }
  }

  /** Round trip: a channel other than 0, a space and any text are read back as they were written. */
  lemma ParseRoundTrip(channel: int, text: string)
    requires channel != 0
    ensures Parse(Decimal(channel) + " " + text) == Parsed(channel, text)
  {
    var msg := Decimal(channel) + " " + text;
    FirstSpaceAt(Decimal(channel), text);
    AtoiOfDecimal(channel);
    assert msg[..|Decimal(channel)|] == Decimal(channel);
  }

  /** The same through a received buffer: what is logged does not depend on anything beyond it. */
  lemma ReceiveRoundTrip(channel: int, text: string, beyond: string)
    requires channel != 0 && '\0' !in text
    ensures Receive(Decimal(channel) + " " + text, beyond) == Parsed(channel, text)
  {
    DecimalHasNoNul(channel);
    CStringWhole(Decimal(channel) + " " + text);
    ParseRoundTrip(channel, text);
  }

  lemma DecimalHasNoNul(n: int)
    ensures '\0' !in Decimal(n)
  {
    assert forall c :: IsDigit(c) ==> c != '\0';
  }

  /** Exactly the messages that parse to a channel and a text, whatever they look like. */
  lemma ParsedIff(msg: string, channel: int, text: string)
    ensures Parse(msg) == Parsed(channel, text) <==>
            exists prefix :: ' ' !in prefix && msg == prefix + " " + text && Atoi(prefix) == channel != 0
  {
    if Parse(msg) == Parsed(channel, text) {
      var k := FirstSpace(msg);
      assert msg == msg[..k] + " " + text;
    }
    forall prefix | ' ' !in prefix && msg == prefix + " " + text && Atoi(prefix) == channel != 0
      ensures Parse(msg) == Parsed(channel, text)
    {
      FirstSpaceAt(prefix, text);
      assert msg[..|prefix|] == prefix;
    }
  }

  /** What every message that has a space stands for: the number at its start is the channel, and if
      that is 0, or there is none, the message is refused. */
  lemma ParseReads(n: Numeral, text: string)
    requires n.Reads() && ' ' !in n.Whole()
    ensures Parse(n.Whole() + " " + text) == if n.Value() == 0 then Refused else Parsed(n.Value(), text)
    ensures Parse(n.Whole()) == if n.Value() == 0 then Refused else PastEnd(n.Value())
  {
    var msg := n.Whole() + " " + text;
    FirstSpaceAt(n.Whole(), text);
    assert msg[..|n.Whole()|] == n.Whole() && n.Whole()[..|n.Whole()|] == n.Whole();
    AtoiReads(n);
  }

  /** A message that does not begin with a number is refused, with or without a sign before it. */
  lemma NoNumberRefused(n: Numeral, text: string)
    requires n.Reads() && n.digits == "" && ' ' !in n.Whole()
    ensures Parse(n.Whole() + " " + text) == Refused && Parse(n.Whole()) == Refused
  {
    ParseReads(n, text);
  }

  lemma WordRefused()
    ensures Parse("hello world") == Refused
  {
    NoNumberRefused(Numeral("", "", "", "hello"), "world");
    assert Numeral("", "", "", "hello").Whole() + " " + "world" == "hello world";
  }

  lemma SpaceRefused()
    ensures Parse(" hello") == Refused
  {
    NoNumberRefused(Numeral("", "", "", ""), "hello");
    assert Numeral("", "", "", "").Whole() + " " + "hello" == " hello";
  }

  lemma PlusRead()
    ensures Parse("+7 x") == Parsed(7, "x")
  {
    assert Positional("7") == 7;
    ParseReads(Numeral("", "+", "7", ""), "x");
    assert Numeral("", "+", "7", "").Whole() + " " + "x" == "+7 x";
  }

  lemma LettersIgnored()
    ensures Parse("7abc x") == Parsed(7, "x")
  {
    assert Positional("7") == 7;
    ParseReads(Numeral("", "", "7", "abc"), "x");
    assert Numeral("", "", "7", "abc").Whole() + " " + "x" == "7abc x";
  }

  /** The text pointer leaves the message exactly when there is no space after a channel. */
  lemma PastEndIff(msg: string)
    ensures Parse(msg).PastEnd? <==> ' ' !in msg && Atoi(msg) != 0
  {
    if ' ' !in msg {
      FirstSpaceAt(msg, "");
      assert msg[..|msg|] == msg;
    }
  }

  /** So the text of such a message is whatever lies behind it in memory. */
  lemma NoSpaceTakesAnything(beyond: string)
    ensures Parse("7").PastEnd? && Receive("7", beyond) == Parsed(7, beyond)
  {
    FirstSpaceAt("7", "");
    assert "7"[1..] == "" && "7"[..1] == "7";
    assert Digits("7", 0) == Digits("", 7) == 7;
    CStringWhole("7");
  }

  /** `parse_message`: the prefix is copied to a zeroed buffer character by character. The caller's
      buffer bounds the length. */
  method ParseMessage(msg: string) returns (r: Parsed)
    requires |msg| < BUF_SIZE && '\0' !in msg
    ensures r == Parse(msg)
  {
    var buf := new char[BUF_SIZE](_ => '\0');
    var i := 0;
    while i < |msg| && msg[i] != ' '
      invariant 0 <= i <= |msg|
      invariant ' ' !in msg[..i] && buf[..i] == msg[..i]
      invariant forall k :: i <= k < BUF_SIZE ==> buf[k] == '\0'
    {
      buf[i] := msg[i];
      i := i + 1;
    }
    PrefixOf(msg, i);
    CStringUpTo(buf[..], i);
    assert buf[..][..i] == msg[..i];
    var channel := Atoi(CString(buf[..]));
    if channel == 0 {
      return Refused;
    }
    return if i < |msg| then Parsed(channel, msg[i + 1..]) else PastEnd(channel);
  }

  lemma {:induction false} PrefixOf(msg: string, i: nat)
    requires i <= |msg| && ' ' !in msg[..i] && (i < |msg| ==> msg[i] == ' ')
    ensures FirstSpace(msg) == i
  {
    if i > 0 {
      assert msg[0] in msg[..i];
      assert forall c :: c in msg[1..][..i - 1] ==> c in msg[..i];
      PrefixOf(msg[1..], i - 1);
    }
  }
}
