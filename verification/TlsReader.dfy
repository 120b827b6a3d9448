/** Reading TLS handshake messages out of the records they arrive in: however the
    sender cut its stream, the messages handed out are the ones it wrote. */
module TlsReader {
  import opened Wrappers
  import opened Words
  import opened DtlsFragment

  const MESSAGE_HEADER: nat := 4

  /** A handshake message on the wire. */
  function EncMessage(m: Message): (s: seq<byte>)
    requires |m.body| < 0x100_0000
    ensures |s| == MESSAGE_HEADER + |m.body|
  {
    [m.typ] + U24(|m.body|) + m.body
  }

  predicate Sendable(ms: seq<Message>) { forall m :: m in ms ==> |m.body| < 0x100_0000 }

  function EncMessages(ms: seq<Message>): seq<byte>
    requires Sendable(ms)
  {
    if ms == [] then [] else EncMessage(ms[0]) + EncMessages(ms[1..])
  }

  datatype Parsed = Need(bytes: nat) | Got(msg: Message, raw: nat)

  /** parse_message: a message and its raw length, or how many bytes it takes. */
  function ParseMessage(buf: seq<byte>): (r: Parsed)
    ensures r.Need? ==> r.bytes > |buf|
    ensures r.Got? ==> r.raw == MESSAGE_HEADER + |r.msg.body| <= |buf|
  {
    if |buf| < MESSAGE_HEADER then Need(MESSAGE_HEADER)
    else
      var len := ReadU24(buf[1], buf[2], buf[3]);
      if |buf| - MESSAGE_HEADER < len then Need(MESSAGE_HEADER + len)
      else Got(Message(buf[0], buf[MESSAGE_HEADER..MESSAGE_HEADER + len]), MESSAGE_HEADER + len)
  }

  lemma MessageRoundTrip(m: Message, rest: seq<byte>)
    requires |m.body| < 0x100_0000
    ensures ParseMessage(EncMessage(m) + rest) == Got(m, |EncMessage(m)|)
  {
    hide U24, ReadU24, U16, ReadU16;
    var s := EncMessage(m) + rest;
    ReadBack(|m.body|, 0);
    assert s[0] == m.typ && s[1] == U24(|m.body|)[0] && s[2] == U24(|m.body|)[1] && s[3] == U24(|m.body|)[2];
    assert s[MESSAGE_HEADER..MESSAGE_HEADER + |m.body|] == m.body;
  }

  /** What parses is the front of the buffer. */
  lemma MessageInverse(buf: seq<byte>)
    requires ParseMessage(buf).Got?
    ensures |ParseMessage(buf).msg.body| < 0x100_0000
    ensures buf[..ParseMessage(buf).raw] == EncMessage(ParseMessage(buf).msg)
  {
    hide U24, ReadU24;
    var r := ParseMessage(buf);
    assert buf[..r.raw] == [buf[0]] + [buf[1], buf[2], buf[3]] + r.msg.body;
  }

  lemma {:induction false} EncConcat(a: seq<Message>, b: seq<Message>)
    requires Sendable(a) && Sendable(b)
    ensures Sendable(a + b) && EncMessages(a + b) == EncMessages(a) + EncMessages(b)
  {
    hide EncMessage;
    if a == [] {
      assert a + b == b;
    } else {
      assert (a + b)[1..] == a[1..] + b;
      EncConcat(a[1..], b);
      assert EncMessage(a[0]) + (EncMessages(a[1..]) + EncMessages(b))
             == EncMessage(a[0]) + EncMessages(a[1..]) + EncMessages(b);
    }
  }

  /** From a prefix of the sender's stream, the next message in the buffer is the
      sender's next message, and it is missing only when the stream has not brought
      it in full. */
  lemma {:induction false} NextIsSent(sent: seq<Message>, arrived: nat, buf: seq<byte>)
    requires Sendable(sent) && arrived <= |EncMessages(sent)| && buf == EncMessages(sent)[..arrived]
    ensures ParseMessage(buf).Got? <==> sent != [] && arrived >= |EncMessage(sent[0])|
    ensures ParseMessage(buf).Got? ==>
              && ParseMessage(buf).msg == sent[0]
              && buf[ParseMessage(buf).raw..] == EncMessages(sent[1..])[..arrived - ParseMessage(buf).raw]
  {
    if sent != [] {
      var m, rest := sent[0], EncMessages(sent[1..]);
      var n := |EncMessage(m)|;
      if arrived >= n {
        MessageRoundTrip(m, rest[..arrived - n]);
        assert buf == EncMessage(m) + rest[..arrived - n];
      } else {
        HeaderDecides(m, buf);
      }
    }
  }

  /** A proper part of a message does not parse. */
  lemma HeaderDecides(m: Message, buf: seq<byte>)
    requires |m.body| < 0x100_0000 && |buf| < |EncMessage(m)| && buf == EncMessage(m)[..|buf|]
    ensures ParseMessage(buf).Need?
  {
    if |buf| >= MESSAGE_HEADER {
      hide U24, ReadU24, U16, ReadU16;
      ReadBack(|m.body|, 0);
      assert buf[1] == U24(|m.body|)[0] && buf[2] == U24(|m.body|)[1] && buf[3] == U24(|m.body|)[2];
    }
  }

  /** `buf` begins with all of a message. */
  ghost predicate Leads(buf: seq<byte>, m: Message) {
    |m.body| < 0x100_0000 && EncMessage(m) <= buf
  }

  /** `buf` is a proper part of a message. */
  ghost predicate Completes(buf: seq<byte>, m: Message) {
    |m.body| < 0x100_0000 && |buf| < |EncMessage(m)| && buf == EncMessage(m)[..|buf|]
  }

  lemma LeadsParses(buf: seq<byte>, m: Message)
    requires Leads(buf, m)
    ensures ParseMessage(buf).Got? && |buf| >= MESSAGE_HEADER
  {
    hide EncMessage, ParseMessage;
    MessageRoundTrip(m, buf[|EncMessage(m)|..]);
    assert buf == EncMessage(m) + buf[|EncMessage(m)|..];
  }

  lemma CompletesNeeds(buf: seq<byte>, m: Message)
    requires Completes(buf, m)
    ensures ParseMessage(buf).Need?
    ensures |buf| >= MESSAGE_HEADER ==> ParseMessage(buf).bytes == MESSAGE_HEADER + |m.body|
  {
    HeaderDecides(m, buf);
    if |buf| >= MESSAGE_HEADER {
      hide U24, ReadU24, U16, ReadU16;
      ReadBack(|m.body|, 0);
      assert buf[1] == U24(|m.body|)[0] && buf[2] == U24(|m.body|)[1] && buf[3] == U24(|m.body|)[2];
    }
  }

  lemma NeedsCompletes(buf: seq<byte>) returns (m: Message)
    requires ParseMessage(buf).Need? && |buf| >= MESSAGE_HEADER
    ensures Completes(buf, m) && ParseMessage(buf).bytes == MESSAGE_HEADER + |m.body|
  {
    hide U24, ReadU24;
    var len := ReadU24(buf[1], buf[2], buf[3]);
    var have := |buf| - MESSAGE_HEADER;
    m := Message(buf[0], buf[MESSAGE_HEADER..] + seq(len - have, _ => 0));
    assert U24(len) == [buf[1], buf[2], buf[3]];
    assert EncMessage(m)[..|buf|] == buf;
  }

  /** What parsing a buffer says about the messages it may belong to. */
  lemma Judged(buf: seq<byte>)
    ensures ParseMessage(buf).Got? <==> exists m :: Leads(buf, m)
    ensures ParseMessage(buf).Need? && |buf| >= MESSAGE_HEADER ==> exists m :: Completes(buf, m)
    ensures |buf| < MESSAGE_HEADER ==> ParseMessage(buf) == Need(MESSAGE_HEADER)
    ensures forall m :: Completes(buf, m) ==> ParseMessage(buf).Need?
    ensures forall m :: Completes(buf, m) && |buf| >= MESSAGE_HEADER ==> ParseMessage(buf).bytes == MESSAGE_HEADER + |m.body|
  {
    if ParseMessage(buf).Got? {
      MessageInverse(buf);
      assert Leads(buf, ParseMessage(buf).msg);
    } else if |buf| >= MESSAGE_HEADER {
      var m := NeedsCompletes(buf);
    }
    hide EncMessage, ParseMessage, Completes, Leads;
    forall m | Leads(buf, m) ensures ParseMessage(buf).Got? { LeadsParses(buf, m); }
    forall m | Completes(buf, m)
      ensures ParseMessage(buf).Need?
      ensures |buf| >= MESSAGE_HEADER ==> ParseMessage(buf).bytes == MESSAGE_HEADER + |m.body|
    {
      CompletesNeeds(buf, m);
    }
  }

  datatype Accept = Accepted | InternalError | TooLong

  class MessageReader {
    var hsBuf: seq<byte>
    var hasMessage: bool
    ghost var got: seq<byte>       // all handshake bytes that arrived
    ghost var taken: seq<Message>  // all messages handed out

    ghost predicate Valid()
      reads this
    {
      && Sendable(taken) && got == EncMessages(taken) + hsBuf
      && (hasMessage ==> ParseMessage(hsBuf).Got?)
    }

    constructor ()
      ensures Valid() && got == [] && taken == []
    {
      hsBuf, hasMessage, got, taken := [], false, [], [];
    }

    /** tls_can_accept_handshake_data. */
    method CanAccept(maxLen: nat) returns (a: Accept)
      requires Valid()
      ensures a.InternalError? <==> exists m :: Leads(hsBuf, m)
      ensures a.TooLong? <==> |hsBuf| >= MESSAGE_HEADER && exists m :: Completes(hsBuf, m) && |m.body| > maxLen
      ensures a.Accepted? <==> (|hsBuf| < MESSAGE_HEADER || exists m :: Completes(hsBuf, m) && |m.body| <= maxLen)
      ensures a.Accepted? ==> |hsBuf| < MESSAGE_HEADER + maxLen
    {
      hide EncMessage, ParseMessage;
      Judged(hsBuf);
      var r := ParseMessage(hsBuf);
      if r.Got? {
        return InternalError;
      }
      return if r.bytes > MESSAGE_HEADER + maxLen then TooLong else Accepted;
    }

    /** The end of ssl3_open_handshake: a handshake record is appended. */
    method Append(record: seq<byte>)
      requires Valid() && !hasMessage
      modifies this`hsBuf, this`got
      ensures Valid() && got == old(got) + record
    {
      hsBuf, got := hsBuf + record, got + record;
    }

    /** ssl3_get_message. */
    method GetMessage() returns (m: Option<Message>)
      requires Valid()
      modifies this`hasMessage
      ensures Valid() && (hasMessage <==> m.Some?)
      ensures m == if ParseMessage(hsBuf).Got? then Some(ParseMessage(hsBuf).msg) else None
    {
      var r := ParseMessage(hsBuf);
      if r.Need? {
        return None;
      }
      hasMessage := true;
      return Some(r.msg);
    }

    /** ssl3_next_message. */
    method NextMessage()
      requires Valid() && hasMessage
      modifies this`hsBuf, this`hasMessage, this`taken
      ensures Valid() && !hasMessage
      ensures taken == old(taken) + [ParseMessage(old(hsBuf)).msg]
    {
      var r := ParseMessage(hsBuf);
      MessageInverse(hsBuf);
      assert hsBuf == EncMessage(r.msg) + hsBuf[r.raw..];
      assert EncMessages([r.msg]) == EncMessage(r.msg) + EncMessages([]);
      EncConcat(taken, [r.msg]);
      assert EncMessages(taken) + (EncMessage(r.msg) + hsBuf[r.raw..])
             == EncMessages(taken) + EncMessage(r.msg) + hsBuf[r.raw..];
      hsBuf, hasMessage := hsBuf[r.raw..], false;
      taken := taken + [r.msg];
    }

    /** tls_has_unprocessed_handshake_data. */
    method HasUnprocessed() returns (b: bool)
      requires Valid()
      ensures b <==> if hasMessage then |hsBuf| > ParseMessage(hsBuf).raw else hsBuf != []
    {
      var msgLen := if hasMessage then ParseMessage(hsBuf).raw else 0;
      return |hsBuf| > msgLen;
    }
  }

  /** Whatever part of the sender's stream has arrived, the messages handed out are
      the sender's first ones, byte for byte. */
  lemma {:induction false} TakenIsPrefix(sent: seq<Message>, arrived: nat, taken: seq<Message>, buf: seq<byte>)
    requires Sendable(sent) && arrived <= |EncMessages(sent)|
    requires Sendable(taken) && EncMessages(sent)[..arrived] == EncMessages(taken) + buf
    ensures taken <= sent
    ensures var left := arrived - |EncMessages(taken)|;
            0 <= left <= |EncMessages(sent[|taken|..])| && buf == EncMessages(sent[|taken|..])[..left]
    decreases |taken|
  {
    hide EncMessage, ParseMessage;
    if taken != [] {
      var m := taken[0];
      var tail := EncMessages(taken[1..]) + buf;
      var all := EncMessages(taken) + buf;
      assert all == EncMessage(m) + tail;
      MessageRoundTrip(m, tail);
      NextIsSent(sent, arrived, all);
      assert all[|EncMessage(m)|..] == tail;
      TakenIsPrefix(sent[1..], arrived - |EncMessage(m)|, taken[1..], buf);
      assert sent[1..][|taken| - 1..] == sent[|taken|..];
      assert taken == [m] + taken[1..] && sent == [m] + sent[1..];
    }
  }

  /** Once the whole stream has arrived and no message is left, all were handed out. */
  lemma AllTaken(sent: seq<Message>, taken: seq<Message>, buf: seq<byte>)
    requires Sendable(sent) && Sendable(taken) && EncMessages(sent) == EncMessages(taken) + buf
    requires ParseMessage(buf).Need?
    ensures taken == sent && buf == []
  {
    var n := |EncMessages(sent)|;
    assert EncMessages(sent)[..n] == EncMessages(sent);
    TakenIsPrefix(sent, n, taken, buf);
    var rest := sent[|taken|..];
    EncConcat(taken, rest);
    assert sent == taken + rest;
    NextIsSent(rest, n - |EncMessages(taken)|, buf);
  }
}
