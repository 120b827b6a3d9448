/** The handshake object that the do_* functions change, and the operations they
    share. */
module HandshakeObject {
  import opened Wrappers
  import opened HandshakeFlow
  import opened HandshakeSpec

  class SslHandshake<S> {
    var state: S
    var wait: Wait
    var inbox: Option<Msg>
    var pending: seq<Item>
    var transcript: seq<Msg>
    var certRequest: bool
    var peerCert: bool

    function Abs(): (m: Machine<S>)
      reads this
    {
      Machine(state, wait, inbox, pending, transcript, certRequest, peerCert)
    }

    constructor (s: S)
      ensures Abs() == Fresh(s)
    {
      state, wait, inbox, pending, transcript, certRequest, peerCert := s, Ok, None, [], [], false, false;
    }

    /** ssl_hash_message and next_message, on the message in hand. */
    method TakeMessage()
      requires inbox.Some?
      modifies this`inbox, this`transcript
      ensures inbox == None && transcript == old(transcript) + [old(inbox).value]
    {
      transcript := transcript + [inbox.value];
      inbox := None;
    }

    /** ssl_add_message_cbb: the message joins the flight and the transcript. */
    method AddMessage(x: Msg)
      modifies this`pending, this`transcript
      ensures pending == old(pending) + [Hs(x)] && transcript == old(transcript) + [x]
    {
      pending := pending + [Hs(x)];
      transcript := transcript + [x];
    }

    method AddChangeCipherSpec()
      modifies this`pending
      ensures pending == old(pending) + [Ccs]
    {
      pending := pending + [Ccs];
    }

    /** get_message, the check of its type, and its consumption. */
    method ReceiveMessage(k: Kind, next: S) returns (ret: Wait)
      requires wait == Ok
      modifies this`state, this`inbox, this`transcript
      ensures Abs().(wait := ret) == Receive(old(Abs()), k, next)
    {
      if inbox.None? {
        return ReadMessage;
      }
      if inbox.value.Kind() != k {
        return Error;
      }
      TakeMessage();
      state := next;
      return Ok;
    }

    /** ssl_get_finished. */
    method ReceiveFinished(byServer: bool, next: S) returns (ret: Wait)
      requires wait == Ok
      modifies this`state, this`inbox, this`transcript
      ensures Abs().(wait := ret) == GetFinished(old(Abs()), byServer, next)
    {
      if inbox.None? {
        return ReadMessage;
      }
      if inbox.value.Plain? {
        return Error;
      }
      var finished := Finished(byServer, transcript);
      if inbox.value != finished {
        return Error;
      }
      TakeMessage();
      state := next;
      return Ok;
    }

    /** What ssl_run_handshake does about the last result before it calls the
        machine again: `arriving` is what the transport has for this side,
        `leaving` what it has taken from it. */
    method ResolveWait(arriving: seq<Item>, leaving: seq<Item>, e: Env) returns (rest: seq<Item>, gone: seq<Item>)
      modifies this`wait, this`inbox, this`pending
      ensures (Abs(), rest, gone) == Resolve(old(Abs()), arriving, leaving, e)
    {
      rest, gone := arriving, leaving;
      match wait
      case Flush =>
        if e.amount >= |pending| {
          gone := leaving + pending;
          pending, wait := [], Ok;
        } else {
          gone := leaving + pending[..e.amount];
          pending := pending[e.amount..];
        }
      case ReadMessage =>
        if arriving == [] { return; }
        if e.suspend {
          wait := Ok;
        } else if arriving[0].Ccs? || inbox.Some? {
          wait := Error;
        } else {
          inbox, wait, rest := Some(arriving[0].msg), Ok, arriving[1..];
        }
      case ReadCcs =>
        if arriving == [] { return; }
        if arriving[0].Hs? {
          wait := Error;
        } else {
          wait, rest := Ok, arriving[1..];
        }
      case Parked => wait := Ok;
      case EarlyReturn => wait := Ok;
      case Ok =>
      case Error =>
    }
  }
}
