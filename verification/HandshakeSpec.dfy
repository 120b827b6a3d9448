/** What the two handshake machines have in common: messages in hand and in the
    flight, the transcript, and the resolution of what a machine waits for. */
module HandshakeSpec {
  import opened Wrappers
  import opened HandshakeFlow

  datatype Wait = Ok | Error | Flush | ReadMessage | ReadCcs | Parked | EarlyReturn

  /** A machine: its state, what it waits for, the message it was given and has not
      consumed, the flight it has not written, and its transcript. `certRequest` is
      hs->cert_request; `peerCert` says that the peer sent a certificate. */
  datatype Machine<S> = Machine(state: S, wait: Wait, inbox: Option<Msg>, pending: seq<Item>,
                                transcript: seq<Msg>, certRequest: bool, peerCert: bool)

  /** The environment's choices: an asynchronous callback is not ready, how much of
      the flight the transport takes, the body of the next message, an early return. */
  datatype Env = Env(suspend: bool, amount: nat, body: nat, early: bool)

  function Goto<S>(m: Machine<S>, s: S): Machine<S> { m.(state := s) }

  function Fail<S>(m: Machine<S>): Machine<S> { m.(wait := Error) }

  function Await<S>(m: Machine<S>, w: Wait): Machine<S> { m.(wait := w) }

  /** The current message hashed and consumed. */
  function Consume<S>(m: Machine<S>, s: S): Machine<S>
    requires m.inbox.Some?
  {
    m.(state := s, inbox := None, transcript := m.transcript + [m.inbox.value])
  }

  /** get_message, ssl_check_message_type, ssl_hash_message and next_message. */
  function Receive<S>(m: Machine<S>, k: Kind, s: S): (r: Machine<S>)
    ensures if m.inbox.None? then r == Await(m, ReadMessage) else r.wait == Error || r.state == s
  {
    if m.inbox.None? then Await(m, ReadMessage)
    else if m.inbox.value.Kind() != k then Fail(m)
    else Consume(m, s)
  }

  /** A message added to the flight and to the transcript. */
  function Send<S>(m: Machine<S>, x: Msg): (r: Machine<S>)
    ensures r.state == m.state && r.wait == m.wait && r.inbox == m.inbox
    ensures r.certRequest == m.certRequest && r.peerCert == m.peerCert
  {
    m.(pending := m.pending + [Hs(x)], transcript := m.transcript + [x])
  }

  function SendIf<S>(m: Machine<S>, b: bool, k: Kind, body: nat): (r: Machine<S>)
    ensures r.state == m.state && r.wait == m.wait && r.inbox == m.inbox
    ensures r.certRequest == m.certRequest && r.peerCert == m.peerCert
  {
    if b then Send(m, Plain(k, body)) else m
  }

  function SendCcs<S>(m: Machine<S>): (r: Machine<S>)
    ensures r.state == m.state && r.wait == m.wait && r.inbox == m.inbox
    ensures r.certRequest == m.certRequest && r.peerCert == m.peerCert
  {
    m.(pending := m.pending + [Ccs])
  }

  /** ssl_send_finished. */
  function SendFinished<S>(m: Machine<S>, byServer: bool): (r: Machine<S>)
    ensures r.state == m.state && r.wait == m.wait && r.inbox == m.inbox
    ensures r.certRequest == m.certRequest && r.peerCert == m.peerCert
  {
    Send(m, Finished(byServer, m.transcript))
  }

  /** ssl_get_finished: the peer's Finished must cover this side's transcript. */
  function GetFinished<S>(m: Machine<S>, byServer: bool, s: S): (r: Machine<S>)
    ensures if m.inbox.None? then r == Await(m, ReadMessage) else r.wait == Error || r.state == s
  {
    if m.inbox.None? then Await(m, ReadMessage)
    else if m.inbox.value != Finished(byServer, m.transcript) then Fail(m)
    else Consume(m, s)
  }

  /** The body of a Certificate: the number of certificates. */
  function ChainOf(hasCert: bool, body: nat): nat { if hasCert then body + 1 else 0 }

  /** ssl_run_handshake resolves what the machine waits for: the flight goes out, as
      far as the transport takes it; a record comes in, if there is one and it is
      of the right type; or the callback is tried again. */
  function Resolve<S>(m: Machine<S>, arriving: seq<Item>, leaving: seq<Item>, e: Env): (r: (Machine<S>, seq<Item>, seq<Item>)) {
    match m.wait
    case Flush =>
      if e.amount >= |m.pending| then (m.(pending := [], wait := Ok), arriving, leaving + m.pending)
      else (m.(pending := m.pending[e.amount..]), arriving, leaving + m.pending[..e.amount])
    case ReadMessage =>
      if arriving == [] then (m, arriving, leaving)
      else if e.suspend then (m.(wait := Ok), arriving, leaving)  // part of the message
      else if arriving[0].Ccs? || m.inbox.Some? then (Fail(m), arriving, leaving)
      else (m.(inbox := Some(arriving[0].msg), wait := Ok), arriving[1..], leaving)
    case ReadCcs =>
      if arriving == [] then (m, arriving, leaving)
      else if arriving[0].Hs? then (Fail(m), arriving, leaving)
      else (m.(wait := Ok), arriving[1..], leaving)
    case Parked => (m.(wait := Ok), arriving, leaving)
    case EarlyReturn => (m.(wait := Ok), arriving, leaving)
    case Ok => (m, arriving, leaving)
    case Error => (m, arriving, leaving)
  }

  /** A machine before its first call. */
  function Fresh<S>(s: S): Machine<S> { Machine(s, Ok, None, [], [], false, false) }

  /** How much a machine has to do before its next call of a do_* function. */
  function Weight<S>(m: Machine<S>): nat {
    match m.wait
    case Ok => if m.inbox.Some? then 1 else 3
    case ReadMessage => 2
    case ReadCcs => 6
    case Flush => 7
    case Parked => 7
    case EarlyReturn => 7
    case Error => 0
  }

  /** An environment that holds nothing up. */
  function Willing(amount: nat): Env { Env(false, amount, 0, false) }

  /** A machine that waits for something it can have comes closer. */
  lemma ResolveCloser<S>(m: Machine<S>, arriving: seq<Item>, leaving: seq<Item>)
    requires m.wait != Error && m.wait != Ok
    requires m.wait == ReadMessage || m.wait == ReadCcs ==> arriving != []
    ensures var r := Resolve(m, arriving, leaving, Willing(|m.pending|)).0;
            r.wait == Error || (r.state == m.state && Weight(r) < Weight(m))
  {}

  /** What keeps waiting waits for the transport. */
  lemma ResolveBlocks<S>(m: Machine<S>, arriving: seq<Item>, leaving: seq<Item>, e: Env)
    ensures var (r, rest, gone) := Resolve(m, arriving, leaving, e);
            || r.wait.Ok? || r.wait.Error? || r.wait.Flush?
            || ((r.wait.ReadMessage? || r.wait.ReadCcs?) && rest == [])
  {}
}
