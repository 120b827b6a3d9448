/** The client machine of handshake_client.cc for TLS 1.0 to 1.2, state by state,
    and the proof that it keeps to the message flow. */
module HandshakeClient {
  import opened HandshakeFlow
  import opened HandshakeSpec
  import opened HandshakeEffect

  datatype State =
    | StartConnect | EnterEarlyData | ReadServerHello | ReadServerCertificate | ReadCertificateStatus
    | VerifyServerCertificate | ReadServerKeyExchange | ReadCertificateRequest | ReadServerHelloDone
    | SendClientCertificate | SendClientKeyExchange | SendClientCertificateVerify | SendClientFinished
    | FinishFlight | ReadSessionTicket | ProcessChangeCipherSpec | ReadServerFinished
    | FinishClientHandshake | Done

  type Client = Machine<State>

  function DoStartConnect(m: Client, e: Env): Client {
    Await(Goto(Send(m, Plain(ClientHello, e.body)), EnterEarlyData), Flush)
  }

  function DoReadServerHello(c: Config, m: Client): Client {
    Receive(m, ServerHello, if c.resume then ReadSessionTicket else ReadServerCertificate)
  }

  function DoReadServerCertificate(c: Config, m: Client): Client {
    if !c.CertAuth() then Goto(m, ReadCertificateStatus)
    else if m.inbox.Some? && m.inbox.value.Plain? && m.inbox.value.body == 0 then Fail(m)
    else Receive(m, Certificate, ReadCertificateStatus)
  }

  /** A server may promise a status and send none. */
  function DoReadCertificateStatus(c: Config, m: Client): Client {
    if !c.ocsp then Goto(m, VerifyServerCertificate)
    else if m.inbox.Some? && m.inbox.value.Kind() != CertificateStatus then Goto(m, VerifyServerCertificate)
    else Receive(m, CertificateStatus, VerifyServerCertificate)
  }

  function DoVerifyServerCertificate(c: Config, m: Client, e: Env): Client {
    if c.CertAuth() && e.suspend then Await(m, Parked) else Goto(m, ReadServerKeyExchange)
  }

  function DoReadServerKeyExchange(c: Config, m: Client): Client {
    if m.inbox.Some? && m.inbox.value.Kind() != ServerKeyExchange then
      if c.ecdhe then Fail(m) else Goto(m, ReadCertificateRequest)
    else if m.inbox.Some? && !c.ecdhe && !c.psk then Fail(m)
    else Receive(m, ServerKeyExchange, ReadCertificateRequest)
  }

  function DoReadCertificateRequest(c: Config, m: Client): Client {
    if !c.CertAuth() then Goto(m, ReadServerHelloDone)
    else if m.inbox.Some? && m.inbox.value.Kind() == ServerHelloDone then Goto(m, ReadServerHelloDone)
    else
      var r := Receive(m, CertificateRequest, ReadServerHelloDone);
      if r.state.ReadServerHelloDone? then r.(certRequest := true) else r
  }

  function DoReadServerHelloDone(m: Client): Client { Receive(m, ServerHelloDone, SendClientCertificate) }

  function DoSendClientCertificate(c: Config, m: Client, e: Env): Client {
    if !m.certRequest then Goto(m, SendClientKeyExchange)
    else if e.suspend then Await(m, Parked)
    else Goto(Send(m, Plain(Certificate, ChainOf(c.clientCert, e.body))), SendClientKeyExchange)
  }

  function DoSendClientKeyExchange(m: Client, e: Env): Client {
    Goto(Send(m, Plain(ClientKeyExchange, e.body)), SendClientCertificateVerify)
  }

  function DoSendClientCertificateVerify(c: Config, m: Client, e: Env): Client {
    if !m.certRequest || !c.clientCert then Goto(m, SendClientFinished)
    else if e.suspend then Await(m, Parked)
    else Goto(Send(m, Plain(CertificateVerify, e.body)), SendClientFinished)
  }

  function DoSendClientFinished(c: Config, m: Client, e: Env): Client {
    if c.channelId && e.suspend then Await(m, Parked)
    else
      var m1 := SendCcs(m);
      var m2 := SendIf(m1, c.npn, NextProto, e.body);
      var m3 := SendIf(m2, c.channelId, ChannelId, e.body);
      Await(Goto(SendFinished(m3, false), FinishFlight), Flush)
  }

  /** A full handshake may return early for False Start. */
  function DoFinishFlight(c: Config, m: Client, e: Env): Client {
    if c.resume then Goto(m, FinishClientHandshake)
    else if e.early then Await(Goto(m, ReadSessionTicket), EarlyReturn) else Goto(m, ReadSessionTicket)
  }

  function DoReadSessionTicket(c: Config, m: Client): Client {
    if !c.ticket then Await(Goto(m, ProcessChangeCipherSpec), ReadCcs)
    else
      var r := Receive(m, NewSessionTicket, ProcessChangeCipherSpec);
      if r.state.ProcessChangeCipherSpec? then Await(r, ReadCcs) else r
  }

  /** The read cipher changes only with no message in hand. */
  function DoProcessChangeCipherSpec(m: Client): Client {
    if m.inbox.Some? then Fail(m) else Goto(m, ReadServerFinished)
  }

  function DoReadServerFinished(c: Config, m: Client): Client {
    GetFinished(m, true, if c.resume then SendClientFinished else FinishClientHandshake)
  }

  /** One turn of the loop in ssl_client_handshake. */
  function Do(c: Config, m: Client, e: Env): Client {
    match m.state
    case StartConnect => DoStartConnect(m, e)
    case EnterEarlyData => Goto(m, ReadServerHello)
    case ReadServerHello => DoReadServerHello(c, m)
    case ReadServerCertificate => DoReadServerCertificate(c, m)
    case ReadCertificateStatus => DoReadCertificateStatus(c, m)
    case VerifyServerCertificate => DoVerifyServerCertificate(c, m, e)
    case ReadServerKeyExchange => DoReadServerKeyExchange(c, m)
    case ReadCertificateRequest => DoReadCertificateRequest(c, m)
    case ReadServerHelloDone => DoReadServerHelloDone(m)
    case SendClientCertificate => DoSendClientCertificate(c, m, e)
    case SendClientKeyExchange => DoSendClientKeyExchange(m, e)
    case SendClientCertificateVerify => DoSendClientCertificateVerify(c, m, e)
    case SendClientFinished => DoSendClientFinished(c, m, e)
    case FinishFlight => DoFinishFlight(c, m, e)
    case ReadSessionTicket => DoReadSessionTicket(c, m)
    case ProcessChangeCipherSpec => DoProcessChangeCipherSpec(m)
    case ReadServerFinished => DoReadServerFinished(c, m)
    case FinishClientHandshake => Goto(m, Done)
    case Done => m
  }

  // ---- The client as a program over the flow ----

  /** How far a state is from the end. */
  function Rank(c: Config, s: State): nat {
    match s
    case StartConnect => 18 case EnterEarlyData => 17 case ReadServerHello => 16
    case ReadServerCertificate => 15 case ReadCertificateStatus => 14 case VerifyServerCertificate => 13
    case ReadServerKeyExchange => 12 case ReadCertificateRequest => 11 case ReadServerHelloDone => 10
    case SendClientCertificate => 9 case SendClientKeyExchange => 8 case SendClientCertificateVerify => 7
    case ReadSessionTicket => if c.resume then 15 else 4
    case ProcessChangeCipherSpec => if c.resume then 14 else 3
    case ReadServerFinished => if c.resume then 13 else 2
    case SendClientFinished => 6 case FinishFlight => 5 case FinishClientHandshake => 1 case Done => 0
  }

  /** What the client sends or receives in a state. */
  function Head(c: Config, s: State): seq<Slot> {
    match s
    case StartConnect => One(false, ClientHello)
    case ReadServerHello => One(true, ServerHello)
    case ReadServerCertificate => Opt(c.CertAuth(), true, Certificate)
    case ReadCertificateStatus => Opt(c.ocsp, true, CertificateStatus)
    case ReadServerKeyExchange => Opt(c.SendsKeyExchange(), true, ServerKeyExchange)
    case ReadCertificateRequest => Opt(c.RequestsCert(), true, CertificateRequest)
    case ReadServerHelloDone => One(true, ServerHelloDone)
    case SendClientCertificate => Opt(c.RequestsCert(), false, Certificate)
    case SendClientKeyExchange => One(false, ClientKeyExchange)
    case SendClientCertificateVerify => Opt(c.RequestsCert() && c.clientCert, false, CertificateVerify)
    case SendClientFinished => ClientTail(c)
    case ReadSessionTicket => Opt(c.ticket, true, NewSessionTicket) + Change(true)
    case ReadServerFinished => One(true, FinishedKind)
    case EnterEarlyData => [] case VerifyServerCertificate => [] case FinishFlight => []
    case ProcessChangeCipherSpec => [] case FinishClientHandshake => [] case Done => []
  }

  function Succ(c: Config, s: State): State {
    match s
    case StartConnect => EnterEarlyData
    case EnterEarlyData => ReadServerHello
    case ReadServerHello => if c.resume then ReadSessionTicket else ReadServerCertificate
    case ReadServerCertificate => ReadCertificateStatus
    case ReadCertificateStatus => VerifyServerCertificate
    case VerifyServerCertificate => ReadServerKeyExchange
    case ReadServerKeyExchange => ReadCertificateRequest
    case ReadCertificateRequest => ReadServerHelloDone
    case ReadServerHelloDone => SendClientCertificate
    case SendClientCertificate => SendClientKeyExchange
    case SendClientKeyExchange => SendClientCertificateVerify
    case SendClientCertificateVerify => SendClientFinished
    case SendClientFinished => FinishFlight
    case FinishFlight => if c.resume then FinishClientHandshake else ReadSessionTicket
    case ReadSessionTicket => ProcessChangeCipherSpec
    case ProcessChangeCipherSpec => ReadServerFinished
    case ReadServerFinished => if c.resume then SendClientFinished else FinishClientHandshake
    case FinishClientHandshake => Done
    case Done => Done
  }

  /** What is left of the flow when the client enters a state. */
  function Rest(c: Config, s: State): seq<Slot>
    decreases Rank(c, s)
  {
    if s.Done? then [] else Head(c, s) + Rest(c, Succ(c, s))
  }

  lemma Unfold(c: Config, s: State)
    ensures Rest(c, s) == if s.Done? then [] else Head(c, s) + Rest(c, Succ(c, s))
  {}

  lemma Ends(c: Config)
    ensures Rest(c, SendClientFinished) == ClientTail(c) + if c.resume then [] else ServerTail(c)
    ensures Rest(c, ReadSessionTicket) == ServerTail(c) + if c.resume then ClientTail(c) else []
  {
    hide Rest, Opt, One, Change, ClientTail;
    Unfold(c, SendClientFinished); Unfold(c, FinishFlight); Unfold(c, FinishClientHandshake); Unfold(c, Done);
    EndsRead(c);
  }

  /** What is read last. */
  lemma EndsRead(c: Config)
    ensures Rest(c, ReadSessionTicket) == ServerTail(c) + if c.resume then Rest(c, SendClientFinished) else []
  {
    hide Rest, Opt, One, Change;
    Unfold(c, ReadSessionTicket); Unfold(c, ProcessChangeCipherSpec); Unfold(c, ReadServerFinished);
    Unfold(c, FinishClientHandshake); Unfold(c, Done);
    assert Rest(c, ProcessChangeCipherSpec) == Rest(c, ReadServerFinished);
  }

  lemma ReadsFlight(c: Config)
    ensures Rest(c, ReadServerCertificate) == ServerFlight(c) + Rest(c, SendClientCertificate)
  {
    hide Rest, Opt, One, Change;
    Unfold(c, ReadServerCertificate); Unfold(c, ReadCertificateStatus); Unfold(c, VerifyServerCertificate);
    Unfold(c, ReadServerKeyExchange); Unfold(c, ReadCertificateRequest); Unfold(c, ReadServerHelloDone);
    assert Rest(c, VerifyServerCertificate) == Rest(c, ReadServerKeyExchange);
    Reassociate(Head(c, ReadServerCertificate), Head(c, ReadCertificateStatus), Head(c, ReadServerKeyExchange),
                Head(c, ReadCertificateRequest), Rest(c, ReadServerHelloDone));
  }

  lemma SendsFlight(c: Config)
    ensures Rest(c, SendClientCertificate) == ClientFlight(c) + Rest(c, SendClientFinished)
  {
    hide Rest, Opt, One, Change;
    Unfold(c, SendClientCertificate); Unfold(c, SendClientKeyExchange); Unfold(c, SendClientCertificateVerify);
  }

  /** The client's program is the flow of the standards. */
  lemma FollowsFlow(c: Config)
    ensures Rest(c, StartConnect) == Flow(c)
  {
    hide Rest, Opt, One, Change, ServerFlight, ClientFlight, ServerTail, ClientTail;
    Unfold(c, StartConnect); Unfold(c, EnterEarlyData); Unfold(c, ReadServerHello);
    assert Rest(c, EnterEarlyData) == Rest(c, ReadServerHello);
    Ends(c);
    ReadsFlight(c);
    SendsFlight(c);
  }

  // ---- Each state keeps to the flow ----

  /** What the machine still has to send or receive. */
  function RestOf(c: Config, m: Client): seq<Slot> {
    (if m.wait.ReadCcs? then Change(true) else []) + Rest(c, m.state)
  }

  /** States that only a full handshake goes through. */
  predicate FullOnly(s: State) {
    s.ReadServerCertificate? || s.ReadCertificateStatus? || s.VerifyServerCertificate? || s.ReadServerKeyExchange?
    || s.ReadCertificateRequest? || s.ReadServerHelloDone? || s.SendClientCertificate? || s.SendClientKeyExchange?
    || s.SendClientCertificateVerify?
  }

  /** States in which the client cannot have seen a CertificateRequest. */
  predicate Early(s: State) {
    s.StartConnect? || s.EnterEarlyData? || s.ReadServerHello? || s.ReadServerCertificate? || s.ReadCertificateStatus?
    || s.VerifyServerCertificate? || s.ReadServerKeyExchange? || s.ReadCertificateRequest?
  }

  /** States in which the client may have built part of its flight. */
  predicate Building(s: State) {
    s.SendClientKeyExchange? || s.SendClientCertificateVerify? || s.SendClientFinished?
  }

  /** The client is where it can be: it waits for a message only where the flow has
      one for it, and has unsent messages only while it builds or writes a flight. */
  ghost predicate Ok(c: Config, m: Client) {
    && m.wait != Error
    && m.certRequest == (!Early(m.state) && c.RequestsCert())
    && (FullOnly(m.state) ==> !c.resume)
    && (m.wait == ReadMessage ==>
          m.inbox.None? && m.state != ProcessChangeCipherSpec && Expects(Rest(c, m.state), true))
    && (m.wait == ReadCcs ==> m.state == ProcessChangeCipherSpec)
    && (m.state == ProcessChangeCipherSpec ==> m.inbox.None?)
    && (m.pending != [] ==> m.wait == Flush || (Building(m.state) && (m.wait == Wait.Ok || m.wait == Parked)))
  }

  ghost predicate Ready(c: Config, m: Client) {
    && c.Agreed() && Ok(c, m) && m.wait.Ok? && !m.state.Done?
    && InboxFits(c, false, m, Rest(c, m.state))
  }

  ghost predicate Good(c: Config, m: Client, r: Client) {
    Ok(c, r) && Follows(c, false, m, r, RestOf(c, m), RestOf(c, r))
  }

  /** Staying, or moving on from a state that has nothing of the flow. */
  lemma Idles(c: Config, m: Client, r: Client)
    requires Ready(c, m) && Ok(c, r) && r.inbox == m.inbox && r.pending == m.pending && r.transcript == m.transcript
    requires RestOf(c, r) == Rest(c, m.state)
    ensures Good(c, m, r)
  {
    hide Rest;
    AddedNone(c, false, m, r, RestOf(c, m), RestOf(c, r));
  }

  /** Receiving the one message of a state. */
  lemma Receives(c: Config, m: Client, k: Kind, s: State)
    requires Ready(c, m) && s == Succ(c, m.state) && Head(c, m.state) == One(true, k)
    requires m.pending == [] && s != ProcessChangeCipherSpec && s != m.state
    requires FullOnly(s) ==> !c.resume
    requires m.certRequest == (!Early(s) && c.RequestsCert())
    ensures Good(c, m, Receive(m, k, s))
  {
    hide Rest;
    Unfold(c, m.state);
    var r := Receive(m, k, s);
    if m.inbox.None? { Idles(c, m, r); }
  }

  /** Sending the one message of a state. */
  lemma Sends(c: Config, m: Client, x: Msg, r: Client)
    requires Ready(c, m) && Head(c, m.state) == One(false, x.Kind()) && Honest(c, false, m.transcript, Hs(x))
    requires r == Send(m, x).(state := Succ(c, m.state), wait := r.wait) && Ok(c, r) && r.wait != ReadCcs
    ensures Good(c, m, r)
  {
    hide Rest, Ok, Head, Succ, Added, Honest;
    Unfold(c, m.state);
    SendAdds(c, false, m, x, Rest(c, r.state));
    SameAdded(c, false, m, Send(m, x), r, RestOf(c, m), RestOf(c, r));
  }

  /** Where the client may look at a message of the server's flight, there is one. */
  lemma FlightHeads(c: Config)
    ensures Rest(c, ReadServerHelloDone)[..1] == One(true, ServerHelloDone)
    ensures !c.RequestsCert() ==> Rest(c, ReadCertificateRequest) == Rest(c, ReadServerHelloDone)
    ensures c.RequestsCert() ==> Rest(c, ReadCertificateRequest)[..1] == One(true, CertificateRequest)
    ensures !c.SendsKeyExchange() ==> Rest(c, ReadServerKeyExchange) == Rest(c, ReadCertificateRequest)
    ensures c.SendsKeyExchange() ==> Rest(c, ReadServerKeyExchange)[..1] == One(true, ServerKeyExchange)
    ensures Expects(Rest(c, ReadServerKeyExchange), true) && Expects(Rest(c, ReadCertificateRequest), true)
  {
    hide Rest;
    Unfold(c, ReadServerKeyExchange); Unfold(c, ReadCertificateRequest); Unfold(c, ReadServerHelloDone);
  }

  lemma ReadServerCertificateFollows(c: Config, m: Client)
    requires Ready(c, m) && m.state == ReadServerCertificate
    ensures Good(c, m, DoReadServerCertificate(c, m))
  {
    hide Rest, Good;
    Unfold(c, m.state);
    if c.CertAuth() { Receives(c, m, Certificate, ReadCertificateStatus); }
    else { Idles(c, m, DoReadServerCertificate(c, m)); }
  }

  lemma ReadCertificateStatusFollows(c: Config, m: Client)
    requires Ready(c, m) && m.state == ReadCertificateStatus
    ensures Good(c, m, DoReadCertificateStatus(c, m))
  {
    hide Rest, Good;
    Unfold(c, m.state);
    if c.ocsp { Receives(c, m, CertificateStatus, VerifyServerCertificate); }
    else { Idles(c, m, DoReadCertificateStatus(c, m)); }
  }

  lemma ReadServerKeyExchangeFollows(c: Config, m: Client)
    requires Ready(c, m) && m.state == ReadServerKeyExchange
    ensures Good(c, m, DoReadServerKeyExchange(c, m))
  {
    hide Rest, Good;
    Unfold(c, m.state);
    FlightHeads(c);
    if m.inbox.Some? { assert Rest(c, m.state)[..1] == [SlotOf(true, Hs(m.inbox.value))]; }
    if c.SendsKeyExchange() { Receives(c, m, ServerKeyExchange, ReadCertificateRequest); }
    else { Idles(c, m, DoReadServerKeyExchange(c, m)); }
  }

  lemma ReadCertificateRequestFollows(c: Config, m: Client)
    requires Ready(c, m) && m.state == ReadCertificateRequest
    ensures Good(c, m, DoReadCertificateRequest(c, m))
  {
    hide Rest;
    Unfold(c, m.state);
    FlightHeads(c);
    if m.inbox.Some? { assert Rest(c, m.state)[..1] == [SlotOf(true, Hs(m.inbox.value))]; }
    if m.inbox.None? || !c.RequestsCert() { Idles(c, m, DoReadCertificateRequest(c, m)); }
  }

  lemma SendClientCertificateFollows(c: Config, m: Client, e: Env)
    requires Ready(c, m) && m.state == SendClientCertificate
    ensures Good(c, m, DoSendClientCertificate(c, m, e))
  {
    hide Rest, Good;
    Unfold(c, m.state);
    if m.certRequest && !e.suspend {
      Sends(c, m, Plain(Certificate, ChainOf(c.clientCert, e.body)), DoSendClientCertificate(c, m, e));
    } else {
      Idles(c, m, DoSendClientCertificate(c, m, e));
    }
  }

  lemma SendClientCertificateVerifyFollows(c: Config, m: Client, e: Env)
    requires Ready(c, m) && m.state == SendClientCertificateVerify
    ensures Good(c, m, DoSendClientCertificateVerify(c, m, e))
  {
    hide Rest, Good;
    Unfold(c, m.state);
    if m.certRequest && c.clientCert && !e.suspend {
      Sends(c, m, Plain(CertificateVerify, e.body), DoSendClientCertificateVerify(c, m, e));
    } else {
      Idles(c, m, DoSendClientCertificateVerify(c, m, e));
    }
  }

  /** The client's ChangeCipherSpec, extension messages and Finished. */
  lemma SendClientFinishedFollows(c: Config, m: Client, e: Env)
    requires Ready(c, m) && m.state == SendClientFinished
    ensures Good(c, m, DoSendClientFinished(c, m, e))
  {
    hide Rest, Added, Took, Send, SendIf, SendCcs, SendFinished, ClientTail, Honest, Expects;
    var r := DoSendClientFinished(c, m, e);
    Unfold(c, m.state);
    if r.state == m.state {
      Idles(c, m, r);
    } else {
      assert RestOf(c, r) == Rest(c, FinishFlight) && RestOf(c, m) == ClientTail(c) + Rest(c, FinishFlight);
      TailAdded(c, m, e, Rest(c, FinishFlight));
      var m3 := SendIf(SendIf(SendCcs(m), c.npn, NextProto, e.body), c.channelId, ChannelId, e.body);
      SameAdded(c, false, m, SendFinished(m3, false), r, RestOf(c, m), RestOf(c, r));
    }
  }

  lemma TailAdded(c: Config, m: Client, e: Env, rest: seq<Slot>)
    ensures var m3 := SendIf(SendIf(SendCcs(m), c.npn, NextProto, e.body), c.channelId, ChannelId, e.body);
            Added(c, false, m, SendFinished(m3, false), ClientTail(c) + rest, rest)
  {
    hide Added, Opt, One, Change, Send, SendIf, SendCcs;
    var m1 := SendCcs(m);
    var m2 := SendIf(m1, c.npn, NextProto, e.body);
    var m3 := SendIf(m2, c.channelId, ChannelId, e.body);
    var r3 := One(false, FinishedKind) + rest;
    var r2 := Opt(c.channelId, false, ChannelId) + r3;
    var r1 := Opt(c.npn, false, NextProto) + r2;
    var r0 := Change(false) + r1;
    SendCcsAdds(c, false, m, r1);
    SendIfAdds(c, false, m1, c.npn, NextProto, e.body, r2);
    SendIfAdds(c, false, m2, c.channelId, ChannelId, e.body, r3);
    SendAdds(c, false, m3, Finished(false, m3.transcript), rest);
    AddedBoth(c, false, m, m1, m2, r0, r1, r2);
    AddedBoth(c, false, m, m2, m3, r0, r2, r3);
    AddedBoth(c, false, m, m3, SendFinished(m3, false), r0, r3, rest);
    Reassociate(Change(false), Opt(c.npn, false, NextProto), Opt(c.channelId, false, ChannelId),
                One(false, FinishedKind), rest);
  }

  lemma ReadSessionTicketFollows(c: Config, m: Client)
    requires Ready(c, m) && m.state == ReadSessionTicket
    ensures Good(c, m, DoReadSessionTicket(c, m))
  {
    hide Rest;
    Unfold(c, m.state);
    if m.inbox.None? { Idles(c, m, DoReadSessionTicket(c, m)); }
  }

  lemma ReadServerFinishedFollows(c: Config, m: Client)
    requires Ready(c, m) && m.state == ReadServerFinished
    ensures Good(c, m, DoReadServerFinished(c, m))
  {
    hide Rest;
    Unfold(c, m.state);
    if m.inbox.None? { Idles(c, m, DoReadServerFinished(c, m)); }
  }

  /** The states that neither send nor receive. */
  lemma SilentFollows(c: Config, m: Client, e: Env)
    requires Ready(c, m)
    ensures m.state == EnterEarlyData ==> Good(c, m, Goto(m, ReadServerHello))
    ensures m.state == VerifyServerCertificate ==> Good(c, m, DoVerifyServerCertificate(c, m, e))
    ensures m.state == FinishFlight ==> Good(c, m, DoFinishFlight(c, m, e))
    ensures m.state == ProcessChangeCipherSpec ==> Good(c, m, DoProcessChangeCipherSpec(m))
    ensures m.state == FinishClientHandshake ==> Good(c, m, Goto(m, Done))
  {
    hide Rest, Good;
    Unfold(c, m.state);
    if m.state == EnterEarlyData { Idles(c, m, Goto(m, ReadServerHello)); }
    else if m.state == VerifyServerCertificate { Idles(c, m, DoVerifyServerCertificate(c, m, e)); }
    else if m.state == FinishFlight { Idles(c, m, DoFinishFlight(c, m, e)); }
    else if m.state == ProcessChangeCipherSpec { Idles(c, m, DoProcessChangeCipherSpec(m)); }
    else if m.state == FinishClientHandshake { Idles(c, m, Goto(m, Done)); }
  }

  lemma HellosFollow(c: Config, m: Client, e: Env)
    requires Ready(c, m)
    ensures m.state == StartConnect ==> Good(c, m, DoStartConnect(m, e))
    ensures m.state == ReadServerHello ==> Good(c, m, DoReadServerHello(c, m))
    ensures m.state == ReadServerHelloDone ==> Good(c, m, DoReadServerHelloDone(m))
    ensures m.state == SendClientKeyExchange ==> Good(c, m, DoSendClientKeyExchange(m, e))
  {
    hide Rest, Good, InboxFits, Expects;
    if m.state == StartConnect { Sends(c, m, Plain(ClientHello, e.body), DoStartConnect(m, e)); }
    else if m.state == ReadServerHello {
      Receives(c, m, ServerHello, if c.resume then ReadSessionTicket else ReadServerCertificate);
    }
    else if m.state == ReadServerHelloDone { Receives(c, m, ServerHelloDone, SendClientCertificate); }
    else if m.state == SendClientKeyExchange {
      Sends(c, m, Plain(ClientKeyExchange, e.body), DoSendClientKeyExchange(m, e));
    }
  }

  /** Every call of a do_* function keeps to the flow and never fails. */
  lemma DoFollows(c: Config, m: Client, e: Env)
    requires Ready(c, m)
    ensures Good(c, m, Do(c, m, e))
  {
    hide Rest, Good, Ok, InboxFits;
    SilentFollows(c, m, e);
    HellosFollow(c, m, e);
    match m.state
    case ReadServerCertificate => ReadServerCertificateFollows(c, m);
    case ReadCertificateStatus => ReadCertificateStatusFollows(c, m);
    case ReadServerKeyExchange => ReadServerKeyExchangeFollows(c, m);
    case ReadCertificateRequest => ReadCertificateRequestFollows(c, m);
    case SendClientCertificate => SendClientCertificateFollows(c, m, e);
    case SendClientCertificateVerify => SendClientCertificateVerifyFollows(c, m, e);
    case SendClientFinished => SendClientFinishedFollows(c, m, e);
    case ReadSessionTicket => ReadSessionTicketFollows(c, m);
    case ReadServerFinished => ReadServerFinishedFollows(c, m);
    case _ =>
  }

  // ---- Progress ----

  /** A call fails, moves on to the next state, asks for a message it does not have,
      or is suspended. */
  predicate Moves(c: Config, m: Client, r: Client, e: Env) {
    || r.wait == Error
    || r.state == Succ(c, m.state)
    || (r.state == m.state && r.wait == ReadMessage && m.inbox.None?)
    || (r.state == m.state && r.wait == Parked && e.suspend)
  }

  lemma MovesFull(c: Config, m: Client, e: Env)
    requires m.wait.Ok? && !m.state.Done? && FullOnly(m.state)
    ensures Moves(c, m, Do(c, m, e), e)
  {
    hide Receive, GetFinished, Send, SendIf, SendFinished, Rest, Head;
  }

  lemma MovesCommon(c: Config, m: Client, e: Env)
    requires m.wait.Ok? && !m.state.Done? && !FullOnly(m.state)
    ensures Moves(c, m, Do(c, m, e), e)
  {
    hide Receive, GetFinished, Send, SendIf, SendFinished, Rest, Head;
  }

  lemma DoMoves(c: Config, m: Client, e: Env)
    requires m.wait.Ok? && !m.state.Done?
    ensures Moves(c, m, Do(c, m, e), e)
  {
    hide Do, Moves;
    if FullOnly(m.state) { MovesFull(c, m, e); } else { MovesCommon(c, m, e); }
  }

  lemma SuccCloser(c: Config, s: State)
    requires !s.Done?
    ensures Rank(c, Succ(c, s)) < Rank(c, s)
  {}
}
