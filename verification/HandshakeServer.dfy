/** The server machine of handshake_server.cc for TLS 1.0 to 1.2, state by state,
    and the proof that it keeps to the message flow. */
module HandshakeServer {
  import opened HandshakeFlow
  import opened HandshakeSpec
  import opened HandshakeEffect

  datatype State =
    | StartAccept | ReadClientHello | SelectCertificate | SelectParameters | SendServerHello
    | SendServerCertificate | SendServerKeyExchange | SendServerHelloDone | ReadClientCertificate
    | VerifyClientCertificate | ReadClientKeyExchange | ReadClientCertificateVerify | ReadChangeCipherSpec
    | ProcessChangeCipherSpec | ReadNextProto | ReadChannelId | ReadClientFinished | SendServerFinished
    | FinishServerHandshake | Done

  type Server = Machine<State>

  function DoReadClientHello(m: Server, e: Env): Server {
    if m.inbox.None? then Await(m, ReadMessage)
    else if m.inbox.value.Kind() != ClientHello then Fail(m)
    else if e.suspend then Await(m, Parked) else Goto(m, SelectCertificate)
  }

  function DoSelectCertificate(m: Server, e: Env): Server {
    if m.inbox.None? then Await(m, ReadMessage)
    else if e.suspend then Await(m, Parked) else Goto(m, SelectParameters)
  }

  /** The ClientHello is hashed and consumed only here. */
  function DoSelectParameters(c: Config, m: Server, e: Env): Server {
    if m.inbox.None? then Await(m, ReadMessage)
    else if e.suspend then Await(m, Parked)
    else Consume(m, SendServerHello).(certRequest := c.RequestsCert())
  }

  function DoSendServerHello(c: Config, m: Server, e: Env): Server {
    Goto(Send(m, Plain(ServerHello, e.body)), if c.resume then SendServerFinished else SendServerCertificate)
  }

  function DoSendServerCertificate(c: Config, m: Server, e: Env): Server {
    if c.CertAuth() then
      var m1 := Send(m, Plain(Certificate, ChainOf(true, e.body)));
      Goto(SendIf(m1, c.ocsp, CertificateStatus, e.body), SendServerKeyExchange)
    else Goto(m, SendServerKeyExchange)
  }

  function DoSendServerKeyExchange(c: Config, m: Server, e: Env): Server {
    if !c.SendsKeyExchange() then Goto(m, SendServerHelloDone)
    else if c.CertAuth() && e.suspend then Await(m, Parked)
    else Goto(Send(m, Plain(ServerKeyExchange, e.body)), SendServerHelloDone)
  }

  function DoSendServerHelloDone(m: Server, e: Env): Server {
    var m1 := SendIf(m, m.certRequest, CertificateRequest, e.body);
    Await(Goto(Send(m1, Plain(ServerHelloDone, e.body)), ReadClientCertificate), Flush)
  }

  function DoReadClientCertificate(c: Config, m: Server): Server {
    if !m.certRequest then Goto(m, VerifyClientCertificate)
    else if m.inbox.Some? && m.inbox.value.Plain? && m.inbox.value.body == 0 && c.failIfNoCert then Fail(m)
    else
      var r := Receive(m, Certificate, VerifyClientCertificate);
      if r.state.VerifyClientCertificate? then r.(peerCert := m.inbox.Some? && m.inbox.value.Plain? && m.inbox.value.body > 0)
      else r
  }

  function DoVerifyClientCertificate(m: Server, e: Env): Server {
    if m.peerCert && e.suspend then Await(m, Parked) else Goto(m, ReadClientKeyExchange)
  }

  /** An RSA decryption may be asynchronous; the message is hashed after it. */
  function DoReadClientKeyExchange(c: Config, m: Server, e: Env): Server {
    if m.inbox.Some? && m.inbox.value.Kind() == ClientKeyExchange && !c.ecdhe && !c.psk && e.suspend
    then Await(m, Parked)
    else Receive(m, ClientKeyExchange, ReadClientCertificateVerify)
  }

  function DoReadClientCertificateVerify(m: Server): Server {
    if !m.peerCert then Goto(m, ReadChangeCipherSpec) else Receive(m, CertificateVerify, ReadChangeCipherSpec)
  }

  function DoReadChangeCipherSpec(m: Server): Server { Await(Goto(m, ProcessChangeCipherSpec), ReadCcs) }

  /** The read cipher changes only with no message in hand. */
  function DoProcessChangeCipherSpec(m: Server): Server {
    if m.inbox.Some? then Fail(m) else Goto(m, ReadNextProto)
  }

  function DoReadNextProto(c: Config, m: Server): Server {
    if !c.npn then Goto(m, ReadChannelId) else Receive(m, NextProto, ReadChannelId)
  }

  function DoReadChannelId(c: Config, m: Server): Server {
    if !c.channelId then Goto(m, ReadClientFinished) else Receive(m, ChannelId, ReadClientFinished)
  }

  function DoReadClientFinished(c: Config, m: Server): Server {
    GetFinished(m, false, if c.resume then FinishServerHandshake else SendServerFinished)
  }

  function DoSendServerFinished(c: Config, m: Server, e: Env): Server {
    var m1 := SendIf(m, c.ticket, NewSessionTicket, e.body);
    Await(Goto(SendFinished(SendCcs(m1), true), if c.resume then ReadChangeCipherSpec else FinishServerHandshake),
          Flush)
  }

  /** One turn of the loop in ssl_server_handshake. */
  function Do(c: Config, m: Server, e: Env): Server {
    match m.state
    case StartAccept => Goto(m, ReadClientHello)
    case ReadClientHello => DoReadClientHello(m, e)
    case SelectCertificate => DoSelectCertificate(m, e)
    case SelectParameters => DoSelectParameters(c, m, e)
    case SendServerHello => DoSendServerHello(c, m, e)
    case SendServerCertificate => DoSendServerCertificate(c, m, e)
    case SendServerKeyExchange => DoSendServerKeyExchange(c, m, e)
    case SendServerHelloDone => DoSendServerHelloDone(m, e)
    case ReadClientCertificate => DoReadClientCertificate(c, m)
    case VerifyClientCertificate => DoVerifyClientCertificate(m, e)
    case ReadClientKeyExchange => DoReadClientKeyExchange(c, m, e)
    case ReadClientCertificateVerify => DoReadClientCertificateVerify(m)
    case ReadChangeCipherSpec => DoReadChangeCipherSpec(m)
    case ProcessChangeCipherSpec => DoProcessChangeCipherSpec(m)
    case ReadNextProto => DoReadNextProto(c, m)
    case ReadChannelId => DoReadChannelId(c, m)
    case ReadClientFinished => DoReadClientFinished(c, m)
    case SendServerFinished => DoSendServerFinished(c, m, e)
    case FinishServerHandshake => Goto(m, Done)
    case Done => m
  }

  // ---- The server as a program over the flow ----

  function Rank(c: Config, s: State): nat {
    match s
    case StartAccept => 19 case ReadClientHello => 18 case SelectCertificate => 17 case SelectParameters => 16
    case SendServerHello => 15 case SendServerCertificate => 14 case SendServerKeyExchange => 13
    case SendServerHelloDone => 12 case ReadClientCertificate => 11 case VerifyClientCertificate => 10
    case ReadClientKeyExchange => 9 case ReadClientCertificateVerify => 8
    case SendServerFinished => if c.resume then 14 else 2
    case ReadChangeCipherSpec => 7 case ProcessChangeCipherSpec => 6 case ReadNextProto => 5 case ReadChannelId => 4
    case ReadClientFinished => 3 case FinishServerHandshake => 1 case Done => 0
  }

  /** What the server sends or receives in a state. */
  function Head(c: Config, s: State): seq<Slot> {
    match s
    case SelectParameters => One(false, ClientHello)
    case SendServerHello => One(true, ServerHello)
    case SendServerCertificate => Opt(c.CertAuth(), true, Certificate) + Opt(c.ocsp, true, CertificateStatus)
    case SendServerKeyExchange => Opt(c.SendsKeyExchange(), true, ServerKeyExchange)
    case SendServerHelloDone => Opt(c.RequestsCert(), true, CertificateRequest) + One(true, ServerHelloDone)
    case ReadClientCertificate => Opt(c.RequestsCert(), false, Certificate)
    case ReadClientKeyExchange => One(false, ClientKeyExchange)
    case ReadClientCertificateVerify => Opt(c.RequestsCert() && c.clientCert, false, CertificateVerify)
    case ReadChangeCipherSpec => Change(false)
    case ReadNextProto => Opt(c.npn, false, NextProto)
    case ReadChannelId => Opt(c.channelId, false, ChannelId)
    case ReadClientFinished => One(false, FinishedKind)
    case SendServerFinished => ServerTail(c)
    case StartAccept => [] case ReadClientHello => [] case SelectCertificate => []
    case VerifyClientCertificate => [] case ProcessChangeCipherSpec => [] case FinishServerHandshake => [] case Done => []
  }

  function Succ(c: Config, s: State): State {
    match s
    case StartAccept => ReadClientHello
    case ReadClientHello => SelectCertificate
    case SelectCertificate => SelectParameters
    case SelectParameters => SendServerHello
    case SendServerHello => if c.resume then SendServerFinished else SendServerCertificate
    case SendServerCertificate => SendServerKeyExchange
    case SendServerKeyExchange => SendServerHelloDone
    case SendServerHelloDone => ReadClientCertificate
    case ReadClientCertificate => VerifyClientCertificate
    case VerifyClientCertificate => ReadClientKeyExchange
    case ReadClientKeyExchange => ReadClientCertificateVerify
    case ReadClientCertificateVerify => ReadChangeCipherSpec
    case ReadChangeCipherSpec => ProcessChangeCipherSpec
    case ProcessChangeCipherSpec => ReadNextProto
    case ReadNextProto => ReadChannelId
    case ReadChannelId => ReadClientFinished
    case ReadClientFinished => if c.resume then FinishServerHandshake else SendServerFinished
    case SendServerFinished => if c.resume then ReadChangeCipherSpec else FinishServerHandshake
    case FinishServerHandshake => Done
    case Done => Done
  }

  /** What is left of the flow when the server enters a state. */
  function Rest(c: Config, s: State): seq<Slot>
    decreases Rank(c, s)
  {
    if s.Done? then [] else Head(c, s) + Rest(c, Succ(c, s))
  }

  lemma Unfold(c: Config, s: State)
    ensures Rest(c, s) == if s.Done? then [] else Head(c, s) + Rest(c, Succ(c, s))
  {}

  lemma Ends(c: Config)
    ensures Rest(c, ReadChangeCipherSpec) == ClientTail(c) + if c.resume then [] else ServerTail(c)
    ensures Rest(c, SendServerFinished) == ServerTail(c) + if c.resume then ClientTail(c) else []
  {
    hide Rest, Opt, One, Change, ServerTail, ClientTail;
    ReadsTail(c);
    Unfold(c, SendServerFinished); Unfold(c, FinishServerHandshake); Unfold(c, Done);
    assert Rest(c, FinishServerHandshake) == [];
    if c.resume {
      assert Rest(c, ReadChangeCipherSpec) == ClientTail(c);
    } else {
      assert Rest(c, SendServerFinished) == ServerTail(c);
    }
  }

  lemma ReadsTail(c: Config)
    ensures Rest(c, ReadChangeCipherSpec) == ClientTail(c) + Rest(c, Succ(c, ReadClientFinished))
  {
    hide Rest, Opt, One, Change, ServerTail;
    Unfold(c, ReadChangeCipherSpec); Unfold(c, ProcessChangeCipherSpec); Unfold(c, ReadNextProto);
    Unfold(c, ReadChannelId); Unfold(c, ReadClientFinished);
    assert Rest(c, ProcessChangeCipherSpec) == Rest(c, ReadNextProto);
    Reassociate(Change(false), Opt(c.npn, false, NextProto), Opt(c.channelId, false, ChannelId),
                One(false, FinishedKind), Rest(c, Succ(c, ReadClientFinished)));
  }

  lemma SendsFlight(c: Config)
    ensures Rest(c, SendServerCertificate) == ServerFlight(c) + Rest(c, ReadClientCertificate)
  {
    hide Rest, Opt, One, Change;
    Unfold(c, SendServerCertificate); Unfold(c, SendServerKeyExchange); Unfold(c, SendServerHelloDone);
  }

  lemma ReadsFlight(c: Config)
    ensures Rest(c, ReadClientCertificate) == ClientFlight(c) + Rest(c, ReadChangeCipherSpec)
  {
    hide Rest, Opt, One, Change;
    Unfold(c, ReadClientCertificate); Unfold(c, VerifyClientCertificate); Unfold(c, ReadClientKeyExchange);
    Unfold(c, ReadClientCertificateVerify);
    assert Rest(c, VerifyClientCertificate) == Rest(c, ReadClientKeyExchange);
  }

  /** The server's program is the flow of the standards. */
  lemma FollowsFlow(c: Config)
    ensures Rest(c, StartAccept) == Flow(c)
  {
    hide Rest, Opt, One, Change, ServerFlight, ClientFlight, ServerTail, ClientTail;
    Unfold(c, StartAccept); Unfold(c, ReadClientHello); Unfold(c, SelectCertificate);
    Unfold(c, SelectParameters); Unfold(c, SendServerHello);
    assert Rest(c, StartAccept) == Rest(c, SelectParameters);
    Ends(c);
    SendsFlight(c);
    ReadsFlight(c);
  }

  // ---- Each state keeps to the flow ----

  /** What the machine still has to send or receive. */
  function RestOf(c: Config, m: Server): seq<Slot> {
    (if m.wait.ReadCcs? then Change(false) else []) + Rest(c, m.state)
  }

  /** States that only a full handshake goes through. */
  predicate FullOnly(s: State) {
    s.SendServerCertificate? || s.SendServerKeyExchange? || s.SendServerHelloDone? || s.ReadClientCertificate?
    || s.VerifyClientCertificate? || s.ReadClientKeyExchange? || s.ReadClientCertificateVerify?
  }

  predicate Early(s: State) {
    s.StartAccept? || s.ReadClientHello? || s.SelectCertificate? || s.SelectParameters?
  }

  /** States before the client's certificate has been read. */
  predicate Unauthenticated(s: State) {
    Early(s) || s.SendServerHello? || s.SendServerCertificate? || s.SendServerKeyExchange? || s.SendServerHelloDone?
    || s.ReadClientCertificate?
  }

  /** States in which the server may have built part of its flight. */
  predicate Building(s: State) {
    s.SendServerCertificate? || s.SendServerKeyExchange? || s.SendServerHelloDone? || s.SendServerFinished?
  }

  /** The server is where it can be. */
  ghost predicate Ok(c: Config, m: Server) {
    && m.wait != Error
    && m.certRequest == (!Early(m.state) && c.RequestsCert())
    && m.peerCert == (!Unauthenticated(m.state) && c.RequestsCert() && c.clientCert)
    && (FullOnly(m.state) ==> !c.resume)
    && (m.wait == ReadMessage ==>
          m.inbox.None? && m.state != ProcessChangeCipherSpec && Expects(Rest(c, m.state), false))
    && (m.wait == ReadCcs ==> m.state == ProcessChangeCipherSpec)
    && (m.state == ProcessChangeCipherSpec ==> m.inbox.None?)
    && (m.pending != [] ==> m.wait == Flush || (Building(m.state) && (m.wait == Wait.Ok || m.wait == Parked)))
  }

  ghost predicate Ready(c: Config, m: Server) {
    && c.Agreed() && Ok(c, m) && m.wait.Ok? && !m.state.Done?
    && InboxFits(c, true, m, Rest(c, m.state))
  }

  ghost predicate Good(c: Config, m: Server, r: Server) {
    Ok(c, r) && Follows(c, true, m, r, RestOf(c, m), RestOf(c, r))
  }

  /** Staying, or moving on from a state that has nothing of the flow. */
  lemma Idles(c: Config, m: Server, r: Server)
    requires Ready(c, m) && Ok(c, r) && r.inbox == m.inbox && r.pending == m.pending && r.transcript == m.transcript
    requires RestOf(c, r) == Rest(c, m.state)
    ensures Good(c, m, r)
  {
    hide Rest;
    AddedNone(c, true, m, r, RestOf(c, m), RestOf(c, r));
  }

  /** Receiving the one message of a state. */
  lemma Receives(c: Config, m: Server, k: Kind, s: State)
    requires Ready(c, m) && s == Succ(c, m.state) && Head(c, m.state) == One(false, k)
    requires m.pending == [] && s != ProcessChangeCipherSpec && s != m.state && !Early(s) && !Early(m.state)
    requires FullOnly(s) ==> !c.resume
    requires !Unauthenticated(s) && !Unauthenticated(m.state)
    ensures Good(c, m, Receive(m, k, s))
  {
    hide Rest;
    Unfold(c, m.state);
    if m.inbox.None? { Idles(c, m, Receive(m, k, s)); }
  }

  /** Sending the one message of a state. */
  lemma Sends(c: Config, m: Server, x: Msg, r: Server)
    requires Ready(c, m) && Head(c, m.state) == One(true, x.Kind()) && Honest(c, true, m.transcript, Hs(x))
    requires r == Send(m, x).(state := Succ(c, m.state), wait := r.wait) && Ok(c, r) && r.wait != ReadCcs
    ensures Good(c, m, r)
  {
    hide Rest, Ok, Head, Succ, Added, Honest;
    Unfold(c, m.state);
    SendAdds(c, true, m, x, Rest(c, r.state));
    SameAdded(c, true, m, Send(m, x), r, RestOf(c, m), RestOf(c, r));
  }

  /** The ClientHello stays in hand over three states. */
  lemma HelloHeads(c: Config)
    ensures Rest(c, SelectParameters)[..1] == One(false, ClientHello)
    ensures Rest(c, StartAccept) == Rest(c, ReadClientHello) == Rest(c, SelectCertificate) == Rest(c, SelectParameters)
    ensures Expects(Rest(c, SelectParameters), false)
  {
    hide Rest;
    Unfold(c, StartAccept); Unfold(c, ReadClientHello); Unfold(c, SelectCertificate); Unfold(c, SelectParameters);
  }

  lemma ReadClientHelloFollows(c: Config, m: Server, e: Env)
    requires Ready(c, m) && (m.state == StartAccept || m.state == ReadClientHello || m.state == SelectCertificate)
    ensures m.state == StartAccept ==> Good(c, m, Goto(m, ReadClientHello))
    ensures m.state == ReadClientHello ==> Good(c, m, DoReadClientHello(m, e))
    ensures m.state == SelectCertificate ==> Good(c, m, DoSelectCertificate(m, e))
  {
    hide Rest, Good;
    HelloHeads(c);
    if m.inbox.Some? { assert Rest(c, m.state)[..1] == [SlotOf(false, Hs(m.inbox.value))]; }
    if m.state == StartAccept { Idles(c, m, Goto(m, ReadClientHello)); }
    else if m.state == ReadClientHello { Idles(c, m, DoReadClientHello(m, e)); }
    else { Idles(c, m, DoSelectCertificate(m, e)); }
  }

  lemma SelectParametersFollows(c: Config, m: Server, e: Env)
    requires Ready(c, m) && m.state == SelectParameters
    ensures Good(c, m, DoSelectParameters(c, m, e))
  {
    hide Rest;
    HelloHeads(c);
    Unfold(c, m.state);
    if m.inbox.None? || e.suspend { Idles(c, m, DoSelectParameters(c, m, e)); }
  }

  lemma SendServerCertificateFollows(c: Config, m: Server, e: Env)
    requires Ready(c, m) && m.state == SendServerCertificate
    ensures Good(c, m, DoSendServerCertificate(c, m, e))
  {
    hide Rest, Added, Took;
    var r := DoSendServerCertificate(c, m, e);
    Unfold(c, m.state);
    if c.CertAuth() {
      var rest := Rest(c, SendServerKeyExchange);
      var x := Plain(Certificate, ChainOf(true, e.body));
      var mid := Opt(c.ocsp, true, CertificateStatus) + rest;
      SendAdds(c, true, m, x, mid);
      SendIfAdds(c, true, Send(m, x), c.ocsp, CertificateStatus, e.body, rest);
      AddedBoth(c, true, m, Send(m, x), SendIf(Send(m, x), c.ocsp, CertificateStatus, e.body),
                One(true, Certificate) + mid, mid, rest);
      assert RestOf(c, m) == One(true, Certificate) + mid && RestOf(c, r) == rest;
      SameAdded(c, true, m, SendIf(Send(m, x), c.ocsp, CertificateStatus, e.body), r, RestOf(c, m), RestOf(c, r));
    } else {
      Idles(c, m, r);
    }
  }

  lemma SendServerKeyExchangeFollows(c: Config, m: Server, e: Env)
    requires Ready(c, m) && m.state == SendServerKeyExchange
    ensures Good(c, m, DoSendServerKeyExchange(c, m, e))
  {
    hide Rest, Good;
    Unfold(c, m.state);
    var r := DoSendServerKeyExchange(c, m, e);
    if r.pending != m.pending { Sends(c, m, Plain(ServerKeyExchange, e.body), r); } else { Idles(c, m, r); }
  }

  lemma SendServerHelloDoneFollows(c: Config, m: Server, e: Env)
    requires Ready(c, m) && m.state == SendServerHelloDone
    ensures Good(c, m, DoSendServerHelloDone(m, e))
  {
    hide Rest, Added, Took, Opt, One, InboxFits, Expects;
    var r := DoSendServerHelloDone(m, e);
    Unfold(c, m.state);
    var rest := Rest(c, ReadClientCertificate);
    HelloDoneAdds(c, m, e, rest);
    Grouped(Opt(m.certRequest, true, CertificateRequest), One(true, ServerHelloDone), rest);
    assert RestOf(c, m) == [] + Rest(c, m.state) && RestOf(c, r) == [] + rest;
    SameAdded(c, true, m, r, r, RestOf(c, m), RestOf(c, r));
  }

  lemma Grouped(a: seq<Slot>, b: seq<Slot>, d: seq<Slot>)
    ensures a + (b + d) == (a + b) + d && [] + d == d && [] + ((a + b) + d) == (a + b) + d
  {}

  lemma HelloDoneAdds(c: Config, m: Server, e: Env, rest: seq<Slot>)
    ensures Added(c, true, m, DoSendServerHelloDone(m, e),
                  Opt(m.certRequest, true, CertificateRequest) + (One(true, ServerHelloDone) + rest), rest)
  {
    hide Added, Took, Opt, One;
    var m1 := SendIf(m, m.certRequest, CertificateRequest, e.body);
    var r := Send(m1, Plain(ServerHelloDone, e.body));
    var mid := One(true, ServerHelloDone) + rest;
    var top := Opt(m.certRequest, true, CertificateRequest) + mid;
    SendIfAdds(c, true, m, m.certRequest, CertificateRequest, e.body, mid);
    SendAdds(c, true, m1, Plain(ServerHelloDone, e.body), rest);
    AddedBoth(c, true, m, m1, r, top, mid, rest);
    SameAdded(c, true, m, r, DoSendServerHelloDone(m, e), top, rest);
  }

  lemma ReadClientCertificateFollows(c: Config, m: Server)
    requires Ready(c, m) && m.state == ReadClientCertificate
    ensures Good(c, m, DoReadClientCertificate(c, m))
  {
    hide Rest;
    Unfold(c, m.state);
    if !m.certRequest || m.inbox.None? { Idles(c, m, DoReadClientCertificate(c, m)); }
  }

  lemma ReadClientKeyExchangeFollows(c: Config, m: Server, e: Env)
    requires Ready(c, m) && m.state == ReadClientKeyExchange
    ensures Good(c, m, DoReadClientKeyExchange(c, m, e))
  {
    hide Rest, Good;
    Unfold(c, m.state);
    var r := DoReadClientKeyExchange(c, m, e);
    if r.wait.Parked? { Idles(c, m, r); } else { Receives(c, m, ClientKeyExchange, ReadClientCertificateVerify); }
  }

  lemma ReadClientCertificateVerifyFollows(c: Config, m: Server)
    requires Ready(c, m) && m.state == ReadClientCertificateVerify
    ensures Good(c, m, DoReadClientCertificateVerify(m))
  {
    hide Rest, Good;
    Unfold(c, m.state);
    if m.peerCert { Receives(c, m, CertificateVerify, ReadChangeCipherSpec); }
    else { Idles(c, m, DoReadClientCertificateVerify(m)); }
  }

  lemma ReadExtensionsFollow(c: Config, m: Server)
    requires Ready(c, m)
    ensures m.state == ReadNextProto ==> Good(c, m, DoReadNextProto(c, m))
    ensures m.state == ReadChannelId ==> Good(c, m, DoReadChannelId(c, m))
  {
    hide Rest, Good;
    Unfold(c, m.state);
    if m.state == ReadNextProto {
      if c.npn { Receives(c, m, NextProto, ReadChannelId); } else { Idles(c, m, DoReadNextProto(c, m)); }
    } else if m.state == ReadChannelId {
      if c.channelId { Receives(c, m, ChannelId, ReadClientFinished); } else { Idles(c, m, DoReadChannelId(c, m)); }
    }
  }

  lemma ReadClientFinishedFollows(c: Config, m: Server)
    requires Ready(c, m) && m.state == ReadClientFinished
    ensures Good(c, m, DoReadClientFinished(c, m))
  {
    hide Rest;
    Unfold(c, m.state);
    if m.inbox.None? { Idles(c, m, DoReadClientFinished(c, m)); }
  }

  lemma SendServerFinishedFollows(c: Config, m: Server, e: Env)
    requires Ready(c, m) && m.state == SendServerFinished
    ensures Good(c, m, DoSendServerFinished(c, m, e))
  {
    hide Rest, Added, Took, ServerTail;
    var r := DoSendServerFinished(c, m, e);
    Unfold(c, m.state);
    TailAdded(c, m, e, Rest(c, r.state));
    var m2 := SendCcs(SendIf(m, c.ticket, NewSessionTicket, e.body));
    assert RestOf(c, m) == ServerTail(c) + Rest(c, r.state) && RestOf(c, r) == Rest(c, r.state);
    SameAdded(c, true, m, SendFinished(m2, true), r, RestOf(c, m), RestOf(c, r));
  }

  lemma TailAdded(c: Config, m: Server, e: Env, rest: seq<Slot>)
    ensures var m2 := SendCcs(SendIf(m, c.ticket, NewSessionTicket, e.body));
            Added(c, true, m, SendFinished(m2, true), ServerTail(c) + rest, rest)
  {
    hide Added, Opt, One, Change, Send, SendIf, SendCcs;
    var m1 := SendIf(m, c.ticket, NewSessionTicket, e.body);
    var m2 := SendCcs(m1);
    var r2 := One(true, FinishedKind) + rest;
    var r1 := Change(true) + r2;
    var r0 := Opt(c.ticket, true, NewSessionTicket) + r1;
    SendIfAdds(c, true, m, c.ticket, NewSessionTicket, e.body, r1);
    SendCcsAdds(c, true, m1, r2);
    SendAdds(c, true, m2, Finished(true, m2.transcript), rest);
    AddedBoth(c, true, m, m1, m2, r0, r1, r2);
    AddedBoth(c, true, m, m2, SendFinished(m2, true), r0, r2, rest);
    assert r0 == ServerTail(c) + rest;
  }

  /** The states that neither send nor receive. */
  lemma SilentFollows(c: Config, m: Server, e: Env)
    requires Ready(c, m)
    ensures m.state == VerifyClientCertificate ==> Good(c, m, DoVerifyClientCertificate(m, e))
    ensures m.state == ReadChangeCipherSpec ==> Good(c, m, DoReadChangeCipherSpec(m))
    ensures m.state == ProcessChangeCipherSpec ==> Good(c, m, DoProcessChangeCipherSpec(m))
    ensures m.state == FinishServerHandshake ==> Good(c, m, Goto(m, Done))
  {
    hide Rest, Good;
    Unfold(c, m.state);
    if m.state == VerifyClientCertificate { Idles(c, m, DoVerifyClientCertificate(m, e)); }
    else if m.state == ReadChangeCipherSpec { Idles(c, m, DoReadChangeCipherSpec(m)); }
    else if m.state == ProcessChangeCipherSpec { Idles(c, m, DoProcessChangeCipherSpec(m)); }
    else if m.state == FinishServerHandshake { Idles(c, m, Goto(m, Done)); }
  }

  lemma SendServerHelloFollows(c: Config, m: Server, e: Env)
    requires Ready(c, m) && m.state == SendServerHello
    ensures Good(c, m, DoSendServerHello(c, m, e))
  {
    hide Rest, Good;
    Sends(c, m, Plain(ServerHello, e.body), DoSendServerHello(c, m, e));
  }

  /** Every call of a do_* function keeps to the flow and never fails. */
  lemma DoFollows(c: Config, m: Server, e: Env)
    requires Ready(c, m)
    ensures Good(c, m, Do(c, m, e))
  {
    hide Rest, Good, Ok, InboxFits;
    SilentFollows(c, m, e);
    ReadExtensionsFollow(c, m);
    match m.state
    case StartAccept => ReadClientHelloFollows(c, m, e);
    case ReadClientHello => ReadClientHelloFollows(c, m, e);
    case SelectCertificate => ReadClientHelloFollows(c, m, e);
    case SelectParameters => SelectParametersFollows(c, m, e);
    case SendServerHello => SendServerHelloFollows(c, m, e);
    case SendServerCertificate => SendServerCertificateFollows(c, m, e);
    case SendServerKeyExchange => SendServerKeyExchangeFollows(c, m, e);
    case SendServerHelloDone => SendServerHelloDoneFollows(c, m, e);
    case ReadClientCertificate => ReadClientCertificateFollows(c, m);
    case ReadClientKeyExchange => ReadClientKeyExchangeFollows(c, m, e);
    case ReadClientCertificateVerify => ReadClientCertificateVerifyFollows(c, m);
    case ReadClientFinished => ReadClientFinishedFollows(c, m);
    case SendServerFinished => SendServerFinishedFollows(c, m, e);
    case _ =>
  }

  // ---- Progress ----

  /** A call fails, moves on to the next state, asks for a message it does not have,
      or is suspended. */
  predicate Moves(c: Config, m: Server, r: Server, e: Env) {
    || r.wait == Error
    || r.state == Succ(c, m.state)
    || (r.state == m.state && r.wait == ReadMessage && m.inbox.None?)
    || (r.state == m.state && r.wait == Parked && e.suspend)
  }

  lemma MovesFull(c: Config, m: Server, e: Env)
    requires m.wait.Ok? && !m.state.Done? && FullOnly(m.state)
    ensures Moves(c, m, Do(c, m, e), e)
  {
    hide Receive, GetFinished, Send, SendIf, SendFinished, Rest, Head;
  }

  lemma MovesCommon(c: Config, m: Server, e: Env)
    requires m.wait.Ok? && !m.state.Done? && !FullOnly(m.state)
    ensures Moves(c, m, Do(c, m, e), e)
  {
    hide Receive, GetFinished, Send, SendIf, SendFinished, Rest, Head;
  }

  lemma DoMoves(c: Config, m: Server, e: Env)
    requires m.wait.Ok? && !m.state.Done?
    ensures Moves(c, m, Do(c, m, e), e)
  {
    hide Do, Moves;
    if FullOnly(m.state) { MovesFull(c, m, e); } else { MovesCommon(c, m, e); }
  }

  lemma SuccCloser(c: Config, s: State)
    requires !s.Done?
    ensures Rank(c, Succ(c, s)) < Rank(c, s)
  {}
}
