/** The do_* functions of handshake_client.cc and the loop over them, on the
    handshake object. */
module ClientHandshake {
  import opened HandshakeFlow
  import opened HandshakeSpec
  import opened HandshakeObject
  import opened HandshakeEffect
  import opened HandshakeClient
  import opened HandshakeRun
  import opened HandshakePeer
  import Safety = HandshakeClientSafety
  import S = HandshakeServer

  type Hs = SslHandshake<State>

  method DoStartConnect(hs: Hs, e: Env) returns (ret: Wait)
    requires hs.wait.Ok?
    modifies hs`state, hs`inbox, hs`pending, hs`transcript, hs`certRequest, hs`peerCert
    ensures hs.Abs().(wait := ret) == HandshakeClient.DoStartConnect(old(hs.Abs()), e)
  {
    hs.AddMessage(Plain(ClientHello, e.body));
    hs.state := EnterEarlyData;
    return Flush;
  }

  method DoReadServerCertificate(hs: Hs, c: Config) returns (ret: Wait)
    requires hs.wait.Ok?
    modifies hs`state, hs`inbox, hs`pending, hs`transcript, hs`certRequest, hs`peerCert
    ensures hs.Abs().(wait := ret) == HandshakeClient.DoReadServerCertificate(c, old(hs.Abs()))
  {
    if !c.CertAuth() {
      hs.state := ReadCertificateStatus;
      return Wait.Ok;
    }
    if hs.inbox.Some? && hs.inbox.value.Plain? && hs.inbox.value.body == 0 {
      return Error;
    }
    ret := hs.ReceiveMessage(Certificate, ReadCertificateStatus);
  }

  method DoReadCertificateStatus(hs: Hs, c: Config) returns (ret: Wait)
    requires hs.wait.Ok?
    modifies hs`state, hs`inbox, hs`pending, hs`transcript, hs`certRequest, hs`peerCert
    ensures hs.Abs().(wait := ret) == HandshakeClient.DoReadCertificateStatus(c, old(hs.Abs()))
  {
    if !c.ocsp {
      hs.state := VerifyServerCertificate;
      return Wait.Ok;
    }
    if hs.inbox.None? {
      return ReadMessage;
    }
    if hs.inbox.value.Kind() != CertificateStatus {
      hs.state := VerifyServerCertificate;
      return Wait.Ok;
    }
    hs.TakeMessage();
    hs.state := VerifyServerCertificate;
    return Wait.Ok;
  }

  method DoVerifyServerCertificate(hs: Hs, c: Config, e: Env) returns (ret: Wait)
    requires hs.wait.Ok?
    modifies hs`state, hs`inbox, hs`pending, hs`transcript, hs`certRequest, hs`peerCert
    ensures hs.Abs().(wait := ret) == HandshakeClient.DoVerifyServerCertificate(c, old(hs.Abs()), e)
  {
    if c.CertAuth() && e.suspend {
      return Parked;
    }
    hs.state := ReadServerKeyExchange;
    return Wait.Ok;
  }

  method DoReadServerKeyExchange(hs: Hs, c: Config) returns (ret: Wait)
    requires hs.wait.Ok?
    modifies hs`state, hs`inbox, hs`pending, hs`transcript, hs`certRequest, hs`peerCert
    ensures hs.Abs().(wait := ret) == HandshakeClient.DoReadServerKeyExchange(c, old(hs.Abs()))
  {
    if hs.inbox.None? {
      return ReadMessage;
    }
    if hs.inbox.value.Kind() != ServerKeyExchange {
      if c.ecdhe {
        return Error;
      }
      hs.state := ReadCertificateRequest;
      return Wait.Ok;
    }
    if !c.ecdhe && !c.psk {
      return Error;
    }
    hs.TakeMessage();
    hs.state := ReadCertificateRequest;
    return Wait.Ok;
  }

  method DoReadCertificateRequest(hs: Hs, c: Config) returns (ret: Wait)
    requires hs.wait.Ok? && hs.state == ReadCertificateRequest
    modifies hs`state, hs`inbox, hs`pending, hs`transcript, hs`certRequest, hs`peerCert
    ensures hs.Abs().(wait := ret) == HandshakeClient.DoReadCertificateRequest(c, old(hs.Abs()))
  {
    if !c.CertAuth() {
      hs.state := ReadServerHelloDone;
      return Wait.Ok;
    }
    if hs.inbox.None? {
      return ReadMessage;
    }
    if hs.inbox.value.Kind() == ServerHelloDone {
      hs.state := ReadServerHelloDone;
      return Wait.Ok;
    }
    if hs.inbox.value.Kind() != CertificateRequest {
      return Error;
    }
    hs.TakeMessage();
    hs.certRequest := true;
    hs.state := ReadServerHelloDone;
    return Wait.Ok;
  }

  method DoSendClientCertificate(hs: Hs, c: Config, e: Env) returns (ret: Wait)
    requires hs.wait.Ok?
    modifies hs`state, hs`inbox, hs`pending, hs`transcript, hs`certRequest, hs`peerCert
    ensures hs.Abs().(wait := ret) == HandshakeClient.DoSendClientCertificate(c, old(hs.Abs()), e)
  {
    if hs.certRequest {
      if e.suspend {
        return Parked;
      }
      hs.AddMessage(Plain(Certificate, ChainOf(c.clientCert, e.body)));
    }
    hs.state := SendClientKeyExchange;
    return Wait.Ok;
  }

  method DoSendClientKeyExchange(hs: Hs, e: Env) returns (ret: Wait)
    requires hs.wait.Ok?
    modifies hs`state, hs`inbox, hs`pending, hs`transcript, hs`certRequest, hs`peerCert
    ensures hs.Abs().(wait := ret) == HandshakeClient.DoSendClientKeyExchange(old(hs.Abs()), e)
  {
    hs.AddMessage(Plain(ClientKeyExchange, e.body));
    hs.state := SendClientCertificateVerify;
    return Wait.Ok;
  }

  method DoSendClientCertificateVerify(hs: Hs, c: Config, e: Env) returns (ret: Wait)
    requires hs.wait.Ok?
    modifies hs`state, hs`inbox, hs`pending, hs`transcript, hs`certRequest, hs`peerCert
    ensures hs.Abs().(wait := ret) == HandshakeClient.DoSendClientCertificateVerify(c, old(hs.Abs()), e)
  {
    if hs.certRequest && c.clientCert {
      if e.suspend {
        return Parked;
      }
      hs.AddMessage(Plain(CertificateVerify, e.body));
    }
    hs.state := SendClientFinished;
    return Wait.Ok;
  }

  method DoSendClientFinished(hs: Hs, c: Config, e: Env) returns (ret: Wait)
    requires hs.wait.Ok?
    modifies hs`state, hs`inbox, hs`pending, hs`transcript, hs`certRequest, hs`peerCert
    ensures hs.Abs().(wait := ret) == HandshakeClient.DoSendClientFinished(c, old(hs.Abs()), e)
  {
    // Channel ID first, before anything that must not be done twice.
    if c.channelId && e.suspend {
      return Parked;
    }
    hs.AddChangeCipherSpec();
    if c.npn {
      hs.AddMessage(Plain(NextProto, e.body));
    }
    if c.channelId {
      hs.AddMessage(Plain(ChannelId, e.body));
    }
    hs.AddMessage(Finished(false, hs.transcript));
    hs.state := FinishFlight;
    return Flush;
  }

  method DoFinishFlight(hs: Hs, c: Config, e: Env) returns (ret: Wait)
    requires hs.wait.Ok?
    modifies hs`state, hs`inbox, hs`pending, hs`transcript, hs`certRequest, hs`peerCert
    ensures hs.Abs().(wait := ret) == HandshakeClient.DoFinishFlight(c, old(hs.Abs()), e)
  {
    if c.resume {
      hs.state := FinishClientHandshake;
      return Wait.Ok;
    }
    hs.state := ReadSessionTicket;
    return if e.early then EarlyReturn else Wait.Ok;
  }

  method DoReadSessionTicket(hs: Hs, c: Config) returns (ret: Wait)
    requires hs.wait.Ok? && hs.state == ReadSessionTicket
    modifies hs`state, hs`inbox, hs`pending, hs`transcript, hs`certRequest, hs`peerCert
    ensures hs.Abs().(wait := ret) == HandshakeClient.DoReadSessionTicket(c, old(hs.Abs()))
  {
    if c.ticket {
      ret := hs.ReceiveMessage(NewSessionTicket, ProcessChangeCipherSpec);
      if ret != Wait.Ok {
        return;
      }
    }
    hs.state := ProcessChangeCipherSpec;
    return ReadCcs;
  }

  method DoProcessChangeCipherSpec(hs: Hs) returns (ret: Wait)
    requires hs.wait.Ok?
    modifies hs`state, hs`inbox, hs`pending, hs`transcript, hs`certRequest, hs`peerCert
    ensures hs.Abs().(wait := ret) == HandshakeClient.DoProcessChangeCipherSpec(old(hs.Abs()))
  {
    if hs.inbox.Some? {
      return Error;
    }
    hs.state := ReadServerFinished;
    return Wait.Ok;
  }

  /** The switch of ssl_client_handshake. */
  method DoOne(hs: Hs, c: Config, e: Env) returns (ret: Wait)
    requires hs.wait.Ok?
    modifies hs`state, hs`inbox, hs`pending, hs`transcript, hs`certRequest, hs`peerCert
    ensures hs.Abs().(wait := ret) == Do(c, old(hs.Abs()), e)
    ensures old(hs.state.ReadServerFinished?) && old(hs.inbox.Some?) ==>
              (ret == Error <==> old(hs.inbox.value) != Finished(true, old(hs.transcript)))
    ensures old(Ready(c, hs.Abs())) ==> ret != Error && Good(c, old(hs.Abs()), hs.Abs().(wait := ret))
  {
    if Ready(c, hs.Abs()) { ReadyFollows(c, hs.Abs(), e); }
    hide Ready, Good;
    match hs.state
    case StartConnect => ret := DoStartConnect(hs, e);
    case EnterEarlyData => hs.state := ReadServerHello; ret := Wait.Ok;
    case ReadServerHello =>
      ret := hs.ReceiveMessage(ServerHello, if c.resume then ReadSessionTicket else ReadServerCertificate);
    case ReadServerCertificate => ret := DoReadServerCertificate(hs, c);
    case ReadCertificateStatus => ret := DoReadCertificateStatus(hs, c);
    case VerifyServerCertificate => ret := DoVerifyServerCertificate(hs, c, e);
    case ReadServerKeyExchange => ret := DoReadServerKeyExchange(hs, c);
    case ReadCertificateRequest => ret := DoReadCertificateRequest(hs, c);
    case ReadServerHelloDone => ret := hs.ReceiveMessage(ServerHelloDone, SendClientCertificate);
    case SendClientCertificate => ret := DoSendClientCertificate(hs, c, e);
    case SendClientKeyExchange => ret := DoSendClientKeyExchange(hs, e);
    case SendClientCertificateVerify => ret := DoSendClientCertificateVerify(hs, c, e);
    case SendClientFinished => ret := DoSendClientFinished(hs, c, e);
    case FinishFlight => ret := DoFinishFlight(hs, c, e);
    case ReadSessionTicket => ret := DoReadSessionTicket(hs, c);
    case ProcessChangeCipherSpec => ret := DoProcessChangeCipherSpec(hs);
    case ReadServerFinished =>
      ret := hs.ReceiveFinished(true, if c.resume then SendClientFinished else FinishClientHandshake);
    case FinishClientHandshake => hs.state := Done; ret := Wait.Ok;
    case Done => ret := Wait.Ok;
  }

  /** ssl_client_handshake. It is a run of the client's steps, up to the first that
      has to wait; facing an honest server it does not fail. */
  method Handshake(hs: Hs, c: Config, calls: nat -> Env, ghost peer: S.Server, ghost arriving: seq<Item>, ghost leaving: seq<Item>)
    returns (ret: Wait, ghost schedule: seq<(bool, Env)>)
    requires hs.wait.Ok?
    modifies hs`state, hs`inbox, hs`pending, hs`transcript, hs`certRequest, hs`peerCert
    ensures Product(hs.Abs().(wait := ret), peer, leaving, arriving) ==
            Run(c, Product(old(hs.Abs()), peer, leaving, arriving), schedule)
    ensures ret.Ok? ==> hs.state.Done?
    ensures Safety.ClientOnly(schedule)
    ensures old(Inv(c, Product(hs.Abs(), peer, leaving, arriving))) ==>
              ret != Error && Inv(c, Product(hs.Abs().(wait := ret), peer, leaving, arriving))
  {
    hide Do, Run, Inv, Step, Good, Ready;
    ghost var p := Product(hs.Abs(), peer, leaving, arriving);
    var i: nat := 0;
    schedule := [];
    RunNothing(c, p);
    while hs.state != Done
      invariant Safety.ClientOnly(schedule)
      invariant hs.wait.Ok? && Product(hs.Abs(), peer, leaving, arriving) == Run(c, p, schedule)
      decreases Rank(c, hs.state)
    {
      DoMoves(c, hs.Abs(), calls(i));
      SuccCloser(c, hs.state);
      CallIsStep(c, Product(hs.Abs(), peer, leaving, arriving), calls(i));
      RunOne(c, p, schedule, false, calls(i));
      schedule := schedule + [(false, calls(i))];
      ret := DoOne(hs, c, calls(i));
      if ret != Wait.Ok {
        Faces(c, p, schedule);
        return;
      }
      i := i + 1;
    }
    ret := Wait.Ok;
    Faces(c, p, schedule);
  }

  lemma CallIsStep(c: Config, p: Product, e: Env)
    requires p.client.wait.Ok?
    ensures Step(c, p, false, e) == p.(client := Do(c, p.client, e))
  {}

  lemma WaitIsStep(c: Config, p: Product, e: Env)
    requires !p.client.wait.Ok?
    ensures var (m, arriving, leaving) := Resolve(p.client, p.s2c, p.c2s, e);
            Step(c, p, false, e) == p.(client := m, s2c := arriving, c2s := leaving)
  {}

  lemma ReadyFollows(c: Config, m: Client, e: Env)
    requires Ready(c, m)
    ensures Good(c, m, Do(c, m, e)) && Do(c, m, e).wait != Error
  {
    hide Do, Rest, Follows, Ready;
    DoFollows(c, m, e);
  }

  /** What the run keeps against any peer. */
  lemma SafetyKept(c: Config, v: Config, p: Product, schedule: seq<(bool, Env)>, taken: seq<Item>) returns (u: Config)
    requires Safety.ClientOnly(schedule)
    ensures var q := Run(c, p, schedule);
            Safety.Sound(c, v, p.client, taken, p.c2s) ==>
              && |q.s2c| <= |p.s2c| && Safety.Sound(c, u, q.client, taken + p.s2c[..|p.s2c| - |q.s2c|], q.c2s)
              && (q.client.state.Done? && q.client.wait.Ok? ==>
                    Verified(q.client.transcript, true) && Kinds(q.client.transcript) == SlotKinds(Flow(u)))
  {
    hide Safety.Sound, Run, Verified, Kinds, SlotKinds, Flow, Safety.Before;
    u := v;
    if Safety.Sound(c, v, p.client, taken, p.c2s) {
      u := Safety.RunSound(c, v, p, schedule, taken);
      var q := Run(c, p, schedule);
      if q.client.state.Done? && q.client.wait.Ok? {
        Safety.BeforeDone(u);
        Safety.DoneHolds(c, u, q.client, taken + p.s2c[..|p.s2c| - |q.s2c|], q.c2s);
      }
    }
  }

  /** ssl_run_handshake for the client: what it waits for is resolved and the machine
      called, until the transport or a callback holds it up or it is done. It is a
      run of the client's steps and, facing an honest server, does not fail. */
  method RunHandshake(hs: Hs, c: Config, turns: seq<Turn>, arriving: seq<Item>, leaving: seq<Item>, ghost peer: S.Server,
                      ghost v: Config, ghost taken: seq<Item>)
    returns (ret: int, early: bool, rest: seq<Item>, gone: seq<Item>, ghost schedule: seq<(bool, Env)>, ghost n: nat, ghost u: Config)
    modifies hs
    ensures Safety.ClientOnly(schedule)
    // Whatever the peer sends, the client goes on only along the flow, and is done only
    // after it has verified a Finished of the peer.
    ensures old(Safety.Sound(c, v, hs.Abs(), taken, leaving)) ==>
              && |rest| <= |arriving| && Safety.Sound(c, u, hs.Abs(), taken + arriving[..|arriving| - |rest|], gone)
              && (ret == 1 && !early ==> Verified(hs.transcript, true) && Kinds(hs.transcript) == SlotKinds(Flow(u)))
    ensures Product(hs.Abs(), peer, gone, rest) ==
            Run(c, Product(old(hs.Abs()), peer, leaving, arriving), schedule)
    ensures if ret == 1 then !early ==> hs.state.Done? && hs.wait.Ok? else ret == -1 && !early
    ensures turns != [] && !(old(hs.wait).Ok? && old(hs.state).Done?) ==> schedule != []
    ensures n <= |turns| && (ret == -1 && n < |turns| ==>
                               || hs.wait.Ok? || hs.wait.Error? || hs.wait.Flush?
                               || ((hs.wait.ReadMessage? || hs.wait.ReadCcs?) && rest == []))
    ensures old(Inv(c, Product(hs.Abs(), peer, leaving, arriving))) ==>
              hs.wait != Error && Inv(c, Product(hs.Abs(), peer, gone, rest))
  {
    hide Do, Run, Inv, Step, Resolve, Safety.Sound, Verified, Kinds, SlotKinds, Flow;
    ghost var p := Product(hs.Abs(), peer, leaving, arriving);
    rest, gone, early, schedule, n, u := arriving, leaving, false, [], 0, v;
    RunNothing(c, p);
    var i: nat := 0;
    ret := -1;
    while i < |turns|
      invariant Safety.ClientOnly(schedule)
      invariant n == i <= |turns| && ret == -1 && !early && Product(hs.Abs(), peer, gone, rest) == Run(c, p, schedule)
      invariant i > 0 && !(old(hs.wait).Ok? && old(hs.state).Done?) ==> schedule != []
      decreases |turns| - i
    {
      if hs.wait != Wait.Ok {
        var was := hs.wait;
        WaitIsStep(c, Product(hs.Abs(), peer, gone, rest), turns[i].io);
        RunOne(c, p, schedule, false, turns[i].io);
        schedule := schedule + [(false, turns[i].io)];
        ResolveBlocks(hs.Abs(), rest, gone, turns[i].io);
        rest, gone := hs.ResolveWait(rest, gone, turns[i].io);
        if was == EarlyReturn {
          ret, early := 1, true;
          break;
        }
        if was == Parked || hs.wait != Wait.Ok {
          break;
        }
      }
      ghost var more;
      ghost var before := Product(hs.Abs(), peer, gone, rest);
      var w;
      w, more := Handshake(hs, c, turns[i].calls, peer, rest, gone);
      hs.wait := w;
      RunConcat(c, p, schedule, more);
      schedule := schedule + more;
      if w == Wait.Ok {
        ret := 1;
        break;
      }
      if w == Error {
        break;
      }
      i, n := i + 1, n + 1;
    }
    Faces(c, p, schedule);
    u := SafetyKept(c, v, p, schedule, taken);
  }
}
