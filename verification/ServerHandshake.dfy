/** The do_* functions of handshake_server.cc and the loop over them, on the
    handshake object. */
module ServerHandshake {
  import opened HandshakeFlow
  import opened HandshakeSpec
  import opened HandshakeObject
  import opened HandshakeEffect
  import opened HandshakeServer
  import opened HandshakeRun
  import opened HandshakePeer
  import Safety = HandshakeServerSafety
  import C = HandshakeClient

  type Hs = SslHandshake<State>

  method DoReadClientHello(hs: Hs, e: Env) returns (ret: Wait)
    requires hs.wait.Ok?
    modifies hs`state, hs`inbox, hs`pending, hs`transcript, hs`certRequest, hs`peerCert
    ensures hs.Abs().(wait := ret) == HandshakeServer.DoReadClientHello(old(hs.Abs()), e)
  {
    if hs.inbox.None? {
      return ReadMessage;
    }
    if hs.inbox.value.Kind() != ClientHello {
      return Error;
    }
    if e.suspend {
      return Parked;
    }
    hs.state := SelectCertificate;
    return Wait.Ok;
  }

  method DoSelectCertificate(hs: Hs, e: Env) returns (ret: Wait)
    requires hs.wait.Ok?
    modifies hs`state, hs`inbox, hs`pending, hs`transcript, hs`certRequest, hs`peerCert
    ensures hs.Abs().(wait := ret) == HandshakeServer.DoSelectCertificate(old(hs.Abs()), e)
  {
    if hs.inbox.None? {
      return ReadMessage;
    }
    if e.suspend {
      return Parked;
    }
    hs.state := SelectParameters;
    return Wait.Ok;
  }

  method DoSelectParameters(hs: Hs, c: Config, e: Env) returns (ret: Wait)
    requires hs.wait.Ok?
    modifies hs`state, hs`inbox, hs`pending, hs`transcript, hs`certRequest, hs`peerCert
    ensures hs.Abs().(wait := ret) == HandshakeServer.DoSelectParameters(c, old(hs.Abs()), e)
  {
    if hs.inbox.None? {
      return ReadMessage;
    }
    if e.suspend {
      return Parked;
    }
    hs.certRequest := c.RequestsCert();
    hs.TakeMessage();
    hs.state := SendServerHello;
    return Wait.Ok;
  }

  method DoSendServerHello(hs: Hs, c: Config, e: Env) returns (ret: Wait)
    requires hs.wait.Ok?
    modifies hs`state, hs`inbox, hs`pending, hs`transcript, hs`certRequest, hs`peerCert
    ensures hs.Abs().(wait := ret) == HandshakeServer.DoSendServerHello(c, old(hs.Abs()), e)
  {
    hs.AddMessage(Plain(ServerHello, e.body));
    hs.state := if c.resume then SendServerFinished else SendServerCertificate;
    return Wait.Ok;
  }

  method DoSendServerCertificate(hs: Hs, c: Config, e: Env) returns (ret: Wait)
    requires hs.wait.Ok?
    modifies hs`state, hs`inbox, hs`pending, hs`transcript, hs`certRequest, hs`peerCert
    ensures hs.Abs().(wait := ret) == HandshakeServer.DoSendServerCertificate(c, old(hs.Abs()), e)
  {
    if c.CertAuth() {
      hs.AddMessage(Plain(Certificate, ChainOf(true, e.body)));
      if c.ocsp {
        hs.AddMessage(Plain(CertificateStatus, e.body));
      }
    }
    hs.state := SendServerKeyExchange;
    return Wait.Ok;
  }

  method DoSendServerKeyExchange(hs: Hs, c: Config, e: Env) returns (ret: Wait)
    requires hs.wait.Ok?
    modifies hs`state, hs`inbox, hs`pending, hs`transcript, hs`certRequest, hs`peerCert
    ensures hs.Abs().(wait := ret) == HandshakeServer.DoSendServerKeyExchange(c, old(hs.Abs()), e)
  {
    if c.SendsKeyExchange() {
      if c.CertAuth() && e.suspend {
        return Parked;
      }
      hs.AddMessage(Plain(ServerKeyExchange, e.body));
    }
    hs.state := SendServerHelloDone;
    return Wait.Ok;
  }

  method DoSendServerHelloDone(hs: Hs, e: Env) returns (ret: Wait)
    requires hs.wait.Ok?
    modifies hs`state, hs`inbox, hs`pending, hs`transcript, hs`certRequest, hs`peerCert
    ensures hs.Abs().(wait := ret) == HandshakeServer.DoSendServerHelloDone(old(hs.Abs()), e)
  {
    if hs.certRequest {
      hs.AddMessage(Plain(CertificateRequest, e.body));
    }
    hs.AddMessage(Plain(ServerHelloDone, e.body));
    hs.state := ReadClientCertificate;
    return Flush;
  }

  method DoReadClientCertificate(hs: Hs, c: Config) returns (ret: Wait)
    requires hs.wait.Ok? && hs.state == ReadClientCertificate
    modifies hs`state, hs`inbox, hs`pending, hs`transcript, hs`certRequest, hs`peerCert
    ensures hs.Abs().(wait := ret) == HandshakeServer.DoReadClientCertificate(c, old(hs.Abs()))
  {
    if !hs.certRequest {
      hs.state := VerifyClientCertificate;
      return Wait.Ok;
    }
    if hs.inbox.None? {
      return ReadMessage;
    }
    if hs.inbox.value.Kind() != Certificate {
      return Error;
    }
    var someone := hs.inbox.value.Plain? && hs.inbox.value.body > 0;
    if !someone && c.failIfNoCert {
      return Error;
    }
    hs.peerCert := someone;
    hs.TakeMessage();
    hs.state := VerifyClientCertificate;
    return Wait.Ok;
  }

  method DoVerifyClientCertificate(hs: Hs, e: Env) returns (ret: Wait)
    requires hs.wait.Ok?
    modifies hs`state, hs`inbox, hs`pending, hs`transcript, hs`certRequest, hs`peerCert
    ensures hs.Abs().(wait := ret) == HandshakeServer.DoVerifyClientCertificate(old(hs.Abs()), e)
  {
    if hs.peerCert && e.suspend {
      return Parked;
    }
    hs.state := ReadClientKeyExchange;
    return Wait.Ok;
  }

  method DoReadClientKeyExchange(hs: Hs, c: Config, e: Env) returns (ret: Wait)
    requires hs.wait.Ok?
    modifies hs`state, hs`inbox, hs`pending, hs`transcript, hs`certRequest, hs`peerCert
    ensures hs.Abs().(wait := ret) == HandshakeServer.DoReadClientKeyExchange(c, old(hs.Abs()), e)
  {
    if hs.inbox.None? {
      return ReadMessage;
    }
    if hs.inbox.value.Kind() != ClientKeyExchange {
      return Error;
    }
    if !c.ecdhe && !c.psk && e.suspend {
      return Parked;
    }
    hs.TakeMessage();
    hs.state := ReadClientCertificateVerify;
    return Wait.Ok;
  }

  method DoReadClientCertificateVerify(hs: Hs) returns (ret: Wait)
    requires hs.wait.Ok?
    modifies hs`state, hs`inbox, hs`pending, hs`transcript, hs`certRequest, hs`peerCert
    ensures hs.Abs().(wait := ret) == HandshakeServer.DoReadClientCertificateVerify(old(hs.Abs()))
  {
    if !hs.peerCert {
      hs.state := ReadChangeCipherSpec;
      return Wait.Ok;
    }
    ret := hs.ReceiveMessage(CertificateVerify, ReadChangeCipherSpec);
  }

  method DoProcessChangeCipherSpec(hs: Hs) returns (ret: Wait)
    requires hs.wait.Ok?
    modifies hs`state, hs`inbox, hs`pending, hs`transcript, hs`certRequest, hs`peerCert
    ensures hs.Abs().(wait := ret) == HandshakeServer.DoProcessChangeCipherSpec(old(hs.Abs()))
  {
    if hs.inbox.Some? {
      return Error;
    }
    hs.state := ReadNextProto;
    return Wait.Ok;
  }

  method DoReadNextProto(hs: Hs, c: Config) returns (ret: Wait)
    requires hs.wait.Ok?
    modifies hs`state, hs`inbox, hs`pending, hs`transcript, hs`certRequest, hs`peerCert
    ensures hs.Abs().(wait := ret) == HandshakeServer.DoReadNextProto(c, old(hs.Abs()))
  {
    if !c.npn {
      hs.state := ReadChannelId;
      return Wait.Ok;
    }
    ret := hs.ReceiveMessage(NextProto, ReadChannelId);
  }

  method DoReadChannelId(hs: Hs, c: Config) returns (ret: Wait)
    requires hs.wait.Ok?
    modifies hs`state, hs`inbox, hs`pending, hs`transcript, hs`certRequest, hs`peerCert
    ensures hs.Abs().(wait := ret) == HandshakeServer.DoReadChannelId(c, old(hs.Abs()))
  {
    if !c.channelId {
      hs.state := ReadClientFinished;
      return Wait.Ok;
    }
    ret := hs.ReceiveMessage(ChannelId, ReadClientFinished);
  }

  method DoSendServerFinished(hs: Hs, c: Config, e: Env) returns (ret: Wait)
    requires hs.wait.Ok?
    modifies hs`state, hs`inbox, hs`pending, hs`transcript, hs`certRequest, hs`peerCert
    ensures hs.Abs().(wait := ret) == HandshakeServer.DoSendServerFinished(c, old(hs.Abs()), e)
  {
    if c.ticket {
      hs.AddMessage(Plain(NewSessionTicket, e.body));
    }
    hs.AddChangeCipherSpec();
    hs.AddMessage(Finished(true, hs.transcript));
    hs.state := if c.resume then ReadChangeCipherSpec else FinishServerHandshake;
    return Flush;
  }

  /** The switch of ssl_server_handshake. */
  method DoOne(hs: Hs, c: Config, e: Env) returns (ret: Wait)
    requires hs.wait.Ok?
    modifies hs`state, hs`inbox, hs`pending, hs`transcript, hs`certRequest, hs`peerCert
    ensures hs.Abs().(wait := ret) == Do(c, old(hs.Abs()), e)
    ensures old(hs.state.ReadClientFinished?) && old(hs.inbox.Some?) ==>
              (ret == Error <==> old(hs.inbox.value) != Finished(false, old(hs.transcript)))
    ensures old(Ready(c, hs.Abs())) ==> ret != Error && Good(c, old(hs.Abs()), hs.Abs().(wait := ret))
  {
    if Ready(c, hs.Abs()) { ReadyFollows(c, hs.Abs(), e); }
    hide Ready, Good;
    match hs.state
    case StartAccept => hs.state := ReadClientHello; ret := Wait.Ok;
    case ReadClientHello => ret := DoReadClientHello(hs, e);
    case SelectCertificate => ret := DoSelectCertificate(hs, e);
    case SelectParameters => ret := DoSelectParameters(hs, c, e);
    case SendServerHello => ret := DoSendServerHello(hs, c, e);
    case SendServerCertificate => ret := DoSendServerCertificate(hs, c, e);
    case SendServerKeyExchange => ret := DoSendServerKeyExchange(hs, c, e);
    case SendServerHelloDone => ret := DoSendServerHelloDone(hs, e);
    case ReadClientCertificate => ret := DoReadClientCertificate(hs, c);
    case VerifyClientCertificate => ret := DoVerifyClientCertificate(hs, e);
    case ReadClientKeyExchange => ret := DoReadClientKeyExchange(hs, c, e);
    case ReadClientCertificateVerify => ret := DoReadClientCertificateVerify(hs);
    case ReadChangeCipherSpec => hs.state := ProcessChangeCipherSpec; ret := ReadCcs;
    case ProcessChangeCipherSpec => ret := DoProcessChangeCipherSpec(hs);
    case ReadNextProto => ret := DoReadNextProto(hs, c);
    case ReadChannelId => ret := DoReadChannelId(hs, c);
    case ReadClientFinished =>
      ret := hs.ReceiveFinished(false, if c.resume then FinishServerHandshake else SendServerFinished);
    case SendServerFinished => ret := DoSendServerFinished(hs, c, e);
    case FinishServerHandshake => hs.state := Done; ret := Wait.Ok;
    case Done => ret := Wait.Ok;
  }

  /** ssl_server_handshake. It is a run of the server's steps, up to the first that
      has to wait; facing an honest client it does not fail. */
  method Handshake(hs: Hs, c: Config, calls: nat -> Env, ghost peer: C.Client, ghost arriving: seq<Item>, ghost leaving: seq<Item>)
    returns (ret: Wait, ghost schedule: seq<(bool, Env)>)
    requires hs.wait.Ok?
    modifies hs`state, hs`inbox, hs`pending, hs`transcript, hs`certRequest, hs`peerCert
    ensures Product(peer, hs.Abs().(wait := ret), arriving, leaving) ==
            Run(c, Product(peer, old(hs.Abs()), arriving, leaving), schedule)
    ensures ret.Ok? ==> hs.state.Done?
    ensures Safety.ServerOnly(schedule)
    ensures old(Inv(c, Product(peer, hs.Abs(), arriving, leaving))) ==>
              ret != Error && Inv(c, Product(peer, hs.Abs().(wait := ret), arriving, leaving))
  {
    hide Do, Run, Inv, Step, Good, Ready;
    ghost var p := Product(peer, hs.Abs(), arriving, leaving);
    var i: nat := 0;
    schedule := [];
    RunNothing(c, p);
    while hs.state != Done
      invariant Safety.ServerOnly(schedule)
      invariant hs.wait.Ok? && Product(peer, hs.Abs(), arriving, leaving) == Run(c, p, schedule)
      decreases Rank(c, hs.state)
    {
      DoMoves(c, hs.Abs(), calls(i));
      SuccCloser(c, hs.state);
      CallIsStep(c, Product(peer, hs.Abs(), arriving, leaving), calls(i));
      RunOne(c, p, schedule, true, calls(i));
      schedule := schedule + [(true, calls(i))];
      ret := DoOne(hs, c, calls(i));
      if ret != Wait.Ok {
        Faces(c, p, schedule);
        return;
      }
      i := i + 1;
    }
    ret := Wait.Ok;
    Faces(c, p, schedule);
  }

  lemma CallIsStep(c: Config, p: Product, e: Env)
    requires p.server.wait.Ok?
    ensures Step(c, p, true, e) == p.(server := Do(c, p.server, e))
  {}

  lemma WaitIsStep(c: Config, p: Product, e: Env)
    requires !p.server.wait.Ok?
    ensures var (m, arriving, leaving) := Resolve(p.server, p.c2s, p.s2c, e);
            Step(c, p, true, e) == p.(server := m, c2s := arriving, s2c := leaving)
  {}

  lemma ReadyFollows(c: Config, m: Server, e: Env)
    requires Ready(c, m)
    ensures Good(c, m, Do(c, m, e)) && Do(c, m, e).wait != Error
  {
    hide Do, Rest, Follows, Ready;
    DoFollows(c, m, e);
  }

  /** What the run keeps against any peer. */
  lemma SafetyKept(c: Config, v: Config, p: Product, schedule: seq<(bool, Env)>, taken: seq<Item>) returns (u: Config)
    requires Safety.ServerOnly(schedule)
    ensures var q := Run(c, p, schedule);
            Safety.Sound(c, v, p.server, taken, p.s2c) ==>
              && |q.c2s| <= |p.c2s| && Safety.Sound(c, u, q.server, taken + p.c2s[..|p.c2s| - |q.c2s|], q.s2c)
              && (q.server.state.Done? && q.server.wait.Ok? ==>
                    Verified(q.server.transcript, false) && Kinds(q.server.transcript) == SlotKinds(Flow(u)))
  {
    hide Safety.Sound, Run, Verified, Kinds, SlotKinds, Flow, Safety.Before;
    u := v;
    if Safety.Sound(c, v, p.server, taken, p.s2c) {
      u := Safety.RunSound(c, v, p, schedule, taken);
      var q := Run(c, p, schedule);
      if q.server.state.Done? && q.server.wait.Ok? {
        Safety.BeforeDone(u);
        Safety.DoneHolds(c, u, q.server, taken + p.c2s[..|p.c2s| - |q.c2s|], q.s2c);
      }
    }
  }

  /** ssl_run_handshake for the server: what it waits for is resolved and the machine
      called, until the transport or a callback holds it up or it is done. It is a
      run of the server's steps and, facing an honest client, does not fail. */
  method RunHandshake(hs: Hs, c: Config, turns: seq<Turn>, arriving: seq<Item>, leaving: seq<Item>, ghost peer: C.Client,
                      ghost v: Config, ghost taken: seq<Item>)
    returns (ret: int, early: bool, rest: seq<Item>, gone: seq<Item>, ghost schedule: seq<(bool, Env)>, ghost n: nat, ghost u: Config)
    modifies hs
    ensures Safety.ServerOnly(schedule)
    // Whatever the peer sends, the server goes on only along the flow, and is done only
    // after it has verified a Finished of the peer.
    ensures old(Safety.Sound(c, v, hs.Abs(), taken, leaving)) ==>
              && |rest| <= |arriving| && Safety.Sound(c, u, hs.Abs(), taken + arriving[..|arriving| - |rest|], gone)
              && (ret == 1 && !early ==> Verified(hs.transcript, false) && Kinds(hs.transcript) == SlotKinds(Flow(u)))
    ensures Product(peer, hs.Abs(), rest, gone) ==
            Run(c, Product(peer, old(hs.Abs()), arriving, leaving), schedule)
    ensures if ret == 1 then !early ==> hs.state.Done? && hs.wait.Ok? else ret == -1 && !early
    ensures turns != [] && !(old(hs.wait).Ok? && old(hs.state).Done?) ==> schedule != []
    ensures n <= |turns| && (ret == -1 && n < |turns| ==>
                               || hs.wait.Ok? || hs.wait.Error? || hs.wait.Flush?
                               || ((hs.wait.ReadMessage? || hs.wait.ReadCcs?) && rest == []))
    ensures old(Inv(c, Product(peer, hs.Abs(), arriving, leaving))) ==>
              hs.wait != Error && Inv(c, Product(peer, hs.Abs(), rest, gone))
  {
    hide Do, Run, Inv, Step, Resolve, Safety.Sound, Verified, Kinds, SlotKinds, Flow;
    ghost var p := Product(peer, hs.Abs(), arriving, leaving);
    rest, gone, early, schedule, n, u := arriving, leaving, false, [], 0, v;
    RunNothing(c, p);
    var i: nat := 0;
    ret := -1;
    while i < |turns|
      invariant Safety.ServerOnly(schedule)
      invariant n == i <= |turns| && ret == -1 && !early && Product(peer, hs.Abs(), rest, gone) == Run(c, p, schedule)
      invariant i > 0 && !(old(hs.wait).Ok? && old(hs.state).Done?) ==> schedule != []
      decreases |turns| - i
    {
      if hs.wait != Wait.Ok {
        var was := hs.wait;
        WaitIsStep(c, Product(peer, hs.Abs(), rest, gone), turns[i].io);
        RunOne(c, p, schedule, true, turns[i].io);
        schedule := schedule + [(true, turns[i].io)];
        ResolveBlocks(hs.Abs(), rest, gone, turns[i].io);
        rest, gone := hs.ResolveWait(rest, gone, turns[i].io);
        if was == EarlyReturn {
          ret, early := 1, true;
          break;
        }
        if was == Parked || hs.wait != Wait.Ok {
          break;
        }
      }
      ghost var more;
      ghost var before := Product(peer, hs.Abs(), rest, gone);
      var w;
      w, more := Handshake(hs, c, turns[i].calls, peer, rest, gone);
      hs.wait := w;
      RunConcat(c, p, schedule, more);
      schedule := schedule + more;
      if w == Wait.Ok {
        ret := 1;
        break;
      }
      if w == Error {
        break;
      }
      i, n := i + 1, n + 1;
    }
    Faces(c, p, schedule);
    u := SafetyKept(c, v, p, schedule, taken);
  }
}
