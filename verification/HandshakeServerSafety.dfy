/** The server against any peer, honest or not: it is done only after a handshake that
    the standards allow, with a Finished of the client over its own transcript. */
module HandshakeServerSafety {
  import opened Wrappers
  import opened HandshakeFlow
  import opened HandshakeSpec
  import opened HandshakePeer
  import opened HandshakeServer
  import C = HandshakeClient
  import opened HandshakeRun

  /** What the client may choose without the server knowing beforehand: to send no
      certificate when it is asked for one. */
  predicate Variant(c: Config, v: Config) {
    && v.resume == c.resume && v.ecdhe == c.ecdhe && v.psk == c.psk && v.pskHint == c.pskHint
    && v.verifyPeer == c.verifyPeer && v.failIfNoCert == c.failIfNoCert && v.ocsp == c.ocsp
    && v.ticket == c.ticket && v.npn == c.npn && v.channelId == c.channelId
    && (v.ocsp ==> v.CertAuth())
  }

  function Pred(c: Config, s: State): State {
    match s
    case StartAccept => StartAccept
    case ReadClientHello => StartAccept
    case SelectCertificate => ReadClientHello
    case SelectParameters => SelectCertificate
    case SendServerHello => SelectParameters
    case SendServerCertificate => SendServerHello
    case SendServerKeyExchange => SendServerCertificate
    case SendServerHelloDone => SendServerKeyExchange
    case ReadClientCertificate => SendServerHelloDone
    case VerifyClientCertificate => ReadClientCertificate
    case ReadClientKeyExchange => VerifyClientCertificate
    case ReadClientCertificateVerify => ReadClientKeyExchange
    case ReadChangeCipherSpec => if c.resume then SendServerFinished else ReadClientCertificateVerify
    case ProcessChangeCipherSpec => ReadChangeCipherSpec
    case ReadNextProto => ProcessChangeCipherSpec
    case ReadChannelId => ReadNextProto
    case ReadClientFinished => ReadChannelId
    case SendServerFinished => if c.resume then SendServerHello else ReadClientFinished
    case FinishServerHandshake => if c.resume then ReadClientFinished else SendServerFinished
    case Done => FinishServerHandshake
  }

  /** The part of the flow before a state. */
  function Before(c: Config, s: State): seq<Slot>
    decreases 19 - Rank(c, s)
  {
    if s.StartAccept? then [] else Before(c, Pred(c, s)) + Head(c, Pred(c, s))
  }

  lemma BeforeStep(c: Config, s: State)
    requires !s.Done? && (FullOnly(s) ==> !c.resume)
    ensures Before(c, Succ(c, s)) == Before(c, s) + Head(c, s)
  {
    PredOfSucc(c, s);
    hide Head, Succ, Pred;
  }

  lemma PredOfSucc(c: Config, s: State)
    requires !s.Done? && (FullOnly(s) ==> !c.resume)
    ensures Pred(c, Succ(c, s)) == s && !Succ(c, s).StartAccept?
  {}

  lemma {:induction false} BeforeAndRest(c: Config, s: State)
    requires FullOnly(s) ==> !c.resume
    ensures Before(c, s) + Rest(c, s) == Flow(c)
    decreases 19 - Rank(c, s)
  {
    hide Rest, Flow, Head;
    if s.StartAccept? {
      FollowsFlow(c);
      assert [] + Rest(c, s) == Rest(c, s);
    } else {
      var p := Pred(c, s);
      BeforeAndRest(c, p);
      Unfold(c, p);
      assert Before(c, p) + (Head(c, p) + Rest(c, s)) == Before(c, p) + Head(c, p) + Rest(c, s);
    }
  }

  lemma BeforeDone(c: Config)
    ensures Before(c, Done) == Flow(c)
  {
    hide Flow, Before;
    BeforeAndRest(c, Done);
    Unfold(c, Done);
    assert Before(c, Done) + [] == Before(c, Done);
  }

  /** What the variants do not differ in. */
  ghost predicate AgreeBefore(v: Config, w: Config, s: State) {
    v.resume == w.resume && forall t :: Rank(v, t) > Rank(v, s) ==> Head(v, t) == Head(w, t)
  }

  lemma {:induction false} BeforeAgrees(v: Config, w: Config, s: State)
    requires AgreeBefore(v, w, s)
    ensures Before(v, s) == Before(w, s)
    decreases 19 - Rank(v, s)
  {
    hide Head;
    if !s.StartAccept? { BeforeAgrees(v, w, Pred(v, s)); }
  }

  /** States that are reached only through a checked Finished. */
  predicate After(c: Config, s: State) {
    s.FinishServerHandshake? || s.Done? || (!c.resume && s.SendServerFinished?)
  }

  /** States in which a message may be in hand. */
  predicate CanHold(v: Config, m: Server) {
    || m.state.ReadClientHello? || m.state.SelectCertificate? || m.state.SelectParameters?
    || (m.state.ReadClientCertificate? && m.certRequest) || m.state.ReadClientKeyExchange?
    || (m.state.ReadClientCertificateVerify? && m.peerCert) || (m.state.ReadNextProto? && v.npn)
    || (m.state.ReadChannelId? && v.channelId) || m.state.ReadClientFinished?
  }

  /** The ClientHello stays in hand until it is hashed. */
  predicate Selecting(s: State) { s.SelectCertificate? || s.SelectParameters? }

  predicate Shape(v: Config, m: Server) {
    && m.wait != Error
    && (FullOnly(m.state) ==> !v.resume)
    && m.certRequest == (!Early(m.state) && v.RequestsCert())
    && m.peerCert == (!Unauthenticated(m.state) && v.RequestsCert() && v.clientCert)
    && (!Unauthenticated(m.state) && v.RequestsCert() && v.failIfNoCert ==> v.clientCert)
    && (m.inbox.Some? ==> CanHold(v, m))
    && (Selecting(m.state) ==> m.inbox.Some? && m.inbox.value.Kind() == ClientHello)
    && (m.wait == ReadMessage ==> m.inbox.None? && CanHold(v, m))
    && (m.wait == ReadCcs ==> m.state == ProcessChangeCipherSpec && m.inbox.None?)
  }

  /** What the server has been through. */
  function PastOf(v: Config, m: Server): seq<Slot> {
    Before(v, if m.wait.ReadCcs? then ReadChangeCipherSpec else m.state)
  }

  /** For one of the variants, the server has been through a part of the flow, and
      everything it took and sent is that; past the Finished, it was verified. */
  ghost predicate Sound(c: Config, v: Config, m: Server, taken: seq<Item>, sent: seq<Item>) {
    m.wait != Error ==>
      && Variant(c, v) && Shape(v, m) && Told(true, m, taken, sent, PastOf(v, m))
      && (After(v, m.state) ==> Verified(m.transcript, false))
  }

  lemma StartSound(c: Config)
    requires c.ocsp ==> c.CertAuth()
    ensures Sound(c, c, Fresh(StartAccept), [], [])
  {
    StartTold(true, StartAccept);
    StartShape(c);
    hide Told, Before, Shape, Variant, PastOf, After;
  }

  lemma StartShape(c: Config)
    requires c.ocsp ==> c.CertAuth()
    ensures Variant(c, c) && Shape(c, Fresh(StartAccept)) && !After(c, StartAccept) && PastOf(c, Fresh(StartAccept)) == []
  {}

  // ---- One call ----

  /** What a call did, with the variant that it settles. */
  ghost predicate Advanced(c: Config, v: Config, m: Server, w: Config, r: Server, delta: seq<Slot>) {
    Variant(c, w) && Shape(w, r) && PastOf(w, r) == PastOf(v, m) + delta && Moved(true, m, r, delta)
  }

  lemma Stays(c: Config, v: Config, m: Server, r: Server)
    requires Variant(c, v) && Shape(v, r) && m.wait.Ok? && r.state == m.state && Kept(m, r) && r.wait != ReadCcs
    ensures Advanced(c, v, m, v, r, [])
  {
    assert Before(v, m.state) + [] == Before(v, m.state);
  }

  /** The call moves on to the next state, and `delta` is the part of the flow that
      belongs to this one. */
  lemma Goes(c: Config, v: Config, m: Server, w: Config, r: Server, delta: seq<Slot>)
    requires Variant(c, w) && Shape(w, r) && m.wait.Ok? && !m.state.Done? && (FullOnly(m.state) ==> !w.resume)
    requires AgreeBefore(v, w, m.state) && r.state == Succ(w, m.state) && Head(w, m.state) == delta && r.wait != ReadCcs
    requires Moved(true, m, r, delta)
    ensures Advanced(c, v, m, w, r, delta)
  {
    hide Head, Before;
    BeforeAgrees(v, w, m.state);
    BeforeStep(w, m.state);
  }

  /** The call moves on from a state that sends and receives nothing. */
  lemma Passes(c: Config, v: Config, m: Server, w: Config, r: Server)
    requires Variant(c, w) && Shape(w, m.(state := r.state, certRequest := r.certRequest, peerCert := r.peerCert)) && m.wait.Ok? && !m.state.Done?
    requires FullOnly(m.state) ==> !w.resume
    requires AgreeBefore(v, w, m.state) && r.state == Succ(w, m.state) && Head(w, m.state) == []
    requires Kept(m, r) && r.wait.Ok?
    ensures Advanced(c, v, m, w, r, [])
  {
    Goes(c, v, m, w, r, []);
  }

  lemma Agree(v: Config, s: State)
    ensures AgreeBefore(v, v, s)
  {}

  lemma AgreeCertificate(v: Config, b: bool)
    ensures AgreeBefore(v, v.(clientCert := b), ReadClientCertificate)
  {}

  lemma OneSent(m: Server, r: Server, x: Msg, delta: seq<Slot>)
    requires r.inbox == m.inbox && r.pending == m.pending + [Hs(x)] && r.transcript == m.transcript + [x]
    requires delta == One(true, x.Kind())
    ensures Moved(true, m, r, delta)
  {
    assert Msgs([Hs(x)]) == [x] by { assert Msgs([]) == []; }
    assert SlotsOf(true, [Hs(x)]) == delta;
    assert Sent(true, m, r, [Hs(x)], delta);
  }

  lemma TwoSent(m: Server, r: Server, x: Msg, y: Msg, delta: seq<Slot>)
    requires r.inbox == m.inbox && r.pending == m.pending + [Hs(x), Hs(y)] && r.transcript == m.transcript + [x, y]
    requires delta == One(true, x.Kind()) + One(true, y.Kind())
    ensures Moved(true, m, r, delta)
  {
    MsgsConcat([Hs(x)], [Hs(y)]);
    SlotsConcat(true, [Hs(x)], [Hs(y)]);
    assert [Hs(x)] + [Hs(y)] == [Hs(x), Hs(y)] && [x] + [y] == [x, y];
    assert Msgs([Hs(x)]) == [x] && Msgs([Hs(y)]) == [y] by { assert Msgs([]) == []; }
    assert SlotsOf(true, [Hs(x)]) == One(true, x.Kind()) && SlotsOf(true, [Hs(y)]) == One(true, y.Kind());
    assert Sent(true, m, r, [Hs(x), Hs(y)], delta);
  }

  /** Receiving the one message of a state, or waiting for it, or refusing another. */
  lemma Receives(c: Config, v: Config, m: Server, k: Kind, w: Config, r: Server) returns (u: Config, delta: seq<Slot>)
    requires Variant(c, v) && Variant(c, w) && Shape(v, m) && m.wait.Ok? && !m.state.Done? && (FullOnly(m.state) ==> !w.resume)
    requires AgreeBefore(v, w, m.state) && Head(w, m.state) == One(false, k) && CanHold(v, m) && m.state != Succ(w, m.state)
    requires r == Receive(m, k, Succ(w, m.state)).(peerCert := r.peerCert)
    requires m.inbox.None? ==> r.peerCert == m.peerCert && !Selecting(m.state)
    requires m.inbox.Some? && r.wait != Error ==> Shape(w, r)
    ensures u == v || u == w
    ensures r.wait != Error ==> Advanced(c, v, m, u, r, delta)
  {
    u, delta := v, [];
    if m.inbox.None? {
      Stays(c, v, m, r);
    } else if r.wait != Error {
      u, delta := w, One(false, k);
      Goes(c, v, m, w, r, delta);
    }
  }

  /** Before the ServerHello. */
  lemma HelloCall(c: Config, v: Config, m: Server, e: Env)
    requires Variant(c, v) && Shape(v, m) && m.wait.Ok?
    requires m.state == ReadClientHello || m.state == SelectCertificate
    ensures Do(c, m, e).wait != Error ==> Advanced(c, v, m, v, Do(c, m, e), [])
  {
    var r := Do(c, m, e);
    Agree(v, m.state);
    hide AgreeBefore, Advanced, Moved, Head;
    if r.state == m.state {
      if r.wait != Error { Stays(c, v, m, r); }
    } else {
      NoHello(v, m.state);
      Passes(c, v, m, v, r);
    }
  }

  lemma NoHello(v: Config, s: State)
    ensures s == ReadClientHello || s == SelectCertificate ==> Head(v, s) == []
  {}

  lemma ParametersCall(c: Config, v: Config, m: Server, e: Env) returns (delta: seq<Slot>)
    requires Variant(c, v) && Shape(v, m) && m.wait.Ok? && m.state == SelectParameters
    ensures Advanced(c, v, m, v, Do(c, m, e), delta)
  {
    var r := Do(c, m, e);
    Agree(v, m.state);
    hide AgreeBefore, Advanced, Moved;
    delta := [];
    if r.state == m.state {
      Stays(c, v, m, r);
    } else {
      delta := One(false, ClientHello);
      TookMoved(m, r);
      Goes(c, v, m, v, r, delta);
    }
  }

  lemma ServerHelloCall(c: Config, v: Config, m: Server, e: Env)
    requires Variant(c, v) && Shape(v, m) && m.wait.Ok? && m.state == SendServerHello
    ensures Advanced(c, v, m, v, Do(c, m, e), One(true, ServerHello))
  {
    var r := Do(c, m, e);
    OneSent(m, r, Plain(ServerHello, e.body), One(true, ServerHello));
    Agree(v, m.state);
    hide AgreeBefore, Advanced, Moved;
    Goes(c, v, m, v, r, One(true, ServerHello));
  }

  lemma CertificateCall(c: Config, v: Config, m: Server, e: Env) returns (delta: seq<Slot>)
    requires Variant(c, v) && Shape(v, m) && m.wait.Ok? && m.state == SendServerCertificate
    ensures Advanced(c, v, m, v, Do(c, m, e), delta)
  {
    var r := Do(c, m, e);
    Agree(v, m.state);
    hide AgreeBefore, Advanced, Moved;
    delta := [];
    if !c.CertAuth() {
      Passes(c, v, m, v, r);
    } else {
      var x, y := Plain(Certificate, ChainOf(true, e.body)), Plain(CertificateStatus, e.body);
      delta := Head(v, m.state);
      if c.ocsp {
        assert m.pending + [Hs(x)] + [Hs(y)] == m.pending + [Hs(x), Hs(y)] && m.transcript + [x] + [y] == m.transcript + [x, y];
        TwoSent(m, r, x, y, delta);
      } else {
        OneSent(m, r, x, delta);
      }
      Goes(c, v, m, v, r, delta);
    }
  }

  lemma KeyExchangeCall(c: Config, v: Config, m: Server, e: Env) returns (delta: seq<Slot>)
    requires Variant(c, v) && Shape(v, m) && m.wait.Ok? && m.state == SendServerKeyExchange
    ensures Advanced(c, v, m, v, Do(c, m, e), delta)
  {
    hide AgreeBefore, Advanced, Moved;
    delta := [];
    if !c.SendsKeyExchange() {
      Agree(v, m.state);
      Passes(c, v, m, v, Do(c, m, e));
    } else if c.CertAuth() && e.suspend {
      Stays(c, v, m, Do(c, m, e));
    } else {
      delta := One(true, ServerKeyExchange);
      KeyExchangeSent(c, v, m, e);
    }
  }

  lemma KeyExchangeSent(c: Config, v: Config, m: Server, e: Env)
    requires Variant(c, v) && Shape(v, m) && m.wait.Ok? && m.state == SendServerKeyExchange
    requires c.SendsKeyExchange() && !(c.CertAuth() && e.suspend)
    ensures Advanced(c, v, m, v, Do(c, m, e), One(true, ServerKeyExchange))
  {
    Agree(v, m.state);
    hide AgreeBefore, Advanced, Moved;
    OneSent(m, Do(c, m, e), Plain(ServerKeyExchange, e.body), One(true, ServerKeyExchange));
    Goes(c, v, m, v, Do(c, m, e), One(true, ServerKeyExchange));
  }

  lemma HelloDoneCall(c: Config, v: Config, m: Server, e: Env) returns (delta: seq<Slot>)
    requires Variant(c, v) && Shape(v, m) && m.wait.Ok? && m.state == SendServerHelloDone
    ensures Advanced(c, v, m, v, Do(c, m, e), delta)
  {
    var r := Do(c, m, e);
    Agree(v, m.state);
    hide AgreeBefore, Advanced, Moved;
    var x, y := Plain(CertificateRequest, e.body), Plain(ServerHelloDone, e.body);
    delta := Head(v, m.state);
    if m.certRequest {
      assert m.pending + [Hs(x)] + [Hs(y)] == m.pending + [Hs(x), Hs(y)] && m.transcript + [x] + [y] == m.transcript + [x, y];
      TwoSent(m, r, x, y, delta);
    } else {
      OneSent(m, r, y, delta);
    }
    Goes(c, v, m, v, r, delta);
  }

  /** The certificate of the client, which may be empty unless the server insists. */
  lemma ClientCertificateCall(c: Config, v: Config, m: Server, e: Env) returns (u: Config, delta: seq<Slot>)
    requires Variant(c, v) && Shape(v, m) && m.wait.Ok? && m.state == ReadClientCertificate
    ensures Do(c, m, e).wait != Error ==> Advanced(c, v, m, u, Do(c, m, e), delta)
  {
    hide AgreeBefore, Advanced, Moved;
    var r := Do(c, m, e);
    u, delta := v, [];
    if !m.certRequest {
      Agree(v, m.state);
      Passes(c, v, m, v, r);
    } else if m.inbox.None? {
      Stays(c, v, m, r);
    } else if r.wait != Error {
      var b := m.inbox.value.Plain? && m.inbox.value.body > 0;
      AgreeCertificate(v, b);
      CertificateShape(c, v, m, e, b);
      u, delta := Receives(c, v, m, Certificate, v.(clientCert := b), r);
    }
  }

  lemma CertificateShape(c: Config, v: Config, m: Server, e: Env, b: bool)
    requires Variant(c, v) && Shape(v, m) && m.wait.Ok? && m.state == ReadClientCertificate && m.certRequest && m.inbox.Some?
    requires b == (m.inbox.value.Plain? && m.inbox.value.body > 0) && Do(c, m, e).wait != Error
    ensures Variant(c, v.(clientCert := b)) && Shape(v.(clientCert := b), Do(c, m, e))
  {}

  /** States in which one message is read, or none. */
  predicate Reads(s: State) {
    s.ReadClientKeyExchange? || s.ReadClientCertificateVerify? || s.ReadNextProto? || s.ReadChannelId?
  }

  lemma ReadCall(c: Config, v: Config, m: Server, e: Env) returns (delta: seq<Slot>)
    requires Variant(c, v) && Shape(v, m) && m.wait.Ok? && Reads(m.state)
    ensures Do(c, m, e).wait != Error ==> Advanced(c, v, m, v, Do(c, m, e), delta)
  {
    hide Advanced, Do, Variant, Shape;
    if m.state == ReadClientKeyExchange { delta := ReadKeyExchange(c, v, m, e); }
    else if m.state == ReadClientCertificateVerify { delta := ReadVerify(c, v, m, e); }
    else if m.state == ReadNextProto { delta := ReadNext(c, v, m, e); }
    else { delta := ReadChannel(c, v, m, e); }
  }

  lemma ReadKeyExchange(c: Config, v: Config, m: Server, e: Env) returns (delta: seq<Slot>)
    requires Variant(c, v) && Shape(v, m) && m.wait.Ok? && m.state == ReadClientKeyExchange
    ensures Do(c, m, e).wait != Error ==> Advanced(c, v, m, v, Do(c, m, e), delta)
  {
    hide AgreeBefore, Advanced, Moved;
    delta := [];
    if m.inbox.Some? && m.inbox.value.Kind() == ClientKeyExchange && (c.ecdhe || c.psk || !e.suspend) {
      delta := One(false, ClientKeyExchange);
      KeyExchangeTaken(c, v, m, e);
    } else if Do(c, m, e).wait != Error {
      Stays(c, v, m, Do(c, m, e));
    }
  }

  lemma KeyExchangeTaken(c: Config, v: Config, m: Server, e: Env)
    requires Variant(c, v) && Shape(v, m) && m.wait.Ok? && m.state == ReadClientKeyExchange
    requires m.inbox.Some? && m.inbox.value.Kind() == ClientKeyExchange && (c.ecdhe || c.psk || !e.suspend)
    ensures Advanced(c, v, m, v, Do(c, m, e), One(false, ClientKeyExchange))
  {
    Agree(v, m.state);
    hide AgreeBefore, Advanced, Moved;
    TookMoved(m, Do(c, m, e));
    Goes(c, v, m, v, Do(c, m, e), One(false, ClientKeyExchange));
  }

  lemma ReadVerify(c: Config, v: Config, m: Server, e: Env) returns (delta: seq<Slot>)
    requires Variant(c, v) && Shape(v, m) && m.wait.Ok? && m.state == ReadClientCertificateVerify
    ensures Do(c, m, e).wait != Error ==> Advanced(c, v, m, v, Do(c, m, e), delta)
  {
    var r := Do(c, m, e);
    Agree(v, m.state);
    hide AgreeBefore, Advanced, Moved;
    delta := [];
    if r.wait == Error {
    } else if r.state == m.state {
      Stays(c, v, m, r);
    } else if r.inbox == m.inbox {
      Passes(c, v, m, v, r);
    } else {
      delta := One(false, CertificateVerify);
      TookMoved(m, r);
      Goes(c, v, m, v, r, delta);
    }
  }

  lemma ReadNext(c: Config, v: Config, m: Server, e: Env) returns (delta: seq<Slot>)
    requires Variant(c, v) && Shape(v, m) && m.wait.Ok? && m.state == ReadNextProto
    ensures Do(c, m, e).wait != Error ==> Advanced(c, v, m, v, Do(c, m, e), delta)
  {
    var r := Do(c, m, e);
    Agree(v, m.state);
    hide AgreeBefore, Advanced, Moved;
    delta := [];
    if r.wait == Error {
    } else if r.state == m.state {
      Stays(c, v, m, r);
    } else if r.inbox == m.inbox {
      Passes(c, v, m, v, r);
    } else {
      delta := One(false, NextProto);
      TookMoved(m, r);
      Goes(c, v, m, v, r, delta);
    }
  }

  lemma ReadChannel(c: Config, v: Config, m: Server, e: Env) returns (delta: seq<Slot>)
    requires Variant(c, v) && Shape(v, m) && m.wait.Ok? && m.state == ReadChannelId
    ensures Do(c, m, e).wait != Error ==> Advanced(c, v, m, v, Do(c, m, e), delta)
  {
    var r := Do(c, m, e);
    Agree(v, m.state);
    hide AgreeBefore, Advanced, Moved;
    delta := [];
    if r.wait == Error {
    } else if r.state == m.state {
      Stays(c, v, m, r);
    } else if r.inbox == m.inbox {
      Passes(c, v, m, v, r);
    } else {
      delta := One(false, ChannelId);
      TookMoved(m, r);
      Goes(c, v, m, v, r, delta);
    }
  }

  lemma TookMoved(m: Server, r: Server)
    requires m.inbox.Some? && r.inbox.None? && r.pending == m.pending && r.transcript == m.transcript + [m.inbox.value]
    ensures Moved(true, m, r, One(false, m.inbox.value.Kind()))
  {}

  lemma CheckCall(c: Config, v: Config, m: Server, e: Env) returns (delta: seq<Slot>)
    requires Variant(c, v) && Shape(v, m) && m.wait.Ok? && m.state == ReadClientFinished
    ensures Do(c, m, e).wait != Error ==> Advanced(c, v, m, v, Do(c, m, e), delta)
    ensures Do(c, m, e).wait != Error && Do(c, m, e).state != m.state ==> Verified(Do(c, m, e).transcript, false)
  {
    var r := Do(c, m, e);
    Agree(v, m.state);
    hide AgreeBefore, Advanced;
    delta := [];
    if m.inbox.None? {
      Stays(c, v, m, r);
    } else if r.wait != Error {
      MismatchRefused(m, false, r.state);
      delta := One(false, FinishedKind);
      Goes(c, v, m, v, r, delta);
    }
  }

  lemma CcsCall(c: Config, v: Config, m: Server, e: Env)
    requires Variant(c, v) && Shape(v, m) && m.wait.Ok? && m.state == ReadChangeCipherSpec
    ensures Advanced(c, v, m, v, Do(c, m, e), [])
  {
    hide Before;
    assert Before(v, ReadChangeCipherSpec) + [] == Before(v, ReadChangeCipherSpec);
  }

  function TailItems(c: Config, m: Server, e: Env): seq<Item> {
    var a := if c.ticket then [Plain(NewSessionTicket, e.body)] else [];
    (if c.ticket then [Hs(Plain(NewSessionTicket, e.body))] else []) + [Ccs] + [Hs(Finished(true, m.transcript + a))]
  }

  lemma FinishedCall(c: Config, v: Config, m: Server, e: Env)
    requires Variant(c, v) && Shape(v, m) && m.wait.Ok? && m.state == SendServerFinished
    ensures Advanced(c, v, m, v, Do(c, m, e), ServerTail(v))
  {
    TailSent(c, m, e);
    Agree(v, m.state);
    hide AgreeBefore, Advanced;
    Goes(c, v, m, v, Do(c, m, e), ServerTail(v));
  }

  lemma TailSent(c: Config, m: Server, e: Env)
    ensures Sent(true, m, DoSendServerFinished(c, m, e), TailItems(c, m, e), ServerTail(c))
  {
    TailMsgs(c, m, e);
    var t := Plain(NewSessionTicket, e.body);
    if c.ticket {
      var f := Finished(true, m.transcript + [t]);
      assert m.pending + [Hs(t)] + [Ccs] + [Hs(f)] == m.pending + ([Hs(t)] + [Ccs] + [Hs(f)]);
      assert m.transcript + [t] + [f] == m.transcript + ([t] + [f]);
    } else {
      var f := Finished(true, m.transcript);
      assert m.transcript + [] == m.transcript;
      assert m.pending + [Ccs] + [Hs(f)] == m.pending + ([] + [Ccs] + [Hs(f)]);
      assert m.transcript + [f] == m.transcript + ([] + [f]);
    }
  }

  lemma TailMsgs(c: Config, m: Server, e: Env)
    ensures var a := if c.ticket then [Plain(NewSessionTicket, e.body)] else [];
            Msgs(TailItems(c, m, e)) == a + [Finished(true, m.transcript + a)]
    ensures SlotsOf(true, TailItems(c, m, e)) == ServerTail(c)
  {
    var a := if c.ticket then [Hs(Plain(NewSessionTicket, e.body))] else [];
    var d := TailItems(c, m, e)[|TailItems(c, m, e)| - 1];
    assert TailItems(c, m, e) == a + [Ccs] + [d];
    MsgsConcat(a + [Ccs], [d]);
    MsgsConcat(a, [Ccs]);
    SlotsConcat(true, a + [Ccs], [d]);
    SlotsConcat(true, a, [Ccs]);
  }

  /** States in which nothing is sent or received. */
  predicate Silent(s: State) {
    s.StartAccept? || s.VerifyClientCertificate? || s.ProcessChangeCipherSpec? || s.FinishServerHandshake?
  }

  lemma SilentCall(c: Config, v: Config, m: Server, e: Env)
    requires Variant(c, v) && Shape(v, m) && m.wait.Ok? && Silent(m.state)
    ensures Do(c, m, e).wait != Error ==> Advanced(c, v, m, v, Do(c, m, e), [])
  {
    hide Advanced, Do, Variant, Shape;
    if m.state == VerifyClientCertificate || m.state == ProcessChangeCipherSpec { HeldBackCall(c, v, m, e); }
    else { PassingCall(c, v, m, e); }
  }

  lemma HeldBackCall(c: Config, v: Config, m: Server, e: Env)
    requires Variant(c, v) && Shape(v, m) && m.wait.Ok?
    requires m.state == VerifyClientCertificate || m.state == ProcessChangeCipherSpec
    ensures Do(c, m, e).wait != Error ==> Advanced(c, v, m, v, Do(c, m, e), [])
  {
    var r := Do(c, m, e);
    Agree(v, m.state);
    hide AgreeBefore, Advanced, Moved;
    if r.state == m.state {
      if r.wait != Error { Stays(c, v, m, r); }
    } else {
      Passes(c, v, m, v, r);
    }
  }

  lemma PassingCall(c: Config, v: Config, m: Server, e: Env)
    requires Variant(c, v) && Shape(v, m) && m.wait.Ok?
    requires m.state == StartAccept || m.state == FinishServerHandshake
    ensures Advanced(c, v, m, v, Do(c, m, e), [])
  {
    Agree(v, m.state);
    hide AgreeBefore, Advanced, Moved;
    Passes(c, v, m, v, Do(c, m, e));
  }

  /** Every call, whatever message it was given, goes on along the flow or fails. */
  lemma Call(c: Config, v: Config, m: Server, e: Env) returns (u: Config, delta: seq<Slot>)
    requires Variant(c, v) && Shape(v, m) && m.wait.Ok? && !m.state.Done?
    ensures Do(c, m, e).wait != Error ==> Advanced(c, v, m, u, Do(c, m, e), delta)
    ensures Do(c, m, e).wait != Error && m.state == ReadClientFinished && Do(c, m, e).state != m.state
            ==> Verified(Do(c, m, e).transcript, false)
  {
    hide Do, Advanced, Shape;
    u, delta := v, [];
    match m.state
    case ReadClientHello => HelloCall(c, v, m, e);
    case SelectCertificate => HelloCall(c, v, m, e);
    case SelectParameters => delta := ParametersCall(c, v, m, e);
    case SendServerHello => ServerHelloCall(c, v, m, e); delta := One(true, ServerHello);
    case SendServerCertificate => delta := CertificateCall(c, v, m, e);
    case SendServerKeyExchange => delta := KeyExchangeCall(c, v, m, e);
    case SendServerHelloDone => delta := HelloDoneCall(c, v, m, e);
    case ReadClientCertificate => u, delta := ClientCertificateCall(c, v, m, e);
    case ReadClientKeyExchange => delta := ReadCall(c, v, m, e);
    case ReadClientCertificateVerify => delta := ReadCall(c, v, m, e);
    case ReadNextProto => delta := ReadCall(c, v, m, e);
    case ReadChannelId => delta := ReadCall(c, v, m, e);
    case ReadChangeCipherSpec => CcsCall(c, v, m, e);
    case ReadClientFinished => delta := CheckCall(c, v, m, e);
    case SendServerFinished => FinishedCall(c, v, m, e); delta := ServerTail(v);
    case _ => SilentCall(c, v, m, e);
  }

  lemma AfterOnlyByFinished(c: Config, m: Server, e: Env)
    requires m.wait.Ok? && !m.state.Done? && (FullOnly(m.state) ==> !c.resume)
    ensures Do(c, m, e).wait != Error && After(c, Do(c, m, e).state) && !After(c, m.state)
            ==> m.state == ReadClientFinished && Do(c, m, e).state != m.state
  {
    hide After;
    DoMoves(c, m, e);
    SuccAfter(c, m.state);
  }

  lemma SuccAfter(c: Config, s: State)
    requires !s.Done? && (FullOnly(s) ==> !c.resume)
    ensures After(c, Succ(c, s)) && !After(c, s) ==> s == ReadClientFinished
  {}

  lemma CallSound(c: Config, v: Config, m: Server, e: Env, taken: seq<Item>, sent: seq<Item>) returns (u: Config)
    requires Sound(c, v, m, taken, sent) && m.wait.Ok? && !m.state.Done?
    ensures Sound(c, u, Do(c, m, e), taken, sent)
  {
    hide Do, Told, PastOf, Verified, After;
    var delta;
    u, delta := Call(c, v, m, e);
    var r := Do(c, m, e);
    if r.wait != Error {
      MovedTold(true, m, r, taken, sent, PastOf(v, m), delta);
      AfterOnlyByFinished(c, m, e);
      AfterSame(c, v, m.state);
      AfterSame(c, u, r.state);
      if After(c, m.state) { VerifiedStays(m.transcript, r.transcript, false); }
    }
  }

  lemma AfterSame(c: Config, v: Config, s: State)
    requires Variant(c, v)
    ensures After(v, s) == After(c, s)
  {}

  // ---- One resolution ----

  lemma WaitSound(c: Config, v: Config, m: Server, arriving: seq<Item>, e: Env, taken: seq<Item>, sent: seq<Item>)
    requires Sound(c, v, m, taken, sent) && !m.wait.Ok?
    ensures var (r, rest, gone) := Resolve(m, arriving, sent, e);
            && |rest| <= |arriving| && arriving == arriving[..|arriving| - |rest|] + rest
            && Sound(c, v, r, taken + arriving[..|arriving| - |rest|], gone)
  {
    hide Told, Verified, PastOf, Resolve, Variant, Shape, After;
    if !m.wait.Error? {
      WaitShape(v, m, arriving, sent, e);
      ResolveTold(true, m, arriving, taken, sent, e, PastOf(v, m));
    } else {
      ErrorStays(m, arriving, sent, e);
    }
  }

  lemma ErrorStays(m: Server, arriving: seq<Item>, sent: seq<Item>, e: Env)
    requires m.wait.Error?
    ensures Resolve(m, arriving, sent, e) == (m, arriving, sent) && arriving[..0] == [] && [] + arriving == arriving
  {}

  lemma WaitShape(v: Config, m: Server, arriving: seq<Item>, sent: seq<Item>, e: Env)
    requires Shape(v, m) && !m.wait.Ok? && !m.wait.Error?
    ensures m.wait == ReadMessage || m.wait == ReadCcs ==> m.inbox.None?
    ensures var r := Resolve(m, arriving, sent, e).0;
            r.wait != Error ==>
              Shape(v, r) && PastOf(v, r) == if m.wait == ReadCcs && r.wait != ReadCcs then PastOf(v, m) + Change(false) else PastOf(v, m)
  {
    hide Before;
    ThenCcs(v);
  }

  lemma ThenCcs(v: Config)
    ensures Before(v, ReadChangeCipherSpec) + Change(false) == Before(v, ProcessChangeCipherSpec)
  {
    BeforeStep(v, ReadChangeCipherSpec);
    hide Before;
  }

  // ---- Every run ----

  /** Only the server moves; what is on its way to it may be anything. */
  predicate ServerOnly(schedule: seq<(bool, Env)>) {
    forall x :: x in schedule ==> x.0
  }

  lemma StepSound(c: Config, v: Config, p: Product, e: Env, taken: seq<Item>) returns (u: Config)
    requires Sound(c, v, p.server, taken, p.s2c)
    ensures var q := Step(c, p, true, e);
            && |q.c2s| <= |p.c2s| && p.c2s == p.c2s[..|p.c2s| - |q.c2s|] + q.c2s
            && Sound(c, u, q.server, taken + p.c2s[..|p.c2s| - |q.c2s|], q.s2c)
  {
    hide Sound, Do;
    u := v;
    assert p.c2s[..0] == [] && taken + [] == taken;
    if !p.server.wait.Ok? {
      WaitSound(c, v, p.server, p.c2s, e, taken, p.s2c);
    } else if !p.server.state.Done? {
      u := CallSound(c, v, p.server, e, taken, p.s2c);
    } else {
      DoneStays(c, p.server, e);
    }
  }

  lemma DoneStays(c: Config, m: Server, e: Env)
    requires m.state.Done?
    ensures Do(c, m, e) == m
  {}

  lemma {:induction false} RunSound(c: Config, v: Config, p: Product, schedule: seq<(bool, Env)>, taken: seq<Item>) returns (u: Config)
    requires Sound(c, v, p.server, taken, p.s2c) && ServerOnly(schedule)
    ensures var q := Run(c, p, schedule);
            && |q.c2s| <= |p.c2s| && p.c2s == p.c2s[..|p.c2s| - |q.c2s|] + q.c2s
            && Sound(c, u, q.server, taken + p.c2s[..|p.c2s| - |q.c2s|], q.s2c)
    decreases |schedule|
  {
    hide Sound, Step;
    if schedule == [] {
      u := v;
      assert p.c2s[..0] == [] && taken + [] == taken;
    } else {
      assert schedule[0] in schedule;
      var p1 := Step(c, p, true, schedule[0].1);
      var w := StepSound(c, v, p, schedule[0].1, taken);
      var first := p.c2s[..|p.c2s| - |p1.c2s|];
      u := RunSound(c, w, p1, schedule[1..], taken + first);
      var q := Run(c, p, schedule);
      var more := p1.c2s[..|p1.c2s| - |q.c2s|];
      assert p.c2s == first + (more + q.c2s) == (first + more) + q.c2s;
      assert p.c2s[..|p.c2s| - |q.c2s|] == first + more;
      assert taken + first + more == taken + (first + more);
    }
  }

  /** Against any peer: whatever items it sends and however the server is scheduled, a
      server that is done has been through the flow of the standards with one of the
      variants, took and sent exactly the two halves of it, and has verified a
      Finished of the client over its transcript. */
  lemma DoneMeansVerified(c: Config, peer: C.Client, items: seq<Item>, schedule: seq<(bool, Env)>) returns (u: Config)
    requires ServerOnly(schedule) && (c.ocsp ==> c.CertAuth())
    ensures var q := Run(c, Product(peer, Fresh(StartAccept), items, []), schedule);
            q.server.state.Done? && q.server.wait != Error ==>
              && Variant(c, u) && (u.RequestsCert() && u.failIfNoCert ==> u.clientCert)
              && Kinds(q.server.transcript) == SlotKinds(Flow(u))
              && |q.c2s| <= |items| && SlotsOf(false, items[..|items| - |q.c2s|]) == Of(false, Flow(u))
              && SlotsOf(true, q.s2c + q.server.pending) == Of(true, Flow(u))
              && Verified(q.server.transcript, false)
  {
    hide Run, Flow, Fresh, Kinds, SlotKinds, Of;
    var p := Product(peer, Fresh(StartAccept), items, []);
    StartSound(c);
    FreshServer();
    u := RunSound(c, c, p, schedule, []);
    var q := Run(c, p, schedule);
    if q.server.state.Done? && q.server.wait != Error {
      BeforeDone(u);
      assert [] + items[..|items| - |q.c2s|] == items[..|items| - |q.c2s|];
      DoneHolds(c, u, q.server, items[..|items| - |q.c2s|], q.s2c);
    }
  }

  lemma FreshServer()
    ensures Fresh(StartAccept).wait.Ok?
  {}

  lemma DoneHolds(c: Config, u: Config, m: Server, taken: seq<Item>, sent: seq<Item>)
    requires Sound(c, u, m, taken, sent) && m.state.Done? && m.wait != Error
    ensures Variant(c, u) && (u.RequestsCert() && u.failIfNoCert ==> u.clientCert)
    ensures Kinds(m.transcript) == SlotKinds(Before(u, Done)) && Verified(m.transcript, false)
    ensures SlotsOf(false, taken) == Of(false, Before(u, Done)) && SlotsOf(true, sent + m.pending) == Of(true, Before(u, Done))
  {
    hide Kinds, SlotKinds, Of, Before, Verified;
    assert SlotsOf(false, []) == [] && Of(false, Before(u, Done)) + [] == Of(false, Before(u, Done));
  }
}
