/** The client against any peer, honest or not: it is done only after a handshake that
    the standards allow, with a Finished of the server over its own transcript. */
module HandshakeClientSafety {
  import opened Wrappers
  import opened HandshakeFlow
  import opened HandshakeSpec
  import opened HandshakePeer
  import opened HandshakeClient
  import S = HandshakeServer
  import opened HandshakeRun

  /** What the server may choose without the client knowing beforehand: a hint, a
      request for a certificate, and to leave out a status it had promised. */
  predicate Variant(c: Config, v: Config) {
    && v.resume == c.resume && v.ecdhe == c.ecdhe && v.psk == c.psk && v.clientCert == c.clientCert
    && v.failIfNoCert == c.failIfNoCert && v.ticket == c.ticket && v.npn == c.npn && v.channelId == c.channelId
    && (v.ocsp ==> c.ocsp)
  }

  function Pred(c: Config, s: State): State {
    match s
    case StartConnect => StartConnect
    case EnterEarlyData => StartConnect
    case ReadServerHello => EnterEarlyData
    case ReadServerCertificate => ReadServerHello
    case ReadCertificateStatus => ReadServerCertificate
    case VerifyServerCertificate => ReadCertificateStatus
    case ReadServerKeyExchange => VerifyServerCertificate
    case ReadCertificateRequest => ReadServerKeyExchange
    case ReadServerHelloDone => ReadCertificateRequest
    case SendClientCertificate => ReadServerHelloDone
    case SendClientKeyExchange => SendClientCertificate
    case SendClientCertificateVerify => SendClientKeyExchange
    case SendClientFinished => if c.resume then ReadServerFinished else SendClientCertificateVerify
    case FinishFlight => SendClientFinished
    case ReadSessionTicket => if c.resume then ReadServerHello else FinishFlight
    case ProcessChangeCipherSpec => ReadSessionTicket
    case ReadServerFinished => ProcessChangeCipherSpec
    case FinishClientHandshake => if c.resume then FinishFlight else ReadServerFinished
    case Done => FinishClientHandshake
  }

  /** The part of the flow before a state. */
  function Before(c: Config, s: State): seq<Slot>
    decreases 18 - Rank(c, s)
  {
    if s.StartConnect? then [] else Before(c, Pred(c, s)) + Head(c, Pred(c, s))
  }

  lemma BeforeStep(c: Config, s: State)
    requires !s.Done? && (FullOnly(s) ==> !c.resume)
    ensures Before(c, Succ(c, s)) == Before(c, s) + Head(c, s)
  {
    PredOfSucc(c, s);
    hide Head, Succ, Pred;
  }

  lemma PredOfSucc(c: Config, s: State)
    requires !s.Done? && (FullOnly(s) ==> !c.resume)
    ensures Pred(c, Succ(c, s)) == s && !Succ(c, s).StartConnect?
  {}

  lemma {:induction false} BeforeAndRest(c: Config, s: State)
    requires FullOnly(s) ==> !c.resume
    ensures Before(c, s) + Rest(c, s) == Flow(c)
    decreases 18 - Rank(c, s)
  {
    hide Rest, Flow, Head;
    if s.StartConnect? {
      FollowsFlow(c);
      assert [] + Rest(c, s) == Rest(c, s);
    } else {
      var p := Pred(c, s);
      BeforeAndRest(c, p);
      Unfold(c, p);
      assert Before(c, p) + (Head(c, p) + Rest(c, s)) == Before(c, p) + Head(c, p) + Rest(c, s);
    }
  }

  lemma BeforeDone(c: Config)
    ensures Before(c, Done) == Flow(c)
  {
    hide Flow, Before;
    BeforeAndRest(c, Done);
    Unfold(c, Done);
    assert Before(c, Done) + [] == Before(c, Done);
  }

  /** What the variants do not differ in. */
  ghost predicate AgreeBefore(v: Config, w: Config, s: State) {
    v.resume == w.resume && forall t :: Rank(v, t) > Rank(v, s) ==> Head(v, t) == Head(w, t)
  }

  lemma {:induction false} BeforeAgrees(v: Config, w: Config, s: State)
    requires AgreeBefore(v, w, s)
    ensures Before(v, s) == Before(w, s)
    decreases 18 - Rank(v, s)
  {
    hide Head;
    if !s.StartConnect? { BeforeAgrees(v, w, Pred(v, s)); }
  }

  /** States that are reached only through a checked Finished. */
  predicate After(c: Config, s: State) {
    s.FinishClientHandshake? || s.Done? || (c.resume && (s.SendClientFinished? || s.FinishFlight?))
  }

  /** States in which a message may be in hand. */
  predicate CanHold(c: Config, s: State) {
    s.ReadServerHello? || (s.ReadServerCertificate? && c.CertAuth()) || s.ReadCertificateStatus?
    || s.VerifyServerCertificate? || s.ReadServerKeyExchange? || s.ReadCertificateRequest? || s.ReadServerHelloDone?
    || (s.ReadSessionTicket? && c.ticket) || s.ReadServerFinished?
  }

  predicate Shape(v: Config, m: Client) {
    && m.wait != Error
    && (FullOnly(m.state) ==> !v.resume)
    && m.certRequest == (!Early(m.state) && v.RequestsCert())
    && (m.inbox.Some? ==> CanHold(v, m.state))
    && (m.wait == ReadMessage ==> m.inbox.None? && CanHold(v, m.state))
    && (m.wait == ReadCcs ==> m.state == ProcessChangeCipherSpec && m.inbox.None?)
  }

  /** What the client has been through. */
  function PastOf(v: Config, m: Client): seq<Slot> {
    if m.wait.ReadCcs? then Before(v, ReadSessionTicket) + Opt(v.ticket, true, NewSessionTicket) else Before(v, m.state)
  }

  /** For one of the variants, the client has been through a part of the flow, and
      everything it took and sent is that; past the Finished, it was verified. */
  ghost predicate Sound(c: Config, v: Config, m: Client, taken: seq<Item>, sent: seq<Item>) {
    m.wait != Error ==>
      && Variant(c, v) && Shape(v, m) && Told(false, m, taken, sent, PastOf(v, m))
      && (After(v, m.state) ==> Verified(m.transcript, true))
  }

  lemma StartSound(c: Config)
    ensures Sound(c, c, Fresh(StartConnect), [], [])
  {
    StartTold(false, StartConnect);
    StartShape(c);
    hide Told, Before, Shape, Variant, PastOf, After;
  }

  lemma StartShape(c: Config)
    ensures Variant(c, c) && Shape(c, Fresh(StartConnect)) && !After(c, StartConnect) && PastOf(c, Fresh(StartConnect)) == []
  {}

  // ---- One call ----

  /** What a call did, with the variant that it settles. */
  ghost predicate Advanced(c: Config, v: Config, m: Client, w: Config, r: Client, delta: seq<Slot>) {
    Variant(c, w) && Shape(w, r) && PastOf(w, r) == PastOf(v, m) + delta && Moved(false, m, r, delta)
  }

  lemma Stays(c: Config, v: Config, m: Client, r: Client)
    requires Variant(c, v) && Shape(v, r) && m.wait.Ok? && r.state == m.state && Kept(m, r) && r.wait != ReadCcs
    ensures Advanced(c, v, m, v, r, [])
  {
    assert Before(v, m.state) + [] == Before(v, m.state);
  }

  /** The call moves on to the next state, and `delta` is the part of the flow that
      belongs to this one. */
  lemma Goes(c: Config, v: Config, m: Client, w: Config, r: Client, delta: seq<Slot>)
    requires Variant(c, w) && Shape(w, r) && m.wait.Ok? && !m.state.Done? && (FullOnly(m.state) ==> !w.resume)
    requires AgreeBefore(v, w, m.state) && r.state == Succ(w, m.state) && Head(w, m.state) == delta && r.wait != ReadCcs
    requires Moved(false, m, r, delta)
    ensures Advanced(c, v, m, w, r, delta)
  {
    hide Head, Before;
    BeforeAgrees(v, w, m.state);
    BeforeStep(w, m.state);
  }

  /** The call moves on from a state that sends and receives nothing. */
  lemma Passes(c: Config, v: Config, m: Client, w: Config, r: Client)
    requires Variant(c, w) && Shape(w, m.(state := r.state, certRequest := r.certRequest)) && m.wait.Ok? && !m.state.Done?
    requires FullOnly(m.state) ==> !w.resume
    requires AgreeBefore(v, w, m.state) && r.state == Succ(w, m.state) && Head(w, m.state) == []
    requires Kept(m, r) && (r.wait.Ok? || r.wait == EarlyReturn) && r.peerCert == m.peerCert
    ensures Advanced(c, v, m, w, r, [])
  {
    Goes(c, v, m, w, r, []);
  }

  lemma Agree(v: Config, s: State)
    ensures AgreeBefore(v, v, s)
  {}

  lemma AgreeStatus(v: Config, b: bool)
    ensures AgreeBefore(v, v.(ocsp := b), ReadCertificateStatus)
  {}

  lemma AgreeHint(v: Config, b: bool)
    ensures AgreeBefore(v, v.(pskHint := b), ReadServerKeyExchange)
  {
    hide Opt, One, Change, ClientTail;
  }

  lemma AgreeRequest(v: Config, b: bool)
    ensures AgreeBefore(v, v.(verifyPeer := b), ReadCertificateRequest)
  {}

  lemma OneSent(m: Client, r: Client, x: Msg, delta: seq<Slot>)
    requires r.inbox == m.inbox && r.pending == m.pending + [Hs(x)] && r.transcript == m.transcript + [x]
    requires delta == One(false, x.Kind())
    ensures Moved(false, m, r, delta)
  {
    assert Msgs([Hs(x)]) == [x] by { assert Msgs([]) == []; }
    assert SlotsOf(false, [Hs(x)]) == delta;
    assert Sent(false, m, r, [Hs(x)], delta);
  }

  /** Receiving the one message of a state, or waiting for it, or refusing another. */
  lemma Receives(c: Config, v: Config, m: Client, k: Kind, w: Config, r: Client) returns (u: Config, delta: seq<Slot>)
    requires Variant(c, v) && Variant(c, w) && Shape(v, m) && m.wait.Ok? && !m.state.Done? && (FullOnly(m.state) ==> !w.resume)
    requires AgreeBefore(v, w, m.state) && Head(w, m.state) == One(true, k) && CanHold(v, m.state) && m.state != Succ(w, m.state)
    requires r == Receive(m, k, Succ(w, m.state)).(certRequest := r.certRequest)
    requires m.inbox.None? ==> r.certRequest == m.certRequest
    requires m.inbox.Some? && r.wait != Error ==> Shape(w, r)
    ensures u == v || u == w
    ensures r.wait != Error ==> Advanced(c, v, m, u, r, delta)
  {
    u, delta := v, [];
    if m.inbox.None? {
      Stays(c, v, m, r);
    } else if r.wait != Error {
      u, delta := w, One(true, k);
      Goes(c, v, m, w, r, delta);
    }
  }

  lemma StartCall(c: Config, v: Config, m: Client, e: Env)
    requires Variant(c, v) && Shape(v, m) && m.wait.Ok? && m.state == StartConnect
    ensures Advanced(c, v, m, v, Do(c, m, e), One(false, ClientHello))
  {
    var r := Do(c, m, e);
    OneSent(m, r, Plain(ClientHello, e.body), One(false, ClientHello));
    Agree(v, m.state);
    Goes(c, v, m, v, r, One(false, ClientHello));
  }

  lemma StatusCall(c: Config, v: Config, m: Client, e: Env) returns (u: Config, delta: seq<Slot>)
    requires Variant(c, v) && Shape(v, m) && m.wait.Ok? && m.state == ReadCertificateStatus
    ensures Do(c, m, e).wait != Error ==> Advanced(c, v, m, u, Do(c, m, e), delta)
  {
    hide AgreeBefore, Advanced, Moved;
    if c.ocsp && (m.inbox.None? || m.inbox.value.Kind() == CertificateStatus) {
      u, delta := StatusRead(c, v, m, e);
    } else {
      StatusSkipped(c, v, m, e);
      u, delta := v.(ocsp := false), [];
    }
  }

  lemma StatusRead(c: Config, v: Config, m: Client, e: Env) returns (u: Config, delta: seq<Slot>)
    requires Variant(c, v) && Shape(v, m) && m.wait.Ok? && m.state == ReadCertificateStatus
    requires c.ocsp && (m.inbox.None? || m.inbox.value.Kind() == CertificateStatus)
    ensures Do(c, m, e).wait != Error ==> Advanced(c, v, m, u, Do(c, m, e), delta)
  {
    hide AgreeBefore, Advanced, Moved;
    AgreeStatus(v, true);
    u, delta := Receives(c, v, m, CertificateStatus, v.(ocsp := true), Do(c, m, e));
  }

  lemma StatusWithout(c: Config, v: Config, m: Client)
    requires Variant(c, v) && Shape(v, m) && m.wait.Ok? && m.state == ReadCertificateStatus
    ensures var w := v.(ocsp := false);
            && Variant(c, w) && Shape(w, m.(state := VerifyServerCertificate)) && Head(w, m.state) == []
            && !w.resume && Succ(w, m.state) == VerifyServerCertificate
    ensures m.(state := VerifyServerCertificate, certRequest := m.certRequest) == m.(state := VerifyServerCertificate)
  {}

  lemma StatusSkipped(c: Config, v: Config, m: Client, e: Env)
    requires Variant(c, v) && Shape(v, m) && m.wait.Ok? && m.state == ReadCertificateStatus
    requires !(c.ocsp && (m.inbox.None? || m.inbox.value.Kind() == CertificateStatus))
    ensures Advanced(c, v, m, v.(ocsp := false), Do(c, m, e), [])
  {
    StatusWithout(c, v, m);
    AgreeStatus(v, false);
    hide AgreeBefore, Advanced, Moved, Shape, Variant, Head, FullOnly;
    Passes(c, v, m, v.(ocsp := false), Do(c, m, e));
  }

  lemma KeyExchangeCall(c: Config, v: Config, m: Client, e: Env) returns (u: Config, delta: seq<Slot>)
    requires Variant(c, v) && Shape(v, m) && m.wait.Ok? && m.state == ReadServerKeyExchange
    ensures Do(c, m, e).wait != Error ==> Advanced(c, v, m, u, Do(c, m, e), delta)
  {
    hide AgreeBefore, Advanced, Moved;
    u, delta := v, [];
    if m.inbox.None? {
      Stays(c, v, m, Do(c, m, e));
    } else if m.inbox.value.Kind() != ServerKeyExchange {
      if !c.ecdhe {
        KeyExchangeSkipped(c, v, m, e);
        u := v.(pskHint := false);
      }
    } else if c.ecdhe || c.psk {
      u, delta := KeyExchangeRead(c, v, m, e);
    }
  }

  lemma KeyExchangeRead(c: Config, v: Config, m: Client, e: Env) returns (u: Config, delta: seq<Slot>)
    requires Variant(c, v) && Shape(v, m) && m.wait.Ok? && m.state == ReadServerKeyExchange
    requires m.inbox.Some? && m.inbox.value.Kind() == ServerKeyExchange && (c.ecdhe || c.psk)
    ensures Do(c, m, e).wait != Error ==> Advanced(c, v, m, u, Do(c, m, e), delta)
  {
    hide AgreeBefore, Advanced, Moved;
    AgreeHint(v, true);
    u, delta := Receives(c, v, m, ServerKeyExchange, v.(pskHint := true), Do(c, m, e));
  }

  lemma KeyExchangeWithout(c: Config, v: Config, m: Client)
    requires Variant(c, v) && Shape(v, m) && m.wait.Ok? && m.state == ReadServerKeyExchange && !c.ecdhe
    ensures var w := v.(pskHint := false);
            && Variant(c, w) && Shape(w, m.(state := ReadCertificateRequest)) && Head(w, m.state) == []
            && !w.resume && Succ(w, m.state) == ReadCertificateRequest
    ensures m.(state := ReadCertificateRequest, certRequest := m.certRequest) == m.(state := ReadCertificateRequest)
  {}

  lemma KeyExchangeSkipped(c: Config, v: Config, m: Client, e: Env)
    requires Variant(c, v) && Shape(v, m) && m.wait.Ok? && m.state == ReadServerKeyExchange
    requires m.inbox.Some? && m.inbox.value.Kind() != ServerKeyExchange && !c.ecdhe
    ensures Advanced(c, v, m, v.(pskHint := false), Do(c, m, e), [])
  {
    KeyExchangeWithout(c, v, m);
    AgreeHint(v, false);
    hide AgreeBefore, Advanced, Moved, Shape, Variant, Head, FullOnly;
    Passes(c, v, m, v.(pskHint := false), Do(c, m, e));
  }

  lemma RequestCall(c: Config, v: Config, m: Client, e: Env) returns (u: Config, delta: seq<Slot>)
    requires Variant(c, v) && Shape(v, m) && m.wait.Ok? && m.state == ReadCertificateRequest
    ensures Do(c, m, e).wait != Error ==> Advanced(c, v, m, u, Do(c, m, e), delta)
  {
    hide AgreeBefore, Advanced, Moved;
    if c.CertAuth() && (m.inbox.None? || m.inbox.value.Kind() != ServerHelloDone) {
      u, delta := RequestRead(c, v, m, e);
    } else {
      RequestSkipped(c, v, m, e);
      u, delta := v.(verifyPeer := false), [];
    }
  }

  lemma RequestRead(c: Config, v: Config, m: Client, e: Env) returns (u: Config, delta: seq<Slot>)
    requires Variant(c, v) && Shape(v, m) && m.wait.Ok? && m.state == ReadCertificateRequest
    requires c.CertAuth() && (m.inbox.None? || m.inbox.value.Kind() != ServerHelloDone)
    ensures Do(c, m, e).wait != Error ==> Advanced(c, v, m, u, Do(c, m, e), delta)
  {
    hide AgreeBefore, Advanced, Moved;
    AgreeRequest(v, true);
    u, delta := Receives(c, v, m, CertificateRequest, v.(verifyPeer := true), Do(c, m, e));
  }

  lemma RequestWithout(c: Config, v: Config, m: Client)
    requires Variant(c, v) && Shape(v, m) && m.wait.Ok? && m.state == ReadCertificateRequest
    ensures var w := v.(verifyPeer := false);
            && Variant(c, w) && Shape(w, m.(state := ReadServerHelloDone)) && Head(w, m.state) == []
            && !w.resume && Succ(w, m.state) == ReadServerHelloDone
    ensures m.(state := ReadServerHelloDone, certRequest := m.certRequest) == m.(state := ReadServerHelloDone)
  {}

  lemma RequestSkipped(c: Config, v: Config, m: Client, e: Env)
    requires Variant(c, v) && Shape(v, m) && m.wait.Ok? && m.state == ReadCertificateRequest
    requires !(c.CertAuth() && (m.inbox.None? || m.inbox.value.Kind() != ServerHelloDone))
    ensures Advanced(c, v, m, v.(verifyPeer := false), Do(c, m, e), [])
  {
    RequestWithout(c, v, m);
    AgreeRequest(v, false);
    hide AgreeBefore, Advanced, Moved, Shape, Variant, Head, FullOnly;
    Passes(c, v, m, v.(verifyPeer := false), Do(c, m, e));
  }

  /** Sending the one message of a state, unless it has none or has to wait. */
  lemma SendCall(c: Config, v: Config, m: Client, e: Env) returns (delta: seq<Slot>)
    requires Variant(c, v) && Shape(v, m) && m.wait.Ok?
    requires m.state == SendClientCertificate || m.state == SendClientKeyExchange || m.state == SendClientCertificateVerify
    ensures Advanced(c, v, m, v, Do(c, m, e), delta)
  {
    var r := Do(c, m, e);
    Agree(v, m.state);
    hide AgreeBefore, Advanced;
    if r.state == m.state {
      delta := [];
      Stays(c, v, m, r);
    } else if r.pending == m.pending {
      delta := [];
      Goes(c, v, m, v, r, []);
    } else {
      delta := Head(v, m.state);
      OneSent(m, r, Plain(delta[0].kind.value, if m.state == SendClientCertificate then ChainOf(c.clientCert, e.body) else e.body), delta);
      Goes(c, v, m, v, r, delta);
    }
  }

  lemma FinishedCall(c: Config, v: Config, m: Client, e: Env) returns (delta: seq<Slot>)
    requires Variant(c, v) && Shape(v, m) && m.wait.Ok? && m.state == SendClientFinished
    ensures Advanced(c, v, m, v, Do(c, m, e), delta)
  {
    var r := Do(c, m, e);
    Agree(v, m.state);
    hide AgreeBefore, Advanced;
    delta := [];
    if r.state == m.state {
      Stays(c, v, m, r);
    } else {
      delta := ClientTail(v);
      var xs := TailItems(c, m, e);
      TailSent(c, m, e);
      Goes(c, v, m, v, r, delta);
    }
  }

  function TailItems(c: Config, m: Client, e: Env): seq<Item> {
    var a := if c.npn then [Plain(NextProto, e.body)] else [];
    var b := if c.channelId then [Plain(ChannelId, e.body)] else [];
    [Ccs] + (if c.npn then [Hs(Plain(NextProto, e.body))] else [])
      + (if c.channelId then [Hs(Plain(ChannelId, e.body))] else [])
      + [Hs(Finished(false, m.transcript + a + b))]
  }

  lemma TailSent(c: Config, m: Client, e: Env)
    requires !(c.channelId && e.suspend)
    ensures Sent(false, m, DoSendClientFinished(c, m, e), TailItems(c, m, e), ClientTail(c))
  {
    var xs := TailItems(c, m, e);
    var m1 := SendCcs(m);
    var m2 := SendIf(m1, c.npn, NextProto, e.body);
    var m3 := SendIf(m2, c.channelId, ChannelId, e.body);
    assert m3.transcript == m.transcript + (if c.npn then [Plain(NextProto, e.body)] else []) + (if c.channelId then [Plain(ChannelId, e.body)] else []);
    TailMsgs(c, m, e);
    assert DoSendClientFinished(c, m, e).pending == m.pending + xs;
    assert DoSendClientFinished(c, m, e).transcript == m.transcript + Msgs(xs);
  }

  lemma TailMsgs(c: Config, m: Client, e: Env)
    ensures var a := if c.npn then [Plain(NextProto, e.body)] else [];
            var b := if c.channelId then [Plain(ChannelId, e.body)] else [];
            Msgs(TailItems(c, m, e)) == a + b + [Finished(false, m.transcript + a + b)]
    ensures SlotsOf(false, TailItems(c, m, e)) == ClientTail(c)
  {
    var a := if c.npn then [Hs(Plain(NextProto, e.body))] else [];
    var b := if c.channelId then [Hs(Plain(ChannelId, e.body))] else [];
    var d := TailItems(c, m, e)[|TailItems(c, m, e)| - 1];
    assert TailItems(c, m, e) == [Ccs] + a + b + [d];
    OptItems(c.npn, NextProto, e.body);
    OptItems(c.channelId, ChannelId, e.body);
    OneItem(Ccs);
    OneItem(d);
    FourJoined([Ccs], a, b, [d]);
    hide Msgs, SlotsOf, TailItems, Opt, Change, One;
    assert SlotsOf(false, [Ccs]) == Change(false) && SlotsOf(false, [d]) == One(false, FinishedKind) by { LastSlots(d); }
  }

  lemma LastSlots(d: Item)
    requires d.Hs? && d.msg.Finished?
    ensures SlotsOf(false, [Ccs]) == Change(false) && SlotsOf(false, [d]) == One(false, FinishedKind)
  {
    OneItem(Ccs);
    OneItem(d);
  }

  lemma FourJoined(a: seq<Item>, b: seq<Item>, d: seq<Item>, f: seq<Item>)
    ensures Msgs(a + b + d + f) == Msgs(a) + Msgs(b) + Msgs(d) + Msgs(f)
    ensures SlotsOf(false, a + b + d + f) == SlotsOf(false, a) + SlotsOf(false, b) + SlotsOf(false, d) + SlotsOf(false, f)
  {
    hide Msgs, SlotsOf;
    MsgsConcat(a + b + d, f);
    MsgsConcat(a + b, d);
    MsgsConcat(a, b);
    SlotsConcat(false, a + b + d, f);
    SlotsConcat(false, a + b, d);
    SlotsConcat(false, a, b);
  }

  lemma OneItem(x: Item)
    ensures Msgs([x]) == if x.Hs? then [x.msg] else []
    ensures SlotsOf(false, [x]) == [SlotOf(false, x)]
  {
    assert Msgs([]) == [] && SlotsOf(false, []) == [];
  }

  lemma OptItems(b: bool, k: Kind, body: nat)
    ensures var xs := if b then [Hs(Plain(k, body))] else [];
            Msgs(xs) == (if b then [Plain(k, body)] else []) && SlotsOf(false, xs) == Opt(b, false, k)
  {
    if b { OneItem(Hs(Plain(k, body))); }
  }

  /** The ticket, if one is expected; then a ChangeCipherSpec is waited for. */
  lemma TicketCall(c: Config, v: Config, m: Client, e: Env) returns (delta: seq<Slot>)
    requires Variant(c, v) && Shape(v, m) && m.wait.Ok? && m.state == ReadSessionTicket
    ensures Do(c, m, e).wait != Error ==> Advanced(c, v, m, v, Do(c, m, e), delta)
  {
    hide Before;
    var r := Do(c, m, e);
    delta := [];
    if r.state == m.state {
      if r.wait != Error { Stays(c, v, m, r); }
    } else {
      delta := Opt(v.ticket, true, NewSessionTicket);
    }
  }

  /** States in which nothing is sent or received. */
  predicate Silent(s: State) {
    s.EnterEarlyData? || s.VerifyServerCertificate? || s.FinishFlight? || s.ProcessChangeCipherSpec? || s.FinishClientHandshake?
  }

  lemma SilentCall(c: Config, v: Config, m: Client, e: Env)
    requires Variant(c, v) && Shape(v, m) && m.wait.Ok? && Silent(m.state)
    ensures Do(c, m, e).wait != Error ==> Advanced(c, v, m, v, Do(c, m, e), [])
  {
    hide AgreeBefore, Advanced, Moved;
    if m.state == VerifyServerCertificate || m.state == ProcessChangeCipherSpec { HeldBackCall(c, v, m, e); }
    else { PassingCall(c, v, m, e); }
  }

  lemma HeldBackCall(c: Config, v: Config, m: Client, e: Env)
    requires Variant(c, v) && Shape(v, m) && m.wait.Ok?
    requires m.state == VerifyServerCertificate || m.state == ProcessChangeCipherSpec
    ensures Do(c, m, e).wait != Error ==> Advanced(c, v, m, v, Do(c, m, e), [])
  {
    var r := Do(c, m, e);
    Agree(v, m.state);
    hide AgreeBefore, Advanced, Moved;
    if r.state == m.state {
      if r.wait != Error { Stays(c, v, m, r); }
    } else {
      Passes(c, v, m, v, r);
    }
  }

  lemma PassingCall(c: Config, v: Config, m: Client, e: Env)
    requires Variant(c, v) && Shape(v, m) && m.wait.Ok?
    requires m.state == EnterEarlyData || m.state == FinishFlight || m.state == FinishClientHandshake
    ensures Advanced(c, v, m, v, Do(c, m, e), [])
  {
    Agree(v, m.state);
    hide AgreeBefore, Advanced, Moved;
    Passes(c, v, m, v, Do(c, m, e));
  }

  lemma PlainReadCall(c: Config, v: Config, m: Client, e: Env) returns (delta: seq<Slot>)
    requires Variant(c, v) && Shape(v, m) && m.wait.Ok?
    requires m.state == ReadServerHello || m.state == ReadServerCertificate || m.state == ReadServerHelloDone
    ensures Do(c, m, e).wait != Error ==> Advanced(c, v, m, v, Do(c, m, e), delta)
  {
    var r := Do(c, m, e);
    Agree(v, m.state);
    hide AgreeBefore, Advanced;
    delta := [];
    if m.state == ReadServerCertificate && !c.CertAuth() {
      Goes(c, v, m, v, r, []);
    } else if r.wait != Error {
      var u;
      u, delta := Receives(c, v, m, if m.state == ReadServerHello then ServerHello
                                    else if m.state == ReadServerCertificate then Certificate else ServerHelloDone, v, r);
    }
  }

  lemma CheckCall(c: Config, v: Config, m: Client, e: Env) returns (delta: seq<Slot>)
    requires Variant(c, v) && Shape(v, m) && m.wait.Ok? && m.state == ReadServerFinished
    ensures Do(c, m, e).wait != Error ==> Advanced(c, v, m, v, Do(c, m, e), delta)
    ensures Do(c, m, e).wait != Error && Do(c, m, e).state != m.state ==> Verified(Do(c, m, e).transcript, true)
  {
    var r := Do(c, m, e);
    Agree(v, m.state);
    hide AgreeBefore, Advanced;
    delta := [];
    if m.inbox.None? {
      Stays(c, v, m, r);
    } else if r.wait != Error {
      MismatchRefused(m, true, r.state);
      delta := One(true, FinishedKind);
      Goes(c, v, m, v, r, delta);
    }
  }

  /** Every call, whatever message it was given, goes on along the flow or fails. */
  lemma Call(c: Config, v: Config, m: Client, e: Env) returns (u: Config, delta: seq<Slot>)
    requires Variant(c, v) && Shape(v, m) && m.wait.Ok? && !m.state.Done?
    ensures Do(c, m, e).wait != Error ==> Advanced(c, v, m, u, Do(c, m, e), delta)
    ensures Do(c, m, e).wait != Error && m.state == ReadServerFinished && Do(c, m, e).state != m.state
            ==> Verified(Do(c, m, e).transcript, true)
  {
    hide Do, Advanced, Shape;
    u, delta := v, [];
    match m.state
    case StartConnect => StartCall(c, v, m, e); delta := One(false, ClientHello);
    case ReadServerHello => delta := PlainReadCall(c, v, m, e);
    case ReadServerCertificate => delta := PlainReadCall(c, v, m, e);
    case ReadServerHelloDone => delta := PlainReadCall(c, v, m, e);
    case ReadCertificateStatus => u, delta := StatusCall(c, v, m, e);
    case ReadServerKeyExchange => u, delta := KeyExchangeCall(c, v, m, e);
    case ReadCertificateRequest => u, delta := RequestCall(c, v, m, e);
    case SendClientCertificate => delta := SendCall(c, v, m, e);
    case SendClientKeyExchange => delta := SendCall(c, v, m, e);
    case SendClientCertificateVerify => delta := SendCall(c, v, m, e);
    case SendClientFinished => delta := FinishedCall(c, v, m, e);
    case ReadSessionTicket => delta := TicketCall(c, v, m, e);
    case ReadServerFinished => delta := CheckCall(c, v, m, e);
    case _ => SilentCall(c, v, m, e);
  }

  lemma AfterOnlyByFinished(c: Config, m: Client, e: Env)
    requires m.wait.Ok? && !m.state.Done? && (FullOnly(m.state) ==> !c.resume)
    ensures Do(c, m, e).wait != Error && After(c, Do(c, m, e).state) && !After(c, m.state)
            ==> m.state == ReadServerFinished && Do(c, m, e).state != m.state
  {
    hide After;
    DoMoves(c, m, e);
    SuccAfter(c, m.state);
  }

  lemma SuccAfter(c: Config, s: State)
    requires !s.Done? && (FullOnly(s) ==> !c.resume)
    ensures After(c, Succ(c, s)) && !After(c, s) ==> s == ReadServerFinished
  {}

  lemma CallSound(c: Config, v: Config, m: Client, e: Env, taken: seq<Item>, sent: seq<Item>) returns (u: Config)
    requires Sound(c, v, m, taken, sent) && m.wait.Ok? && !m.state.Done?
    ensures Sound(c, u, Do(c, m, e), taken, sent)
  {
    hide Do, Told, PastOf, Verified, After;
    var delta;
    u, delta := Call(c, v, m, e);
    var r := Do(c, m, e);
    if r.wait != Error {
      MovedTold(false, m, r, taken, sent, PastOf(v, m), delta);
      AfterOnlyByFinished(c, m, e);
      AfterSame(c, v, m.state);
      AfterSame(c, u, r.state);
      if After(c, m.state) { VerifiedStays(m.transcript, r.transcript, true); }
    }
  }

  lemma AfterSame(c: Config, v: Config, s: State)
    requires Variant(c, v)
    ensures After(v, s) == After(c, s)
  {}

  // ---- One resolution ----

  lemma WaitSound(c: Config, v: Config, m: Client, arriving: seq<Item>, e: Env, taken: seq<Item>, sent: seq<Item>)
    requires Sound(c, v, m, taken, sent) && !m.wait.Ok?
    ensures var (r, rest, gone) := Resolve(m, arriving, sent, e);
            && |rest| <= |arriving| && arriving == arriving[..|arriving| - |rest|] + rest
            && Sound(c, v, r, taken + arriving[..|arriving| - |rest|], gone)
  {
    hide Told, Verified, PastOf, Resolve, Variant, Shape, After;
    if !m.wait.Error? {
      WaitShape(v, m, arriving, sent, e);
      ResolveTold(false, m, arriving, taken, sent, e, PastOf(v, m));
    } else {
      ErrorStays(m, arriving, sent, e);
    }
  }

  lemma ErrorStays(m: Client, arriving: seq<Item>, sent: seq<Item>, e: Env)
    requires m.wait.Error?
    ensures Resolve(m, arriving, sent, e) == (m, arriving, sent) && arriving[..0] == [] && [] + arriving == arriving
  {}

  lemma WaitShape(v: Config, m: Client, arriving: seq<Item>, sent: seq<Item>, e: Env)
    requires Shape(v, m) && !m.wait.Ok? && !m.wait.Error?
    ensures m.wait == ReadMessage || m.wait == ReadCcs ==> m.inbox.None?
    ensures var r := Resolve(m, arriving, sent, e).0;
            r.wait != Error ==>
              Shape(v, r) && PastOf(v, r) == if m.wait == ReadCcs && r.wait != ReadCcs then PastOf(v, m) + Change(true) else PastOf(v, m)
  {
    hide Before;
    TicketThenCcs(v);
  }

  lemma TicketThenCcs(v: Config)
    ensures Before(v, ReadSessionTicket) + Opt(v.ticket, true, NewSessionTicket) + Change(true) == Before(v, ProcessChangeCipherSpec)
  {
    BeforeStep(v, ReadSessionTicket);
    HeadOfTicket(v);
    hide Opt, Change, Before, Head, Succ;
    Joined(Before(v, ReadSessionTicket), Opt(v.ticket, true, NewSessionTicket), Change(true));
  }

  lemma HeadOfTicket(v: Config)
    ensures Head(v, ReadSessionTicket) == Opt(v.ticket, true, NewSessionTicket) + Change(true)
    ensures Succ(v, ReadSessionTicket) == ProcessChangeCipherSpec
  {}

  lemma Joined(a: seq<Slot>, b: seq<Slot>, d: seq<Slot>)
    ensures a + (b + d) == a + b + d
  {}

  // ---- Every run ----

  /** Only the client moves; what is on its way to it may be anything. */
  predicate ClientOnly(schedule: seq<(bool, Env)>) {
    forall x :: x in schedule ==> !x.0
  }

  lemma StepSound(c: Config, v: Config, p: Product, e: Env, taken: seq<Item>) returns (u: Config)
    requires Sound(c, v, p.client, taken, p.c2s)
    ensures var q := Step(c, p, false, e);
            && |q.s2c| <= |p.s2c| && p.s2c == p.s2c[..|p.s2c| - |q.s2c|] + q.s2c
            && Sound(c, u, q.client, taken + p.s2c[..|p.s2c| - |q.s2c|], q.c2s)
  {
    hide Sound, Do;
    u := v;
    assert p.s2c[..0] == [] && taken + [] == taken;
    if !p.client.wait.Ok? {
      WaitSound(c, v, p.client, p.s2c, e, taken, p.c2s);
    } else if !p.client.state.Done? {
      u := CallSound(c, v, p.client, e, taken, p.c2s);
    } else {
      DoneStays(c, p.client, e);
    }
  }

  lemma DoneStays(c: Config, m: Client, e: Env)
    requires m.state.Done?
    ensures Do(c, m, e) == m
  {}

  lemma {:induction false} RunSound(c: Config, v: Config, p: Product, schedule: seq<(bool, Env)>, taken: seq<Item>) returns (u: Config)
    requires Sound(c, v, p.client, taken, p.c2s) && ClientOnly(schedule)
    ensures var q := Run(c, p, schedule);
            && |q.s2c| <= |p.s2c| && p.s2c == p.s2c[..|p.s2c| - |q.s2c|] + q.s2c
            && Sound(c, u, q.client, taken + p.s2c[..|p.s2c| - |q.s2c|], q.c2s)
    decreases |schedule|
  {
    hide Sound, Step;
    if schedule == [] {
      u := v;
      assert p.s2c[..0] == [] && taken + [] == taken;
    } else {
      assert schedule[0] in schedule;
      var p1 := Step(c, p, false, schedule[0].1);
      var w := StepSound(c, v, p, schedule[0].1, taken);
      var first := p.s2c[..|p.s2c| - |p1.s2c|];
      u := RunSound(c, w, p1, schedule[1..], taken + first);
      var q := Run(c, p, schedule);
      var more := p1.s2c[..|p1.s2c| - |q.s2c|];
      assert p.s2c == first + (more + q.s2c) == (first + more) + q.s2c;
      assert p.s2c[..|p.s2c| - |q.s2c|] == first + more;
      assert taken + first + more == taken + (first + more);
    }
  }

  /** Against any peer: whatever items it sends and however the client is scheduled, a
      client that is done has been through the flow of the standards with one of the
      variants, took and sent exactly the two halves of it, and has verified a
      Finished of the server over its transcript. */
  lemma DoneMeansVerified(c: Config, peer: S.Server, items: seq<Item>, schedule: seq<(bool, Env)>) returns (u: Config)
    requires ClientOnly(schedule)
    ensures var q := Run(c, Product(Fresh(StartConnect), peer, [], items), schedule);
            q.client.state.Done? && q.client.wait != Error ==>
              && Variant(c, u) && Kinds(q.client.transcript) == SlotKinds(Flow(u))
              && |q.s2c| <= |items| && SlotsOf(true, items[..|items| - |q.s2c|]) == Of(true, Flow(u))
              && SlotsOf(false, q.c2s + q.client.pending) == Of(false, Flow(u))
              && Verified(q.client.transcript, true)
  {
    hide Run, Flow, Fresh, Kinds, SlotKinds, Of;
    var p := Product(Fresh(StartConnect), peer, [], items);
    StartSound(c);
    FreshClient();
    u := RunSound(c, c, p, schedule, []);
    var q := Run(c, p, schedule);
    if q.client.state.Done? && q.client.wait != Error {
      BeforeDone(u);
      assert [] + items[..|items| - |q.s2c|] == items[..|items| - |q.s2c|];
      DoneHolds(c, u, q.client, items[..|items| - |q.s2c|], q.c2s);
    }
  }

  lemma FreshClient()
    ensures Fresh(StartConnect).wait.Ok?
  {}

  lemma DoneHolds(c: Config, u: Config, m: Client, taken: seq<Item>, sent: seq<Item>)
    requires Sound(c, u, m, taken, sent) && m.state.Done? && m.wait != Error
    ensures Variant(c, u) && Kinds(m.transcript) == SlotKinds(Before(u, Done)) && Verified(m.transcript, true)
    ensures SlotsOf(true, taken) == Of(true, Before(u, Done)) && SlotsOf(false, sent + m.pending) == Of(false, Before(u, Done))
  {
    hide Kinds, SlotKinds, Of, Before, Verified;
    assert SlotsOf(true, []) == [] && Of(true, Before(u, Done)) + [] == Of(true, Before(u, Done));
  }
}
