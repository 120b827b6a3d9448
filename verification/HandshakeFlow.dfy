/** The TLS 1.0 to 1.2 handshake as messages in flight: what passes between the two
    sides, and in which order (section 7.3 of RFC 5246, section 3.1 of RFC 5077). */
module HandshakeFlow {
  import opened Wrappers

  datatype Kind =
    | ClientHello | ServerHello | Certificate | CertificateStatus | ServerKeyExchange
    | CertificateRequest | ServerHelloDone | ClientKeyExchange | CertificateVerify
    | NextProto | ChannelId | NewSessionTicket | FinishedKind

  /** A message: its body is a number (of certificates, in a Certificate), and for
      Finished the side that made it and the transcript it was computed over. */
  datatype Msg = Plain(typ: Kind, body: nat) | Finished(byServer: bool, over: seq<Msg>) {
    function Kind(): Kind { if Plain? then typ else FinishedKind }
  }

  datatype Item = Hs(msg: Msg) | Ccs

  /** One step of the flow: who sends, and what; None is a ChangeCipherSpec. */
  datatype Slot = Slot(fromServer: bool, kind: Option<Kind>)

  /** What the two sides agreed on. The cipher is ECDHE or not, PSK or with a
      certificate. */
  datatype Config = Config(resume: bool, ecdhe: bool, psk: bool, pskHint: bool, verifyPeer: bool,
                           clientCert: bool, failIfNoCert: bool, ocsp: bool, ticket: bool,
                           npn: bool, channelId: bool) {
    /** ssl_cipher_uses_certificate_auth. */
    predicate CertAuth() { !psk }

    /** The server has parameters to send. */
    predicate SendsKeyExchange() { ecdhe || (psk && pskHint) }

    /** hs->cert_request of the server. */
    predicate RequestsCert() { verifyPeer && CertAuth() && !resume }

    /** The extension is only negotiated where a certificate is sent, and a client
        without a certificate does not meet a server that insists on one. */
    predicate Agreed() {
      && (ocsp ==> CertAuth() && !resume)
      && (RequestsCert() && failIfNoCert ==> clientCert)
    }
  }

  function Opt(b: bool, fromServer: bool, k: Kind): seq<Slot> {
    if b then [Slot(fromServer, Some(k))] else []
  }

  function One(fromServer: bool, k: Kind): seq<Slot> { [Slot(fromServer, Some(k))] }

  function Change(fromServer: bool): seq<Slot> { [Slot(fromServer, None)] }

  /** The server's first flight after its hello. */
  function ServerFlight(c: Config): seq<Slot> {
    Opt(c.CertAuth(), true, Certificate) + Opt(c.ocsp, true, CertificateStatus) +
    Opt(c.SendsKeyExchange(), true, ServerKeyExchange) + Opt(c.RequestsCert(), true, CertificateRequest) +
    One(true, ServerHelloDone)
  }

  /** The client's answer, up to its ChangeCipherSpec. */
  function ClientFlight(c: Config): seq<Slot> {
    Opt(c.RequestsCert(), false, Certificate) + One(false, ClientKeyExchange) +
    Opt(c.RequestsCert() && c.clientCert, false, CertificateVerify)
  }

  /** The server's ChangeCipherSpec and Finished, and the client's. */
  function ServerTail(c: Config): seq<Slot> {
    Opt(c.ticket, true, NewSessionTicket) + Change(true) + One(true, FinishedKind)
  }

  function ClientTail(c: Config): seq<Slot> {
    Change(false) + Opt(c.npn, false, NextProto) + Opt(c.channelId, false, ChannelId) + One(false, FinishedKind)
  }

  /** The message flow as the standards draw it. */
  function Flow(c: Config): seq<Slot> {
    One(false, ClientHello) + (One(true, ServerHello) +
    if c.resume then ServerTail(c) + ClientTail(c)
    else ServerFlight(c) + (ClientFlight(c) + (ClientTail(c) + ServerTail(c))))
  }

  function SlotOf(fromServer: bool, x: Item): Slot {
    Slot(fromServer, if x.Hs? then Some(x.msg.Kind()) else None)
  }

  function SlotsOf(fromServer: bool, xs: seq<Item>): seq<Slot> {
    if xs == [] then [] else [SlotOf(fromServer, xs[0])] + SlotsOf(fromServer, xs[1..])
  }

  /** The handshake messages among the items. */
  function Msgs(xs: seq<Item>): seq<Msg> {
    if xs == [] then [] else (if xs[0].Hs? then [xs[0].msg] else []) + Msgs(xs[1..])
  }

  /** An honest side sends a Finished over its transcript, a certificate if it has
      one, and nothing malformed. */
  predicate Honest(c: Config, fromServer: bool, transcript: seq<Msg>, x: Item) {
    x.Hs? ==>
      match x.msg
      case Finished(byServer, over) => byServer == fromServer && over == transcript
      case Plain(typ, body) =>
        typ != FinishedKind && (typ == Certificate ==> (body > 0 <==> fromServer || c.clientCert))
  }

  predicate AllHonest(c: Config, fromServer: bool, transcript: seq<Msg>, xs: seq<Item>)
    decreases |xs|
  {
    xs == [] || (Honest(c, fromServer, transcript, xs[0])
                 && AllHonest(c, fromServer, transcript + Msgs([xs[0]]), xs[1..]))
  }

  lemma {:induction false} SlotsConcat(fs: bool, a: seq<Item>, b: seq<Item>)
    ensures SlotsOf(fs, a + b) == SlotsOf(fs, a) + SlotsOf(fs, b)
  {
    if a == [] {
      assert a + b == b;
    } else {
      assert (a + b)[1..] == a[1..] + b;
      SlotsConcat(fs, a[1..], b);
    }
  }

  lemma {:induction false} MsgsConcat(a: seq<Item>, b: seq<Item>)
    ensures Msgs(a + b) == Msgs(a) + Msgs(b)
  {
    if a == [] {
      assert a + b == b;
    } else {
      var head := if a[0].Hs? then [a[0].msg] else [];
      assert (a + b)[1..] == a[1..] + b;
      MsgsConcat(a[1..], b);
      assert head + (Msgs(a[1..]) + Msgs(b)) == (head + Msgs(a[1..])) + Msgs(b);
    }
  }

  lemma {:induction false} HonestConcat(c: Config, fs: bool, t: seq<Msg>, a: seq<Item>, b: seq<Item>)
    ensures AllHonest(c, fs, t, a + b) <==> AllHonest(c, fs, t, a) && AllHonest(c, fs, t + Msgs(a), b)
    decreases |a|
  {
    if a == [] {
      assert a + b == b && t + Msgs(a) == t;
    } else {
      assert (a + b)[1..] == a[1..] + b;
      var t1 := t + Msgs([a[0]]);
      HonestConcat(c, fs, t1, a[1..], b);
      MsgsConcat([a[0]], a[1..]);
      assert [a[0]] + a[1..] == a;
      assert t1 + Msgs(a[1..]) == t + Msgs(a);
    }
  }

  /** The kinds of the messages, and of the messages that slots stand for. */
  function Kinds(t: seq<Msg>): seq<Kind> {
    if t == [] then [] else [t[0].Kind()] + Kinds(t[1..])
  }

  function SlotKinds(ss: seq<Slot>): seq<Kind> {
    if ss == [] then [] else (if ss[0].kind.Some? then [ss[0].kind.value] else []) + SlotKinds(ss[1..])
  }

  lemma {:induction false} KindsConcat(a: seq<Msg>, b: seq<Msg>)
    ensures Kinds(a + b) == Kinds(a) + Kinds(b)
  {
    if a == [] {
      assert a + b == b;
    } else {
      assert (a + b)[1..] == a[1..] + b;
      KindsConcat(a[1..], b);
    }
  }

  lemma {:induction false} SlotKindsConcat(a: seq<Slot>, b: seq<Slot>)
    ensures SlotKinds(a + b) == SlotKinds(a) + SlotKinds(b)
  {
    if a == [] {
      assert a + b == b;
    } else {
      var head := if a[0].kind.Some? then [a[0].kind.value] else [];
      assert (a + b)[1..] == a[1..] + b;
      SlotKindsConcat(a[1..], b);
      assert head + (SlotKinds(a[1..]) + SlotKinds(b)) == (head + SlotKinds(a[1..])) + SlotKinds(b);
    }
  }

  lemma {:induction false} KindsOfItems(fs: bool, xs: seq<Item>)
    ensures SlotKinds(SlotsOf(fs, xs)) == Kinds(Msgs(xs))
  {
    if xs != [] {
      KindsOfItems(fs, xs[1..]);
      KindsConcat(if xs[0].Hs? then [xs[0].msg] else [], Msgs(xs[1..]));
      assert SlotsOf(fs, xs)[1..] == SlotsOf(fs, xs[1..]);
      if xs[0].Hs? { assert Kinds([xs[0].msg]) == [xs[0].msg.Kind()]; } else { assert Kinds([]) == []; }
    }
  }

  /** What is in a transcript and what is left make up the whole flow. */
  ghost predicate Accounted(c: Config, t: seq<Msg>, rest: seq<Slot>) {
    Kinds(t) + SlotKinds(rest) == SlotKinds(Flow(c))
  }

  // ---- Two sides of one flow ----

  /** One side is ahead by what is in flight to the other; at most one direction
      carries anything. `me` says whether this side is the server, `rest` what it has
      still to send or receive, `mine` what it sent that has not been consumed. */
  ghost predicate Linked(c: Config, me: bool, rest: seq<Slot>, t: seq<Msg>, restPeer: seq<Slot>, tPeer: seq<Msg>,
                         mine: seq<Item>, theirs: seq<Item>)
  {
    || Behind(c, me, rest, t, restPeer, tPeer, mine, theirs)
    || Behind(c, !me, restPeer, tPeer, rest, t, theirs, mine)
  }

  /** Everything in flight is on its way to this side. */
  ghost predicate Behind(c: Config, me: bool, rest: seq<Slot>, t: seq<Msg>, restPeer: seq<Slot>, tPeer: seq<Msg>,
                         mine: seq<Item>, theirs: seq<Item>)
  {
    && mine == [] && rest == SlotsOf(!me, theirs) + restPeer
    && tPeer == t + Msgs(theirs) && AllHonest(c, !me, t, theirs)
  }

  /** What arrives first is what this side waits for, and honest. */
  lemma HeadExpected(c: Config, me: bool, rest: seq<Slot>, t: seq<Msg>, restPeer: seq<Slot>, tPeer: seq<Msg>,
                     mine: seq<Item>, theirs: seq<Item>)
    requires Linked(c, me, rest, t, restPeer, tPeer, mine, theirs) && theirs != []
    ensures rest != [] && rest[0] == SlotOf(!me, theirs[0]) && Honest(c, !me, t, theirs[0])
  {}

  /** This side consumes what arrived first. */
  lemma LinkConsume(c: Config, me: bool, rest: seq<Slot>, t: seq<Msg>, restPeer: seq<Slot>, tPeer: seq<Msg>,
                    mine: seq<Item>, theirs: seq<Item>)
    requires Linked(c, me, rest, t, restPeer, tPeer, mine, theirs) && theirs != []
    ensures rest != []
    ensures Linked(c, me, rest[1..], t + Msgs([theirs[0]]), restPeer, tPeer, mine, theirs[1..])
  {
    hide SlotsOf, Msgs, AllHonest;
    ArrivesHere(c, me, rest, t, restPeer, tPeer, mine, theirs);
    FirstItem(c, !me, t, theirs);
    assert rest == [SlotOf(!me, theirs[0])] + (SlotsOf(!me, theirs[1..]) + restPeer);
    assert t + Msgs([theirs[0]]) + Msgs(theirs[1..]) == t + Msgs(theirs);
    assert Behind(c, me, rest[1..], t + Msgs([theirs[0]]), restPeer, tPeer, mine, theirs[1..]);
  }

  /** What is on its way to this side puts it behind. */
  lemma ArrivesHere(c: Config, me: bool, rest: seq<Slot>, t: seq<Msg>, restPeer: seq<Slot>, tPeer: seq<Msg>,
                    mine: seq<Item>, theirs: seq<Item>)
    requires Linked(c, me, rest, t, restPeer, tPeer, mine, theirs) && theirs != []
    ensures Behind(c, me, rest, t, restPeer, tPeer, mine, theirs)
  {}

  lemma FirstItem(c: Config, fs: bool, t: seq<Msg>, xs: seq<Item>)
    requires xs != []
    ensures SlotsOf(fs, xs) == [SlotOf(fs, xs[0])] + SlotsOf(fs, xs[1..])
    ensures Msgs(xs) == Msgs([xs[0]]) + Msgs(xs[1..])
    ensures AllHonest(c, fs, t, xs) ==> AllHonest(c, fs, t + Msgs([xs[0]]), xs[1..])
  {
    assert xs == [xs[0]] + xs[1..];
    MsgsConcat([xs[0]], xs[1..]);
  }

  /** This side sends the next things of the flow. */
  lemma LinkSend(c: Config, me: bool, rest: seq<Slot>, t: seq<Msg>, restPeer: seq<Slot>, tPeer: seq<Msg>,
                 mine: seq<Item>, theirs: seq<Item>, xs: seq<Item>, restAfter: seq<Slot>)
    requires Linked(c, me, rest, t, restPeer, tPeer, mine, theirs)
    requires rest == SlotsOf(me, xs) + restAfter && AllHonest(c, me, t, xs)
    ensures Linked(c, me, restAfter, t + Msgs(xs), restPeer, tPeer, mine + xs, theirs)
  {
    hide SlotsOf, Msgs, AllHonest;
    if xs == [] {
      EmptyItems(c, me, t);
      assert mine + xs == mine && t + Msgs(xs) == t && SlotsOf(me, xs) + restAfter == restAfter;
    } else {
      FirstSlot(me, xs);
      if theirs != [] { HeadExpected(c, me, rest, t, restPeer, tPeer, mine, theirs); }
      AheadSend(c, me, rest, t, restPeer, tPeer, mine, xs, restAfter);
    }
  }

  lemma FirstSlot(fs: bool, xs: seq<Item>)
    requires xs != []
    ensures SlotsOf(fs, xs) != [] && SlotsOf(fs, xs)[0].fromServer == fs
  {}

  lemma EmptyItems(c: Config, fs: bool, t: seq<Msg>)
    ensures SlotsOf(fs, []) == [] && Msgs([]) == [] && AllHonest(c, fs, t, [])
  {}

  /** The same when nothing is on its way to this side. */
  lemma AheadSend(c: Config, me: bool, rest: seq<Slot>, t: seq<Msg>, restPeer: seq<Slot>, tPeer: seq<Msg>,
                  mine: seq<Item>, xs: seq<Item>, restAfter: seq<Slot>)
    requires Linked(c, me, rest, t, restPeer, tPeer, mine, [])
    requires rest == SlotsOf(me, xs) + restAfter && AllHonest(c, me, t, xs)
    ensures Linked(c, me, restAfter, t + Msgs(xs), restPeer, tPeer, mine + xs, [])
  {
    hide SlotsOf, Msgs, AllHonest;
    EmptyItems(c, !me, t);
    EmptyItems(c, me, tPeer);
    if mine == [] { assert restPeer == SlotsOf(me, mine) + rest && t == tPeer + Msgs(mine); }
    SlotsConcat(me, mine, xs);
    MsgsConcat(mine, xs);
    HonestConcat(c, me, tPeer, mine, xs);
    assert SlotsOf(me, mine) + (SlotsOf(me, xs) + restAfter) == SlotsOf(me, mine) + SlotsOf(me, xs) + restAfter;
    assert tPeer + Msgs(mine) + Msgs(xs) == tPeer + (Msgs(mine) + Msgs(xs));
    assert Behind(c, !me, restPeer, tPeer, restAfter, t + Msgs(xs), [], mine + xs);
  }

  /** With nothing in flight the two sides are at the same place. */
  lemma LinkIdle(c: Config, me: bool, rest: seq<Slot>, t: seq<Msg>, restPeer: seq<Slot>, tPeer: seq<Msg>)
    requires Linked(c, me, rest, t, restPeer, tPeer, [], [])
    ensures rest == restPeer && t == tPeer
  {}
}
