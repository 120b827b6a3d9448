/** What one call of a do_* function does, in terms of the flow: it consumes the
    message it was given, or sends what comes next, or neither. */
module HandshakeEffect {
  import opened HandshakeFlow
  import opened HandshakeSpec

  /** The message in hand was hashed and consumed, and was the next of the flow. */
  ghost predicate Took<S>(me: bool, m: Machine<S>, r: Machine<S>, ra: seq<Slot>, rb: seq<Slot>) {
    && m.inbox.Some? && r.inbox.None? && r.pending == m.pending
    && r.transcript == m.transcript + [m.inbox.value]
    && ra == [SlotOf(!me, Hs(m.inbox.value))] + rb
  }

  /** The next items of the flow, none or some, were added to the flight. */
  ghost predicate Added<S>(c: Config, me: bool, m: Machine<S>, r: Machine<S>, ra: seq<Slot>, rb: seq<Slot>) {
    && r.inbox == m.inbox && m.pending <= r.pending
    && r.transcript == m.transcript + Msgs(r.pending[|m.pending|..])
    && ra == SlotsOf(me, r.pending[|m.pending|..]) + rb
    && AllHonest(c, me, m.transcript, r.pending[|m.pending|..])
  }

  ghost predicate Follows<S>(c: Config, me: bool, m: Machine<S>, r: Machine<S>, ra: seq<Slot>, rb: seq<Slot>) {
    Took(me, m, r, ra, rb) || Added(c, me, m, r, ra, rb)
  }

  /** Nothing sent, nothing consumed. */
  lemma AddedNone<S>(c: Config, me: bool, m: Machine<S>, r: Machine<S>, ra: seq<Slot>, rb: seq<Slot>)
    requires r.inbox == m.inbox && r.pending == m.pending && r.transcript == m.transcript && ra == rb
    ensures Added(c, me, m, r, ra, rb)
  {
    assert r.pending[|m.pending|..] == [];
  }

  lemma AddedOne<S>(c: Config, me: bool, m: Machine<S>, r: Machine<S>, x: Item, ra: seq<Slot>, rb: seq<Slot>)
    requires r.inbox == m.inbox && r.pending == m.pending + [x]
    requires r.transcript == m.transcript + Msgs([x])
    requires ra == [SlotOf(me, x)] + rb && Honest(c, me, m.transcript, x)
    ensures Added(c, me, m, r, ra, rb)
  {
    assert r.pending[|m.pending|..] == [x];
    assert SlotsOf(me, [x]) == [SlotOf(me, x)];
    assert AllHonest(c, me, m.transcript, [x]);
  }

  lemma AddedBoth<S>(c: Config, me: bool, m: Machine<S>, n: Machine<S>, r: Machine<S>, ra: seq<Slot>, rb: seq<Slot>, rc: seq<Slot>)
    requires Added(c, me, m, n, ra, rb) && Added(c, me, n, r, rb, rc)
    ensures Added(c, me, m, r, ra, rc)
  {
    hide Msgs, SlotsOf, AllHonest;
    var a, b := n.pending[|m.pending|..], r.pending[|n.pending|..];
    assert r.pending[|m.pending|..] == a + b;
    SlotsConcat(me, a, b);
    MsgsConcat(a, b);
    HonestConcat(c, me, m.transcript, a, b);
    assert m.transcript + Msgs(a) + Msgs(b) == m.transcript + (Msgs(a) + Msgs(b));
    assert SlotsOf(me, a) + (SlotsOf(me, b) + rc) == SlotsOf(me, a) + SlotsOf(me, b) + rc;
  }

  lemma SendAdds<S>(c: Config, me: bool, m: Machine<S>, x: Msg, rb: seq<Slot>)
    requires Honest(c, me, m.transcript, Hs(x))
    ensures Added(c, me, m, Send(m, x), One(me, x.Kind()) + rb, rb)
  {
    assert Msgs([Hs(x)]) == [x];
    AddedOne(c, me, m, Send(m, x), Hs(x), One(me, x.Kind()) + rb, rb);
  }

  lemma SendIfAdds<S>(c: Config, me: bool, m: Machine<S>, b: bool, k: Kind, body: nat, rb: seq<Slot>)
    requires k != FinishedKind && k != Certificate
    ensures Added(c, me, m, SendIf(m, b, k, body), Opt(b, me, k) + rb, rb)
  {
    if b {
      SendAdds(c, me, m, Plain(k, body), rb);
      assert Opt(b, me, k) == One(me, k);
    } else {
      assert Opt(b, me, k) + rb == rb;
      AddedNone(c, me, m, m, rb, rb);
    }
  }

  lemma SendCcsAdds<S>(c: Config, me: bool, m: Machine<S>, rb: seq<Slot>)
    ensures Added(c, me, m, SendCcs(m), Change(me) + rb, rb)
  {
    assert Msgs([Ccs]) == [] && m.transcript + [] == m.transcript;
    AddedOne(c, me, m, SendCcs(m), Ccs, Change(me) + rb, rb);
  }

  ghost predicate Expects(rest: seq<Slot>, fromServer: bool) {
    rest != [] && rest[0].fromServer == fromServer && rest[0].kind.Some?
  }

  /** What the machine was given is what comes next, from an honest peer. */
  ghost predicate InboxFits<S>(c: Config, me: bool, m: Machine<S>, rest: seq<Slot>) {
    m.inbox.Some? ==>
      rest != [] && rest[0] == SlotOf(!me, Hs(m.inbox.value)) && Honest(c, !me, m.transcript, Hs(m.inbox.value))
  }

  /** State and wait do not matter. */
  lemma SameAdded<S>(c: Config, me: bool, m: Machine<S>, n: Machine<S>, r: Machine<S>, ra: seq<Slot>, rb: seq<Slot>)
    requires Added(c, me, m, n, ra, rb)
    requires r.inbox == n.inbox && r.pending == n.pending && r.transcript == n.transcript
    ensures Added(c, me, m, r, ra, rb)
  {}

  lemma Reassociate(a: seq<Slot>, b: seq<Slot>, d: seq<Slot>, e: seq<Slot>, f: seq<Slot>)
    ensures a + (b + (d + (e + f))) == (a + b + d + e) + f
  {}

  /** Keeping to the flow puts each message into the transcript once, in order. */
  lemma FollowsAccounts<S>(c: Config, me: bool, m: Machine<S>, r: Machine<S>, ra: seq<Slot>, rb: seq<Slot>)
    requires Follows(c, me, m, r, ra, rb) && Accounted(c, m.transcript, ra)
    ensures Accounted(c, r.transcript, rb)
  {
    hide Msgs, SlotsOf, AllHonest, Flow;
    if Took(me, m, r, ra, rb) {
      var x := m.inbox.value;
      KindsConcat(m.transcript, [x]);
      SlotKindsConcat([SlotOf(!me, Hs(x))], rb);
      assert Kinds([x]) == [x.Kind()] && SlotKinds([SlotOf(!me, Hs(x))]) == [x.Kind()];
      assert Kinds(m.transcript) + ([x.Kind()] + SlotKinds(rb)) == Kinds(m.transcript) + [x.Kind()] + SlotKinds(rb);
    } else {
      var xs := r.pending[|m.pending|..];
      KindsConcat(m.transcript, Msgs(xs));
      SlotKindsConcat(SlotsOf(me, xs), rb);
      KindsOfItems(me, xs);
      hide Kinds, SlotKinds;
      var a, b, d := Kinds(m.transcript), Kinds(Msgs(xs)), SlotKinds(rb);
      assert a + (b + d) == a + b + d;
    }
  }
}
