/** What a handshake machine has taken and sent, against any peer: the part of the
    argument that both sides share. */
module HandshakePeer {
  import opened Wrappers
  import opened HandshakeFlow
  import opened HandshakeSpec

  /** The slots of one side. */
  function Of(fromServer: bool, ss: seq<Slot>): seq<Slot> {
    if ss == [] then []
    else Of(fromServer, ss[..|ss| - 1]) + if ss[|ss| - 1].fromServer == fromServer then [ss[|ss| - 1]] else []
  }

  lemma OfOne(fs: bool, ss: seq<Slot>, s: Slot)
    ensures Of(fs, ss + [s]) == Of(fs, ss) + if s.fromServer == fs then [s] else []
  {
    assert (ss + [s])[..|ss|] == ss;
  }

  lemma {:induction false} OfConcat(fs: bool, a: seq<Slot>, b: seq<Slot>)
    ensures Of(fs, a + b) == Of(fs, a) + Of(fs, b)
    decreases |b|
  {
    if b == [] {
      assert a + b == a;
    } else {
      var n := |b| - 1;
      assert a + b == (a + b[..n]) + [b[n]];
      OfConcat(fs, a, b[..n]);
      OfOne(fs, a + b[..n], b[n]);
    }
  }

  lemma {:induction false} OfSlots(me: bool, xs: seq<Item>)
    ensures Of(me, SlotsOf(me, xs)) == SlotsOf(me, xs) && Of(!me, SlotsOf(me, xs)) == []
    decreases |xs|
  {
    if xs != [] {
      var n := |xs| - 1;
      assert xs == xs[..n] + [xs[n]];
      SlotsConcat(me, xs[..n], [xs[n]]);
      assert SlotsOf(me, [xs[n]]) == [SlotOf(me, xs[n])];
      OfSlots(me, xs[..n]);
      OfOne(me, SlotsOf(me, xs[..n]), SlotOf(me, xs[n]));
      OfOne(!me, SlotsOf(me, xs[..n]), SlotOf(me, xs[n]));
    }
  }

  function InHand<S>(m: Machine<S>): seq<Item> { if m.inbox.Some? then [Hs(m.inbox.value)] else [] }

  /** `past` is what the machine has been through: it is what the transcript holds,
      what was taken from the peer but for the message in hand, and what was sent. */
  ghost predicate Told<S>(me: bool, m: Machine<S>, taken: seq<Item>, sent: seq<Item>, past: seq<Slot>) {
    && Kinds(m.transcript) == SlotKinds(past)
    && SlotsOf(!me, taken) == Of(!me, past) + SlotsOf(!me, InHand(m))
    && SlotsOf(me, sent + m.pending) == Of(me, past)
  }

  lemma StartTold<S>(me: bool, s: S)
    ensures Told(me, Fresh(s), [], [], [])
  {
    assert SlotsOf(!me, []) == [] && [] + SlotsOf(!me, []) == [];
  }

  // ---- One call ----

  ghost predicate Kept<S>(m: Machine<S>, r: Machine<S>) {
    r.inbox == m.inbox && r.pending == m.pending && r.transcript == m.transcript
  }

  ghost predicate Took<S>(me: bool, m: Machine<S>, r: Machine<S>, delta: seq<Slot>) {
    && m.inbox.Some? && r.inbox.None? && r.pending == m.pending
    && r.transcript == m.transcript + [m.inbox.value] && delta == [SlotOf(!me, Hs(m.inbox.value))]
  }

  ghost predicate Sent<S>(me: bool, m: Machine<S>, r: Machine<S>, xs: seq<Item>, delta: seq<Slot>) {
    && r.inbox == m.inbox && r.pending == m.pending + xs
    && r.transcript == m.transcript + Msgs(xs) && delta == SlotsOf(me, xs)
  }

  /** A call kept everything, took the message in hand, or sent something. */
  ghost predicate Moved<S>(me: bool, m: Machine<S>, r: Machine<S>, delta: seq<Slot>) {
    || (Kept(m, r) && delta == [])
    || Took(me, m, r, delta)
    || exists xs :: Sent(me, m, r, xs, delta)
  }

  lemma MovedTold<S>(me: bool, m: Machine<S>, r: Machine<S>, taken: seq<Item>, sent: seq<Item>, past: seq<Slot>, delta: seq<Slot>)
    requires Told(me, m, taken, sent, past) && Moved(me, m, r, delta)
    ensures Told(me, r, taken, sent, past + delta)
    ensures m.transcript <= r.transcript
  {
    hide Kinds, SlotKinds, SlotsOf, Of, Msgs;
    if Kept(m, r) && delta == [] {
      assert past + [] == past;
    } else if Took(me, m, r, delta) {
      TookTold(me, m, r, taken, sent, past, delta);
    } else {
      var xs :| Sent(me, m, r, xs, delta);
      SentTold(me, m, r, taken, sent, past, xs, delta);
    }
  }

  lemma TookTold<S>(me: bool, m: Machine<S>, r: Machine<S>, taken: seq<Item>, sent: seq<Item>, past: seq<Slot>, delta: seq<Slot>)
    requires Told(me, m, taken, sent, past) && Took(me, m, r, delta)
    ensures Told(me, r, taken, sent, past + delta)
  {
    var x := m.inbox.value;
    KindsConcat(m.transcript, [x]);
    SlotKindsConcat(past, delta);
    assert Kinds([x]) == [x.Kind()] && SlotKinds(delta) == [x.Kind()] by {
      assert Kinds([]) == [] && SlotKinds([]) == [];
    }
    OfOne(me, past, SlotOf(!me, Hs(x)));
    OfOne(!me, past, SlotOf(!me, Hs(x)));
    assert SlotsOf(!me, [Hs(x)]) == delta;
    assert Of(!me, past + delta) + [] == Of(!me, past) + delta;
  }

  lemma SentTold<S>(me: bool, m: Machine<S>, r: Machine<S>, taken: seq<Item>, sent: seq<Item>, past: seq<Slot>,
                    xs: seq<Item>, delta: seq<Slot>)
    requires Told(me, m, taken, sent, past) && Sent(me, m, r, xs, delta)
    ensures Told(me, r, taken, sent, past + delta)
  {
    hide Kinds, SlotKinds, SlotsOf, Of, Msgs;
    KindsConcat(m.transcript, Msgs(xs));
    SlotKindsConcat(past, delta);
    KindsOfItems(me, xs);
    OfConcat(me, past, delta);
    OfConcat(!me, past, delta);
    OfSlots(me, xs);
    assert sent + (m.pending + xs) == (sent + m.pending) + xs;
    SlotsConcat(me, sent + m.pending, xs);
    assert Of(!me, past) + [] == Of(!me, past);
  }

  // ---- One resolution ----

  /** Resolving a wait keeps the account; a ChangeCipherSpec that comes in joins the
      past. */
  lemma ResolveTold<S>(me: bool, m: Machine<S>, arriving: seq<Item>, taken: seq<Item>, sent: seq<Item>, e: Env, past: seq<Slot>)
    requires Told(me, m, taken, sent, past) && !m.wait.Ok? && !m.wait.Error?
    requires m.wait == ReadMessage || m.wait == ReadCcs ==> m.inbox.None?
    ensures var (r, rest, gone) := Resolve(m, arriving, sent, e);
            && |rest| <= |arriving| && arriving == arriving[..|arriving| - |rest|] + rest
            && r.state == m.state && r.transcript == m.transcript
            && (r.wait != Error ==> Told(me, r, taken + arriving[..|arriving| - |rest|], gone, 
                       if m.wait == ReadCcs && r.wait != ReadCcs then past + Change(!me) else past))
  {
    hide Told, Resolve;
    match m.wait
    case Flush => FlushResolved(me, m, arriving, taken, sent, e, past);
    case ReadMessage => ReadResolved(me, m, arriving, taken, sent, e, past);
    case ReadCcs => CcsResolved(me, m, arriving, taken, sent, e, past);
    case _ => ParkedResolved(me, m, arriving, taken, sent, e, past);
  }

  lemma FlushResolved<S>(me: bool, m: Machine<S>, arriving: seq<Item>, taken: seq<Item>, sent: seq<Item>, e: Env, past: seq<Slot>)
    requires Told(me, m, taken, sent, past) && m.wait == Flush
    ensures var (r, rest, gone) := Resolve(m, arriving, sent, e);
            && |rest| <= |arriving| && arriving == arriving[..|arriving| - |rest|] + rest
            && r.state == m.state && r.transcript == m.transcript
            && (r.wait != Error ==> Told(me, r, taken + arriving[..|arriving| - |rest|], gone, past))
  {
    hide Told;
    NothingTaken(arriving, taken);
    assert m.pending[|m.pending|..] == [] && m.pending[..|m.pending|] == m.pending;
    FlushTold(me, m, Resolve(m, arriving, sent, e).0, taken, sent, past,
              if e.amount >= |m.pending| then |m.pending| else e.amount);
  }

  lemma ReadResolved<S>(me: bool, m: Machine<S>, arriving: seq<Item>, taken: seq<Item>, sent: seq<Item>, e: Env, past: seq<Slot>)
    requires Told(me, m, taken, sent, past) && m.wait == ReadMessage && m.inbox.None?
    ensures var (r, rest, gone) := Resolve(m, arriving, sent, e);
            && |rest| <= |arriving| && arriving == arriving[..|arriving| - |rest|] + rest
            && r.state == m.state && r.transcript == m.transcript
            && (r.wait != Error ==> Told(me, r, taken + arriving[..|arriving| - |rest|], gone, past))
  {
    hide Told, Resolve;
    if arriving != [] && arriving[0].Hs? && !e.suspend {
      var x := arriving[0].msg;
      ReadTaken(m, arriving, sent, e);
      ReadTold(me, m, m.(inbox := Some(x), wait := Ok), taken, sent, past, x);
    } else {
      ReadNothing(m, arriving, sent, e);
      NothingTaken(arriving, taken);
      SameTold(me, m, Resolve(m, arriving, sent, e).0, taken, sent, past);
    }
  }

  lemma ReadTaken<S>(m: Machine<S>, arriving: seq<Item>, sent: seq<Item>, e: Env)
    requires m.wait == ReadMessage && m.inbox.None? && arriving != [] && arriving[0].Hs? && !e.suspend
    ensures Resolve(m, arriving, sent, e) == (m.(inbox := Some(arriving[0].msg), wait := Ok), arriving[1..], sent)
    ensures arriving[..|arriving| - |arriving[1..]|] == [Hs(arriving[0].msg)] && arriving == [arriving[0]] + arriving[1..]
  {}

  lemma ReadNothing<S>(m: Machine<S>, arriving: seq<Item>, sent: seq<Item>, e: Env)
    requires m.wait == ReadMessage && m.inbox.None? && !(arriving != [] && arriving[0].Hs? && !e.suspend)
    ensures var (r, rest, gone) := Resolve(m, arriving, sent, e);
            rest == arriving && gone == sent && r == m.(wait := r.wait)
  {}

  lemma CcsResolved<S>(me: bool, m: Machine<S>, arriving: seq<Item>, taken: seq<Item>, sent: seq<Item>, e: Env, past: seq<Slot>)
    requires Told(me, m, taken, sent, past) && m.wait == ReadCcs && m.inbox.None?
    ensures var (r, rest, gone) := Resolve(m, arriving, sent, e);
            && |rest| <= |arriving| && arriving == arriving[..|arriving| - |rest|] + rest
            && r.state == m.state && r.transcript == m.transcript
            && (r.wait != Error ==> Told(me, r, taken + arriving[..|arriving| - |rest|], gone, if r.wait != ReadCcs then past + Change(!me) else past))
  {
    hide Told, Resolve;
    if arriving != [] && arriving[0].Ccs? {
      CcsTaken(m, arriving, sent, e);
      CcsTold(me, m, m.(wait := Ok), taken, sent, past);
    } else {
      CcsNothing(m, arriving, sent, e);
      NothingTaken(arriving, taken);
      SameTold(me, m, Resolve(m, arriving, sent, e).0, taken, sent, past);
    }
  }

  lemma CcsTaken<S>(m: Machine<S>, arriving: seq<Item>, sent: seq<Item>, e: Env)
    requires m.wait == ReadCcs && arriving != [] && arriving[0].Ccs?
    ensures Resolve(m, arriving, sent, e) == (m.(wait := Ok), arriving[1..], sent)
    ensures arriving[..|arriving| - |arriving[1..]|] == [Ccs] && arriving == [arriving[0]] + arriving[1..]
  {}

  lemma CcsNothing<S>(m: Machine<S>, arriving: seq<Item>, sent: seq<Item>, e: Env)
    requires m.wait == ReadCcs && !(arriving != [] && arriving[0].Ccs?)
    ensures var (r, rest, gone) := Resolve(m, arriving, sent, e);
            rest == arriving && gone == sent && r == m.(wait := r.wait) && (r.wait == ReadCcs || r.wait == Error)
  {}

  lemma ParkedResolved<S>(me: bool, m: Machine<S>, arriving: seq<Item>, taken: seq<Item>, sent: seq<Item>, e: Env, past: seq<Slot>)
    requires Told(me, m, taken, sent, past) && (m.wait == Parked || m.wait == EarlyReturn)
    ensures var (r, rest, gone) := Resolve(m, arriving, sent, e);
            && |rest| <= |arriving| && arriving == arriving[..|arriving| - |rest|] + rest
            && r.state == m.state && r.transcript == m.transcript
            && (r.wait != Error ==> Told(me, r, taken + arriving[..|arriving| - |rest|], gone, past))
  {
    hide Told;
    NothingTaken(arriving, taken);
    SameTold(me, m, Resolve(m, arriving, sent, e).0, taken, sent, past);
  }

  lemma NothingTaken(arriving: seq<Item>, taken: seq<Item>)
    ensures arriving[..0] == [] && [] + arriving == arriving && taken + [] == taken
  {}

  /** State and wait do not matter. */
  lemma SameTold<S>(me: bool, m: Machine<S>, r: Machine<S>, taken: seq<Item>, sent: seq<Item>, past: seq<Slot>)
    requires Told(me, m, taken, sent, past) && r.inbox == m.inbox && r.pending == m.pending && r.transcript == m.transcript
    ensures Told(me, r, taken, sent, past)
  {}

  lemma FlushTold<S>(me: bool, m: Machine<S>, r: Machine<S>, taken: seq<Item>, sent: seq<Item>, past: seq<Slot>, n: nat)
    requires Told(me, m, taken, sent, past) && n <= |m.pending|
    requires r.inbox == m.inbox && r.transcript == m.transcript && r.pending == m.pending[n..]
    ensures Told(me, r, taken, sent + m.pending[..n], past)
  {
    hide Kinds, SlotKinds;
    assert sent + m.pending[..n] + m.pending[n..] == sent + m.pending;
  }

  lemma ReadTold<S>(me: bool, m: Machine<S>, r: Machine<S>, taken: seq<Item>, sent: seq<Item>, past: seq<Slot>, x: Msg)
    requires Told(me, m, taken, sent, past) && m.inbox.None?
    requires r.inbox == Some(x) && r.transcript == m.transcript && r.pending == m.pending
    ensures Told(me, r, taken + [Hs(x)], sent, past)
  {
    hide Kinds, SlotKinds;
    SlotsConcat(!me, taken, [Hs(x)]);
    assert SlotsOf(!me, []) == [] && Of(!me, past) + [] == Of(!me, past);
  }

  lemma CcsTold<S>(me: bool, m: Machine<S>, r: Machine<S>, taken: seq<Item>, sent: seq<Item>, past: seq<Slot>)
    requires Told(me, m, taken, sent, past) && m.inbox.None?
    requires r.inbox == m.inbox && r.transcript == m.transcript && r.pending == m.pending
    ensures Told(me, r, taken + [Ccs], sent, past + Change(!me))
  {
    CcsSlots(!me);
    hide Kinds, SlotKinds, SlotsOf, Of;
    SlotsConcat(!me, taken, [Ccs]);
    OfOne(me, past, Change(!me)[0]);
    OfOne(!me, past, Change(!me)[0]);
    SlotKindsConcat(past, Change(!me));
    assert Of(!me, past) + [] == Of(!me, past) && Of(!me, past) + Change(!me) + [] == Of(!me, past) + Change(!me);
    assert SlotKinds(past) + [] == SlotKinds(past);
    assert Of(me, past) + [] == Of(me, past);
  }

  lemma CcsSlots(fs: bool)
    ensures SlotsOf(fs, [Ccs]) == Change(fs) && SlotsOf(fs, []) == [] && SlotKinds(Change(fs)) == []
  {}

  // ---- Finished ----

  /** The transcript has a Finished of that side, made over all that came before. */
  ghost predicate Verified(t: seq<Msg>, byServer: bool) {
    exists i :: 0 <= i < |t| && t[i] == Finished(byServer, t[..i])
  }

  lemma VerifiedStays(t: seq<Msg>, u: seq<Msg>, byServer: bool)
    requires Verified(t, byServer) && t <= u
    ensures Verified(u, byServer)
  {
    var i :| 0 <= i < |t| && t[i] == Finished(byServer, t[..i]);
    assert u[..i] == t[..i] && u[i] == t[i];
  }

  lemma NowVerified(t: seq<Msg>, byServer: bool)
    ensures Verified(t + [Finished(byServer, t)], byServer)
  {
    var u := t + [Finished(byServer, t)];
    assert u[..|t|] == t && u[|t|] == Finished(byServer, t);
  }

  /** A Finished that was not made over this side's transcript is refused, and so is
      any other message in its place. */
  lemma MismatchRefused<S>(m: Machine<S>, byServer: bool, s: S)
    requires m.wait.Ok?
    ensures var r := GetFinished(m, byServer, s);
            && (r.wait == Error <==> m.inbox.Some? && m.inbox.value != Finished(byServer, m.transcript))
            && (r.state == s && r.inbox.None? && m.inbox.Some? ==> r.wait == Error || Verified(r.transcript, byServer))
  {
    NowVerified(m.transcript, byServer);
  }
}
