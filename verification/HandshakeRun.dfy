/** Client and server against each other, under every schedule: neither ever fails,
    they cannot deadlock, and their transcripts agree. */
module HandshakeRun {
  import opened HandshakeFlow
  import opened HandshakeSpec
  import opened HandshakeEffect
  import C = HandshakeClient
  import S = HandshakeServer

  /** The choices of the environment for one turn of ssl_run_handshake: the
      transport's, and one for each call of a do_* function. */
  datatype Turn = Turn(io: Env, calls: nat -> Env)

  datatype Product = Product(client: C.Client, server: S.Server, c2s: seq<Item>, s2c: seq<Item>)

  /** The message a machine was given but has not consumed is still in flight. */
  function Held<T>(m: Machine<T>): seq<Item> { if m.inbox.Some? then [Hs(m.inbox.value)] else [] }

  function ToServer(p: Product): seq<Item> { Held(p.server) + p.c2s + p.client.pending }

  function ToClient(p: Product): seq<Item> { Held(p.client) + p.s2c + p.server.pending }

  /** One step of one side: a do_* function, or the resolution of a wait. */
  function Step(c: Config, p: Product, server: bool, e: Env): Product {
    if server then
      if p.server.wait.Ok? then p.(server := S.Do(c, p.server, e))
      else
        var (m, arriving, leaving) := Resolve(p.server, p.c2s, p.s2c, e);
        p.(server := m, c2s := arriving, s2c := leaving)
    else
      if p.client.wait.Ok? then p.(client := C.Do(c, p.client, e))
      else
        var (m, arriving, leaving) := Resolve(p.client, p.s2c, p.c2s, e);
        p.(client := m, s2c := arriving, c2s := leaving)
  }

  /** A schedule says who moves, and what its environment does. */
  function Run(c: Config, p: Product, schedule: seq<(bool, Env)>): Product
    decreases |schedule|
  {
    if schedule == [] then p else Run(c, Step(c, p, schedule[0].0, schedule[0].1), schedule[1..])
  }

  lemma {:induction false} RunConcat(c: Config, p: Product, a: seq<(bool, Env)>, b: seq<(bool, Env)>)
    ensures Run(c, p, a + b) == Run(c, Run(c, p, a), b)
    decreases |a|
  {
    hide Step;
    if a == [] {
      assert a + b == b;
    } else {
      assert (a + b)[1..] == a[1..] + b;
      RunConcat(c, Step(c, p, a[0].0, a[0].1), a[1..], b);
    }
  }

  lemma RunNothing(c: Config, p: Product)
    ensures Run(c, p, []) == p
  {}

  /** One more step of a run. */
  lemma RunOne(c: Config, p: Product, schedule: seq<(bool, Env)>, server: bool, e: Env)
    ensures Run(c, p, schedule + [(server, e)]) == Step(c, Run(c, p, schedule), server, e)
  {
    hide Step;
    RunConcat(c, p, schedule, [(server, e)]);
    assert [(server, e)][1..] == [];
  }

  function Start(): Product { Product(Fresh(C.StartConnect), Fresh(S.StartAccept), [], []) }

  ghost predicate Synced(c: Config, p: Product) {
    Linked(c, false, C.RestOf(c, p.client), p.client.transcript, S.RestOf(c, p.server), p.server.transcript,
           ToServer(p), ToClient(p))
  }

  ghost predicate Inv(c: Config, p: Product) {
    c.Agreed() && C.Ok(c, p.client) && S.Ok(c, p.server) && Synced(c, p)
  }

  // ---- One machine and its side of the link ----

  lemma Flip(c: Config, me: bool, rest: seq<Slot>, t: seq<Msg>, restPeer: seq<Slot>, tPeer: seq<Msg>,
             mine: seq<Item>, theirs: seq<Item>)
    requires Linked(c, me, rest, t, restPeer, tPeer, mine, theirs)
    ensures Linked(c, !me, restPeer, tPeer, rest, t, theirs, mine)
  {}

  /** What a machine holds is what it expects. */
  lemma HeldFits<T>(c: Config, me: bool, m: Machine<T>, rest: seq<Slot>, restPeer: seq<Slot>, tPeer: seq<Msg>,
                    mine: seq<Item>, after: seq<Item>)
    requires Linked(c, me, rest, m.transcript, restPeer, tPeer, mine, Held(m) + after)
    ensures InboxFits(c, me, m, rest)
  {
    if m.inbox.Some? {
      HeadExpected(c, me, rest, m.transcript, restPeer, tPeer, mine, Held(m) + after);
    }
  }

  /** A do_* function that keeps to the flow keeps the link. */
  lemma DoKeeps<T>(c: Config, me: bool, m: Machine<T>, r: Machine<T>, rest: seq<Slot>, restAfter: seq<Slot>,
                   restPeer: seq<Slot>, tPeer: seq<Msg>, before: seq<Item>, after: seq<Item>)
    requires Linked(c, me, rest, m.transcript, restPeer, tPeer, before + m.pending, Held(m) + after)
    requires Follows(c, me, m, r, rest, restAfter)
    ensures Linked(c, me, restAfter, r.transcript, restPeer, tPeer, before + r.pending, Held(r) + after)
  {
    hide Linked, SlotsOf, AllHonest;
    if Took(me, m, r, rest, restAfter) {
      LinkConsume(c, me, rest, m.transcript, restPeer, tPeer, before + m.pending, Held(m) + after);
      var x := Hs(m.inbox.value);
      assert (Held(m) + after)[0] == x && (Held(m) + after)[1..] == Held(r) + after;
      assert Msgs([x]) == [m.inbox.value];
      assert rest[1..] == restAfter;
    } else {
      var xs := r.pending[|m.pending|..];
      LinkSend(c, me, rest, m.transcript, restPeer, tPeer, before + m.pending, Held(m) + after, xs, restAfter);
      assert before + m.pending + xs == before + r.pending;
    }
  }

  /** Resolving a wait keeps the link and never fails. */
  lemma ResolveKeeps<T>(c: Config, me: bool, m: Machine<T>, e: Env, rest: seq<Slot>, body: seq<Slot>,
                        restPeer: seq<Slot>, tPeer: seq<Msg>,
                        held: seq<Item>, arriving: seq<Item>, leaving: seq<Item>, behind: seq<Item>)
    requires Linked(c, me, rest, m.transcript, restPeer, tPeer, held + leaving + m.pending, Held(m) + arriving + behind)
    requires m.wait != Error && rest == (if m.wait.ReadCcs? then Change(!me) else []) + body
    requires m.wait == ReadMessage ==> m.inbox.None? && Expects(rest, !me)
    requires m.wait == ReadCcs ==> m.inbox.None?
    ensures var (r, arriving1, leaving1) := Resolve(m, arriving, leaving, e);
            && r.wait != Error && r.transcript == m.transcript && r.state == m.state
            && Linked(c, me, (if r.wait.ReadCcs? then Change(!me) else []) + body, r.transcript, restPeer, tPeer,
                      held + leaving1 + r.pending, Held(r) + arriving1 + behind)
  {
    hide Linked;
    if m.wait == ReadMessage {
      ReadKeeps(c, me, m, e, rest, body, restPeer, tPeer, held, arriving, leaving, behind);
    } else if m.wait == ReadCcs {
      CcsKeeps(c, me, m, e, rest, body, restPeer, tPeer, held, arriving, leaving, behind);
    } else {
      assert rest == [] + body;
      if m.wait == Flush {
        var n := if e.amount >= |m.pending| then |m.pending| else e.amount;
        assert m.pending == m.pending[..n] + m.pending[n..];
        assert held + (leaving + m.pending[..n]) + m.pending[n..] == held + leaving + m.pending;
        var (r, arriving1, leaving1) := Resolve(m, arriving, leaving, e);
        assert r.pending == m.pending[n..] && leaving1 == leaving + m.pending[..n];
      }
    }
  }

  /** A message comes in, or part of it. */
  lemma ReadKeeps<T>(c: Config, me: bool, m: Machine<T>, e: Env, rest: seq<Slot>, body: seq<Slot>,
                     restPeer: seq<Slot>, tPeer: seq<Msg>,
                     held: seq<Item>, arriving: seq<Item>, leaving: seq<Item>, behind: seq<Item>)
    requires Linked(c, me, rest, m.transcript, restPeer, tPeer, held + leaving + m.pending, Held(m) + arriving + behind)
    requires m.wait == ReadMessage && rest == [] + body && m.inbox.None? && Expects(rest, !me)
    ensures var (r, arriving1, leaving1) := Resolve(m, arriving, leaving, e);
            && (r.wait == Wait.Ok || r.wait == ReadMessage) && r.transcript == m.transcript && r.state == m.state
            && Linked(c, me, [] + body, r.transcript, restPeer, tPeer,
                      held + leaving1 + r.pending, Held(r) + arriving1 + behind)
  {
    hide Linked;
    var theirs := Held(m) + arriving + behind;
    if arriving != [] {
      assert theirs[0] == arriving[0];
      HeadExpected(c, me, rest, m.transcript, restPeer, tPeer, held + leaving + m.pending, theirs);
      if !e.suspend { assert [arriving[0]] + arriving[1..] + behind == theirs; }
    }
  }

  /** A ChangeCipherSpec comes in. */
  lemma CcsKeeps<T>(c: Config, me: bool, m: Machine<T>, e: Env, rest: seq<Slot>, body: seq<Slot>,
                    restPeer: seq<Slot>, tPeer: seq<Msg>,
                    held: seq<Item>, arriving: seq<Item>, leaving: seq<Item>, behind: seq<Item>)
    requires Linked(c, me, rest, m.transcript, restPeer, tPeer, held + leaving + m.pending, Held(m) + arriving + behind)
    requires m.wait == ReadCcs && rest == Change(!me) + body && m.inbox.None?
    ensures var (r, arriving1, leaving1) := Resolve(m, arriving, leaving, e);
            && (r.wait == Wait.Ok || r.wait == ReadCcs) && r.transcript == m.transcript && r.state == m.state
            && Linked(c, me, (if r.wait.ReadCcs? then Change(!me) else []) + body, r.transcript, restPeer, tPeer,
                      held + leaving1 + r.pending, Held(r) + arriving1 + behind)
  {
    hide Linked;
    var theirs := Held(m) + arriving + behind;
    if arriving != [] {
      assert theirs[0] == arriving[0];
      HeadExpected(c, me, rest, m.transcript, restPeer, tPeer, held + leaving + m.pending, theirs);
      LinkConsume(c, me, rest, m.transcript, restPeer, tPeer, held + leaving + m.pending, theirs);
      assert theirs[1..] == [] + arriving[1..] + behind;
      assert Msgs([arriving[0]]) == [] && m.transcript + [] == m.transcript;
      assert rest[1..] == [] + body;
    }
  }

  // ---- Every step ----

  lemma ClientStepKeeps(c: Config, p: Product, e: Env)
    requires Inv(c, p)
    ensures Inv(c, Step(c, p, false, e))
  {
    hide Linked, C.Rest, S.RestOf, S.Ok;
    var m := p.client;
    var held, behind := Held(p.server), p.server.pending;
    if m.wait.Ok? {
      assert ToServer(p) == (held + p.c2s) + m.pending && ToClient(p) == Held(m) + (p.s2c + behind);
      HeldFits(c, false, m, C.RestOf(c, m), S.RestOf(c, p.server), p.server.transcript, ToServer(p), p.s2c + behind);
      if m.state.Done? {
        assert Step(c, p, false, e) == p;
      } else {
        C.DoFollows(c, m, e);
        var r := C.Do(c, m, e);
        DoKeeps(c, false, m, r, C.RestOf(c, m), C.RestOf(c, r), S.RestOf(c, p.server), p.server.transcript,
                held + p.c2s, p.s2c + behind);
        assert Held(r) + p.s2c + behind == Held(r) + (p.s2c + behind);
      }
    } else {
      ResolveKeeps(c, false, m, e, C.RestOf(c, m), C.Rest(c, m.state), S.RestOf(c, p.server), p.server.transcript,
                   held, p.s2c, p.c2s, behind);
    }
  }

  lemma ServerStepKeeps(c: Config, p: Product, e: Env)
    requires Inv(c, p)
    ensures Inv(c, Step(c, p, true, e))
  {
    hide Linked, S.Rest, C.RestOf, C.Ok;
    var m := p.server;
    var held, behind := Held(p.client), p.client.pending;
    var rest, peer, t := S.RestOf(c, m), C.RestOf(c, p.client), p.client.transcript;
    Flip(c, false, peer, t, rest, m.transcript, ToServer(p), ToClient(p));
    if m.wait.Ok? {
      assert ToClient(p) == (held + p.s2c) + m.pending && ToServer(p) == Held(m) + (p.c2s + behind);
      HeldFits(c, true, m, rest, peer, t, ToClient(p), p.c2s + behind);
      if m.state.Done? {
        assert Step(c, p, true, e) == p;
      } else {
        S.DoFollows(c, m, e);
        var r := S.Do(c, m, e);
        DoKeeps(c, true, m, r, rest, S.RestOf(c, r), peer, t, held + p.s2c, p.c2s + behind);
        assert Held(r) + p.c2s + behind == Held(r) + (p.c2s + behind);
        Flip(c, true, S.RestOf(c, r), r.transcript, peer, t, held + p.s2c + r.pending, Held(r) + p.c2s + behind);
      }
    } else {
      ResolveKeeps(c, true, m, e, rest, S.Rest(c, m.state), peer, t, held, p.c2s, p.s2c, behind);
      var (r, arriving, leaving) := Resolve(m, p.c2s, p.s2c, e);
      Flip(c, true, S.RestOf(c, r), r.transcript, peer, t, held + leaving + r.pending, Held(r) + arriving + behind);
    }
  }

  lemma NothingSent(c: Config, me: bool, rest: seq<Slot>)
    ensures Linked(c, me, rest, [], rest, [], [], [])
  {
    assert Behind(c, me, rest, [], rest, [], [], []);
  }

  lemma StartSynced(c: Config)
    requires c.Agreed()
    ensures Inv(c, Start())
  {
    hide C.Rest, S.Rest, Flow, Linked;
    C.FollowsFlow(c);
    S.FollowsFlow(c);
    NothingSent(c, false, Flow(c));
    assert [] + Flow(c) == Flow(c);
    assert ToServer(Start()) == [] && ToClient(Start()) == [];
  }

  lemma {:induction false} RunKeeps(c: Config, p: Product, schedule: seq<(bool, Env)>)
    requires Inv(c, p)
    ensures Inv(c, Run(c, p, schedule))
    decreases |schedule|
  {
    hide Inv, Step;
    if schedule != [] {
      if schedule[0].0 { ServerStepKeeps(c, p, schedule[0].1); } else { ClientStepKeeps(c, p, schedule[0].1); }
      RunKeeps(c, Step(c, p, schedule[0].0, schedule[0].1), schedule[1..]);
    }
  }

  /** From every linked pair of machines, every schedule keeps the link and neither
      fails. */
  lemma Faces(c: Config, p: Product, schedule: seq<(bool, Env)>)
    ensures Inv(c, p) ==>
              var q := Run(c, p, schedule);
              Inv(c, q) && q.client.wait != Error && q.server.wait != Error
  {
    if Inv(c, p) {
      RunKeeps(c, p, schedule);
      hide Run, Synced, C.Rest, S.Rest;
    }
  }

  /** Under every schedule, neither machine fails: no unexpected message, no
      Finished that does not verify, no cipher change with a message in hand. */
  lemma NeitherFails(c: Config, schedule: seq<(bool, Env)>)
    requires c.Agreed()
    ensures var p := Run(c, Start(), schedule);
            p.client.wait != Error && p.server.wait != Error
  {
    StartSynced(c);
    RunKeeps(c, Start(), schedule);
    hide Linked, C.Rest, S.Rest, Run;
  }

  /** When a machine has the peer's Finished in hand, it was computed over exactly
      the transcript that the machine has at that point. */
  lemma FinishedMatches(c: Config, schedule: seq<(bool, Env)>)
    requires c.Agreed()
    ensures var m := Run(c, Start(), schedule).client;
            m.wait.Ok? && m.state.ReadServerFinished? && m.inbox.Some? ==> m.inbox.value == Finished(true, m.transcript)
    ensures var m := Run(c, Start(), schedule).server;
            m.wait.Ok? && m.state.ReadClientFinished? && m.inbox.Some? ==> m.inbox.value == Finished(false, m.transcript)
  {
    StartSynced(c);
    RunKeeps(c, Start(), schedule);
    hide Run;
    var p := Run(c, Start(), schedule);
    if p.client.wait.Ok? && p.client.state.ReadServerFinished? { ClientFinishedMatches(c, p); }
    if p.server.wait.Ok? && p.server.state.ReadClientFinished? { ServerFinishedMatches(c, p); }
  }

  lemma ClientFinishedMatches(c: Config, p: Product)
    requires Inv(c, p) && p.client.wait.Ok? && p.client.state.ReadServerFinished?
    ensures p.client.inbox.Some? ==> p.client.inbox.value == Finished(true, p.client.transcript)
  {
    hide C.Rest, S.RestOf, Linked;
    var m := p.client;
    C.Unfold(c, m.state);
    assert ToClient(p) == Held(m) + (p.s2c + p.server.pending);
    HeldFits(c, false, m, C.RestOf(c, m), S.RestOf(c, p.server), p.server.transcript, ToServer(p), p.s2c + p.server.pending);
  }

  lemma ServerFinishedMatches(c: Config, p: Product)
    requires Inv(c, p) && p.server.wait.Ok? && p.server.state.ReadClientFinished?
    ensures p.server.inbox.Some? ==> p.server.inbox.value == Finished(false, p.server.transcript)
  {
    hide S.Rest, C.RestOf, Linked;
    var m := p.server;
    S.Unfold(c, m.state);
    Flip(c, false, C.RestOf(c, p.client), p.client.transcript, S.RestOf(c, m), m.transcript, ToServer(p), ToClient(p));
    assert ToServer(p) == Held(m) + (p.c2s + p.client.pending);
    HeldFits(c, true, m, S.RestOf(c, m), C.RestOf(c, p.client), p.client.transcript, ToClient(p), p.c2s + p.client.pending);
  }

  lemma NothingLeft(c: Config, me: bool, t: seq<Msg>, tPeer: seq<Msg>, mine: seq<Item>, theirs: seq<Item>)
    requires Linked(c, me, [], t, [], tPeer, mine, theirs)
    ensures t == tPeer && mine == [] && theirs == []
  {
    if theirs != [] { HeadExpected(c, me, [], t, [], tPeer, mine, theirs); }
    if mine != [] { HeadExpected(c, !me, [], tPeer, [], t, theirs, mine); }
  }

  /** Two machines that are done have the same transcript. */
  lemma TranscriptsAgree(c: Config, schedule: seq<(bool, Env)>)
    requires c.Agreed()
    ensures var p := Run(c, Start(), schedule);
            p.client.state.Done? && p.server.state.Done? ==> p.client.transcript == p.server.transcript
  {
    hide Inv, Run, Start;
    StartSynced(c);
    RunKeeps(c, Start(), schedule);
    DoneAgree(c, Run(c, Start(), schedule));
  }

  lemma DoneAgree(c: Config, p: Product)
    requires Inv(c, p)
    ensures p.client.state.Done? && p.server.state.Done? ==> p.client.transcript == p.server.transcript
  {
    hide Linked, C.Rest, S.Rest, C.RestOf, S.RestOf;
    DoneRests(c, p);
    if p.client.state.Done? && p.server.state.Done? {
      NothingLeft(c, false, p.client.transcript, p.server.transcript, ToServer(p), ToClient(p));
    }
  }

  // ---- Each message once ----

  ghost predicate BothAccounted(c: Config, p: Product) {
    && Accounted(c, p.client.transcript, C.RestOf(c, p.client))
    && Accounted(c, p.server.transcript, S.RestOf(c, p.server))
  }

  /** A ChangeCipherSpec is not part of a transcript. */
  lemma CcsUncounted(c: Config, t: seq<Msg>, fs: bool, rest: seq<Slot>)
    ensures Accounted(c, t, Change(fs) + rest) <==> Accounted(c, t, rest)
    ensures Accounted(c, t, [] + rest) <==> Accounted(c, t, rest)
  {
    hide Flow, Kinds;
    SlotKindsConcat(Change(fs), rest);
    assert SlotKinds(Change(fs)) == [];
    assert [] + SlotKinds(rest) == SlotKinds(rest) && [] + rest == rest;
  }

  lemma StepAccounts(c: Config, p: Product, server: bool, e: Env)
    requires Inv(c, p) && BothAccounted(c, p)
    ensures BothAccounted(c, Step(c, p, server, e))
  {
    hide Linked, C.Rest, S.Rest, Accounted;
    if server {
      var m := p.server;
      if !m.wait.Ok? {
        ResolveAccounts(c, m, p.c2s, p.s2c, e, false, S.Rest(c, m.state));
      } else if !m.state.Done? {
        Flip(c, false, C.RestOf(c, p.client), p.client.transcript, S.RestOf(c, m), m.transcript, ToServer(p), ToClient(p));
        assert ToServer(p) == Held(m) + (p.c2s + p.client.pending);
        HeldFits(c, true, m, S.RestOf(c, m), C.RestOf(c, p.client), p.client.transcript, ToClient(p), p.c2s + p.client.pending);
        S.DoFollows(c, m, e);
        FollowsAccounts(c, true, m, S.Do(c, m, e), S.RestOf(c, m), S.RestOf(c, S.Do(c, m, e)));
      }
    } else {
      var m := p.client;
      if !m.wait.Ok? {
        ResolveAccounts(c, m, p.s2c, p.c2s, e, true, C.Rest(c, m.state));
      } else if !m.state.Done? {
        assert ToClient(p) == Held(m) + (p.s2c + p.server.pending);
        HeldFits(c, false, m, C.RestOf(c, m), S.RestOf(c, p.server), p.server.transcript, ToServer(p), p.s2c + p.server.pending);
        C.DoFollows(c, m, e);
        FollowsAccounts(c, false, m, C.Do(c, m, e), C.RestOf(c, m), C.RestOf(c, C.Do(c, m, e)));
      }
    }
  }

  lemma ResolveAccounts<T>(c: Config, m: Machine<T>, arriving: seq<Item>, leaving: seq<Item>, e: Env, fs: bool, body: seq<Slot>)
    requires Accounted(c, m.transcript, (if m.wait.ReadCcs? then Change(fs) else []) + body)
    ensures var r := Resolve(m, arriving, leaving, e).0;
            r.state == m.state && r.transcript == m.transcript
            && Accounted(c, r.transcript, (if r.wait.ReadCcs? then Change(fs) else []) + body)
  {
    hide Accounted;
    CcsUncounted(c, m.transcript, fs, body);
  }

  lemma {:induction false} RunAccounts(c: Config, p: Product, schedule: seq<(bool, Env)>)
    requires Inv(c, p) && BothAccounted(c, p)
    ensures BothAccounted(c, Run(c, p, schedule))
    decreases |schedule|
  {
    hide Inv, Step, BothAccounted;
    if schedule != [] {
      StepAccounts(c, p, schedule[0].0, schedule[0].1);
      if schedule[0].0 { ServerStepKeeps(c, p, schedule[0].1); } else { ClientStepKeeps(c, p, schedule[0].1); }
      RunAccounts(c, Step(c, p, schedule[0].0, schedule[0].1), schedule[1..]);
    }
  }

  /** A machine that is done has every handshake message of the flow in its
      transcript once, in the order of the flow. */
  lemma TranscriptIsFlow(c: Config, schedule: seq<(bool, Env)>)
    requires c.Agreed()
    ensures var p := Run(c, Start(), schedule);
            && (p.client.state.Done? ==> Kinds(p.client.transcript) == SlotKinds(Flow(c)))
            && (p.server.state.Done? ==> Kinds(p.server.transcript) == SlotKinds(Flow(c)))
  {
    hide Inv, Accounted, C.Rest, S.Rest, C.RestOf, S.RestOf, Flow, Run, Start;
    StartSynced(c);
    StartAccounted(c);
    RunAccounts(c, Start(), schedule);
    RunKeeps(c, Start(), schedule);
    var p := Run(c, Start(), schedule);
    DoneRests(c, p);
    if p.client.state.Done? { AccountedWhole(c, p.client.transcript, C.RestOf(c, p.client)); }
    if p.server.state.Done? { AccountedWhole(c, p.server.transcript, S.RestOf(c, p.server)); }
  }

  lemma StartAccounted(c: Config)
    ensures BothAccounted(c, Start())
  {
    hide C.Rest, S.Rest, Flow;
    C.FollowsFlow(c);
    S.FollowsFlow(c);
    assert C.RestOf(c, Start().client) == Flow(c) && S.RestOf(c, Start().server) == Flow(c) by {
      assert [] + Flow(c) == Flow(c);
    }
    assert [] + SlotKinds(Flow(c)) == SlotKinds(Flow(c));
  }

  lemma DoneRests(c: Config, p: Product)
    requires Inv(c, p)
    ensures p.client.state.Done? ==> C.RestOf(c, p.client) == []
    ensures p.server.state.Done? ==> S.RestOf(c, p.server) == []
  {
    hide C.Rest, S.Rest, Linked;
    C.Unfold(c, p.client.state);
    S.Unfold(c, p.server.state);
  }

  lemma AccountedWhole(c: Config, t: seq<Msg>, rest: seq<Slot>)
    requires Accounted(c, t, rest) && rest == []
    ensures Kinds(t) == SlotKinds(Flow(c))
  {
    assert Kinds(t) + [] == Kinds(t);
  }

  // ---- No deadlock ----

  function Measure(c: Config, p: Product): nat {
    8 * C.Rank(c, p.client.state) + Weight(p.client) + 8 * S.Rank(c, p.server.state) + Weight(p.server)
  }

  predicate BothDone(p: Product) {
    p.client.state.Done? && p.server.state.Done? && p.client.wait.Ok? && p.server.wait.Ok?
  }

  /** The client has nothing to do, or waits for what has not arrived. */
  predicate ClientStuck(p: Product) {
    || (p.client.wait.Ok? && p.client.state.Done?)
    || ((p.client.wait == ReadMessage || p.client.wait == ReadCcs) && p.s2c == [])
  }

  predicate ServerStuck(p: Product) {
    || (p.server.wait.Ok? && p.server.state.Done?)
    || ((p.server.wait == ReadMessage || p.server.wait == ReadCcs) && p.c2s == [])
  }

  lemma ClientCloser(c: Config, p: Product)
    requires Inv(c, p) && !ClientStuck(p)
    ensures Measure(c, Step(c, p, false, Willing(|p.client.pending|))) < Measure(c, p)
  {
    var e := Willing(|p.client.pending|);
    ClientStepKeeps(c, p, e);
    hide Linked, C.Rest, S.Rest, C.Do, C.Succ, C.Rank, Resolve, Weight;
    if p.client.wait.Ok? {
      C.DoMoves(c, p.client, e);
      C.SuccCloser(c, p.client.state);
      WeightBound(p.client);
      WeightBound(C.Do(c, p.client, e));
    } else {
      ResolveCloser(p.client, p.s2c, p.c2s);
    }
  }

  lemma ServerCloser(c: Config, p: Product)
    requires Inv(c, p) && !ServerStuck(p)
    ensures Measure(c, Step(c, p, true, Willing(|p.server.pending|))) < Measure(c, p)
  {
    var e := Willing(|p.server.pending|);
    ServerStepKeeps(c, p, e);
    hide Linked, C.Rest, S.Rest, S.Do, S.Succ, S.Rank, Resolve, Weight;
    if p.server.wait.Ok? {
      S.DoMoves(c, p.server, e);
      S.SuccCloser(c, p.server.state);
      WeightBound(p.server);
      WeightBound(S.Do(c, p.server, e));
    } else {
      ResolveCloser(p.server, p.c2s, p.s2c);
    }
  }

  lemma WeightBound<T>(m: Machine<T>)
    ensures Weight(m) <= 7 && (m.wait.Ok? ==> 1 <= Weight(m))
    ensures m.wait.Ok? && m.inbox.None? ==> Weight(m) == 3
    ensures m.wait == ReadMessage ==> Weight(m) == 2
  {}

  /** A client that is stuck has used up what was sent to it. */
  lemma ClientDrained(c: Config, p: Product)
    requires Inv(c, p) && ClientStuck(p) && p.server.pending == []
    ensures p.client.pending == [] && ToClient(p) == []
    ensures var rest := C.RestOf(c, p.client);
            if p.client.wait.Ok? then rest == [] else rest != [] && rest[0].fromServer
  {
    hide Linked, C.Rest, S.RestOf, S.Ok;
    C.Unfold(c, p.client.state);
    if ToClient(p) != [] {
      HeadExpected(c, false, C.RestOf(c, p.client), p.client.transcript, S.RestOf(c, p.server), p.server.transcript,
                   ToServer(p), ToClient(p));
    }
  }

  lemma ServerDrained(c: Config, p: Product)
    requires Inv(c, p) && ServerStuck(p) && p.client.pending == []
    ensures p.server.pending == [] && ToServer(p) == []
    ensures var rest := S.RestOf(c, p.server);
            if p.server.wait.Ok? then rest == [] else rest != [] && !rest[0].fromServer
  {
    hide Linked, S.Rest, C.RestOf, C.Ok;
    S.Unfold(c, p.server.state);
    Flip(c, false, C.RestOf(c, p.client), p.client.transcript, S.RestOf(c, p.server), p.server.transcript,
         ToServer(p), ToClient(p));
    if ToServer(p) != [] {
      HeadExpected(c, true, S.RestOf(c, p.server), p.server.transcript, C.RestOf(c, p.client), p.client.transcript,
                   ToClient(p), ToServer(p));
    }
  }

  lemma StuckFlushed(c: Config, p: Product)
    requires Inv(c, p) && ClientStuck(p) && ServerStuck(p)
    ensures p.client.pending == [] && p.server.pending == []
  {
    hide Linked, C.Rest, S.Rest;
  }

  /** If neither side can move, both are done. */
  lemma NoDeadlock(c: Config, p: Product)
    requires Inv(c, p) && ClientStuck(p) && ServerStuck(p)
    ensures BothDone(p)
  {
    StuckFlushed(c, p);
    ClientDrained(c, p);
    ServerDrained(c, p);
    hide C.RestOf, S.RestOf, C.Ok, S.Ok;
    LinkIdle(c, false, C.RestOf(c, p.client), p.client.transcript, S.RestOf(c, p.server), p.server.transcript);
  }

  /** From every state that any schedule can reach, some schedule finishes both. */
  lemma {:induction false} CanFinish(c: Config, p: Product) returns (schedule: seq<(bool, Env)>)
    requires Inv(c, p)
    ensures BothDone(Run(c, p, schedule))
    decreases Measure(c, p)
  {
    hide Inv, Step, Measure, ClientStuck, ServerStuck, BothDone;
    if !ClientStuck(p) {
      var e := Willing(|p.client.pending|);
      ClientCloser(c, p);
      ClientStepKeeps(c, p, e);
      var rest := CanFinish(c, Step(c, p, false, e));
      schedule := [(false, e)] + rest;
      assert schedule[1..] == rest;
    } else if !ServerStuck(p) {
      var e := Willing(|p.server.pending|);
      ServerCloser(c, p);
      ServerStepKeeps(c, p, e);
      var rest := CanFinish(c, Step(c, p, true, e));
      schedule := [(true, e)] + rest;
      assert schedule[1..] == rest;
    } else {
      NoDeadlock(c, p);
      schedule := [];
    }
  }

  /** So a handshake can always be finished, whatever has happened so far. */
  lemma NeverDeadlocked(c: Config, sofar: seq<(bool, Env)>) returns (schedule: seq<(bool, Env)>)
    requires c.Agreed()
    ensures BothDone(Run(c, Run(c, Start(), sofar), schedule))
  {
    StartSynced(c);
    RunKeeps(c, Start(), sofar);
    schedule := CanFinish(c, Run(c, Start(), sofar));
  }
}
