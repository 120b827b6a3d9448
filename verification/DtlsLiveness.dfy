/** Delivery over runs in which arrivals and polls are mixed: what has arrived once
    is kept until its message is handed out. */
module DtlsLiveness {
  import opened Wrappers
  import opened Words
  import opened DtlsFragment
  import opened DtlsReassembly
  import opened DtlsReceiveSpec
  import opened DtlsDelivery

  /** The fragments of a record, up to the first that does not parse. */
  function Fragments(cbs: seq<byte>): seq<Fragment>
    decreases |cbs|
  {
    match ParseFragment(cbs)
    case None => []
    case Some((f, rest)) => [f] + Fragments(rest)
  }

  /** A genuine fragment numbered below `top`, of a message within the limit. */
  predicate Calm(sent: seq<Message>, top: nat, f: Fragment, maxLen: nat) {
    Genuine(sent, f) && f.hdr.seqNum < top && f.hdr.msgLen <= maxLen
  }

  predicate CalmRecord(sent: seq<Message>, top: nat, cbs: seq<byte>, maxLen: nat)
    decreases |cbs|
  {
    cbs == [] ||
    (ParseFragment(cbs).Some? && Calm(sent, top, ParseFragment(cbs).value.0, maxLen)
     && CalmRecord(sent, top, ParseFragment(cbs).value.1, maxLen))
  }

  /** Anything but a change of epoch; handshake records are calm. */
  predicate CalmEvent(sent: seq<Message>, top: nat, e: Event) {
    !e.SetReadState? && (e.Arrive? && e.typ.Handshake? ==> CalmRecord(sent, top, e.record, e.maxLen))
  }

  predicate Brings(e: Event, f: Fragment) {
    e.Arrive? && e.typ.Handshake? && f in Fragments(e.record)
  }

  /** The fragment's message has been handed out, or its bytes are in the buffer. */
  ghost predicate Held(s: Receiving, f: Fragment)
    requires |s.slots| == FLIGHT
  {
    var q := f.hdr.seqNum;
    q < s.readSeq || (s.slots[q % FLIGHT].Some? && Carried(f, q) <= GotAt(s, q))
  }

  /** The receiver agrees with the sender, is not yet reading encrypted handshake
      messages, and has numbers below `top` in its window. */
  ghost predicate Open(sent: seq<Message>, s: Receiving, top: nat) {
    Follows(sent, s) && s.epoch != 1 && top <= s.readSeq + FLIGHT
  }

  lemma FlagAside(sent: seq<Message>, top: nat, s: Receiving)
    requires Open(sent, s, top)
    ensures Open(sent, s.(hasCcs := false), top)
  {}

  /** A calm fragment is held from then on, and so is all that was held before. */
  lemma OpenOneHolds(sent: seq<Message>, top: nat, s: Receiving, f: Fragment, maxLen: nat, g: Fragment)
    requires Open(sent, s, top) && Calm(sent, top, f, maxLen) && g.hdr.seqNum < top
    requires g == f || Held(s, g)
    ensures |f.body| == f.hdr.len && !OpenOne(s, f, maxLen).1.Error?
    ensures Open(sent, OpenOne(s, f, maxLen).0, top) && Held(OpenOne(s, f, maxLen).0, g)
  {
    hide RingOk, SlotFollows, OpenOne, GotAt, Carried, Follows;
    FollowsRing(sent, s);
    GenuineSized(sent, f);
    assert Welcome(sent, s.readSeq, s.epoch, f, maxLen);
    WelcomeParts(sent, s, f, maxLen);
    OpenOneFollows(sent, s, f, maxLen);
    FollowsRing(sent, OpenOne(s, f, maxLen).0);
    if s.readSeq <= g.hdr.seqNum {
      OpenOneCollects(sent, s, f, maxLen, g.hdr.seqNum);
    }
  }

  lemma OtherRecords(sent: seq<Message>, top: nat, s: Receiving, typ: RecordType, record: seq<byte>, maxLen: nat)
    requires Open(sent, s, top) && !typ.Handshake?
    ensures var s1 := OpenRecord(s, typ, record, maxLen).0;
            Open(sent, s1, top) && s1.slots == s.slots && s1.readSeq == s.readSeq
  {}

  lemma GenuineSized(sent: seq<Message>, f: Fragment)
    requires Genuine(sent, f)
    ensures |f.body| == f.hdr.len
  {}

  lemma {:induction false} OpenFragmentsHold(sent: seq<Message>, top: nat, s: Receiving, cbs: seq<byte>, maxLen: nat, g: Fragment)
    requires Open(sent, s, top) && CalmRecord(sent, top, cbs, maxLen) && g.hdr.seqNum < top
    requires g in Fragments(cbs) || Held(s, g)
    ensures Open(sent, OpenFragments(s, cbs, maxLen).0, top) && Held(OpenFragments(s, cbs, maxLen).0, g)
    decreases |cbs|
  {
    hide RingOk, SlotFollows, OpenOne, Held, Follows, ParseFragment, Genuine;
    FollowsRing(sent, s);
    if cbs == [] {
      NothingToParse();
    } else {
      var (f, rest) := ParseFragment(cbs).value;
      if g == f || Held(s, g) {
        OpenOneHolds(sent, top, s, f, maxLen, g);
      } else {
        OpenOneStays(sent, top, s, f, maxLen);
      }
      OpenFragmentsHold(sent, top, OpenOne(s, f, maxLen).0, rest, maxLen, g);
    }
  }

  lemma NothingToParse()
    ensures ParseFragment([]) == None
  {}

  lemma OpenOneStays(sent: seq<Message>, top: nat, s: Receiving, f: Fragment, maxLen: nat)
    requires Open(sent, s, top) && Calm(sent, top, f, maxLen)
    ensures |f.body| == f.hdr.len && !OpenOne(s, f, maxLen).1.Error?
    ensures Open(sent, OpenOne(s, f, maxLen).0, top)
  {
    hide OpenOne;
    OpenOneHolds(sent, top, s, f, maxLen, f);
  }

  /** Handing out a message keeps what is held. */
  lemma TakeHolds(sent: seq<Message>, top: nat, s: Receiving, g: Fragment)
    requires Open(sent, s, top) && CurrentComplete(s) && g.hdr.seqNum < top && |sent| < 0x1_0000 && Held(s, g)
    ensures Open(sent, NextMessage(s), top) && Held(NextMessage(s), g)
  {
    hide SlotFollows, Carried;
    TakeFollows(sent, s);
    if s.readSeq < g.hdr.seqNum { TakeKeepsOthers(s, g.hdr.seqNum); }
  }

  lemma TakeStays(sent: seq<Message>, top: nat, s: Receiving)
    requires Open(sent, s, top) && CurrentComplete(s) && |sent| < 0x1_0000
    ensures Open(sent, NextMessage(s), top)
  {
    hide SlotFollows;
    TakeFollows(sent, s);
  }

  lemma StepHolds(sent: seq<Message>, top: nat, s: Receiving, e: Event, g: Fragment)
    requires Open(sent, s, top) && CalmEvent(sent, top, e) && g.hdr.seqNum < top && |sent| < 0x1_0000
    requires Brings(e, g) || Held(s, g)
    ensures Open(sent, Step(s, e).0, top) && Held(Step(s, e).0, g)
  {
    hide RingOk, SlotFollows, Follows, OpenFragments, NextMessage;
    FollowsRing(sent, s);
    match e
    case Arrive(typ, record, maxLen) =>
      if typ.Handshake? { OpenFragmentsHold(sent, top, s, record, maxLen, g); }
      else { OtherRecords(sent, top, s, typ, record, maxLen); }
    case Take =>
      if CurrentComplete(s) { TakeHolds(sent, top, s, g); }
    case TakeCcs => FlagAside(sent, top, s);
  }

  lemma {:induction false} OpenFragmentsStay(sent: seq<Message>, top: nat, s: Receiving, cbs: seq<byte>, maxLen: nat)
    requires Open(sent, s, top) && CalmRecord(sent, top, cbs, maxLen)
    ensures Open(sent, OpenFragments(s, cbs, maxLen).0, top)
    decreases |cbs|
  {
    hide RingOk, SlotFollows, OpenOne, Follows, ParseFragment, Genuine;
    FollowsRing(sent, s);
    if cbs != [] {
      var (f, rest) := ParseFragment(cbs).value;
      OpenOneStays(sent, top, s, f, maxLen);
      OpenFragmentsStay(sent, top, OpenOne(s, f, maxLen).0, rest, maxLen);
    }
  }

  lemma StepStays(sent: seq<Message>, top: nat, s: Receiving, e: Event)
    requires Open(sent, s, top) && CalmEvent(sent, top, e) && |sent| < 0x1_0000
    ensures Open(sent, Step(s, e).0, top)
  {
    hide RingOk, SlotFollows, Follows, OpenFragments, NextMessage;
    FollowsRing(sent, s);
    match e
    case Arrive(typ, record, maxLen) =>
      if typ.Handshake? { OpenFragmentsStay(sent, top, s, record, maxLen); }
      else { OtherRecords(sent, top, s, typ, record, maxLen); }
    case Take =>
      if CurrentComplete(s) { TakeStays(sent, top, s); }
    case TakeCcs => FlagAside(sent, top, s);
  }

  /** Over a whole run: a fragment that arrives once, wherever in the run, is held
      at its end. */
  lemma {:induction false} RunHolds(sent: seq<Message>, top: nat, s: Receiving, events: seq<Event>, g: Fragment)
    requires Open(sent, s, top) && g.hdr.seqNum < top && |sent| < 0x1_0000
    requires forall e :: e in events ==> CalmEvent(sent, top, e)
    requires Held(s, g) || exists e :: e in events && Brings(e, g)
    ensures Open(sent, Run(s, events).0, top) && Held(Run(s, events).0, g)
    decreases |events|
  {
    hide RingOk, Held, Open, CalmEvent, Brings, Step;
    OpenRing(sent, s, top);
    if events != [] {
      if Held(s, g) || Brings(events[0], g) {
        StepHolds(sent, top, s, events[0], g);
      } else {
        StepStays(sent, top, s, events[0]);
        OpenRing(sent, Step(s, events[0]).0, top);
        var e :| e in events && Brings(e, g);
        assert e in events[1..];
      }
      RunHolds(sent, top, Step(s, events[0]).0, events[1..], g);
    }
  }

  lemma OpenRing(sent: seq<Message>, s: Receiving, top: nat)
    requires Open(sent, s, top)
    ensures RingOk(s) && |s.slots| == FLIGHT
  {}

  lemma {:induction false} RunConcat(s: Receiving, a: seq<Event>, b: seq<Event>)
    requires RingOk(s)
    ensures Run(s, a + b).0 == Run(Run(s, a).0, b).0
    decreases |a|
  {
    hide Step, RingOk;
    if a == [] {
      assert a + b == b;
    } else {
      assert (a + b)[1..] == a[1..] + b;
      RunConcat(Step(s, a[0]).0, a[1..], b);
    }
  }

  // ---- Delivery ----

  /** `i` is a byte of message `q`, or stands for the empty message. */
  predicate PartOf(history: seq<Message>, q: nat, i: nat) {
    q < |history| && if history[q].body == [] then i == 0 else i < |history[q].body|
  }

  /** Some fragment that arrived in the run carries that part. */
  ghost predicate Brought(events: seq<Event>, history: seq<Message>, q: nat, i: nat)
    requires q < |history|
  {
    exists e, f :: e in events && Brings(e, f) && f.hdr.seqNum == q
                   && (history[q].body == [] || f.hdr.off <= i < f.hdr.off + f.hdr.len)
  }

  /** Arrivals and polls in any order: when the fragments that arrived, from however
      many sendings and cut however differently, cover the messages up to `hi`, polls
      hand out all of these, in order. */
  lemma RunDelivered(history: seq<Message>, r: Receiving, hi: nat, events: seq<Event>)
    requires Follows(history, r) && r.epoch != 1 && hi <= |history| < 0x1_0000
    requires forall e :: e in events ==> CalmEvent(history, r.readSeq + FLIGHT, e)
    requires forall q, i :: r.readSeq <= q < hi && PartOf(history, q, i) ==> Brought(events, history, q, i)
    ensures RingOk(r)
    ensures var (r1, out) := Run(r, events + Takes(FLIGHT));
            r.readSeq <= r1.readSeq <= |history| && hi <= r1.readSeq && out == history[r.readSeq..r1.readSeq]
  {
    hide RingOk, Takes, SlotFollows, CalmEvent, GenuineEvent, Follows, Brought;
    FollowsRing(history, r);
    var top := r.readSeq + FLIGHT;
    CalmIsGenuine(history, top, events);
    RunFollows(history, r, events);
    var r1 := Run(r, events).0;
    FollowsRing(history, r1);
    forall q | r1.readSeq <= q < hi ensures q < top && Arrived(history, r1, q) {
      ArrivedWhenBrought(history, r, events, q);
    }
    if r1.readSeq < hi {
      ArrivedWhenBrought(history, r, events, hi - 1);
      TakesArrived(history, r1, hi, FLIGHT);
    } else {
      RunFollows(history, r1, Takes(FLIGHT));
    }
    RunConcat(r, events, Takes(FLIGHT));
    RunFollows(history, r, events + Takes(FLIGHT));
  }

  lemma CalmIsGenuine(history: seq<Message>, top: nat, events: seq<Event>)
    requires forall e :: e in events ==> CalmEvent(history, top, e)
    ensures forall e :: e in events + Takes(FLIGHT) ==> GenuineEvent(history, e)
    ensures forall e :: e in events ==> GenuineEvent(history, e)
    ensures forall e :: e in Takes(FLIGHT) ==> GenuineEvent(history, e)
  {
    hide Takes, GenuineRecord, CalmRecord;
    forall e | e in events ensures GenuineEvent(history, e) {
      assert CalmEvent(history, top, e);
      if e.Arrive? && e.typ.Handshake? { CalmRecordGenuine(history, top, e.record, e.maxLen); }
    }
  }

  lemma {:induction false} CalmRecordGenuine(history: seq<Message>, top: nat, cbs: seq<byte>, maxLen: nat)
    requires CalmRecord(history, top, cbs, maxLen)
    ensures GenuineRecord(history, cbs)
    decreases |cbs|
  {
    hide ParseFragment, Genuine;
    if cbs != [] { CalmRecordGenuine(history, top, ParseFragment(cbs).value.1, maxLen); }
  }

  /** A covered message that has not been handed out is there in full. */
  lemma ArrivedWhenBrought(history: seq<Message>, r: Receiving, events: seq<Event>, q: nat)
    requires Follows(history, r) && r.epoch != 1 && |history| < 0x1_0000 && RingOk(r)
    requires forall e :: e in events ==> CalmEvent(history, r.readSeq + FLIGHT, e)
    requires Follows(history, Run(r, events).0) && r.readSeq <= Run(r, events).0.readSeq <= q < |history|
    requires forall i :: PartOf(history, q, i) ==> Brought(events, history, q, i)
    ensures q < r.readSeq + FLIGHT
    ensures |Run(r, events).0.slots| == FLIGHT && Arrived(history, Run(r, events).0, q)
  {
    hide RingOk, SlotFollows, CalmEvent, Follows, Run, Brought, Held;
    var r1 := Run(r, events).0;
    FollowsRing(history, r1);
    var body := history[q].body;
    assert PartOf(history, q, 0);
    var first := BroughtIsHeld(history, r, events, q, 0);
    HeldHas(r1, first);
    HeldWithin(history, r1, q);
    forall i | i in UpTo(|body|) ensures i in GotAt(r1, q) {
      assert PartOf(history, q, i);
      var f := BroughtIsHeld(history, r, events, q, i);
      HeldHas(r1, f);
      assert i in Carried(f, q);
    }
  }

  lemma HeldHas(s: Receiving, f: Fragment)
    requires |s.slots| == FLIGHT && Held(s, f) && s.readSeq <= f.hdr.seqNum
    ensures s.slots[f.hdr.seqNum % FLIGHT].Some? && Carried(f, f.hdr.seqNum) <= GotAt(s, f.hdr.seqNum)
  {}

  lemma BroughtIsHeld(history: seq<Message>, r: Receiving, events: seq<Event>, q: nat, i: nat) returns (f: Fragment)
    requires Follows(history, r) && r.epoch != 1 && q < |history| < 0x1_0000 && RingOk(r)
    requires forall e :: e in events ==> CalmEvent(history, r.readSeq + FLIGHT, e)
    requires Brought(events, history, q, i)
    ensures f.hdr.seqNum == q < r.readSeq + FLIGHT
    ensures history[q].body == [] || f.hdr.off <= i < f.hdr.off + f.hdr.len
    ensures |Run(r, events).0.slots| == FLIGHT && Held(Run(r, events).0, f)
  {
    hide RingOk, Run, SlotFollows, Held, Follows, CalmEvent, Brings;
    var e;
    e, f :| e in events && Brings(e, f) && f.hdr.seqNum == q
            && (history[q].body == [] || f.hdr.off <= i < f.hdr.off + f.hdr.len);
    BroughtIsCalm(history, r.readSeq + FLIGHT, e, f);
    assert Open(history, r, r.readSeq + FLIGHT);
    RunHolds(history, r.readSeq + FLIGHT, r, events, f);
    OpenRing(history, Run(r, events).0, r.readSeq + FLIGHT);
  }

  lemma BroughtIsCalm(history: seq<Message>, top: nat, e: Event, f: Fragment)
    requires CalmEvent(history, top, e) && Brings(e, f)
    ensures f.hdr.seqNum < top
  {
    hide ParseFragment, Genuine;
    FragmentsCalm(history, top, e.record, e.maxLen, f);
  }

  lemma {:induction false} FragmentsCalm(history: seq<Message>, top: nat, cbs: seq<byte>, maxLen: nat, f: Fragment)
    requires CalmRecord(history, top, cbs, maxLen) && f in Fragments(cbs)
    ensures Calm(history, top, f, maxLen)
    decreases |cbs|
  {
    hide ParseFragment, Genuine;
    if cbs == [] {
      NothingToParse();
    } else if f != ParseFragment(cbs).value.0 {
      FragmentsCalm(history, top, ParseFragment(cbs).value.1, maxLen, f);
    }
  }

  lemma HeldWithin(history: seq<Message>, r: Receiving, q: nat)
    requires Follows(history, r) && r.readSeq <= q < r.readSeq + FLIGHT && q < |history| < 0x1_0000
    ensures |r.slots| == FLIGHT && GotAt(r, q) <= UpTo(|history[q].body|)
  {
    if r.slots[q % FLIGHT].Some? {
      SlotIsOurs(r, q);
      assert SlotFollows(history, r.slots[q % FLIGHT].value);
    }
  }
}
