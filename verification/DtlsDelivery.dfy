/** What the receiver hands out when the network only carries pieces of the
    sender's messages: safety over every run, and delivery once all bytes of the
    next message have arrived. */
module DtlsDelivery {
  import opened Wrappers
  import opened Words
  import opened DtlsFragment
  import opened DtlsReassembly
  import opened DtlsReceiveSpec

  /** A record made of genuine fragments only. */
  predicate GenuineRecord(sent: seq<Message>, record: seq<byte>)
    decreases |record|
  {
    record == [] ||
    (ParseFragment(record).Some? && Genuine(sent, ParseFragment(record).value.0)
     && GenuineRecord(sent, ParseFragment(record).value.1))
  }

  /** The buffer agrees with the sender wherever bytes have arrived. */
  ghost predicate SlotFollows(sent: seq<Message>, t: Slot) {
    && t.Ok() && t.seqNum < |sent|
    && t.typ == sent[t.seqNum].typ && t.msgLen == |sent[t.seqNum].body|
    && forall k :: k in t.got ==> t.data[HEADER + k] == sent[t.seqNum].body[k]
  }

  ghost predicate Follows(sent: seq<Message>, s: Receiving) {
    && RingOk(s) && s.readSeq <= |sent|
    && forall i :: 0 <= i < FLIGHT && s.slots[i].Some? ==> SlotFollows(sent, s.slots[i].value)
  }

  lemma FollowsRing(sent: seq<Message>, s: Receiving)
    requires Follows(sent, s)
    ensures RingOk(s) && |s.slots| == FLIGHT
  {}

  lemma NewSlotFollows(sent: seq<Message>, f: Fragment)
    requires Genuine(sent, f)
    ensures SlotFollows(sent, NewSlot(f.hdr))
  {}

  lemma AbsorbFollows(sent: seq<Message>, t: Slot, f: Fragment)
    requires SlotFollows(sent, t) && Genuine(sent, f) && t.seqNum == f.hdr.seqNum
    ensures |f.body| == f.hdr.len && SlotFollows(sent, t.Absorb(f.hdr.off, f.body))
  {
    var r := t.Absorb(f.hdr.off, f.body);
    forall k | k in r.got ensures r.data[HEADER + k] == sent[t.seqNum].body[k] {}
  }

  /** The buffer a fragment in the window goes to. */
  function Target(s: Receiving, h: Header): Slot
    requires |s.slots| == FLIGHT
  {
    if s.slots[h.seqNum % FLIGHT].Some? then s.slots[h.seqNum % FLIGHT].value else NewSlot(h)
  }

  /** Opening a fragment changes nothing, or one slot. */
  lemma OpenOneEffect(s: Receiving, f: Fragment, maxLen: nat)
    requires RingOk(s) && |f.body| == f.hdr.len
    ensures var s1 := OpenOne(s, f, maxLen).0;
            var t := Target(s, f.hdr);
            s1 == s ||
            (&& s.readSeq <= f.hdr.seqNum < s.readSeq + FLIGHT
             && t.Ok() && t.seqNum == f.hdr.seqNum && t.msgLen == f.hdr.msgLen && f.hdr.off + f.hdr.len <= t.msgLen
             && s1 == s.(slots := s.slots[f.hdr.seqNum % FLIGHT :=
                                          Some(if t.Complete() then t else t.Absorb(f.hdr.off, f.body))]))
  {
    if Incoming(s, f.hdr).Found? {
      IncomingKeepsRing(s, f.hdr);
      hide InWindow, NewSlot, Slot.Absorb, Slot.Ok;
      var t := Target(s, f.hdr);
      assert s.slots[f.hdr.seqNum % FLIGHT].Some? ==> s.slots[f.hdr.seqNum % FLIGHT := Some(t)] == s.slots;
    }
  }

  /** A genuine fragment leaves the buffers in agreement with the sender. */
  lemma OpenOneFollows(sent: seq<Message>, s: Receiving, f: Fragment, maxLen: nat)
    requires Follows(sent, s) && Genuine(sent, f) && |f.body| == f.hdr.len
    ensures Follows(sent, OpenOne(s, f, maxLen).0)
    ensures OpenOne(s, f, maxLen).0.readSeq == s.readSeq
    ensures OpenOne(s, f, maxLen).0.epoch == s.epoch
  {
    OpenOneEffect(s, f, maxLen);
    NewSlotFollows(sent, f);
    var s1 := OpenOne(s, f, maxLen).0;
    var t := Target(s, f.hdr);
    hide InWindow, RingOk, NewSlot, Slot.Absorb, Slot.Ok, OpenOne, SlotFollows, Genuine;
    if s1 != s {
      assert SlotFollows(sent, t);
      AbsorbFollows(sent, t, f);
    }
  }

  lemma {:induction false} OpenFragmentsFollows(sent: seq<Message>, s: Receiving, cbs: seq<byte>, maxLen: nat)
    requires Follows(sent, s) && GenuineRecord(sent, cbs)
    ensures Follows(sent, OpenFragments(s, cbs, maxLen).0)
    ensures OpenFragments(s, cbs, maxLen).0.readSeq == s.readSeq
    decreases |cbs|
  {
    if cbs != [] {
      var (f, rest) := ParseFragment(cbs).value;
      OpenOneFollows(sent, s, f, maxLen);
      var (s1, v) := OpenOne(s, f, maxLen);
      if !v.Error? { OpenFragmentsFollows(sent, s1, rest, maxLen); }
    }
  }

  /** What can happen to the receiver: a record is opened, the handshake takes
      the next message if it is complete, a ChangeCipherSpec is taken, or the read
      epoch changes. */
  datatype Event =
    | Arrive(typ: RecordType, record: seq<byte>, maxLen: nat)
    | Take
    | TakeCcs
    | SetReadState

  ghost function Step(s: Receiving, e: Event): (r: (Receiving, seq<Message>))
    requires RingOk(s)
    ensures RingOk(r.0)
  {
    match e
    case Arrive(typ, record, maxLen) => (OpenRecord(s, typ, record, maxLen).0, [])
    case Take => if CurrentComplete(s) then (NextMessage(s), [GetMessage(s)]) else (s, [])
    case TakeCcs => (s.(hasCcs := false), [])
    case SetReadState =>
      (if Unprocessed(s) then s else s.(epoch := (s.epoch + 1) % 0x1_0000, nullCipher := false), [])
  }

  /** A whole run: the final state and the messages handed out, in order. */
  ghost function Run(s: Receiving, events: seq<Event>): (r: (Receiving, seq<Message>))
    requires RingOk(s)
    ensures RingOk(r.0)
    decreases |events|
  {
    hide Step, RingOk;
    if events == [] then (s, [])
    else
      var (s1, out) := Step(s, events[0]);
      var (s2, outs) := Run(s1, events[1..]);
      (s2, out + outs)
  }

  ghost predicate GenuineEvent(sent: seq<Message>, e: Event) {
    e.Arrive? && e.typ.Handshake? ==> GenuineRecord(sent, e.record)
  }

  /** The message handed out is the sender's, byte for byte. */
  lemma TakeFollows(sent: seq<Message>, s: Receiving)
    requires Follows(sent, s) && CurrentComplete(s) && |sent| < 0x1_0000
    ensures s.readSeq < |sent| && GetMessage(s) == sent[s.readSeq]
    ensures Follows(sent, NextMessage(s)) && NextMessage(s).readSeq == s.readSeq + 1
  {
    SlotIsOurs(s, s.readSeq);
    var t := s.slots[s.readSeq % FLIGHT].value;
    assert SlotFollows(sent, t);
    forall k | 0 <= k < t.msgLen ensures t.data[HEADER..][k] == sent[s.readSeq].body[k] {
      assert k in t.got;
    }
    assert t.data[HEADER..] == sent[s.readSeq].body;
  }

  /** Every step keeps the agreement and hands out the next message or nothing. */
  lemma StepFollows(sent: seq<Message>, s: Receiving, e: Event)
    requires Follows(sent, s) && GenuineEvent(sent, e) && |sent| < 0x1_0000
    ensures var (s1, out) := Step(s, e);
            && Follows(sent, s1) && s.readSeq <= s1.readSeq
            && out == sent[s.readSeq..s1.readSeq]
  {
    if e.Arrive? {
      if e.typ.Handshake? { OpenFragmentsFollows(sent, s, e.record, e.maxLen); }
    } else if e.Take? && CurrentComplete(s) {
      TakeFollows(sent, s);
    }
  }

  lemma {:induction false} RunFollows(sent: seq<Message>, s: Receiving, events: seq<Event>)
    requires Follows(sent, s) && |sent| < 0x1_0000
    requires forall e :: e in events ==> GenuineEvent(sent, e)
    ensures var (s1, out) := Run(s, events);
            Follows(sent, s1) && s.readSeq <= s1.readSeq && out == sent[s.readSeq..s1.readSeq]
    decreases |events|
  {
    if events != [] {
      StepFollows(sent, s, events[0]);
      RunFollows(sent, Step(s, events[0]).0, events[1..]);
    }
  }

  /** Whatever the network drops, repeats, reorders or regroups, and whenever the
      handshake polls, the messages handed out are a prefix of the sender's. */
  lemma DeliveredIsPrefix(sent: seq<Message>, events: seq<Event>)
    requires |sent| < 0x1_0000
    requires forall e :: e in events ==> GenuineEvent(sent, e)
    ensures Run(Initially(), events).1 <= sent
    ensures |Run(Initially(), events).1| == Run(Initially(), events).0.readSeq
  {
    RunFollows(sent, Initially(), events);
    assert sent[0..Run(Initially(), events).0.readSeq] <= sent;
  }

  // ---- Alerts on honest traffic ----

  /** The two range checks together: before the encrypted epoch, an honest
      fragment is answered by an alert exactly when its number is one past the
      window. */
  lemma HonestAlert(sent: seq<Message>, s: Receiving, f: Fragment, maxLen: nat)
    requires Follows(sent, s) && Genuine(sent, f) && |f.body| == f.hdr.len && f.hdr.msgLen <= maxLen
    ensures OpenOne(s, f, maxLen).1.Error? <==>
            if s.epoch == 1 then f.hdr.seqNum != s.readSeq else f.hdr.seqNum == s.readSeq + FLIGHT
  {
    if s.readSeq <= f.hdr.seqNum < s.readSeq + FLIGHT && s.slots[f.hdr.seqNum % FLIGHT].Some? {
      SlotIsOurs(s, f.hdr.seqNum);
      assert SlotFollows(sent, s.slots[f.hdr.seqNum % FLIGHT].value);
    }
  }

  // ---- Delivery ----

  predicate Sized(fs: seq<Fragment>) { forall f :: f in fs ==> |f.body| == f.hdr.len }

  /** Fragments opened one after the other. */
  ghost function OpenAll(s: Receiving, fs: seq<Fragment>, maxLen: nat): (r: Receiving)
    requires RingOk(s) && Sized(fs)
    ensures RingOk(r)
    decreases |fs|
  {
    hide RingOk, OpenOne;
    if fs == [] then s else OpenAll(OpenOne(s, fs[0], maxLen).0, fs[1..], maxLen)
  }

  /** The bytes of message `q` that `fs` carry. */
  function Covered(fs: seq<Fragment>, q: nat): set<nat> {
    if fs == [] then {} else Carried(fs[0], q) + Covered(fs[1..], q)
  }

  function Carried(f: Fragment, q: nat): set<nat> {
    if f.hdr.seqNum == q then Range(f.hdr.off, f.hdr.off + f.hdr.len) else {}
  }

  predicate Mentions(fs: seq<Fragment>, q: nat) {
    fs != [] && (fs[0].hdr.seqNum == q || Mentions(fs[1..], q))
  }

  function GotAt(s: Receiving, q: nat): set<nat>
    requires |s.slots| == FLIGHT
  {
    if s.slots[q % FLIGHT].Some? then s.slots[q % FLIGHT].value.got else {}
  }

  /** A genuine fragment the receiver will not answer with an alert. */
  predicate Welcome(sent: seq<Message>, readSeq: nat, epoch: nat, f: Fragment, maxLen: nat) {
    && Genuine(sent, f) && |f.body| == f.hdr.len && f.hdr.msgLen <= maxLen
    && (if epoch == 1 then f.hdr.seqNum == readSeq else f.hdr.seqNum != readSeq + FLIGHT)
  }

  predicate AllWelcome(sent: seq<Message>, readSeq: nat, epoch: nat, fs: seq<Fragment>, maxLen: nat)
    ensures AllWelcome(sent, readSeq, epoch, fs, maxLen) ==> Sized(fs)
  {
    forall f :: f in fs ==> Welcome(sent, readSeq, epoch, f, maxLen)
  }

  /** A welcome fragment in the window ends up in its buffer. */
  lemma WelcomeStored(sent: seq<Message>, s: Receiving, f: Fragment, maxLen: nat)
    requires Follows(sent, s) && Welcome(sent, s.readSeq, s.epoch, f, maxLen)
    requires s.readSeq <= f.hdr.seqNum < s.readSeq + FLIGHT
    ensures var s1 := OpenOne(s, f, maxLen).0;
            && s1.slots[f.hdr.seqNum % FLIGHT].Some?
            && s1.slots[f.hdr.seqNum % FLIGHT].value.got == Target(s, f.hdr).got + Carried(f, f.hdr.seqNum)
            && Target(s, f.hdr).got == GotAt(s, f.hdr.seqNum)
  {
    HonestAlert(sent, s, f, maxLen);
    IncomingKeepsRing(s, f.hdr);
    var t := Target(s, f.hdr);
    assert Carried(f, f.hdr.seqNum) <= UpTo(f.hdr.msgLen);
    assert t.Ok() && t.msgLen == f.hdr.msgLen;
    assert t == Incoming(s, f.hdr).s.slots[f.hdr.seqNum % FLIGHT].value;
  }

  /** A fragment of another message does not touch the buffer of `q`. */
  lemma OtherUntouched(s: Receiving, f: Fragment, maxLen: nat, q: u16)
    requires RingOk(s) && |f.body| == f.hdr.len
    requires s.readSeq <= q < s.readSeq + FLIGHT && f.hdr.seqNum != q
    ensures OpenOne(s, f, maxLen).0.slots[q % FLIGHT] == s.slots[q % FLIGHT]
  {
    hide RingOk, NewSlot, Slot.Absorb, Slot.Ok, OpenOne, Slot.Complete;
    OpenOneEffect(s, f, maxLen);
    RingLong(s);
    var k := f.hdr.seqNum;
    if s.readSeq <= k < s.readSeq + FLIGHT {
      if k < q { IndicesDiffer(k, q); } else { IndicesDiffer(q, k); }
    }
  }

  /** One welcome fragment adds exactly its range to its message. */
  lemma OpenOneCollects(sent: seq<Message>, s: Receiving, f: Fragment, maxLen: nat, q: u16)
    requires Follows(sent, s) && Welcome(sent, s.readSeq, s.epoch, f, maxLen)
    requires s.readSeq <= q < s.readSeq + FLIGHT
    ensures var s1 := OpenOne(s, f, maxLen).0;
            && GotAt(s1, q) == GotAt(s, q) + Carried(f, q)
            && (s1.slots[q % FLIGHT].Some? <==> s.slots[q % FLIGHT].Some? || f.hdr.seqNum == q)
  {
    hide RingOk, InWindow, NewSlot, OpenOne, SlotFollows, Genuine, Target, UpTo, Range;
    if f.hdr.seqNum == q {
      WelcomeStored(sent, s, f, maxLen);
    } else {
      OtherUntouched(s, f, maxLen, q);
    }
  }

  /** Fragments in any order and number collect into their union. */
  lemma {:induction false} OpenAllCollects(sent: seq<Message>, s: Receiving, fs: seq<Fragment>, maxLen: nat, q: u16)
    requires Follows(sent, s) && AllWelcome(sent, s.readSeq, s.epoch, fs, maxLen)
    requires s.readSeq <= q < s.readSeq + FLIGHT
    ensures var s1 := OpenAll(s, fs, maxLen);
            && Follows(sent, s1) && s1.readSeq == s.readSeq
            && GotAt(s1, q) == GotAt(s, q) + Covered(fs, q)
            && (s1.slots[q % FLIGHT].Some? <==> s.slots[q % FLIGHT].Some? || Mentions(fs, q))
    decreases |fs|
  {
    hide RingOk, OpenOne, SlotFollows, Welcome, GotAt, Carried;
    if fs != [] {
      assert Welcome(sent, s.readSeq, s.epoch, fs[0], maxLen);
      WelcomeParts(sent, s, fs[0], maxLen);
      OpenOneFollows(sent, s, fs[0], maxLen);
      OpenOneCollects(sent, s, fs[0], maxLen, q);
      OpenAllCollects(sent, OpenOne(s, fs[0], maxLen).0, fs[1..], maxLen, q);
    }
  }

  lemma WelcomeParts(sent: seq<Message>, s: Receiving, f: Fragment, maxLen: nat)
    requires Follows(sent, s) && Welcome(sent, s.readSeq, s.epoch, f, maxLen)
    ensures RingOk(s) && Genuine(sent, f) && |f.body| == f.hdr.len
    ensures !OpenOne(s, f, maxLen).1.Error?
    ensures OpenOne(s, f, maxLen).1 == Success
  {
    HonestAlert(sent, s, f, maxLen);
  }

  /** Message `q` is in its buffer in full. */
  ghost predicate Arrived(sent: seq<Message>, s: Receiving, q: nat)
    requires |s.slots| == FLIGHT && q < |sent|
  {
    s.slots[q % FLIGHT].Some? && GotAt(s, q) == UpTo(|sent[q].body|)
  }

  lemma ArrivedIsComplete(sent: seq<Message>, s: Receiving)
    requires Follows(sent, s) && s.readSeq < |sent|
    ensures CurrentComplete(s) <==> Arrived(sent, s, s.readSeq)
  {
    if s.slots[s.readSeq % FLIGHT].Some? {
      SlotIsOurs(s, s.readSeq);
      assert SlotFollows(sent, s.slots[s.readSeq % FLIGHT].value);
    }
  }

  /** The next message is handed out exactly when what was there and what has
      arrived since cover it, in whatever order, with whatever overlaps. */
  lemma DeliveredWhenCovered(sent: seq<Message>, s: Receiving, fs: seq<Fragment>, maxLen: nat)
    requires Follows(sent, s) && s.readSeq < |sent| < 0x1_0000
    requires AllWelcome(sent, s.readSeq, s.epoch, fs, maxLen)
    ensures var q := s.readSeq;
            Step(OpenAll(s, fs, maxLen), Take).1 ==
              if (s.slots[q % FLIGHT].Some? || Mentions(fs, q)) && GotAt(s, q) + Covered(fs, q) == UpTo(|sent[q].body|)
              then [sent[q]] else []
  {
    hide RingOk, OpenOne, SlotFollows, Welcome, GotAt, Covered, Mentions, OpenAll, AllWelcome;
    OpenAllCollects(sent, s, fs, maxLen, s.readSeq);
    var s1 := OpenAll(s, fs, maxLen);
    FollowsRing(sent, s1);
    ArrivedIsComplete(sent, s1);
    if CurrentComplete(s1) { TakeFollows(sent, s1); }
  }

  /** A record of welcome fragments is opened whole. */
  lemma {:induction false} RecordIsOpenAll(sent: seq<Message>, s: Receiving, fs: seq<Fragment>, maxLen: nat)
    requires Follows(sent, s) && AllWelcome(sent, s.readSeq, s.epoch, fs, maxLen)
    ensures OpenFragments(s, EncFragments(fs), maxLen) == (OpenAll(s, fs, maxLen), Success)
    decreases |fs|
  {
    hide RingOk, OpenOne, SlotFollows, Welcome, EncFragment, ParseFragment;
    if fs != [] {
      assert Welcome(sent, s.readSeq, s.epoch, fs[0], maxLen);
      WelcomeParts(sent, s, fs[0], maxLen);
      FragmentRoundTrip(fs[0], EncFragments(fs[1..]));
      assert EncFragments(fs) == EncFragment(fs[0]) + EncFragments(fs[1..]);
      OpenOneFollows(sent, s, fs[0], maxLen);
      RecordIsOpenAll(sent, OpenOne(s, fs[0], maxLen).0, fs[1..], maxLen);
    }
  }

  // ---- Repeated polls ----

  function Takes(n: nat): (es: seq<Event>)
    ensures forall e :: e in es ==> e.Take?
  {
    if n == 0 then [] else [Take] + Takes(n - 1)
  }

  /** Handing out a message does not touch the others. */
  lemma TakeKeepsOthers(s: Receiving, q: nat)
    requires RingOk(s) && CurrentComplete(s) && s.readSeq < q < s.readSeq + FLIGHT
    ensures NextMessage(s).slots[q % FLIGHT] == s.slots[q % FLIGHT]
  {
    IndicesDiffer(s.readSeq, q);
    hide CurrentComplete;
  }

  lemma IndicesDiffer(a: nat, b: nat)
    requires a < b < a + FLIGHT
    ensures a % FLIGHT != b % FLIGHT
  {}

  lemma StaysArrived(sent: seq<Message>, s: Receiving, q: nat)
    requires RingOk(s) && CurrentComplete(s) && s.readSeq < q < s.readSeq + FLIGHT && q < |sent|
    requires Arrived(sent, s, q)
    ensures Arrived(sent, NextMessage(s), q)
  {
    TakeKeepsOthers(s, q);
  }

  lemma MoreTakes(n: nat)
    requires n > 0
    ensures Takes(n) != [] && Takes(n)[0] == Take && Takes(n)[1..] == Takes(n - 1)
  {}

  lemma {:induction false} TakesBounded(sent: seq<Message>, s: Receiving, n: nat)
    requires Follows(sent, s) && |s.slots| == FLIGHT && |sent| < 0x1_0000
    ensures Run(s, Takes(n)).0.readSeq <= s.readSeq + n
    decreases n
  {
    hide RingOk, SlotFollows, Takes;
    FollowsRing(sent, s);
    if n == 0 {
      NoTakes();
    } else {
      MoreTakes(n);
      if CurrentComplete(s) { TakeFollows(sent, s); }
      var s1 := Step(s, Take).0;
      FollowsRing(sent, s1);
      TakesBounded(sent, s1, n - 1);
    }
  }

  lemma NoTakes()
    ensures Takes(0) == []
  {}

  /** As many polls as there are complete messages hand all of them out. */
  lemma {:induction false} TakesArrived(sent: seq<Message>, s: Receiving, hi: nat, n: nat)
    requires Follows(sent, s) && |s.slots| == FLIGHT
    requires hi <= |sent| < 0x1_0000 && hi <= s.readSeq + n && hi <= s.readSeq + FLIGHT
    requires forall q :: s.readSeq <= q < hi ==> Arrived(sent, s, q)
    ensures var (s1, out) := Run(s, Takes(n));
            Follows(sent, s1) && s.readSeq <= s1.readSeq && hi <= s1.readSeq && out == sent[s.readSeq..s1.readSeq]
    decreases n
  {
    hide RingOk, SlotFollows, Takes, Arrived;
    FollowsRing(sent, s);
    RunFollows(sent, s, Takes(n));
    if s.readSeq < hi {
      assert Arrived(sent, s, s.readSeq);
      ArrivedIsComplete(sent, s);
      TakeFollows(sent, s);
      var s1 := NextMessage(s);
      FollowsRing(sent, s1);
      forall q | s1.readSeq <= q < hi ensures Arrived(sent, s1, q) {
        assert Arrived(sent, s, q);
        StaysArrived(sent, s, q);
      }
      TakesArrived(sent, s1, hi, n - 1);
      MoreTakes(n);
    }
  }

  // ---- Any traffic, genuine or not ----

  /** The buffers are of messages of admitted length. */
  ghost predicate Within(s: Receiving, limit: nat)
    requires |s.slots| == FLIGHT
  {
    forall i :: 0 <= i < FLIGHT && s.slots[i].Some? ==> s.slots[i].value.msgLen <= limit
  }

  lemma OpenOneWithin(s: Receiving, f: Fragment, maxLen: nat, limit: nat)
    requires RingOk(s) && |f.body| == f.hdr.len && Within(s, limit) && maxLen <= limit
    ensures Within(OpenOne(s, f, maxLen).0, limit)
    ensures OpenOne(s, f, maxLen).0.hasCcs == s.hasCcs && OpenOne(s, f, maxLen).0.epoch == s.epoch
  {
    OpenOneEffect(s, f, maxLen);
    hide Slot.Ok, InWindow;
    if OpenOne(s, f, maxLen).0 == s {
    } else if s.slots[f.hdr.seqNum % FLIGHT].None? {
      AdmittedOnly(s, f, maxLen);
    }
  }

  /** A fragment of a longer message is answered by an alert and not stored. */
  lemma AdmittedOnly(s: Receiving, f: Fragment, maxLen: nat)
    requires RingOk(s) && |f.body| == f.hdr.len
    ensures f.hdr.msgLen > maxLen || f.hdr.off + f.hdr.len > f.hdr.msgLen ==> OpenOne(s, f, maxLen) == (s, Error(IllegalParameter))
  {
    hide RingOk;
  }

  /** Whatever the fragment: it is answered by an alert exactly for a range outside its
      message, a message that is too long, a number other than the current one in the
      encrypted epoch, the number one past the window, or a type or a length other than
      that of the buffer. */
  lemma RefusedExactly(s: Receiving, f: Fragment, maxLen: nat)
    requires RingOk(s) && |f.body| == f.hdr.len
    ensures var h := f.hdr;
            var t := s.slots[h.seqNum % FLIGHT];
            OpenOne(s, f, maxLen).1.Error? <==>
              || h.off + h.len > h.msgLen || h.msgLen > maxLen
              || (s.epoch == 1 && h.seqNum != s.readSeq) || h.seqNum == s.readSeq + FLIGHT
              || (s.readSeq <= h.seqNum < s.readSeq + FLIGHT && t.Some? && (t.value.typ != h.typ || t.value.msgLen != h.msgLen))
    ensures OpenOne(s, f, maxLen).1.Error? ==> OpenOne(s, f, maxLen).0 == s
  {
    hide InWindow, Slot.Ok;
  }

  lemma {:induction false} OpenFragmentsWithin(s: Receiving, cbs: seq<byte>, maxLen: nat, limit: nat)
    requires RingOk(s) && Within(s, limit) && maxLen <= limit
    ensures Within(OpenFragments(s, cbs, maxLen).0, limit)
    ensures OpenFragments(s, cbs, maxLen).0.hasCcs == s.hasCcs && OpenFragments(s, cbs, maxLen).0.epoch == s.epoch
    decreases |cbs|
  {
    hide RingOk, OpenOne, ParseFragment, Within;
    RingLong(s);
    if cbs != [] && ParseFragment(cbs).Some? {
      var (f, rest) := ParseFragment(cbs).value;
      OpenOneWithin(s, f, maxLen, limit);
      RingLong(OpenOne(s, f, maxLen).0);
      if !OpenOne(s, f, maxLen).1.Error? { OpenFragmentsWithin(OpenOne(s, f, maxLen).0, rest, maxLen, limit); }
    }
  }

  lemma RingLong(s: Receiving)
    requires RingOk(s)
    ensures |s.slots| == FLIGHT
  {}

  predicate Limited(e: Event, limit: nat) { e.Arrive? ==> e.maxLen <= limit }

  lemma StepWithin(s: Receiving, e: Event, limit: nat)
    requires RingOk(s) && Within(s, limit) && Limited(e, limit)
    ensures Within(Step(s, e).0, limit)
    ensures s.hasCcs && !e.TakeCcs? ==> Step(s, e).0.hasCcs && Step(s, e).0.epoch == s.epoch
  {
    hide OpenFragments;
    if e.Arrive? && e.typ.Handshake? { OpenFragmentsWithin(s, e.record, e.maxLen, limit); }
  }

  /** Whatever arrives: every buffer is of a message of admitted length, and a
      ChangeCipherSpec that has arrived is kept, with the read epoch, until it is
      taken. */
  lemma {:induction false} RunWithin(s: Receiving, events: seq<Event>, limit: nat)
    requires RingOk(s) && Within(s, limit) && forall e :: e in events ==> Limited(e, limit)
    ensures Within(Run(s, events).0, limit)
    ensures s.hasCcs && (forall e :: e in events ==> !e.TakeCcs?) ==>
              Run(s, events).0.hasCcs && Run(s, events).0.epoch == s.epoch
    decreases |events|
  {
    hide RingOk, Step, Within;
    RingLong(s);
    if events != [] {
      StepWithin(s, events[0], limit);
      RingLong(Step(s, events[0]).0);
      RunWithin(Step(s, events[0]).0, events[1..], limit);
    }
  }

  /** A ChangeCipherSpec is noted exactly before the read cipher is on and when it is
      the byte 1; and it is taken once. */
  lemma CcsNoted(s: Receiving, record: seq<byte>, maxLen: nat)
    requires RingOk(s)
    ensures var (s1, v) := OpenRecord(s, ChangeCipherSpec, record, maxLen);
            (v == Success <==> s.nullCipher && record == [1]) && (s1.hasCcs <==> s.hasCcs || v == Success)
    ensures var (s1, v) := OpenCcs(s, ChangeCipherSpec, record, maxLen);
            (v == Success <==> s.hasCcs || (s.nullCipher && record == [1])) && (v == Success ==> !s1.hasCcs)
  {}
}
