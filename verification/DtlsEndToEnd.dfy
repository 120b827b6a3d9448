/** Sender, network and receiver together. */
module DtlsEndToEnd {
  import opened Wrappers
  import opened Words
  import opened DtlsFragment
  import opened DtlsReassembly
  import opened DtlsReceiveSpec
  import opened DtlsDelivery
  import opened DtlsLiveness
  import opened DtlsSendSpec
  import DtlsSender

  lemma KeptIsWhole(history: seq<Message>, o: Outgoing, k: nat)
    requires Queued(history, o, k)
    ensures Kept(o) == Some(Whole(history[k], k)) && BodyOf(o) == history[k].body
  {
    hide EncFragment, ParseFragment;
    var f := Whole(history[k], k);
    FragmentRoundTrip(f, []);
    assert EncFragment(f) + [] == EncFragment(f);
  }

  lemma ParsedNonEmpty(s: seq<byte>)
    requires ParseFragment(s).Some?
    ensures s != []
  {}

  lemma OneFragmentRecord(sent: seq<Message>, s: seq<byte>)
    requires ParseFragment(s).Some? && ParseFragment(s).value.1 == [] && Genuine(sent, ParseFragment(s).value.0)
    ensures GenuineRecord(sent, s)
  {
    hide ParseFragment;
    assert GenuineRecord(sent, []);
  }

  /** A piece of a queued message is genuine. */
  lemma PieceGenuine(history: seq<Message>, o: Outgoing, k: nat, off: nat, rec: Sealed)
    requires Queued(history, o, k) && IsPiece(o, off, LengthOf(rec), rec)
    ensures rec.plain != [] && ParseFragment(rec.plain).Some?
    ensures var (g, rest) := ParseFragment(rec.plain).value;
            && Genuine(history, g) && rest == []
            && g.hdr.seqNum == k && g.hdr.off == off && g.hdr.len == LengthOf(rec)
    ensures GenuineRecord(history, rec.plain)
  {
    hide EncFragment, Kept, ParseFragment, LengthOf, BodyOf, PayloadOf, GenuineRecord;
    KeptIsWhole(history, o, k);
    PieceCarries(o, off, rec);
    ParsedNonEmpty(rec.plain);
    OneFragmentRecord(history, rec.plain);
  }

  /** Every handshake record sent is genuine. */
  lemma {:induction false} SentIsGenuine(history: seq<Message>, flight: seq<Outgoing>, p: Pos, recs: seq<Sealed>, rec: Sealed)
    requires Walk(flight, p, recs).Some? && rec in recs && !rec.isCcs
    requires forall o :: o in flight ==> FromHistory(history, o)
    ensures GenuineRecord(history, rec.plain)
    decreases |recs|
  {
    hide GenuineRecord, IsPiece, Queued;
    if rec == recs[0] {
      var o := flight[p.written];
      PieceKind(o, p.offset, rec);
      assert FromHistory(history, o);
      var k: nat :| Queued(history, o, k);
      PieceGenuine(history, o, k, p.offset, rec);
    } else {
      SentIsGenuine(history, flight, Advance(flight, p, recs[0]).value, recs[1..], rec);
    }
  }

  lemma PieceKind(o: Outgoing, off: nat, rec: Sealed)
    requires IsPiece(o, off, LengthOf(rec), rec)
    ensures rec.isCcs == o.isCcs
  {}

  /** The network carries records that some stretch of sending put out, any number
      of times, in any order, or not at all. */
  ghost predicate Carried(sendings: seq<Sending>, e: Event) {
    e.Arrive? && e.typ.Handshake? ==>
      exists s, rec :: s in sendings && rec in s.recs && !rec.isCcs && e.record == rec.plain
  }

  /** Over all flights, MTUs, failed writes and retransmissions, whatever the network
      does, the receiver hands out a prefix of the sender's messages. */
  lemma EndToEnd(history: seq<Message>, sendings: seq<Sending>, events: seq<Event>)
    requires |history| < 0x1_0000
    requires forall s :: s in sendings ==> Honest(history, s)
    requires forall e :: e in events ==> Carried(sendings, e)
    ensures Run(Initially(), events).1 <= history
  {
    forall e | e in events ensures GenuineEvent(history, e) {
      assert Carried(sendings, e);
      if e.Arrive? && e.typ.Handshake? {
        var s, rec :| s in sendings && rec in s.recs && !rec.isCcs && e.record == rec.plain;
        assert Honest(history, s);
        SentIsGenuine(history, s.flight, s.start, s.recs, rec);
      }
    }
    DeliveredIsPrefix(history, events);
  }

  /** The same for the sender object: whatever was done with it, the receiver hands
      out a prefix of the messages that were added to it. */
  lemma SenderToReceiver(w: DtlsSender.Sender, events: seq<Event>)
    requires w.Logged() && forall e :: e in events ==> Carried(w.log, e)
    ensures Run(Initially(), events).1 <= w.history
  {
    EndToEnd(w.history, w.log, events);
  }

  // ---- A flight that arrives ----

  /** The record of a walk that carries byte `i` of message `w`, or the one record
      of an empty message. */
  lemma {:induction false} WalkHits(flight: seq<Outgoing>, p: Pos, recs: seq<Sealed>, w: nat, i: nat) returns (rec: Sealed, off: nat)
    requires InFlight(flight, p) && Walk(flight, p, recs).Some?
    requires p.written <= w < Walk(flight, p, recs).value.written && w < |flight|
    requires if BodyOf(flight[w]) == [] then i == 0 else i < |BodyOf(flight[w])|
    requires p.written == w ==> p.offset <= i
    ensures rec in recs && IsPiece(flight[w], off, LengthOf(rec), rec)
    ensures BodyOf(flight[w]) == [] || off <= i < off + LengthOf(rec)
    decreases |recs|
  {
    hide IsPiece, LengthOf, BodyOf;
    var q := Advance(flight, p, recs[0]).value;
    StepBounds(flight, p, recs[0]);
    if p.written == w && (BodyOf(flight[w]) == [] || i < p.offset + LengthOf(recs[0])) {
      rec, off := recs[0], p.offset;
    } else {
      rec, off := WalkHits(flight, q, recs[1..], w, i);
    }
  }

  lemma StepBounds(flight: seq<Outgoing>, p: Pos, rec: Sealed)
    requires InFlight(flight, p) && Advance(flight, p, rec).Some?
    ensures p.written < |flight| && InFlight(flight, Advance(flight, p, rec).value)
    ensures var q := Advance(flight, p, rec).value;
            q.written > p.written || (q.written == p.written && q.offset == p.offset + LengthOf(rec))
    ensures Advance(flight, p, rec).value.written > p.written ==>
              p.offset + LengthOf(rec) == |BodyOf(flight[p.written])|
    ensures Advance(flight, p, rec).value.written <= p.written + 1
    ensures IsPiece(flight[p.written], p.offset, LengthOf(rec), rec)
  {
    hide EncFragment, ParseFragment;
    AdvanceCarries(flight, p, rec);
  }

  lemma {:induction false} CoveredBy(fs: seq<Fragment>, f: Fragment, q: nat)
    requires f in fs
    ensures DtlsDelivery.Carried(f, q) <= Covered(fs, q) && (f.hdr.seqNum == q ==> Mentions(fs, q))
    decreases |fs|
  {
    if f != fs[0] { CoveredBy(fs[1..], f, q); }
  }

  lemma {:induction false} CoveredWithin(history: seq<Message>, fs: seq<Fragment>, q: nat)
    requires q < |history| && forall f :: f in fs ==> Genuine(history, f)
    ensures Covered(fs, q) <= UpTo(|history[q].body|)
    decreases |fs|
  {
    if fs != [] {
      assert fs[0] in fs && DtlsDelivery.Carried(fs[0], q) <= UpTo(|history[q].body|);
      CoveredWithin(history, fs[1..], q);
    }
  }

  ghost predicate HasMessage(history: seq<Message>, flight: seq<Outgoing>, q: nat) {
    exists w :: 0 <= w < |flight| && Queued(history, flight[w], q)
  }

  /** The flight holds the messages numbered from `lo` up to `hi`. */
  ghost predicate Holds(history: seq<Message>, flight: seq<Outgoing>, lo: nat, hi: nat) {
    hi <= |history| && forall q :: lo <= q < hi ==> HasMessage(history, flight, q)
  }

  /** Each handshake fragment of a stretch of sending is among `fs`. */
  ghost predicate AllAmong(s: Sending, fs: seq<Fragment>) {
    forall rec :: rec in s.recs && !rec.isCcs && ParseFragment(rec.plain).Some?
                  ==> ParseFragment(rec.plain).value.0 in fs
  }

  /** When a flight was sent from start to end and each of its fragments arrives at
      least once, among any other welcome fragments and in any order, polling hands
      out all of its messages that are still missing, in order, whatever part of them
      was there before. */
  lemma FlightArrives(history: seq<Message>, s: Sending, hi: nat, fs: seq<Fragment>, r: Receiving, maxLen: nat)
    requires Honest(history, s) && s.start == Pos(0, 0) && |history| < 0x1_0000
    requires Walk(s.flight, s.start, s.recs) == Some(Pos(|s.flight|, 0))
    requires Follows(history, r) && r.readSeq <= hi && Holds(history, s.flight, r.readSeq, hi)
    requires AllWelcome(history, r.readSeq, r.epoch, fs, maxLen) && AllAmong(s, fs)
    ensures Run(OpenAll(r, fs, maxLen), Takes(hi - r.readSeq)).1 == history[r.readSeq..hi]
  {
    hide AllWelcome, RingOk, Honest, AllAmong, Takes, Covered, Mentions, Walk, SlotFollows, OpenAll, Holds;
    HoldsWithin(history, s.flight, r.readSeq, hi);
    FollowsRing(history, r);
    WelcomeGenuine(history, r, fs, maxLen);
    if r.readSeq < hi {
      FlightFits(history, s, hi, fs, r, maxLen);
      OpenAllCollects(history, r, fs, maxLen, r.readSeq);
    } else {
      NoTakes();
      return;
    }
    var r1 := OpenAll(r, fs, maxLen);
    FollowsRing(history, r1);
    forall q | r.readSeq <= q < hi ensures q < |history| && Arrived(history, r1, q) {
      FlightBrings(history, s, hi, fs, r, maxLen, q);
    }
    TakesArrived(history, r1, hi, hi - r.readSeq);
    TakesBounded(history, r1, hi - r.readSeq);
  }

  lemma HoldsWithin(history: seq<Message>, flight: seq<Outgoing>, lo: nat, hi: nat)
    requires Holds(history, flight, lo, hi)
    ensures hi <= |history|
  {}

  lemma WelcomeGenuine(history: seq<Message>, r: Receiving, fs: seq<Fragment>, maxLen: nat)
    requires AllWelcome(history, r.readSeq, r.epoch, fs, maxLen)
    ensures Sized(fs) && forall f :: f in fs ==> Genuine(history, f) && Welcome(history, r.readSeq, r.epoch, f, maxLen)
  {
    forall f | f in fs ensures Genuine(history, f) && Welcome(history, r.readSeq, r.epoch, f, maxLen) {
      assert Welcome(history, r.readSeq, r.epoch, f, maxLen);
    }
  }

  /** The window has room for the flight, since none of it was answered by an alert. */
  lemma FlightFits(history: seq<Message>, s: Sending, hi: nat, fs: seq<Fragment>, r: Receiving, maxLen: nat)
    requires Honest(history, s) && s.start == Pos(0, 0) && |history| < 0x1_0000
    requires Walk(s.flight, s.start, s.recs) == Some(Pos(|s.flight|, 0))
    requires Holds(history, s.flight, r.readSeq, hi)
    requires AllWelcome(history, r.readSeq, r.epoch, fs, maxLen) && AllAmong(s, fs)
    ensures hi <= r.readSeq + FLIGHT
  {
    hide Walk, Queued, FromHistory, Genuine, Honest, AllWelcome;
    if hi > r.readSeq + FLIGHT {
      var q := r.readSeq + FLIGHT;
      assert HasMessage(history, s.flight, q);
      var w :| 0 <= w < |s.flight| && Queued(history, s.flight[w], q);
      QueuedKind(history, s.flight[w], q);
      var f := FragmentAt(history, s, w, q, 0, fs);
      WelcomeGenuine(history, r, fs, maxLen);
    }
  }

  lemma FlightBrings(history: seq<Message>, s: Sending, hi: nat, fs: seq<Fragment>, r: Receiving, maxLen: nat, q: nat)
    requires Honest(history, s) && s.start == Pos(0, 0) && |history| < 0x1_0000
    requires Walk(s.flight, s.start, s.recs) == Some(Pos(|s.flight|, 0))
    requires Follows(history, r) && Holds(history, s.flight, r.readSeq, hi) && r.readSeq <= q < hi <= r.readSeq + FLIGHT
    requires AllWelcome(history, r.readSeq, r.epoch, fs, maxLen) && AllAmong(s, fs)
    ensures RingOk(r) && Sized(fs) && q < |history| && |OpenAll(r, fs, maxLen).slots| == FLIGHT
    ensures Arrived(history, OpenAll(r, fs, maxLen), q)
  {
    hide Walk, Queued, FromHistory, Genuine, Honest, AllWelcome, RingOk, SlotFollows, Covered, Mentions, GotAt, AllAmong;
    FollowsRing(history, r);
    WelcomeGenuine(history, r, fs, maxLen);
    assert HasMessage(history, s.flight, q);
    var w :| 0 <= w < |s.flight| && Queued(history, s.flight[w], q);
    FlightCovers(history, s, w, q, fs);
    CoveredWithin(history, fs, q);
    OpenAllCollects(history, r, fs, maxLen, q);
    FollowsRing(history, OpenAll(r, fs, maxLen));
    HeldWithin(history, r, q);
    assert Covered(fs, q) == UpTo(|history[q].body|);
    assert GotAt(OpenAll(r, fs, maxLen), q) == UpTo(|history[q].body|);
  }

  lemma FlightCovers(history: seq<Message>, s: Sending, w: nat, q: nat, fs: seq<Fragment>)
    requires Honest(history, s) && s.start == Pos(0, 0)
    requires Walk(s.flight, s.start, s.recs) == Some(Pos(|s.flight|, 0))
    requires w < |s.flight| && Queued(history, s.flight[w], q)
    requires AllAmong(s, fs)
    ensures UpTo(|history[q].body|) <= Covered(fs, q) && Mentions(fs, q)
  {
    hide Walk, EncFragment, ParseFragment, IsPiece, Queued, GenuineRecord, Genuine, Mentions, Covered, LengthOf, FromHistory;
    KeptIsWhole(history, s.flight[w], q);
    StartInFlight(s.flight);
    QueuedKind(history, s.flight[w], q);
    var body := history[q].body;
    var first := FragmentAt(history, s, w, q, 0, fs);
    CoveredBy(fs, first, q);
    forall i | i in UpTo(|body|) ensures i in Covered(fs, q) {
      var f := FragmentAt(history, s, w, q, i, fs);
      CoveredBy(fs, f, q);
      assert i in DtlsDelivery.Carried(f, q);
    }
  }

  /** The record that carries byte `i` of a message of the flight. */
  lemma RecordAt(history: seq<Message>, s: Sending, w: nat, q: nat, i: nat) returns (rec: Sealed, f: Fragment)
    requires Honest(history, s) && s.start == Pos(0, 0)
    requires Walk(s.flight, s.start, s.recs) == Some(Pos(|s.flight|, 0))
    requires w < |s.flight| && Queued(history, s.flight[w], q)
    requires if history[q].body == [] then i == 0 else i < |history[q].body|
    ensures rec in s.recs && !rec.isCcs && rec.plain != [] && ParseFragment(rec.plain) == Some((f, []))
    ensures f.hdr.seqNum == q && (history[q].body == [] || f.hdr.off <= i < f.hdr.off + f.hdr.len)
  {
    hide Walk, EncFragment, ParseFragment, IsPiece, Queued, GenuineRecord, Genuine, LengthOf, FromHistory;
    KeptIsWhole(history, s.flight[w], q);
    StartInFlight(s.flight);
    var off;
    rec, off := WalkHits(s.flight, s.start, s.recs, w, i);
    PieceGenuine(history, s.flight[w], q, off, rec);
    PieceKind(s.flight[w], off, rec);
    QueuedKind(history, s.flight[w], q);
    f := ParseFragment(rec.plain).value.0;
  }

  lemma FragmentAt(history: seq<Message>, s: Sending, w: nat, q: nat, i: nat, fs: seq<Fragment>) returns (f: Fragment)
    requires Honest(history, s) && s.start == Pos(0, 0)
    requires Walk(s.flight, s.start, s.recs) == Some(Pos(|s.flight|, 0))
    requires w < |s.flight| && Queued(history, s.flight[w], q)
    requires if history[q].body == [] then i == 0 else i < |history[q].body|
    requires AllAmong(s, fs)
    ensures f in fs && f.hdr.seqNum == q
    ensures history[q].body == [] || f.hdr.off <= i < f.hdr.off + f.hdr.len
  {
    hide Walk, ParseFragment, Queued, Honest;
    var rec;
    rec, f := RecordAt(history, s, w, q, i);
  }

  lemma QueuedKind(history: seq<Message>, o: Outgoing, k: nat)
    requires Queued(history, o, k)
    ensures !o.isCcs && k < |history|
  {}

  // ---- A flight that arrives in the course of a run ----

  /** Each handshake record of a stretch of sending arrives somewhere in the run. */
  ghost predicate AllArrive(s: Sending, events: seq<Event>) {
    forall rec :: rec in s.recs && !rec.isCcs ==>
                    exists e :: e in events && e.Arrive? && e.typ.Handshake? && e.record == rec.plain
  }

  /** Arrivals and polls in any order, with whatever other calm records among them:
      once each record of a fully sent flight has arrived, as many polls as a flight
      has messages hand out all of it that was missing, and nothing out of order. */
  lemma FlightDelivered(history: seq<Message>, s: Sending, hi: nat, r: Receiving, events: seq<Event>)
    requires Honest(history, s) && s.start == Pos(0, 0) && |history| < 0x1_0000
    requires Walk(s.flight, s.start, s.recs) == Some(Pos(|s.flight|, 0))
    requires Follows(history, r) && r.epoch != 1 && Holds(history, s.flight, r.readSeq, hi)
    requires AllArrive(s, events) && forall e :: e in events ==> CalmEvent(history, r.readSeq + FLIGHT, e)
    ensures RingOk(r)
    ensures var (r1, out) := Run(r, events + Takes(FLIGHT));
            r.readSeq <= r1.readSeq <= |history| && hi <= r1.readSeq && out == history[r.readSeq..r1.readSeq]
  {
    hide RingOk, Honest, AllArrive, Takes, Walk, SlotFollows, CalmEvent, Follows, Brought, Queued;
    FollowsRing(history, r);
    forall q, i | r.readSeq <= q < hi && PartOf(history, q, i) ensures Brought(events, history, q, i) {
      assert HasMessage(history, s.flight, q);
      var w :| 0 <= w < |s.flight| && Queued(history, s.flight[w], q);
      QueuedKind(history, s.flight[w], q);
      ByteBrought(history, s, events, w, q, i);
    }
    RunDelivered(history, r, hi, events);
  }

  lemma ByteBrought(history: seq<Message>, s: Sending, events: seq<Event>, w: nat, q: nat, i: nat)
    requires Honest(history, s) && s.start == Pos(0, 0)
    requires Walk(s.flight, s.start, s.recs) == Some(Pos(|s.flight|, 0))
    requires w < |s.flight| && Queued(history, s.flight[w], q)
    requires q < |history| && PartOf(history, q, i) && AllArrive(s, events)
    ensures Brought(events, history, q, i)
  {
    hide Walk, Queued, FromHistory, IsPiece, ParseFragment, Honest, LengthOf;
    var rec, f := RecordAt(history, s, w, q, i);
    var e :| e in events && e.Arrive? && e.typ.Handshake? && e.record == rec.plain;
    assert f in Fragments(e.record);
    assert Brings(e, f);
  }

  /** The flight of a sender object that has reached its end without a loss, however
      many calls that took, is one that is sent in full. */
  lemma FlightOfSender(w: DtlsSender.Sender)
    requires w.Valid() && w.Logged() && w.written == |w.outgoing|
    ensures var s := Sending(w.outgoing, Pos(0, 0), Flatten(w.packets));
            (Honest(w.history, s) && Walk(s.flight, s.start, s.recs) == Some(Pos(|s.flight|, 0))) <==> w.lost == []
  {
    hide Walk, Flatten, FromHistory, Fits;
    TiledExactly(w.outgoing, Flatten(w.packets), w.lost, w.Position());
  }
}
