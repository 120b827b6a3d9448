/** What it means for records to carry a flight: each is exactly the next piece of
    the next message. */
module DtlsSendSpec {
  import opened Wrappers
  import opened Words
  import opened DtlsFragment

  datatype Outgoing = Outgoing(data: seq<byte>, epoch: u16, isCcs: bool)

  /** A sealed record: its epoch, what is inside, and its length on the wire. */
  datatype Sealed = Sealed(epoch: u16, isCcs: bool, plain: seq<byte>, len: nat)

  /** A datagram that the transport accepted, and the MTU at the time. */
  datatype Packet = Packet(mtu: nat, recs: seq<Sealed>)

  datatype Pos = Pos(written: nat, offset: nat)

  /** The message kept for the flight, when it is a single whole fragment. */
  function Kept(o: Outgoing): (r: Option<Fragment>)
    ensures r.Some? ==> |r.value.body| == r.value.hdr.msgLen
  {
    match ParseFragment(o.data)
    case Some((f, rest)) =>
      if f.hdr.off != 0 || f.hdr.len != |f.body| || f.hdr.msgLen != |f.body| || rest != [] then None else Some(f)
    case None => None
  }

  function BodyOf(o: Outgoing): seq<byte> {
    if o.isCcs || Kept(o).None? then [] else Kept(o).value.body
  }

  /** The piece of `f` from `off` on, `todo` bytes long. */
  function Piece(f: Fragment, off: nat, todo: nat): (g: Fragment)
    requires |f.body| == f.hdr.msgLen && off + todo <= |f.body|
    ensures g.hdr.len == todo == |g.body|
  {
    Fragment(Header(f.hdr.typ, f.hdr.msgLen, f.hdr.seqNum, off, todo), f.body[off..off + todo])
  }

  /** `rec` is a piece of `o` from `off` on: the ChangeCipherSpec byte, or a
      non-empty stretch of the message unless the message is empty. */
  ghost predicate IsPiece(o: Outgoing, off: nat, todo: nat, rec: Sealed) {
    && rec.isCcs == o.isCcs && rec.epoch == o.epoch
    && (if o.isCcs then off == 0 && todo == 0 && rec.plain == [1]
        else
          && Kept(o).Some? && off + todo <= |Kept(o).value.body|
          && (todo > 0 || Kept(o).value.body == [])
          && rec.plain == EncFragment(Piece(Kept(o).value, off, todo)))
  }

  /** How much of its message a record carries. */
  function LengthOf(rec: Sealed): nat {
    if rec.isCcs || ParseFragment(rec.plain).None? then 0 else ParseFragment(rec.plain).value.0.hdr.len
  }

  /** The position after `rec`, if `rec` is the next piece of the flight. */
  ghost function Advance(flight: seq<Outgoing>, p: Pos, rec: Sealed): Option<Pos> {
    if p.written < |flight| && IsPiece(flight[p.written], p.offset, LengthOf(rec), rec) then
      Some(if p.offset + LengthOf(rec) == |BodyOf(flight[p.written])| then Pos(p.written + 1, 0)
           else Pos(p.written, p.offset + LengthOf(rec)))
    else None
  }

  /** The position after `recs`, if they are the next pieces one after the other. */
  ghost function Walk(flight: seq<Outgoing>, p: Pos, recs: seq<Sealed>): Option<Pos>
    decreases |recs|
  {
    if recs == [] then Some(p)
    else
      match Advance(flight, p, recs[0])
      case None => None
      case Some(q) => Walk(flight, q, recs[1..])
  }

  lemma {:induction false} WalkConcat(flight: seq<Outgoing>, p: Pos, a: seq<Sealed>, b: seq<Sealed>)
    requires Walk(flight, p, a).Some?
    ensures Walk(flight, p, a + b) == Walk(flight, Walk(flight, p, a).value, b)
    decreases |a|
  {
    hide Advance;
    if a == [] {
      assert a + b == b;
    } else {
      assert (a + b)[1..] == a[1..] + b;
      WalkConcat(flight, Advance(flight, p, a[0]).value, a[1..], b);
    }
  }

  lemma WalkOne(flight: seq<Outgoing>, p: Pos, a: seq<Sealed>, rec: Sealed)
    requires Walk(flight, p, a).Some?
    ensures Walk(flight, p, a + [rec]) == Advance(flight, Walk(flight, p, a).value, rec)
  {
    WalkConcat(flight, p, a, [rec]);
  }

  lemma EmptyWalk(flight: seq<Outgoing>, p: Pos)
    ensures Walk(flight, p, []) == Some(p) && Flatten([]) == [] && Size([]) == 0
  {}

  function Size(recs: seq<Sealed>): nat {
    if recs == [] then 0 else Size(recs[..|recs| - 1]) + recs[|recs| - 1].len
  }

  function Flatten(ps: seq<Packet>): seq<Sealed> {
    if ps == [] then [] else Flatten(ps[..|ps| - 1]) + ps[|ps| - 1].recs
  }

  lemma FlattenOne(ps: seq<Packet>, p: Packet)
    ensures Flatten(ps + [p]) == Flatten(ps) + p.recs
  {
    assert (ps + [p])[..|ps|] == ps;
  }

  lemma {:induction false} FlattenConcat(a: seq<Packet>, b: seq<Packet>)
    ensures Flatten(a + b) == Flatten(a) + Flatten(b)
    decreases |b|
  {
    if b == [] {
      assert a + b == a;
    } else {
      var k := |b| - 1;
      assert a + b == (a + b[..k]) + [b[k]] && b == b[..k] + [b[k]];
      FlattenConcat(a, b[..k]);
      FlattenOne(a + b[..k], b[k]);
    }
  }

  predicate Fits(p: Packet) { Size(p.recs) <= p.mtu && p.recs != [] }

  /** What was queued is a ChangeCipherSpec or message `k` of the sender's history,
      built with sequence number `k`. */
  ghost predicate Queued(history: seq<Message>, o: Outgoing, k: nat) {
    k < |history| && k < 0x1_0000 && |history[k].body| < 0x100_0000 && !o.isCcs
    && o.data == EncFragment(Whole(history[k], k))
  }

  ghost predicate FromHistory(history: seq<Message>, o: Outgoing) {
    o.isCcs || exists k: nat :: Queued(history, o, k)
  }

  // ---- Stretches of sending ----

  /** One stretch of sending: a flight, where it started, what the transport took. */
  datatype Sending = Sending(flight: seq<Outgoing>, start: Pos, recs: seq<Sealed>)

  ghost predicate Honest(history: seq<Message>, s: Sending) {
    && Walk(s.flight, s.start, s.recs).Some?
    && forall o :: o in s.flight ==> FromHistory(history, o)
  }

  lemma HonestGrows(history: seq<Message>, m: Message, s: Sending)
    requires Honest(history, s)
    ensures Honest(history + [m], s)
  {
    hide Walk;
    forall o | o in s.flight ensures FromHistory(history + [m], o) {
      FromHistoryGrows(history, m, o);
    }
  }

  lemma FromHistoryGrows(history: seq<Message>, m: Message, o: Outgoing)
    requires FromHistory(history, o)
    ensures FromHistory(history + [m], o)
  {
    hide EncFragment, Whole;
    if !o.isCcs {
      var k: nat :| Queued(history, o, k);
      assert Queued(history + [m], o, k);
    }
  }

  // ---- Conservation ----

  /** The message bytes in a run of records. */
  function Payload(recs: seq<Sealed>): seq<byte> {
    if recs == [] then [] else PayloadOf(recs[0]) + Payload(recs[1..])
  }

  function PayloadOf(rec: Sealed): seq<byte> {
    if rec.isCcs || ParseFragment(rec.plain).None? then [] else ParseFragment(rec.plain).value.0.body
  }

  /** The bytes of a flight that lie before a position. */
  function Before(flight: seq<Outgoing>, p: Pos): seq<byte>
    requires p.written <= |flight|
    requires p.written < |flight| ==> p.offset <= |BodyOf(flight[p.written])|
  {
    Bodies(flight[..p.written]) + if p.written < |flight| then BodyOf(flight[p.written])[..p.offset] else []
  }

  function Bodies(flight: seq<Outgoing>): seq<byte> {
    if flight == [] then [] else Bodies(flight[..|flight| - 1]) + BodyOf(flight[|flight| - 1])
  }

  ghost predicate InFlight(flight: seq<Outgoing>, p: Pos) {
    && p.written <= |flight|
    && (if p.written < |flight| then p.offset <= |BodyOf(flight[p.written])| else p.offset == 0)
    && (p.offset > 0 ==> p.offset < |BodyOf(flight[p.written])|)
  }

  lemma StartInFlight(flight: seq<Outgoing>)
    ensures InFlight(flight, Pos(0, 0))
  {}

  /** What a piece carries is the stretch of its message that it names. */
  lemma PieceCarries(o: Outgoing, off: nat, rec: Sealed)
    requires IsPiece(o, off, LengthOf(rec), rec)
    ensures off + LengthOf(rec) <= |BodyOf(o)| && PayloadOf(rec) == BodyOf(o)[off..off + LengthOf(rec)]
    ensures !o.isCcs ==> ParseFragment(rec.plain) == Some((Piece(Kept(o).value, off, LengthOf(rec)), []))
  {
    hide EncFragment, ParseFragment, EncFragments, EncHeader, HeaderOf, Kept;
    if !o.isCcs {
      var g := Piece(Kept(o).value, off, LengthOf(rec));
      FragmentRoundTrip(g, []);
      assert EncFragment(g) + [] == EncFragment(g);
    }
  }

  lemma AdvanceCarries(flight: seq<Outgoing>, p: Pos, rec: Sealed)
    requires InFlight(flight, p) && Advance(flight, p, rec).Some?
    ensures InFlight(flight, Advance(flight, p, rec).value)
    ensures Before(flight, Advance(flight, p, rec).value) == Before(flight, p) + PayloadOf(rec)
  {
    hide EncFragment, ParseFragment, EncFragments, EncHeader, HeaderOf, Kept, IsPiece, BodyOf, LengthOf, PayloadOf;
    var o := flight[p.written];
    PieceCarries(o, p.offset, rec);
    var q := Advance(flight, p, rec).value;
    assert BodyOf(o)[..p.offset] + PayloadOf(rec) == BodyOf(o)[..p.offset + LengthOf(rec)];
    if q.written == p.written + 1 {
      assert flight[..q.written][..p.written] == flight[..p.written];
      assert BodyOf(o)[..p.offset + LengthOf(rec)] == BodyOf(o);
    }
  }

  /** The records carry the bytes between two positions, in order, each once. */
  lemma {:induction false} WalkConserves(flight: seq<Outgoing>, p: Pos, recs: seq<Sealed>)
    requires InFlight(flight, p) && Walk(flight, p, recs).Some?
    ensures InFlight(flight, Walk(flight, p, recs).value)
    ensures Before(flight, Walk(flight, p, recs).value) == Before(flight, p) + Payload(recs)
    decreases |recs|
  {
    hide Advance, BodyOf, PayloadOf, Before, InFlight;
    if recs != [] {
      AdvanceCarries(flight, p, recs[0]);
      WalkConserves(flight, Advance(flight, p, recs[0]).value, recs[1..]);
    }
  }

  /** A flight sent from its start to its end carries its messages exactly. */
  lemma FlightTiled(flight: seq<Outgoing>, recs: seq<Sealed>)
    requires Walk(flight, Pos(0, 0), recs) == Some(Pos(|flight|, 0))
    ensures Payload(recs) == Bodies(flight)
  {
    hide Walk, BodyOf, PayloadOf, Payload;
    WalkConserves(flight, Pos(0, 0), recs);
    assert Before(flight, Pos(0, 0)) == [] && Before(flight, Pos(|flight|, 0)) == Bodies(flight) by {
      assert flight[..0] == [] && flight[..|flight|] == flight;
    }
    assert [] + Payload(recs) == Payload(recs);
  }

  // ---- What a failed seal loses ----

  lemma {:induction false} PayloadConcat(a: seq<Sealed>, b: seq<Sealed>)
    ensures Payload(a + b) == Payload(a) + Payload(b)
    decreases |a|
  {
    hide PayloadOf;
    if a == [] {
      assert a + b == b;
    } else {
      assert (a + b)[1..] == a[1..] + b;
      PayloadConcat(a[1..], b);
    }
  }

  /** When a seal fails, the position has moved past `sent` and past the `lost`
      records of the abandoned packet: the packets carry the bytes up to it exactly
      when none of those were lost. */
  lemma LostBytes(flight: seq<Outgoing>, p: Pos, sent: seq<Sealed>, lost: seq<Sealed>)
    requires InFlight(flight, p) && Walk(flight, p, sent + lost).Some?
    ensures InFlight(flight, Walk(flight, p, sent + lost).value)
    ensures Before(flight, Walk(flight, p, sent + lost).value) == Before(flight, p) + Payload(sent)
            <==> Payload(lost) == []
  {
    hide Walk, Before, Payload;
    WalkConserves(flight, p, sent + lost);
    PayloadConcat(sent, lost);
    ShorterBy(Before(flight, p), Payload(sent), Payload(lost));
  }

  lemma ShorterBy(a: seq<byte>, b: seq<byte>, c: seq<byte>)
    ensures a + (b + c) == a + b <==> c == []
  {
    assert |a + (b + c)| == |a + b| + |c|;
    assert c == [] ==> b + c == b;
  }

  /** How far a record moves the position: by the bytes it carries, or by one for a
      ChangeCipherSpec or an empty message. */
  function WeightOf(rec: Sealed): (n: nat)
    ensures n > 0
  {
    if LengthOf(rec) == 0 then 1 else LengthOf(rec)
  }

  function Weight(recs: seq<Sealed>): (n: nat)
    ensures n == 0 <==> recs == []
  {
    if recs == [] then 0 else WeightOf(recs[0]) + Weight(recs[1..])
  }

  function Span(flight: seq<Outgoing>): nat {
    if flight == [] then 0
    else Span(flight[..|flight| - 1]) + if BodyOf(flight[|flight| - 1]) == [] then 1 else |BodyOf(flight[|flight| - 1])|
  }

  /** How far into the flight a position is. */
  function Reach(flight: seq<Outgoing>, p: Pos): nat
    requires p.written <= |flight|
  {
    Span(flight[..p.written]) + p.offset
  }

  lemma {:induction false} WeightConcat(a: seq<Sealed>, b: seq<Sealed>)
    ensures Weight(a + b) == Weight(a) + Weight(b)
    decreases |a|
  {
    hide WeightOf;
    if a == [] {
      assert a + b == b;
    } else {
      assert (a + b)[1..] == a[1..] + b;
      WeightConcat(a[1..], b);
    }
  }

  lemma AdvanceReaches(flight: seq<Outgoing>, p: Pos, rec: Sealed)
    requires InFlight(flight, p) && Advance(flight, p, rec).Some?
    ensures InFlight(flight, Advance(flight, p, rec).value)
    ensures Reach(flight, Advance(flight, p, rec).value) == Reach(flight, p) + WeightOf(rec)
  {
    hide EncFragment, ParseFragment, Kept, PayloadOf, Before;
    AdvanceCarries(flight, p, rec);
    var q := Advance(flight, p, rec).value;
    if q.written == p.written + 1 {
      assert flight[..q.written][..p.written] == flight[..p.written];
    }
  }

  lemma {:induction false} WalkReaches(flight: seq<Outgoing>, p: Pos, recs: seq<Sealed>)
    requires InFlight(flight, p) && Walk(flight, p, recs).Some?
    ensures InFlight(flight, Walk(flight, p, recs).value)
    ensures Reach(flight, Walk(flight, p, recs).value) == Reach(flight, p) + Weight(recs)
    decreases |recs|
  {
    hide Advance, Reach, InFlight, WeightOf;
    if recs != [] {
      AdvanceReaches(flight, p, recs[0]);
      WalkReaches(flight, Advance(flight, p, recs[0]).value, recs[1..]);
    }
  }

  /** `recs` went out and `lost` did not, and together they move a flight from its
      start to `p`. */
  ghost predicate Accounts(flight: seq<Outgoing>, recs: seq<Sealed>, lost: seq<Sealed>, p: Pos) {
    && InFlight(flight, p)
    && Weight(recs) + Weight(lost) == Reach(flight, p)
    && (lost == [] ==> Walk(flight, Pos(0, 0), recs) == Some(p))
  }

  lemma NothingSent(flight: seq<Outgoing>)
    ensures Accounts(flight, Flatten([]), [], Pos(0, 0))
  {
    EmptyWalk(flight, Pos(0, 0));
  }

  /** The records that went out tile the flight up to the position exactly when no
      record was lost, however many failures there were and wherever they struck. */
  lemma TiledExactly(flight: seq<Outgoing>, recs: seq<Sealed>, lost: seq<Sealed>, p: Pos)
    requires Accounts(flight, recs, lost, p)
    ensures Walk(flight, Pos(0, 0), recs) == Some(p) <==> lost == []
  {
    hide Walk, Reach, Weight;
    if Walk(flight, Pos(0, 0), recs) == Some(p) {
      StartInFlight(flight);
      WalkReaches(flight, Pos(0, 0), recs);
      ReachOfStart(flight);
    }
  }

  lemma ReachOfStart(flight: seq<Outgoing>)
    ensures Reach(flight, Pos(0, 0)) == 0
  {}

  /** Further records go out, and `more` are lost after them. */
  lemma AccountsGrow(flight: seq<Outgoing>, recs: seq<Sealed>, lost: seq<Sealed>, p: Pos, sent: seq<Sealed>, more: seq<Sealed>)
    requires Accounts(flight, recs, lost, p) && Walk(flight, p, sent + more).Some?
    ensures Accounts(flight, recs + sent, lost + more, Walk(flight, p, sent + more).value)
  {
    hide Walk, Reach, Weight, InFlight;
    WalkReaches(flight, p, sent + more);
    WeightConcat(sent, more);
    WeightConcat(recs, sent);
    WeightConcat(lost, more);
    if lost + more == [] {
      assert lost == [] && more == [] && sent + more == sent;
      WalkConcat(flight, Pos(0, 0), recs, sent);
    }
  }

  /** A flight of two messages whose second seal fails: the position has passed the
      first message, the next attempt sends the second alone, and the flight ends
      without the first. */
  lemma FailedSealLosesMessage()
    returns (flight: seq<Outgoing>, lost: Sealed, sent: Sealed)
    ensures |flight| == 2 && Queued([Message(1, [7]), Message(2, [8])], flight[0], 0)
    ensures Queued([Message(1, [7]), Message(2, [8])], flight[1], 1)
    ensures Walk(flight, Pos(0, 0), [lost]) == Some(Pos(1, 0))
    ensures Walk(flight, Pos(1, 0), [sent]) == Some(Pos(2, 0))
    ensures Payload([sent]) == [8] && Bodies(flight) == [7, 8]
  {
    hide EncFragment, ParseFragment;
    var f0, f1 := Whole(Message(1, [7]), 0), Whole(Message(2, [8]), 1);
    flight := [Outgoing(EncFragment(f0), 0, false), Outgoing(EncFragment(f1), 0, false)];
    lost, sent := Sealed(0, false, EncFragment(f0), 26), Sealed(0, false, EncFragment(f1), 26);
    WholeIsOnePiece(flight, 0, f0, lost);
    WholeIsOnePiece(flight, 1, f1, sent);
    assert flight[..1] == [flight[0]] && flight[..1][..0] == [] && Bodies([flight[0]]) == [] + [7];
    assert Payload([sent]) == [8] + Payload([]);
  }

  lemma WholeIsOnePiece(flight: seq<Outgoing>, w: nat, f: Fragment, rec: Sealed)
    requires w < |flight| && !flight[w].isCcs && flight[w].data == EncFragment(f) == rec.plain
    requires f.hdr.off == 0 && f.hdr.len == |f.body| == f.hdr.msgLen
    requires rec.epoch == flight[w].epoch && !rec.isCcs
    ensures Walk(flight, Pos(w, 0), [rec]) == Some(Pos(w + 1, 0))
    ensures BodyOf(flight[w]) == f.body && PayloadOf(rec) == f.body
  {
    hide EncFragment, ParseFragment;
    FragmentRoundTrip(f, []);
    assert EncFragment(f) + [] == EncFragment(f);
    assert Piece(f, 0, |f.body|) == f;
    EmptyWalk(flight, Pos(w + 1, 0));
    assert [rec][1..] == [];
  }
}
