/** The sender object: the outgoing flight, cut into records and packets. */
module DtlsSender {
  import opened Wrappers
  import opened Words
  import opened DtlsFragment
  import opened DtlsSendSpec
  import opened DtlsReceiveSpec

  /** The record header with the explicit nonce, and the most that sealing adds. */
  datatype Aead = Aead(prefix: nat, overhead: nat) {
    predicate Ok() { 13 <= prefix <= overhead }
  }

  datatype SealResult = SealError | NoProgress | Partial | Whole

  datatype SendResult = Done | Shutdown | SealFailed | WriteFailed | FlushFailed

  /** A record that was built from the next stretch of a message is the next piece. */
  lemma NextPiece(flight: seq<Outgoing>, p: Pos, todo: nat, rec: Sealed)
    requires p.written < |flight| && !flight[p.written].isCcs && Kept(flight[p.written]).Some?
    requires p.offset + todo <= |Kept(flight[p.written]).value.body|
    requires todo > 0 || Kept(flight[p.written]).value.body == []
    requires rec == Sealed(flight[p.written].epoch, false,
                           EncFragment(Piece(Kept(flight[p.written]).value, p.offset, todo)), rec.len)
    ensures Advance(flight, p, rec) ==
            Some(if p.offset + todo == |Kept(flight[p.written]).value.body| then Pos(p.written + 1, 0)
                 else Pos(p.written, p.offset + todo))
  {
    hide EncFragment, ParseFragment, Kept, LengthOf, Piece;
    PieceLength(Piece(Kept(flight[p.written]).value, p.offset, todo), rec);
  }

  lemma PieceLength(g: Fragment, rec: Sealed)
    requires |g.body| == g.hdr.len && !rec.isCcs && rec.plain == EncFragment(g)
    ensures LengthOf(rec) == g.hdr.len
  {
    FragmentRoundTrip(g, []);
    hide EncFragment, ParseFragment;
    assert EncFragment(g) + [] == EncFragment(g);
  }

  lemma CcsPiece(flight: seq<Outgoing>, p: Pos, rec: Sealed)
    requires InFlight(flight, p) && p.written < |flight| && flight[p.written].isCcs
    requires rec == Sealed(flight[p.written].epoch, true, [1], rec.len)
    ensures p.offset == 0 && Advance(flight, p, rec) == Some(Pos(p.written + 1, 0))
    ensures InFlight(flight, Pos(p.written + 1, 0))
  {}

  lemma SizeOne(recs: seq<Sealed>, rec: Sealed)
    ensures Size(recs + [rec]) == Size(recs) + rec.len
  {
    assert (recs + [rec])[..|recs|] == recs;
  }

  /** A longer history still accounts for a flight that ends in its new message. */
  lemma HistoryGrows(history: seq<Message>, m: Message, flight: seq<Outgoing>)
    requires |flight| > 0 && |history| < 0xffff && |m.body| < 0x100_0000
    requires forall o :: o in flight[..|flight| - 1] ==> FromHistory(history, o)
    requires !flight[|flight| - 1].isCcs
    requires flight[|flight| - 1].data == EncFragment(DtlsFragment.Whole(m, |history|))
    ensures Queued(history + [m], flight[|flight| - 1], |history|)
    ensures forall o :: o in flight ==> FromHistory(history + [m], o)
  {
    hide EncFragment, DtlsFragment.Whole, FromHistory;
    var last := |flight| - 1;
    assert Queued(history + [m], flight[last], |history|);
    forall o | o in flight ensures FromHistory(history + [m], o) {
      if o in flight[..last] {
        FromHistoryGrows(history, m, o);
      } else {
        assert o == flight[last];
        QueuedIsFromHistory(history + [m], o, |history|);
      }
    }
  }

  lemma QueuedIsFromHistory(history: seq<Message>, o: Outgoing, k: nat)
    requires Queued(history, o, k)
    ensures FromHistory(history, o)
  {}

  lemma LogGrows(history: seq<Message>, m: Message, log: seq<Sending>)
    requires forall s :: s in log ==> Honest(history, s)
    ensures forall s :: s in log ==> Honest(history + [m], s)
  {
    hide Honest;
    forall s | s in log ensures Honest(history + [m], s) { HonestGrows(history, m, s); }
  }

  /** Filling in the length of the message makes the fragment whole. */
  lemma FinishedIsWhole(typ: byte, body: seq<byte>, writeSeq: u16, data: seq<byte>)
    requires |body| < 0x100_0000
    requires data == EncHeader(Header(typ, 0, writeSeq, 0, |body|)) + body
    ensures |data| >= HEADER
    ensures data[..1] + data[HEADER - 3..HEADER] + data[4..] == EncFragment(DtlsFragment.Whole(Message(typ, body), writeSeq))
  {
    hide U16, U24;
    var h := EncHeader(Header(typ, 0, writeSeq, 0, |body|));
    assert data[..HEADER] == h;
    assert data[..1] == [typ] && data[HEADER - 3..HEADER] == U24(|body|);
    assert data[4..] == U16(writeSeq) + U24(0) + U24(|body|) + body;
  }

  lemma FitsWhen(p: Packet)
    requires p.recs != [] && Size(p.recs) <= p.mtu
    ensures Fits(p)
  {}

  class Sender {
    var outgoing: seq<Outgoing>
    var written: nat
    var offset: nat
    var complete: bool        // outgoing_messages_complete
    var writeSeq: u16
    var epoch: u16            // w_epoch
    var aead: Aead
    var lastAead: Aead
    var shutdown: bool
    ghost var sealFailures: nat     // how often the cipher failed
    ghost var refusals: nat         // how often the transport answered 0 or less
    ghost var packets: seq<Packet>  // accepted by the transport since the flight began or was rewound
    ghost var lost: seq<Sealed>     // records of packets abandoned since then when a seal failed
    ghost var history: seq<Message> // all messages ever added
    ghost var log: seq<Sending>     // all stretches of records ever accepted by the transport

    ghost function Position(): Pos
      reads this`written, this`offset
    {
      Pos(written, offset)
    }

    /** The position lies in the flight and the ciphers are usable. */
    ghost predicate Ready()
      reads this`outgoing, this`written, this`offset, this`aead, this`lastAead
    {
      && |outgoing| <= FLIGHT && written <= |outgoing|
      && InFlight(outgoing, Position())
      && aead.Ok() && lastAead.Ok()
    }

    ghost predicate Valid()
      reads this`outgoing, this`written, this`offset, this`complete, this`aead, this`lastAead
      reads this`packets, this`lost
    {
      && Ready()
      && (!complete ==> packets == [] && Position() == Pos(0, 0))
      && (forall p :: p in packets ==> Fits(p))
      && Accounts(outgoing, Flatten(packets), lost, Position())
    }

    /** The messages have their place in the history as number, and everything ever
        sent was a stretch of a flight of such messages. */
    ghost predicate Logged()
      reads this`history, this`writeSeq, this`outgoing, this`log
    {
      && |history| == writeSeq
      && (forall o :: o in outgoing ==> FromHistory(history, o))
      && (forall s :: s in log ==> Honest(history, s))
    }

    constructor (aead: Aead)
      requires aead.Ok()
      ensures Valid() && outgoing == [] && writeSeq == 0 && epoch == 0 && !complete && !shutdown
      ensures this.aead == aead && lost == [] && log == [] && history == [] && Logged()
    {
      hide Walk, Kept, BodyOf, EncFragment, ParseFragment, Advance, Flatten, Fits, Size, InFlight, Accounts, FromHistory, Honest;
      StartInFlight([]);
      NothingSent([]);
      outgoing, written, offset, complete, writeSeq, epoch, shutdown := [], 0, 0, false, 0, 0, false;
      this.aead, lastAead := aead, aead;
      packets, lost, history, log, sealFailures, refusals := [], [], [], [], 0, 0;
    }

    /** dtls_clear_outgoing_messages. */
    method ClearOutgoing()
      requires Valid()
      modifies this`outgoing, this`written, this`offset, this`complete, this`packets, this`lost
      ensures Valid() && outgoing == [] && !complete && lost == []
      ensures writeSeq == old(writeSeq) && epoch == old(epoch)
      ensures aead == old(aead) && lastAead == old(lastAead) && shutdown == old(shutdown)
    {
      hide Walk, Kept, BodyOf, EncFragment, ParseFragment, Advance, Flatten, Fits, Size, InFlight, Accounts, FromHistory, Honest;
      StartInFlight([]);
      NothingSent([]);
      outgoing, written, offset, complete := [], 0, 0, false;
      packets, lost := [], [];
    }

    /** add_outgoing. */
    method AddOutgoing(isCcs: bool, data: seq<byte>) returns (ok: bool)
      requires Valid()
      modifies this`outgoing, this`written, this`offset, this`complete, this`packets, this`lost, this`writeSeq
      ensures Valid()
      ensures var kept := if old(complete) then [] else old(outgoing);
              && ok == (|kept| < FLIGHT && |data| < 0x1_0000_0000)
              && outgoing == (if ok then kept + [Outgoing(data, epoch, isCcs)] else kept)
      ensures !complete
      ensures writeSeq == if ok && !isCcs then (old(writeSeq) + 1) % 0x1_0000 else old(writeSeq)
    {
      hide Walk, Kept, BodyOf, EncFragment, ParseFragment, Advance, Flatten, Fits, Size, InFlight, Accounts;
      if complete {
        ClearOutgoing();
      }
      if |outgoing| >= FLIGHT || |data| > 0xffff_ffff {
        return false;
      }
      if !isCcs {
        writeSeq := (writeSeq + 1) % 0x1_0000;
      }
      outgoing := outgoing + [Outgoing(data, epoch, isCcs)];
      packets, lost := [], [];
      StartInFlight(outgoing);
      NothingSent(outgoing);
      return true;
    }

    /** dtls1_add_change_cipher_spec. */
    method AddChangeCipherSpec() returns (ok: bool)
      requires Valid()
      modifies this`outgoing, this`written, this`offset, this`complete, this`packets, this`lost, this`writeSeq
      ensures Valid() && (old(Logged()) ==> Logged())
      ensures ok ==> |outgoing| > 0 && outgoing[|outgoing| - 1] == Outgoing([], epoch, true)
    {
      hide Valid, Honest, Queued;
      ok := AddOutgoing(true, []);
    }

    /** dtls1_init_message and the body behind it: the length of the message is left
        at zero. */
    method InitMessage(typ: byte, body: seq<byte>) returns (data: array?<byte>)
      ensures data == null <==> |body| >= 0x100_0000
      ensures data != null ==> fresh(data) && data[..] == EncHeader(Header(typ, 0, writeSeq, 0, |body|)) + body
    {
      if |body| >= 0x100_0000 {
        return null;
      }
      var bytes := [typ] + U24(0) + U16(writeSeq) + U24(0) + U24(|body|) + body;
      data := new byte[|bytes|](i requires 0 <= i < |bytes| => bytes[i]);
      assert data[..] == bytes;
    }

    /** dtls1_finish_message: the length of the fragment is copied over that of the
        message. */
    method FinishMessage(data: array<byte>) returns (ok: bool)
      modifies data
      ensures ok <==> data.Length >= HEADER
      ensures ok ==> data[..] == old(data[..1] + data[HEADER - 3..HEADER] + data[4..])
    {
      if data.Length < HEADER {
        return false;
      }
      forall k | 0 <= k < 3 { data[1 + k] := data[HEADER - 3 + k]; }
      ok := true;
      assert data[..] == old(data[..1] + data[HEADER - 3..HEADER] + data[4..]);
    }

    /** A message as it is queued. The peer parses it as one whole fragment of the
        message with the next number, and only a body of 2^24 bytes is refused. */
    method BuildMessage(typ: byte, body: seq<byte>) returns (data: Option<seq<byte>>)
      ensures data.Some? <==> |body| < 0x100_0000
      ensures data.Some? ==> data.value == EncFragment(DtlsFragment.Whole(Message(typ, body), writeSeq))
      ensures data.Some? ==> ParseFragment(data.value) == Some((DtlsFragment.Whole(Message(typ, body), writeSeq), []))
    {
      hide EncFragment, ParseFragment, EncHeader;
      var made := InitMessage(typ, body);
      if made == null {
        return None;
      }
      FinishedIsWhole(typ, body, writeSeq, made[..]);
      ghost var was := made[..];
      var ok := FinishMessage(made);
      assert was[..1] + was[HEADER - 3..HEADER] + was[4..] == made[..];
      var f := DtlsFragment.Whole(Message(typ, body), writeSeq);
      FragmentRoundTrip(f, []);
      assert EncFragment(f) + [] == EncFragment(f);
      return Some(made[..]);
    }

    /** A message built with dtls1_init_message and dtls1_finish_message and queued
        with dtls1_add_message: it joins the history under its number. */
    method AddMessage(typ: byte, body: seq<byte>) returns (ok: bool)
      requires Valid()
      modifies this`outgoing, this`written, this`offset, this`complete, this`packets, this`lost, this`writeSeq, this`history
      ensures Valid()
      ensures history == if ok then old(history) + [Message(typ, body)] else old(history)
      ensures old(Logged()) && |history| < 0x1_0000 ==>
                Logged() && (ok ==> |outgoing| > 0 && Queued(history, outgoing[|outgoing| - 1], old(writeSeq)))
    {
      hide Queued, FromHistory, EncFragment, ParseFragment, DtlsFragment.Whole, Valid, Honest;
      var data := BuildMessage(typ, body);
      if data.None? {
        return false;
      }
      ghost var last := outgoing;
      ok := AddOutgoing(false, data.value);
      if ok {
        assert outgoing[..|outgoing| - 1] == if old(complete) then [] else old(outgoing);
        if old(Logged()) && |history| < 0xffff {
          HistoryGrows(history, Message(typ, body), outgoing);
          LogGrows(history, Message(typ, body), log);
        }
        history := history + [Message(typ, body)];
      }
    }

    /** dtls1_set_write_state. */
    method SetWriteState(next: Aead)
      requires Valid() && next.Ok()
      modifies this`epoch, this`aead, this`lastAead
      ensures Valid() && epoch == (old(epoch) + 1) % 0x1_0000 && aead == next && lastAead == old(aead)
    {
      hide Walk, Kept, BodyOf, EncFragment, ParseFragment, Advance, Flatten, Fits, Size, InFlight;
      epoch := (epoch + 1) % 0x1_0000;
      lastAead := aead;
      aead := next;
    }

    /** dtls_seal_record, whose cipher is not part of this model: it may fail, and
        it adds at most the overhead. */
    method SealRecord(isCcs: bool, plain: seq<byte>, usePrevious: bool) returns (ok: bool, rec: Sealed)
      requires Ready() && (usePrevious ==> epoch >= 1)
      modifies this`sealFailures
      ensures sealFailures == old(sealFailures) + if ok then 0 else 1
      ensures rec == Sealed(if usePrevious then epoch - 1 else epoch, isCcs, plain, rec.len)
      ensures rec.len <= |plain| + (if usePrevious then lastAead else aead).overhead
    {
      hide Walk, Kept, BodyOf, EncFragment, ParseFragment, Advance, Flatten, Fits, Size, InFlight;
      var ctx := if usePrevious then lastAead else aead;
      var added: int := *;
      ok := *;
      rec := Sealed(if usePrevious then epoch - 1 else epoch, isCcs, plain,
                    |plain| + if 0 <= added <= ctx.overhead then added else ctx.overhead);
      if !ok { sealFailures := sealFailures + 1; }
    }

    /** The cipher a message of an epoch is sealed with, if it still exists. */
    function CipherFor(e: u16): (r: Option<Aead>)
      reads this`epoch, this`aead, this`lastAead
    {
      if epoch >= 1 && e == epoch - 1 then Some(lastAead)
      else if e == epoch then Some(aead) else None
    }

    /** Message `w` is well formed and there is a cipher for its epoch. */
    ghost predicate Sealable(w: nat)
      requires w < |outgoing|
      reads this`outgoing, this`epoch, this`aead, this`lastAead
    {
      CipherFor(outgoing[w].epoch).Some? && (outgoing[w].isCcs || Kept(outgoing[w]).Some?)
    }

    /** And there is room for a record of it. */
    ghost predicate Sendable(w: nat, room: nat)
      requires w < |outgoing|
      reads this`outgoing, this`epoch, this`aead, this`lastAead
    {
      Sealable(w) && (if outgoing[w].isCcs then 0 else HEADER) + 1 + CipherFor(outgoing[w].epoch).value.overhead <= room
    }

    /** seal_next_message: it fills the room it is given. */
    method SealNextMessage(maxOut: nat) returns (r: SealResult, rec: Sealed)
      requires Ready() && written < |outgoing|
      modifies this`offset, this`sealFailures
      ensures Ready() && sealFailures >= old(sealFailures)
      ensures r.SealError? || r.NoProgress? ==> offset == old(offset)
      ensures r.SealError? <==> !Sealable(written) || sealFailures > old(sealFailures)
      ensures r.NoProgress? <==> Sealable(written) && !Sendable(written, maxOut)
      ensures r.Partial? ==> offset == old(offset) + maxOut - HEADER - CipherFor(outgoing[written].epoch).value.overhead
      ensures r.Partial? || r.Whole? ==>
                && rec.len <= maxOut
                && Advance(outgoing, old(Position()), rec) ==
                   Some(if r.Whole? then Pos(written + 1, 0) else Position())
      ensures r.Whole? ==> offset == 0 && InFlight(outgoing, Pos(written + 1, 0))
      ensures r.Partial? ==> old(offset) < offset < |BodyOf(outgoing[written])|
    {
      hide Walk, EncFragment, ParseFragment, Advance, Flatten, Fits, Size, EncHeader, HeaderOf, Kept, IsPiece;
      rec := Sealed(0, false, [], 0);
      var msg := outgoing[written];
      var cipher := CipherFor(msg.epoch);
      if cipher.None? {
        return SealError, rec;
      }
      var usePrevious := epoch >= 1 && msg.epoch == epoch - 1;
      var overhead := cipher.value.overhead;
      if msg.isCcs {
        if maxOut < 1 + overhead {
          return NoProgress, rec;
        }
        var done;
        done, rec := SealRecord(true, [1], usePrevious);
        if !done {
          return SealError, rec;
        }
        CcsPiece(outgoing, Position(), rec);
        return SealResult.Whole, rec;
      }
      var kept := Kept(msg);
      if kept.None? || offset > |kept.value.body| {
        return SealError, rec;
      }
      var f := kept.value;
      assert BodyOf(msg) == f.body;
      if maxOut < HEADER + 1 + overhead || maxOut < cipher.value.prefix {
        return NoProgress, rec;
      }
      var todo: nat := |f.body| - offset;
      if todo > maxOut - HEADER - overhead {
        todo := maxOut - HEADER - overhead;
      }
      var plain := EncFragment(Piece(f, offset, todo));
      var sealed;
      sealed, rec := SealRecord(false, plain, usePrevious);
      if !sealed {
        return SealError, rec;
      }
      NextPiece(outgoing, Position(), todo, rec);
      if todo == |f.body| - offset {
        offset := 0;
        return SealResult.Whole, rec;
      }
      offset := offset + todo;
      return Partial, rec;
    }

    /** seal_next_packet. Whether it succeeds or not, the position moves past
        exactly the records that were sealed. */
    method SealNextPacket(maxOut: nat) returns (ok: bool, recs: seq<Sealed>)
      requires Ready() && written < |outgoing|
      modifies this`written, this`offset, this`sealFailures
      ensures Ready() && sealFailures >= old(sealFailures)
      ensures ok <==> && Sendable(old(written), maxOut) && sealFailures == old(sealFailures)
                      && (written < |outgoing| ==> Sealable(written))
      ensures ok && written < |outgoing| && offset == 0 ==> maxOut < Size(recs) || !Sendable(written, maxOut - Size(recs))
      ensures Walk(outgoing, old(Position()), recs) == Some(Position())
      ensures ok ==> recs != [] && Size(recs) <= maxOut
      ensures recs != [] ==> written > old(written) || (written == old(written) && offset > old(offset))
      ensures recs == [] ==> Position() == old(Position())
    {
      hide Walk, Kept, BodyOf, EncFragment, ParseFragment, Advance, Flatten, Fits, Size, InFlight;
      recs := [];
      var total: nat := 0;
      ghost var start := Position();
      EmptyWalk(outgoing, start);
      while written < |outgoing|
        invariant Ready() && sealFailures == old(sealFailures)
        invariant recs != [] ==> Sendable(old(written), maxOut)
        invariant Walk(outgoing, start, recs) == Some(Position())
        invariant Size(recs) == total <= maxOut
        invariant if recs == [] then Position() == start else written > start.written && offset == 0
        decreases |outgoing| - written
      {
        var r, rec := SealNextMessage(maxOut - total);
        if r.SealError? {
          return false, recs;
        } else if r.NoProgress? {
          break;
        }
        WalkOne(outgoing, start, recs, rec);
        SizeOne(recs, rec);
        recs := recs + [rec];
        total := total + rec.len;
        if r.Partial? {
          break;
        }
        written := written + 1;
      }
      return recs != [], recs;
    }

    /** What is left of the message at the position. */
    ghost function LeftOfMessage(): nat
      requires InFlight(outgoing, Position())
      reads this
    {
      if written < |outgoing| then |BodyOf(outgoing[written])| - offset else 0
    }

    /** Every message from `from` on can be sent in packets of this size. */
    ghost predicate Clear(from: nat, mtu: nat)
      reads this`outgoing, this`epoch, this`aead, this`lastAead
    {
      forall w :: from <= w < |outgoing| ==> Sendable(w, mtu)
    }

    /** A message that cannot be sealed cannot be sent. */
    lemma Unsendable(first: nat, w: nat, mtu: nat)
      requires first <= w <= |outgoing| && first < |outgoing|
      requires !Sendable(first, mtu) || (w < |outgoing| && !Sealable(w))
      ensures !Clear(first, mtu)
    {
      if Sendable(first, mtu) { assert !Sendable(w, mtu); }
    }

    lemma ClearLater(from: nat, first: nat, mtu: nat)
      requires from <= first
      ensures Clear(from, mtu) ==> Clear(first, mtu)
    {}

    /** What a run of send_flight adds to the log. */
    ghost function Stretch(from: Pos, sent: seq<Packet>): Sending
      reads this`outgoing
    {
      Sending(outgoing, from, Flatten(sent))
    }

    /** The bytes up to the position are those before `from` and those of the packets
        sent since. */
    ghost predicate Carried(from: Pos, sent: seq<Packet>)
      requires InFlight(outgoing, from) && InFlight(outgoing, Position())
      reads this
    {
      Before(outgoing, Position()) == Before(outgoing, from) + Payload(Flatten(sent))
    }

    /** send_flight with the MTU it finds: the packets the transport takes carry
        the flight on from where it stood; a refused packet is taken back. A failed
        seal loses the records of its packet that were sealed before, and the bytes
        they held are then missing. */
    method SendFlight(mtu: nat) returns (r: SendResult, ghost sent: seq<Packet>, ghost gone: seq<Sealed>)
      requires Valid() && complete
      modifies this`written, this`offset, this`packets, this`lost, this`log, this`sealFailures, this`refusals
      ensures Valid() && (old(Logged()) ==> Logged())
      ensures r.Shutdown? <==> shutdown
      // The reasons to stop are exactly these.
      ensures sealFailures >= old(sealFailures) && refusals == old(refusals) + if r.WriteFailed? || r.FlushFailed? then 1 else 0
      ensures !r.SealFailed? ==> sealFailures == old(sealFailures)
      ensures r.SealFailed? ==>
                sealFailures > old(sealFailures) || !Clear(old(written), mtu)
      ensures packets == old(packets) + sent && forall p :: p in sent ==> p.mtu == mtu && Fits(p)
      ensures Walk(outgoing, old(Position()), Flatten(sent) + gone) == Some(Position())
      ensures old(InFlight(outgoing, Position())) && (Carried(old(Position()), sent) <==> Payload(gone) == [])
      ensures lost == old(lost) + gone && (gone != [] ==> r.SealFailed?)
      ensures log == old(log) + [Stretch(old(Position()), sent)]
      ensures r.Done? || r.FlushFailed? ==> written == |outgoing|
      ensures r.Shutdown? ==> sent == [] && gone == []
    {
      hide Walk, Kept, BodyOf, EncFragment, ParseFragment, Advance, Flatten, Fits, Size, InFlight, Accounts, Before, Payload, FromHistory, Sendable, Sealable, Clear;
      ghost var start, before := Position(), packets;
      if shutdown {
        sent, gone := [], [];
        EmptyWalk(outgoing, start);
        assert packets[..|packets|] == packets && packets + sent == packets;
        Enter(start, sent, gone);
        return Shutdown, sent, gone;
      }
      r, sent, gone := SendPackets(mtu);
      assert packets[..|packets| - |sent|] == before;
      Enter(start, sent, gone);
      if !r.Done? {
        return;
      }
      var flushRet: int := *;
      if flushRet <= 0 {
        refusals := refusals + 1;
        r := FlushFailed;
      }
    }

    /** The loop of send_flight. */
    method SendPackets(mtu: nat) returns (r: SendResult, ghost sent: seq<Packet>, ghost gone: seq<Sealed>)
      requires Ready()
      modifies this`written, this`offset, this`packets, this`sealFailures, this`refusals
      ensures Ready() && sealFailures >= old(sealFailures)
      ensures r.Done? || r.SealFailed? || r.WriteFailed?
      ensures refusals == old(refusals) + if r.WriteFailed? then 1 else 0
      ensures !r.SealFailed? ==> sealFailures == old(sealFailures) && gone == []
      ensures r.SealFailed? ==> sealFailures > old(sealFailures) || !Clear(old(written), mtu)
      ensures packets == old(packets) + sent && forall p :: p in sent ==> p.mtu == mtu && Fits(p)
      ensures Walk(outgoing, old(Position()), Flatten(sent)).Some?
      ensures Walk(outgoing, old(Position()), if gone == [] then Flatten(sent) else Flatten(sent) + gone) == Some(Position())
      ensures r.Done? ==> written == |outgoing|
    {
      hide Walk, Kept, BodyOf, EncFragment, ParseFragment, Advance, Flatten, Fits, Size, InFlight, Sendable, Sealable, Clear;
      sent, gone := [], [];
      ghost var start, before := Position(), packets;
      EmptyWalk(outgoing, start);
      r := Done;
      while written < |outgoing|
        invariant sealFailures == old(sealFailures) && refusals == old(refusals) && written >= old(written)
        invariant Ready() && gone == [] && r.Done?
        invariant packets == before + sent && forall p :: p in sent ==> p.mtu == mtu && Fits(p)
        invariant Walk(outgoing, start, Flatten(sent)) == Some(Position())
        decreases |outgoing| - written, LeftOfMessage()
      {
        ghost var turn := written;
        ghost var recs;
        r, recs := SendPacket(mtu);
        if r.SealFailed? {
          gone := recs;
          WalkConcat(outgoing, start, Flatten(sent), gone);
          assert gone == [] ==> Flatten(sent) + gone == Flatten(sent);
          if sealFailures == old(sealFailures) { ClearLater(old(written), turn, mtu); }
        }
        if !r.Done? {
          return;
        }
        ghost var p := Packet(mtu, recs);
        FitsWhen(p);
        WalkConcat(outgoing, start, Flatten(sent), recs);
        FlattenOne(sent, p);
        sent, packets := sent + [p], packets + [p];
      }
    }

    /** One packet of send_flight: a packet that the transport refuses is taken back. */
    method SendPacket(mtu: nat) returns (r: SendResult, ghost recs: seq<Sealed>)
      requires Ready() && written < |outgoing|
      modifies this`written, this`offset, this`sealFailures, this`refusals
      ensures Ready() && sealFailures >= old(sealFailures) && written >= old(written)
      ensures r.Done? || r.SealFailed? || r.WriteFailed?
      ensures refusals == old(refusals) + if r.WriteFailed? then 1 else 0
      ensures !r.SealFailed? ==> sealFailures == old(sealFailures)
      ensures r.SealFailed? ==> sealFailures > old(sealFailures) || !Clear(old(written), mtu)
      ensures !r.WriteFailed? ==> Walk(outgoing, old(Position()), recs) == Some(Position())
      ensures r.WriteFailed? ==> Position() == old(Position())
      ensures r.Done? ==> recs != [] && Size(recs) <= mtu
      ensures r.Done? ==> written > old(written) || offset > old(offset)
    {
      hide Walk, Kept, BodyOf, EncFragment, ParseFragment, Advance, Size, InFlight, Sendable, Sealable, Clear;
      var oldWritten, oldOffset := written, offset;
      var ok, sealed := SealNextPacket(mtu);
      recs := sealed;
      if !ok {
        if sealFailures == old(sealFailures) { Unsendable(oldWritten, written, mtu); }
        return SealFailed, recs;
      }
      var bioRet: int := *;
      if bioRet <= 0 {
        refusals := refusals + 1;
        written, offset := oldWritten, oldOffset;
        return WriteFailed, recs;
      }
      r := Done;
    }

    /** The books after packets were sent and records were lost. */
    ghost method Enter(from: Pos, sent: seq<Packet>, gone: seq<Sealed>)
      requires Ready() && complete && InFlight(outgoing, from) && |packets| >= |sent|
      requires packets == packets[..|packets| - |sent|] + sent && forall p :: p in packets ==> Fits(p)
      requires Accounts(outgoing, Flatten(packets[..|packets| - |sent|]), lost, from)
      requires Walk(outgoing, from, Flatten(sent)).Some?
      requires Walk(outgoing, from, if gone == [] then Flatten(sent) else Flatten(sent) + gone) == Some(Position())
      modifies this`lost, this`log
      ensures Valid() && (old(Logged()) ==> Logged())
      ensures Walk(outgoing, from, Flatten(sent) + gone) == Some(Position())
      ensures Carried(from, sent) <==> Payload(gone) == []
      ensures lost == old(lost) + gone && log == old(log) + [Stretch(from, sent)]
    {
      hide Walk, Flatten, Fits, InFlight, Accounts, Before, Payload, FromHistory;
      assert gone == [] ==> Flatten(sent) + gone == Flatten(sent);
      ghost var before := packets[..|packets| - |sent|];
      FlattenConcat(before, sent);
      AccountsGrow(outgoing, Flatten(before), lost, from, Flatten(sent), gone);
      LostBytes(outgoing, from, Flatten(sent), gone);
      lost, log := lost + gone, log + [Stretch(from, sent)];
    }

    /** dtls1_flush_flight. */
    method FlushFlight(mtu: nat) returns (r: SendResult, ghost sent: seq<Packet>, ghost gone: seq<Sealed>)
      requires Valid()
      modifies this`written, this`offset, this`packets, this`lost, this`log, this`sealFailures, this`refusals, this`complete
      ensures Valid() && complete && (old(Logged()) ==> Logged())
      ensures sealFailures >= old(sealFailures) && refusals >= old(refusals)
      // With nothing in the way the whole flight goes out.
      ensures !shutdown && sealFailures == old(sealFailures) && refusals == old(refusals)
              && Clear(old(written), mtu)
              ==> r.Done?
      ensures (r.Done? || r.FlushFailed?) ==> written == |outgoing|
      ensures packets == old(packets) + sent && forall p :: p in sent ==> p.mtu == mtu && Fits(p)
      ensures Walk(outgoing, old(Position()), Flatten(sent) + gone) == Some(Position())
      ensures lost == old(lost) + gone && (gone != [] ==> r.SealFailed?)
      ensures log == old(log) + [Stretch(old(Position()), sent)]
    {
      hide Walk, Flatten, Fits, InFlight, Accounts, FromHistory, Clear, Carried;
      complete := true;
      r, sent, gone := SendFlight(mtu);
    }

    /** dtls1_retransmit_outgoing_messages: from the start again. */
    method Retransmit(mtu: nat) returns (r: SendResult, ghost sent: seq<Packet>, ghost gone: seq<Sealed>)
      requires Valid() && complete
      modifies this`written, this`offset, this`packets, this`lost, this`log, this`sealFailures, this`refusals
      ensures Valid() && (old(Logged()) ==> Logged())
      ensures sealFailures >= old(sealFailures) && refusals >= old(refusals)
      // With nothing in the way the whole flight goes out.
      ensures !shutdown && sealFailures == old(sealFailures) && refusals == old(refusals)
              && Clear(0, mtu)
              ==> r.Done?
      ensures (r.Done? || r.FlushFailed?) ==> written == |outgoing|
      ensures packets == sent && lost == gone && (gone != [] ==> r.SealFailed?)
      ensures Walk(outgoing, Pos(0, 0), Flatten(sent) + gone) == Some(Position())
      ensures log == old(log) + [Stretch(Pos(0, 0), sent)]
    {
      hide Walk, Kept, BodyOf, EncFragment, ParseFragment, Advance, Flatten, Fits, Size, InFlight, Accounts, FromHistory, Clear, Carried, Before;
      written, offset := 0, 0;
      packets, lost := [], [];
      StartInFlight(outgoing);
      NothingSent(outgoing);
      r, sent, gone := SendFlight(mtu);
      assert [] + sent == sent && [] + gone == gone;
    }
  }
}
