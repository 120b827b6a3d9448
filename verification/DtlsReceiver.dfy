/** The receiver object: dtls1_open_handshake, dtls1_get_message and
    dtls1_next_message over the ring of reassembly buffers. */
module DtlsReceiver {
  import opened Wrappers
  import opened Words
  import opened DtlsFragment
  import opened DtlsReassembly
  import opened DtlsReceiveSpec

  class Receiver {
    var readSeq: u16
    var epoch: nat
    const incoming: array<HmFragment?>
    var hasMessage: bool
    var hasCcs: bool
    var nullCipher: bool
    ghost var Repr: set<object>

    /** The buffer in slot `i` is well formed. */
    ghost predicate SlotValid(i: nat)
      requires incoming.Length == FLIGHT && i < FLIGHT
      reads this`Repr, incoming, Repr - {this}
    {
      incoming[i] != null ==>
        && incoming[i] in Repr - {this}
        && incoming[i].Repr <= Repr - {this, incoming}
        && incoming[i].Valid()
    }

    /** The buffers in two slots share nothing. */
    ghost predicate Apart(i: nat, j: nat)
      requires incoming.Length == FLIGHT && i < FLIGHT && j < FLIGHT
      reads incoming
    {
      incoming[i] != null && incoming[j] != null ==> incoming[i].Repr !! incoming[j].Repr
    }

    ghost predicate Shape()
      reads this`Repr, incoming, Repr - {this}
    {
      && this in Repr && incoming in Repr && incoming.Length == FLIGHT
      && (forall i :: 0 <= i < FLIGHT ==> SlotValid(i))
      && (forall i, j :: 0 <= i < FLIGHT && 0 <= j < FLIGHT && i != j ==> Apart(i, j))
    }

    ghost function SlotAbs(i: nat): Option<Slot>
      requires incoming.Length == FLIGHT && i < FLIGHT && SlotValid(i)
      reads this`Repr, incoming, Repr - {this}
    {
      if incoming[i] == null then None else Some(incoming[i].Abs())
    }

    ghost function Abs(): Receiving
      requires Shape()
      reads this, Repr
    {
      Receiving(readSeq, epoch,
                seq(FLIGHT, i requires 0 <= i < FLIGHT && incoming.Length == FLIGHT && SlotValid(i)
                              reads this`Repr, incoming, Repr - {this} => SlotAbs(i)),
                hasMessage, hasCcs, nullCipher)
    }

    ghost predicate Valid()
      reads this, incoming, Repr
    {
      Shape() && RingOk(Abs())
    }

    constructor ()
      ensures Valid() && fresh(Repr) && Abs() == Initially()
    {
      readSeq, epoch, hasMessage, hasCcs, nullCipher := 0, 0, false, false, true;
      var ring := new HmFragment?[FLIGHT](_ => null);
      incoming := ring;
      Repr := {this, ring};
    }

    /** dtls1_get_incoming_message. */
    method GetIncomingMessage(h: Header) returns (frag: HmFragment?, alert: Alert)
      requires Valid()
      modifies Repr
      ensures Valid() && fresh(Repr - old(Repr))
      ensures frag == null ==> Incoming(old(Abs()), h) == Refused(alert) && Abs() == old(Abs())
      ensures frag != null ==>
                && Incoming(old(Abs()), h) == Found(Abs())
                && frag == incoming[h.seqNum % FLIGHT]
    {
      hide RingOk, InWindow, NewSlot;
      alert := InternalError;
      if h.seqNum < readSeq || h.seqNum - readSeq >= FLIGHT {
        return null, InternalError;
      }
      var idx := h.seqNum % FLIGHT;
      frag := incoming[idx];
      assert SlotValid(idx) && Abs().slots[idx] == SlotAbs(idx);
      if frag != null {
        SlotIsOurs(Abs(), h.seqNum);
        assert frag.seqNum == h.seqNum;
        if frag.typ != h.typ || frag.msgLen != h.msgLen {
          return null, IllegalParameter;
        }
        return frag, alert;
      }
      frag := Install(h);
    }

    method Install(h: Header) returns (frag: HmFragment)
      requires Valid() && readSeq <= h.seqNum < readSeq + FLIGHT && incoming[h.seqNum % FLIGHT] == null
      modifies this`Repr, incoming
      ensures Valid() && fresh(Repr - old(Repr))
      ensures Abs() == old(Abs()).(slots := old(Abs()).slots[h.seqNum % FLIGHT := Some(NewSlot(h))])
      ensures frag == incoming[h.seqNum % FLIGHT]
    {
      ghost var k := h.seqNum % FLIGHT;
      frag := new HmFragment(h);
      incoming[h.seqNum % FLIGHT] := frag;
      Repr := Repr + frag.Repr;
      forall i | 0 <= i < FLIGHT ensures SlotValid(i) {
        if i != k { assert old(SlotValid(i)); }
      }
      forall i, j | 0 <= i < FLIGHT && 0 <= j < FLIGHT && i != j ensures Apart(i, j) {
        assert old(SlotValid(i) && SlotValid(j) && Apart(i, j));
      }
      assert Abs().slots == old(Abs()).slots[k := Some(NewSlot(h))] by {
        forall i | 0 <= i < FLIGHT && i != k ensures SlotAbs(i) == old(SlotAbs(i)) { assert old(SlotValid(i)); }
      }
    }

    /** The body of a fragment copied into the buffer of its message. */
    method Store(h: Header, body: seq<byte>)
      requires Valid() && incoming[h.seqNum % FLIGHT] != null && incoming[h.seqNum % FLIGHT].reassembly != null
      requires h.off + |body| <= incoming[h.seqNum % FLIGHT].msgLen
      modifies Repr
      ensures Valid() && Repr == old(Repr)
      ensures var k := h.seqNum % FLIGHT;
              var was := old(Abs());
              && was.slots[k].Some? && was.slots[k].value.Ok()
              && was.slots[k].value.msgLen == old(incoming[k].msgLen)
              && Abs() == was.(slots := was.slots[k := Some(was.slots[k].value.Absorb(h.off, body))])
    {
      ghost var k := h.seqNum % FLIGHT;
      ghost var was := Abs();
      var frag := incoming[h.seqNum % FLIGHT];
      assert SlotValid(k) && was.slots[k] == SlotAbs(k);
      frag.Absorb(h.off, body);
      forall i | 0 <= i < FLIGHT ensures SlotValid(i) && (i != k ==> SlotAbs(i) == old(SlotAbs(i))) {
        assert old(SlotValid(i));
        if i != k { assert old(Apart(i, k)); }
      }
      forall i, j | 0 <= i < FLIGHT && 0 <= j < FLIGHT && i != j ensures Apart(i, j) {
        assert old(Apart(i, j));
      }
      assert Abs().slots == was.slots[k := Some(was.slots[k].value.Absorb(h.off, body))];
    }

    /** One fragment. */
    method OpenFragment(f: Fragment, maxLen: nat) returns (v: Verdict)
      requires Valid() && |f.body| == f.hdr.len
      modifies Repr
      ensures Valid() && fresh(Repr - old(Repr))
      ensures (Abs(), v) == OpenOne(old(Abs()), f, maxLen)
    {
      var h := f.hdr;
      if h.off > h.msgLen || h.off + h.len > h.msgLen || h.msgLen > maxLen {
        return Error(IllegalParameter);
      }
      if epoch == 1 && h.seqNum != readSeq {
        return Error(UnexpectedMessage);
      }
      if h.seqNum < readSeq || h.seqNum > readSeq + FLIGHT {
        return Success;
      }
      var frag, alert := GetIncomingMessage(h);
      if frag == null {
        return Error(alert);
      }
      assert SlotValid(h.seqNum % FLIGHT) && Abs().slots[h.seqNum % FLIGHT] == SlotAbs(h.seqNum % FLIGHT);
      IncomingKeepsRing(old(Abs()), h);
      if frag.reassembly == null {
        return Success;
      }
      Store(h, f.body);
      return Success;
    }

    /** dtls1_open_handshake on an opened record. */
    method OpenHandshake(typ: RecordType, record: seq<byte>, maxLen: nat) returns (v: Verdict)
      requires Valid()
      modifies Repr
      ensures Valid() && fresh(Repr - old(Repr))
      ensures (Abs(), v) == OpenRecord(old(Abs()), typ, record, maxLen)
    {
      match typ {
        case ApplicationData =>
          return if nullCipher then Error(UnexpectedMessage) else Discard;
        case ChangeCipherSpec =>
          if !nullCipher {
            return Error(UnexpectedMessage);
          }
          if |record| != 1 || record[0] != 1 {
            return Error(IllegalParameter);
          }
          hasCcs := true;
          assert Shape();
          assert Abs() == old(Abs()).(hasCcs := true);
          return Success;
        case Other =>
          return Error(UnexpectedMessage);
        case Handshake =>
          v := OpenFragmentsOf(record, maxLen);
      }
    }

    method OpenFragmentsOf(record: seq<byte>, maxLen: nat) returns (v: Verdict)
      requires Valid()
      modifies Repr
      ensures Valid() && fresh(Repr - old(Repr))
      ensures (Abs(), v) == OpenFragments(old(Abs()), record, maxLen)
    {
      var cbs := record;
      while |cbs| > 0
        invariant Valid() && fresh(Repr - old(Repr))
        invariant OpenFragments(Abs(), cbs, maxLen) == OpenFragments(old(Abs()), record, maxLen)
        decreases |cbs|
      {
        var parsed := ParseFragment(cbs);
        if parsed.None? {
          return Error(DecodeError);
        }
        v := OpenFragment(parsed.value.0, maxLen);
        if v.Error? {
          return;
        }
        cbs := parsed.value.1;
      }
      return Success;
    }

    /** dtls1_get_message. */
    method GetMessage() returns (m: Option<Message>)
      requires Valid()
      modifies this`hasMessage
      ensures Valid()
      ensures Abs() == old(Abs()).(hasMessage := old(hasMessage) || CurrentComplete(old(Abs())))
      ensures m == if CurrentComplete(old(Abs())) then Some(DtlsReceiveSpec.GetMessage(old(Abs()))) else None
    {
      var frag := incoming[readSeq % FLIGHT];
      assert SlotValid(readSeq % FLIGHT) && Abs().slots[readSeq % FLIGHT] == SlotAbs(readSeq % FLIGHT);
      if frag == null || frag.reassembly != null {
        return None;
      }
      hasMessage := true;
      m := Some(Message(frag.typ, frag.data[HEADER..]));
      assert Shape();
      assert Abs() == old(Abs()).(hasMessage := true);
      assert frag.data[HEADER..] == frag.data[..][HEADER..];
    }

    /** dtls1_next_message. */
    method NextMessage()
      requires Valid() && hasMessage && CurrentComplete(Abs())
      modifies this, incoming
      ensures Valid() && Repr == old(Repr)
      ensures Abs() == DtlsReceiveSpec.NextMessage(old(Abs()))
    {
      hide InWindow, RingOk;
      ghost var k := readSeq % FLIGHT;
      ghost var was := Abs();
      incoming[readSeq % FLIGHT] := null;
      readSeq := (readSeq + 1) % 0x1_0000;
      hasMessage := false;
      forall i | 0 <= i < FLIGHT ensures SlotValid(i) && (i != k ==> SlotAbs(i) == old(SlotAbs(i))) {
        assert old(SlotValid(i));
      }
      forall i, j | 0 <= i < FLIGHT && 0 <= j < FLIGHT && i != j ensures Apart(i, j) {
        assert old(Apart(i, j));
      }
      assert Shape();
      assert Abs().slots == was.slots[k := None];
      assert Abs() == DtlsReceiveSpec.NextMessage(was);
    }

    /** dtls1_open_change_cipher_spec. */
    method OpenChangeCipherSpec(typ: RecordType, record: seq<byte>, maxLen: nat) returns (v: Verdict)
      requires Valid()
      modifies Repr
      ensures Valid() && fresh(Repr - old(Repr))
      ensures (Abs(), v) == OpenCcs(old(Abs()), typ, record, maxLen)
    {
      if !hasCcs {
        v := OpenHandshake(typ, record, maxLen);
        if v != Success {
          return;
        }
      }
      if hasCcs {
        ghost var was := Abs();
        hasCcs := false;
        assert Shape();
        assert Abs() == was.(hasCcs := false);
        return Success;
      }
      return Discard;
    }

    /** dtls_has_unprocessed_handshake_data. */
    method HasUnprocessed() returns (b: bool)
      requires Valid()
      ensures b <==> Unprocessed(Abs())
    {
      if hasCcs { return true; }
      var current := readSeq % FLIGHT;
      var i := 0;
      while i < FLIGHT
        invariant 0 <= i <= FLIGHT
        invariant forall k :: 0 <= k < i && Abs().slots[k].Some? ==> hasMessage && k == current
      {
        assert Abs().slots[i] == SlotAbs(i);
        if !(hasMessage && i == current) && incoming[i] != null {
          return true;
        }
        i := i + 1;
      }
      return false;
    }

    /** dtls1_set_read_state. */
    method SetReadState() returns (ok: bool)
      requires Valid()
      modifies this`epoch, this`nullCipher
      ensures Valid() && ok == !Unprocessed(old(Abs()))
      ensures Abs() == if ok then old(Abs()).(epoch := (old(epoch) + 1) % 0x1_0000, nullCipher := false) else old(Abs())
    {
      var b := HasUnprocessed();
      if b { return false; }
      epoch := (epoch + 1) % 0x1_0000;
      nullCipher := false;
      assert Shape();
      assert Abs() == old(Abs()).(epoch := (old(epoch) + 1) % 0x1_0000, nullCipher := false);
      return true;
    }
  }
}
