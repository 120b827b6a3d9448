/** The receiving half of the DTLS handshake transport as a state machine: a ring
    of partly reassembled messages indexed by sequence number. */
module DtlsReceiveSpec {
  import opened Wrappers
  import opened Words
  import opened DtlsFragment
  import opened DtlsReassembly

  const FLIGHT: nat := 7  // SSL_MAX_HANDSHAKE_FLIGHT

  datatype Alert = InternalError | IllegalParameter | UnexpectedMessage | DecodeError

  datatype Verdict = Success | Discard | Error(alert: Alert)

  datatype RecordType = ChangeCipherSpec | Handshake | ApplicationData | Other

  datatype Receiving = Receiving(readSeq: u16, epoch: nat, slots: seq<Option<Slot>>,
                                 hasMessage: bool, hasCcs: bool, nullCipher: bool)

  /** Each slot holds a message whose number is in the window and belongs there. */
  ghost predicate RingOk(s: Receiving) {
    && |s.slots| == FLIGHT
    && forall i :: 0 <= i < FLIGHT && s.slots[i].Some? ==> InWindow(s.readSeq, i, s.slots[i].value)
  }

  predicate InWindow(readSeq: u16, i: nat, t: Slot) {
    t.Ok() && t.seqNum % FLIGHT == i && readSeq <= t.seqNum < readSeq + FLIGHT
  }

  /** The assertion of dtls1_get_incoming_message: what is found in the slot of a
      number in the window is the message with that number. */
  lemma SlotIsOurs(s: Receiving, q: u16)
    requires RingOk(s) && s.readSeq <= q < s.readSeq + FLIGHT && s.slots[q % FLIGHT].Some?
    ensures s.slots[q % FLIGHT].value.seqNum == q
  {}

  datatype Found = Found(s: Receiving) | Refused(alert: Alert)

  /** dtls1_get_incoming_message: the state in which the message has a slot. */
  function Incoming(s: Receiving, h: Header): (r: Found)
    requires |s.slots| == FLIGHT
  {
    if h.seqNum < s.readSeq || h.seqNum - s.readSeq >= FLIGHT then Refused(InternalError)
    else if s.slots[h.seqNum % FLIGHT].Some? then
      var t := s.slots[h.seqNum % FLIGHT].value;
      if t.typ != h.typ || t.msgLen != h.msgLen then Refused(IllegalParameter) else Found(s)
    else Found(s.(slots := s.slots[h.seqNum % FLIGHT := Some(NewSlot(h))]))
  }

  lemma IncomingKeepsRing(s: Receiving, h: Header)
    requires RingOk(s) && Incoming(s, h).Found?
    ensures RingOk(Incoming(s, h).s) && Incoming(s, h).s.slots[h.seqNum % FLIGHT].Some?
    ensures var t := Incoming(s, h).s.slots[h.seqNum % FLIGHT].value;
            t.seqNum == h.seqNum && t.typ == h.typ && t.msgLen == h.msgLen && t.Ok()
  {}

  /** One turn of the loop in dtls1_open_handshake. */
  ghost function OpenOne(s: Receiving, f: Fragment, maxLen: nat): (r: (Receiving, Verdict))
    requires RingOk(s) && |f.body| == f.hdr.len
    ensures RingOk(r.0)
  {
    var h := f.hdr;
    if h.off > h.msgLen || h.off + h.len > h.msgLen || h.msgLen > maxLen then (s, Error(IllegalParameter))
    else if s.epoch == 1 && h.seqNum != s.readSeq then (s, Error(UnexpectedMessage))
    else if h.seqNum < s.readSeq || h.seqNum > s.readSeq + FLIGHT then (s, Success)
    else
      match Incoming(s, h)
      case Refused(alert) => (s, Error(alert))
      case Found(s1) =>
        IncomingKeepsRing(s, h);
        var i := h.seqNum % FLIGHT;
        var t := s1.slots[i].value;
        if t.Complete() then (s1, Success)
        else (s1.(slots := s1.slots[i := Some(t.Absorb(h.off, f.body))]), Success)
  }

  /** The loop over the fragments of one record. */
  ghost function OpenFragments(s: Receiving, cbs: seq<byte>, maxLen: nat): (r: (Receiving, Verdict))
    requires RingOk(s)
    ensures RingOk(r.0)
    decreases |cbs|
  {
    if cbs == [] then (s, Success)
    else
      match ParseFragment(cbs)
      case None => (s, Error(DecodeError))
      case Some((f, rest)) =>
        var (s1, v) := OpenOne(s, f, maxLen);
        if v.Error? then (s1, v) else OpenFragments(s1, rest, maxLen)
  }

  /** dtls1_open_handshake, after the record has been opened. */
  ghost function OpenRecord(s: Receiving, typ: RecordType, record: seq<byte>, maxLen: nat): (r: (Receiving, Verdict))
    requires RingOk(s)
    ensures RingOk(r.0)
  {
    match typ
    case ApplicationData => (s, if s.nullCipher then Error(UnexpectedMessage) else Discard)
    case ChangeCipherSpec =>
      if !s.nullCipher then (s, Error(UnexpectedMessage))
      else if record != [1] then (s, Error(IllegalParameter))
      else (s.(hasCcs := true), Success)
    case Other => (s, Error(UnexpectedMessage))
    case Handshake => OpenFragments(s, record, maxLen)
  }

  /** dtls1_open_change_cipher_spec: a ChangeCipherSpec that has arrived is taken. */
  ghost function OpenCcs(s: Receiving, typ: RecordType, record: seq<byte>, maxLen: nat): (r: (Receiving, Verdict))
    requires RingOk(s)
    ensures RingOk(r.0)
  {
    var (s1, v) := if s.hasCcs then (s, Success) else OpenRecord(s, typ, record, maxLen);
    if v != Success then (s1, v)
    else if s1.hasCcs then (s1.(hasCcs := false), Success)
    else (s1, Discard)
  }

  /** dtls1_is_current_message_complete. */
  predicate CurrentComplete(s: Receiving)
    requires |s.slots| == FLIGHT
  {
    s.slots[s.readSeq % FLIGHT].Some? && s.slots[s.readSeq % FLIGHT].value.Complete()
  }

  /** dtls1_get_message, when it has one. */
  ghost function GetMessage(s: Receiving): (m: Message)
    requires RingOk(s) && CurrentComplete(s)
  {
    var t := s.slots[s.readSeq % FLIGHT].value;
    Message(t.typ, t.data[HEADER..])
  }

  /** Freeing the slot of the current message leaves the others in the window that
      moves on by one, or starts again at zero with nothing below it. */
  lemma NextKeepsRing(s: Receiving)
    requires RingOk(s) && CurrentComplete(s)
    ensures RingOk(s.(slots := s.slots[s.readSeq % FLIGHT := None],
                      readSeq := (s.readSeq + 1) % 0x1_0000, hasMessage := false))
  {
    hide CurrentComplete, Slot.Ok;
    var r := (s.readSeq + 1) % 0x1_0000;
    forall i | 0 <= i < FLIGHT && i != s.readSeq % FLIGHT && s.slots[i].Some?
      ensures InWindow(r, i, s.slots[i].value)
    {
      assert InWindow(s.readSeq, i, s.slots[i].value);
    }
  }

  /** dtls1_next_message; the sequence number is a 16-bit counter. */
  ghost function NextMessage(s: Receiving): (r: Receiving)
    requires RingOk(s) && CurrentComplete(s)
    ensures RingOk(r)
  {
    NextKeepsRing(s);
    s.(slots := s.slots[s.readSeq % FLIGHT := None],
       readSeq := (s.readSeq + 1) % 0x1_0000, hasMessage := false)
  }

  /** dtls_has_unprocessed_handshake_data. */
  ghost predicate Unprocessed(s: Receiving)
    requires |s.slots| == FLIGHT
  {
    s.hasCcs || exists i :: 0 <= i < FLIGHT && s.slots[i].Some? && !(s.hasMessage && i == s.readSeq % FLIGHT)
  }

  ghost function Initially(): (s: Receiving)
    ensures RingOk(s)
  {
    Receiving(0, 0, seq(FLIGHT, _ => None), false, false, true)
  }
}
