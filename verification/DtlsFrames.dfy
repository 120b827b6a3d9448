/** Records of DTLS on the wire (section 4.1 of RFC 6347). */
module DtlsFrames {
  import opened Words
  import opened DtlsFragment

  const MAX_PLAIN: nat := 16384
  const MAX_ENCRYPTED: nat := 16384 + 256 + 64
  const RECORD_HEADER: nat := 13  // DTLS1_RT_HEADER_LENGTH
  const EPOCH_UNIT: nat := 0x1_0000_0000_0000

  /** A protected record; its sequence number is 48 bits wide. */
  datatype Frame = Frame(typ: byte, version: u16, epoch: u16, hi: u24, lo: u24, body: seq<byte>) {
    function Number(): nat {
      EPOCH_UNIT * epoch + 0x100_0000 * hi + lo
    }

    predicate Ok() {
      |body| <= MAX_ENCRYPTED
    }
  }

  function FrameHeader(f: Frame): (s: seq<byte>)
    requires f.Ok()
    ensures |s| == RECORD_HEADER
  {
    [f.typ] + U16(f.version) + U16(f.epoch) + U24(f.hi) + U24(f.lo) + U16(|f.body|)
  }

  function EncFrame(f: Frame): (s: seq<byte>)
    requires f.Ok()
    ensures |s| == RECORD_HEADER + |f.body|
  {
    FrameHeader(f) + f.body
  }

  predicate AllOk(fs: seq<Frame>) { forall f :: f in fs ==> f.Ok() }

  /** Records laid end to end in a datagram. */
  function EncFrames(fs: seq<Frame>): seq<byte>
    requires AllOk(fs)
  {
    if fs == [] then [] else EncFrame(fs[0]) + EncFrames(fs[1..])
  }

  /** The 64-bit number of a record header: epoch and sequence. */
  function SeqNum64(s: seq<byte>): (v: nat)
    requires |s| == 8
    ensures v / EPOCH_UNIT == ReadU16(s[0], s[1])
  {
    EPOCH_UNIT * ReadU16(s[0], s[1]) + 0x100_0000 * ReadU24(s[2], s[3], s[4]) + ReadU24(s[5], s[6], s[7])
  }

  /** Distinct header bytes are distinct numbers. */
  lemma SeqNumInjective(a: seq<byte>, b: seq<byte>)
    requires |a| == 8 && |b| == 8 && SeqNum64(a) == SeqNum64(b)
    ensures a == b
  {
    var a0, a1, a2 := ReadU16(a[0], a[1]), ReadU24(a[2], a[3], a[4]), ReadU24(a[5], a[6], a[7]);
    var b0, b1, b2 := ReadU16(b[0], b[1]), ReadU24(b[2], b[3], b[4]), ReadU24(b[5], b[6], b[7]);
    hide ReadU16, ReadU24, U16, U24;
    assert a0 == b0 && a1 == b1 && a2 == b2;
    assert a == U16(a0) + U24(a1) + U24(a2);
    assert b == U16(b0) + U24(b1) + U24(b2);
  }

  /** The declared body of the record at the front of `s`, if it is all there. */
  predicate WellFramed(s: seq<byte>) {
    && |s| >= RECORD_HEADER
    && ReadU16(s[11], s[12]) <= |s| - RECORD_HEADER
    && ReadU16(s[11], s[12]) <= MAX_ENCRYPTED
  }

  /** How long the record at the front is. */
  function FrameLength(s: seq<byte>): (n: nat)
    requires WellFramed(s)
    ensures RECORD_HEADER <= n <= |s|
  {
    RECORD_HEADER + ReadU16(s[11], s[12])
  }

  function BodyOf(s: seq<byte>): seq<byte>
    requires WellFramed(s)
  {
    s[RECORD_HEADER..FrameLength(s)]
  }

  /** The record at the front of a datagram is read back field by field, and nothing
      behind it is touched. */
  lemma FrameReadBack(f: Frame, rest: seq<byte>)
    requires f.Ok()
    ensures var s := EncFrame(f) + rest;
            && WellFramed(s) && s[0] == f.typ && ReadU16(s[1], s[2]) == f.version && s[1] == f.version / 256
            && SeqNum64(s[3..11]) == f.Number()
            && FrameLength(s) == |EncFrame(f)| && BodyOf(s) == f.body && s[FrameLength(s)..] == rest
  {
    hide FrameHeader, ReadU16, ReadU24, U24, SeqNum64;
    var s := EncFrame(f) + rest;
    assert s == FrameHeader(f) + (f.body + rest);
    HeaderBytes(f, f.body + rest);
    ReadBack(0, f.version);
    ReadBack(0, |f.body|);
    NumberBytes(f);
    assert s[1] == U16(f.version)[0];
    assert s[RECORD_HEADER..RECORD_HEADER + |f.body|] == f.body && s[RECORD_HEADER + |f.body|..] == rest;
  }

  lemma NumberBytes(f: Frame)
    ensures SeqNum64(U16(f.epoch) + U24(f.hi) + U24(f.lo)) == f.Number()
  {
    hide ReadU16, ReadU24, U16, U24;
    ReadBack(f.hi, f.epoch);
    ReadBack(f.lo, f.epoch);
  }

  lemma HeaderBytes(f: Frame, rest: seq<byte>)
    requires f.Ok()
    ensures var s := FrameHeader(f) + rest;
            && s[0] == f.typ && [s[1], s[2]] == U16(f.version) && [s[3], s[4]] == U16(f.epoch)
            && [s[5], s[6], s[7]] == U24(f.hi) && [s[8], s[9], s[10]] == U24(f.lo) && [s[11], s[12]] == U16(|f.body|)
            && s[3..11] == U16(f.epoch) + U24(f.hi) + U24(f.lo)
  {
    hide U16, U24;
  }
}
