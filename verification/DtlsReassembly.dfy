/** Reassembly of one DTLS handshake message (section 4.2.3 of RFC 6347): the
    body buffer and the byte bitmask, released when the last byte arrives. */
module DtlsReassembly {
  import opened Words
  import opened DtlsFragment

  /** bit_range: bits `start` to `end`, exclusive, of a byte. */
  function BitRange(start: nat, end: nat): (b: byte)
    requires start <= end <= 8
    ensures forall k: nat :: Bit(b, k) <==> start <= k < end
  {
    BitRangeBits(start, end);
    AndNot(Ones(end), Ones(start))
  }

  lemma BitRangeBits(start: nat, end: nat)
    requires start <= end <= 8
    ensures AndNot(Ones(end), Ones(start)) < 256
    ensures forall k: nat :: Bit(AndNot(Ones(end), Ones(start)), k) <==> start <= k < end
  {
    OnesBelow(end);
    ShlGrows(1, end, 8);
    Byte256();
    AndNotBound(Ones(end), Ones(start), 8);
    forall k: nat ensures Bit(AndNot(Ones(end), Ones(start)), k) <==> start <= k < end {
      AndNotBit(Ones(end), Ones(start), k);
      OnesBit(end, k);
      OnesBit(start, k);
    }
  }

  lemma Byte256()
    ensures Pow2(8) == 256 && Ones(8) == 255
  {
    Shl7(1);
    OnesBelow(8);
  }

  /** `b | bit_range(start, end)`. */
  function OrRange(b: byte, start: nat, end: nat): (r: byte)
    requires start <= end <= 8
    ensures forall k: nat :: Bit(r, k) <==> Bit(b, k) || start <= k < end
  {
    Byte256();
    BitOrBound(b, BitRange(start, end), 8);
    assert forall k: nat :: Bit(BitOr(b, BitRange(start, end)), k) <==> Bit(b, k) || start <= k < end by {
      forall k: nat ensures Bit(BitOr(b, BitRange(start, end)), k) <==> Bit(b, k) || start <= k < end {
        BitOrBit(b, BitRange(start, end), k);
      }
    }
    BitOr(b, BitRange(start, end))
  }

  /** A byte that has no bit from `k` on has all below exactly when it is the range. */
  lemma RangeIffAllSet(b: byte, k: nat)
    requires k <= 8 && forall j :: k <= j < 8 ==> !Bit(b, j)
    ensures b == BitRange(0, k) <==> AllSet(b, k)
  {
    Byte256();
    BoundedByBits(b, k, 8);
    OnesIffAllSet(b, k);
    AndNotZero(Ones(k));
  }

  lemma {:induction false} AndNotZero(a: nat)
    ensures AndNot(a, 0) == a
  {
    if a > 0 { AndNotZero(a / 2); }
  }

  function UpTo(n: nat): (s: set<nat>)
    ensures forall i: nat :: i in s <==> i < n
  {
    if n == 0 then {} else UpTo(n - 1) + {n - 1}
  }

  /** Bit `i` of a mask of bytes. */
  predicate MaskBit(mask: seq<byte>, i: nat)
    requires i < 8 * |mask|
  {
    Bit(mask[i / 8], i % 8)
  }

  /** The mask says which bytes have arrived. */
  ghost predicate Mirrors(mask: seq<byte>, got: set<nat>) {
    forall i: nat :: i < 8 * |mask| ==> (MaskBit(mask, i) <==> i in got)
  }

  /** The byte range [start, end) as a set. */
  function Range(start: nat, end: nat): (s: set<nat>)
    requires start <= end
    ensures forall i: nat :: i in s <==> start <= i < end
  {
    UpTo(end) - UpTo(start)
  }

  /** Or-ing a range into byte `k` adds those bits. */
  lemma OrAt(mask: seq<byte>, got: set<nat>, k: nat, lo: nat, hi: nat)
    requires Mirrors(mask, got) && k < |mask| && lo <= hi <= 8
    ensures Mirrors(mask[k := OrRange(mask[k], lo, hi)], got + Range(8 * k + lo, 8 * k + hi))
  {
    var m := mask[k := OrRange(mask[k], lo, hi)];
    forall i: nat | i < 8 * |m|
      ensures MaskBit(m, i) <==> i in got + Range(8 * k + lo, 8 * k + hi)
    {
      assert MaskBit(mask, i) <==> i in got;
    }
  }

  /** Setting byte `k` to 0xff adds its eight bits. */
  lemma FillAt(mask: seq<byte>, got: set<nat>, k: nat)
    requires Mirrors(mask, got) && k < |mask|
    ensures Mirrors(mask[k := 0xff], got + Range(8 * k, 8 * k + 8))
  {
    Byte256();
    var m := mask[k := 0xff];
    forall i: nat | i < 8 * |m| ensures MaskBit(m, i) <==> i in got + Range(8 * k, 8 * k + 8) {
      assert MaskBit(mask, i) <==> i in got;
      OnesBit(8, i % 8);
    }
  }

  /** Byte `k` of the mask is full exactly when its eight bytes have arrived. */
  lemma FullByte(mask: seq<byte>, got: set<nat>, k: nat)
    requires Mirrors(mask, got) && k < |mask|
    ensures mask[k] == 0xff <==> Range(8 * k, 8 * k + 8) <= got
  {
    Byte256();
    OnesIffAllSet(mask[k], 8);
    ByteBits(mask, got, k, 8);
  }

  lemma ByteBits(mask: seq<byte>, got: set<nat>, k: nat, n: nat)
    requires Mirrors(mask, got) && k < |mask| && n <= 8
    ensures AllSet(mask[k], n) <==> Range(8 * k, 8 * k + n) <= got
  {
    forall j: nat | j < n ensures Bit(mask[k], j) <==> 8 * k + j in got {
      assert MaskBit(mask, 8 * k + j) <==> 8 * k + j in got;
    }
    if AllSet(mask[k], n) {
      forall i | i in Range(8 * k, 8 * k + n) ensures i in got { assert Bit(mask[k], i - 8 * k); }
    }
    if Range(8 * k, 8 * k + n) <= got {
      forall j | 0 <= j < n ensures Bit(mask[k], j) { assert 8 * k + j in Range(8 * k, 8 * k + n); }
    }
  }

  /** The same for the partial byte that ends the message. */
  lemma LastByte(mask: seq<byte>, got: set<nat>, n: nat)
    requires Mirrors(mask, got) && got <= UpTo(n) && n % 8 != 0 && |mask| == n / 8 + 1
    ensures mask[n / 8] == BitRange(0, n % 8) <==> Range(8 * (n / 8), n) <= got
  {
    var k := n / 8;
    forall j | n % 8 <= j < 8 ensures !Bit(mask[k], j) {
      assert MaskBit(mask, 8 * k + j) <==> 8 * k + j in got;
    }
    RangeIffAllSet(mask[k], n % 8);
    ByteBits(mask, got, k, n % 8);
  }

  /** What a reassembly buffer stands for: header and body bytes, and which
      body bytes have arrived. */
  datatype Slot = Slot(typ: byte, seqNum: u16, msgLen: u24, data: seq<byte>, got: set<nat>) {
    predicate Complete() { got == UpTo(msgLen) }

    /** The header is that of an unfragmented message. */
    predicate Ok() {
      && |data| == HEADER + msgLen
      && data[..HEADER] == EncHeader(Header(typ, msgLen, seqNum, 0, msgLen))
      && got <= UpTo(msgLen)
    }

    /** The body copied in at `off`. */
    function Absorb(off: nat, body: seq<byte>): (r: Slot)
      requires Ok() && off + |body| <= msgLen
      ensures r.Ok()
    {
      var d := data[..HEADER + off] + body + data[HEADER + off + |body|..];
      assert d[..HEADER] == data[..HEADER];
      this.(data := d, got := got + Range(off, off + |body|))
    }
  }

  function NewSlot(h: Header): (s: Slot)
    ensures s.Ok()
  {
    var hdr := EncHeader(Header(h.typ, h.msgLen, h.seqNum, 0, h.msgLen));
    Slot(h.typ, h.seqNum, h.msgLen, hdr + seq(h.msgLen, _ => 0), {})
  }

  class HmFragment {
    const typ: byte
    const seqNum: u16
    const msgLen: u24
    const data: array<byte>           // header and body
    var reassembly: array?<byte>      // null once the message is complete
    ghost var got: set<nat>           // the body bytes that have arrived
    ghost const Repr: set<object>

    ghost function Abs(): Slot
      reads this, data
    {
      Slot(typ, seqNum, msgLen, data[..], got)
    }

    ghost predicate Valid()
      reads this, Repr
    {
      && this in Repr && data in Repr
      && Abs().Ok()
      && (reassembly == null <==> got == UpTo(msgLen))
      && (reassembly != null ==>
            && reassembly in Repr && reassembly as object != data
            && reassembly.Length == (msgLen + 7) / 8
            && Mirrors(reassembly[..], got))
    }

    /** dtls1_hm_fragment_new. */
    constructor (h: Header)
      ensures Valid() && fresh(Repr) && Abs() == NewSlot(h)
    {
      typ, seqNum, msgLen := h.typ, h.seqNum, h.msgLen;
      var header := EncHeader(Header(h.typ, h.msgLen, h.seqNum, 0, h.msgLen));
      var d := new byte[HEADER + h.msgLen](i => if 0 <= i < |header| then header[i] else 0);
      var mask := new byte[(h.msgLen + 7) / 8](_ => 0);
      data, reassembly, got := d, if h.msgLen > 0 then mask else null, {};
      Repr := {this, d, mask};
      new;
      forall i: nat | i < 8 * mask.Length ensures !MaskBit(mask[..], i) { BitZero(i % 8); }
      assert msgLen > 0 ==> 0 in UpTo(msgLen) && 0 !in got;
      assert data[..] == NewSlot(h).data;
    }

    /** The body copied in and its range marked, as dtls1_open_handshake does for
        a message that is not complete. */
    method Absorb(off: nat, body: seq<byte>)
      requires Valid() && reassembly != null && off + |body| <= msgLen
      modifies Repr
      ensures Valid() && Abs() == old(Abs()).Absorb(off, body)
    {
      forall k | 0 <= k < |body| { data[HEADER + off + k] := body[k]; }
      assert data[..] == old(Abs()).Absorb(off, body).data;
      assert Abs().Ok() by { assert data[..HEADER] == old(data[..HEADER]); }
      Mark(off, off + |body|);
    }

    /** dtls1_hm_fragment_mark. */
    method Mark(start: nat, end: nat)
      requires Valid() && reassembly != null && start <= end <= msgLen
      modifies this, reassembly
      ensures Valid() && got == old(got) + Range(start, end) && data[..] == old(data[..])
    {
      if start == end { return; }
      if start / 8 == end / 8 {
        OrAt(reassembly[..], got, start / 8, start % 8, end % 8);
        ghost var was := reassembly[..];
        reassembly[start / 8] := OrRange(reassembly[start / 8], start % 8, end % 8);
        assert reassembly[..] == was[start / 8 := OrRange(was[start / 8], start % 8, end % 8)];
        got := got + Range(start, end);
      } else {
        MarkAcross(start, end);
      }
      var done := IsComplete();
      if done { reassembly := null; }
    }

    /** The case of a range that touches several mask bytes. */
    method MarkAcross(start: nat, end: nat)
      requires reassembly != null && reassembly as object != data
      requires reassembly.Length == (msgLen + 7) / 8 && Mirrors(reassembly[..], got)
      requires start / 8 < end / 8 && end <= msgLen
      modifies this`got, reassembly
      ensures Mirrors(reassembly[..], got) && got == old(got) + Range(start, end)
    {
      ghost var was := reassembly[..];
      OrAt(was, got, start / 8, start % 8, 8);
      reassembly[start / 8] := OrRange(reassembly[start / 8], start % 8, 8);
      assert reassembly[..] == was[start / 8 := OrRange(was[start / 8], start % 8, 8)];
      var i := start / 8 + 1;
      got := got + Range(start, 8 * i);
      while i < end / 8
        invariant start / 8 < i <= end / 8
        invariant Mirrors(reassembly[..], got) && got == old(got) + Range(start, 8 * i)
      {
        was := reassembly[..];
        FillAt(was, got, i);
        reassembly[i] := 0xff;
        assert reassembly[..] == was[i := 0xff];
        got := got + Range(8 * i, 8 * i + 8);
        i := i + 1;
      }
      if end % 8 != 0 {
        was := reassembly[..];
        OrAt(was, got, i, 0, end % 8);
        reassembly[i] := OrRange(reassembly[i], 0, end % 8);
        assert reassembly[..] == was[i := OrRange(was[i], 0, end % 8)];
        got := got + Range(8 * i, end);
      }
    }

    /** The check at the end of dtls1_hm_fragment_mark. */
    method IsComplete() returns (done: bool)
      requires reassembly != null && reassembly.Length == (msgLen + 7) / 8
      requires got <= UpTo(msgLen) && Mirrors(reassembly[..], got)
      ensures done <==> got == UpTo(msgLen)
    {
      var i := 0;
      while i < msgLen / 8
        invariant i <= msgLen / 8 && UpTo(8 * i) <= got
      {
        FullByte(reassembly[..], got, i);
        if reassembly[i] != 0xff {
          assert !(Range(8 * i, 8 * i + 8) <= UpTo(msgLen)) || got != UpTo(msgLen);
          return false;
        }
        assert UpTo(8 * i + 8) == UpTo(8 * i) + Range(8 * i, 8 * i + 8);
        i := i + 1;
      }
      assert UpTo(msgLen) == UpTo(8 * i) + Range(8 * i, msgLen);
      if msgLen % 8 != 0 {
        LastByte(reassembly[..], got, msgLen);
        if reassembly[msgLen / 8] != BitRange(0, msgLen % 8) {
          return false;
        }
      }
      return true;
    }
  }
}
