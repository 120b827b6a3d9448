/** The sending side of the DTLS record layer: sequence numbers, epochs and the
    records they are put into. */
module DtlsRecordWriter {
  import opened Wrappers
  import opened Words
  import opened DtlsFragment
  import opened DtlsFrames
  import opened DtlsReplay

  /** A number with its highest byte first. */
  function BigEndian(s: seq<byte>): nat {
    if s == [] then 0 else 256 * BigEndian(s[..|s| - 1]) + s[|s| - 1]
  }

  function Pow256(k: nat): (n: nat)
    ensures n > 0
  {
    if k == 0 then 1 else 256 * Pow256(k - 1)
  }

  lemma {:induction false} BigEndianBound(s: seq<byte>)
    ensures BigEndian(s) < Pow256(|s|)
    decreases |s|
  {
    if s != [] { BigEndianBound(s[..|s| - 1]); }
  }

  /** `a` is `b` plus one, but for a carry out of the bytes before position `i`. */
  ghost predicate Carrying(a: seq<byte>, b: seq<byte>, i: nat) {
    && |a| == |b| && i <= |a| && a[..i] == b[..i]
    && (forall k :: i <= k < |a| ==> a[k] == 0 && b[k] == 255)
  }

  /** A carry that goes through all the bytes leaves zero. */
  lemma {:induction false} CarryOut(a: seq<byte>, b: seq<byte>)
    requires Carrying(a, b, 0)
    ensures BigEndian(a) == 0 && BigEndian(b) + 1 == Pow256(|b|)
    decreases |a|
  {
    if a != [] {
      var n := |a| - 1;
      CarryOut(a[..n], b[..n]);
    }
  }

  /** A carry that stops at position `i` adds one. */
  lemma {:induction false} CarryStops(a: seq<byte>, b: seq<byte>, i: nat)
    requires |a| == |b| && i < |a| && a[..i] == b[..i] && (a[i] as int) == (b[i] as int) + 1
    requires forall k :: i < k < |a| ==> a[k] == 0 && b[k] == 255
    ensures BigEndian(a) == BigEndian(b) + 1
    decreases |a|
  {
    var n := |a| - 1;
    if i < n {
      assert a[..n][..i] == b[..n][..i];
      CarryStops(a[..n], b[..n], i);
    } else {
      assert a[..n] == b[..n];
    }
  }

  /** ssl_record_sequence_update: one is added, and it fails when the number is back
      at zero. */
  method SequenceUpdate(seqNum: array<byte>) returns (ok: bool)
    modifies seqNum
    ensures ok <==> BigEndian(old(seqNum[..])) + 1 < Pow256(seqNum.Length)
    ensures BigEndian(seqNum[..]) == if ok then BigEndian(old(seqNum[..])) + 1 else 0
  {
    ghost var was := seqNum[..];
    BigEndianBound(was);
    var i: nat := seqNum.Length;
    while i > 0
      invariant i <= seqNum.Length && Carrying(seqNum[..], was, i)
    {
      i := i - 1;
      assert seqNum[i] == was[i] by { assert seqNum[..][..i + 1] == was[..i + 1]; }
      assert seqNum[..][..i] == was[..i] by { assert seqNum[..][..i + 1][..i] == was[..i + 1][..i]; }
      ghost var before := seqNum[..];
      seqNum[i] := ((seqNum[i] as int) + 1) % 256;
      assert seqNum[..] == before[i := seqNum[i]];
      if seqNum[i] != 0 {
        CarryStops(seqNum[..], was, i);
        BigEndianBound(seqNum[..]);
        return true;
      }
    }
    CarryOut(seqNum[..], was);
    return false;
  }

  lemma SixBytes(s: seq<byte>)
    requires |s| == 6
    ensures BigEndian(s) == 0x100_0000 * ReadU24(s[0], s[1], s[2]) + ReadU24(s[3], s[4], s[5]) < EPOCH_UNIT
  {
    assert BigEndian(s[..1]) == s[0] by { assert s[..1][..0] == []; }
    assert BigEndian(s[..2]) == 256 * BigEndian(s[..1]) + s[1] by { assert s[..2][..1] == s[..1]; }
    assert BigEndian(s[..3]) == 256 * BigEndian(s[..2]) + s[2] by { assert s[..3][..2] == s[..2]; }
    assert BigEndian(s[..4]) == 256 * BigEndian(s[..3]) + s[3] by { assert s[..4][..3] == s[..3]; }
    assert BigEndian(s[..5]) == 256 * BigEndian(s[..4]) + s[4] by { assert s[..5][..4] == s[..4]; }
    assert BigEndian(s[..6]) == 256 * BigEndian(s[..5]) + s[5] by { assert s[..6][..5] == s[..5]; }
    assert s[..6] == s;
  }

  lemma SixZeros(s: seq<byte>)
    requires s == [0, 0, 0, 0, 0, 0]
    ensures BigEndian(s) == 0
  {
    SixBytes(s);
  }

  /** A cipher: number, type, version and plaintext to a body, if it succeeds. */
  type Sealing = (nat, byte, u16, seq<byte>) -> Option<seq<byte>>

  class RecordWriter {
    var epoch: u16
    var version: u16                  // of the write cipher
    const writeSequence: array<byte>  // the low 48 bits
    const lastWriteSequence: array<byte>
    ghost var wrapped: bool           // some sequence ran out of its 48 bits
    ghost var used: set<nat>          // every 64-bit number a record was sealed under

    ghost predicate Valid()
      reads this, writeSequence, lastWriteSequence
    {
      && writeSequence.Length == 6 && lastWriteSequence.Length == 6 && writeSequence != lastWriteSequence
      && (!wrapped ==> forall q :: q in used ==>
            && q / EPOCH_UNIT <= epoch
            && (q / EPOCH_UNIT == epoch ==> q % EPOCH_UNIT < BigEndian(writeSequence[..]))
            && (q / EPOCH_UNIT == epoch - 1 ==> q % EPOCH_UNIT < BigEndian(lastWriteSequence[..])))
    }

    constructor (version: u16)
      ensures Valid() && !wrapped && used == {} && epoch == 0 && this.version == version
      ensures fresh(writeSequence) && fresh(lastWriteSequence)
    {
      epoch, this.version, wrapped, used := 0, version, false, {};
      writeSequence := new byte[6](_ => 0);
      lastWriteSequence := new byte[6](_ => 0);
    }

    /** The number the next record of an epoch will have. */
    ghost function Next(usePrevious: bool): nat
      requires Valid() && (usePrevious ==> epoch >= 1)
      reads this, writeSequence, lastWriteSequence
    {
      if usePrevious then EPOCH_UNIT * (epoch - 1) + BigEndian(lastWriteSequence[..])
      else EPOCH_UNIT * epoch + BigEndian(writeSequence[..])
    }

    /** dtls_seal_record, with room for whatever the cipher makes. The record has the
        next number of its epoch, and no number is used twice until a sequence of 48
        bits has run out. */
    method SealRecord(typ: byte, plain: seq<byte>, usePrevious: bool, aead: Sealing) returns (out: Option<seq<byte>>, ghost f: Frame)
      requires Valid() && (usePrevious ==> epoch >= 1)
      modifies this`wrapped, this`used, writeSequence, lastWriteSequence
      ensures Valid()
      ensures out.Some? <==>
                var r := aead(old(Next(usePrevious)), typ, version, plain);
                r.Some? && |r.value| < 0x1_0000 && old(Next(usePrevious)) % EPOCH_UNIT + 1 < EPOCH_UNIT
      ensures out.Some? && |f.body| <= MAX_ENCRYPTED ==> out.value == EncFrame(f)
      ensures out.Some? ==>
                && f.typ == typ && f.version == version && f.epoch == (if usePrevious then epoch - 1 else epoch)
                && f.Number() == old(Next(usePrevious))
                && aead(f.Number(), typ, version, plain) == Some(f.body)
                && used == old(used) + {f.Number()}
      ensures out.Some? && !old(wrapped) ==> !wrapped && f.Number() !in old(used) && Next(usePrevious) == f.Number() + 1
      ensures out.None? && !wrapped ==> used == old(used) || used == old(used) + {old(Next(usePrevious))}
    {
      hide U16, U24, ReadU24, BigEndian, Pow256, FrameHeader;
      var e, s := epoch, writeSequence;
      if usePrevious {
        e, s := epoch - 1, lastWriteSequence;
      }
      SixBytes(s[..]);
      SixBytesLength();
      var hi, lo := ReadU24(s[0], s[1], s[2]), ReadU24(s[3], s[4], s[5]);
      var low: nat := 0x100_0000 * (hi as int) + lo;
      f := Frame(typ, version, e, hi, lo, []);
      ghost var number := f.Number();
      NumberParts(e, low);
      var header := [typ] + U16(version) + U16(e) + s[..];
      ghost var numberBytes := s[..];
      assert numberBytes == U24(hi) + U24(lo);
      var body := aead(EPOCH_UNIT * (e as int) + low, typ, version, plain);
      if body.None? {
        return None, f;
      }
      f := f.(body := body.value);
      ghost var before := used;
      used := used + {number};
      var updated := SequenceUpdate(s);
      if !updated {
        wrapped := true;
        return None, f;
      }
      StillBelow(before, number);
      if |body.value| >= 0x1_0000 {
        return None, f;
      }
      out := Some(header + U16(|body.value|) + body.value);
      if f.Ok() { HeaderParts(f, numberBytes); }
    }

    /** The numbers used stay below the next ones. */
    lemma StillBelow(before: set<nat>, number: nat)
      requires used == before + {number}
      requires writeSequence.Length == 6 && lastWriteSequence.Length == 6 && writeSequence != lastWriteSequence
      requires number / EPOCH_UNIT <= epoch
      requires number / EPOCH_UNIT == epoch ==> number % EPOCH_UNIT < BigEndian(writeSequence[..])
      requires number / EPOCH_UNIT == epoch - 1 ==> number % EPOCH_UNIT < BigEndian(lastWriteSequence[..])
      requires !wrapped ==> forall q :: q in before ==>
            && q / EPOCH_UNIT <= epoch
            && (q / EPOCH_UNIT == epoch ==> q % EPOCH_UNIT < BigEndian(writeSequence[..]))
            && (q / EPOCH_UNIT == epoch - 1 ==> q % EPOCH_UNIT < BigEndian(lastWriteSequence[..]))
      ensures Valid()
    {}

    /** The sequence part of dtls1_set_write_state; the epoch is a 16-bit counter. */
    method SetWriteState(version: u16)
      requires Valid()
      modifies this`epoch, this`version, this`wrapped, writeSequence, lastWriteSequence
      ensures Valid() && epoch == (old(epoch) + 1) % 0x1_0000 && this.version == version
      ensures wrapped == (old(wrapped) || old(epoch) == 0xffff)
      ensures Next(false) == EPOCH_UNIT * epoch && (epoch > 0 ==> Next(true) == old(Next(false)))
    {
      ghost var was := writeSequence[..];
      forall k | 0 <= k < 6 { lastWriteSequence[k] := writeSequence[k]; }
      forall k | 0 <= k < 6 { writeSequence[k] := 0; }
      assert lastWriteSequence[..] == was;
      SixZeros(writeSequence[..]);
      wrapped := wrapped || epoch == 0xffff;
      epoch := (epoch + 1) % 0x1_0000;
      this.version := version;
    }
  }

  lemma HeaderParts(f: Frame, number: seq<byte>)
    requires f.Ok() && number == U24(f.hi) + U24(f.lo)
    ensures [f.typ] + U16(f.version) + U16(f.epoch) + number + U16(|f.body|) == FrameHeader(f)
  {
    hide U16, U24;
  }

  lemma SixBytesLength()
    ensures Pow256(6) == EPOCH_UNIT
  {
    assert Pow256(2) == 65536 && Pow256(4) == 65536 * Pow256(2) by { assert Pow256(3) == 256 * Pow256(2); }
    assert Pow256(6) == 65536 * Pow256(4) by { assert Pow256(5) == 256 * Pow256(4); }
  }

  lemma NumberParts(e: nat, low: nat)
    requires low < EPOCH_UNIT
    ensures (EPOCH_UNIT * e + low) / EPOCH_UNIT == e && (EPOCH_UNIT * e + low) % EPOCH_UNIT == low
  {}
}
