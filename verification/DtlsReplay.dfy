/** Replay protection of the DTLS record layer (section 4.1.2.6 of RFC 6347): a
    64-bit sliding window per epoch, and the receive path around it. */
module DtlsReplay {
  import opened Wrappers
  import opened Words
  import opened DtlsFragment
  import opened DtlsFrames

  const WINDOW: nat := 64

  lemma {:induction false} LowBelow(v: nat, n: nat)
    ensures Low(v, n) < Pow2(n)
  {
    if n > 0 { LowBelow(v / 2, n - 1); }
  }

  /** The window says of the 64 numbers up to the highest which were recorded. */
  ghost predicate Shows(bits: nat, max: nat, seen: set<nat>) {
    forall k: nat :: k < WINDOW ==> (Bit(bits, k) <==> k <= max && max - k in seen)
  }

  /** The 64-bit word shifted left, or cleared. */
  function Slid(bits: nat, shift: nat): nat {
    if shift >= WINDOW then 0 else Low(Shl(bits, shift), WINDOW)
  }

  /** Sliding the window up to a higher number. */
  lemma SlideShows(bits: nat, max: nat, seen: set<nat>, shift: nat)
    requires Shows(bits, max, seen) && shift > 0
    requires forall q :: q in seen ==> q <= max
    ensures Shows(Slid(bits, shift), max + shift, seen)
  {
    forall k: nat | k < WINDOW
      ensures Bit(Slid(bits, shift), k) <==>
              k <= max + shift && max + shift - k in seen
    {
      BitZero(k);
      LowBit(Shl(bits, shift), WINDOW, k);
      ShlBit(bits, shift, k);
      if k >= shift { assert Bit(bits, k - shift) <==> k - shift <= max && max - (k - shift) in seen; }
    }
  }

  /** Marking one number inside the window. */
  lemma MarkShows(bits: nat, max: nat, seen: set<nat>, idx: nat)
    requires Shows(bits, max, seen) && idx < WINDOW && idx <= max
    ensures Shows(BitOr(bits, Shl(1, idx)), max, seen + {max - idx})
  {
    forall k: nat | k < WINDOW
      ensures Bit(BitOr(bits, Shl(1, idx)), k) <==> k <= max && max - k in seen + {max - idx}
    {
      BitOrBit(bits, Shl(1, idx), k);
      BitOfOne(idx, k);
    }
  }

  class Bitmap {
    var bits: nat
    var maxSeqNum: nat
    ghost var seen: set<nat>  // every number recorded since the last reset

    ghost predicate Valid()
      reads this
    {
      && bits < Pow2(WINDOW)
      && (forall q :: q in seen ==> q <= maxSeqNum)
      && (if seen == {} then maxSeqNum == 0 else maxSeqNum in seen)
      && Shows(bits, maxSeqNum, seen)
    }

    constructor ()
      ensures Valid() && seen == {}
    {
      bits, maxSeqNum, seen := 0, 0, {};
      new;
      forall k: nat | k < WINDOW ensures !Bit(bits, k) { BitZero(k); }
      ShlGrows(1, 0, WINDOW);
    }

    /** The memset of dtls1_set_read_state. */
    method Reset()
      modifies this
      ensures Valid() && seen == {}
    {
      bits, maxSeqNum, seen := 0, 0, {};
      forall k: nat | k < WINDOW ensures !Bit(bits, k) { BitZero(k); }
      ShlGrows(1, 0, WINDOW);
    }

    /** dtls1_bitmap_should_discard: exactly the numbers recorded before and those
        64 or more below the highest. */
    method ShouldDiscard(seqNum: nat) returns (b: bool)
      requires Valid()
      ensures b <==> seqNum in seen || seqNum + WINDOW <= maxSeqNum
    {
      if seqNum > maxSeqNum {
        return false;
      }
      var idx := maxSeqNum - seqNum;
      return idx >= WINDOW || Bit(bits, idx);
    }

    /** dtls1_bitmap_record. */
    method Record(seqNum: nat)
      requires Valid()
      modifies this
      ensures Valid() && seen == old(seen) + {seqNum}
    {
      if seqNum > maxSeqNum {
        var shift := seqNum - maxSeqNum;
        SlideShows(bits, maxSeqNum, seen, shift);
        LowBelow(Shl(bits, shift), WINDOW);
        ShlGrows(1, 0, WINDOW);
        bits := Slid(bits, shift);
        maxSeqNum := seqNum;
      }
      var idx := maxSeqNum - seqNum;
      if idx < WINDOW {
        MarkShows(bits, maxSeqNum, seen, idx);
        ShlGrows(1, idx, WINDOW - 1);
        BitOrBound(bits, Shl(1, idx), WINDOW);
        bits := BitOr(bits, Shl(1, idx));
      }
      seen := seen + {seqNum};
    }
  }

  datatype Opened =
    | NeedMore
    | Closed
    | Dropped
    | TooLong
    | Accepted(typ: byte, plain: seq<byte>)

  /** A cipher: what it makes of number, type, version and body, if it accepts. */
  type Opening = (nat, byte, u16, seq<byte>) -> Option<seq<byte>>

  /** What becomes of a well-framed record of an acceptable version, given the numbers
      accepted so far in the epoch. */
  function Outcome(typ: byte, version: u16, number: nat, body: seq<byte>, epoch: u16, seen: set<nat>, open: Opening): Opened {
    if number / EPOCH_UNIT != epoch || number in seen || (exists q :: q in seen && number + WINDOW <= q) then Dropped
    else
      match open(number, typ, version, body)
      case None => Dropped
      case Some(plain) => if |plain| > MAX_PLAIN then TooLong else Accepted(typ, plain)
  }

  /** What becomes of the records of a datagram, one after the other. */
  function Outcomes(fs: seq<Frame>, epoch: u16, seen: set<nat>, open: Opening): seq<Opened>
    decreases |fs|
  {
    if fs == [] then []
    else
      var f := fs[0];
      var r := Outcome(f.typ, f.version, f.Number(), f.body, epoch, seen, open);
      [r] + if r.TooLong? then []
            else Outcomes(fs[1..], epoch, if r.Accepted? then seen + {f.Number()} else seen, open)
  }

  /** The cipher accepts each of the records, with a plaintext of admitted length. */
  predicate AllOpen(fs: seq<Frame>, open: Opening) {
    forall f :: f in fs ==>
      var r := open(f.Number(), f.typ, f.version, f.body);
      r.Some? && |r.value| <= MAX_PLAIN
  }

  /** The numbers are of the epoch, unused, not below the window, and distinct. */
  predicate AllFresh(fs: seq<Frame>, epoch: u16, seen: set<nat>)
    decreases |fs|
  {
    fs == [] ||
    (&& fs[0].Number() / EPOCH_UNIT == epoch && fs[0].Number() !in seen
     && (forall q :: q in seen ==> q < fs[0].Number() + WINDOW)
     && AllFresh(fs[1..], epoch, seen + {fs[0].Number()}))
  }

  /** The plaintexts of the records, in order. */
  function Plains(fs: seq<Frame>, open: Opening): seq<Opened>
    requires AllOpen(fs, open)
  {
    if fs == [] then []
    else [Accepted(fs[0].typ, open(fs[0].Number(), fs[0].typ, fs[0].version, fs[0].body).value)] + Plains(fs[1..], open)
  }

  /** Each record with a fresh number is opened, in the order of the datagram. */
  lemma {:induction false} FreshAllOpened(fs: seq<Frame>, epoch: u16, seen: set<nat>, open: Opening)
    requires AllFresh(fs, epoch, seen) && AllOpen(fs, open)
    ensures Outcomes(fs, epoch, seen, open) == Plains(fs, open)
    decreases |fs|
  {
    if fs != [] { FreshAllOpened(fs[1..], epoch, seen + {fs[0].Number()}, open); }
  }

  /** Numbers that go up from above all that were seen are fresh. */
  lemma {:induction false} RisingIsFresh(fs: seq<Frame>, epoch: u16, seen: set<nat>)
    requires forall i :: 0 <= i < |fs| ==> fs[i].Number() / EPOCH_UNIT == epoch
    requires forall i, j :: 0 <= i < j < |fs| ==> fs[i].Number() < fs[j].Number()
    requires forall q, i :: q in seen && 0 <= i < |fs| ==> q < fs[i].Number()
    ensures AllFresh(fs, epoch, seen)
    decreases |fs|
  {
    if fs != [] { RisingIsFresh(fs[1..], epoch, seen + {fs[0].Number()}); }
  }

  lemma OutcomesStep(fs: seq<Frame>, epoch: u16, seen: set<nat>, open: Opening)
    requires fs != []
    ensures var f := fs[0];
            var r := Outcome(f.typ, f.version, f.Number(), f.body, epoch, seen, open);
            Outcomes(fs, epoch, seen, open) ==
              [r] + if r.TooLong? then []
                    else Outcomes(fs[1..], epoch, if r.Accepted? then seen + {f.Number()} else seen, open)
  {}

  lemma NothingLeft(fs: seq<Frame>)
    requires AllOk(fs) && EncFrames(fs) == []
    ensures fs == []
  {}

  /** What was made of the records so far and what is to be made of those left. */
  ghost predicate Progress(rs: seq<Opened>, left: seq<Frame>, whole: seq<Opened>, epoch: u16, seen: set<nat>, open: Opening) {
    rs + Outcomes(left, epoch, seen, open) == whole
  }

  lemma ProgressStarts(fs: seq<Frame>, epoch: u16, seen: set<nat>, open: Opening)
    ensures Progress([], fs, Outcomes(fs, epoch, seen, open), epoch, seen, open)
  {
    assert [] + Outcomes(fs, epoch, seen, open) == Outcomes(fs, epoch, seen, open);
  }

  lemma ProgressGoesOn(rs: seq<Opened>, left: seq<Frame>, whole: seq<Opened>, epoch: u16, seen: set<nat>, open: Opening)
    requires left != [] && Progress(rs, left, whole, epoch, seen, open)
    ensures var f := left[0];
            var r := Outcome(f.typ, f.version, f.Number(), f.body, epoch, seen, open);
            if r.TooLong? then rs + [r] == whole
            else Progress(rs + [r], left[1..], whole, epoch, if r.Accepted? then seen + {f.Number()} else seen, open)
  {
    hide Outcome;
    var f := left[0];
    var r := Outcome(f.typ, f.version, f.Number(), f.body, epoch, seen, open);
    OutcomesStep(left, epoch, seen, open);
    Regroup(rs, r, Outcomes(left[1..], epoch, if r.Accepted? then seen + {f.Number()} else seen, open));
  }

  lemma ProgressEnds(rs: seq<Opened>, whole: seq<Opened>, epoch: u16, seen: set<nat>, open: Opening)
    requires Progress(rs, [], whole, epoch, seen, open)
    ensures rs == whole
  {
    assert rs + [] == rs;
  }

  lemma Regroup(a: seq<Opened>, r: Opened, b: seq<Opened>)
    ensures a + ([r] + b) == (a + [r]) + b
    ensures a + ([r] + []) == a + [r]
  {}

  class RecordReader {
    var epoch: u16
    var nullCipher: bool
    var version: u16          // of the read cipher, once there is one
    var closed: bool          // close_notify received
    const bitmap: Bitmap
    ghost var accepted: set<nat>  // every 64-bit record number ever accepted

    ghost predicate Valid()
      reads this, bitmap
    {
      && bitmap.Valid()
      && (forall q :: q in accepted ==> q / EPOCH_UNIT <= epoch)
      && (forall q :: q in bitmap.seen <==> q in accepted && q / EPOCH_UNIT == epoch)
    }

    constructor ()
      ensures Valid() && accepted == {} && epoch == 0 && fresh(bitmap)
    {
      bitmap := new Bitmap();
      epoch, nullCipher, version, closed, accepted := 0, true, 0, false, {};
    }

    /** The version test of dtls_open_record. */
    predicate VersionOk(s: seq<byte>)
      requires |s| >= RECORD_HEADER
      reads this
    {
      if nullCipher then s[1] == 0xfe else ReadU16(s[1], s[2]) == version
    }

    /** dtls_open_record; `open` is the cipher of this record. The record is consumed,
        accepted or not, and nothing behind it; a malformed header takes the whole
        datagram with it. */
    method OpenRecord(s: seq<byte>, open: Opening) returns (r: Opened, consumed: nat)
      requires Valid()
      modifies this`accepted, bitmap
      ensures Valid()
      ensures r.Closed? <==> closed
      ensures r.NeedMore? <==> !closed && s == []
      ensures !closed && s != [] ==>
                r == if WellFramed(s) && VersionOk(s) then
                       Outcome(s[0], ReadU16(s[1], s[2]), SeqNum64(s[3..11]), BodyOf(s), epoch, old(bitmap.seen), open)
                     else Dropped
      ensures consumed == if closed || s == [] then 0
                          else if WellFramed(s) && VersionOk(s) then FrameLength(s) else |s|
      ensures accepted == if r.Accepted? then old(accepted) + {SeqNum64(s[3..11])} else old(accepted)
      ensures bitmap.seen == if r.Accepted? then old(bitmap.seen) + {SeqNum64(s[3..11])} else old(bitmap.seen)
      // So a number is accepted once only, and in the current epoch.
      ensures r.Accepted? ==>
                SeqNum64(s[3..11]) !in old(accepted) && SeqNum64(s[3..11]) / EPOCH_UNIT == epoch && |r.plain| <= MAX_PLAIN
    {
      hide SeqNum64, Shows;
      if closed { return Closed, 0; }
      if |s| == 0 { return NeedMore, 0; }
      if |s| < RECORD_HEADER || ReadU16(s[11], s[12]) > |s| - RECORD_HEADER
         || ReadU16(s[11], s[12]) > MAX_ENCRYPTED {
        return Dropped, |s|;
      }
      var typ, ver, number := s[0], ReadU16(s[1], s[2]), SeqNum64(s[3..11]);
      var len := ReadU16(s[11], s[12]);
      if if nullCipher then s[1] != 0xfe else ver != version {
        return Dropped, |s|;
      }
      consumed := RECORD_HEADER + len;
      if ReadU16(s[3], s[4]) != epoch {
        return Dropped, consumed;
      }
      var stale := bitmap.ShouldDiscard(number);
      if stale {
        return Dropped, consumed;
      }
      var plain := open(number, typ, ver, s[RECORD_HEADER..RECORD_HEADER + len]);
      if plain.None? {
        return Dropped, consumed;
      }
      if |plain.value| > MAX_PLAIN {
        return TooLong, consumed;
      }
      bitmap.Record(number);
      accepted := accepted + {number};
      return Accepted(typ, plain.value), consumed;
    }

    /** `s` is the join of these records, and their versions are acceptable. */
    ghost predicate Joins(s: seq<byte>, fs: seq<Frame>)
      reads this`nullCipher, this`version
    {
      && AllOk(fs) && s == EncFrames(fs)
      && forall f :: f in fs ==> if nullCipher then f.version / 256 == 0xfe else f.version == version
    }

    /** A datagram, opened record by record until it is used up or one is an error.
        When it is the join of `fs`, each of these is opened in turn; those with fresh
        numbers that the cipher accepts are all handed out, in order. */
    method OpenDatagram(s: seq<byte>, open: Opening, ghost fs: seq<Frame>) returns (rs: seq<Opened>)
      requires Valid()
      modifies this`accepted, bitmap
      ensures Valid() && old(accepted) <= accepted
      ensures !closed && Joins(s, fs) ==> rs == Outcomes(fs, epoch, old(bitmap.seen), open)
      ensures !closed && Joins(s, fs) && AllFresh(fs, epoch, old(bitmap.seen)) && AllOpen(fs, open) ==> rs == Plains(fs, open)
    {
      hide SeqNum64, WellFramed, EncFrame, Outcome, Outcomes, Plains, AllFresh, AllOpen, FrameLength, BodyOf, Bitmap.Valid, Frame.Number, Progress, Joins;
      rs := [];
      var rest := s;
      ghost var left, fine, whole := fs, !closed && Joins(s, fs), Outcomes(fs, epoch, bitmap.seen, open);
      if AllFresh(fs, epoch, bitmap.seen) && AllOpen(fs, open) { FreshAllOpened(fs, epoch, bitmap.seen, open); }
      ProgressStarts(fs, epoch, bitmap.seen, open);
      while rest != []
        invariant Valid() && old(accepted) <= accepted
        invariant fine ==> Joins(rest, left)
        invariant fine ==> Progress(rs, left, whole, epoch, bitmap.seen, open)
        decreases |rest|
      {
        if fine { FirstFrame(rest, left); }
        ghost var seen := bitmap.seen;
        var r, consumed := OpenRecord(rest, open);
        if fine { ProgressGoesOn(rs, left, whole, epoch, seen, open); }
        rs := rs + [r];
        if r.TooLong? || r.Closed? {
          return;
        }
        assert consumed > 0 by { LengthPositive(rest); }
        rest := rest[consumed..];
        if fine { left := left[1..]; }
      }
      if fine {
        NothingJoined(rest, left);
        ProgressEnds(rs, whole, epoch, bitmap.seen, open);
      }
    }

    lemma NothingJoined(s: seq<byte>, fs: seq<Frame>)
      requires Joins(s, fs) && s == []
      ensures fs == []
    {
      NothingLeft(fs);
    }

    lemma LengthPositive(s: seq<byte>)
      ensures WellFramed(s) ==> FrameLength(s) > 0
    {}

    lemma FirstFrame(s: seq<byte>, fs: seq<Frame>)
      requires Joins(s, fs) && s != []
      ensures fs != [] && WellFramed(s) && VersionOk(s) && Joins(s[FrameLength(s)..], fs[1..])
      ensures s[0] == fs[0].typ && ReadU16(s[1], s[2]) == fs[0].version && SeqNum64(s[3..11]) == fs[0].Number()
      ensures BodyOf(s) == fs[0].body
    {
      hide SeqNum64, WellFramed, EncFrame, FrameLength, BodyOf, Frame.Number;
      assert fs[0] in fs;
      FrameReadBack(fs[0], EncFrames(fs[1..]));
      FramedLong(s);
    }

    lemma FramedLong(s: seq<byte>)
      ensures WellFramed(s) ==> |s| >= RECORD_HEADER
    {}

    /** The epoch change of dtls1_set_read_state. */
    method SetReadState(version: u16)
      requires Valid() && epoch < 0xffff
      modifies this`epoch, this`nullCipher, this`version, bitmap
      ensures Valid() && epoch == old(epoch) + 1 && accepted == old(accepted)
    {
      epoch := epoch + 1;
      nullCipher := false;
      this.version := version;
      bitmap.Reset();
    }
  }
}
