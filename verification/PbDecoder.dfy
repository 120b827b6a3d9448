/** The decoder as it runs: an input stream consumed in place, length-limited
    substreams over the same buffer, and the field loop with its bit set. */
module PbDecoder {
  import opened Wrappers
  import opened Words
  import opened PbWire
  import opened PbKeys
  import opened PbMessages
  import opened PbDecodeSpec
  import opened PbSafety
  import opened PbIter
  import opened PbBits

  function Accumulate(result: nat, b: byte, bitpos: nat): nat {
    BitOr(result, Shl(b % 128, bitpos) % B32)
  }

  /** One round of the multibyte loop, with the tests where the code has them. */
  lemma MultibyteStep(bs: seq<byte>, bitpos: nat, result: nat)
    requires bs != [] && bitpos < 256
    ensures var b := bs[0];
      var refused := bitpos >= 32 && b % 128 != 0
                     && (result / B31 == 0 || b != if bitpos < 63 then 0xFF else 0x01);
      var result' := if bitpos >= 32 then result else Accumulate(result, b, bitpos);
      var bitpos' := (bitpos + 7) % 256;
      DecVarint32At(bs, bitpos, result) ==
        if refused then Fail
        else if b >= 0x80 then DecVarint32At(bs[1..], bitpos', result')
        else if bitpos' == 35 && (b / 16) % 8 != 0 then Fail
        else Ok(result', bs[1..])
  {
    assert bitpos < 32 ==> (bitpos + 7) % 256 == bitpos + 7;
  }

  /** One turn of the field loop. */
  lemma LoopStep(d: Desc, bs: seq<byte>, st: State)
    requires |st.m| == |d.fields|
    ensures var k := DecKey(bs);
      if bs == [] then DecLoop(d, bs, st) == Ok(st, [])
      else if k.BadKey? then DecLoop(d, bs, st).Fail?
      else if k.Terminator? then DecLoop(d, bs, st) == Ok(st, k.after)
      else
        var r := DecRecord(d, k.tag, k.wt, k.after, st);
        DecLoop(d, bs, st) == if r.Fail? then Fail else DecLoop(d, r.rest, r.value)
  {}

  /** One turn of the loop over a packed array. */
  lemma PackedStep(f: Field, bs: seq<byte>, items: seq<Value>, k: nat)
    ensures DecPacked(f, bs, items, k) ==
      if bs == [] then Some((items, k))
      else if k >= f.arraySize then None
      else
        var r := DecValue(f, DefaultValue(f), bs);
        if r.Fail? then None else DecPacked(f, r.rest, Put(f, items, k, r.value), k + 1)
  {}

  class IStream {
    const buf: seq<byte>
    var state: nat       // the next byte to read
    var bytesLeft: nat

    ghost predicate Valid()
      reads this
    {
      state + bytesLeft <= |buf|
    }

    ghost function Remaining(): seq<byte>
      reads this
      requires Valid()
    {
      buf[state..state + bytesLeft]
    }

    /** What every reading method promises: it succeeds when the parser does and
        leaves unread what the parser leaves, up to the same end. */
    ghost predicate Reads<T>(end: nat, ok: bool, r: Parse<T>)
      reads this
    {
      && Valid() && state + bytesLeft <= end
      && (ok <==> r.Ok?)
      && (ok ==> state + bytesLeft == end && Remaining() == r.rest)
    }

    /** pb_istream_from_buffer. */
    constructor (data: seq<byte>)
      ensures Valid() && Remaining() == data && buf == data && state == 0
    {
      buf, state, bytesLeft := data, 0, |data|;
    }

    /** A stream over part of a buffer. */
    constructor Sub(data: seq<byte>, at: nat, n: nat)
      requires at + n <= |data|
      ensures Valid() && buf == data && state == at && bytesLeft == n
    {
      buf, state, bytesLeft := data, at, n;
    }

    /** pb_read; the destination buffer may be absent. */
    method Read(n: nat) returns (ok: bool, data: seq<byte>)
      requires Valid()
      modifies this
      ensures Reads(old(state + bytesLeft), ok, Take(n, old(Remaining())))
      ensures ok ==> data == old(Remaining())[..n]
      ensures ok ==> state == old(state) + n
    {
      if bytesLeft < n { return false, []; }
      data := buf[state..state + n];
      state := state + n;
      bytesLeft := bytesLeft - n;
      ok := true;
    }

    /** pb_readbyte. */
    method ReadByte() returns (ok: bool, b: byte)
      requires Valid()
      modifies this
      ensures Valid() && ok == (old(Remaining()) != [])
      ensures ok ==> b == old(Remaining())[0] && Remaining() == old(Remaining())[1..]
      ensures state + bytesLeft == old(state + bytesLeft)
      ensures !ok ==> bytesLeft == 0
    {
      if bytesLeft == 0 { return false, 0; }
      b := buf[state];
      state := state + 1;
      bytesLeft := bytesLeft - 1;
      ok := true;
    }

    /** pb_decode_varint32_eof. */
    method DecodeVarint32Eof() returns (ok: bool, dest: nat, eof: bool)
      requires Valid()
      modifies this
      ensures Reads(old(state + bytesLeft), ok, DecVarint32(old(Remaining())))
      ensures ok ==> dest == DecVarint32(old(Remaining())).value
      ensures eof == (old(Remaining()) == [])
    {
      ghost var bs := Remaining();
      ghost var end := state + bytesLeft;
      ok, dest, eof := false, 0, false;
      var read, b := ReadByte();
      if !read {
        if bytesLeft == 0 { eof := true; }
        return;
      }
      if b < 0x80 { return true, b, false; }
      ok, dest := DecodeMultibyte32(b % 128);
    }

    /** The multibyte case of pb_decode_varint32_eof. */
    method DecodeMultibyte32(low: nat) returns (ok: bool, dest: nat)
      requires Valid()
      modifies this
      ensures Reads(old(state + bytesLeft), ok, DecVarint32At(old(Remaining()), 7, low))
      ensures ok ==> dest == DecVarint32At(old(Remaining()), 7, low).value
    {
      ghost var r := DecVarint32At(Remaining(), 7, low);
      ghost var end := state + bytesLeft;
      var bitpos: nat, result: nat := 7, low;
      while true
        invariant Valid() && state + bytesLeft == end && bitpos < 256
        invariant r == DecVarint32At(Remaining(), bitpos, result)
        decreases bytesLeft
      {
        ghost var here := Remaining();
        var read, b := ReadByte();
        if !read { return false, 0; }
        MultibyteStep(here, bitpos, result);
        if bitpos >= 32 {
          var signExtension := if bitpos < 63 then 0xFF else 0x01;
          if b % 128 != 0 && (result / B31 == 0 || b != signExtension) { return false, 0; }
        } else {
          result := Accumulate(result, b, bitpos);
        }
        bitpos := (bitpos + 7) % 256;
        if b < 0x80 {
          if bitpos == 35 && (b / 16) % 8 != 0 { return false, 0; }
          return true, result;
        }
      }
    }

    /** pb_decode_varint. */
    method DecodeVarint() returns (ok: bool, dest: nat)
      requires Valid()
      modifies this
      ensures Reads(old(state + bytesLeft), ok, DecVarint(old(Remaining())))
      ensures ok ==> dest == DecVarint(old(Remaining())).value
    {
      ghost var bs := Remaining();
      ghost var end := state + bytesLeft;
      ok, dest := false, 0;
      var bitpos: nat, result: nat := 0, 0;
      while true
        invariant Valid() && state + bytesLeft == end
        invariant DecVarint(bs) == DecVarintAt(Remaining(), bitpos, result)
        decreases bytesLeft
      {
        if bitpos >= 64 { return; }
        var read, b := ReadByte();
        if !read { return; }
        result := BitOr(result, Shl(b % 128, bitpos) % B64);
        bitpos := bitpos + 7;
        if b < 0x80 { break; }
      }
      ok, dest := true, result;
    }

    /** pb_skip_varint. */
    method SkipVarintBytes() returns (ok: bool)
      requires Valid()
      modifies this
      ensures Reads(old(state + bytesLeft), ok, SkipVarint(old(Remaining())))
    {
      ghost var bs := Remaining();
      ghost var end := state + bytesLeft;
      while true
        invariant Valid() && state + bytesLeft == end
        invariant SkipVarint(bs) == SkipVarint(Remaining())
        decreases bytesLeft
      {
        var read, data := Read(1);
        if !read { return false; }
        if data[0] < 0x80 { return true; }
      }
    }

    /** pb_decode_tag. */
    method DecodeTag() returns (ok: bool, wt: nat, tag: nat, eof: bool)
      requires Valid()
      modifies this
      ensures Valid() && ok == DecKey(old(Remaining())).Key?
      ensures state + bytesLeft <= old(state + bytesLeft)
      ensures ok ==> var k := DecKey(old(Remaining())); tag == k.tag && wt == k.wt && Remaining() == k.after
      ensures !ok ==> eof == (old(Remaining()) == [] || DecKey(old(Remaining())).Terminator?)
      ensures DecKey(old(Remaining())).Terminator? ==> Remaining() == DecKey(old(Remaining())).after
      ensures ok || (eof && old(Remaining()) != []) ==> state + bytesLeft == old(state + bytesLeft)
    {
      wt, tag := 0, 0;
      var read, temp, end := DecodeVarint32Eof();
      eof := end;
      if !read { return false, wt, tag, eof; }
      if temp == 0 { return false, wt, tag, true; }
      return true, temp % 8, temp / 8, eof;
    }

    /** pb_make_string_substream: the parent's length shrinks at once, its
        position moves only when the substream is closed. */
    method MakeStringSubstream() returns (ok: bool, sub: IStream)
      requires Valid()
      modifies this
      ensures fresh(sub) && sub.Valid() && sub.buf == buf
      ensures Valid() && (ok <==> DecString(old(Remaining())).Ok?)
      ensures state + bytesLeft <= old(state + bytesLeft)
      ensures ok ==>
        && sub.state == state && sub.Remaining() == DecString(old(Remaining())).value
        && state + sub.bytesLeft + bytesLeft == old(state + bytesLeft)
        && buf[state + sub.bytesLeft..old(state + bytesLeft)] == DecString(old(Remaining())).rest
    {
      var read, size, _ := DecodeVarint32Eof();
      sub := new IStream.Sub(buf, state, bytesLeft);
      if !read || sub.bytesLeft < size { return false, sub; }
      sub.bytesLeft := size;
      bytesLeft := bytesLeft - size;
      ok := true;
    }

    /** pb_close_string_substream: what is left of the substream is passed over. */
    method CloseStringSubstream(sub: IStream) returns (ok: bool)
      requires Valid() && sub.Valid() && sub != this && sub.buf == buf
      requires sub.state + sub.bytesLeft + bytesLeft <= |buf|
      modifies this, sub
      ensures Valid() && ok
      ensures state == old(sub.state + sub.bytesLeft) && bytesLeft == old(bytesLeft)
    {
      if sub.bytesLeft != 0 {
        var read, _ := sub.Read(sub.bytesLeft);
        if !read { return false; }
      }
      state := sub.state;
      ok := true;
    }

    /** pb_skip_field. */
    method SkipField(wt: nat) returns (ok: bool)
      requires Valid()
      modifies this
      ensures Reads(old(state + bytesLeft), ok, Skip(wt, old(Remaining())))
    {
      var data;
      if wt == WT_VARINT {
        ok := SkipVarintBytes();
      } else if wt == WT_64BIT {
        ok, data := Read(8);
      } else if wt == WT_STRING {
        ok, data := DecodeString();
      } else if wt == WT_32BIT {
        ok, data := Read(4);
      } else {
        ok := false;
      }
    }

    /** A varint32 length and that many bytes. */
    method DecodeString() returns (ok: bool, data: seq<byte>)
      requires Valid()
      modifies this
      ensures Reads(old(state + bytesLeft), ok, DecString(old(Remaining())))
      ensures ok ==> data == DecString(old(Remaining())).value
    {
      data := [];
      var read, size, _ := DecodeVarint32Eof();
      if !read { return false, data; }
      ok, data := Read(size);
    }

    /** pb_dec_varint, pb_dec_uvarint, pb_dec_svarint, pb_dec_fixed32, pb_dec_fixed64. */
    method DecodeNum(f: Field) returns (ok: bool, v: Value)
      requires Valid() && (f.ltype.FIXED32? || f.ltype.FIXED64? || f.ltype.VARINT? || f.ltype.UVARINT? || f.ltype.SVARINT?)
      modifies this
      ensures Reads(old(state + bytesLeft), ok, DecNum(f, old(Remaining())))
      ensures ok ==> v == DecNum(f, old(Remaining())).value
    {
      v := Num(0);
      if f.ltype.FIXED32? || f.ltype.FIXED64? {
        var data;
        ok, data := Read(if f.ltype.FIXED32? then 4 else 8);
        if ok { v := Num(FromLe(data)); }
        return;
      }
      var read, u := DecodeVarint();
      if !read { return false, v; }
      var fits, n := Clamp(f, u);
      if !fits { return false, v; }
      return true, Num(n);
    }

    /** The casts of the pb_dec_*varint functions, and their overflow checks. */
    static method Clamp(f: Field, u: nat) returns (ok: bool, n: int)
      requires f.ltype.VARINT? || f.ltype.UVARINT? || f.ltype.SVARINT?
      ensures ok <==> VarSize(f.dataSize) && InRange(f, FromWord(f, u))
      ensures ok ==> n == FromWord(f, u)
    {
      n := 0;
      if !VarSize(f.dataSize) { return false, n; }  // invalid data_size
      n := SourceValue(f, u);
      var clamped := if f.ltype.UVARINT? then UnsignedCast(n, f.dataSize) else SignedCast(n, f.dataSize);
      CastKeeps(f, n);
      ok := clamped == n;                           // else: integer too large
    }

    /** pb_dec_bytes, pb_dec_string, pb_dec_fixed_length_bytes. */
    method DecodeBlob(f: Field) returns (ok: bool, v: Value)
      requires Valid() && (f.ltype.BYTES? || f.ltype.STRING? || f.ltype.FIXED_LENGTH_BYTES?)
      modifies this
      ensures Reads(old(state + bytesLeft), ok, DecValue(f, Num(0), old(Remaining())))
      ensures ok ==> v == DecValue(f, Num(0), old(Remaining())).value
    {
      v := Blob([]);
      var read, size, _ := DecodeVarint32Eof();
      if !read { return false, v; }
      if SizeRefused(f, size) { return false, v; }
      if f.ltype.FIXED_LENGTH_BYTES? && size == 0 {
        v := Blob(seq(f.dataSize, _ => 0));
        return true, v;
      }
      var data;
      ok, data := Read(size);
      v := Blob(if f.ltype.STRING? then UpToNul(data) else data);
    }

    /** PB_DECODERS; a submessage is merged into `prior`. */
    method DecodeValue(f: Field, prior: Value) returns (ok: bool, v: Value)
      requires Valid() && FieldWellFormed(f)
      modifies this
      ensures Reads(old(state + bytesLeft), ok, DecValue(f, prior, old(Remaining())))
      ensures ok ==> v == DecValue(f, prior, old(Remaining())).value
      decreases f, 0
    {
      match f.ltype
      case SUBMESSAGE =>
        v := prior;
        var m := if prior.Msg? && |prior.slots| == |f.sub.fields| then prior.slots else DefaultMsg(f.sub);
        ok, m := DecodeSubmessage(f.sub, m);
        v := Msg(m);
      case BYTES => ok, v := DecodeBlob(f);
      case STRING => ok, v := DecodeBlob(f);
      case FIXED_LENGTH_BYTES => ok, v := DecodeBlob(f);
      case _ => ok, v := DecodeNum(f);
    }

    /** pb_dec_submessage. */
    method DecodeSubmessage(d: Desc, m0: seq<Slot>) returns (ok: bool, m: seq<Slot>)
      requires Valid() && WellFormed(d) && |m0| == |d.fields|
      modifies this
      ensures var s := DecString(old(Remaining()));
        var r := if s.Fail? then Fail else DecNoinit(d, s.value, m0);
        && Reads(old(state + bytesLeft), ok, if r.Fail? then Fail else Ok((), s.rest))
        && (ok ==> m == r.value)
      decreases d, 7
    {
      hide DecNoinit, DecString, WellFormed;
      ghost var end, s := state + bytesLeft, DecString(Remaining());
      var made, sub := MakeStringSubstream();
      if !made { return false, m0; }
      ghost var at := state + sub.bytesLeft;
      ok, m := sub.DecodeNoinit(d, m0);
      assert at + bytesLeft == end && buf[at..end] == s.rest;
      var closed := CloseStringSubstream(sub);
      if !closed { return false, m; }
    }

    /** The loop over a packed array, run on its substream. */
    method DecodePackedItems(f: Field, items0: seq<Value>, k0: nat) returns (ok: bool, items: seq<Value>, k: nat)
      requires Valid() && FieldWellFormed(f)
      modifies this
      ensures Valid() && state + bytesLeft <= old(state + bytesLeft)
      ensures ok <==> DecPacked(f, old(Remaining()), items0, k0).Some?
      ensures ok ==> (items, k) == DecPacked(f, old(Remaining()), items0, k0).value
      ensures ok ==> state + bytesLeft == old(state + bytesLeft)
      decreases f, 1
    {
      hide DecPacked, DecValue;
      ghost var r := DecPacked(f, Remaining(), items0, k0);
      ghost var end := state + bytesLeft;
      items, k := items0, k0;
      while bytesLeft > 0 && k < f.arraySize
        invariant Valid() && state + bytesLeft == end
        invariant r == DecPacked(f, Remaining(), items, k)
        decreases bytesLeft
      {
        PackedStep(f, Remaining(), items, k);
        var v;
        ok, v := DecodeValue(f, DefaultValue(f));
        if !ok { return; }
        items := Put(f, items, k, v);
        k := k + 1;
      }
      PackedStep(f, Remaining(), items, k);
      ok := bytesLeft == 0;    // else: array overflow
    }

    /** decode_static_field on entry `p`; for a fixed-count array `count0` is the
        element counter that pSize was redirected to. */
    method DecodeStaticField(d: Desc, p: nat, wt: nat, m0: seq<Slot>, count0: nat, ghost st: State)
      returns (ok: bool, m: seq<Slot>, count: nat)
      requires Valid() && WellFormed(d) && p < |d.fields| == |m0|
      requires st.m == m0 && st.count == count0
      modifies this
      ensures Reads(old(state + bytesLeft), ok, DecField(d, p, wt, old(Remaining()), st))
      ensures ok ==> var st' := DecField(d, p, wt, old(Remaining()), st).value;
                     m == st'.m && count == st'.count && st' == st.(m := m, count := count)
      decreases d, 3
    {
      var f, h := d.fields[p], Head(d, p);
      assert FieldWellFormed(f);
      m, count := m0, count0;
      if f.htype.REPEATED? {
        var items;
        ok, items, count := DecodeArray(f, wt, Items(m0[h]), count0);
        m := m0[h := Array(items)];
        return;
      }
      var prior := if f.htype.ONEOF? then DefaultValue(f) else OldValue(m0[h]);
      var v;
      ok, v := DecodeValue(f, prior);
      m := m0[h := if f.htype.ONEOF? then Union(f.tag, v)
                   else if f.sizeOffset != 0 && f.htype.OPTIONAL? then Optional(true, v)
                   else Single(v)];
    }

    /** The repeated cases: a packed array, or one more element. */
    method DecodeArray(f: Field, wt: nat, items0: seq<Value>, count0: nat)
      returns (ok: bool, items: seq<Value>, count: nat)
      requires Valid() && FieldWellFormed(f) && f.htype.REPEATED?
      modifies this
      ensures var k := if FixedCount(f) then count0 else |items0|;
        if wt == WT_STRING && Packable(f.ltype) then
          var s := DecString(old(Remaining()));
          var r := if s.Fail? then None else DecPacked(f, s.value, items0, k);
          && Reads(old(state + bytesLeft), ok, if r.None? then Fail else Ok((), s.rest))
          && (ok ==> items == r.value.0 && count == if FixedCount(f) then r.value.1 else count0)
        else
          var r := if k >= f.arraySize then Fail else DecValue(f, DefaultValue(f), old(Remaining()));
          && Reads(old(state + bytesLeft), ok, r)
          && (ok ==> items == Put(f, items0, k, r.value) && count == if FixedCount(f) then k + 1 else count0)
      decreases f, 2
    {
      hide DecValue, DecPacked, DecString;
      items, count := items0, count0;
      var size := if f.sizeOffset == 0 then count0 else |items0|;   // *pSize
      if wt == WT_STRING && Packable(f.ltype) {
        var made, sub := MakeStringSubstream();
        if !made { return false, items, count; }
        ok, items, size := sub.DecodePackedItems(f, items0, size);
        if !ok { return; }
        var closed := CloseStringSubstream(sub);
        if !closed { return false, items, count; }
      } else {
        if size >= f.arraySize { return false, items, count; }      // array overflow
        var v;
        ok, v := DecodeValue(f, DefaultValue(f));
        items := Put(f, items0, size, v);
        size := size + 1;
      }
      if f.sizeOffset == 0 { count := size; }
    }

    /** One turn of the loop of pb_decode_noinit, after the key. */
    method DecodeRecord(iter: FieldIter, w: array<nat>, tag: nat, wt: nat,
                        m0: seq<Slot>, run0: Option<nat>, count0: nat)
      returns (ok: bool, m: seq<Slot>, run: Option<nat>, count: nat)
      requires Valid() && iter.Valid() && w.Length == 2 && WordPair(w[..])
      requires WellFormed(iter.desc) && |m0| == |iter.desc.fields|
      modifies this, iter, w
      ensures iter.Valid() && WordPair(w[..])
      ensures var r := DecRecord(iter.desc, tag, wt, old(Remaining()), State(m0, old(Members(w[..], 64)), run0, count0));
        && Reads(old(state + bytesLeft), ok, r)
        && (ok ==> r.value == State(m, Members(w[..], 64), run, count))
      ensures forall i :: i in Members(w[..], 64) ==>
        i in old(Members(w[..], 64)) || i < RequiredBefore(iter.desc, |iter.desc.fields|)
      decreases iter.desc, 4
    {
      hide DecField, Members, Skip, WellFormed, RequiredBefore, Suffix, DataOffset;
      var d := iter.desc;
      ghost var st := State(m0, Members(w[..], 64), run0, count0);
      m, run, count := m0, run0, count0;
      var found := iter.Find(tag);
      if !found {
        ok := SkipField(wt);   // there are no extension entries to try
        return;
      }
      if d.fields == [] {
        // the terminator: pb_dec_varint with data_size 0
        var _, _ := DecodeVarint();
        return false, m, run, count;
      }
      var p := iter.pos;
      var f := d.fields[p];
      FoundIsUnique(d, p, tag);
      if f.htype.REPEATED? && iter.pSize == iter.pData {
        if run != Some(p) {
          if run.Some? && (run.value >= |d.fields| || count != d.fields[run.value].arraySize) {
            return false, m, run, count;   // wrong size for fixed count field
          }
          run, count := Some(p), 0;
        }
      }
      if f.htype.REQUIRED? && iter.requiredFieldIndex < PB_MAX_REQUIRED_FIELDS {
        MarkSeen(w, iter.requiredFieldIndex);
        RequiredInRange(d, p);
      }
      ghost var st' := State(m, Members(w[..], 64), run, count);
      assert Note(d, p, st) == Some(st');
      ok, m, count := DecodeStaticField(d, p, wt, m, count, st');
    }

    /** The loop of pb_decode_noinit. */
    method DecodeLoop(iter: FieldIter, w: array<nat>, m0: seq<Slot>)
      returns (ok: bool, m: seq<Slot>, run: Option<nat>, count: nat)
      requires Valid() && iter.Valid() && w.Length == 2 && w[..] == [0, 0]
      requires WellFormed(iter.desc) && |m0| == |iter.desc.fields|
      modifies this, iter, w
      ensures iter.Valid() && WordPair(w[..])
      ensures var r := DecLoop(iter.desc, old(Remaining()), Start(m0));
        && Reads(old(state + bytesLeft), ok, r)
        && (ok ==> r.value == State(m, Members(w[..], 64), run, count))
      ensures forall i :: i in Members(w[..], 64) ==> i < RequiredBefore(iter.desc, |iter.desc.fields|)
      decreases iter.desc, 5
    {
      hide DecLoop, DecRecord;
      ghost var d := iter.desc;
      m, run, count := m0, None, 0;
      ghost var end := state + bytesLeft;
      ghost var r := DecLoop(d, Remaining(), Start(m0));
      NoMembers();
      while bytesLeft != 0
        modifies this, iter, w
        invariant Valid() && state + bytesLeft == end
        invariant iter.Valid() && |m| == |d.fields| && WordPair(w[..])
        invariant forall i :: i in Members(w[..], 64) ==> i < RequiredBefore(d, |d.fields|)
        invariant r == DecLoop(d, Remaining(), State(m, Members(w[..], 64), run, count))
        decreases bytesLeft
      {
        LoopStep(d, Remaining(), State(m, Members(w[..], 64), run, count));
        var read, wt, tag, eof := DecodeTag();
        if !read {
          return eof, m, run, count;
        }
        ok, m, run, count := DecodeRecord(iter, w, tag, wt, m, run, count);
        if !ok { return; }
      }
      LoopStep(d, Remaining(), State(m, Members(w[..], 64), run, count));
      ok := true;
    }

    /** pb_decode_noinit. */
    method DecodeNoinit(d: Desc, m0: seq<Slot>) returns (ok: bool, m: seq<Slot>)
      requires Valid() && WellFormed(d) && |m0| == |d.fields|
      modifies this
      ensures Reads(old(state + bytesLeft), ok, DecNoinit(d, old(Remaining()), m0))
      ensures ok ==> m == DecNoinit(d, old(Remaining()), m0).value
      decreases d, 6
    {
      hide DecLoop, AllSeen, AllMembers, Members, WellFormed, WordPair, FieldIter.Valid, RequiredBefore, Suffix;
      var iter := new FieldIter(d, 0);
      var fieldsSeen := new nat[2] [0, 0];
      assert fieldsSeen[..] == [0, 0];
      var run, count;             // fixed_count_field, fixed_count_size
      ok, m, run, count := DecodeLoop(iter, fieldsSeen, m0);
      if !ok { return; }
      if run.Some? && (run.value >= |d.fields| || count != d.fields[run.value].arraySize) {
        return false, m;          // wrong size for fixed count field
      }
      ok := CheckRequired(iter, fieldsSeen);
      SeenIsMembers(d, State(m, Members(fieldsSeen[..], 64), run, count), fieldsSeen[..]);
    }

    /** pb_decode. */
    method Decode(d: Desc) returns (ok: bool, m: seq<Slot>)
      requires Valid() && WellFormed(d)
      modifies this
      ensures Reads(old(state + bytesLeft), ok, DecMsg(d, old(Remaining())))
      ensures ok ==> m == DecMsg(d, old(Remaining())).value
      ensures ok ==> MsgTyped(d, m) && (Usable(true, d) ==> MsgFits(true, d, m))
    {
      hide MsgTyped, MsgFits, Usable, DecNoinit, WellFormed;
      ghost var bs := Remaining();
      ok, m := DecodeNoinit(d, DefaultMsg(d));
      if ok {
        DefaultIsTyped(d);
        DecodedIsTyped(d, bs, DefaultMsg(d));
        if Usable(true, d) { DecodedIsTerminated(d, bs); }
      }
    }
  }

  lemma SeenIsMembers(d: Desc, st: State, w: seq<nat>)
    requires |w| == 2 && st.seen == Members(w, 64)
    ensures AllSeen(d, st) <==> AllMembers(w, RequiredBefore(d, |d.fields|))
  {}

  /** fields_seen[i >> 5] |= 1 << (i & 31) */
  method MarkSeen(w: array<nat>, i: nat)
    requires w.Length == 2 && WordPair(w[..]) && i < 64
    modifies w
    ensures WordPair(w[..]) && Members(w[..], 64) == old(Members(w[..], 64)) + {i}
  {
    SetMember(w[..], i);
    ghost var before := w[..];
    w[i / 32] := BitOr(w[i / 32], Shl(1, i % 32));
    assert w[..] == before[i / 32 := BitOr(before[i / 32], Shl(1, i % 32))];
  }

  lemma {:induction false} RequiredInRange(d: Desc, p: nat)
    requires p < |d.fields| && d.fields[p].htype.REQUIRED?
    ensures RequiredBefore(d, p) < RequiredBefore(d, |d.fields|)
  {
    var q := p + 1;
    while q < |d.fields|
      invariant p < q <= |d.fields| && RequiredBefore(d, p) < RequiredBefore(d, q)
    {
      q := q + 1;
    }
  }

  ghost predicate AllMembers(w: seq<nat>, count: nat)
    requires |w| == 2
  {
    forall i: nat :: i < count && i < PB_MAX_REQUIRED_FIELDS ==> i in Members(w, 64)
  }

  /** The end of pb_decode_noinit: count the required entries by walking to the
      end of the table from wherever the cursor is, then test the bits. */
  method CheckRequired(iter: FieldIter, w: array<nat>) returns (ok: bool)
    requires iter.Valid() && w.Length == 2 && WordPair(w[..])
    requires forall i :: i in Members(w[..], 64) ==> i < RequiredBefore(iter.desc, |iter.desc.fields|)
    modifies iter
    ensures ok <==> AllMembers(w[..], RequiredBefore(iter.desc, |iter.desc.fields|))
  {
    ghost var d := iter.desc;
    var n, last := iter.requiredFieldIndex, iter.pos;
    while true
      invariant iter.Valid() && (d.fields != [] ==> iter.pos < |d.fields|)
      invariant w[..] == old(w[..])
      decreases |d.fields| - iter.pos
    {
      n, last := iter.requiredFieldIndex, iter.pos;
      var more := iter.Next();
      if !more { break; }
    }
    // Fixup if the last entry was also required.
    if iter.desc.fields != [] && iter.desc.fields[last].htype.REQUIRED? { n := n + 1; }
    assert n == RequiredBefore(d, |d.fields|);
    if n > PB_MAX_REQUIRED_FIELDS { n := PB_MAX_REQUIRED_FIELDS; }
    WordTestExact(w[..], n);
    FirstMembers(w[..], RequiredBefore(d, |d.fields|), n);
    ok := TestWords(w, n);
  }

  lemma FirstMembers(w: seq<nat>, count: nat, n: nat)
    requires |w| == 2 && n == if count > PB_MAX_REQUIRED_FIELDS then PB_MAX_REQUIRED_FIELDS else count
    ensures Contains(w, 0, n) <==> AllMembers(w, count)
  {
    if AllMembers(w, count) {
      forall i: nat | i < n ensures i in Members(w, 64) {}
    }
    if Contains(w, 0, n) {
      forall i: nat | i < count && i < PB_MAX_REQUIRED_FIELDS ensures i in Members(w, 64) {}
    }
  }

  method TestWords(w: array<nat>, n: nat) returns (ok: bool)
    requires w.Length == 2 && n <= 64
    ensures ok <==> WordTest(w[..], n)
  {
    hide Ones, Shr;
    var i := 0;
    while i < n / 32
      invariant 0 <= i <= n / 32
      invariant forall j :: 0 <= j < i ==> w[..][j] == Ones(32)
    {
      if w[i] != Ones(32) {
        assert w[..][i] != Ones(32);
        return false;
      }
      i := i + 1;
    }
    if n % 32 != 0 {
      if w[n / 32] != Shr(Ones(32), 32 - n % 32) { return false; }
    }
    return true;
  }

  /** Bytes overflow, string overflow, incorrect fixed length bytes size. */
  predicate SizeRefused(f: Field, size: nat) {
    if f.ltype.BYTES? then size + BYTES_OFFSET > f.dataSize
    else if f.ltype.STRING? then size + 1 > f.dataSize
    else size != 0 && size != f.dataSize
  }

  /** `(intN_t)x` for N = 8n. */
  function SignedCast(x: int, n: nat): int
    requires VarSize(n)
  {
    if n == 1 then (x + 128) % 256 - 128
    else if n == 2 then (x + 0x8000) % 0x1_0000 - 0x8000
    else if n == 4 then (x + B31) % B32 - B31
    else (x + B63) % B64 - B63
  }

  /** `(uintN_t)x` for N = 8n. */
  function UnsignedCast(x: int, n: nat): int
    requires VarSize(n)
  {
    if n == 1 then x % 256 else if n == 2 then x % 0x1_0000 else if n == 4 then x % B32 else x % B64
  }

  /** What is cast to the member: the varint as it is, zigzag-decoded, or
      sign-extended from 64 bits or from its low 32. */
  function SourceValue(f: Field, u: nat): (n: int)
    requires VarSize(f.dataSize)
    ensures n == FromWord(f, u)
  {
    if f.ltype.UVARINT? then u
    else if f.ltype.SVARINT? then UnZigZag(u)
    else if f.dataSize == 8 then (if u < B63 then u else u - B64)
    else SignedCast(u, 4)
  }

  /** A cast to the member's type keeps exactly the values the member can hold. */
  lemma CastKeeps(f: Field, n: int)
    requires VarSize(f.dataSize) && (f.ltype.VARINT? || f.ltype.UVARINT? || f.ltype.SVARINT?)
    ensures (if f.ltype.UVARINT? then UnsignedCast(n, f.dataSize) else SignedCast(n, f.dataSize)) == n <==> InRange(f, n)
  {}
}
