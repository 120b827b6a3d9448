/** The encoder as it runs: an output stream that is written in place, or that
    only counts, and the submessage that is encoded twice. */
module PbEncoder {
  import opened Wrappers
  import opened Words
  import opened PbWire
  import opened PbKeys
  import opened PbMessages
  import opened PbEncodeSpec
  import opened PbIter

  datatype Error = NoError | StreamFull | ArrayMaxSizeExceeded | BytesSizeExceeded
                 | InvalidDataSize | InvalidFieldType | SubmsgSizeChanged

  /** What a stream has done so far. A window of `max` bytes, of which `written`
      are used, is open at `at`; a sizing stream has no window and only counts. */
  datatype Snap = Snap(sizing: bool, max: nat, bytes: seq<byte>, at: nat, written: nat) {
    ghost predicate Valid() {
      !sizing ==> written <= max && at + (max - written) <= |bytes|
    }

    /** Whether `n` more bytes go in. */
    ghost predicate Fits(n: nat) {
      sizing || written + n <= max
    }

    /** The stream after `e` has been appended. */
    ghost function After(e: seq<byte>): Snap
      requires Valid() && Fits(|e|)
    {
      if sizing then this.(written := written + |e|)
      else Snap(sizing, max, bytes[..at] + e + bytes[at + |e|..], at + |e|, written + |e|)
    }

    /** Nothing outside the window has changed. */
    ghost predicate Within(s: Snap)
      requires Valid()
    {
      && s.Valid() && s.sizing == sizing && s.max == max && |s.bytes| == |bytes|
      && (sizing ==> s.bytes == bytes)
      && (!sizing ==>
            && at <= s.at && s.at - at == s.written - written
            && s.bytes[..at] == bytes[..at]
            && s.bytes[at + (max - written)..] == bytes[at + (max - written)..])
    }

    /** What every writing method promises about the encoding `e`: it succeeds
        exactly when there is one and it fits, and has then appended just that;
        in any case it stays within the window. */
    ghost predicate Appends(s: Snap, ok: bool, e: Option<seq<byte>>) {
      && Valid()
      && Within(s)
      && (ok <==> e.Some? && Fits(|e.value|))
      && (ok ==> s == After(e.value))
    }
  }

  function Concat(a: Option<seq<byte>>, b: Option<seq<byte>>): Option<seq<byte>> {
    if a.None? || b.None? then None else Some(a.value + b.value)
  }

  lemma WithinTrans(s0: Snap, s1: Snap, s2: Snap)
    requires s0.Valid() && s0.Within(s1) && s1.Within(s2)
    ensures s0.Within(s2)
  {
    if !s0.sizing {
      assert s2.bytes[..s0.at] == s2.bytes[..s1.at][..s0.at] == s0.bytes[..s0.at];
      assert s1.at + (s1.max - s1.written) == s0.at + (s0.max - s0.written);
    }
  }

  lemma AfterThen(s0: Snap, a: seq<byte>, b: seq<byte>)
    requires s0.Valid() && s0.Fits(|a|) && s0.After(a).Fits(|b|)
    ensures s0.After(a).Valid() && s0.Fits(|a + b|) && s0.After(a).After(b) == s0.After(a + b)
  {
    if !s0.sizing {
      var s1 := s0.After(a);
      assert s1.bytes[..s1.at] == s0.bytes[..s0.at] + a;
      assert s1.bytes[s1.at + |b|..] == s0.bytes[s1.at + |b|..];
      assert s1.After(b).bytes == s0.After(a + b).bytes;
    }
  }

  lemma AppendsThen(s0: Snap, s1: Snap, s2: Snap, a: Option<seq<byte>>, ok: bool, b: Option<seq<byte>>)
    requires s0.Appends(s1, true, a) && s1.Appends(s2, ok, b)
    ensures s0.Appends(s2, ok, Concat(a, b))
  {
    WithinTrans(s0, s1, s2);
    if ok { AfterThen(s0, a.value, b.value); }
  }

  lemma AppendsFails(s0: Snap, s1: Snap, a: Option<seq<byte>>, b: Option<seq<byte>>)
    requires s0.Appends(s1, false, a)
    ensures s0.Appends(s1, false, Concat(a, b))
  {}

  /** One round of a loop that appends the parts of `all`: `done` so far, then
      `e`, then `rest`. */
  lemma AppendsPart(s0: Snap, s1: Snap, s2: Snap, done: seq<byte>, ok: bool,
                    e: Option<seq<byte>>, rest: Option<seq<byte>>, all: Option<seq<byte>>)
    requires s0.Appends(s1, true, Some(done)) && s1.Appends(s2, ok, e)
    requires Concat(Some(done), Concat(e, rest)) == all
    ensures !ok ==> s0.Appends(s2, false, all)
    ensures ok ==> e.Some? && s0.Appends(s2, true, Some(done + e.value))
                   && Concat(Some(done + e.value), rest) == all
  {
    AppendsThen(s0, s1, s2, Some(done), ok, e);
    ConcatAssoc(Some(done), e, rest);
    if !ok { AppendsFails(s0, s2, Concat(Some(done), e), rest); }
  }

  lemma AppendsNothing(s: Snap)
    requires s.Valid()
    ensures s.Appends(s, true, Some([]))
  {
    if !s.sizing { assert s.bytes[..s.at] + [] + s.bytes[s.at..] == s.bytes; }
  }

  class OStream {
    const sizing: bool          // no callback: a stream that only counts
    const buf: array<byte>      // shared by a stream and its substreams
    const maxSize: nat
    var state: nat              // where the next byte goes
    var bytesWritten: nat
    var errmsg: Error

    ghost function Now(): Snap
      reads this, buf
    {
      Snap(sizing, maxSize, buf[..], state, bytesWritten)
    }

    /** Besides the window: a submessage never changes its size. */
    ghost predicate Valid()
      reads this, buf
    {
      Now().Valid() && errmsg != SubmsgSizeChanged
    }

    constructor Sizing()
      ensures Valid() && sizing && bytesWritten == 0 && fresh(buf)
    {
      sizing, maxSize, state, bytesWritten, errmsg := true, 0, 0, 0, NoError;
      buf := new byte[0];
    }

    constructor FromBuffer(b: array<byte>, start: nat, max: nat)
      requires start + max <= b.Length
      ensures Valid() && Now() == Snap(false, max, b[..], start, 0) && buf == b
    {
      sizing, buf, maxSize, state, bytesWritten, errmsg := false, b, max, start, 0, NoError;
    }

    method SetError(e: Error)
      requires Valid() && e != SubmsgSizeChanged
      modifies this`errmsg
      ensures Valid()
    {
      errmsg := if errmsg == NoError then e else errmsg;
    }

    /** buf_write. */
    method BufWrite(data: seq<byte>)
      requires state + |data| <= buf.Length
      modifies this`state, buf
      ensures state == old(state) + |data|
      ensures buf[..] == old(buf[..])[..old(state)] + data + old(buf[..])[state..]
    {
      var dest := state;
      state := dest + |data|;
      ghost var before := buf[..];
      var i := 0;
      while i < |data|
        modifies buf
        invariant i <= |data|
        invariant forall k :: 0 <= k < i ==> buf[dest + k] == data[k]
        invariant forall k :: 0 <= k < buf.Length && !(dest <= k < dest + i) ==> buf[k] == before[k]
      {
        buf[dest + i] := data[i];
        i := i + 1;
      }
      assert buf[..] == before[..dest] + data + before[state..];
    }

    /** pb_write. */
    method Write(data: seq<byte>) returns (ok: bool)
      requires Valid()
      modifies this, buf
      ensures Valid() && old(Now()).Appends(Now(), ok, Some(data))
    {
      if !sizing {
        if bytesWritten + |data| > maxSize {
          SetError(StreamFull);
          return false;
        }
        BufWrite(data);
      }
      bytesWritten := bytesWritten + |data|;
      assert old(Now()).After(data) == Now();
      return true;
    }

    /** pb_write with a null buffer: only on a sizing stream. */
    method WriteSize(n: nat, ghost data: seq<byte>) returns (ok: bool)
      requires Valid() && sizing && n == |data|
      modifies this
      ensures Valid() && old(Now()).Appends(Now(), ok, Some(data))
    {
      bytesWritten := bytesWritten + n;
      return true;
    }

    /** pb_encode_varint. */
    method EncodeVarint(value: nat) returns (ok: bool)
      requires Valid() && value < B64
      modifies this, buf
      ensures Valid() && old(Now()).Appends(Now(), ok, Some(Varint(value)))
    {
      if value <= 0x7F {
        ok := Write([value]);
      } else {
        var buffer := new byte[10];
        var i := FillVarint(buffer, value);
        ok := Write(buffer[..i]);
      }
    }

    /** pb_encode_tag and pb_encode_tag_for_field. */
    method EncodeTag(wt: nat, tag: nat) returns (ok: bool)
      requires Valid() && wt < 8 && tag < B32
      modifies this, buf
      ensures Valid() && old(Now()).Appends(Now(), ok, Some(EncKey(tag, wt)))
    {
      ok := EncodeVarint(tag * 8 + wt);
    }

    /** pb_encode_string. */
    method EncodeString(b: seq<byte>) returns (ok: bool)
      requires Valid() && |b| < B64
      modifies this, buf
      ensures Valid() && old(Now()).Appends(Now(), ok, Some(EncString(b)))
    {
      ghost var s0 := Now();
      ok := EncodeVarint(|b|);
      ghost var s1 := Now();
      if ok {
        ok := Write(b);
        AppendsThen(s0, s1, Now(), Some(Varint(|b|)), ok, Some(b));
      } else {
        AppendsFails(s0, s1, Some(Varint(|b|)), Some(b));
      }
    }

    /** pb_enc_varint, pb_enc_uvarint, pb_enc_svarint, pb_enc_fixed32, pb_enc_fixed64. */
    method EncodeNum(f: Field, n: int) returns (ok: bool)
      requires Valid()
      modifies this, buf
      ensures Valid() && old(Now()).Appends(Now(), ok, EncNum(f, n))
    {
      if !InRange(f, n) {
        SetError(InvalidDataSize);
        return false;
      }
      if f.ltype.SVARINT? {
        ok := EncodeVarint(ZigZag(n));
      } else if f.ltype.FIXED32? {
        ok := Write(Le(n, 4));
      } else if f.ltype.FIXED64? {
        ok := Write(Le(n, 8));
      } else {
        ok := EncodeVarint(if n < 0 then n + B64 else n);
      }
    }

    /** pb_enc_bytes, pb_enc_string, pb_enc_fixed_length_bytes: bytes must fit their
        field, a string goes up to its NUL or the end of the field, and bytes of fixed
        length are as many as the field has. */
    method EncodeBlob(f: Field, b: seq<byte>) returns (ok: bool)
      requires Valid() && f.dataSize <= PB_SIZE_MAX
      modifies this, buf
      ensures Valid() && old(Now()).Appends(Now(), ok, EncBlob(f, b))
    {
      if f.ltype.BYTES? {
        if |b| + BYTES_OFFSET > f.dataSize {
          SetError(BytesSizeExceeded);
          return false;
        }
        ok := EncodeString(b);
      } else if f.ltype.STRING? {
        var size := StringLength(b, f.dataSize);
        ok := EncodeString(b[..size]);
      } else if f.ltype.FIXED_LENGTH_BYTES? && |b| == f.dataSize {
        ok := EncodeString(b);
      } else {
        SetError(InvalidFieldType);
        return false;
      }
    }

    /** pb_encode_submessage: first sized, then written into a window of that size. */
    method EncodeSubmessage(d: Desc, m: seq<Slot>) returns (ok: bool)
      requires Valid() && WellFormed(d) && |m| == |d.fields| && MsgSized(d, m) && Sized(EncMsg(d, m))
      modifies this, buf
      ensures Valid()
      ensures old(Now()).Appends(Now(), ok, if EncMsg(d, m).None? then None else Some(EncString(EncMsg(d, m).value)))
      decreases d, 5
    {
      var substream := new OStream.Sizing();
      var sized := substream.Encode(d, m);
      if !sized {
        errmsg := substream.errmsg;
        return false;
      }
      ghost var e := EncMsg(d, m).value;
      var size := substream.bytesWritten;
      ghost var s0 := Now();
      ok := EncodeVarint(size);
      ghost var s1 := Now();
      if !ok {
        AppendsFails(s0, s1, Some(Varint(|e|)), Some(e));
        return;
      }
      if sizing {
        ok := WriteSize(size, e);
      } else {
        ok := WriteWindow(d, m, size);
      }
      AppendsThen(s0, s1, Now(), Some(Varint(|e|)), ok, Some(e));
    }

    /** The second pass of pb_encode_submessage. */
    method WriteWindow(d: Desc, m: seq<Slot>, size: nat) returns (ok: bool)
      requires Valid() && !sizing && WellFormed(d) && |m| == |d.fields| && MsgSized(d, m)
      requires EncMsg(d, m).Some? && size == |EncMsg(d, m).value|
      modifies this, buf
      ensures Valid() && old(Now()).Appends(Now(), ok, EncMsg(d, m))
      decreases d, 4
    {
      if bytesWritten + size > maxSize {
        SetError(StreamFull);
        return false;
      }
      ghost var s := Now();
      var window := new OStream.FromBuffer(buf, state, size);
      ghost var w0 := window.Now();
      var status := window.Encode(d, m);
      SubstreamDone(s, w0, window.Now(), EncMsg(d, m).value);
      bytesWritten := bytesWritten + window.bytesWritten;
      state := window.state;
      var changed, err := window.bytesWritten != size, window.errmsg;
      errmsg := if changed && err == NoError then SubmsgSizeChanged else err;
      ok := status && !changed;
    }

    /** PB_ENCODERS. */
    method EncodeValue(f: Field, v: Value) returns (ok: bool)
      requires Valid() && FieldWellFormed(f) && ValueSized(f, v)
      modifies this, buf
      ensures Valid() && old(Now()).Appends(Now(), ok, EncValue(f, v))
      decreases f, 0
    {
      match v
      case Num(n) => ok := EncodeNum(f, n);
      case Blob(b) => ok := EncodeBlob(f, b);
      case Msg(slots) =>
        if !f.ltype.SUBMESSAGE? || |slots| != |f.sub.fields| {
          SetError(InvalidFieldType);
          return false;
        }
        ok := EncodeSubmessage(f.sub, slots);
    }

    method EncodeRecord(f: Field, v: Value) returns (ok: bool)
      requires Valid() && FieldWellFormed(f) && ValueSized(f, v)
      modifies this, buf
      ensures Valid() && old(Now()).Appends(Now(), ok, EncRecord(f, v))
      decreases f, 1
    {
      ghost var s0 := Now();
      ghost var key := Some(EncKey(f.tag, WireType(f.ltype)));
      ok := EncodeTag(WireType(f.ltype), f.tag);
      ghost var s1 := Now();
      if ok {
        ok := EncodeValue(f, v);
        AppendsThen(s0, s1, Now(), key, ok, EncValue(f, v));
      } else {
        AppendsFails(s0, s1, key, EncValue(f, v));
      }
    }

    /** The loop over the elements of a packed array. */
    method EncodePacked(f: Field, items: seq<Value>) returns (ok: bool)
      requires Valid() && FieldWellFormed(f) && forall k :: 0 <= k < |items| ==> ValueSized(f, items[k])
      modifies this, buf
      ensures Valid() && old(Now()).Appends(Now(), ok, EncPacked(f, items, 0))
      decreases f, 2
    {
      hide Snap.Appends, Snap.After, Snap.Within, EncValue, EncRecord, EncBlob, EncNum;
      ghost var s0 := Now();
      ghost var done: seq<byte> := [];
      AppendsNothing(s0);
      ConcatEmpty(EncPacked(f, items, 0));
      var i := 0;
      while i < |items|
        modifies this, buf
        invariant 0 <= i <= |items|
        invariant Valid() && s0.Appends(Now(), true, Some(done))
        invariant Concat(Some(done), EncPacked(f, items, i)) == EncPacked(f, items, 0)
      {
        ghost var s1 := Now();
        ghost var e, rest := EncValue(f, items[i]), EncPacked(f, items, i + 1);
        PackedConcat(f, items, i);
        ok := EncodeValue(f, items[i]);
        AppendsPart(s0, s1, Now(), done, ok, e, rest, EncPacked(f, items, 0));
        if !ok { return; }
        done := done + e.value;
        i := i + 1;
      }
      ConcatEmpty(Some(done));
      return true;
    }

    /** The loop over the elements of an array that cannot be packed. */
    method EncodeRecords(f: Field, items: seq<Value>) returns (ok: bool)
      requires Valid() && FieldWellFormed(f) && forall k :: 0 <= k < |items| ==> ValueSized(f, items[k])
      modifies this, buf
      ensures Valid() && old(Now()).Appends(Now(), ok, EncRecords(f, items, 0))
      decreases f, 2
    {
      hide Snap.Appends, Snap.After, Snap.Within, EncValue, EncRecord, EncBlob, EncNum;
      ghost var s0 := Now();
      ghost var done: seq<byte> := [];
      AppendsNothing(s0);
      ConcatEmpty(EncRecords(f, items, 0));
      var i := 0;
      while i < |items|
        modifies this, buf
        invariant 0 <= i <= |items|
        invariant Valid() && s0.Appends(Now(), true, Some(done))
        invariant Concat(Some(done), EncRecords(f, items, i)) == EncRecords(f, items, 0)
      {
        ghost var s1 := Now();
        ghost var e, rest := EncRecord(f, items[i]), EncRecords(f, items, i + 1);
        PackedConcat(f, items, i);
        ok := EncodeRecord(f, items[i]);
        AppendsPart(s0, s1, Now(), done, ok, e, rest, EncRecords(f, items, 0));
        if !ok { return; }
        done := done + e.value;
        i := i + 1;
      }
      ConcatEmpty(Some(done));
      return true;
    }

    /** The size of a packed array: computed for fixed-width types, else counted
        by a sizing stream. */
    static method PackedSize(f: Field, items: seq<Value>) returns (ok: bool, size: nat)
      requires FieldWellFormed(f) && ItemsSized(f, items) && Packable(f.ltype)
      ensures ok <==> EncPacked(f, items, 0).Some?
      ensures ok ==> size == |EncPacked(f, items, 0).value|
      decreases f, 3
    {
      if f.ltype.FIXED32? {
        FixedPacked(f, items, 0);
        return true, 4 * |items|;
      } else if f.ltype.FIXED64? {
        FixedPacked(f, items, 0);
        return true, 8 * |items|;
      }
      var sizestream := new OStream.Sizing();
      ok := sizestream.EncodePacked(f, items);
      size := sizestream.bytesWritten;
    }

    /** The payload of a packed array behind its size. */
    method EncodePackedString(f: Field, items: seq<Value>) returns (ok: bool)
      requires Valid() && FieldWellFormed(f) && ItemsSized(f, items) && Packable(f.ltype)
      modifies this, buf
      ensures Valid()
      ensures var e := EncPacked(f, items, 0);
              old(Now()).Appends(Now(), ok, if e.None? then None else Some(EncString(e.value)))
      decreases f, 4
    {
      ghost var e := EncPacked(f, items, 0);
      var sized, size := PackedSize(f, items);
      if !sized { return false; }
      ghost var s0 := Now();
      ok := EncodeVarint(size);
      ghost var s1 := Now();
      if !ok {
        AppendsFails(s0, s1, Some(Varint(size)), e);
        return;
      }
      if sizing {
        ok := WriteSize(size, e.value);
      } else {
        ok := EncodePacked(f, items);
      }
      AppendsThen(s0, s1, Now(), Some(Varint(size)), ok, e);
    }

    /** encode_array. */
    method EncodeArray(f: Field, items: seq<Value>) returns (ok: bool)
      requires Valid() && FieldWellFormed(f) && ItemsSized(f, items)
      modifies this, buf
      ensures Valid() && old(Now()).Appends(Now(), ok, EncArray(f, items))
      decreases f, 5
    {
      if |items| == 0 {
        AppendsNothing(Now());
        return true;
      }
      if |items| > f.arraySize {
        SetError(ArrayMaxSizeExceeded);
        return false;
      }
      if !Packable(f.ltype) {
        ok := EncodeRecords(f, items);
        return;
      }
      ghost var s0 := Now();
      ghost var e := EncPacked(f, items, 0);
      ghost var payload := if e.None? then None else Some(EncString(e.value));
      ok := EncodeTag(WT_STRING, f.tag);
      ghost var s1 := Now();
      if ok {
        ok := EncodePackedString(f, items);
        AppendsThen(s0, s1, Now(), Some(EncKey(f.tag, WT_STRING)), ok, payload);
      } else {
        AppendsFails(s0, s1, Some(EncKey(f.tag, WT_STRING)), payload);
      }
    }

    /** encode_basic_field. */
    method EncodeBasicField(d: Desc, p: nat, m: seq<Slot>) returns (ok: bool)
      requires Valid() && WellFormed(d) && p < |d.fields| == |m| && FieldSized(d, p, m)
      modifies this, buf
      ensures Valid() && old(Now()).Appends(Now(), ok, EncField(d, p, m))
      decreases d, 2
    {
      var f, s := d.fields[p], m[Head(d, p)];
      assert FieldWellFormed(f);
      var present := false;
      match s {
        case Single(v) =>
          if f.htype.OPTIONAL? && f.sizeOffset == 0 {
            var zero := CheckProto3DefaultValue(f, v);
            present := !zero;
          } else if f.htype.REQUIRED? {
            present := true;
          } else {
            SetError(InvalidFieldType);
            return false;
          }
        case Optional(has, v) =>
          if !HasField(f) { SetError(InvalidFieldType); return false; }
          present := has;
        case Union(which, v) =>
          if !f.htype.ONEOF? { SetError(InvalidFieldType); return false; }
          present := which == f.tag;
        case Array(items) =>
          if !f.htype.REPEATED? { SetError(InvalidFieldType); return false; }
          ok := EncodeArray(f, items);
          return;
        case Shared =>
          SetError(InvalidFieldType);
          return false;
      }
      if present {
        ok := EncodeRecord(f, s.v);
      } else {
        AppendsNothing(Now());
        ok := true;
      }
    }

    /** pb_encode. */
    method Encode(d: Desc, m: seq<Slot>) returns (ok: bool)
      requires Valid() && WellFormed(d) && |m| == |d.fields| && MsgSized(d, m)
      modifies this, buf
      ensures Valid() && old(Now()).Appends(Now(), ok, EncMsg(d, m))
      decreases d, 3
    {
      hide Snap.Appends, Snap.After, Snap.Within, EncField;
      ghost var s0 := Now();
      ghost var done: seq<byte> := [];
      AppendsNothing(s0);
      ConcatEmpty(EncMsg(d, m));
      var iter := new FieldIter(d, 0);
      if d.fields == [] { return true; }  // empty message type
      while true
        modifies this, buf, iter
        invariant iter.Valid() && iter.desc == d
        invariant Valid() && s0.Appends(Now(), true, Some(done))
        invariant Concat(Some(done), EncFrom(d, m, iter.pos)) == EncMsg(d, m)
        decreases |d.fields| - iter.pos
      {
        ghost var p := iter.pos;
        ghost var s1 := Now();
        ghost var e, rest := EncField(d, p, m), EncFrom(d, m, p + 1);
        FromConcat(d, m, p);
        ok := EncodeBasicField(d, iter.pos, m);
        AppendsPart(s0, s1, Now(), done, ok, e, rest, EncMsg(d, m));
        if !ok { return; }
        done := done + e.value;
        var more := iter.Next();
        if !more {
          ConcatEmpty(Some(done));
          break;
        }
      }
    }
  }

  /** pb_check_proto3_default_value on a proto3 value. */
  method CheckProto3DefaultValue(f: Field, v: Value) returns (zero: bool)
    ensures zero == IsZeroValue(f, v)
    decreases f, 0
  {
    match v
    case Num(n) => return n == 0;
    case Blob(b) =>
      if f.ltype.FIXED_LENGTH_BYTES? { return f.dataSize == 0; }
      if f.ltype.STRING? { return b == [] || b[0] == 0; }
      return |b| == 0;
    case Msg(slots) =>
      if |slots| != |f.sub.fields| { return false; }
      var iter := new FieldIter(f.sub, 0);
      if f.sub.fields == [] { return true; }
      while true
        invariant iter.Valid() && iter.desc == f.sub
        invariant forall q :: 0 <= q < iter.pos ==> IsZeroSlot(f.sub, q, slots)
        decreases |slots| - iter.pos
      {
        var slotZero := CheckProto3DefaultSlot(f.sub, iter.pos, slots);
        if !slotZero { return false; }
        ghost var p := iter.pos;
        var more := iter.Next();
        if !more {
          assert p + 1 == |slots| && IsZeroMsg(f.sub, slots);
          return true;
        }
      }
  }

  /** pb_check_proto3_default_value on an entry of a proto3 submessage. */
  method CheckProto3DefaultSlot(d: Desc, p: nat, m: seq<Slot>) returns (zero: bool)
    requires p < |d.fields| == |m|
    ensures zero == IsZeroSlot(d, p, m)
    decreases d, 1
  {
    var f, s := d.fields[p], m[Head(d, p)];
    match f.htype
    case REQUIRED => return false;
    case REPEATED => return s.Array? && |s.items| == 0;
    case ONEOF => return s.Union? && s.which == 0;
    case OPTIONAL =>
      if f.sizeOffset != 0 { return s.Optional? && !s.has; }
      if !s.Single? { return false; }
      zero := CheckProto3DefaultValue(f, s.v);
  }

  /** The loop of pb_enc_string. */
  method StringLength(b: seq<byte>, max: nat) returns (size: nat)
    ensures size <= |b| && b[..size] == CString(b, max)
  {
    ghost var mem := if |b| <= max then b else b[..max];
    size := 0;
    while size < max && size < |b| && b[size] != 0
      invariant size <= |mem| && forall k :: 0 <= k < size ==> mem[k] != 0
    {
      size := size + 1;
    }
    UpToNulIs(mem, size);
  }

  lemma {:induction false} UpToNulIs(b: seq<byte>, n: nat)
    requires n <= |b| && (forall k :: 0 <= k < n ==> b[k] != 0) && (n < |b| ==> b[n] == 0)
    ensures UpToNul(b) == b[..n]
  {
    if n > 0 { UpToNulIs(b[1..], n - 1); }
  }

  /** pb_get_encoded_size. */
  method GetEncodedSize(d: Desc, m: seq<Slot>) returns (ok: bool, size: nat)
    requires WellFormed(d) && |m| == |d.fields| && MsgSized(d, m)
    ensures ok <==> EncMsg(d, m).Some?
    ensures ok ==> size == |EncMsg(d, m).value|
  {
    var stream := new OStream.Sizing();
    ok := stream.Encode(d, m);
    size := stream.bytesWritten;
  }

  /** pb_encode into a buffer of the caller: it succeeds exactly when the buffer
      has room for the size that pb_get_encoded_size reports, and then fills just
      that many bytes. */
  method EncodeToBuffer(b: array<byte>, d: Desc, m: seq<Slot>) returns (ok: bool, written: nat, err: Error)
    requires WellFormed(d) && |m| == |d.fields| && MsgSized(d, m)
    modifies b
    ensures ok <==> EncMsg(d, m).Some? && |EncMsg(d, m).value| <= b.Length
    ensures ok ==> written == |EncMsg(d, m).value|
                   && b[..] == EncMsg(d, m).value + old(b[..])[written..]
    ensures err != SubmsgSizeChanged
  {
    var stream := new OStream.FromBuffer(b, 0, b.Length);
    ok := stream.Encode(d, m);
    written, err := stream.bytesWritten, stream.errmsg;
  }

  /** A size that size_t holds. */
  predicate Sized(e: Option<seq<byte>>) {
    e.Some? ==> |e.value| < B64
  }

  /** Every length prefix that is written for a value is counted by size_t, and the
      elements of fixed-width arrays are words of that width. */
  ghost predicate ValueSized(f: Field, v: Value)
    decreases f, 0
  {
    v.Msg? && |v.slots| == |f.sub.fields| ==> MsgSized(f.sub, v.slots) && Sized(EncMsg(f.sub, v.slots))
  }

  ghost predicate ItemsSized(f: Field, items: seq<Value>)
    decreases f, 1
  {
    && (forall k :: 0 <= k < |items| ==> ValueSized(f, items[k]))
    && (Packable(f.ltype) ==> Sized(EncPacked(f, items, 0)))
    && (f.ltype.FIXED32? || f.ltype.FIXED64? ==> EncPacked(f, items, 0).Some?)
  }

  ghost predicate FieldSized(d: Desc, p: nat, m: seq<Slot>)
    requires p < |d.fields| == |m|
    decreases d, 0
  {
    var f := d.fields[p];
    match m[Head(d, p)]
    case Shared => true
    case Array(items) => ItemsSized(f, items)
    case Single(v) => (f.htype.OPTIONAL? && IsZeroValue(f, v)) || ValueSized(f, v)
    case Optional(has, v) => has ==> ValueSized(f, v)
    case Union(which, v) => which == f.tag ==> ValueSized(f, v)
  }

  ghost predicate MsgSized(d: Desc, m: seq<Slot>)
    requires |m| == |d.fields|
    decreases d, 1
  {
    forall p :: 0 <= p < |m| ==> FieldSized(d, p, m)
  }

  lemma ConcatEmpty(a: Option<seq<byte>>)
    ensures Concat(Some([]), a) == a && Concat(a, Some([])) == a
  {
    if a.Some? { assert [] + a.value == a.value == a.value + []; }
  }

  lemma ConcatAssoc(a: Option<seq<byte>>, b: Option<seq<byte>>, c: Option<seq<byte>>)
    ensures Concat(Concat(a, b), c) == Concat(a, Concat(b, c))
  {
    if a.Some? && b.Some? && c.Some? {
      assert a.value + b.value + c.value == a.value + (b.value + c.value);
    }
  }

  lemma {:induction false} FixedPacked(f: Field, items: seq<Value>, k: nat)
    requires k <= |items| && EncPacked(f, items, k).Some?
    ensures f.ltype.FIXED32? ==> |EncPacked(f, items, k).value| == 4 * (|items| - k)
    ensures f.ltype.FIXED64? ==> |EncPacked(f, items, k).value| == 8 * (|items| - k)
    decreases |items| - k
  {
    if k < |items| { FixedPacked(f, items, k + 1); }
  }

  lemma FromConcat(d: Desc, m: seq<Slot>, p: nat)
    requires p < |d.fields| == |m|
    ensures EncFrom(d, m, p) == Concat(EncField(d, p, m), EncFrom(d, m, p + 1))
  {}

  lemma PackedConcat(f: Field, items: seq<Value>, k: nat)
    requires k < |items|
    ensures EncPacked(f, items, k) == Concat(EncValue(f, items[k]), EncPacked(f, items, k + 1))
    ensures EncRecords(f, items, k) == Concat(EncRecord(f, items[k]), EncRecords(f, items, k + 1))
  {}

  /** A substream that used up its window has done the parent's writing. */
  lemma SubstreamDone(s: Snap, w0: Snap, w1: Snap, e: seq<byte>)
    requires s.Valid() && !s.sizing && s.Fits(|e|)
    requires w0 == Snap(false, |e|, s.bytes, s.at, 0)
    requires w0.Appends(w1, true, Some(e))
    ensures w1.written == |e|
    ensures s.Appends(Snap(false, s.max, w1.bytes, w1.at, s.written + w1.written), true, Some(e))
  {
    var s1 := Snap(false, s.max, w1.bytes, w1.at, s.written + w1.written);
    assert s1 == s.After(e);
    assert s1.bytes[..s.at] == s.bytes[..s.at];
    var end := s.at + (s.max - s.written);
    assert s1.bytes[end..] == s.bytes[end..];
  }

  /** The loop of pb_encode_varint over its ten-byte buffer. */
  method FillVarint(buffer: array<byte>, value: nat) returns (i: nat)
    requires buffer.Length == 10 && 0 < value < B64
    modifies buffer
    ensures i <= 10 && buffer[..i] == Varint(value)
  {
    ghost var all := Varint(value);
    VarintRoundTrip(value, []);
    i := 0;
    var v := value;
    while v != 0
      invariant 0 <= i <= |all| && 0 <= v
      invariant v > 0 ==> all[i..] == Varint(v)
      invariant v == 0 ==> i == |all| && buffer[i - 1] as int == all[i - 1] as int + 128
      invariant forall k :: 0 <= k < i && (v == 0 ==> k < i - 1) ==> buffer[k] == all[k]
      decreases v
    {
      assert all[i] == Varint(v)[0];
      assert all[i..][1..] == all[i + 1..];
      buffer[i] := v % 128 + 128;
      v := v / 128;
      i := i + 1;
    }
    buffer[i - 1] := buffer[i - 1] - 128;
  }
}
