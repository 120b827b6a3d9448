/** Records carry their wire type, so that a reader which does not know a field can
    pass over it. */
module PbSkip {
  import opened Wrappers
  import opened Words
  import opened PbWire
  import opened PbKeys
  import opened PbMessages
  import opened PbEncodeSpec
  import opened PbDecodeSpec
  import opened PbRoundTrip
  import opened PbMerge

  /** The wire types of the standard: 0 for varints, 1 and 5 for words of 8 and 4
      bytes, 2 for what has a length prefix. */
  lemma WireTypes()
    ensures forall l: LType :: WireType(l) == 0 <==> l.VARINT? || l.UVARINT? || l.SVARINT?
    ensures forall l: LType :: WireType(l) == 1 <==> l.FIXED64?
    ensures forall l: LType :: WireType(l) == 2 <==> l.BYTES? || l.STRING? || l.SUBMESSAGE? || l.FIXED_LENGTH_BYTES?
    ensures forall l: LType :: WireType(l) == 5 <==> l.FIXED32?
  {}

  /** What each wire type says to skip. */
  lemma SkipByWireType(bs: seq<byte>)
    ensures Skip(0, bs) == SkipVarint(bs)
    ensures Skip(1, bs) == if |bs| < 8 then Fail else Ok((), bs[8..])
    ensures Skip(2, bs) == Void(DecString(bs))
    ensures Skip(5, bs) == if |bs| < 4 then Fail else Ok((), bs[4..])
    ensures forall wt :: wt != 0 && wt != 1 && wt != 2 && wt != 5 ==> Skip(wt, bs) == Fail
  {}

  /** The length prefix of the value fits in 32 bits. */
  predicate Short(f: Field, v: Value) {
    f.ltype.SUBMESSAGE? && v.Msg? && |v.slots| == |f.sub.fields| && EncMsg(f.sub, v.slots).Some? ==>
      |EncMsg(f.sub, v.slots).value| < B32
  }

  lemma SkipsWord(n: nat, k: nat, rest: seq<byte>)
    ensures Take(k, Le(n, k) + rest) == Ok(Le(n, k), rest)
  {
    assert (Le(n, k) + rest)[..k] == Le(n, k) && (Le(n, k) + rest)[k..] == rest;
  }

  lemma NumSkipped(f: Field, n: int, rest: seq<byte>)
    requires ValueTyped(f, Num(n)) && EncNum(f, n).Some?
    ensures Skip(WireType(f.ltype), EncNum(f, n).value + rest) == Ok((), rest)
  {
    hide SkipVarint;
    SkipByWireType(EncNum(f, n).value + rest);
    if f.ltype.FIXED32? {
      SkipsWord(n, 4, rest);
    } else if f.ltype.FIXED64? {
      SkipsWord(n, 8, rest);
    } else {
      SkipsVarint(if f.ltype.SVARINT? then ZigZag(n) else if n < 0 then n + B64 else n, rest);
    }
  }

  lemma StringSkipped(payload: seq<byte>, rest: seq<byte>)
    requires |payload| < B63
    ensures Skip(2, EncString(payload) + rest) == if |payload| < B32 then Ok((), rest) else Fail
  {
    StringRoundTrip(payload, rest);
    hide DecString, EncString;
    SkipByWireType(EncString(payload) + rest);
  }

  lemma BlobSkipped(f: Field, b: seq<byte>, rest: seq<byte>)
    requires f.dataSize <= PB_SIZE_MAX && ValueTyped(f, Blob(b))
    ensures EncBlob(f, b).Some? && Skip(WireType(f.ltype), EncBlob(f, b).value + rest) == Ok((), rest)
  {
    StoreRoundTrip(f, b);
    StringSkipped(b, rest);
  }

  /** Skipping by the wire type of its field consumes exactly the value, if its
      length prefix fits in 32 bits, and is refused otherwise. */
  lemma ValueSkipped(f: Field, v: Value, rest: seq<byte>)
    requires FieldWellFormed(f) && ValueTyped(f, v)
    requires EncValue(f, v).Some? && |EncValue(f, v).value| < B63
    ensures Skip(WireType(f.ltype), EncValue(f, v).value + rest) == if Short(f, v) then Ok((), rest) else Fail
  {
    hide Skip, EncNum, EncBlob, EncMsg, MsgTyped;
    match v
    case Num(n) => NumSkipped(f, n, rest);
    case Blob(b) => BlobSkipped(f, b, rest);
    case Msg(slots) => StringSkipped(EncMsg(f.sub, slots).value, rest);
  }

  // ---- A reader that knows none of the fields ----

  /** No entry of one table has the tag of an entry of the other. */
  predicate Apart(d: Desc, other: Desc) {
    forall p, q :: 0 <= p < |d.fields| && 0 <= q < |other.fields| ==> d.fields[p].tag != other.fields[q].tag
  }

  lemma ApartUnknown(d: Desc, other: Desc, p: nat)
    requires Apart(d, other) && p < |d.fields|
    ensures Find(other, d.fields[p].tag).None?
  {}

  /** One record under an unknown number is passed over, or stops the reader, as its
      wire type says. */
  lemma RecordSkipped(other: Desc, tag: nat, wt: nat, body: seq<byte>, rest: seq<byte>, st: State, fits: bool)
    requires 1 <= tag < 0x2000_0000 && wt < 8 && Find(other, tag).None? && |st.m| == |other.fields|
    requires Skip(wt, body + rest) == if fits then Ok((), rest) else Fail
    ensures DecLoop(other, EncKey(tag, wt) + body + rest, st) == if fits then DecLoop(other, rest, st) else Fail
  {
    hide Skip, DecKey, EncKey, DecLoop, Find;
    KeyRoundTrip(tag, wt, body + rest);
    assert EncKey(tag, wt) + body + rest == EncKey(tag, wt) + (body + rest);
    LoopStep(other, EncKey(tag, wt) + (body + rest), st);
    UnknownIsSkipped(other, tag, wt, body + rest, st);
  }

  lemma UnknownIsSkipped(other: Desc, tag: nat, wt: nat, bs: seq<byte>, st: State)
    requires tag >= 1 && Find(other, tag).None? && |st.m| == |other.fields|
    ensures DecRecord(other, tag, wt, bs, st) == if Skip(wt, bs).Fail? then Fail else Ok(st, Skip(wt, bs).rest)
  {}

  lemma ValueRecordSkipped(d: Desc, other: Desc, p: nat, v: Value, rest: seq<byte>, st: State)
    requires WellFormed(d) && Apart(d, other) && p < |d.fields| && |st.m| == |other.fields|
    requires ValueTyped(d.fields[p], v) && EncRecord(d.fields[p], v).Some? && |EncRecord(d.fields[p], v).value| < B63
    ensures DecLoop(other, EncRecord(d.fields[p], v).value + rest, st) ==
            if Short(d.fields[p], v) then DecLoop(other, rest, st) else Fail
  {
    hide Skip, DecLoop, EncKey, EncValue, ValueTyped;
    var f := d.fields[p];
    assert FieldWellFormed(f);
    ApartUnknown(d, other, p);
    hide FieldWellFormed, Short;
    ValueSkipped(f, v, rest);
    RecordSkipped(other, f.tag, WireType(f.ltype), EncValue(f, v).value, rest, st, Short(f, v));
  }

  predicate AllShort(f: Field, items: seq<Value>, k: nat) {
    forall i :: k <= i < |items| ==> Short(f, items[i])
  }

  lemma {:induction false} RecordsSkipped(d: Desc, other: Desc, p: nat, items: seq<Value>, k: nat, rest: seq<byte>, st: State)
    requires WellFormed(d) && Apart(d, other) && p < |d.fields| && |st.m| == |other.fields| && k <= |items|
    requires forall i :: 0 <= i < |items| ==> ValueTyped(d.fields[p], items[i])
    requires EncRecords(d.fields[p], items, k).Some? && |EncRecords(d.fields[p], items, k).value| < B63
    ensures DecLoop(other, EncRecords(d.fields[p], items, k).value + rest, st) ==
            if AllShort(d.fields[p], items, k) then DecLoop(other, rest, st) else Fail
    decreases |items| - k
  {
    hide DecLoop, EncRecord, ValueTyped, WellFormed, Apart, Short;
    var f := d.fields[p];
    if k == |items| {
      assert [] + rest == rest;
    } else {
      var a, b := EncRecord(f, items[k]).value, EncRecords(f, items, k + 1).value;
      assert a + b + rest == a + (b + rest);
      ValueRecordSkipped(d, other, p, items[k], b + rest, st);
      RecordsSkipped(d, other, p, items, k + 1, rest, st);
    }
  }

  /** The length prefixes that entry `p` writes itself fit in 32 bits. */
  predicate FieldShort(d: Desc, p: nat, m: seq<Slot>)
    requires p < |d.fields| == |m|
  {
    var f := d.fields[p];
    match m[Head(d, p)]
    case Single(v) => (f.htype.OPTIONAL? && IsZeroValue(f, v)) || Short(f, v)
    case Optional(has, v) => has ==> Short(f, v)
    case Union(which, v) => which == f.tag ==> Short(f, v)
    case Array(items) =>
      if Packable(f.ltype) then EncPacked(f, items, 0).Some? ==> |EncPacked(f, items, 0).value| < B32
      else AllShort(f, items, 0)
    case Shared => true
  }

  predicate ShortFrom(d: Desc, m: seq<Slot>, p: nat)
    requires |d.fields| == |m|
  {
    forall q :: p <= q < |m| ==> FieldShort(d, q, m)
  }

  lemma ArraySkipped(d: Desc, other: Desc, p: nat, m: seq<Slot>, items: seq<Value>, rest: seq<byte>, st: State)
    requires WellFormed(d) && Apart(d, other) && p < |d.fields| == |m| && |st.m| == |other.fields|
    requires d.fields[p].htype.REPEATED? && m[p] == Array(items) && |items| <= d.fields[p].arraySize
    requires forall i :: 0 <= i < |items| ==> ValueTyped(d.fields[p], items[i])
    requires EncArray(d.fields[p], items).Some? && |EncArray(d.fields[p], items).value| < B63
    ensures DecLoop(other, EncArray(d.fields[p], items).value + rest, st) ==
            if FieldShort(d, p, m) then DecLoop(other, rest, st) else Fail
  {
    hide DecLoop, ValueTyped, WellFormed, Apart, Short, Skip, EncKey, EncString;
    var f := d.fields[p];
    if items == [] {
      assert [] + rest == rest;
    } else if Packable(f.ltype) {
      var es := EncPacked(f, items, 0).value;
      TagInRange(d, p);
      ApartUnknown(d, other, p);
      StringSkipped(es, rest);
      RecordSkipped(other, f.tag, 2, EncString(es), rest, st, |es| < B32);
    } else {
      RecordsSkipped(d, other, p, items, 0, rest, st);
    }
  }

  lemma TagInRange(d: Desc, p: nat)
    requires WellFormed(d) && p < |d.fields|
    ensures 1 <= d.fields[p].tag < 0x2000_0000
  {
    assert FieldWellFormed(d.fields[p]);
  }

  /** One entry, of whatever kind, is passed over. */
  lemma FieldSkipped(d: Desc, other: Desc, p: nat, m: seq<Slot>, rest: seq<byte>, st: State)
    requires WellFormed(d) && MsgTyped(d, m) && Apart(d, other) && p < |m| && |st.m| == |other.fields|
    requires EncField(d, p, m).Some? && |EncField(d, p, m).value| < B63
    ensures DecLoop(other, EncField(d, p, m).value + rest, st) ==
            if FieldShort(d, p, m) then DecLoop(other, rest, st) else Fail
  {
    hide DecLoop, ValueTyped, WellFormed, Apart, Short, EncRecord, EncArray, EncPacked, AllShort, IsZeroValue;
    var f, h := d.fields[p], Head(d, p);
    var s := m[h];
    assert SlotTyped(d, h, s) && SlotTyped(d, p, m[p]);
    match s
    case Array(items) => ArraySkipped(d, other, p, m, items, rest, st);
    case Single(v) =>
      if f.htype.OPTIONAL? && IsZeroValue(f, v) { assert [] + rest == rest; }
      else { ValueRecordSkipped(d, other, p, v, rest, st); }
    case Optional(has, v) =>
      if has { ValueRecordSkipped(d, other, p, v, rest, st); } else { assert [] + rest == rest; }
    case Union(which, v) =>
      if which == f.tag {
        SelectedTyped(d, h, p, s);
        ValueRecordSkipped(d, other, p, v, rest, st);
      } else {
        assert [] + rest == rest;
      }
    case Shared =>
  }

  lemma SelectedTyped(d: Desc, h: nat, p: nat, s: Slot)
    requires WellFormed(d) && p < |d.fields| && h == Head(d, p) && SlotTyped(d, h, s)
    requires s.Union? && d.fields[p].htype.ONEOF? && s.which == d.fields[p].tag
    ensures ValueTyped(d.fields[p], s.v)
  {
    hide ValueTyped;
    TagInRange(d, p);
    var q :| h <= q < |d.fields| && Selects(d, h, q, s);
    assert q == p;
  }

  lemma {:induction false} FromSkipped(d: Desc, other: Desc, m: seq<Slot>, p: nat, st: State)
    requires WellFormed(d) && MsgTyped(d, m) && Apart(d, other) && p <= |m| && |st.m| == |other.fields|
    requires EncFrom(d, m, p).Some? && |EncFrom(d, m, p).value| < B63
    ensures DecLoop(other, EncFrom(d, m, p).value, st) == if ShortFrom(d, m, p) then Ok(st, []) else Fail
    decreases |m| - p
  {
    hide WellFormed, MsgTyped, Apart, EncField, DecLoop, FieldShort;
    TypedShape(d, m);
    if p == |m| {
      LoopOfNothing(other, st);
    } else {
      var a, b := EncField(d, p, m).value, EncFrom(d, m, p + 1).value;
      FieldSkipped(d, other, p, m, b, st);
      FromSkipped(d, other, m, p + 1, st);
    }
  }

  lemma TypedShape(d: Desc, m: seq<Slot>)
    requires MsgTyped(d, m)
    ensures |m| == |d.fields|
  {}

  lemma LoopOfNothing(d: Desc, st: State)
    requires |st.m| == |d.fields|
    ensures DecLoop(d, [], st) == Ok(st, [])
  {}

  /** A message of fields that the reader does not know changes nothing and is used
      up, for every pair of tables without a common tag. It is refused exactly when
      a length prefix does not fit in 32 bits, or the reader requires a field. */
  lemma UnknownMessageInvisible(d: Desc, m: seq<Slot>, other: Desc, into: seq<Slot>)
    requires WellFormed(d) && MsgTyped(d, m) && Apart(d, other) && |into| == |other.fields|
    requires EncMsg(d, m).Some? && |EncMsg(d, m).value| < B63
    ensures |m| == |d.fields|
    ensures DecNoinit(other, EncMsg(d, m).value, into) ==
            if ShortFrom(d, m, 0) && RequiredBefore(other, |other.fields|) == 0 then Ok(into, []) else Fail
  {
    hide WellFormed, MsgTyped, Apart, DecLoop, FieldShort, EncFrom, RequiredBefore;
    TypedShape(d, m);
    FromSkipped(d, other, m, 0, Start(into));
    assert 0 !in Start(into).seen;
  }

  /** The bytes of an int32 field with number 1 and value 150. */
  lemma OneHundredAndFifty()
    ensures var f := Field(1, VARINT, REQUIRED, 0, 0, 4, 0, Desc([]), None);
            EncMsg(Desc([f]), [Single(Num(150))]) == Some([0x08, 0x96, 0x01])
  {
    var f := Field(1, VARINT, REQUIRED, 0, 0, 4, 0, Desc([]), None);
    var d, m := Desc([f]), [Single(Num(150))];
    assert Varint(1) == [1] && Varint(150) == [0x96] + Varint(1);
    assert InRange(f, 150) && EncNum(f, 150) == Some(Varint(150));
    assert [0x96] + [1] == [0x96, 0x01];
    assert EncValue(f, Num(150)) == Some([0x96, 0x01]);
    assert [0x08] + [0x96, 0x01] == [0x08, 0x96, 0x01] == [0x08, 0x96, 0x01] + [];
    assert EncKey(1, 0) == [0x08];
    assert EncRecord(f, Num(150)) == Some([0x08, 0x96, 0x01]);
    assert EncField(d, 0, m) == Some([0x08, 0x96, 0x01]);
    assert EncFrom(d, m, 1) == Some([]);
    assert EncFrom(d, m, 0) == Some([0x08, 0x96, 0x01]);
  }
}
