/** Memory safety of decoding: whatever bytes arrive, what is stored fits the
    members of the struct. */
module PbSafety {
  import opened Wrappers
  import opened Words
  import opened PbWire
  import opened PbKeys
  import opened PbMessages
  import opened PbDecodeSpec
  import opened PbEncodeSpec

  /** A value that fits its member; with `nul`, a string also leaves room for its
      terminator. */
  ghost predicate ValueFits(nul: bool, f: Field, v: Value)
    decreases f, 0
  {
    match f.ltype
    case STRING => v.Blob? && 0 !in v.bytes && |v.bytes| + (if nul then 1 else 0) <= f.dataSize
    case SUBMESSAGE => v.Msg? && MsgFits(nul, f.sub, v.slots)
    case _ => ValueTyped(f, v)
  }

  ghost predicate SlotFits(nul: bool, d: Desc, p: nat, s: Slot)
    requires p < |d.fields|
    decreases d, 2
  {
    var f := d.fields[p];
    if Joins(d, p) then s.Shared?
    else match f.htype
      case REQUIRED => s.Single? && ValueFits(nul, f, s.v)
      case OPTIONAL => (if HasField(f) then s.Optional? else s.Single?) && ValueFits(nul, f, s.v)
      case REPEATED =>
        && s.Array?
        && (if FixedCount(f) then |s.items| == f.arraySize else |s.items| <= f.arraySize)
        && forall k :: 0 <= k < |s.items| ==> ValueFits(nul, f, s.items[k])
      case ONEOF =>
        if s.Union? && s.which == 0 then s.v == Num(0)
        else exists q :: p <= q < |d.fields| && MemberFits(nul, d, p, q, s)
  }

  /** Entry `q` is the member of the union at `h` that slot `s` holds, and it fits. */
  ghost predicate MemberFits(nul: bool, d: Desc, h: nat, q: nat, s: Slot)
    requires q < |d.fields|
    decreases d, 1
  {
    var f := d.fields[q];
    s.Union? && Head(d, q) == h && f.htype.ONEOF? && s.which == f.tag && ValueFits(nul, f, s.v)
  }

  ghost predicate MsgFits(nul: bool, d: Desc, m: seq<Slot>)
    decreases d, 3
  {
    |m| == |d.fields| && forall p :: 0 <= p < |m| ==> SlotFits(nul, d, p, m[p])
  }

  /** A usable table; with `nul`, its string members hold their defaults with a
      terminator. */
  ghost predicate Usable(nul: bool, d: Desc)
    decreases d, 1
  {
    WellFormed(d) && forall p :: 0 <= p < |d.fields| ==> FieldUsable(nul, d.fields[p])
  }

  ghost predicate FieldUsable(nul: bool, f: Field)
    decreases f, 0
  {
    && FieldWellFormed(f)
    && (f.ltype.STRING? ==> ValueFits(nul, f, DefaultValue(f)))
    && (f.ltype.SUBMESSAGE? ==> Usable(nul, f.sub))
  }

  // ---- Without terminators this is the type of the struct ----

  lemma {:induction false} FitsIsTyped(d: Desc, m: seq<Slot>)
    ensures MsgFits(false, d, m) <==> MsgTyped(d, m)
    decreases d, 3
  {
    if |m| == |d.fields| {
      hide SlotFits, SlotTyped;
      forall p | 0 <= p < |m| ensures SlotFits(false, d, p, m[p]) <==> SlotTyped(d, p, m[p]) {
        SlotIsTyped(d, p, m[p]);
      }
    }
  }

  lemma {:induction false} SlotIsTyped(d: Desc, p: nat, s: Slot)
    requires p < |d.fields|
    ensures SlotFits(false, d, p, s) <==> SlotTyped(d, p, s)
    decreases d, 2
  {
    hide ValueFits, ValueTyped;
    var f := d.fields[p];
    match s
    case Single(v) => ValueIsTyped(f, v);
    case Optional(_, v) => ValueIsTyped(f, v);
    case Array(items) =>
      forall k | 0 <= k < |items| ensures ValueFits(false, f, items[k]) <==> ValueTyped(f, items[k]) {
        ValueIsTyped(f, items[k]);
      }
    case Union(_, v) =>
      forall q | p <= q < |d.fields| ensures MemberFits(false, d, p, q, s) <==> Selects(d, p, q, s) {
        ValueIsTyped(d.fields[q], v);
      }
    case Shared =>
  }

  lemma {:induction false} ValueIsTyped(f: Field, v: Value)
    ensures ValueFits(false, f, v) <==> ValueTyped(f, v)
    decreases f, 0
  {
    if f.ltype.SUBMESSAGE? && v.Msg? { FitsIsTyped(f.sub, v.slots); }
  }

  lemma {:induction false} WellFormedIsUsable(d: Desc)
    requires WellFormed(d)
    ensures Usable(false, d)
    decreases d
  {
    forall p | 0 <= p < |d.fields| ensures FieldUsable(false, d.fields[p]) {
      var f := d.fields[p];
      assert FieldWellFormed(f);
      if f.ltype.SUBMESSAGE? { WellFormedIsUsable(f.sub); } else { ValueIsTyped(f, DefaultValue(f)); }
    }
  }

  // ---- Defaults fit ----

  lemma {:induction false} DefaultFits(nul: bool, f: Field)
    requires FieldUsable(nul, f)
    ensures ValueFits(nul, f, DefaultValue(f))
    decreases f, 0
  {
    if f.ltype.SUBMESSAGE? { DefaultMsgFits(nul, f.sub); }
  }

  lemma {:induction false} DefaultMsgFits(nul: bool, d: Desc)
    requires Usable(nul, d)
    ensures MsgFits(nul, d, DefaultMsg(d))
    decreases d, 1
  {
    hide ValueFits, FieldUsable, SlotFits, DefaultSlot;
    var m := DefaultMsg(d);
    forall p | 0 <= p < |m| ensures SlotFits(nul, d, p, m[p]) {
      DefaultFits(nul, d.fields[p]);
      DefaultSlotFits(nul, d, p);
      assert m[p] == DefaultSlot(d, p);
    }
  }

  lemma DefaultSlotFits(nul: bool, d: Desc, p: nat)
    requires p < |d.fields| && ValueFits(nul, d.fields[p], DefaultValue(d.fields[p]))
    ensures SlotFits(nul, d, p, DefaultSlot(d, p))
  {
    hide ValueFits, DefaultValue;
  }

  // ---- What is decoded fits ----

  /** The size tests of pb_dec_bytes, pb_dec_string and pb_dec_fixed_length_bytes:
      what passes fits, and what does not fit is refused. */
  lemma BlobFits(nul: bool, f: Field, b: seq<byte>)
    requires f.ltype.BYTES? || f.ltype.STRING? || f.ltype.FIXED_LENGTH_BYTES?
    ensures StoreBlob(f, b).Some? ==> ValueFits(nul, f, StoreBlob(f, b).value)
    ensures StoreBlob(f, b).Some? <==>
              match f.ltype
              case BYTES => |b| <= f.dataSize - BYTES_OFFSET
              case STRING => |b| < f.dataSize
              case _ => |b| == f.dataSize || |b| == 0
  {}

  lemma NumFits(f: Field, bs: seq<byte>)
    requires Packable(f.ltype) && DecNum(f, bs).Ok?
    ensures ValueTyped(f, DecNum(f, bs).value)
  {
    Pow256Words();
    if f.ltype.FIXED32? { FromLeBound(bs[..4]); }
    if f.ltype.FIXED64? { FromLeBound(bs[..8]); }
  }

  lemma {:induction false} DecValueFits(nul: bool, f: Field, prior: Value, bs: seq<byte>)
    requires FieldUsable(nul, f) && DecValue(f, prior, bs).Ok?
    requires f.ltype.SUBMESSAGE? ==> ValueFits(nul, f, prior)
    ensures ValueFits(nul, f, DecValue(f, prior, bs).value)
    decreases |bs|, 0
  {
    hide StoreBlob, DecNum, DecString;
    if f.ltype.SUBMESSAGE? {
      DecodingFits(nul, f.sub, DecString(bs).value, prior.slots);
    } else if Packable(f.ltype) {
      NumFits(f, bs);
    } else {
      BlobFits(nul, f, DecString(bs).value);
    }
  }

  /** The elements of an array before element `k` is stored. */
  ghost predicate ItemsFit(nul: bool, f: Field, items: seq<Value>, k: nat) {
    && (if FixedCount(f) then |items| == f.arraySize else |items| == k <= f.arraySize)
    && forall i :: 0 <= i < |items| ==> ValueFits(nul, f, items[i])
  }

  lemma PutFits(nul: bool, f: Field, items: seq<Value>, k: nat, v: Value)
    requires ItemsFit(nul, f, items, k) && k < f.arraySize && ValueFits(nul, f, v)
    ensures ItemsFit(nul, f, Put(f, items, k, v), k + 1)
  {
    hide ValueFits;
  }

  lemma {:induction false} DecPackedFits(nul: bool, f: Field, payload: seq<byte>, items: seq<Value>, k: nat)
    requires FieldUsable(nul, f) && ItemsFit(nul, f, items, k) && DecPacked(f, payload, items, k).Some?
    ensures var (after, n) := DecPacked(f, payload, items, k).value; ItemsFit(nul, f, after, n)
    decreases |payload|, 1
  {
    hide ValueFits, FieldUsable, ItemsFit, DecValue;
    if payload != [] {
      DefaultFits(nul, f);
      DecValueFits(nul, f, DefaultValue(f), payload);
      var r := DecValue(f, DefaultValue(f), payload);
      PutFits(nul, f, items, k, r.value);
      DecPackedFits(nul, f, r.rest, Put(f, items, k, r.value), k + 1);
    }
  }

  lemma SlotReplaced(nul: bool, d: Desc, m: seq<Slot>, h: nat, s: Slot)
    requires MsgFits(nul, d, m) && h < |m| && SlotFits(nul, d, h, s)
    ensures MsgFits(nul, d, m[h := s])
  {
    hide SlotFits;
  }

  lemma HeadSlot(nul: bool, d: Desc, m: seq<Slot>, p: nat)
    requires MsgFits(nul, d, m) && p < |m|
    ensures SlotFits(nul, d, Head(d, p), m[Head(d, p)])
    ensures Usable(nul, d) ==> FieldUsable(nul, d.fields[p])
  {
    hide SlotFits, FieldUsable;
  }

  lemma {:induction false} DecArrayFits(nul: bool, d: Desc, p: nat, wt: nat, bs: seq<byte>, st: State)
    requires Usable(nul, d) && MsgFits(nul, d, st.m) && p < |d.fields| == |st.m| && d.fields[p].htype.REPEATED?
    requires DecField(d, p, wt, bs, st).Ok?
    ensures MsgFits(nul, d, DecField(d, p, wt, bs, st).value.m)
    decreases |bs|, 2
  {
    hide ValueFits, FieldUsable, DecValue, DecPacked, DecString, DefaultValue, Usable;
    var f := d.fields[p];
    HeadSlot(nul, d, st.m, p);
    var items := Items(st.m[p]);
    var k := if FixedCount(f) then st.count else |items|;
    assert ItemsFit(nul, f, items, k);
    DefaultFits(nul, f);
    var after: seq<Value>;
    if wt == WT_STRING && Packable(f.ltype) {
      DecPackedFits(nul, f, DecString(bs).value, items, k);
      after := DecPacked(f, DecString(bs).value, items, k).value.0;
    } else {
      DecValueFits(nul, f, DefaultValue(f), bs);
      var v := DecValue(f, DefaultValue(f), bs).value;
      PutFits(nul, f, items, k, v);
      after := Put(f, items, k, v);
    }
    assert SlotFits(nul, d, p, Array(after));
    SlotReplaced(nul, d, st.m, p, Array(after));
  }

  lemma {:induction false} DecSingleFits(nul: bool, d: Desc, p: nat, wt: nat, bs: seq<byte>, st: State)
    requires Usable(nul, d) && MsgFits(nul, d, st.m) && p < |d.fields| == |st.m| && !d.fields[p].htype.REPEATED?
    requires DecField(d, p, wt, bs, st).Ok?
    ensures MsgFits(nul, d, DecField(d, p, wt, bs, st).value.m)
    decreases |bs|, 2
  {
    hide ValueFits, FieldUsable, DecValue, DefaultValue, Usable;
    var f, h := d.fields[p], Head(d, p);
    HeadSlot(nul, d, st.m, p);
    DefaultFits(nul, f);
    var prior := if f.htype.ONEOF? then DefaultValue(f) else OldValue(st.m[h]);
    DecValueFits(nul, f, prior, bs);
    var v := DecValue(f, prior, bs).value;
    var s := if f.htype.ONEOF? then Union(f.tag, v) else if HasField(f) then Optional(true, v) else Single(v);
    if f.htype.ONEOF? {
      assert MemberFits(nul, d, h, p, s);
      TagPositive(nul, d, p);
      if h < p { assert d.fields[h].htype.ONEOF?; }
    }
    assert SlotFits(nul, d, h, s);
    SlotReplaced(nul, d, st.m, h, s);
  }

  lemma TagPositive(nul: bool, d: Desc, p: nat)
    requires Usable(nul, d) && p < |d.fields|
    ensures d.fields[p].tag > 0
  {
    assert FieldWellFormed(d.fields[p]);
  }

  lemma {:induction false} DecRecordFits(nul: bool, d: Desc, tag: nat, wt: nat, bs: seq<byte>, st: State)
    requires Usable(nul, d) && MsgFits(nul, d, st.m) && |st.m| == |d.fields| && DecRecord(d, tag, wt, bs, st).Ok?
    ensures MsgFits(nul, d, DecRecord(d, tag, wt, bs, st).value.m)
    decreases |bs|, 3
  {
    hide MsgFits, Usable, DecField, Skip;
    var p := Find(d, tag);
    if p.Some? {
      var st1 := Note(d, p.value, st).value;
      if d.fields[p.value].htype.REPEATED? { DecArrayFits(nul, d, p.value, wt, bs, st1); }
      else { DecSingleFits(nul, d, p.value, wt, bs, st1); }
    }
  }

  lemma {:induction false} DecLoopFits(nul: bool, d: Desc, bs: seq<byte>, st: State)
    requires Usable(nul, d) && MsgFits(nul, d, st.m) && |st.m| == |d.fields| && DecLoop(d, bs, st).Ok?
    ensures MsgFits(nul, d, DecLoop(d, bs, st).value.m)
    decreases |bs|, 4
  {
    hide MsgFits, Usable, DecRecord, DecKey;
    if bs != [] && DecKey(bs).Key? {
      var k := DecKey(bs);
      DecRecordFits(nul, d, k.tag, k.wt, k.after, st);
      var r := DecRecord(d, k.tag, k.wt, k.after, st);
      DecLoopFits(nul, d, r.rest, r.value);
    }
  }

  /** For every byte sequence: a struct that fits is decoded into one that fits. */
  lemma {:induction false} DecodingFits(nul: bool, d: Desc, bs: seq<byte>, m: seq<Slot>)
    requires Usable(nul, d) && MsgFits(nul, d, m) && |m| == |d.fields| && DecNoinit(d, bs, m).Ok?
    ensures MsgFits(nul, d, DecNoinit(d, bs, m).value)
    decreases |bs|, 5
  {
    hide MsgFits, Usable, DecLoop;
    DecLoopFits(nul, d, bs, Start(m));
  }

  /** For every byte sequence: what is decoded into a struct of the descriptor's type
      is of that type, so that every number is in the range of its member, every
      array within its size, and bytes and strings within theirs. */
  lemma DecodedIsTyped(d: Desc, bs: seq<byte>, m: seq<Slot>)
    requires WellFormed(d) && MsgTyped(d, m) && DecNoinit(d, bs, m).Ok?
    ensures MsgTyped(d, DecNoinit(d, bs, m).value)
  {
    hide MsgFits, MsgTyped, Usable, DecNoinit;
    TypedLength(d, m);
    FitsIsTyped(d, m);
    WellFormedIsUsable(d);
    DecodingFits(false, d, bs, m);
    FitsIsTyped(d, DecNoinit(d, bs, m).value);
  }

  lemma TypedLength(d: Desc, m: seq<Slot>)
    requires MsgTyped(d, m)
    ensures |m| == |d.fields|
  {}

  /** And every string that a struct of defaults receives is terminated within its
      member. */
  lemma DecodedIsTerminated(d: Desc, bs: seq<byte>)
    requires Usable(true, d) && DecMsg(d, bs).Ok?
    ensures MsgFits(true, d, DecMsg(d, bs).value)
  {
    hide MsgFits, Usable, DecNoinit;
    DefaultMsgFits(true, d);
    DecodingFits(true, d, bs, DefaultMsg(d));
  }

  lemma DefaultIsTyped(d: Desc)
    requires WellFormed(d)
    ensures MsgTyped(d, DefaultMsg(d))
  {
    hide MsgFits, MsgTyped, Usable;
    WellFormedIsUsable(d);
    DefaultMsgFits(false, d);
    FitsIsTyped(d, DefaultMsg(d));
  }

  // ---- Defaults of the table ----

  /** An optional scalar that does not occur keeps the default of the table. */
  lemma AbsentKeepsDefault(d: Desc, p: nat)
    requires p < |d.fields| && !d.fields[p].ltype.SUBMESSAGE? && HasField(d.fields[p])
    requires d.fields[p].default.Some? && RequiredBefore(d, |d.fields|) == 0
    ensures DecMsg(d, []).Ok? && DecMsg(d, []).value[p] == Optional(false, d.fields[p].default.value)
  {
    TableDefault(d.fields[p]);
    hide DefaultValue;
    assert DefaultMsg(d)[p] == DefaultSlot(d, p);
  }

  lemma TableDefault(f: Field)
    requires !f.ltype.SUBMESSAGE? && f.default.Some?
    ensures DefaultValue(f) == f.default.value
  {}

  // ---- What numbers mean, written by whatever encoder ----

  /** Any varint in the place of a number: it is the number that it is congruent to in
      the width of the member, or that zigzag makes of it; and it is refused exactly
      when that is out of the range of the member. */
  lemma VarintMeans(f: Field, u: nat, rest: seq<byte>)
    requires f.ltype.VARINT? || f.ltype.UVARINT? || f.ltype.SVARINT?
    requires VarSize(f.dataSize) && u < B64
    ensures var n := FromWord(f, u);
            && DecNum(f, Varint(u) + rest) == (if InRange(f, n) then Ok(Num(n), rest) else Fail)
            && (f.ltype.UVARINT? ==> n == u)
            && (f.ltype.SVARINT? ==> -B63 <= n < B63 && ZigZag(n) == u)
            && (f.ltype.VARINT? && f.dataSize == 8 ==> -B63 <= n < B63 && (n - u) % B64 == 0)
            && (f.ltype.VARINT? && f.dataSize < 8 ==> -B31 <= n < B31 && (n - u) % B32 == 0)
  {
    hide DecVarint, Varint;
    VarintRoundTrip(u, rest);
    if f.ltype.SVARINT? { ZigZagBijection(0, u); }
  }

  // ---- Zero values are not written ----

  /** A submessage type that can be zero, all the way down. */
  ghost predicate CanBeZero(f: Field)
    decreases f, 0
  {
    && f.default.None? && (f.ltype.FIXED_LENGTH_BYTES? ==> f.dataSize == 0)
    && (f.ltype.SUBMESSAGE? ==> AllCanBeZero(f.sub))
  }

  ghost predicate AllCanBeZero(d: Desc)
    decreases d, 1
  {
    forall p :: 0 <= p < |d.fields| ==>
      && !d.fields[p].htype.REQUIRED? && !FixedCount(d.fields[p])
      && (Singular(d.fields[p]) ==> CanBeZero(d.fields[p]))
  }

  lemma {:induction false} DefaultIsZero(f: Field)
    requires CanBeZero(f)
    ensures IsZeroValue(f, DefaultValue(f))
    decreases f, 0
  {
    if f.ltype.SUBMESSAGE? {
      var d := f.sub;
      var m := DefaultMsg(d);
      forall p | 0 <= p < |m| ensures IsZeroSlot(d, p, m) {
        var g, h := d.fields[p], Head(d, p);
        assert m[h] == DefaultSlot(d, h);
        if Singular(g) { DefaultIsZero(g); }
      }
    }
  }

  /** A proto3 field that holds its default is not written. */
  lemma DefaultOmitted(d: Desc, p: nat, m: seq<Slot>)
    requires p < |d.fields| == |m| && Singular(d.fields[p]) && CanBeZero(d.fields[p])
    requires m[p] == Single(DefaultValue(d.fields[p]))
    ensures EncField(d, p, m) == Some([])
  {
    DefaultIsZero(d.fields[p]);
  }
}
