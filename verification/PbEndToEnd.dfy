/** The stream objects together: what one encodes the other decodes. */
module PbEndToEnd {
  import opened Words
  import opened PbMessages
  import opened PbEncodeSpec
  import opened PbDecodeSpec
  import opened PbRoundTrip
  import opened PbEncoder
  import opened PbDecoder

  /** A typed struct whose encoding size_t can count has countable parts. */
  lemma {:induction false} MsgIsSized(d: Desc, m: seq<Slot>)
    requires WellFormed(d) && MsgTyped(d, m)
    requires EncMsg(d, m).Some? && |EncMsg(d, m).value| < B64
    ensures MsgSized(d, m)
    decreases d, 2
  {
    hide EncField, FieldSized;
    forall p | 0 <= p < |m| ensures FieldSized(d, p, m) {
      FieldWithin(d, m, 0, p);
      FieldIsSized(d, p, m);
    }
  }

  /** The bytes of one entry are among those of the message. */
  lemma {:induction false} FieldWithin(d: Desc, m: seq<Slot>, from: nat, p: nat)
    requires from <= p < |d.fields| == |m| && EncFrom(d, m, from).Some?
    ensures EncField(d, p, m).Some? && |EncField(d, p, m).value| <= |EncFrom(d, m, from).value|
    decreases p - from
  {
    hide EncField;
    if from < p { FieldWithin(d, m, from + 1, p); }
  }

  lemma {:induction false} FieldIsSized(d: Desc, p: nat, m: seq<Slot>)
    requires WellFormed(d) && MsgTyped(d, m) && p < |m|
    requires EncField(d, p, m).Some? && |EncField(d, p, m).value| < B64
    ensures FieldSized(d, p, m)
    decreases d, 1
  {
    hide EncValue, ValueSized, ItemsSized, EncArray, IsZeroValue;
    var f, h := d.fields[p], Head(d, p);
    var s := m[h];
    assert FieldWellFormed(f) && SlotTyped(d, h, s) && SlotTyped(d, p, m[p]);
    match s
    case Shared =>
    case Array(items) => ItemsAreSized(f, items);
    case Single(v) =>
      if !(f.htype.OPTIONAL? && IsZeroValue(f, v)) { ValueIsSized(f, v); }
    case Optional(has, v) =>
      if has { ValueIsSized(f, v); }
    case Union(which, v) =>
      if which == f.tag {
        var q :| h <= q < |d.fields| && Selects(d, h, q, s);
        assert q == p;
        ValueIsSized(f, v);
      }
  }

  lemma {:induction false} ValueIsSized(f: Field, v: Value)
    requires FieldWellFormed(f) && ValueTyped(f, v)
    requires EncValue(f, v).Some? && |EncValue(f, v).value| < B64
    ensures ValueSized(f, v)
    decreases f, 0
  {
    if v.Msg? { MsgIsSized(f.sub, v.slots); }
  }

  lemma {:induction false} ItemsAreSized(f: Field, items: seq<Value>)
    requires FieldWellFormed(f) && forall k :: 0 <= k < |items| ==> ValueTyped(f, items[k])
    requires EncArray(f, items).Some? && |EncArray(f, items).value| < B64
    ensures ItemsSized(f, items)
    decreases f, 1
  {
    hide EncValue, ValueSized;
    forall k | 0 <= k < |items| ensures ValueSized(f, items[k]) {
      if Packable(f.ltype) { ItemInPacked(f, items, 0, k); } else { ItemInRecords(f, items, 0, k); }
      ValueIsSized(f, items[k]);
    }
    if f.ltype.FIXED32? || f.ltype.FIXED64? { ItemsEncode(f, items, 0); }
  }

  lemma {:induction false} ItemInPacked(f: Field, items: seq<Value>, from: nat, k: nat)
    requires from <= k < |items| && EncPacked(f, items, from).Some?
    ensures EncValue(f, items[k]).Some? && |EncValue(f, items[k]).value| <= |EncPacked(f, items, from).value|
    decreases k - from
  {
    hide EncValue;
    if from < k { ItemInPacked(f, items, from + 1, k); }
  }

  lemma {:induction false} ItemInRecords(f: Field, items: seq<Value>, from: nat, k: nat)
    requires from <= k < |items| && EncRecords(f, items, from).Some?
    ensures EncValue(f, items[k]).Some? && |EncValue(f, items[k]).value| <= |EncRecords(f, items, from).value|
    decreases k - from
  {
    hide EncValue;
    if from < k { ItemInRecords(f, items, from + 1, k); }
  }

  /** pb_encode into a buffer and pb_decode out of it: the buffer is large enough
      exactly when it holds the encoding; then the struct comes back, in its
      canonical form, exactly when it is decodable. */
  method EncodeThenDecode(d: Desc, m: seq<Slot>, b: array<byte>) returns (encoded: bool, decoded: bool, back: seq<Slot>)
    requires WellFormed(d) && MsgTyped(d, m)
    requires EncMsg(d, m).Some? ==> |EncMsg(d, m).value| < B63
    modifies b
    ensures EncMsg(d, m).Some? && (encoded <==> |EncMsg(d, m).value| <= b.Length)
    ensures encoded ==> (decoded <==> MsgDecodable(d, m)) && (decoded ==> back == CanonMsg(d, m))
  {
    hide EncMsg, DecMsg, MsgTyped, MsgSized, WellFormed, MsgDecodable, CanonMsg;
    TypedShape(d, m);
    MsgEncodes(d, m);
    MsgIsSized(d, m);
    MsgRoundTrip(d, m);
    var written, err;
    encoded, written, err := EncodeToBuffer(b, d, m);
    decoded, back := false, m;
    if encoded {
      assert b[..][..written] == EncMsg(d, m).value;
      var stream := new IStream(b[..][..written]);
      decoded, back := stream.Decode(d);
    }
  }

  lemma TypedShape(d: Desc, m: seq<Slot>)
    requires MsgTyped(d, m)
    ensures |m| == |d.fields|
  {}
}
