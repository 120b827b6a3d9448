/** What the round trip loses is nothing that is ever written: a struct and its
    canonical form have the same encoding. And a string that fills its buffer
    is written but not read back. */
module PbCanonical {
  import opened Wrappers
  import opened Words
  import opened PbWire
  import opened PbKeys
  import opened PbMessages
  import opened PbEncodeSpec
  import opened PbDecodeSpec
  import opened PbRoundTrip

  lemma {:induction false} CanonValueBytes(f: Field, v: Value)
    requires FieldWellFormed(f) && ValueTyped(f, v)
    ensures EncValue(f, CanonValue(f, v)) == EncValue(f, v)
    ensures IsZeroValue(f, CanonValue(f, v)) == IsZeroValue(f, v)
    decreases f, 0
  {
    match v
    case Msg(slots) =>
      CanonBytes(f.sub, slots);
      CanonZero(f.sub, slots);
    case _ =>
  }

  lemma {:induction false} CanonItemsBytes(f: Field, items: seq<Value>, k: nat)
    requires FieldWellFormed(f) && k <= |items|
    requires forall i :: 0 <= i < |items| ==> ValueTyped(f, items[i])
    ensures EncRecords(f, CanonItems(f, items), k) == EncRecords(f, items, k)
    ensures EncPacked(f, CanonItems(f, items), k) == EncPacked(f, items, k)
    decreases f, 1, |items| - k
  {
    if k < |items| {
      CanonValueBytes(f, items[k]);
      CanonItemsBytes(f, items, k + 1);
    }
  }

  lemma {:induction false} CanonFieldBytes(d: Desc, m: seq<Slot>, p: nat)
    requires WellFormed(d) && MsgTyped(d, m) && p < |m|
    ensures EncField(d, p, CanonMsg(d, m)) == EncField(d, p, m)
    ensures IsZeroSlot(d, p, CanonMsg(d, m)) == IsZeroSlot(d, p, m)
    decreases d, 0
  {
    var f, h := d.fields[p], Head(d, p);
    var s := m[h];
    assert FieldWellFormed(f) && SlotTyped(d, h, s) && SlotTyped(d, p, m[p]);
    match f.htype {
      case REPEATED => CanonItemsBytes(f, s.items, 0);
      case ONEOF =>
        if s != Union(0, Num(0)) {
          var q :| h <= q < |d.fields| && Selects(d, h, q, s);
          SelectedIsFound(d, h, q, s);
          if s.which == f.tag {
            UniqueTag(d, p);
            CanonValueBytes(f, s.v);
          }
        }
      case _ => CanonValueBytes(f, s.v);
    }
  }

  lemma {:induction false} CanonFromBytes(d: Desc, m: seq<Slot>, p: nat)
    requires WellFormed(d) && MsgTyped(d, m) && p <= |m|
    ensures EncFrom(d, CanonMsg(d, m), p) == EncFrom(d, m, p)
    decreases d, 1, |m| - p
  {
    if p < |m| {
      CanonFieldBytes(d, m, p);
      CanonFromBytes(d, m, p + 1);
    }
  }

  lemma CanonZero(d: Desc, m: seq<Slot>)
    requires WellFormed(d) && MsgTyped(d, m)
    ensures IsZeroMsg(d, CanonMsg(d, m)) == IsZeroMsg(d, m)
    decreases d, 2
  {
    var c := CanonMsg(d, m);
    if IsZeroMsg(d, m) {
      forall p | 0 <= p < |c| ensures IsZeroSlot(d, p, c) {
        CanonFieldBytes(d, m, p);
        assert IsZeroSlot(d, p, m);
      }
    }
    if IsZeroMsg(d, c) {
      forall p | 0 <= p < |m| ensures IsZeroSlot(d, p, m) {
        CanonFieldBytes(d, m, p);
        assert IsZeroSlot(d, p, c);
      }
    }
  }

  /** A struct and its canonical form are written as the same bytes. */
  lemma {:induction false} CanonBytes(d: Desc, m: seq<Slot>)
    requires WellFormed(d) && MsgTyped(d, m)
    ensures EncMsg(d, CanonMsg(d, m)) == EncMsg(d, m)
    decreases d, 2
  {
    CanonFromBytes(d, m, 0);
  }

  /** Structs whose absent optionals are at their default come back unchanged;
      decoding is then a left inverse of encoding, and encoding is injective. */
  lemma EncodingInjective(d: Desc, m: seq<Slot>, m': seq<Slot>)
    requires WellFormed(d) && MsgTyped(d, m) && MsgTyped(d, m')
    requires EncMsg(d, m).Some? && EncMsg(d, m) == EncMsg(d, m') && |EncMsg(d, m).value| < B63
    requires MsgDecodable(d, m) && CanonMsg(d, m) == m && CanonMsg(d, m') == m'
    ensures m == m' && DecMsg(d, EncMsg(d, m).value) == Ok(m, [])
  {
    MsgRoundTrip(d, m);
    MsgRoundTrip(d, m');
  }

  /** One required string of two chars, filled to the brim: encoded, not decoded. */
  lemma UnterminatedString()
    ensures var f := Field(1, STRING, REQUIRED, 0, 0, 2, 0, Desc([]), None);
      var d, m := Desc([f]), [Single(Blob([65, 66]))];
      && WellFormed(d) && MsgTyped(d, m)
      && EncMsg(d, m) == Some([10, 2, 65, 66])
      && DecMsg(d, [10, 2, 65, 66]).Fail?
  {
    var b := [65, 66];
    var f := Field(1, STRING, REQUIRED, 0, 0, 2, 0, Desc([]), None);
    var d, m := Desc([f]), [Single(Blob(b))];
    assert FieldWellFormed(f);
    assert ValueTyped(f, Blob(b));
    assert EncString(b) == [2, 65, 66];
    UpToNulWhole(b);
    assert EncBlob(f, b) == Some([2, 65, 66]);
    assert SlotTyped(d, 0, m[0]);
    assert EncValue(f, m[0].v) == Some([2, 65, 66]);
    assert EncKey(f.tag, WireType(f.ltype)) == [10];
    assert EncValue(f, Blob(b)) == EncBlob(f, b);
    assert [10] + [2, 65, 66] == [10, 2, 65, 66] == [10, 2, 65, 66] + [];
    assert EncRecord(f, m[0].v) == Some([10, 2, 65, 66]);
    assert EncField(d, 0, m) == Some([10, 2, 65, 66]);
    assert EncFrom(d, m, 1) == Some([]);
    assert EncFrom(d, m, 0) == Some([10, 2, 65, 66]);
    MsgRoundTrip(d, m);
    assert !FieldDecodable(d, 0, m);
  }
}
