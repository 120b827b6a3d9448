/** Decoding what the encoder wrote: for every well-formed descriptor and every
    struct of its type, exactly when it succeeds and what it yields. */
module PbRoundTrip {
  import opened Wrappers
  import opened Words
  import opened PbWire
  import opened PbKeys
  import opened PbMessages
  import opened PbEncodeSpec
  import opened PbDecodeSpec

  // ------------------------------------------------------------ what is yielded

  /** The value with the content of every absent optional reset to its default. */
  function CanonValue(f: Field, v: Value): Value
    decreases f, 0
  {
    match v
    case Msg(slots) =>
      if f.ltype.SUBMESSAGE? && |slots| == |f.sub.fields| then Msg(CanonMsg(f.sub, slots)) else v
    case _ => v
  }

  function CanonItems(f: Field, items: seq<Value>): (r: seq<Value>)
    ensures |r| == |items|
    decreases f, 1
  {
    seq(|items|, k requires 0 <= k < |items| => CanonValue(f, items[k]))
  }

  function CanonSlot(d: Desc, p: nat, s: Slot): Slot
    requires p < |d.fields|
    decreases d, 0
  {
    var f := d.fields[p];
    match s
    case Shared => Shared
    case Single(v) => Single(CanonValue(f, v))
    case Optional(has, v) => Optional(has, if has then CanonValue(f, v) else DefaultValue(f))
    case Array(items) => Array(CanonItems(f, items))
    case Union(which, v) =>
      var q := Find(d, which);
      if which == 0 || q.None? then s else Union(which, CanonValue(d.fields[q.value], v))
  }

  function CanonMsg(d: Desc, m: seq<Slot>): (r: seq<Slot>)
    requires |m| == |d.fields|
    ensures |r| == |m|
    decreases d, 1
  {
    seq(|m|, p requires 0 <= p < |m| => CanonSlot(d, p, m[p]))
  }

  // ------------------------------------------------------- exactly when it works

  /** Every string that is written leaves room for its NUL, and every length
      prefix that is written fits in 32 bits. */
  ghost predicate MsgDecodable(d: Desc, m: seq<Slot>)
    requires |m| == |d.fields|
    decreases d, 1
  {
    forall p :: 0 <= p < |m| ==> FieldDecodable(d, p, m)
  }

  ghost predicate ValueDecodable(f: Field, v: Value)
    decreases f, 0
  {
    match v
    case Num(_) => true
    case Blob(b) => f.ltype.STRING? ==> |b| < f.dataSize
    case Msg(slots) =>
      && f.ltype.SUBMESSAGE? && |slots| == |f.sub.fields|
      && EncMsg(f.sub, slots).Some? && |EncMsg(f.sub, slots).value| < B32
      && MsgDecodable(f.sub, slots)
  }

  ghost predicate ArrayDecodable(f: Field, items: seq<Value>)
    decreases f, 1
  {
    && (forall k :: 0 <= k < |items| ==> ValueDecodable(f, items[k]))
    && (Packable(f.ltype) && items != [] ==>
          EncPacked(f, items, 0).Some? && |EncPacked(f, items, 0).value| < B32)
  }

  ghost predicate FieldDecodable(d: Desc, p: nat, m: seq<Slot>)
    requires p < |d.fields| == |m|
    decreases d, 0
  {
    var f, s := d.fields[p], m[Head(d, p)];
    match s
    case Shared => true
    case Single(v) => (f.htype.OPTIONAL? && IsZeroValue(f, v)) || ValueDecodable(f, v)
    case Optional(has, v) => has ==> ValueDecodable(f, v)
    case Array(items) => ArrayDecodable(f, items)
    case Union(which, v) => which == f.tag ==> ValueDecodable(f, v)
  }

  // ------------------------------------------------------------------- scalars

  /** The varint that stands for a number, and back. */
  function ToWord(f: Field, n: int): (u: nat)
    requires InRange(f, n) && !f.ltype.FIXED32? && !f.ltype.FIXED64?
    ensures u < B64 && FromWord(f, u) == n && EncNum(f, n) == Some(Varint(u))
  {
    if f.ltype.SVARINT? then ZigZagBijection(n, 0); ZigZag(n)
    else if n < 0 then n + B64 else n
  }

  lemma NumRoundTrip(f: Field, n: int, rest: seq<byte>)
    requires InRange(f, n)
    ensures EncNum(f, n).Some? && DecNum(f, EncNum(f, n).value + rest) == Ok(Num(n), rest)
  {
    if f.ltype.FIXED32? {
      WordRoundTrip(n, 4, rest);
    } else if f.ltype.FIXED64? {
      WordRoundTrip(n, 8, rest);
    } else {
      VarintRoundTrip(ToWord(f, n), rest);
    }
  }

  lemma WordRoundTrip(n: nat, k: nat, rest: seq<byte>)
    requires (k == 4 && n < B32) || (k == 8 && n < B64)
    ensures Take(k, Le(n, k) + rest) == Ok(Le(n, k), rest) && FromLe(Le(n, k)) == n
  {
    Pow256Words();
    LeRoundTrip(n, k);
    assert (Le(n, k) + rest)[..k] == Le(n, k) && (Le(n, k) + rest)[k..] == rest;
  }

  lemma {:induction false} UpToNulWhole(b: seq<byte>)
    requires 0 !in b
    ensures UpToNul(b) == b
  {
    if b != [] { UpToNulWhole(b[1..]); }
  }

  lemma StoreRoundTrip(f: Field, b: seq<byte>)
    requires ValueTyped(f, Blob(b))
    ensures EncBlob(f, b) == Some(EncString(b))
    ensures StoreBlob(f, b) == if f.ltype.STRING? && |b| == f.dataSize then None else Some(Blob(b))
  {
    if f.ltype.STRING? { UpToNulWhole(b); }
    if f.ltype.FIXED_LENGTH_BYTES? && b == [] {
      assert seq(f.dataSize, _ => 0) == b;
    }
  }

  lemma BlobRoundTrip(f: Field, b: seq<byte>, prior: Value, rest: seq<byte>)
    requires f.dataSize <= PB_SIZE_MAX && ValueTyped(f, Blob(b))
    ensures EncBlob(f, b).Some?
    ensures DecValue(f, prior, EncBlob(f, b).value + rest) ==
            if ValueDecodable(f, Blob(b)) then Ok(Blob(b), rest) else Fail
  {
    StringRoundTrip(b, rest);
    StoreRoundTrip(f, b);
  }

  // ------------------------------------------------------- zero values, unions

  /** A value the encoder leaves out as zero is, but for absent optionals, the default. */
  lemma {:induction false} ZeroIsDefault(f: Field, v: Value)
    requires FieldWellFormed(f) && ValueTyped(f, v) && IsZeroValue(f, v)
    requires f.default.None? && (f.ltype.SUBMESSAGE? ==> NoFixedCount(f.sub))
    ensures CanonValue(f, v) == DefaultValue(f)
    decreases f
  {
    match v
    case Num(n) =>
    case Blob(b) =>
      if f.ltype.FIXED_LENGTH_BYTES? { assert b == seq(f.dataSize, _ => 0); }
    case Msg(slots) =>
      var d := f.sub;
      assert MsgTyped(d, slots);
      forall p | 0 <= p < |slots|
        ensures CanonSlot(d, p, slots[p]) == DefaultSlot(d, p)
      {
        assert IsZeroSlot(d, p, slots) && SlotTyped(d, p, slots[p]) && FieldWellFormed(d.fields[p]);
        if !Joins(d, p) && Singular(d.fields[p]) {
          ZeroIsDefault(d.fields[p], slots[p].v);
        }
      }
      assert CanonMsg(d, slots) == DefaultMsg(d);
  }

  /** The union member that a slot holds is the one its tag finds. */
  lemma SelectedIsFound(d: Desc, h: nat, q: nat, s: Slot)
    requires WellFormed(d) && q < |d.fields| && Selects(d, h, q, s)
    ensures s.which != 0 && Find(d, s.which) == Some(q)
  {
    assert FieldWellFormed(d.fields[q]);
  }

  // ------------------------------------------------------ the decoder part-way

  function Min(a: nat, b: nat): nat { if a < b then a else b }

  function FirstN(n: nat): (r: set<nat>)
    ensures forall i: nat :: i in r <==> i < n
  {
    if n == 0 then {} else FirstN(n - 1) + {n - 1}
  }

  /** The last fixed-count array before entry `p` that has elements. */
  function LastRun(d: Desc, p: nat): (r: Option<nat>)
    requires p <= |d.fields|
    ensures r.Some? ==> r.value < p
  {
    if p == 0 then None
    else if FixedCount(d.fields[p - 1]) && d.fields[p - 1].arraySize > 0 then Some(p - 1)
    else LastRun(d, p - 1)
  }

  /** Whether the union at `h` has been read once the entries before `p` are. */
  predicate UnionRead(d: Desc, h: nat, p: nat, s: Slot)
    requires h < |d.fields| && p <= |d.fields|
  {
    s.Union? && s.which != 0 && var q := Find(d, s.which); q.Some? && q.value < p
  }

  function PartialSlot(d: Desc, p: nat, h: nat, s: Slot): Slot
    requires h < |d.fields| && p <= |d.fields|
  {
    if d.fields[h].htype.ONEOF? && !Joins(d, h) then
      if UnionRead(d, h, p, s) then CanonSlot(d, h, s) else DefaultSlot(d, h)
    else if h < p then CanonSlot(d, h, s)
    else DefaultSlot(d, h)
  }

  /** The decoder's state after the records of the entries before `p`. */
  ghost function Partial(d: Desc, m: seq<Slot>, p: nat): (st: State)
    requires p <= |d.fields| == |m|
    ensures |st.m| == |m|
  {
    var run := LastRun(d, p);
    State(
      seq(|m|, h requires 0 <= h < |m| => PartialSlot(d, p, h, m[h])),
      FirstN(Min(RequiredBefore(d, p), PB_MAX_REQUIRED_FIELDS)),
      run, if run.Some? then d.fields[run.value].arraySize else 0)
  }

  /** A typed struct is complete and canonical once all entries are read. */
  lemma PartialEnd(d: Desc, m: seq<Slot>)
    requires WellFormed(d) && MsgTyped(d, m)
    ensures Partial(d, m, |d.fields|).m == CanonMsg(d, m)
    ensures RunComplete(d, Partial(d, m, |d.fields|)) && AllSeen(d, Partial(d, m, |d.fields|))
  {
    forall h | 0 <= h < |m|
      ensures PartialSlot(d, |d.fields|, h, m[h]) == CanonSlot(d, h, m[h])
    {
      assert SlotTyped(d, h, m[h]);
      if d.fields[h].htype.ONEOF? && !Joins(d, h) && m[h] != Union(0, Num(0)) {
        var q :| h <= q < |d.fields| && Selects(d, h, q, m[h]);
        SelectedIsFound(d, h, q, m[h]);
      }
    }
  }

  lemma PartialStart(d: Desc, m: seq<Slot>)
    requires |m| == |d.fields|
    ensures Partial(d, m, 0) == Start(DefaultMsg(d))
  {
    assert Partial(d, m, 0).m == DefaultMsg(d);
  }

  lemma SlotsElsewhere(d: Desc, m: seq<Slot>, p: nat, h: nat)
    requires WellFormed(d) && MsgTyped(d, m) && p < |m| && h < |m| && h != Head(d, p)
    ensures PartialSlot(d, p + 1, h, m[h]) == PartialSlot(d, p, h, m[h])
  {
    assert SlotTyped(d, h, m[h]) && SlotTyped(d, p, m[p]);
    if d.fields[h].htype.ONEOF? && !Joins(d, h) && m[h] != Union(0, Num(0)) {
      var q :| h <= q < |d.fields| && Selects(d, h, q, m[h]);
      SelectedIsFound(d, h, q, m[h]);
    }
  }

  lemma SlotsAdvance(d: Desc, m: seq<Slot>, p: nat)
    requires WellFormed(d) && MsgTyped(d, m) && p < |m|
    ensures var h := Head(d, p);
            Partial(d, m, p + 1).m == Partial(d, m, p).m[h := PartialSlot(d, p + 1, h, m[h])]
  {
    var h := Head(d, p);
    forall g | 0 <= g < |m| && g != h
      ensures Partial(d, m, p + 1).m[g] == Partial(d, m, p).m[g]
    {
      SlotsElsewhere(d, m, p, g);
    }
  }

  /** The required-field bookkeeping keeps step. */
  lemma NoteAdvances(d: Desc, m: seq<Slot>, p: nat)
    requires p < |d.fields| == |m| && !FixedCount(d.fields[p])
    ensures Note(d, p, Partial(d, m, p)) == Some(Partial(d, m, p).(seen := Partial(d, m, p + 1).seen))
  {
    var f, st := d.fields[p], Partial(d, m, p);
    if f.htype.REQUIRED? && RequiredBefore(d, p) < PB_MAX_REQUIRED_FIELDS {
      assert Partial(d, m, p + 1).seen == st.seen + {RequiredBefore(d, p)};
    } else {
      assert Partial(d, m, p + 1).seen == st.seen;
    }
  }

  lemma UniqueTag(d: Desc, p: nat)
    requires WellFormed(d) && p < |d.fields|
    ensures Find(d, d.fields[p].tag) == Some(p) && FieldWellFormed(d.fields[p])
  {}

  /** The loop on a record of entry `p`, up to the decoding of its value. */
  lemma RecordStep(d: Desc, p: nat, wt: nat, body: seq<byte>, st: State)
    requires WellFormed(d) && p < |d.fields| == |st.m| && wt < 8
    ensures DecLoop(d, EncKey(d.fields[p].tag, wt) + body, st) ==
            match Note(d, p, st)
            case None => Fail
            case Some(st') =>
              match DecField(d, p, wt, body, st')
              case Fail => Fail
              case Ok(st'', rest) => DecLoop(d, rest, st'')
  {
    UniqueTag(d, p);
    KeyRoundTrip(d.fields[p].tag, wt, body);
  }

  // ------------------------------------------------ typed structs are encodable

  lemma {:induction false} ValueEncodes(f: Field, v: Value)
    requires FieldWellFormed(f) && ValueTyped(f, v)
    ensures EncValue(f, v).Some? && EncRecord(f, v).Some?
    decreases f, 0
  {
    match v
    case Num(n) => NumRoundTrip(f, n, []);
    case Blob(b) =>
    case Msg(slots) => MsgEncodes(f.sub, slots);
  }

  lemma {:induction false} ItemsEncode(f: Field, items: seq<Value>, k: nat)
    requires FieldWellFormed(f) && k <= |items|
    requires forall i :: 0 <= i < |items| ==> ValueTyped(f, items[i])
    ensures EncRecords(f, items, k).Some? && EncPacked(f, items, k).Some?
    decreases f, 1, |items| - k
  {
    if k < |items| {
      ValueEncodes(f, items[k]);
      ItemsEncode(f, items, k + 1);
    }
  }

  lemma {:induction false} FieldEncodes(d: Desc, p: nat, m: seq<Slot>)
    requires WellFormed(d) && MsgTyped(d, m) && p < |m|
    ensures EncField(d, p, m).Some?
    decreases d, 0
  {
    var f, h := d.fields[p], Head(d, p);
    var s := m[h];
    assert FieldWellFormed(f) && SlotTyped(d, h, s) && SlotTyped(d, p, m[p]);
    match f.htype {
      case REQUIRED => ValueEncodes(f, s.v);
      case OPTIONAL => ValueEncodes(f, s.v);
      case REPEATED =>
        assert s.Array? && |s.items| <= f.arraySize;
        ItemsEncode(f, s.items, 0);
        assert EncArray(f, s.items).Some?;
      case ONEOF =>
        if s != Union(0, Num(0)) {
          var q :| h <= q < |d.fields| && Selects(d, h, q, s);
          if s.which == f.tag {
            assert q == p;
            ValueEncodes(f, s.v);
          }
        }
    }
  }

  lemma {:induction false} FromEncodes(d: Desc, m: seq<Slot>, p: nat)
    requires WellFormed(d) && MsgTyped(d, m) && p <= |m|
    ensures EncFrom(d, m, p).Some?
    decreases d, 1 + |m| - p
  {
    if p < |m| {
      FieldEncodes(d, p, m);
      FromEncodes(d, m, p + 1);
    }
  }

  /** Every struct of the descriptor's type has an encoding. */
  lemma MsgEncodes(d: Desc, m: seq<Slot>)
    requires WellFormed(d) && MsgTyped(d, m)
    ensures EncMsg(d, m).Some?
    decreases d, |m| + 2
  {
    FromEncodes(d, m, 0);
  }

  // ------------------------------------------------------------ one-value fields

  /** The slot that a single record of entry `p` leaves behind. */
  function Written(f: Field, v: Value): Slot {
    if f.htype.ONEOF? then Union(f.tag, v)
    else if HasField(f) then Optional(true, v)
    else Single(v)
  }

  /** One record of a required, optional or oneof entry, given what its value decodes to. */
  lemma SingleRecord(d: Desc, m: seq<Slot>, p: nat, v: Value, rest: seq<byte>)
    requires WellFormed(d) && MsgTyped(d, m) && p < |m| && !d.fields[p].htype.REPEATED?
    requires var f := d.fields[p];
      && EncValue(f, v).Some?
      && DecValue(f, DefaultValue(f), EncValue(f, v).value + rest) ==
           (if ValueDecodable(f, v) then Ok(CanonValue(f, v), rest) else Fail)
      && PartialSlot(d, p + 1, Head(d, p), m[Head(d, p)]) == Written(f, CanonValue(f, v))
      && (f.htype.ONEOF? || PartialSlot(d, p, p, m[p]) == DefaultSlot(d, p))
    ensures DecLoop(d, EncRecord(d.fields[p], v).value + rest, Partial(d, m, p)) ==
            if ValueDecodable(d.fields[p], v) then DecLoop(d, rest, Partial(d, m, p + 1)) else Fail
  {
    hide DecLoop, DecField, DecValue;
    var f, st := d.fields[p], Partial(d, m, p);
    var body := EncValue(f, v).value + rest;
    var wt := WireType(f.ltype);
    assert EncRecord(f, v).value + rest == EncKey(f.tag, wt) + body;
    RecordStep(d, p, wt, body, st);
    NoteAdvances(d, m, p);
    SlotsAdvance(d, m, p);
    SingleStored(d, m, p, v, body, rest);
  }

  /** The decoding of a required, optional or oneof record, after its key. */
  lemma SingleStored(d: Desc, m: seq<Slot>, p: nat, v: Value, body: seq<byte>, rest: seq<byte>)
    requires p < |d.fields| == |m| && !d.fields[p].htype.REPEATED?
    requires var f, h := d.fields[p], Head(d, p);
      && DecValue(f, DefaultValue(f), body) ==
           (if ValueDecodable(f, v) then Ok(CanonValue(f, v), rest) else Fail)
      && Partial(d, m, p + 1).m == Partial(d, m, p).m[h := Written(f, CanonValue(f, v))]
      && (f.htype.ONEOF? || Partial(d, m, p).m[h] == DefaultSlot(d, p))
    ensures var st' := Partial(d, m, p).(seen := Partial(d, m, p + 1).seen);
      DecField(d, p, WireType(d.fields[p].ltype), body, st') ==
      if ValueDecodable(d.fields[p], v) then Ok(Partial(d, m, p + 1), rest) else Fail
  {
    var f, h := d.fields[p], Head(d, p);
    var st' := Partial(d, m, p).(seen := Partial(d, m, p + 1).seen);
    assert Partial(d, m, p + 1) == st'.(m := st'.m[h := Written(f, CanonValue(f, v))]);
  }

  /** An entry that writes nothing and is at its default already. */
  lemma NoRecord(d: Desc, m: seq<Slot>, p: nat)
    requires WellFormed(d) && MsgTyped(d, m) && p < |m|
    requires !d.fields[p].htype.REQUIRED? && (FixedCount(d.fields[p]) ==> d.fields[p].arraySize == 0)
    requires var h := Head(d, p); PartialSlot(d, p + 1, h, m[h]) == PartialSlot(d, p, h, m[h])
    ensures Partial(d, m, p + 1) == Partial(d, m, p)
  {
    SlotsAdvance(d, m, p);
    assert Partial(d, m, p + 1).m == Partial(d, m, p).m;
  }

  // ---------------------------------------------------------------------- arrays

  /** The array slot once `k` elements have arrived. */
  function Filled(f: Field, items: seq<Value>, k: nat): (r: seq<Value>)
    requires k <= |items|
    ensures |r| == if FixedCount(f) then |items| else k
  {
    CanonItems(f, items[..k]) + if FixedCount(f) then seq(|items| - k, _ => DefaultValue(f)) else []
  }

  lemma FilledStep(f: Field, items: seq<Value>, k: nat)
    requires k < |items|
    ensures Put(f, Filled(f, items, k), k, CanonValue(f, items[k])) == Filled(f, items, k + 1)
  {}

  ghost predicate ArrayTyped(f: Field, items: seq<Value>) {
    && (if FixedCount(f) then |items| == f.arraySize else |items| <= f.arraySize)
    && forall k :: 0 <= k < |items| ==> ValueTyped(f, items[k])
  }

  lemma {:induction false} PackedRoundTrip(f: Field, items: seq<Value>, k: nat)
    requires FieldWellFormed(f) && Packable(f.ltype) && ArrayTyped(f, items) && k <= |items|
    ensures EncPacked(f, items, k).Some?
    ensures DecPacked(f, EncPacked(f, items, k).value, Filled(f, items, k), k)
            == Some((Filled(f, items, |items|), |items|))
    decreases |items| - k
  {
    if k < |items| {
      PackedRoundTrip(f, items, k + 1);
      FilledStep(f, items, k);
      var more := EncPacked(f, items, k + 1).value;
      NumRoundTrip(f, items[k].n, more);
    }
  }

  /** The state once `k` elements of the array at entry `p` have arrived. */
  ghost function Delivered(d: Desc, m: seq<Slot>, p: nat, k: nat): (st: State)
    requires p < |d.fields| == |m| && m[p].Array? && k <= |m[p].items|
    ensures |st.m| == |m|
  {
    var f, st := d.fields[p], Partial(d, m, p);
    var st' := st.(m := st.m[p := Array(Filled(f, m[p].items, k))]);
    if FixedCount(f) && k > 0 then st'.(run := Some(p), count := k) else st'
  }

  lemma DeliveredEnds(d: Desc, m: seq<Slot>, p: nat)
    requires WellFormed(d) && MsgTyped(d, m) && p < |m| && d.fields[p].htype.REPEATED? && m[p].Array?
    ensures Delivered(d, m, p, 0) == Partial(d, m, p)
    ensures Delivered(d, m, p, |m[p].items|) == Partial(d, m, p + 1)
  {
    var f, items := d.fields[p], m[p].items;
    assert SlotTyped(d, p, m[p]);
    SlotsAdvance(d, m, p);
    assert items[..|items|] == items;
    assert Filled(f, items, |items|) == CanonItems(f, items);
    assert Array(Filled(f, items, 0)) == DefaultSlot(d, p);
    assert Partial(d, m, p).m[p := DefaultSlot(d, p)] == Partial(d, m, p).m;
  }

  /** The run bookkeeping when the next element of an array arrives. */
  lemma NoteDelivered(d: Desc, m: seq<Slot>, p: nat, k: nat)
    requires p < |d.fields| == |m| && m[p].Array? && k <= |m[p].items| && d.fields[p].htype.REPEATED?
    ensures var st := Delivered(d, m, p, k);
      Note(d, p, st) == Some(if FixedCount(d.fields[p]) then st.(run := Some(p), count := k) else st)
  {
    var run := LastRun(d, p);
  }

  /** One element of an array that is not packed. */
  lemma ElementRecord(d: Desc, m: seq<Slot>, p: nat, k: nat, rest: seq<byte>)
    requires WellFormed(d) && MsgTyped(d, m) && p < |m| && d.fields[p].htype.REPEATED? && m[p].Array?
    requires k < |m[p].items| && !Packable(d.fields[p].ltype)
    requires var f, v := d.fields[p], m[p].items[k];
      && EncValue(f, v).Some?
      && DecValue(f, DefaultValue(f), EncValue(f, v).value + rest) ==
           (if ValueDecodable(f, v) then Ok(CanonValue(f, v), rest) else Fail)
    ensures DecLoop(d, EncRecord(d.fields[p], m[p].items[k]).value + rest, Delivered(d, m, p, k)) ==
            if ValueDecodable(d.fields[p], m[p].items[k])
            then DecLoop(d, rest, Delivered(d, m, p, k + 1)) else Fail
  {
    hide DecLoop, DecField, DecValue;
    var f, v, st := d.fields[p], m[p].items[k], Delivered(d, m, p, k);
    var body := EncValue(f, v).value + rest;
    var wt := WireType(f.ltype);
    assert EncRecord(f, v).value + rest == EncKey(f.tag, wt) + body;
    assert SlotTyped(d, p, m[p]);
    RecordStep(d, p, wt, body, st);
    NoteDelivered(d, m, p, k);
    ElementStored(d, m, p, k, body, rest);
  }

  /** The decoding of one element's record, after its key. */
  lemma ElementStored(d: Desc, m: seq<Slot>, p: nat, k: nat, body: seq<byte>, rest: seq<byte>)
    requires p < |d.fields| == |m| && d.fields[p].htype.REPEATED? && m[p].Array?
    requires k < |m[p].items| <= d.fields[p].arraySize && !Packable(d.fields[p].ltype)
    requires var f, v := d.fields[p], m[p].items[k];
      DecValue(f, DefaultValue(f), body) ==
        (if ValueDecodable(f, v) then Ok(CanonValue(f, v), rest) else Fail)
    ensures var f, st := d.fields[p], Delivered(d, m, p, k);
      DecField(d, p, WireType(f.ltype), body, if FixedCount(f) then st.(run := Some(p), count := k) else st) ==
      if ValueDecodable(f, m[p].items[k]) then Ok(Delivered(d, m, p, k + 1), rest) else Fail
  {
    var f, v, st := d.fields[p], m[p].items[k], Delivered(d, m, p, k);
    var st' := if FixedCount(f) then st.(run := Some(p), count := k) else st;
    FilledStep(f, m[p].items, k);
    if ValueDecodable(f, v) {
      var next := Stored(f, p, st', Filled(f, m[p].items, k + 1), k + 1);
      assert next == Delivered(d, m, p, k + 1);
      assert Items(st'.m[p]) == Filled(f, m[p].items, k);
    }
  }

  /** A packed array, all in one record. */
  lemma PackedRecord(d: Desc, m: seq<Slot>, p: nat, rest: seq<byte>)
    requires WellFormed(d) && MsgTyped(d, m) && p < |m| && d.fields[p].htype.REPEATED? && m[p].Array?
    requires Packable(d.fields[p].ltype) && m[p].items != []
    requires EncPacked(d.fields[p], m[p].items, 0).Some? && |EncPacked(d.fields[p], m[p].items, 0).value| < B63
    ensures EncArray(d.fields[p], m[p].items).Some?
    ensures DecLoop(d, EncArray(d.fields[p], m[p].items).value + rest, Partial(d, m, p)) ==
            if ArrayDecodable(d.fields[p], m[p].items)
            then DecLoop(d, rest, Partial(d, m, p + 1)) else Fail
  {
    hide DecLoop, DecField, Partial;
    var f, items, st := d.fields[p], m[p].items, Partial(d, m, p);
    assert SlotTyped(d, p, m[p]) && FieldWellFormed(f);
    var payload := EncPacked(f, items, 0).value;
    var body := EncString(payload) + rest;
    assert EncArray(f, items).value + rest == EncKey(f.tag, WT_STRING) + body;
    RecordStep(d, p, WT_STRING, body, st);
    StringRoundTrip(payload, rest);
    DeliveredEnds(d, m, p);
    NoteDelivered(d, m, p, 0);
    PackedRoundTrip(f, items, 0);
    PackedStored(d, m, p, body, rest);
    forall k | 0 <= k < |items| ensures ValueDecodable(f, items[k]) {
      assert ValueTyped(f, items[k]);
    }
  }

  /** The decoding of a packed record, after its key. */
  lemma PackedStored(d: Desc, m: seq<Slot>, p: nat, body: seq<byte>, rest: seq<byte>)
    requires WellFormed(d) && MsgTyped(d, m) && p < |m| && d.fields[p].htype.REPEATED? && m[p].Array?
    requires Packable(d.fields[p].ltype) && FieldWellFormed(d.fields[p]) && ArrayTyped(d.fields[p], m[p].items)
    requires m[p].items != []
    requires EncPacked(d.fields[p], m[p].items, 0).Some?
    requires var payload := EncPacked(d.fields[p], m[p].items, 0).value;
             DecString(body) == if |payload| < B32 then Ok(payload, rest) else Fail
    ensures var f, st := d.fields[p], Partial(d, m, p);
      var st' := if FixedCount(f) then st.(run := Some(p), count := 0) else st;
      DecField(d, p, WT_STRING, body, st') ==
      if |EncPacked(f, m[p].items, 0).value| < B32 then Ok(Partial(d, m, p + 1), rest) else Fail
  {
    var f, items, st := d.fields[p], m[p].items, Partial(d, m, p);
    var payload := EncPacked(f, items, 0).value;
    DeliveredEnds(d, m, p);
    PackedRoundTrip(f, items, 0);
    if |payload| < B32 {
      var st' := if FixedCount(f) then st.(run := Some(p), count := 0) else st;
      var r := DecField(d, p, WT_STRING, body, st');
      assert Items(st'.m[p]) == Filled(f, items, 0);
      assert r == Ok(Stored(f, p, st', Filled(f, items, |items|), |items|), rest);
      assert r.value == Delivered(d, m, p, |items|);
    }
  }

  // ---------------------------------------------------------------- the induction

  lemma {:induction false} ValueRoundTrip(f: Field, v: Value, prior: Value, rest: seq<byte>)
    requires FieldWellFormed(f) && ValueTyped(f, v)
    requires f.ltype.SUBMESSAGE? ==> prior == DefaultValue(f)
    requires EncValue(f, v).Some? && |EncValue(f, v).value| < B63
    ensures DecValue(f, prior, EncValue(f, v).value + rest) ==
            if ValueDecodable(f, v) then Ok(CanonValue(f, v), rest) else Fail
    decreases f, 0
  {
    match v
    case Num(n) => NumRoundTrip(f, n, rest);
    case Blob(b) => BlobRoundTrip(f, b, prior, rest);
    case Msg(slots) =>
      var payload := EncMsg(f.sub, slots).value;
      StringRoundTrip(payload, rest);
      if |payload| < B32 { MsgRoundTrip(f.sub, slots); }
  }

  ghost predicate TailDecodable(f: Field, items: seq<Value>, k: nat) {
    forall i :: k <= i < |items| ==> ValueDecodable(f, items[i])
  }

  lemma TailSplit(f: Field, items: seq<Value>, k: nat)
    requires k < |items|
    ensures TailDecodable(f, items, k) <==> ValueDecodable(f, items[k]) && TailDecodable(f, items, k + 1)
  {}

  lemma RecordsSplit(f: Field, items: seq<Value>, k: nat, rest: seq<byte>)
    requires k < |items| && EncRecords(f, items, k).Some?
    ensures EncRecord(f, items[k]).Some? && EncRecords(f, items, k + 1).Some? && EncValue(f, items[k]).Some?
    ensures |EncRecords(f, items, k + 1).value| <= |EncRecords(f, items, k).value|
    ensures |EncValue(f, items[k]).value| <= |EncRecords(f, items, k).value|
    ensures EncRecords(f, items, k).value + rest ==
            EncRecord(f, items[k]).value + (EncRecords(f, items, k + 1).value + rest)
  {}

  lemma {:induction false} ElementsRoundTrip(d: Desc, m: seq<Slot>, p: nat, k: nat, rest: seq<byte>)
    requires WellFormed(d) && MsgTyped(d, m) && p < |m| && d.fields[p].htype.REPEATED? && m[p].Array?
    requires k <= |m[p].items| && !Packable(d.fields[p].ltype)
    requires EncRecords(d.fields[p], m[p].items, k).Some?
    requires |EncRecords(d.fields[p], m[p].items, k).value| < B63
    ensures DecLoop(d, EncRecords(d.fields[p], m[p].items, k).value + rest, Delivered(d, m, p, k)) ==
            if TailDecodable(d.fields[p], m[p].items, k) then DecLoop(d, rest, Partial(d, m, p + 1)) else Fail
    decreases d, 0, |m[p].items| - k
  {
    hide DecLoop, DecValue;
    var f, items := d.fields[p], m[p].items;
    if k == |items| {
      DeliveredEnds(d, m, p);
      assert EncRecords(f, items, k).value + rest == rest;
    } else {
      assert SlotTyped(d, p, m[p]) && FieldWellFormed(f);
      RecordsSplit(f, items, k, rest);
      var more := EncRecords(f, items, k + 1).value + rest;
      ValueRoundTrip(f, items[k], DefaultValue(f), more);
      ElementRecord(d, m, p, k, more);
      ElementsRoundTrip(d, m, p, k + 1, rest);
      TailSplit(f, items, k);
    }
  }

  lemma {:induction false} FieldRoundTrip(d: Desc, m: seq<Slot>, p: nat, rest: seq<byte>)
    requires WellFormed(d) && MsgTyped(d, m) && p < |m|
    requires EncField(d, p, m).Some? && |EncField(d, p, m).value| < B63
    ensures DecLoop(d, EncField(d, p, m).value + rest, Partial(d, m, p)) ==
            if FieldDecodable(d, p, m) then DecLoop(d, rest, Partial(d, m, p + 1)) else Fail
    decreases d, 1
  {
    hide DecLoop, DecValue;
    var f, h := d.fields[p], Head(d, p);
    var s := m[h];
    assert FieldWellFormed(f) && SlotTyped(d, h, s) && SlotTyped(d, p, m[p]);
    if f.htype.REPEATED? {
      ArrayRoundTrip(d, m, p, rest);
    } else if EncField(d, p, m).value == [] {
      Unwritten(d, m, p);
      assert EncField(d, p, m).value + rest == rest;
    } else {
      var v := s.v;
      WrittenOnce(d, m, p);
      ValueRoundTrip(f, v, DefaultValue(f), rest);
      SingleRecord(d, m, p, v, rest);
    }
  }

  lemma {:induction false} ArrayRoundTrip(d: Desc, m: seq<Slot>, p: nat, rest: seq<byte>)
    requires WellFormed(d) && MsgTyped(d, m) && p < |m| && d.fields[p].htype.REPEATED?
    requires EncField(d, p, m).Some? && |EncField(d, p, m).value| < B63
    ensures DecLoop(d, EncField(d, p, m).value + rest, Partial(d, m, p)) ==
            if FieldDecodable(d, p, m) then DecLoop(d, rest, Partial(d, m, p + 1)) else Fail
    decreases d, 0
  {
    hide DecLoop, DecValue;
    var f := d.fields[p];
    assert SlotTyped(d, p, m[p]) && m[p].Array?;
    var items := m[p].items;
    if items == [] {
      DeliveredEnds(d, m, p);
      assert EncField(d, p, m).value + rest == rest;
    } else if Packable(f.ltype) {
      PackedRecord(d, m, p, rest);
    } else {
      DeliveredEnds(d, m, p);
      ElementsRoundTrip(d, m, p, 0, rest);
      assert TailDecodable(f, items, 0) <==> ArrayDecodable(f, items);
    }
  }

  /** A field that writes nothing. */
  lemma Unwritten(d: Desc, m: seq<Slot>, p: nat)
    requires WellFormed(d) && MsgTyped(d, m) && p < |m| && !d.fields[p].htype.REPEATED?
    requires EncField(d, p, m) == Some([])
    ensures FieldDecodable(d, p, m) && Partial(d, m, p + 1) == Partial(d, m, p)
  {
    var f, h := d.fields[p], Head(d, p);
    var s := m[h];
    assert FieldWellFormed(f) && SlotTyped(d, h, s) && SlotTyped(d, p, m[p]);
    if Singular(f) {
      ZeroIsDefault(f, s.v);
    } else if f.htype.ONEOF? && s != Union(0, Num(0)) {
      var q :| h <= q < |d.fields| && Selects(d, h, q, s);
      SelectedIsFound(d, h, q, s);
    }
    NoRecord(d, m, p);
  }

  /** A field that writes one record. */
  lemma WrittenOnce(d: Desc, m: seq<Slot>, p: nat)
    requires WellFormed(d) && MsgTyped(d, m) && p < |m| && !d.fields[p].htype.REPEATED?
    requires EncField(d, p, m).Some? && EncField(d, p, m).value != []
    ensures var f, h := d.fields[p], Head(d, p);
      var s := m[h];
      && (s.Single? || s.Optional? || s.Union?)
      && FieldWellFormed(f) && ValueTyped(f, s.v)
      && EncValue(f, s.v).Some? && EncField(d, p, m) == EncRecord(f, s.v)
      && |EncValue(f, s.v).value| <= |EncField(d, p, m).value|
      && (FieldDecodable(d, p, m) <==> ValueDecodable(f, s.v))
      && PartialSlot(d, p + 1, h, s) == Written(f, CanonValue(f, s.v))
      && (f.htype.ONEOF? || PartialSlot(d, p, p, m[p]) == DefaultSlot(d, p))
  {
    var f, h := d.fields[p], Head(d, p);
    var s := m[h];
    assert FieldWellFormed(f) && SlotTyped(d, h, s);
    if f.htype.ONEOF? {
      var q :| h <= q < |d.fields| && Selects(d, h, q, s);
      SelectedIsFound(d, h, q, s);
      UniqueTag(d, p);
    }
  }

  ghost predicate FieldsDecodable(d: Desc, m: seq<Slot>, p: nat)
    requires |m| == |d.fields|
  {
    forall q :: p <= q < |m| ==> FieldDecodable(d, q, m)
  }

  lemma FieldsSplit(d: Desc, m: seq<Slot>, p: nat)
    requires p < |d.fields| == |m|
    ensures FieldsDecodable(d, m, p) <==> FieldDecodable(d, p, m) && FieldsDecodable(d, m, p + 1)
    ensures EncFrom(d, m, p).Some? ==>
      && EncField(d, p, m).Some? && EncFrom(d, m, p + 1).Some?
      && EncFrom(d, m, p).value == EncField(d, p, m).value + EncFrom(d, m, p + 1).value
  {}

  lemma {:induction false} FromRoundTrip(d: Desc, m: seq<Slot>, p: nat)
    requires WellFormed(d) && MsgTyped(d, m) && p <= |m|
    requires EncFrom(d, m, p).Some? && |EncFrom(d, m, p).value| < B63
    ensures DecLoop(d, EncFrom(d, m, p).value, Partial(d, m, p)) ==
            if FieldsDecodable(d, m, p) then Ok(Partial(d, m, |m|), []) else Fail
    decreases d, 2, |m| - p
  {
    if p < |m| {
      hide DecLoop;
      FieldsSplit(d, m, p);
      FieldRoundTrip(d, m, p, EncFrom(d, m, p + 1).value);
      FromRoundTrip(d, m, p + 1);
    }
  }

  /** Decoding an encoded struct succeeds exactly when its strings are terminated
      and its length prefixes fit in 32 bits; it then takes every byte and gives
      the struct back, with the content of absent optionals at its default. */
  lemma {:induction false} MsgRoundTrip(d: Desc, m: seq<Slot>)
    requires WellFormed(d) && MsgTyped(d, m)
    requires EncMsg(d, m).Some? && |EncMsg(d, m).value| < B63
    ensures DecMsg(d, EncMsg(d, m).value) ==
            if MsgDecodable(d, m) then Ok(CanonMsg(d, m), []) else Fail
    decreases d, 3
  {
    PartialStart(d, m);
    FromRoundTrip(d, m, 0);
    PartialEnd(d, m);
    assert FieldsDecodable(d, m, 0) <==> MsgDecodable(d, m);
  }
}
