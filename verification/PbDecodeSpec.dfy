/** What pb_decode makes of a byte sequence, as a function. */
module PbDecodeSpec {
  import opened Wrappers
  import opened Words
  import opened PbWire
  import opened PbKeys
  import opened PbMessages

  const PB_MAX_REQUIRED_FIELDS: nat := 64

  /** The state of pb_decode_noinit: the struct, the required entries seen (by
      their index among the required ones), and the fixed-count run in progress
      with the number of elements it has delivered. */
  datatype State = State(m: seq<Slot>, seen: set<nat>, run: Option<nat>, count: nat)

  /** The scalar pb_dec_* functions. */
  function DecNum(f: Field, bs: seq<byte>): (r: Parse<Value>)
    ensures r.Ok? ==> Tail(bs, r.rest)
  {
    match f.ltype
    case FIXED32 => NumOf(Take(4, bs))
    case FIXED64 => NumOf(Take(8, bs))
    case _ =>
      match DecVarint(bs)
      case Fail => Fail
      case Ok(u, rest) =>
        if VarSize(f.dataSize) && InRange(f, FromWord(f, u)) then Ok(Num(FromWord(f, u)), rest) else Fail
  }

  /** The number a varint stands for: as it is, zigzag-coded, or sign-extended
      from 64 bits or, for smaller members, from its low 32 bits. */
  function FromWord(f: Field, u: nat): int {
    if f.ltype.UVARINT? then u
    else if f.ltype.SVARINT? then UnZigZag(u)
    else if f.dataSize == 8 then (if u < B63 then u else u - B64)
    else (if u % B32 < B31 then u % B32 else u % B32 - B32)
  }

  function NumOf(r: Parse<seq<byte>>): Parse<Value> {
    match r case Fail => Fail case Ok(b, rest) => Ok(Num(FromLe(b)), rest)
  }

  /** pb_dec_bytes, pb_dec_string and pb_dec_fixed_length_bytes after the read. */
  function StoreBlob(f: Field, b: seq<byte>): Option<Value> {
    match f.ltype
    case BYTES => if |b| + BYTES_OFFSET > f.dataSize then None else Some(Blob(b))
    case STRING => if |b| + 1 > f.dataSize then None else Some(Blob(UpToNul(b)))
    case _ =>
      if b == [] then Some(Blob(seq(f.dataSize, _ => 0)))
      else if |b| != f.dataSize then None
      else Some(Blob(b))
  }

  /** PB_DECODERS: one value. A submessage is merged into `prior`. */
  function DecValue(f: Field, prior: Value, bs: seq<byte>): (r: Parse<Value>)
    ensures r.Ok? ==> Tail(bs, r.rest)
    decreases |bs|, 0
  {
    if f.ltype.SUBMESSAGE? then
      match DecString(bs)
      case Fail => Fail
      case Ok(payload, rest) =>
        var into := if prior.Msg? && |prior.slots| == |f.sub.fields| then prior.slots else DefaultMsg(f.sub);
        match DecNoinit(f.sub, payload, into)
        case Fail => Fail
        case Ok(m, _) => Ok(Msg(m), rest)
    else if f.ltype.BYTES? || f.ltype.STRING? || f.ltype.FIXED_LENGTH_BYTES? then
      match DecString(bs)
      case Fail => Fail
      case Ok(payload, rest) =>
        var v := StoreBlob(f, payload);
        if v.None? then Fail else Ok(v.value, rest)
    else DecNum(f, bs)
  }

  /** Element `k` of an array: an update in place for a fixed-count array. */
  function Put(f: Field, items: seq<Value>, k: nat, v: Value): seq<Value> {
    if FixedCount(f) then (if k < |items| then items[k := v] else items) else items + [v]
  }

  /** The loop over a packed array; the whole payload must be used up. */
  function DecPacked(f: Field, payload: seq<byte>, items: seq<Value>, k: nat): Option<(seq<Value>, nat)>
    decreases |payload|, 1
  {
    if payload == [] then Some((items, k))
    else if k >= f.arraySize then None
    else
      match DecValue(f, DefaultValue(f), payload)
      case Fail => None
      case Ok(v, rest) => DecPacked(f, rest, Put(f, items, k, v), k + 1)
  }

  function OldValue(s: Slot): Value {
    match s
    case Single(v) => v
    case Optional(_, v) => v
    case _ => Num(0)
  }

  function Items(s: Slot): seq<Value> {
    match s case Array(items) => items case _ => []
  }

  /** decode_static_field on entry `p`. */
  function DecField(d: Desc, p: nat, wt: nat, bs: seq<byte>, st: State): (r: Parse<State>)
    requires p < |d.fields| == |st.m|
    ensures r.Ok? ==> Tail(bs, r.rest) && |r.value.m| == |st.m|
    decreases |bs|, 2
  {
    var f, h := d.fields[p], Head(d, p);
    if f.htype.REPEATED? then
      var items := Items(st.m[h]);
      var k := if FixedCount(f) then st.count else |items|;
      if wt == WT_STRING && Packable(f.ltype) then
        match DecString(bs)
        case Fail => Fail
        case Ok(payload, rest) =>
          match DecPacked(f, payload, items, k)
          case None => Fail
          case Some(r) => Ok(Stored(f, h, st, r.0, r.1), rest)
      else if k >= f.arraySize then Fail
      else
        match DecValue(f, DefaultValue(f), bs)
        case Fail => Fail
        case Ok(v, rest) => Ok(Stored(f, h, st, Put(f, items, k, v), k + 1), rest)
    else
      var prior := if f.htype.ONEOF? then DefaultValue(f) else OldValue(st.m[h]);
      match DecValue(f, prior, bs)
      case Fail => Fail
      case Ok(v, rest) =>
        var s := if f.htype.ONEOF? then Union(f.tag, v)
                 else if HasField(f) then Optional(true, v)
                 else Single(v);
        Ok(st.(m := st.m[h := s]), rest)
  }

  function Stored(f: Field, h: nat, st: State, items: seq<Value>, k: nat): State
    requires h < |st.m|
  {
    st.(m := st.m[h := Array(items)], count := if FixedCount(f) then k else st.count)
  }

  /** The bookkeeping of pb_decode_noinit before entry `p` is decoded. */
  function Note(d: Desc, p: nat, st: State): (r: Option<State>)
    requires p < |d.fields|
    ensures r.Some? ==> r.value.m == st.m
  {
    var f := d.fields[p];
    if FixedCount(f) && st.run != Some(p) then
      if RunComplete(d, st) then Some(st.(run := Some(p), count := 0)) else None
    else if f.htype.REQUIRED? && RequiredBefore(d, p) < PB_MAX_REQUIRED_FIELDS then
      Some(st.(seen := st.seen + {RequiredBefore(d, p)}))
    else Some(st)
  }

  /** The last fixed-count run, if any, has delivered all its elements. */
  predicate RunComplete(d: Desc, st: State) {
    st.run.Some? ==> st.run.value < |d.fields| && st.count == d.fields[st.run.value].arraySize
  }

  /** Each of the first PB_MAX_REQUIRED_FIELDS required entries was seen. */
  predicate AllSeen(d: Desc, st: State) {
    forall i :: 0 <= i < RequiredBefore(d, |d.fields|) && i < PB_MAX_REQUIRED_FIELDS ==> i in st.seen
  }

  /** One record of a message: its key is read, the rest starts at `bs`. */
  function DecRecord(d: Desc, tag: nat, wt: nat, bs: seq<byte>, st: State): (r: Parse<State>)
    requires |st.m| == |d.fields|
    ensures r.Ok? ==> Suffix(bs, r.rest) && |r.value.m| == |st.m|
    decreases |bs|, 3
  {
    // On an empty table the iterator rests on the terminator, whose tag is 0
    // and whose size no varint fits.
    if d.fields == [] && tag == 0 then Fail
    else
      match Find(d, tag)
      case None => (match Skip(wt, bs) case Fail => Fail case Ok(_, rest) => Ok(st, rest))
      case Some(p) =>
        match Note(d, p, st)
        case None => Fail
        case Some(st') => DecField(d, p, wt, bs, st')
  }

  /** The loop of pb_decode_noinit. */
  function DecLoop(d: Desc, bs: seq<byte>, st: State): (r: Parse<State>)
    requires |st.m| == |d.fields|
    ensures r.Ok? ==> Suffix(bs, r.rest) && |r.value.m| == |st.m|
    decreases |bs|, 4
  {
    if bs == [] then Ok(st, [])
    else
      match DecKey(bs)
      case BadKey => Fail
      case Terminator(after) => Ok(st, after)
      case Key(tag, wt, after) =>
        match DecRecord(d, tag, wt, after, st)
        case Fail => Fail
        case Ok(st', rest) =>
          SuffixTrans(bs, after, rest);
          var r := DecLoop(d, rest, st');
          if r.Fail? then Fail else SuffixTrans(bs, rest, r.rest); r
  }

  function Start(m: seq<Slot>): State { State(m, {}, None, 0) }

  /** pb_decode_noinit: the loop, then the presence checks. */
  function DecNoinit(d: Desc, bs: seq<byte>, m: seq<Slot>): (r: Parse<seq<Slot>>)
    requires |m| == |d.fields|
    ensures r.Ok? ==> Suffix(bs, r.rest) && |r.value| == |m|
    decreases |bs|, 5
  {
    match DecLoop(d, bs, Start(m))
    case Fail => Fail
    case Ok(st, rest) => if RunComplete(d, st) && AllSeen(d, st) then Ok(st.m, rest) else Fail
  }

  /** pb_decode. */
  function DecMsg(d: Desc, bs: seq<byte>): Parse<seq<Slot>> {
    DecNoinit(d, bs, DefaultMsg(d))
  }
}
