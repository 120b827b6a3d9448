/** The bytes that pb_encode produces for a struct, as a function. */
module PbEncodeSpec {
  import opened Wrappers
  import opened Words
  import opened PbWire
  import opened PbKeys
  import opened PbMessages

  function WireType(l: LType): (wt: nat)
    ensures wt < 8
  {
    match l
    case VARINT => WT_VARINT
    case UVARINT => WT_VARINT
    case SVARINT => WT_VARINT
    case FIXED32 => WT_32BIT
    case FIXED64 => WT_64BIT
    case _ => WT_STRING
  }

  /** The scalar pb_enc_* functions, for a number the struct member can hold. */
  function EncNum(f: Field, n: int): Option<seq<byte>> {
    if !InRange(f, n) then None
    else if f.ltype.SVARINT? then Some(Varint(ZigZag(n)))
    else if f.ltype.FIXED32? then Some(Le(n, 4))
    else if f.ltype.FIXED64? then Some(Le(n, 8))
    else Some(Varint(if n < 0 then n + B64 else n))
  }

  /** pb_enc_bytes, pb_enc_string and pb_enc_fixed_length_bytes. */
  function EncBlob(f: Field, b: seq<byte>): Option<seq<byte>> {
    match f.ltype
    case BYTES => if |b| + BYTES_OFFSET > f.dataSize then None else Some(EncString(b))
    case STRING => Some(EncString(CString(b, f.dataSize)))
    case FIXED_LENGTH_BYTES => if |b| != f.dataSize then None else Some(EncString(b))
    case _ => None
  }

  /** PB_ENCODERS: one value without its key. */
  function EncValue(f: Field, v: Value): Option<seq<byte>>
    decreases f, 0
  {
    match v
    case Num(n) => EncNum(f, n)
    case Blob(b) => EncBlob(f, b)
    case Msg(slots) =>
      if !f.ltype.SUBMESSAGE? || |slots| != |f.sub.fields| then None
      else
        var e := EncMsg(f.sub, slots);
        if e.None? then None else Some(EncString(e.value))
  }

  /** A record: key and value. */
  function EncRecord(f: Field, v: Value): Option<seq<byte>>
    decreases f, 1
  {
    var e := EncValue(f, v);
    if e.None? then None else Some(EncKey(f.tag, WireType(f.ltype)) + e.value)
  }

  /** The elements of an array from index `k`, one record each. */
  function EncRecords(f: Field, items: seq<Value>, k: nat): Option<seq<byte>>
    requires k <= |items|
    decreases f, 2, |items| - k
  {
    if k == |items| then Some([])
    else
      var e, es := EncRecord(f, items[k]), EncRecords(f, items, k + 1);
      if e.None? || es.None? then None else Some(e.value + es.value)
  }

  /** The elements of a packed array from index `k`, without keys. */
  function EncPacked(f: Field, items: seq<Value>, k: nat): Option<seq<byte>>
    requires k <= |items|
    decreases f, 2, |items| - k
  {
    if k == |items| then Some([])
    else
      var e, es := EncValue(f, items[k]), EncPacked(f, items, k + 1);
      if e.None? || es.None? then None else Some(e.value + es.value)
  }

  /** encode_array. */
  function EncArray(f: Field, items: seq<Value>): Option<seq<byte>>
    decreases f, 3
  {
    if items == [] then Some([])
    else if |items| > f.arraySize then None
    else if Packable(f.ltype) then
      var es := EncPacked(f, items, 0);
      if es.None? then None else Some(EncKey(f.tag, WT_STRING) + EncString(es.value))
    else EncRecords(f, items, 0)
  }

  /** encode_basic_field on entry `p`. */
  function EncField(d: Desc, p: nat, m: seq<Slot>): Option<seq<byte>>
    requires p < |d.fields| == |m|
    decreases d, 0
  {
    var f, s := d.fields[p], m[Head(d, p)];
    match f.htype
    case REQUIRED => if s.Single? then EncRecord(f, s.v) else None
    case OPTIONAL =>
      if HasField(f) then
        if !s.Optional? then None else if s.has then EncRecord(f, s.v) else Some([])
      else
        if !s.Single? then None else if IsZeroValue(f, s.v) then Some([]) else EncRecord(f, s.v)
    case REPEATED => if s.Array? then EncArray(f, s.items) else None
    case ONEOF =>
      if !s.Union? then None else if s.which == f.tag then EncRecord(f, s.v) else Some([])
  }

  /** pb_encode, from entry `p` on. */
  function EncFrom(d: Desc, m: seq<Slot>, p: nat): Option<seq<byte>>
    requires p <= |d.fields| == |m|
    decreases d, 1 + |d.fields| - p
  {
    if p == |d.fields| then Some([])
    else
      var e, es := EncField(d, p, m), EncFrom(d, m, p + 1);
      if e.None? || es.None? then None else Some(e.value + es.value)
  }

  /** pb_encode. */
  function EncMsg(d: Desc, m: seq<Slot>): Option<seq<byte>>
    requires |m| == |d.fields|
    decreases d, 2 + |d.fields|
  {
    EncFrom(d, m, 0)
  }
}
