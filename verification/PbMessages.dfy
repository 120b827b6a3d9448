/** Descriptor tables and the message structs they describe.

    A struct is one slot per descriptor entry; the entries of a oneof share the
    slot of the first of them. Everything here is for PB_FIELD_32BIT, static
    allocation, no callbacks and no extensions. */
module PbMessages {
  import opened Wrappers
  import opened Words

  const PB_SIZE_MAX: int := B32 - 1

  /** offsetof(pb_bytes_array_t, bytes): the size word in front of the bytes. */
  const BYTES_OFFSET: nat := 4

  datatype LType =
    | VARINT | UVARINT | SVARINT | FIXED32 | FIXED64   // the packable types
    | BYTES | STRING | SUBMESSAGE | FIXED_LENGTH_BYTES

  datatype HType = REQUIRED | OPTIONAL | REPEATED | ONEOF

  /** pb_field_t. `ptr` is `sub` for a submessage, else the default value. */
  datatype Field = Field(
    tag: nat, ltype: LType, htype: HType,
    dataOffset: nat, sizeOffset: int, dataSize: nat, arraySize: nat,
    sub: Desc, default: Option<Value>)

  datatype Desc = Desc(fields: seq<Field>)

  datatype Value =
    | Num(n: int)
    | Blob(bytes: seq<byte>)     // strings up to, and without, their NUL
    | Msg(slots: seq<Slot>)

  datatype Slot =
    | Single(v: Value)                // required and proto3 singular
    | Optional(has: bool, v: Value)
    | Array(items: seq<Value>)        // the elements delivered so far
    | Union(which: nat, v: Value)
    | Shared                          // lives in an earlier entry's slot

  predicate Packable(l: LType) {
    l.VARINT? || l.UVARINT? || l.SVARINT? || l.FIXED32? || l.FIXED64?
  }

  predicate HasField(f: Field) { f.htype.OPTIONAL? && f.sizeOffset != 0 }
  predicate Singular(f: Field) { f.htype.OPTIONAL? && f.sizeOffset == 0 }
  predicate FixedCount(f: Field) { f.htype.REPEATED? && f.sizeOffset == 0 }

  /** Whether entry `p` lies in the same union as the entry before it. */
  predicate Joins(d: Desc, p: nat)
    requires p < |d.fields|
  {
    p > 0 && d.fields[p].htype.ONEOF? && d.fields[p - 1].htype.ONEOF? && d.fields[p].dataOffset == PB_SIZE_MAX
  }

  /** The entry whose slot holds the data of entry `p`. */
  function Head(d: Desc, p: nat): (h: nat)
    requires p < |d.fields|
    ensures h <= p && !Joins(d, h)
    ensures h < p ==> d.fields[h].htype.ONEOF? && d.fields[p].htype.ONEOF?
    ensures !d.fields[p].htype.ONEOF? ==> h == p
  {
    if Joins(d, p) then Head(d, p - 1) else p
  }

  /** The entry with a tag, as pb_field_iter_find returns it. */
  function FindFrom(d: Desc, tag: nat, i: nat): (r: Option<nat>)
    requires i <= |d.fields|
    ensures r.Some? ==> i <= r.value < |d.fields| && d.fields[r.value].tag == tag
    ensures r.Some? ==> forall q :: i <= q < r.value ==> d.fields[q].tag != tag
    ensures r.None? ==> forall q :: i <= q < |d.fields| ==> d.fields[q].tag != tag
    decreases |d.fields| - i
  {
    if i == |d.fields| then None
    else if d.fields[i].tag == tag then Some(i)
    else FindFrom(d, tag, i + 1)
  }

  function Find(d: Desc, tag: nat): (r: Option<nat>)
    ensures r.Some? ==> r.value < |d.fields| && d.fields[r.value].tag == tag
    ensures r.None? ==> forall q :: 0 <= q < |d.fields| ==> d.fields[q].tag != tag
  {
    FindFrom(d, tag, 0)
  }

  /** How many required entries come before entry `p`. */
  function RequiredBefore(d: Desc, p: nat): (n: nat)
    requires p <= |d.fields|
    ensures n <= p
  {
    if p == 0 then 0
    else RequiredBefore(d, p - 1) + if d.fields[p - 1].htype.REQUIRED? then 1 else 0
  }

  // ---------------------------------------------------------- typed structs

  predicate VarSize(n: nat) { n == 1 || n == 2 || n == 4 || n == 8 }

  /** 2^(8n-1), the bound of a signed word of n bytes. */
  function HalfRange(n: nat): (r: nat)
    requires VarSize(n)
    ensures 128 <= r <= B63
  {
    if n == 1 then 128 else if n == 2 then 0x8000 else if n == 4 then B31 else B63
  }

  /** Whether a struct member of a scalar type can hold a number. */
  predicate InRange(f: Field, n: int) {
    match f.ltype
    case VARINT => VarSize(f.dataSize) && -(HalfRange(f.dataSize) as int) <= n < HalfRange(f.dataSize)
    case SVARINT => VarSize(f.dataSize) && -(HalfRange(f.dataSize) as int) <= n < HalfRange(f.dataSize)
    case UVARINT => VarSize(f.dataSize) && 0 <= n < 2 * HalfRange(f.dataSize)
    case FIXED32 => 0 <= n < B32
    case FIXED64 => 0 <= n < B64
    case _ => false
  }

  /** The values a struct member of this type can hold. */
  ghost predicate ValueTyped(f: Field, v: Value)
    decreases f, 0
  {
    match f.ltype
    case BYTES => v.Blob? && |v.bytes| + BYTES_OFFSET <= f.dataSize
    case STRING => v.Blob? && |v.bytes| <= f.dataSize && 0 !in v.bytes
    case FIXED_LENGTH_BYTES => v.Blob? && |v.bytes| == f.dataSize
    case SUBMESSAGE => v.Msg? && MsgTyped(f.sub, v.slots)
    case _ => v.Num? && InRange(f, v.n)
  }

  ghost predicate SlotTyped(d: Desc, p: nat, s: Slot)
    requires p < |d.fields|
    decreases d, 2
  {
    var f := d.fields[p];
    if Joins(d, p) then s.Shared?
    else match f.htype
      case REQUIRED => s.Single? && ValueTyped(f, s.v)
      case OPTIONAL => (if HasField(f) then s.Optional? else s.Single?) && ValueTyped(f, s.v)
      case REPEATED =>
        && s.Array?
        && (if FixedCount(f) then |s.items| == f.arraySize else |s.items| <= f.arraySize)
        && forall k :: 0 <= k < |s.items| ==> ValueTyped(f, s.items[k])
      case ONEOF =>
        if s.Union? && s.which == 0 then s.v == Num(0)
        else exists q :: p <= q < |d.fields| && Selects(d, p, q, s)
  }

  /** Entry `q` is the member of the union at `h` that slot `s` holds. */
  ghost predicate Selects(d: Desc, h: nat, q: nat, s: Slot)
    requires q < |d.fields|
    decreases d, 1
  {
    var f := d.fields[q];
    s.Union? && Head(d, q) == h && f.htype.ONEOF? && s.which == f.tag && ValueTyped(f, s.v)
  }

  /** A struct of the type that `d` describes. */
  ghost predicate MsgTyped(d: Desc, m: seq<Slot>)
    decreases d, 3
  {
    |m| == |d.fields| && forall p :: 0 <= p < |m| ==> SlotTyped(d, p, m[p])
  }

  // ---------------------------------------------------------------- defaults

  function DefaultValue(f: Field): Value
    decreases f, 0
  {
    if f.ltype.SUBMESSAGE? then Msg(DefaultMsg(f.sub))
    else if f.default.Some? then f.default.value
    else match f.ltype
      case BYTES => Blob([])
      case STRING => Blob([])
      case FIXED_LENGTH_BYTES => Blob(seq(f.dataSize, _ => 0))
      case _ => Num(0)
  }

  /** pb_field_set_to_default. The elements of a fixed-count array are not
      initialised by the code; they are shown as default elements here. */
  function DefaultSlot(d: Desc, p: nat): Slot
    requires p < |d.fields|
    decreases d, 0
  {
    var f := d.fields[p];
    if Joins(d, p) then Shared
    else match f.htype
      case REQUIRED => Single(DefaultValue(f))
      case OPTIONAL => if HasField(f) then Optional(false, DefaultValue(f)) else Single(DefaultValue(f))
      case REPEATED => Array(if FixedCount(f) then seq(f.arraySize, _ => DefaultValue(f)) else [])
      case ONEOF => Union(0, Num(0))
  }

  /** pb_message_set_to_defaults. */
  function DefaultMsg(d: Desc): (m: seq<Slot>)
    ensures |m| == |d.fields|
    decreases d, 1
  {
    seq(|d.fields|, p requires 0 <= p < |d.fields| => DefaultSlot(d, p))
  }

  // -------------------------------------------------------------- C strings

  /** The prefix of a string buffer before its first NUL. */
  function UpToNul(b: seq<byte>): (s: seq<byte>)
    ensures |s| <= |b| && 0 !in s
  {
    if b == [] || b[0] == 0 then [] else [b[0]] + UpToNul(b[1..])
  }

  /** The C string in `max` bytes of memory that begin with `b`, with a NUL behind
      `b` when it is shorter. */
  function CString(b: seq<byte>, max: nat): (s: seq<byte>)
    ensures |s| <= max
  {
    UpToNul(if |b| <= max then b else b[..max])
  }

  // ------------------------------------------- zero values in the proto3 sense

  /** The proto3 part of pb_check_proto3_default_value. */
  predicate IsZeroValue(f: Field, v: Value)
    decreases f, 0
  {
    match v
    case Num(n) => n == 0
    case Blob(b) =>
      if f.ltype.FIXED_LENGTH_BYTES? then f.dataSize == 0
      else if f.ltype.STRING? then UpToNul(b) == [] else b == []
    case Msg(slots) => |slots| == |f.sub.fields| && IsZeroMsg(f.sub, slots)
  }

  predicate IsZeroMsg(d: Desc, m: seq<Slot>)
    requires |m| == |d.fields|
    decreases d, 1
  {
    forall p :: 0 <= p < |m| ==> IsZeroSlot(d, p, m)
  }

  /** pb_check_proto3_default_value on one entry of a struct. */
  predicate IsZeroSlot(d: Desc, p: nat, m: seq<Slot>)
    requires p < |d.fields| == |m|
    decreases d, 0
  {
    var f, s := d.fields[p], m[Head(d, p)];
    match f.htype
    case REQUIRED => false
    case REPEATED => s.Array? && s.items == []
    case ONEOF => s.Union? && s.which == 0
    case OPTIONAL =>
      if HasField(f) then s.Optional? && !s.has else s.Single? && IsZeroValue(f, s.v)
  }

  // ------------------------------------------------------ usable descriptors

  /** What the generated tables guarantee and the code relies on. */
  ghost predicate WellFormed(d: Desc)
    decreases d, 1
  {
    && (forall p, q :: 0 <= p < q < |d.fields| ==> d.fields[p].tag != d.fields[q].tag)
    && (forall p :: 0 <= p < |d.fields| ==> FieldWellFormed(d.fields[p]))
  }

  ghost predicate FieldWellFormed(f: Field)
    decreases f, 0
  {
    && 1 <= f.tag < 0x2000_0000
    && f.dataSize <= PB_SIZE_MAX
    && (f.htype.ONEOF? ==> f.sizeOffset != 0)
    && (f.ltype.SUBMESSAGE? ==> WellFormed(f.sub))
    && (!f.ltype.SUBMESSAGE? ==> ValueTyped(f, DefaultValue(f)))
    // proto3 fields have no default, and no fixed-count arrays right below them
    && (Singular(f) ==> f.default.None? && (f.ltype.SUBMESSAGE? ==> NoFixedCount(f.sub)))
  }

  predicate NoFixedCount(d: Desc) {
    forall p :: 0 <= p < |d.fields| ==> !FixedCount(d.fields[p])
  }
}
