/** Decoding a concatenation is decoding the parts one after the other, and
    records with unknown field numbers leave no trace. */
module PbMerge {
  import opened Wrappers
  import opened Words
  import opened PbWire
  import opened PbKeys
  import opened PbMessages
  import opened PbDecodeSpec

  lemma DecNumExtends(f: Field, bs: seq<byte>, more: seq<byte>)
    requires DecNum(f, bs).Ok?
    ensures DecNum(f, bs + more) == var r := DecNum(f, bs); Ok(r.value, r.rest + more)
  {
    if f.ltype.FIXED32? {
      TakeExtends(4, bs, more);
    } else if f.ltype.FIXED64? {
      TakeExtends(8, bs, more);
    } else {
      DecVarintAtExtends(bs, 0, 0, more);
    }
  }

  lemma DecValueExtends(f: Field, prior: Value, bs: seq<byte>, more: seq<byte>)
    requires DecValue(f, prior, bs).Ok?
    ensures DecValue(f, prior, bs + more) == var r := DecValue(f, prior, bs); Ok(r.value, r.rest + more)
  {
    if f.ltype.SUBMESSAGE? || f.ltype.BYTES? || f.ltype.STRING? || f.ltype.FIXED_LENGTH_BYTES? {
      DecStringExtends(bs, more);
    } else {
      DecNumExtends(f, bs, more);
    }
  }

  lemma DecFieldExtends(d: Desc, p: nat, wt: nat, bs: seq<byte>, st: State, more: seq<byte>)
    requires p < |d.fields| == |st.m| && DecField(d, p, wt, bs, st).Ok?
    ensures DecField(d, p, wt, bs + more, st) ==
            var r := DecField(d, p, wt, bs, st); Ok(r.value, r.rest + more)
  {
    hide DecValue, DecString, DecPacked;
    var f := d.fields[p];
    if f.htype.REPEATED? && wt == WT_STRING && Packable(f.ltype) {
      DecStringExtends(bs, more);
    } else {
      var prior := if f.htype.REPEATED? || f.htype.ONEOF? then DefaultValue(f)
                   else OldValue(st.m[Head(d, p)]);
      DecValueExtends(f, prior, bs, more);
    }
  }

  lemma DecRecordExtends(d: Desc, tag: nat, wt: nat, bs: seq<byte>, st: State, more: seq<byte>)
    requires |st.m| == |d.fields| && DecRecord(d, tag, wt, bs, st).Ok?
    ensures DecRecord(d, tag, wt, bs + more, st) ==
            var r := DecRecord(d, tag, wt, bs, st); Ok(r.value, r.rest + more)
  {
    match Find(d, tag)
    case None => SkipExtends(wt, bs, more);
    case Some(p) => DecFieldExtends(d, p, wt, bs, Note(d, p, st).value, more);
  }

  /** All of `bs` decodes as whole records, with no zero terminator among them. */
  ghost predicate Runs(d: Desc, bs: seq<byte>, st: State)
    requires |st.m| == |d.fields|
    decreases |bs|
  {
    bs == [] ||
    (var k := DecKey(bs);
     k.Key? &&
     var r := DecRecord(d, k.tag, k.wt, k.after, st);
     r.Ok? && Runs(d, r.rest, r.value))
  }

  /** One turn of the loop. */
  lemma LoopStep(d: Desc, bs: seq<byte>, st: State)
    requires |st.m| == |d.fields| && bs != [] && DecKey(bs).Key?
    ensures var k := DecKey(bs);
            var r := DecRecord(d, k.tag, k.wt, k.after, st);
            DecLoop(d, bs, st) == if r.Fail? then Fail else DecLoop(d, r.rest, r.value)
  {
    hide DecRecord, DecKey;
  }

  lemma RunsStep(d: Desc, bs: seq<byte>, st: State)
    requires |st.m| == |d.fields| && bs != [] && Runs(d, bs, st)
    ensures DecKey(bs).Key?
    ensures var k := DecKey(bs);
            var r := DecRecord(d, k.tag, k.wt, k.after, st);
            r.Ok? && Runs(d, r.rest, r.value)
  {
    hide DecRecord, DecKey;
  }

  /** The loop on a concatenation is the loop on the parts, for every descriptor. */
  lemma {:induction false} LoopAppend(d: Desc, a: seq<byte>, b: seq<byte>, st: State)
    requires |st.m| == |d.fields| && Runs(d, a, st)
    ensures DecLoop(d, a, st).Ok? && DecLoop(d, a, st).rest == []
    ensures DecLoop(d, a + b, st) == DecLoop(d, b, DecLoop(d, a, st).value)
    decreases |a|
  {
    if a == [] {
      assert a + b == b;
    } else {
      hide DecRecord, DecKey, DecLoop, Runs;
      RunsStep(d, a, st);
      var k := DecKey(a);
      var r := DecRecord(d, k.tag, k.wt, k.after, st);
      DecKeyExtends(a, b);
      DecRecordExtends(d, k.tag, k.wt, k.after, st, b);
      LoopStep(d, a, st);
      LoopStep(d, a + b, st);
      LoopAppend(d, r.rest, b, r.value);
    }
  }

  /** Without required and fixed-count entries there is no bookkeeping. */
  predicate Plain(d: Desc) {
    forall p :: 0 <= p < |d.fields| ==> !d.fields[p].htype.REQUIRED? && !FixedCount(d.fields[p])
  }

  lemma PlainRecord(d: Desc, tag: nat, wt: nat, bs: seq<byte>, m: seq<Slot>)
    requires Plain(d) && |m| == |d.fields| && DecRecord(d, tag, wt, bs, Start(m)).Ok?
    ensures var st := DecRecord(d, tag, wt, bs, Start(m)).value; st == Start(st.m)
  {
    var p := Find(d, tag);
    if p.Some? {
      assert Note(d, p.value, Start(m)) == Some(Start(m));
    }
  }

  lemma {:induction false} PlainLoop(d: Desc, bs: seq<byte>, m: seq<Slot>)
    requires Plain(d) && |m| == |d.fields| && DecLoop(d, bs, Start(m)).Ok?
    ensures var st := DecLoop(d, bs, Start(m)).value; st == Start(st.m)
    decreases |bs|
  {
    if bs != [] && DecKey(bs).Key? {
      var k := DecKey(bs);
      var r := DecRecord(d, k.tag, k.wt, k.after, Start(m));
      PlainRecord(d, k.tag, k.wt, k.after, m);
      PlainLoop(d, r.rest, r.value.m);
    }
  }

  /** Concatenation is merging: decoding a + b into a struct is decoding b into
      what decoding a into it gave. */
  lemma ConcatenationMerges(d: Desc, a: seq<byte>, b: seq<byte>, m: seq<Slot>)
    requires Plain(d) && |m| == |d.fields| && Runs(d, a, Start(m))
    ensures DecNoinit(d, a, m).Ok?
    ensures DecNoinit(d, a + b, m) == DecNoinit(d, b, DecNoinit(d, a, m).value)
  {
    hide Runs, Plain, DecLoop, AllSeen;
    LoopAppend(d, a, b, Start(m));
    PlainLoop(d, a, m);
    NoneToSee(d, DecLoop(d, a, Start(m)).value);
  }

  lemma NoneToSee(d: Desc, st: State)
    requires Plain(d)
    ensures AllSeen(d, st)
  {
    NoRequired(d, |d.fields|);
  }

  lemma {:induction false} NoRequired(d: Desc, p: nat)
    requires Plain(d) && p <= |d.fields|
    ensures RequiredBefore(d, p) == 0
  {
    if p > 0 { NoRequired(d, p - 1); }
  }

  /** A record whose field number the descriptor does not have. */
  predicate UnknownRecord(d: Desc, rec: seq<byte>) {
    var k := DecKey(rec);
    k.Key? && Find(d, k.tag).None? && (d.fields == [] ==> k.tag != 0) && Skip(k.wt, k.after) == Ok((), [])
  }

  lemma UnknownRecordSkipped(d: Desc, rec: seq<byte>, b: seq<byte>, st: State)
    requires |st.m| == |d.fields| && UnknownRecord(d, rec)
    ensures DecLoop(d, rec + b, st) == DecLoop(d, b, st)
  {
    var k := DecKey(rec);
    assert DecRecord(d, k.tag, k.wt, k.after, st) == Ok(st, []);
    assert Runs(d, [], st);
    LoopAppend(d, rec, b, st);
  }

  /** An unknown record between two records changes neither the struct, nor the
      success, nor what is left unread: for every descriptor. */
  lemma UnknownFieldInvisible(d: Desc, a: seq<byte>, rec: seq<byte>, b: seq<byte>, m: seq<Slot>)
    requires |m| == |d.fields| && Runs(d, a, Start(m)) && UnknownRecord(d, rec)
    ensures DecNoinit(d, a + (rec + b), m) == DecNoinit(d, a + b, m)
  {
    LoopAppend(d, a, b, Start(m));
    LoopAppend(d, a, rec + b, Start(m));
    UnknownRecordSkipped(d, rec, b, DecLoop(d, a, Start(m)).value);
  }

  /** Every varint, fixed-width word or string under an unknown number is such a record. */
  lemma UnknownRecords(d: Desc, tag: nat, v: nat, payload: seq<byte>)
    requires 1 <= tag < 0x2000_0000 && Find(d, tag).None? && v < B64 && |payload| < B32
    ensures UnknownRecord(d, EncKey(tag, WT_VARINT) + Varint(v))
    ensures UnknownRecord(d, EncKey(tag, WT_STRING) + EncString(payload))
    ensures |payload| == 8 ==> UnknownRecord(d, EncKey(tag, WT_64BIT) + payload)
    ensures |payload| == 4 ==> UnknownRecord(d, EncKey(tag, WT_32BIT) + payload)
  {
    KeyRoundTrip(tag, WT_VARINT, Varint(v));
    SkipsVarint(v, []);
    assert Varint(v) + [] == Varint(v);
    KeyRoundTrip(tag, WT_STRING, EncString(payload));
    StringRoundTrip(payload, []);
    assert EncString(payload) + [] == EncString(payload);
    KeyRoundTrip(tag, WT_64BIT, payload);
    KeyRoundTrip(tag, WT_32BIT, payload);
  }

  lemma {:induction false} SkipsVarint(v: nat, rest: seq<byte>)
    ensures SkipVarint(Varint(v) + rest) == Ok((), rest)
    decreases v
  {
    if v < 128 {
      assert (Varint(v) + rest)[0] == v && (Varint(v) + rest)[1..] == rest;
    } else {
      VarintStep(v, rest);
      SkipsVarint(v / 128, rest);
    }
  }
}
