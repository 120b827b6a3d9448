/** The presence checks of pb_decode_noinit, against a reading of the input that
    knows nothing of bit sets or running counters: the list of the records that
    were decoded. */
module PbPresence {
  import opened Wrappers
  import opened Words
  import opened PbWire
  import opened PbKeys
  import opened PbMessages
  import opened PbDecodeSpec

  /** A record of entry `p`; `n` counts the elements it delivered to a fixed-count array. */
  datatype Event = Event(p: nat, n: int)

  /** Note without its check: a new run simply starts. */
  function Switch(d: Desc, p: nat, st: State): (r: State)
    requires p < |d.fields|
    ensures r.m == st.m
  {
    var f := d.fields[p];
    if FixedCount(f) && st.run != Some(p) then st.(run := Some(p), count := 0)
    else if f.htype.REQUIRED? && RequiredBefore(d, p) < PB_MAX_REQUIRED_FIELDS then
      st.(seen := st.seen + {RequiredBefore(d, p)})
    else st
  }

  /** The records of known entries in `bs`, if every single field decodes. */
  function Trace(d: Desc, bs: seq<byte>, st: State): Option<seq<Event>>
    requires |st.m| == |d.fields|
    decreases |bs|
  {
    if bs == [] then Some([])
    else
      match DecKey(bs)
      case BadKey => None
      case Terminator(_) => Some([])
      case Key(tag, wt, after) =>
        if d.fields == [] && tag == 0 then None
        else
          match Find(d, tag)
          case None => (match Skip(wt, after) case Fail => None case Ok(_, rest) => Trace(d, rest, st))
          case Some(p) =>
            var st1 := Switch(d, p, st);
            match DecField(d, p, wt, after, st1)
            case Fail => None
            case Ok(st2, rest) =>
              var t := Trace(d, rest, st2);
              if t.None? then None else Some([Event(p, st2.count - st1.count)] + t.value)
  }

  /** The runs of fixed-count records in a list of events, with their totals;
      records of other entries do not interrupt a run. */
  function RunsFrom(d: Desc, ev: seq<Event>, run: Option<nat>, count: int): seq<(nat, int)>
    requires forall e :: e in ev ==> e.p < |d.fields|
    decreases |ev|
  {
    var open := if run.Some? then [(run.value, count)] else [];
    if ev == [] then open
    else if !FixedCount(d.fields[ev[0].p]) then RunsFrom(d, ev[1..], run, count)
    else if run == Some(ev[0].p) then RunsFrom(d, ev[1..], run, count + ev[0].n)
    else open + RunsFrom(d, ev[1..], Some(ev[0].p), ev[0].n)
  }

  ghost predicate Exact(d: Desc, runs: seq<(nat, int)>) {
    forall r :: r in runs ==> r.0 < |d.fields| && r.1 == d.fields[r.0].arraySize
  }

  ghost predicate Known(d: Desc, ev: seq<Event>) {
    forall e :: e in ev ==> e.p < |d.fields|
  }

  /** The required indices that a list of events sets. */
  ghost predicate Sets(d: Desc, ev: seq<Event>, i: nat) {
    exists e :: e in ev && e.p < |d.fields| && d.fields[e.p].htype.REQUIRED?
                && RequiredBefore(d, e.p) == i && i < PB_MAX_REQUIRED_FIELDS
  }

  lemma FieldKeepsBooks(d: Desc, p: nat, wt: nat, bs: seq<byte>, st: State)
    requires p < |d.fields| == |st.m| && DecField(d, p, wt, bs, st).Ok?
    ensures var st' := DecField(d, p, wt, bs, st).value;
      st'.run == st.run && st'.seen == st.seen && (!FixedCount(d.fields[p]) ==> st'.count == st.count)
  {}

  lemma RunsStep(d: Desc, e: Event, ev: seq<Event>, run: Option<nat>, count: int)
    requires e.p < |d.fields| && Known(d, ev)
    ensures Known(d, [e] + ev)
    ensures RunsFrom(d, [e] + ev, run, count) ==
      if !FixedCount(d.fields[e.p]) then RunsFrom(d, ev, run, count)
      else if run == Some(e.p) then RunsFrom(d, ev, run, count + e.n)
      else (if run.Some? then [(run.value, count)] else []) + RunsFrom(d, ev, Some(e.p), e.n)
  {
    assert ([e] + ev)[1..] == ev;
  }

  lemma ExactAppend(d: Desc, a: seq<(nat, int)>, b: seq<(nat, int)>)
    ensures Exact(d, a + b) <==> Exact(d, a) && Exact(d, b)
  {
    if Exact(d, a + b) {
      forall r | r in a ensures r in a + b {}
      forall r | r in b ensures r in a + b {}
    }
  }

  lemma OpenRun(d: Desc, st: State)
    ensures RunComplete(d, st) <==> Exact(d, if st.run.Some? then [(st.run.value, st.count)] else [])
  {
    if st.run.Some? { assert (st.run.value, st.count as int) in [(st.run.value, st.count as int)]; }
  }

  /** The loop ends with its runs in order exactly when every run in the record
      list delivered exactly array_size elements. */
  lemma {:induction false} LoopRuns(d: Desc, bs: seq<byte>, st: State)
    requires |st.m| == |d.fields|
    ensures Trace(d, bs, st).Some? ==> Known(d, Trace(d, bs, st).value)
    ensures (DecLoop(d, bs, st).Ok? && RunComplete(d, DecLoop(d, bs, st).value)) <==>
            (Trace(d, bs, st).Some? && Exact(d, RunsFrom(d, Trace(d, bs, st).value, st.run, st.count)))
    decreases |bs|
  {
    OpenRun(d, st);
    if bs != [] && DecKey(bs).Key? {
      var k := DecKey(bs);
      match Find(d, k.tag)
      case None =>
        if !(d.fields == [] && k.tag == 0) && Skip(k.wt, k.after).Ok? {
          LoopRuns(d, Skip(k.wt, k.after).rest, st);
        }
      case Some(p) => RecordRuns(d, bs, p, st);
    }
  }

  /** One turn of the loop, and of the trace, at a record of entry `p`. */
  lemma LoopTurn(d: Desc, bs: seq<byte>, p: nat, st: State)
    requires |st.m| == |d.fields| && bs != [] && DecKey(bs).Key? && Find(d, DecKey(bs).tag) == Some(p)
    ensures var k := DecKey(bs);
      var r := DecField(d, p, k.wt, k.after, Switch(d, p, st));
      DecLoop(d, bs, st) ==
        if Note(d, p, st).None? || r.Fail? then Fail else DecLoop(d, r.rest, r.value)
  {
    hide DecField, DecKey;
    assert Note(d, p, st).Some? ==> Note(d, p, st).value == Switch(d, p, st);
  }

  lemma TraceTurn(d: Desc, bs: seq<byte>, p: nat, st: State)
    requires |st.m| == |d.fields| && bs != [] && DecKey(bs).Key? && Find(d, DecKey(bs).tag) == Some(p)
    ensures var k, st1 := DecKey(bs), Switch(d, p, st);
      var r := DecField(d, p, k.wt, k.after, st1);
      Trace(d, bs, st) ==
        if r.Fail? || Trace(d, r.rest, r.value).None? then None
        else Some([Event(p, r.value.count - st1.count)] + Trace(d, r.rest, r.value).value)
  {
    hide DecField, DecKey, Switch;
  }

  lemma {:induction false} RecordRuns(d: Desc, bs: seq<byte>, p: nat, st: State)
    requires |st.m| == |d.fields| && bs != [] && DecKey(bs).Key? && Find(d, DecKey(bs).tag) == Some(p)
    ensures Trace(d, bs, st).Some? ==> Known(d, Trace(d, bs, st).value)
    ensures (DecLoop(d, bs, st).Ok? && RunComplete(d, DecLoop(d, bs, st).value)) <==>
            (Trace(d, bs, st).Some? && Exact(d, RunsFrom(d, Trace(d, bs, st).value, st.run, st.count)))
    decreases |bs|, 0
  {
    hide DecLoop, Trace, DecField, RunsFrom, Exact;
    LoopTurn(d, bs, p, st);
    TraceTurn(d, bs, p, st);
    var k := DecKey(bs);
    var st1 := Switch(d, p, st);
    var r := DecField(d, p, k.wt, k.after, st1);
    if r.Ok? {
      FieldKeepsBooks(d, p, k.wt, k.after, st1);
      LoopRuns(d, r.rest, r.value);
      var t := Trace(d, r.rest, r.value);
      if t.Some? {
        var e := Event(p, r.value.count - st1.count);
        RunsStep(d, e, t.value, st.run, st.count);
        var open := if st.run.Some? then [(st.run.value, st.count as int)] else [];
        ExactAppend(d, open, RunsFrom(d, t.value, Some(p), e.n));
        OpenRun(d, st);
      }
    }
  }

  /** The bits set at the end are those set before and those that the records set. */
  ghost predicate SeenBy(d: Desc, before: set<nat>, ev: seq<Event>, after: set<nat>) {
    forall i: nat :: i in after <==> i in before || Sets(d, ev, i)
  }

  lemma {:induction false} LoopSeen(d: Desc, bs: seq<byte>, st: State)
    requires |st.m| == |d.fields| && DecLoop(d, bs, st).Ok?
    ensures Trace(d, bs, st).Some?
    ensures SeenBy(d, st.seen, Trace(d, bs, st).value, DecLoop(d, bs, st).value.seen)
    decreases |bs|
  {
    hide DecField, Skip, SeenBy, RunComplete, RequiredBefore;
    NothingSeen(d, st.seen);
    if bs != [] && DecKey(bs).Key? {
      var k := DecKey(bs);
      match Find(d, k.tag)
      case None => LoopSeen(d, Skip(k.wt, k.after).rest, st);
      case Some(p) => RecordSeen(d, bs, p, st);
    }
  }

  lemma {:induction false} RecordSeen(d: Desc, bs: seq<byte>, p: nat, st: State)
    requires |st.m| == |d.fields| && bs != [] && DecKey(bs).Key? && Find(d, DecKey(bs).tag) == Some(p)
    requires DecLoop(d, bs, st).Ok?
    ensures Trace(d, bs, st).Some?
    ensures SeenBy(d, st.seen, Trace(d, bs, st).value, DecLoop(d, bs, st).value.seen)
    decreases |bs|, 0
  {
    hide DecLoop, Trace, DecField, SeenBy, Note, Switch;
    LoopTurn(d, bs, p, st);
    TraceTurn(d, bs, p, st);
    var k := DecKey(bs);
    var st1 := Switch(d, p, st);
    var r := DecField(d, p, k.wt, k.after, st1);
    FieldKeepsBooks(d, p, k.wt, k.after, st1);
    LoopSeen(d, r.rest, r.value);
    SeenStep(d, p, st, Event(p, r.value.count - st1.count), Trace(d, r.rest, r.value).value, DecLoop(d, r.rest, r.value).value.seen);
  }

  lemma NothingSeen(d: Desc, seen: set<nat>)
    ensures SeenBy(d, seen, [], seen)
  {}

  lemma SeenStep(d: Desc, p: nat, st: State, e: Event, ev: seq<Event>, after: set<nat>)
    requires p < |d.fields| && e.p == p && SeenBy(d, Switch(d, p, st).seen, ev, after)
    ensures SeenBy(d, st.seen, [e] + ev, after)
  {
    SetsStep(d, e, ev);
    FixedNotRequired(d.fields[p]);
    hide Sets, FixedCount;
  }

  lemma FixedNotRequired(f: Field)
    ensures FixedCount(f) ==> !f.htype.REQUIRED?
  {}

  lemma SetsStep(d: Desc, e: Event, ev: seq<Event>)
    requires e.p < |d.fields|
    ensures forall i: nat :: Sets(d, [e] + ev, i) <==>
      Sets(d, ev, i) || (d.fields[e.p].htype.REQUIRED? && RequiredBefore(d, e.p) == i && i < PB_MAX_REQUIRED_FIELDS)
  {
    forall i: nat
      ensures Sets(d, [e] + ev, i) <==>
        Sets(d, ev, i) || (d.fields[e.p].htype.REQUIRED? && RequiredBefore(d, e.p) == i && i < PB_MAX_REQUIRED_FIELDS)
    {
      assert e in [e] + ev;
      forall x | x in ev ensures x in [e] + ev {}
    }
  }

  lemma {:induction false} RequiredMono(d: Desc, p: nat, q: nat)
    requires p <= q <= |d.fields|
    ensures RequiredBefore(d, p) <= RequiredBefore(d, q)
  {
    if p < q { RequiredMono(d, p, q - 1); }
  }

  lemma {:induction false} RequiredAt(d: Desc, i: nat, q: nat) returns (p: nat)
    requires q <= |d.fields| && i < RequiredBefore(d, q)
    ensures p < q && d.fields[p].htype.REQUIRED? && RequiredBefore(d, p) == i
  {
    if i == RequiredBefore(d, q - 1) { p := q - 1; } else { p := RequiredAt(d, i, q - 1); }
  }

  /** One of the first 64 required entries. */
  predicate Tracked(d: Desc, p: nat)
    requires p < |d.fields|
  {
    d.fields[p].htype.REQUIRED? && RequiredBefore(d, p) < PB_MAX_REQUIRED_FIELDS
  }

  ghost predicate Occurs(ev: seq<Event>, p: nat) {
    exists e :: e in ev && e.p == p
  }

  /** Decoding succeeds exactly when every single field decodes, each of the
      first 64 required entries occurs, and each run of a fixed-count array
      delivers exactly array_size elements. */
  lemma PresenceExact(d: Desc, bs: seq<byte>, m: seq<Slot>)
    requires |m| == |d.fields|
    ensures Trace(d, bs, Start(m)).Some? ==> Known(d, Trace(d, bs, Start(m)).value)
    ensures DecNoinit(d, bs, m).Ok? <==>
      && Trace(d, bs, Start(m)).Some?
      && var ev := Trace(d, bs, Start(m)).value;
         && (forall p :: 0 <= p < |d.fields| && Tracked(d, p) ==> Occurs(ev, p))
         && Exact(d, RunsFrom(d, ev, None, 0))
  {
    LoopRuns(d, bs, Start(m));
    if DecLoop(d, bs, Start(m)).Ok? {
      LoopSeen(d, bs, Start(m));
      SeenOccurs(d, DecLoop(d, bs, Start(m)).value, Trace(d, bs, Start(m)).value);
    }
  }

  lemma SeenOccurs(d: Desc, st: State, ev: seq<Event>)
    requires Known(d, ev) && forall i: nat :: i in st.seen <==> Sets(d, ev, i)
    ensures AllSeen(d, st) <==> forall p :: 0 <= p < |d.fields| && Tracked(d, p) ==> Occurs(ev, p)
  {
    var n := |d.fields|;
    if AllSeen(d, st) {
      forall p | 0 <= p < n && Tracked(d, p) ensures Occurs(ev, p) {
        RequiredMono(d, p + 1, n);
        var i := RequiredBefore(d, p);
        assert i in st.seen && Sets(d, ev, i);
        var e :| e in ev && e.p < n && d.fields[e.p].htype.REQUIRED? && RequiredBefore(d, e.p) == i;
        if e.p < p { RequiredMono(d, e.p + 1, p); } else if p < e.p { RequiredMono(d, p + 1, e.p); }
      }
    }
    if forall p :: 0 <= p < n && Tracked(d, p) ==> Occurs(ev, p) {
      forall i | 0 <= i < RequiredBefore(d, n) && i < PB_MAX_REQUIRED_FIELDS ensures i in st.seen {
        var p := RequiredAt(d, i, n);
        assert Tracked(d, p) && Occurs(ev, p);
        assert Sets(d, ev, i);
      }
    }
  }
}
