/** The TLS write path over a non-blocking transport: handshake flights, application
    data, alerts, and the order in which their bytes reach the wire. */
module TlsWriter {
  import opened Words
  import opened TlsBuffer

  const MAX_PLAIN: nat := 16384
  const MAX_FLIGHT: nat := 0x7fff_ffff  // INT_MAX

  const FATAL: byte := 2                // SSL3_AL_FATAL

  const ALERT_ADDR: int := -1           // the address of send_alert, no caller's buffer

  type FragmentSize = x: nat | 0 < x witness 512

  datatype RecordType = Handshake | ChangeCipherSpec | Alert | AppData

  datatype Rec = Rec(typ: RecordType, plain: seq<byte>)

  /** The application bytes in a run of records. */
  function AppBytes(rs: seq<Rec>): seq<byte> {
    if rs == [] then []
    else AppBytes(rs[..|rs| - 1]) + if rs[|rs| - 1].typ.AppData? then rs[|rs| - 1].plain else []
  }

  lemma AppBytesOne(rs: seq<Rec>, r: Rec)
    ensures AppBytes(rs + [r]) == AppBytes(rs) + if r.typ.AppData? then r.plain else []
  {
    assert (rs + [r])[..|rs|] == rs;
  }

  /** A message cut into records of at most `max` bytes. */
  function Chunks(msg: seq<byte>, max: nat): (cs: seq<seq<byte>>)
    requires max > 0
    decreases |msg|
  {
    if |msg| <= max then [msg] else [msg[..max]] + Chunks(msg[max..], max)
  }

  function Concat(cs: seq<seq<byte>>): seq<byte> {
    if cs == [] then [] else cs[0] + Concat(cs[1..])
  }

  /** Cutting loses nothing, and only an empty message gives an empty record. */
  lemma {:induction false} ChunksExact(msg: seq<byte>, max: nat)
    requires max > 0
    ensures Concat(Chunks(msg, max)) == msg
    ensures forall c :: c in Chunks(msg, max) ==> |c| <= max && (c == [] ==> msg == [])
    decreases |msg|
  {
    if |msg| <= max {
      assert Chunks(msg, max) == [msg] && Concat([msg]) == msg + Concat([]);
    } else {
      ChunksExact(msg[max..], max);
      assert msg == msg[..max] + msg[max..];
      assert Chunks(msg, max)[1..] == Chunks(msg[max..], max);
    }
  }

  /** Handshake records with these contents. */
  function AsRecords(cs: seq<seq<byte>>): seq<Rec> {
    if cs == [] then [] else [Rec(Handshake, cs[0])] + AsRecords(cs[1..])
  }

  /** One turn of the splitting loop. */
  lemma StepChunks(rest: seq<byte>, max: nat)
    requires max > 0
    ensures var n := if |rest| <= max then |rest| else max;
            AsRecords(Chunks(rest, max)) == [Rec(Handshake, rest[..n])] +
              if rest[n..] == [] then [] else AsRecords(Chunks(rest[n..], max))
  {
    if |rest| <= max {
      assert rest[..|rest|] == rest;
      assert Chunks(rest, max) == [rest] && AsRecords([]) == [] && AsRecords([rest]) == [Rec(Handshake, rest)];
    } else {
      assert Chunks(rest, max)[1..] == Chunks(rest[max..], max);
    }
  }

  /** `before` is sealed and `rest` is still to be cut. */
  ghost predicate Splits(before: seq<Rec>, rest: seq<byte>, msg: seq<byte>, max: FragmentSize) {
    before + AsRecords(Chunks(rest, max)) == AsRecords(Chunks(msg, max))
  }

  lemma SplitsAtFirst(msg: seq<byte>, max: FragmentSize)
    ensures Splits([], msg, msg, max)
  {
    hide Chunks, AsRecords;
    assert [] + AsRecords(Chunks(msg, max)) == AsRecords(Chunks(msg, max));
  }

  lemma SplitsNext(before: seq<Rec>, rest: seq<byte>, msg: seq<byte>, max: FragmentSize)
    requires Splits(before, rest, msg, max)
    ensures var n := if |rest| <= max then |rest| else max;
            var next := before + [Rec(Handshake, rest[..n])];
            && (if rest[n..] == [] then next == AsRecords(Chunks(msg, max)) else Splits(next, rest[n..], msg, max))
            && |before| <= |AsRecords(Chunks(msg, max))| && before == AsRecords(Chunks(msg, max))[..|before|]
  {
    hide Chunks, AsRecords;
    StepChunks(rest, max);
    var n := if |rest| <= max then |rest| else max;
    var r := [Rec(Handshake, rest[..n])];
    if rest[n..] == [] {
      assert r + [] == r;
    } else {
      assert before + (r + AsRecords(Chunks(rest[n..], max))) == (before + r) + AsRecords(Chunks(rest[n..], max));
    }
  }

  /** What sealing adds to so many records. */
  function Added(records: nat, overhead: nat): nat { records * overhead }

  lemma NothingAdded(overhead: nat)
    ensures Added(0, overhead) == 0
  {}

  lemma OneMoreAdded(records: nat, overhead: nat)
    ensures Added(records + 1, overhead) == Added(records, overhead) + overhead
  {}

  /** What is on the wire, in the buffer and in the flight is what was sealed. */
  ghost predicate InOrder(wire: seq<byte>, buffered: seq<byte>, flight: seq<byte>, whole: seq<byte>) {
    wire + buffered + flight == whole
  }

  /** The transport takes `k` bytes of the flight. */
  lemma FlightMoves(wire: seq<byte>, flight: seq<byte>, k: nat, whole: seq<byte>)
    requires InOrder(wire, [], flight, whole) && k <= |flight|
    ensures InOrder(wire + flight[..k], [], flight[k..], whole)
  {}

  /** A record is sealed at the end of the flight. */
  lemma FlightGrows(wire: seq<byte>, buffered: seq<byte>, flight: seq<byte>, whole: seq<byte>, out: seq<byte>)
    requires InOrder(wire, buffered, flight, whole)
    ensures InOrder(wire, buffered, (flight + out)[0..], whole + out)
  {
    assert (flight + out)[0..] == flight + out;
  }

  /** The buffer drains into the wire. */
  lemma BufferMoves(w0: seq<byte>, b0: seq<byte>, w1: seq<byte>, b1: seq<byte>, flight: seq<byte>, whole: seq<byte>)
    requires InOrder(w0, b0, flight, whole) && w1 + b1 == w0 + b0
    ensures InOrder(w1, b1, flight, whole)
  {}

  /** The unsent flight moves into the empty buffer. */
  lemma FlightJoinsBuffer(wire: seq<byte>, flight: seq<byte>, whole: seq<byte>)
    requires InOrder(wire, [], flight, whole)
    ensures InOrder(wire, flight, [], whole)
  {}

  /** A record is sealed at the end of the buffer, with no flight behind it. */
  lemma BufferGrows(wire: seq<byte>, buffered: seq<byte>, whole: seq<byte>, out: seq<byte>)
    requires InOrder(wire, buffered, [], whole)
    ensures InOrder(wire, buffered + out, [], whole + out)
  {}

  /** Application data records of at most `max` bytes. */
  predicate Fragmented(rs: seq<Rec>, max: nat) {
    forall r :: r in rs ==> r.typ.AppData? && |r.plain| <= max
  }

  /** Nothing, or one more record. */
  lemma FragmentedOne(before: seq<Rec>, after: seq<Rec>, chunk: seq<byte>, max: nat)
    requires after == before || after == before + [Rec(AppData, chunk)]
    requires |chunk| <= max
    ensures before <= after && Fragmented(after[|before|..], max)
  {
    assert after[|before|..] == if after == before then [] else [Rec(AppData, chunk)];
  }

  lemma FragmentedMore(a: seq<Rec>, b: seq<Rec>, d: seq<Rec>, max: nat)
    requires a <= b <= d && Fragmented(b[|a|..], max) && Fragmented(d[|b|..], max)
    ensures a <= d && Fragmented(d[|a|..], max)
  {
    assert d[|a|..] == b[|a|..] + d[|b|..];
  }

  /** The bytes of `data` from `a` to `b`, none when the range is empty. */
  function Stretch(data: seq<byte>, a: nat, b: nat): (s: seq<byte>)
    ensures a >= b ==> s == []
  {
    if a < b <= |data| then data[a..b] else []
  }

  lemma StretchJoins(data: seq<byte>, a: nat, b: nat, c: nat)
    requires a <= b <= c && (c <= |data| || b == c)
    ensures Stretch(data, a, b) + Stretch(data, b, c) == Stretch(data, a, c)
  {}

  lemma StretchGrows(app: seq<byte>, data: seq<byte>, a: nat, b: nat, c: nat)
    requires a <= b <= c && (c <= |data| || b == c)
    ensures app + Stretch(data, a, b) + Stretch(data, b, c) == app + Stretch(data, a, c)
  {
    hide Stretch;
    StretchJoins(data, a, b, c);
    Regroup(app, Stretch(data, a, b), Stretch(data, b, c));
  }

  /** Sealing the bytes behind those in flight completes the write exactly when
      those in flight are the first of it. */
  lemma ExactlyWhenRetried(app: seq<byte>, accepted: seq<byte>, inflight: seq<byte>, data: seq<byte>, n: nat)
    requires app == accepted + inflight && |inflight| <= n && (n <= |data| || |inflight| == n)
    ensures inflight <= data ==> n <= |data|
    ensures n <= |data| ==>
              (app + Stretch(data, |inflight|, n) == accepted + data[..n] <==> inflight <= data)
  {
    var k := |inflight|;
    if n <= |data| {
      assert data[..n] == data[..k] + Stretch(data, k, n);
      assert app + Stretch(data, k, n) == accepted + (inflight + Stretch(data, k, n));
      if app + Stretch(data, k, n) == accepted + data[..n] {
        assert (accepted + data[..n])[|accepted|..] == data[..n];
        assert (accepted + (inflight + Stretch(data, k, n)))[|accepted|..] == inflight + Stretch(data, k, n);
        assert (inflight + Stretch(data, k, n))[..k] == inflight && data[..n][..k] == data[..k];
      }
    }
  }

  /** After a retry that was too short, `p` of the bytes in flight are still known and
      the others forgotten: whatever is offered next, they are sealed again. */
  lemma ShortRetryRepeats(app: seq<byte>, accepted: seq<byte>, inflight: seq<byte>, data: seq<byte>, p: nat, n: nat)
    requires app == accepted + inflight && p < |inflight| && p <= n <= |data|
    ensures app + Stretch(data, p, n) != accepted + data[..n]
    ensures inflight <= data ==> app + Stretch(data, p, n) == accepted + (data[..|inflight|] + data[p..n])
  {
    assert |app + Stretch(data, p, n)| > |accepted + data[..n]|;
    if inflight <= data {
      assert data[..|inflight|] == inflight;
      assert accepted + (inflight + data[p..n]) == accepted + inflight + data[p..n];
    }
  }

  class Writer {
    const bio: Transport
    const buf: SSLBuffer              // write_buffer
    var connected: bool               // there is a write BIO
    var overhead: nat                 // SSL_max_seal_overhead
    var hasFlight: bool
    var flight: seq<byte>             // pending_flight
    var flightOffset: nat
    var shutdown: bool                // write_shutdown is set
    var wpendPending: bool
    var wpendTot: nat
    var wpendAddr: int
    var wpendType: RecordType
    var wpendRet: nat
    var wnum: nat
    var maxSendFragment: FragmentSize
    var partialWrite: bool
    var movingBuffer: bool
    var ticketMax: nat                // ticket_max_early_data
    var earlyWritten: nat
    var canEarlyWrite: bool
    var alertDispatch: bool           // an alert is waiting to be written
    var level: byte                   // send_alert
    var desc: byte
    ghost var sealFailures: nat       // how often the cipher failed
    ghost var records: seq<Rec>       // all records sealed, in sealing order
    ghost var sealedBytes: seq<byte>  // and what they were sealed to
    ghost var ordered: bool           // the contents of the buffer always ended within 16 bits
    ghost var inflight: seq<byte>     // sealed for a write that has not succeeded yet
    ghost var accepted: seq<byte>     // application data of the writes that succeeded

    /** The order on the wire is the sealing order; a flight that is partly written
        has nothing in the buffer before it. */
    ghost predicate Valid()
      reads this`hasFlight, this`flight, this`flightOffset, this`wpendPending
      reads this`wpendTot, this`wpendRet, this`ordered, this`sealedBytes, bio`wire, buf, buf.store
    {
      && buf.Valid()
      && flightOffset <= |flight| && (!hasFlight ==> flight == [])
      && (flightOffset > 0 ==> buf.size == 0)
      && (buf.size == 0 ==> buf.offset < ALIGN)
      && (wpendPending ==> wpendRet == wpendTot > 0)
      && (ordered ==> buf.Sound() && InOrder(bio.wire, buf.Contents(), flight[flightOffset..], sealedBytes))
    }

    /** The part of the flight that has not been written. */
    ghost function Unsent(): (n: nat)
      reads this`flight, this`flightOffset
    {
      if flightOffset <= |flight| then |flight| - flightOffset else 0
    }

    /** A record of `n` bytes behind the unsent flight asks for room that the 16-bit
        offset of the buffer can cross. */
    ghost predicate Roomy(n: nat)
      reads this`flight, this`flightOffset, this`overhead
    {
      Unsent() + n + overhead <= 0x1_0000 - (ALIGN - 1)
    }

    /** Exactly once: what was sealed is what was accepted and what is in flight. */
    ghost predicate Once()
      reads this
    {
      && AppBytes(records) == accepted + inflight
      && |inflight| == wnum + if wpendPending && wpendType.AppData? then wpendRet else 0
    }

    constructor (maxSendFragment: FragmentSize, overhead: nat, partialWrite: bool, movingBuffer: bool, ticketMax: nat)
      ensures Valid() && Once() && ordered && fresh(bio) && fresh(buf) && buf.store == null
      ensures bio.wire == [] && sealedBytes == [] && records == [] && accepted == [] && inflight == []
      ensures flight == [] && flightOffset == 0 && !hasFlight && !wpendPending && !shutdown && connected
      ensures bio.refusals == 0 && sealFailures == 0
      ensures !alertDispatch && wnum == 0 && earlyWritten == 0 && canEarlyWrite && this.ticketMax == ticketMax
      ensures this.maxSendFragment == maxSendFragment && this.overhead == overhead
      ensures this.partialWrite == partialWrite && this.movingBuffer == movingBuffer
    {
      bio := new Transport();
      buf := new SSLBuffer();
      connected, shutdown, this.overhead := true, false, overhead;
      hasFlight, flight, flightOffset := false, [], 0;
      wpendPending, wpendTot, wpendAddr, wpendType, wpendRet, wnum := false, 0, 0, AppData, 0, 0;
      this.maxSendFragment, this.partialWrite, this.movingBuffer := maxSendFragment, partialWrite, movingBuffer;
      alertDispatch, level, desc := false, 0, 0;
      this.ticketMax, earlyWritten, canEarlyWrite := ticketMax, 0, true;
      records, sealedBytes, ordered, inflight, accepted, sealFailures := [], [], true, [], [], 0;
    }

    /** tls_seal_record, whose cipher is not part of this model: it may fail, and
        what it writes fits in the room it is given. */
    method Seal(typ: RecordType, plain: seq<byte>, maxOut: nat) returns (ok: bool, out: seq<byte>)
      modifies this`sealFailures
      ensures ok ==> |out| <= maxOut && |out| <= |plain| + overhead
      ensures sealFailures == old(sealFailures) + if ok then 0 else 1
    {
      ok, out := *, *;
      if |out| > maxOut || |out| > |plain| + overhead {
        ok := false;
      }
      if !ok { sealFailures := sealFailures + 1; }
    }

    /** add_record_to_flight. A flight is not added to while it is written out. */
    method AddRecordToFlight(typ: RecordType, plain: seq<byte>) returns (ok: bool)
      requires Valid() && flightOffset == 0
      modifies this`hasFlight, this`flight, this`records, this`sealedBytes, this`sealFailures
      ensures Valid()
      ensures ok <==> sealFailures == old(sealFailures)
      ensures records == if ok then old(records) + [Rec(typ, plain)] else old(records)
      ensures ok ==> hasFlight
      ensures |flight| <= old(|flight|) + if ok then |plain| + overhead else 0
    {
      hasFlight := true;
      var sealed, out := Seal(typ, plain, |plain| + overhead);
      if !sealed {
        return false;
      }
      hide InOrder, AppBytes;
      assert flight[0..] == flight;
      if ordered { FlightGrows(bio.wire, buf.Contents(), flight, sealedBytes, out); }
      flight := flight + out;
      ghost var r := Rec(typ, plain);
      records, sealedBytes := records + [r], sealedBytes + out;
      return true;
    }

    /** ssl3_add_message. */
    method AddMessage(msg: seq<byte>) returns (ok: bool, ghost done: nat)
      requires Valid() && flightOffset == 0
      modifies this`hasFlight, this`flight, this`records, this`sealedBytes, this`sealFailures
      ensures Valid()
      ensures ok <==> sealFailures == old(sealFailures)
      ensures done <= |AsRecords(Chunks(msg, maxSendFragment))|
      ensures records == old(records) + AsRecords(Chunks(msg, maxSendFragment))[..done]
      ensures ok ==> done == |AsRecords(Chunks(msg, maxSendFragment))|
      ensures AppBytes(records) == old(AppBytes(records))
      ensures |flight| <= old(|flight|) + |msg| + Added(done, overhead)
    {
      hide Chunks, AsRecords, Valid, Splits, AppBytes, Added;
      NothingAdded(overhead);
      var rest := msg;
      ghost var before: seq<Rec> := [];
      SplitsAtFirst(msg, maxSendFragment);
      while true
        invariant Valid()
        invariant records == old(records) + before && AppBytes(records) == old(AppBytes(records))
        invariant Splits(before, rest, msg, maxSendFragment) && sealFailures == old(sealFailures)
        invariant |flight| <= old(|flight|) + |msg| - |rest| + Added(|before|, overhead)
        decreases |rest|
      {
        var n := if |rest| <= maxSendFragment then |rest| else maxSendFragment;
        var chunk := rest[..n];
        SplitsNext(before, rest, msg, maxSendFragment);
        AppBytesOne(records, Rec(Handshake, chunk));
        OneMoreAdded(|before|, overhead);
        ok := AddRecordToFlight(Handshake, chunk);
        if !ok {
          return false, |before|;
        }
        rest := rest[n..];
        before := before + [Rec(Handshake, chunk)];
        if rest == [] {
          assert before[..|before|] == before;
          return true, |before|;
        }
      }
    }

    /** ssl_write_buffer_flush. */
    method FlushBuffer() returns (ret: int)
      requires Valid()
      modifies bio, buf
      ensures bio.refusals >= old(bio.refusals)
      ensures Valid()
      ensures ret > 0 ==> ret == 1 && buf.Contents() == []
      ensures ret > 0 <==> connected && bio.refusals == old(bio.refusals)
      ensures buf.store == old(buf.store) || buf.store == null
    {
      hide InOrder;
      if !connected {
        return -1;
      }
      ghost var w0, b0 := bio.wire, buf.Contents();
      ghost var takes;
      ret, takes := buf.Flush(bio);
      if ordered { BufferMoves(w0, b0, bio.wire, buf.Contents(), flight[flightOffset..], sealedBytes); }
    }

    /** The write loop of ssl3_flush_flight. */
    method WriteFlight() returns (ret: int)
      requires Valid() && hasFlight && buf.size == 0 && flightOffset < |flight|
      modifies this`flightOffset, bio
      ensures Valid() && (ret > 0 ==> flightOffset == |flight|) && Unsent() <= old(Unsent())
      ensures ret > 0 <==> connected && bio.refusals == old(bio.refusals)
    {
      hide InOrder;
      while flightOffset < |flight|
        invariant Valid() && Unsent() <= old(Unsent()) && bio.refusals == old(bio.refusals)
        invariant flightOffset > old(flightOffset) ==> connected
        decreases |flight| - flightOffset
      {
        if !connected {
          return -1;
        }
        ghost var rest, sent := flight[flightOffset..], bio.wire;
        ret := bio.Write(flight[flightOffset..]);
        if ret <= 0 {
          return;
        }
        flightOffset := flightOffset + ret;
        if ordered { FlightMoves(sent, rest, ret, sealedBytes); }
        SliceAgain(flight, flightOffset - ret, flightOffset, |flight|);
      }
      return 1;
    }

    /** ssl3_flush_flight: the buffer goes first, then the flight. */
    method FlushFlight() returns (ret: int)
      requires Valid()
      modifies this`hasFlight, this`flight, this`flightOffset, bio, buf
      ensures Valid()
      ensures ret > 0 ==> ret == 1 && !hasFlight && flightOffset == 0
      ensures ret > 0 <==>
                !old(hasFlight) || (!shutdown && old(|flight|) <= MAX_FLIGHT && connected && bio.refusals == old(bio.refusals))
      ensures ret > 0 && old(hasFlight) && ordered ==> InOrder(bio.wire, [], [], sealedBytes)
      ensures flight == old(flight) || !hasFlight
      ensures !old(hasFlight) ==> ret == 1
      ensures Unsent() <= old(Unsent())
      ensures old(hasFlight) && shutdown ==> ret == -1
      ensures !old(hasFlight) || shutdown ==> bio.wire == old(bio.wire) && flightOffset == old(flightOffset)
      ensures buf.store == old(buf.store) || buf.store == null
    {
      hide InOrder;
      if !hasFlight {
        assert flightOffset == 0;
        return 1;
      }
      if shutdown {
        return -1;
      }
      if |flight| > MAX_FLIGHT {
        return -1;
      }
      if buf.size > 0 {
        ret := FlushBuffer();
        if ret <= 0 {
          return;
        }
      }
      if flightOffset < |flight| {
        ret := WriteFlight();
        if ret <= 0 {
          return;
        }
      }
      if !connected {
        return -1;
      }
      var flushed := bio.Flush();
      if flushed <= 0 {
        return -1;
      }
      DropFlight();
      return 1;
    }

    /** A flight that is all written is released. */
    method DropFlight()
      requires Valid() && buf.size == 0 && flightOffset == |flight|
      modifies this`hasFlight, this`flight, this`flightOffset
      ensures Valid() && !hasFlight && flight == [] && flightOffset == 0
      ensures ordered ==> InOrder(bio.wire, [], [], sealedBytes)
    {
      hide InOrder;
      assert buf.Contents() == [] && flight[flightOffset..] == [];
      hasFlight, flight, flightOffset := false, [], 0;
      assert flight[flightOffset..] == [];
    }

    /** How often the cipher failed or the transport answered 0 or less. */
    ghost function Troubles(): nat
      reads this`sealFailures, bio`refusals
    {
      sealFailures + bio.refusals
    }

    /** A record is pending, and this call is a retry of its write. */
    ghost predicate Retries(typ: RecordType, addr: int, len: nat)
      reads this`wpendTot, this`wpendAddr, this`wpendType, this`movingBuffer
    {
      wpendTot <= len && (movingBuffer || wpendAddr == addr) && wpendType == typ
    }

    /** A record of `n` bytes can be written, if cipher and transport are willing. */
    ghost predicate Admits(typ: RecordType, addr: int, n: nat)
      reads this`wpendPending, this`wpendTot, this`wpendAddr, this`wpendType, this`movingBuffer
      reads this`flight, this`flightOffset, this`overhead, buf`size
    {
      if wpendPending then Retries(typ, addr, n)
      else 0 < n <= MAX_PLAIN && buf.size == 0 && Unsent() + n + overhead <= CAP_LIMIT
    }

    /** ssl3_write_pending. */
    method WritePending(typ: RecordType, addr: int, len: nat) returns (ret: int)
      requires Valid() && wpendPending
      modifies this`wpendPending, bio, buf
      ensures bio.refusals >= old(bio.refusals)
      ensures Valid()
      ensures ret > 0 ==> ret == wpendRet <= len && wpendType == typ && !wpendPending && buf.Contents() == []
      ensures ret > 0 ==> movingBuffer || wpendAddr == addr
      ensures ret <= 0 ==> wpendPending
      ensures ret > 0 <==> old(Retries(typ, addr, len)) && connected && bio.refusals == old(bio.refusals)
      ensures !old(Retries(typ, addr, len)) ==> buf.size == old(buf.size) && bio.refusals == old(bio.refusals)
      ensures buf.store == old(buf.store) || buf.store == null
    {
      hide InOrder;
      if wpendTot > len || (!movingBuffer && wpendAddr != addr) || wpendType != typ {
        return -1;
      }
      ret := FlushBuffer();
      if ret <= 0 {
        return;
      }
      wpendPending := false;
      return wpendRet;
    }

    /** do_ssl3_write: flush what is pending, or seal one record behind whatever of
        the flight has not been written. `base` is where malloc happens to allocate. */
    method DoWrite(typ: RecordType, addr: int, plain: seq<byte>, base: nat) returns (ret: int)
      requires Valid()
      modifies this`hasFlight, this`flight, this`flightOffset, this`records, this`sealedBytes, this`ordered
      modifies this`wpendPending, this`wpendTot, this`wpendAddr, this`wpendType, this`wpendRet
      modifies this`sealFailures, bio, buf, buf.store
      ensures Troubles() >= old(Troubles())
      ensures Valid()
      ensures ret > 0 <==> old(Admits(typ, addr, |plain|)) && connected && Troubles() == old(Troubles())
      ensures !old(Admits(typ, addr, |plain|)) ==>
                && !Admits(typ, addr, |plain|) && Troubles() == old(Troubles())
                && wpendPending == old(wpendPending) && buf.size == old(buf.size)
      ensures buf.store == old(buf.store) || buf.store == null || fresh(buf.store)
      ensures Unsent() <= old(Unsent())
      ensures old(wpendPending) ==> ordered == old(ordered)
      ensures old(ordered) && old(Roomy(|plain|)) ==> ordered
      ensures ret > 0 ==>
                && !wpendPending && ret <= |plain| && buf.Contents() == []
                && (if old(wpendPending) then
                      ret == old(wpendRet) && old(wpendType) == typ && (movingBuffer || old(wpendAddr) == addr)
                    else ret == |plain|)
      ensures records == old(records) || (!old(wpendPending) && plain != [] && records == old(records) + [Rec(typ, plain)])
      ensures ret > 0 && !old(wpendPending) ==> records == old(records) + [Rec(typ, plain)]
      ensures ret <= 0 ==>
                if records == old(records) then
                  && wpendPending == old(wpendPending) && wpendTot == old(wpendTot)
                  && wpendType == old(wpendType) && wpendRet == old(wpendRet) && wpendAddr == old(wpendAddr)
                else
                  wpendPending && wpendType == typ && wpendRet == |plain| && wpendAddr == addr
    {
      hide InOrder;
      if wpendPending {
        ret := WritePending(typ, addr, |plain|);
        return;
      }
      if |plain| > MAX_PLAIN || buf.size > 0 {
        return -1;
      }
      if |plain| == 0 {
        return 0;
      }
      var sealed := SealIntoBuffer(typ, plain, base);
      if !sealed {
        return -1;
      }
      wpendTot, wpendAddr, wpendType, wpendRet, wpendPending := |plain|, addr, typ, |plain|, true;
      ret := WritePending(typ, addr, |plain|);
    }

    /** The part of do_ssl3_write that fills the buffer. */
    method SealIntoBuffer(typ: RecordType, plain: seq<byte>, base: nat) returns (ok: bool)
      requires Valid() && buf.size == 0 && plain != []
      modifies this`hasFlight, this`flight, this`flightOffset, this`records, this`sealedBytes, this`ordered
      modifies this`sealFailures, buf, buf.store
      ensures Valid()
      ensures ok <==> old(Unsent()) + |plain| + overhead <= CAP_LIMIT && sealFailures == old(sealFailures)
      ensures sealFailures >= old(sealFailures)
      ensures old(Unsent()) + |plain| + overhead > CAP_LIMIT ==>
                buf.size == 0 && Unsent() == old(Unsent()) && sealFailures == old(sealFailures)
      ensures buf.store == old(buf.store) || fresh(buf.store)
      ensures Unsent() <= old(Unsent())
      ensures ordered == (old(ordered) && buf.offset + buf.size <= 0x1_0000)
      ensures old(ordered) && old(Roomy(|plain|)) ==> ordered
      ensures records == if ok then old(records) + [Rec(typ, plain)] else old(records)
    {
      hide InOrder;
      var flightLen := |flight| - flightOffset;
      var maxOut := flightLen + |plain| + overhead;
      ok := buf.EnsureCap(flightLen, maxOut, base);
      if !ok {
        return false;
      }
      MoveFlight();
      var out;
      ok, out := Seal(typ, plain, buf.cap - buf.size);
      if ok {
        AppendRecord(Rec(typ, plain), out);
      }
    }

    /** The unsent flight becomes the front of the buffer. */
    method MoveFlight()
      requires Valid() && buf.size == 0 && |flight| - flightOffset <= buf.cap
      modifies this`hasFlight, this`flight, this`flightOffset, this`ordered, buf`size, buf.store
      ensures Valid() && !hasFlight && flight == [] && flightOffset == 0 && buf.size == old(Unsent())
      ensures ordered == (old(ordered) && buf.offset + buf.size <= 0x1_0000)
    {
      hide InOrder;
      var rest := flight[flightOffset..];
      assert buf.Contents() == [];
      if ordered { FlightJoinsBuffer(bio.wire, rest, sealedBytes); }
      buf.Append(rest);
      ordered := ordered && buf.Sound();
      assert buf.Contents() == rest;
      hasFlight, flight, flightOffset := false, [], 0;
      assert flight[flightOffset..] == [];
    }

    /** A sealed record goes behind the contents. */
    method AppendRecord(r: Rec, out: seq<byte>)
      requires Valid() && flight == [] && |out| <= buf.cap - buf.size
      modifies this`records, this`sealedBytes, this`ordered, buf`size, buf.store
      ensures Valid() && records == old(records) + [r]
      ensures ordered == (old(ordered) && buf.offset + buf.size <= 0x1_0000) && buf.size == old(buf.size) + |out|
    {
      hide InOrder;
      assert flight[flightOffset..] == [];
      if ordered { BufferGrows(bio.wire, buf.Contents(), sealedBytes, out); }
      buf.Append(out);
      ordered := ordered && buf.Sound();
      records, sealedBytes := records + [r], sealedBytes + out;
      assert flight[flightOffset..] == [];
    }

    /** Application bytes sealed in a record whose write has not been reported. */
    ghost function Pending(): nat
      reads this`wpendPending, this`wpendType, this`wpendRet
    {
      if wpendPending && wpendType.AppData? then wpendRet else 0
    }

    /** One record of application data: what is sealed continues what was pending. */
    method WriteStep(addr: int, data: seq<byte>, tot: nat, nw: nat, base: nat) returns (ret: int)
      requires Valid() && tot + nw <= |data|
      modifies this`hasFlight, this`flight, this`flightOffset, this`records, this`sealedBytes, this`ordered
      modifies this`wpendPending, this`wpendTot, this`wpendAddr, this`wpendType, this`wpendRet
      modifies this`sealFailures, bio, buf, buf.store
      ensures Troubles() >= old(Troubles())
      ensures Valid()
      ensures buf.store == old(buf.store) || buf.store == null || fresh(buf.store)
      ensures ret > 0 <==> old(Admits(AppData, addr + tot, nw)) && connected && Troubles() == old(Troubles())
      ensures !old(Admits(AppData, addr + tot, nw)) ==>
                && !Admits(AppData, addr + tot, nw) && Troubles() == old(Troubles())
                && wpendPending == old(wpendPending) && buf.size == old(buf.size)
      ensures ret > 0 ==> !wpendPending && buf.Contents() == []
      ensures if ret > 0 then old(Pending()) <= ret <= nw && Pending() == 0
              else Pending() == old(Pending()) || (old(Pending()) == 0 && Pending() == nw)
      ensures AppBytes(records) ==
              old(AppBytes(records)) + Stretch(data, tot + old(Pending()), tot + if ret > 0 then ret else Pending())
      ensures records == old(records) || records == old(records) + [Rec(AppData, data[tot..tot + nw])]
      ensures Unsent() <= old(Unsent()) && (old(ordered) && old(Roomy(nw)) ==> ordered)
    {
      hide InOrder, AppBytes, Valid, Roomy;
      var chunk := data[tot..tot + nw];
      ghost var before := records;
      ret := DoWrite(AppData, addr + tot, chunk, base);
      if records != before { AppBytesOne(before, Rec(AppData, chunk)); }
    }

    /** ssl3_write_app_data. What a call seals is `data` behind what was sealed of it
        before. So the bytes of a write that succeeds are sealed exactly once if and
        only if the retries offered the same bytes; a retry that is shorter than
        the progress made forgets that progress. */
    method WriteAppData(addr: int, data: seq<byte>, len: int, inEarlyData: bool, base: nat)
      returns (ret: int, needsHandshake: bool)
      requires Valid() && earlyWritten <= ticketMax && (len < 0 || len == |data|)
      modifies this`hasFlight, this`flight, this`flightOffset, this`records, this`sealedBytes, this`ordered
      modifies this`wpendPending, this`wpendTot, this`wpendAddr, this`wpendType, this`wpendRet
      modifies this`wnum, this`canEarlyWrite, this`earlyWritten, this`inflight, this`accepted
      modifies this`sealFailures, bio, buf, buf.store
      ensures Troubles() >= old(Troubles())
      ensures Valid()
      ensures buf.store == old(buf.store) || buf.store == null || fresh(buf.store)
      ensures ret > 0 ==> ret <= len && (partialWrite || ret == len)
      ensures ret > 0 ==> connected && Troubles() == old(Troubles())
      ensures ret > 0 ==> !wpendPending && buf.Contents() == []
      // The reasons to fail are exactly these.
      ensures ret <= 0 ==>
                || old(shutdown) || len < old(wnum) || needsHandshake || !connected
                || Troubles() > old(Troubles())
                || Stuck(addr, data, wnum, inEarlyData && old(canEarlyWrite))
      // So a write that nothing speaks against goes through.
      ensures !old(shutdown) && old(wnum) <= len && !needsHandshake && connected && Troubles() == old(Troubles())
              && !old(Stuck(addr, data, wnum, inEarlyData && canEarlyWrite))
              && maxSendFragment <= MAX_PLAIN && old(Unsent()) + maxSendFragment + overhead <= CAP_LIMIT
              ==> ret > 0
      ensures needsHandshake ==> inEarlyData && old(canEarlyWrite)
      ensures AppBytes(records) == old(AppBytes(records)) +
              Stretch(data, old(wnum + Pending()), if ret > 0 then ret else wnum + Pending())
      ensures old(Once()) && ret > 0 ==> (AppBytes(records) == old(accepted) + data[..ret] <==> old(inflight) <= data)
      ensures old(Once()) && len >= old(wnum) && old(inflight) <= data ==>
                && Once()
                && (if ret > 0 then accepted == old(accepted) + data[..ret] && inflight == []
                    else accepted == old(accepted) && old(inflight) <= inflight <= data)
      ensures !old(shutdown) && len < old(wnum) ==> wnum == 0 && (old(Once() && wnum > 0) ==> !Once())
      ensures needsHandshake ==> ret < 0 && earlyWritten == ticketMax && !canEarlyWrite
      ensures old(earlyWritten) <= earlyWritten <= ticketMax
      ensures ret > 0 ==>
                earlyWritten == old(earlyWritten) + if inEarlyData && old(canEarlyWrite) then ret - old(wnum) else 0
      ensures old(records) <= records && Fragmented(records[|old(records)|..], maxSendFragment)
      ensures old(shutdown) || len < old(wnum) ==> ret == -1 && records == old(records)
      ensures Unsent() <= old(Unsent()) && (old(ordered) && old(Roomy(maxSendFragment)) ==> ordered)
    {
      hide InOrder, AppBytes, Valid, Roomy, Stretch, Stuck, Unsent, Troubles, Admits, Portion, Retries, Fragmented, SSLBuffer.Contents, SSLBuffer.Valid;
      FragmentedOne(records, records, [], maxSendFragment);
      needsHandshake := false;
      if shutdown {
        return -1, false;
      }
      ghost var once := Once();
      var tot: nat := wnum;
      wnum := 0;
      if len < 0 || len < tot {
        return -1, false;
      }
      ret, needsHandshake := WriteOn(addr, data, tot, inEarlyData && canEarlyWrite, base, once);
    }

    /** The rest of a write of which `tot` bytes are behind, and the books. */
    method WriteOn(addr: int, data: seq<byte>, tot: nat, early: bool, base: nat, ghost once: bool)
      returns (ret: int, needsHandshake: bool)
      requires Valid() && earlyWritten <= ticketMax && wnum == 0 && tot <= |data|
      requires once ==> AppBytes(records) == accepted + inflight && |inflight| == tot + Pending()
      modifies this`hasFlight, this`flight, this`flightOffset, this`records, this`sealedBytes, this`ordered
      modifies this`wpendPending, this`wpendTot, this`wpendAddr, this`wpendType, this`wpendRet
      modifies this`wnum, this`canEarlyWrite, this`earlyWritten, this`inflight, this`accepted
      modifies this`sealFailures, bio, buf, buf.store
      ensures Troubles() >= old(Troubles())
      ensures Valid()
      ensures buf.store == old(buf.store) || buf.store == null || fresh(buf.store)
      ensures ret > 0 ==> connected && Troubles() == old(Troubles()) && !wpendPending && buf.Contents() == []
      ensures ret > 0 ==> tot <= ret <= |data| && (partialWrite || ret == |data|)
      ensures ret <= 0 ==>
                needsHandshake || !connected || Troubles() > old(Troubles()) || Stuck(addr, data, wnum, early)
      ensures !needsHandshake && connected && Troubles() == old(Troubles()) && !old(Stuck(addr, data, tot, early))
              && maxSendFragment <= MAX_PLAIN && old(Unsent()) + maxSendFragment + overhead <= CAP_LIMIT
              ==> ret > 0
      ensures needsHandshake ==> early && ret < 0 && earlyWritten == ticketMax && !canEarlyWrite
      ensures AppBytes(records) ==
              old(AppBytes(records)) + Stretch(data, tot + old(Pending()), if ret > 0 then ret else wnum + Pending())
      ensures once && ret > 0 ==> (AppBytes(records) == old(accepted) + data[..ret] <==> old(inflight) <= data)
      ensures once && old(inflight) <= data ==>
                && Once()
                && (if ret > 0 then accepted == old(accepted) + data[..ret] && inflight == []
                    else accepted == old(accepted) && old(inflight) <= inflight <= data)
      ensures old(earlyWritten) <= earlyWritten <= ticketMax
      ensures ret > 0 ==> earlyWritten == old(earlyWritten) + if early then ret - tot else 0
      ensures old(records) <= records && Fragmented(records[|old(records)|..], maxSendFragment)
      ensures Unsent() <= old(Unsent()) && (old(ordered) && old(Roomy(maxSendFragment)) ==> ordered)
    {
      hide InOrder, AppBytes, Valid, Roomy, Stretch, Stuck, Unsent, Troubles, Admits, Portion, Retries, Fragmented, SSLBuffer.Contents, SSLBuffer.Valid, Once;
      ghost var app := AppBytes(records);
      ret, needsHandshake := WriteRest(addr, data, tot, early, base);
      if once { Book(app, data, if ret > 0 then ret else wnum + Pending(), ret > 0); }
    }

    /** After a call that sealed `data` up to `n`: a write that succeeded is accepted,
        one that did not is in flight. */
    ghost method Book(app: seq<byte>, data: seq<byte>, n: nat, done: bool)
      requires app == accepted + inflight && |inflight| <= n && (n <= |data| || |inflight| == n)
      requires AppBytes(records) == app + Stretch(data, |inflight|, n)
      requires if done then n <= |data| && wnum == 0 && Pending() == 0 else n == wnum + Pending()
      modifies this`inflight, this`accepted
      ensures done ==> (AppBytes(records) == old(accepted) + data[..n] <==> old(inflight) <= data)
      ensures old(inflight) <= data ==>
                && Once()
                && (if done then accepted == old(accepted) + data[..n] && inflight == []
                    else accepted == old(accepted) && old(inflight) <= inflight <= data)
    {
      hide AppBytes, Stretch;
      ExactlyWhenRetried(app, accepted, inflight, data, n);
      if inflight <= data {
        if done { accepted, inflight := accepted + data[..n], []; } else { inflight := data[..n]; }
      }
    }

    /** How much goes into the next record when `left` bytes are left. */
    ghost function Portion(left: nat, early: bool): (n: nat)
      reads this`maxSendFragment, this`ticketMax, this`earlyWritten
      ensures n <= left && n <= maxSendFragment
    {
      var max := if early && earlyWritten <= ticketMax && maxSendFragment > ticketMax - earlyWritten
                 then ticketMax - earlyWritten else maxSendFragment as nat;
      if left > max then max else left
    }

    /** From `at` on, the next record of the write is not admitted. */
    ghost predicate Stuck(addr: int, data: seq<byte>, at: nat, early: bool)
      reads this`wpendPending, this`wpendTot, this`wpendAddr, this`wpendType, this`movingBuffer
      reads this`flight, this`flightOffset, this`overhead, buf`size, this`maxSendFragment, this`ticketMax, this`earlyWritten
    {
      at <= |data| && !Admits(AppData, addr + at, Portion(|data| - at, early))
    }

    /** Behind a record that was written, the next is admitted where its size is. */
    lemma NextAdmitted(addr: int, data: seq<byte>, at: nat, early: bool)
      requires !wpendPending && buf.size == 0 && at < |data| && earlyWritten <= ticketMax
      requires early ==> earlyWritten < ticketMax
      requires maxSendFragment <= MAX_PLAIN && Unsent() + maxSendFragment + overhead <= CAP_LIMIT
      ensures !Stuck(addr, data, at, early)
    {}

    /** One turn of the loop in ssl3_write_app_data: a record of at most the fragment
        size and, in early data, of what the ticket still allows. */
    method WriteTurn(addr: int, data: seq<byte>, tot: nat, early: bool, base: nat)
      returns (ret: int, needsHandshake: bool)
      requires Valid() && earlyWritten <= ticketMax && wnum == 0 && tot <= |data|
      modifies this`hasFlight, this`flight, this`flightOffset, this`records, this`sealedBytes, this`ordered
      modifies this`wpendPending, this`wpendTot, this`wpendAddr, this`wpendType, this`wpendRet
      modifies this`wnum, this`canEarlyWrite, this`earlyWritten
      modifies this`sealFailures, bio, buf, buf.store
      ensures Troubles() >= old(Troubles())
      ensures Valid()
      ensures buf.store == old(buf.store) || buf.store == null || fresh(buf.store)
      ensures needsHandshake <==> early && old(earlyWritten) == ticketMax
      ensures ret > 0 <==> !needsHandshake && !old(Stuck(addr, data, tot, early)) && connected && Troubles() == old(Troubles())
      ensures ret <= 0 && !needsHandshake && connected && Troubles() == old(Troubles())
              ==> Stuck(addr, data, tot, early) && wpendPending == old(wpendPending) && buf.size == old(buf.size)
      ensures ret > 0 ==> !wpendPending && buf.Contents() == []
      ensures if ret > 0 then tot + ret <= |data| && old(Pending()) <= ret && wnum == 0 && Pending() == 0
              else wnum == tot && Pending() >= old(Pending())
      ensures ret <= 0 && Pending() != old(Pending()) ==> tot + Pending() <= |data|
      ensures AppBytes(records) ==
              old(AppBytes(records)) + Stretch(data, tot + old(Pending()), tot + if ret > 0 then ret else Pending())
      ensures needsHandshake ==> ret < 0 && earlyWritten == ticketMax && !canEarlyWrite
      ensures earlyWritten == old(earlyWritten) + (if early && ret > 0 then ret else 0) <= ticketMax
      ensures old(records) <= records && Fragmented(records[|old(records)|..], maxSendFragment)
      ensures Unsent() <= old(Unsent()) && (old(ordered) && old(Roomy(maxSendFragment)) ==> ordered)
    {
      hide InOrder, AppBytes, Valid, Stretch, Fragmented, Admits, Troubles, Retries, Unsent, Roomy, SSLBuffer.Contents, SSLBuffer.Valid;
      FragmentedOne(records, records, [], maxSendFragment);
      var max: nat := maxSendFragment;
      if early && max > ticketMax - earlyWritten {
        max := ticketMax - earlyWritten;
        if max == 0 {
          wnum, canEarlyWrite := tot, false;
          return -1, true;
        }
      }
      var n: nat := |data| - tot;
      ret := WritePortion(addr, data, tot, if n > max then max else n, early, base);
      needsHandshake := false;
      if ret <= 0 {
        wnum := tot;
      } else if early {
        earlyWritten := earlyWritten + ret;
      }
    }

    /** The record of a turn. */
    method WritePortion(addr: int, data: seq<byte>, tot: nat, nw: nat, ghost early: bool, base: nat) returns (ret: int)
      requires Valid() && tot <= |data| && nw == Portion(|data| - tot, early)
      modifies this`hasFlight, this`flight, this`flightOffset, this`records, this`sealedBytes, this`ordered
      modifies this`wpendPending, this`wpendTot, this`wpendAddr, this`wpendType, this`wpendRet
      modifies this`sealFailures, bio, buf, buf.store
      ensures Troubles() >= old(Troubles())
      ensures Valid()
      ensures buf.store == old(buf.store) || buf.store == null || fresh(buf.store)
      ensures ret > 0 <==> !old(Stuck(addr, data, tot, early)) && connected && Troubles() == old(Troubles())
      ensures ret <= 0 && connected && Troubles() == old(Troubles())
              ==> Stuck(addr, data, tot, early) && wpendPending == old(wpendPending) && buf.size == old(buf.size)
      ensures ret > 0 ==> !wpendPending && buf.Contents() == []
      ensures if ret > 0 then ret <= nw && old(Pending()) <= ret && Pending() == 0 else Pending() >= old(Pending())
      ensures ret <= 0 && Pending() != old(Pending()) ==> tot + Pending() <= |data|
      ensures AppBytes(records) ==
              old(AppBytes(records)) + Stretch(data, tot + old(Pending()), tot + if ret > 0 then ret else Pending())
      ensures old(records) <= records && Fragmented(records[|old(records)|..], maxSendFragment)
      ensures Unsent() <= old(Unsent()) && (old(ordered) && old(Roomy(maxSendFragment)) ==> ordered)
    {
      hide InOrder, AppBytes, Valid, Stretch, Fragmented, Admits, Pending, Troubles, Retries, Unsent, SSLBuffer.Contents, SSLBuffer.Valid;
      ghost var was := records;
      ret := WriteStep(addr, data, tot, nw, base);
      FragmentedOne(was, records, data[tot..tot + nw], maxSendFragment);
    }

    /** The loop of ssl3_write_app_data. */
    method WriteRest(addr: int, data: seq<byte>, start: nat, early: bool, base: nat)
      returns (ret: int, needsHandshake: bool)
      requires Valid() && earlyWritten <= ticketMax && wnum == 0 && start <= |data|
      modifies this`hasFlight, this`flight, this`flightOffset, this`records, this`sealedBytes, this`ordered
      modifies this`wpendPending, this`wpendTot, this`wpendAddr, this`wpendType, this`wpendRet
      modifies this`wnum, this`canEarlyWrite, this`earlyWritten
      modifies this`sealFailures, bio, buf, buf.store
      ensures Troubles() >= old(Troubles())
      ensures Valid()
      ensures buf.store == old(buf.store) || buf.store == null || fresh(buf.store)
      ensures needsHandshake ==> early
      ensures ret > 0 ==> !needsHandshake && connected && !wpendPending && buf.Contents() == []
      ensures ret > 0 ==> Troubles() == old(Troubles())
      // The reasons to fail are exactly these.
      ensures ret <= 0 ==>
                || needsHandshake || !connected || Troubles() > old(Troubles())
                || Stuck(addr, data, wnum, early)
      // So a write that nothing speaks against goes through.
      ensures !needsHandshake && connected && Troubles() == old(Troubles()) && !old(Stuck(addr, data, start, early))
              && maxSendFragment <= MAX_PLAIN && old(Unsent()) + maxSendFragment + overhead <= CAP_LIMIT
              ==> ret > 0
      ensures if ret > 0 then start + old(Pending()) <= ret <= |data| && (partialWrite || ret == |data|) && wnum == 0 && Pending() == 0
              else wnum >= start && start + old(Pending()) <= wnum + Pending()
      ensures ret <= 0 && start + old(Pending()) != wnum + Pending() ==> wnum + Pending() <= |data|
      ensures AppBytes(records) ==
              old(AppBytes(records)) + Stretch(data, start + old(Pending()), if ret > 0 then ret else wnum + Pending())
      ensures needsHandshake ==> ret < 0 && earlyWritten == ticketMax && !canEarlyWrite
      ensures earlyWritten == old(earlyWritten) + (if early then (if ret > 0 then ret else wnum) - start else 0) <= ticketMax
      ensures old(records) <= records && Fragmented(records[|old(records)|..], maxSendFragment)
      ensures Unsent() <= old(Unsent()) && (old(ordered) && old(Roomy(maxSendFragment)) ==> ordered)
    {
      hide InOrder, AppBytes, Valid, Pending, Stretch, Stuck, Fragmented, SSLBuffer.Valid, Admits, Portion, Retries;
      var tot := start;
      var n: nat := |data| - tot;
      ghost var app, first := AppBytes(records), start + Pending();
      FragmentedOne(records, records, [], maxSendFragment);
      while true
        invariant Valid() && tot + n == |data| && wnum == 0
        invariant first <= tot + Pending() && (tot == start || Pending() == 0) && (tot == start ==> first == tot + Pending())
        invariant AppBytes(records) == app + Stretch(data, first, tot + Pending())
        invariant Troubles() == old(Troubles())
        invariant tot == start ==> (Stuck(addr, data, start, early) <==> old(Stuck(addr, data, start, early)))
        invariant tot > start ==> !wpendPending && buf.size == 0 && tot < |data|
        invariant tot >= start && earlyWritten == old(earlyWritten) + (if early then tot - start else 0) <= ticketMax
        invariant old(records) <= records && Fragmented(records[|old(records)|..], maxSendFragment)
        invariant buf.store == old(buf.store) || buf.store == null || fresh(buf.store)
        invariant Unsent() <= old(Unsent()) && (old(ordered) && old(Roomy(maxSendFragment)) ==> ordered)
        decreases n
      {
        ghost var was, pending := records, Pending();
        ret, needsHandshake := WriteTurn(addr, data, tot, early, base);
        FragmentedMore(old(records), was, records, maxSendFragment);
        StretchGrows(app, data, first, tot + pending, tot + if ret > 0 then ret else Pending());
        if ret <= 0 {
          if tot > start && !needsHandshake && !wpendPending && buf.size == 0
             && maxSendFragment <= MAX_PLAIN && Unsent() + maxSendFragment + overhead <= CAP_LIMIT {
            NextAdmitted(addr, data, tot, early);
          }
          return;
        }
        if ret == n || partialWrite {
          return tot + ret, false;
        }
        n, tot := n - ret, tot + ret;
      }
    }

    /** ssl3_dispatch_alert, apart from the final BIO_flush: however often it is
        called, the waiting alert is sealed once. */
    method DispatchAlert(base: nat) returns (ret: int)
      requires Valid()
      modifies this`hasFlight, this`flight, this`flightOffset, this`records, this`sealedBytes, this`ordered
      modifies this`wpendPending, this`wpendTot, this`wpendAddr, this`wpendType, this`wpendRet
      modifies this`alertDispatch, this`sealFailures, bio, buf, buf.store
      ensures Troubles() >= old(Troubles())
      ensures Valid() && (old(Once()) ==> Once())
      ensures buf.store == old(buf.store) || buf.store == null || fresh(buf.store)
      ensures if old(wpendPending) then records == old(records)
              else records == old(records) || records == old(records) + [Rec(Alert, [level, desc])]
      ensures ret > 0 <==> old(Admits(Alert, ALERT_ADDR, 2)) && connected && Troubles() == old(Troubles())
      ensures ret > 0 ==> ret == 1 && !alertDispatch && !wpendPending && buf.Contents() == []
      ensures ret > 0 ==> if old(wpendPending) then old(wpendType) == Alert
                          else records == old(records) + [Rec(Alert, [level, desc])]
      ensures ret <= 0 ==> alertDispatch == old(alertDispatch)
      ensures ret <= 0 && records != old(records) ==> wpendPending && wpendType == Alert
      ensures Unsent() <= old(Unsent()) && (old(ordered) && old(Roomy(2)) ==> ordered)
    {
      hide InOrder, AppBytes, Valid, Roomy;
      ghost var before := records;
      ret := DoWrite(Alert, ALERT_ADDR, [level, desc], base);
      if records != before { AppBytesOne(before, Rec(Alert, [level, desc])); }
      if ret <= 0 {
        return;
      }
      alertDispatch := false;
      return 1;
    }

    /** ssl_send_alert: nothing may follow a closing alert, and an alert waits until
        the buffer is empty. */
    method SendAlert(level: byte, desc: byte, base: nat) returns (ret: int)
      requires Valid()
      modifies this`hasFlight, this`flight, this`flightOffset, this`records, this`sealedBytes, this`ordered
      modifies this`wpendPending, this`wpendTot, this`wpendAddr, this`wpendType, this`wpendRet
      modifies this`shutdown, this`alertDispatch, this`level, this`desc, this`sealFailures, bio, buf, buf.store
      ensures Troubles() >= old(Troubles())
      ensures Valid() && (old(Once()) ==> Once()) && shutdown
      ensures buf.store == old(buf.store) || buf.store == null || fresh(buf.store)
      ensures ret > 0 <==> !old(shutdown) && old(buf.size) == 0 && old(Admits(Alert, ALERT_ADDR, 2)) && connected && Troubles() == old(Troubles())
      ensures if old(shutdown) then ret == -1 && alertDispatch == old(alertDispatch) && this.level == old(this.level) && this.desc == old(this.desc)
              else this.level == level && this.desc == desc && alertDispatch == (ret <= 0)
      ensures old(shutdown) || old(buf.size) > 0 ==> ret == -1 && records == old(records)
      ensures records == old(records) || (!old(wpendPending) && records == old(records) + [Rec(Alert, [level, desc])])
      ensures !old(shutdown) && !old(wpendPending) && ret > 0 ==> records == old(records) + [Rec(Alert, [level, desc])]
      ensures Unsent() <= old(Unsent()) && (old(ordered) && old(Roomy(2)) ==> ordered)
    {
      hide InOrder, AppBytes, Valid, Roomy;
      if shutdown {
        return -1;
      }
      shutdown := true;
      alertDispatch, this.level, this.desc := true, level, desc;
      if buf.size == 0 {
        ret := DispatchAlert(base);
      } else {
        ret := -1;
      }
    }

    /** SSL_send_fatal_alert: a second alert is refused while one is waiting. */
    method SendFatalAlert(alert: byte, base: nat) returns (ret: int)
      requires Valid()
      modifies this`hasFlight, this`flight, this`flightOffset, this`records, this`sealedBytes, this`ordered
      modifies this`wpendPending, this`wpendTot, this`wpendAddr, this`wpendType, this`wpendRet
      modifies this`shutdown, this`alertDispatch, this`level, this`desc, this`sealFailures, bio, buf, buf.store
      ensures Troubles() >= old(Troubles())
      ensures Valid() && (old(Once()) ==> Once())
      ensures old(alertDispatch) && !(old(level) == FATAL && old(desc) == alert) ==> ret == -1 && records == old(records)
      ensures records == old(records) || (!old(wpendPending) && records == old(records) + [Rec(Alert, [FATAL, alert])])
      ensures old(alertDispatch) || !old(shutdown) ==> (ret > 0 <==> !alertDispatch)
      ensures ret > 0 <==>
                && (if old(alertDispatch) then old(level) == FATAL && old(desc) == alert else !old(shutdown) && old(buf.size) == 0)
                && old(Admits(Alert, ALERT_ADDR, 2)) && connected && Troubles() == old(Troubles())
      ensures Unsent() <= old(Unsent()) && (old(ordered) && old(Roomy(2)) ==> ordered)
    {
      hide InOrder, AppBytes, Valid, Roomy;
      if alertDispatch {
        if level != FATAL || desc != alert {
          return -1;
        }
        ret := DispatchAlert(base);
        return;
      }
      ret := SendAlert(FATAL, alert, base);
    }
  }
}
