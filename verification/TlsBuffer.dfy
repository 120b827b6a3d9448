/** The record buffer of the TLS stack and the transport below it. */
module TlsBuffer {
  import opened Words

  const ALIGN: nat := 8        // SSL3_ALIGN_PAYLOAD
  const CAP_LIMIT: nat := 0xffff

  /** A sum kept in 16 bits. */
  function Wrap16(v: nat): (r: nat)
    ensures r < 0x1_0000 && r <= v && (v < 0x1_0000 ==> r == v)
  {
    v % 0x1_0000
  }

  /** A non-blocking byte stream: a write may be short, or fail. */
  class Transport {
    var wire: seq<byte>
    ghost var refusals: nat  // how often a call was answered with 0 or less

    constructor ()
      ensures wire == [] && refusals == 0
    {
      wire, refusals := [], 0;
    }

    /** BIO_write. */
    method Write(bytes: seq<byte>) returns (ret: int)
      modifies this
      ensures if ret <= 0 then wire == old(wire) && refusals == old(refusals) + 1
              else ret <= |bytes| && wire == old(wire) + bytes[..ret] && refusals == old(refusals)
    {
      ret := *;
      if ret > |bytes| { ret := |bytes|; }
      if ret > 0 { wire := wire + bytes[..ret]; } else { refusals := refusals + 1; }
    }

    /** BIO_flush. */
    method Flush() returns (ret: int)
      modifies this`refusals
      ensures refusals == old(refusals) + if ret <= 0 then 1 else 0
    {
      ret := *;
      if ret <= 0 { refusals := refusals + 1; }
    }
  }

  lemma SliceAgain(s: seq<byte>, i: nat, j: nat, k: nat)
    requires i <= j <= k <= |s|
    ensures s[i..k][j - i..] == s[j..k]
  {}

  lemma Regroup(a: seq<byte>, b: seq<byte>, c: seq<byte>)
    ensures (a + b) + c == a + (b + c)
  {}

  /** SSLBuffer: `size` bytes of `store` from `offset` on, with room up to `cap`.
      The three counters are 16 bits wide. */
  class SSLBuffer {
    var store: array?<byte>
    var offset: nat
    var size: nat
    var cap: nat

    ghost predicate Valid()
      reads this
    {
      && offset < 0x1_0000 && size <= cap <= CAP_LIMIT
      && (if store == null then offset == 0 && cap == 0 else offset + cap <= store.Length)
    }

    /** No partial consumption can carry `offset` past 16 bits. */
    ghost predicate Sound()
      reads this
    {
      offset + size <= 0x1_0000
    }

    ghost function Contents(): (s: seq<byte>)
      requires Valid()
      reads this, store
      ensures |s| == size
    {
      if store == null then [] else store[offset..offset + size]
    }

    constructor ()
      ensures Valid() && Sound() && Contents() == [] && store == null && offset == 0
    {
      store, offset, size, cap := null, 0, 0, 0;
    }

    method Clear()
      modifies this
      ensures Valid() && Sound() && Contents() == [] && store == null && offset == 0
    {
      store, offset, size, cap := null, 0, 0, 0;
    }

    /** EnsureCap; `base` stands for the address that malloc happens to return. */
    method EnsureCap(headerLen: nat, newCap: nat, base: nat) returns (ok: bool)
      requires Valid()
      modifies this
      ensures Valid() && Contents() == old(Contents())
      ensures ok <==> newCap <= CAP_LIMIT
      ensures ok ==> cap >= newCap
      ensures store == old(store) || fresh(store)
      ensures size == old(size) && (offset == old(offset) || offset < ALIGN)
    {
      if newCap > CAP_LIMIT {
        return false;
      }
      if cap >= newCap {
        return true;
      }
      var newBuf := new byte[newCap + ALIGN - 1](_ => 0);
      var newOffset := (0 - headerLen - base) % ALIGN;
      ghost var was := Contents();
      if store != null {
        var from, count, at := store, size, offset;
        forall i | 0 <= i < count { newBuf[newOffset + i] := from[at + i]; }
        assert forall i :: 0 <= i < count ==> newBuf[newOffset + i] == was[i];
      }
      assert newBuf[newOffset..newOffset + size] == was;
      store, offset, cap := newBuf, newOffset, newCap;
      return true;
    }

    /** Bytes filled in behind the contents, and DidWrite. */
    method Append(bytes: seq<byte>)
      requires Valid() && |bytes| <= cap - size
      modifies this`size, store
      ensures Valid() && Contents() == old(Contents()) + bytes
    {
      if bytes != [] {
        var to, at := store, offset + size;
        forall i | 0 <= i < |bytes| { to[at + i] := bytes[i]; }
        size := size + |bytes|;
        assert store[offset..offset + size] == old(Contents()) + bytes;
      }
    }

    /** Consume: the offset is a 16-bit sum. */
    method Consume(len: nat)
      requires Valid() && len <= size
      modifies this`offset, this`size, this`cap
      ensures Valid() && size == old(size) - len && cap == old(cap) - len
      ensures offset == Wrap16(old(offset) + len)
      ensures old(Sound()) ==> Sound() && Contents() == old(Contents())[len..]
    {
      hide Wrap16;
      ghost var was := offset;
      offset := Wrap16(offset + len);
      size := size - len;
      cap := cap - len;
      if old(Sound()) {
        if size > 0 { SliceAgain(store[..], was, was + len, was + len + size); }
      }
    }

    /** tls_write_buffer_flush: the buffer is drained by what the transport takes
        each time, and whatever it takes leaves the front. */
    method Flush(bio: Transport) returns (ret: int, ghost takes: seq<nat>)
      requires Valid()
      modifies this, bio
      ensures Valid()
      ensures bio.wire == old(bio.wire) + Drain(old(Bytes()), old(offset), old(size), takes).wire
      ensures ret <= 0 ==> Contents() == Drain(old(Bytes()), old(offset), old(size), takes).Left(old(Bytes()))
      ensures old(Sound()) ==> Sound() && bio.wire + Contents() == old(bio.wire) + old(Contents())
      ensures ret > 0 ==> ret == 1 && Contents() == [] && Sound() && offset == 0
      ensures ret <= 0 ==> size > 0
      ensures ret > 0 <==> bio.refusals == old(bio.refusals)
      ensures old(bio.refusals) <= bio.refusals <= old(bio.refusals) + 1
      ensures size <= old(size)
      ensures store == old(store) || store == null
    {
      hide Drain, Wrap16, Shown;
      takes := [];
      ghost var bytes, from, all, was := Bytes(), offset, size, bio.wire;
      DrainNothing(bytes, from, all);
      while size > 0
        invariant Valid() && store == old(store) && size <= old(size)
        invariant Bytes() == bytes
        invariant Drain(bytes, from, all, takes).offset == offset && Drain(bytes, from, all, takes).size == size
        invariant bio.refusals == old(bio.refusals)
        invariant bio.wire == was + Drain(bytes, from, all, takes).wire
        decreases size
      {
        var front := store[offset..offset + size];
        ghost var sent := bio.wire;
        ret := bio.Write(front);
        if ret <= 0 {
          Drained(bio.wire, was, bytes, from, all, takes);
          return;
        }
        DrainMore(bytes, from, all, takes, ret);
        ShownFirst(bytes, offset, size, ret);
        Regroup(was, Drain(bytes, from, all, takes).wire, front[..ret]);
        takes := takes + [ret];
        Consume(ret);
      }
      Drained(bio.wire, was, bytes, from, all, takes);
      Clear();
      return 1, takes;
    }

    ghost function Bytes(): (s: seq<byte>)
      requires Valid()
      reads this, store
      ensures offset + size <= |s|
      ensures Contents() == Shown(s, offset, size)
    {
      if store == null then [] else store[..]
    }
  }

  /** The bytes a buffer shows. */
  function Shown(store: seq<byte>, offset: nat, size: nat): seq<byte>
    requires offset + size <= |store|
  {
    store[offset..offset + size]
  }

  lemma ShownSplit(store: seq<byte>, offset: nat, size: nat, take: nat)
    requires offset + size <= |store| && take <= size
    ensures Shown(store, offset, size) == Shown(store, offset, take) + Shown(store, offset + take, size - take)
  {}

  lemma ShownNothing(store: seq<byte>, a: nat, b: nat)
    requires a <= |store| && b <= |store|
    ensures Shown(store, a, 0) == Shown(store, b, 0)
  {}

  lemma ShownFirst(store: seq<byte>, offset: nat, size: nat, take: nat)
    requires offset + size <= |store| && take <= size
    ensures Shown(store, offset, size)[..take] == Shown(store, offset, take)
  {}

  /** What went to the transport, and the counters that are left. */
  datatype Draining = Draining(wire: seq<byte>, offset: nat, size: nat) {
    function Left(store: seq<byte>): seq<byte>
      requires offset + size <= |store|
    {
      Shown(store, offset, size)
    }
  }

  /** A buffer drained by writes of these lengths. */
  function Drain(store: seq<byte>, offset: nat, size: nat, takes: seq<nat>): (d: Draining)
    requires offset + size <= |store|
    ensures d.offset + d.size <= |store| && d.size <= size
    decreases |takes|
  {
    if takes == [] then Draining([], offset, size)
    else
      var d := Drain(store, offset, size, takes[..|takes| - 1]);
      var take := takes[|takes| - 1];
      if take > d.size then d
      else Draining(d.wire + Shown(store, d.offset, take), Wrap16(d.offset + take), d.size - take)
  }

  lemma DrainNothing(store: seq<byte>, offset: nat, size: nat)
    requires offset + size <= |store|
    ensures Drain(store, offset, size, []) == Draining([], offset, size)
  {}

  lemma DrainMore(store: seq<byte>, offset: nat, size: nat, takes: seq<nat>, take: nat)
    requires offset + size <= |store|
    requires take <= Drain(store, offset, size, takes).size
    ensures var d := Drain(store, offset, size, takes);
            Drain(store, offset, size, takes + [take]) ==
              Draining(d.wire + Shown(store, d.offset, take), Wrap16(d.offset + take), d.size - take)
  {
    assert (takes + [take])[..|takes|] == takes;
  }

  /** Draining keeps the order of the contents when they end within 16 bits. */
  lemma {:induction false} DrainExact(store: seq<byte>, offset: nat, size: nat, takes: seq<nat>)
    requires offset < 0x1_0000 && offset + size <= |store|
    ensures var d := Drain(store, offset, size, takes);
            offset + size <= 0x1_0000 ==>
              && d.offset + d.size <= 0x1_0000
              && (d.size > 0 ==> d.offset + d.size == offset + size)
              && d.wire + d.Left(store) == Shown(store, offset, size)
    decreases |takes|
  {
    if takes != [] {
      var last := |takes| - 1;
      DrainExact(store, offset, size, takes[..last]);
      assert takes == takes[..last] + [takes[last]];
      var d := Drain(store, offset, size, takes[..last]);
      if takes[last] <= d.size {
        DrainMore(store, offset, size, takes[..last], takes[last]);
        hide Drain, Shown;
        ShownSplit(store, d.offset, d.size, takes[last]);
        Regroup(d.wire, Shown(store, d.offset, takes[last]), Shown(store, d.offset + takes[last], d.size - takes[last]));
        if takes[last] == d.size { ShownNothing(store, d.offset + d.size, 0); }
      }
    }
  }

  lemma Drained(wire: seq<byte>, was: seq<byte>, store: seq<byte>, offset: nat, size: nat, takes: seq<nat>)
    requires offset < 0x1_0000 && offset + size <= |store|
    requires wire == was + Drain(store, offset, size, takes).wire
    ensures var d := Drain(store, offset, size, takes);
            offset + size <= 0x1_0000 ==>
              && d.offset + d.size <= 0x1_0000
              && wire + d.Left(store) == was + Shown(store, offset, size)
  {
    hide Drain, Shown;
    DrainExact(store, offset, size, takes);
    var d := Drain(store, offset, size, takes);
    Regroup(was, d.wire, d.Left(store));
  }

  /** The wire and the buffer hold the contents in order, for all contents and all
      short writes, exactly when the contents end within 16 bits. */
  lemma FlushExact(length: nat, offset: nat, size: nat)
    requires offset < 0x1_0000 && size <= CAP_LIMIT && offset + size <= length
    ensures (forall store: seq<byte>, takes: seq<nat> :: |store| == length ==>
               Drain(store, offset, size, takes).wire + Drain(store, offset, size, takes).Left(store) ==
               Shown(store, offset, size))
            <==> offset + size <= 0x1_0000
  {
    if offset + size <= 0x1_0000 {
      forall store: seq<byte>, takes: seq<nat> | |store| == length
        ensures Drain(store, offset, size, takes).wire + Drain(store, offset, size, takes).Left(store) ==
                Shown(store, offset, size)
      {
        DrainExact(store, offset, size, takes);
      }
    } else {
      var store := DrainBreaks(length, offset, size);
    }
  }

  /** A write of all but the last byte leaves the wrong byte behind. */
  lemma DrainBreaks(length: nat, offset: nat, size: nat) returns (store: seq<byte>)
    requires offset < 0x1_0000 && size <= CAP_LIMIT && 0x1_0000 < offset + size <= length
    ensures |store| == length
    ensures var d := Drain(store, offset, size, [size - 1]);
            d.wire + d.Left(store) != Shown(store, offset, size)
  {
    var last := offset + size - 1;
    store := seq(length, i => if i == last then 1 else 0);
    DrainNothing(store, offset, size);
    DrainMore(store, offset, size, [], size - 1);
    assert [] + [size - 1] == [size - 1];
    var d := Drain(store, offset, size, [size - 1]);
    hide Drain;
    assert (d.wire + d.Left(store))[size - 1] == 0;
    assert Shown(store, offset, size)[size - 1] == 1;
  }

  /** Such a buffer: the largest that EnsureCap grants, allocated so that its body is
      7 bytes in, and filled. */
  lemma FullBufferBreaks() returns (store: seq<byte>, offset: nat)
    ensures |store| == CAP_LIMIT + ALIGN - 1 && offset == (0 - 0 - 1) % ALIGN
    ensures var d := Drain(store, offset, CAP_LIMIT, [CAP_LIMIT - 1]);
            d.wire + d.Left(store) != Shown(store, offset, CAP_LIMIT)
  {
    offset := 7;
    store := DrainBreaks(CAP_LIMIT + ALIGN - 1, offset, CAP_LIMIT);
  }

  /** The 16-bit offset gives the rest of the contents after consuming part of
      them, whatever they are, exactly when it does not wrap. */
  lemma ConsumeExact(length: nat, offset: nat, size: nat, len: nat)
    requires offset < 0x1_0000 && size <= CAP_LIMIT && len < size && offset + size <= length
    ensures (forall store: seq<byte> :: |store| == length ==>
               Shown(store, Wrap16(offset + len), size - len) == Shown(store, offset, size)[len..])
            <==> offset + len < 0x1_0000
  {
    if offset + len < 0x1_0000 {
      forall store: seq<byte> | |store| == length
        ensures Shown(store, Wrap16(offset + len), size - len) == Shown(store, offset, size)[len..]
      {}
    } else {
      var store: seq<byte> := seq(length, i => if i == offset + len then 1 else 0);
      assert Shown(store, offset, size)[len..][0] == 1;
      assert Shown(store, Wrap16(offset + len), size - len)[0] == 0;
    }
  }
}
