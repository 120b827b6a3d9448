/** Zigzag coding, little-endian words, field keys, length prefixes and the
    skipping of unknown fields. */
module PbKeys {
  import opened Words
  import opened PbWire

  // ------------------------------------------------------------------ zigzag

  /** pb_encode_svarint's `~((uint64)v << 1)` for negative v, else `v << 1`. */
  function ZigZag(v: int): (z: nat)
    requires -B63 <= v < B63
    ensures z < B64
  {
    var u := if v < 0 then v + B64 else v;
    if v < 0 then B64 - 1 - (2 * u) % B64 else (2 * u) % B64
  }

  /** pb_decode_svarint's `~(z >> 1)` for odd z, else `z >> 1`, as int64. */
  function UnZigZag(z: nat): (v: int)
    ensures z < B64 ==> -B63 <= v < B63
  {
    if z % 2 == 1 then (B64 - 1 - z / 2) - B64 else z / 2
  }

  /** Zigzag is a bijection between the signed and the unsigned 64-bit words. */
  lemma ZigZagBijection(v: int, z: nat)
    requires -B63 <= v < B63 && z < B64
    ensures UnZigZag(ZigZag(v)) == v
    ensures ZigZag(UnZigZag(z)) == z
    ensures ZigZag(v) == if v < 0 then -2 * v - 1 else 2 * v
  {}

  // ------------------------------------------------------- fixed-width words

  /** The `k` low bytes of `v`, least significant first. */
  function Le(v: nat, k: nat): (bs: seq<byte>)
    ensures |bs| == k
  {
    if k == 0 then [] else [v % 256] + Le(v / 256, k - 1)
  }

  function FromLe(bs: seq<byte>): nat {
    if bs == [] then 0 else bs[0] + 256 * FromLe(bs[1..])
  }

  function Pow256(k: nat): (n: nat)
    ensures n > 0
  {
    if k == 0 then 1 else 256 * Pow256(k - 1)
  }

  lemma {:induction false} LeRoundTrip(v: nat, k: nat)
    requires v < Pow256(k)
    ensures FromLe(Le(v, k)) == v
  {
    if k > 0 {
      LeRoundTrip(v / 256, k - 1);
      assert Le(v, k)[1..] == Le(v / 256, k - 1);
    }
  }

  /** Byte `i` of a word is the one that counts 256^i: the low byte goes first. */
  lemma {:induction false} LowByteFirst(v: nat, k: nat, i: nat)
    requires i < k
    ensures Le(v, k)[i] == v / Pow256(i) % 256
    decreases k
  {
    if i > 0 {
      LowByteFirst(v / 256, k - 1, i - 1);
      DivDiv(v, Pow256(i - 1));
    }
  }

  lemma DivDiv(v: nat, m: nat)
    requires m > 0
    ensures v / (256 * m) == v / 256 / m
  {
    var q, r := v / 256 / m, v / 256 % m;
    assert v / 256 == q * m + r;
    assert v == 256 * (q * m + r) + v % 256;
    assert 256 * (q * m) == q * (256 * m);
    DivUnique(v, 256 * m, q, 256 * r + v % 256);
  }

  lemma DivUnique(v: nat, d: nat, q: nat, r: nat)
    requires d > 0 && v == q * d + r && r < d
    ensures v / d == q
  {
    var q', r' := v / d, v % d;
    assert v == q' * d + r';
    assert q' < q ==> (q' + 1) * d <= q * d;
    assert q' > q ==> (q + 1) * d <= q' * d;
  }

  /** And every sequence of bytes is the word that it is read as. */
  lemma {:induction false} LeInverse(bs: seq<byte>)
    ensures Le(FromLe(bs), |bs|) == bs
    decreases |bs|
  {
    if bs != [] {
      LowByte(bs[0], FromLe(bs[1..]));
      LeInverse(bs[1..]);
    }
  }

  lemma LowByte(b: byte, high: nat)
    ensures (b + 256 * high) % 256 == b && (b + 256 * high) / 256 == high
  {}

  lemma Pow256Words()
    ensures Pow256(4) == B32 && Pow256(8) == B64
  {
    assert Pow256(2) == 65536;
    assert Pow256(4) == 65536 * 65536 by { assert Pow256(3) == 256 * 65536; }
    assert Pow256(6) == 65536 * Pow256(4) by { assert Pow256(5) == 256 * Pow256(4); }
    assert Pow256(8) == 65536 * Pow256(6) by { assert Pow256(7) == 256 * Pow256(6); }
  }

  lemma {:induction false} FromLeBound(bs: seq<byte>)
    ensures FromLe(bs) < Pow256(|bs|)
  {
    if bs != [] { FromLeBound(bs[1..]); }
  }

  /** pb_read of `n` bytes. */
  function Take(n: nat, bs: seq<byte>): (r: Parse<seq<byte>>)
    ensures r.Ok? ==> Suffix(bs, r.rest) && |r.value| == n
  {
    if |bs| < n then Fail else Ok(bs[..n], bs[n..])
  }

  /** A varint32 length, then that many bytes: what pb_make_string_substream
      cuts off its parent and pb_skip_string passes over. */
  function DecString(bs: seq<byte>): (r: Parse<seq<byte>>)
    ensures r.Ok? ==> Tail(bs, r.rest) && |r.value| + |r.rest| < |bs|
  {
    match DecVarint32(bs)
    case Fail => Fail
    case Ok(n, rest) =>
      if |rest| < n then Fail
      else
        SuffixTrans(bs, rest, rest[n..]);
        Ok(rest[..n], rest[n..])
  }

  function EncString(payload: seq<byte>): (bs: seq<byte>)
    ensures |bs| > |payload|
  {
    Varint(|payload|) + payload
  }

  // ------------------------------------------------------------ keys, skipping

  const WT_VARINT := 0
  const WT_64BIT := 1
  const WT_STRING := 2
  const WT_32BIT := 5

  /** pb_decode_tag: a key, the zero that ends a message, or an error. */
  datatype Key = BadKey | Terminator(after: seq<byte>) | Key(tag: nat, wt: nat, after: seq<byte>)

  function DecKey(bs: seq<byte>): (k: Key)
    ensures k.Terminator? || k.Key? ==> Tail(bs, k.after)
  {
    match DecVarint32(bs)
    case Fail => BadKey
    case Ok(n, rest) => if n == 0 then Terminator(rest) else Key(n / 8, n % 8, rest)
  }

  function EncKey(tag: nat, wt: nat): (bs: seq<byte>)
    ensures |bs| >= 1
  {
    Varint(tag * 8 + wt)
  }

  function SkipVarint(bs: seq<byte>): (r: Parse<()>)
    ensures r.Ok? ==> Tail(bs, r.rest)
  {
    if bs == [] then Fail
    else if bs[0] < 128 then Ok((), bs[1..])
    else SkipVarint(bs[1..])
  }

  function Skip(wt: nat, bs: seq<byte>): (r: Parse<()>)
    ensures r.Ok? ==> Suffix(bs, r.rest)
  {
    if wt == WT_VARINT then SkipVarint(bs)
    else if wt == WT_64BIT then Void(Take(8, bs))
    else if wt == WT_STRING then Void(DecString(bs))
    else if wt == WT_32BIT then Void(Take(4, bs))
    else Fail
  }

  function Void<T>(r: Parse<T>): Parse<()> {
    match r case Fail => Fail case Ok(_, rest) => Ok((), rest)
  }

  // ------------------------------- what a writer wrote, the reader takes back

  lemma KeyRoundTrip(tag: nat, wt: nat, rest: seq<byte>)
    requires 1 <= tag < 0x2000_0000 && wt < 8
    ensures DecKey(EncKey(tag, wt) + rest) == Key(tag, wt, rest)
  {
    hide DecVarint32, Varint;
    Varint32Exact(tag * 8 + wt, rest);
    assert (tag * 8 + wt) / 8 == tag && (tag * 8 + wt) % 8 == wt;
  }

  /** A length prefix is read back exactly when it fits in 32 bits. */
  lemma StringRoundTrip(payload: seq<byte>, rest: seq<byte>)
    requires |payload| < B63
    ensures DecString(EncString(payload) + rest) ==
            if |payload| < B32 then Ok(payload, rest) else Fail
  {
    Varint32Exact(|payload|, payload + rest);
    assert EncString(payload) + rest == Varint(|payload|) + (payload + rest);
  }

  // -------------------------------- bytes that follow do not change a reading

  lemma {:induction false} DecVarintAtExtends(bs: seq<byte>, bitpos: nat, result: nat, more: seq<byte>)
    requires DecVarintAt(bs, bitpos, result).Ok?
    ensures DecVarintAt(bs + more, bitpos, result) ==
            var r := DecVarintAt(bs, bitpos, result); Ok(r.value, r.rest + more)
    decreases |bs|
  {
    assert (bs + more)[1..] == bs[1..] + more;
    if bs[0] >= 128 {
      DecVarintAtExtends(bs[1..], bitpos + 7, BitOr(result, Shl(bs[0] % 128, bitpos) % B64), more);
    }
  }

  lemma {:induction false} DecVarint32AtExtends(bs: seq<byte>, bitpos: nat, result: nat, more: seq<byte>)
    requires bitpos < 256 && DecVarint32At(bs, bitpos, result).Ok?
    ensures DecVarint32At(bs + more, bitpos, result) ==
            var r := DecVarint32At(bs, bitpos, result); Ok(r.value, r.rest + more)
    decreases |bs|
  {
    assert (bs + more)[1..] == bs[1..] + more;
    if bs[0] >= 128 {
      if bitpos < 32 {
        DecVarint32AtExtends(bs[1..], bitpos + 7, BitOr(result, Shl(bs[0] % 128, bitpos) % B32), more);
      } else {
        DecVarint32AtExtends(bs[1..], (bitpos + 7) % 256, result, more);
      }
    }
  }

  lemma DecVarint32Extends(bs: seq<byte>, more: seq<byte>)
    requires DecVarint32(bs).Ok?
    ensures DecVarint32(bs + more) == var r := DecVarint32(bs); Ok(r.value, r.rest + more)
  {
    assert (bs + more)[1..] == bs[1..] + more;
    if bs[0] >= 128 { DecVarint32AtExtends(bs[1..], 7, bs[0] % 128, more); }
  }

  lemma TakeExtends(n: nat, bs: seq<byte>, more: seq<byte>)
    requires n <= |bs|
    ensures Take(n, bs + more) == Ok(bs[..n], bs[n..] + more)
  {
    assert (bs + more)[..n] == bs[..n];
    assert (bs + more)[n..] == bs[n..] + more;
  }

  lemma DecStringExtends(bs: seq<byte>, more: seq<byte>)
    requires DecString(bs).Ok?
    ensures DecString(bs + more) == var r := DecString(bs); Ok(r.value, r.rest + more)
  {
    DecVarint32Extends(bs, more);
    var r := DecVarint32(bs);
    TakeExtends(r.value, r.rest, more);
  }

  lemma {:induction false} SkipVarintExtends(bs: seq<byte>, more: seq<byte>)
    requires SkipVarint(bs).Ok?
    ensures SkipVarint(bs + more) == Ok((), SkipVarint(bs).rest + more)
  {
    assert (bs + more)[1..] == bs[1..] + more;
    if bs[0] >= 128 { SkipVarintExtends(bs[1..], more); }
  }

  lemma SkipExtends(wt: nat, bs: seq<byte>, more: seq<byte>)
    requires Skip(wt, bs).Ok?
    ensures Skip(wt, bs + more) == Ok((), Skip(wt, bs).rest + more)
  {
    if wt == WT_VARINT {
      SkipVarintExtends(bs, more);
    } else if wt == WT_STRING {
      DecStringExtends(bs, more);
    } else {
      TakeExtends(if wt == WT_64BIT then 8 else 4, bs, more);
    }
  }

  lemma DecKeyExtends(bs: seq<byte>, more: seq<byte>)
    requires DecKey(bs).Key?
    ensures DecKey(bs + more) == var k := DecKey(bs); Key(k.tag, k.wt, k.after + more)
  {
    DecVarint32Extends(bs, more);
  }
}
