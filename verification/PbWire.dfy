/** The Protocol Buffers wire format: base-128 varints, zigzag, little-endian
    fixed-width integers, keys and skipping, as functions on byte sequences.
    Bytes and machine words are integers in range; the masks and shifts of the
    C code are written as the divisions and remainders they compute, and the
    bitwise OR that accumulates a varint is `BitOr`. */
module PbWire {

  import opened Words

  /** What a parser makes of the front of a byte sequence. */
  datatype Parse<+T> = Fail | Ok(value: T, rest: seq<byte>)

  /** `rest` is what remains of `bs` after at least one byte was taken. */
  ghost predicate Tail(bs: seq<byte>, rest: seq<byte>) {
    |rest| < |bs| && rest == bs[|bs| - |rest|..]
  }

  /** Like Tail, but a parser that takes nothing is allowed. */
  ghost predicate Suffix(bs: seq<byte>, rest: seq<byte>) {
    |rest| <= |bs| && rest == bs[|bs| - |rest|..]
  }

  lemma SuffixTrans(a: seq<byte>, b: seq<byte>, c: seq<byte>)
    requires Suffix(a, b) && Suffix(b, c)
    ensures Suffix(a, c)
  {
    assert b[|b| - |c|..] == a[|a| - |c|..];
  }

  // ---------------------------------------------------------------- varints

  /** pb_encode_varint: seven bits a byte, least significant first. */
  function Varint(v: nat): (bs: seq<byte>)
    ensures |bs| >= 1
  {
    if v < 128 then [v] else [v % 128 + 128] + Varint(v / 128)
  }

  /** pb_decode_varint, from the byte that lands at bit `bitpos`. */
  function DecVarintAt(bs: seq<byte>, bitpos: nat, result: nat): (r: Parse<nat>)
    ensures r.Ok? ==> Tail(bs, r.rest)
    decreases |bs|
  {
    if bitpos >= 64 || bs == [] then Fail
    else
      var b := bs[0];
      var result' := BitOr(result, Shl(b % 128, bitpos) % B64);
      if b < 128 then Ok(result', bs[1..]) else DecVarintAt(bs[1..], bitpos + 7, result')
  }

  function DecVarint(bs: seq<byte>): (r: Parse<nat>)
    ensures r.Ok? ==> Tail(bs, r.rest)
  {
    DecVarintAt(bs, 0, 0)
  }

  /** The multibyte loop of pb_decode_varint32_eof. From bit 32 on a byte may
      only repeat the sign, or be empty. `bitpos` is an 8-bit counter and wraps. */
  function DecVarint32At(bs: seq<byte>, bitpos: nat, result: nat): (r: Parse<nat>)
    requires bitpos < 256
    ensures r.Ok? ==> Tail(bs, r.rest)
    decreases |bs|
  {
    if bs == [] then Fail
    else
      var b := bs[0];
      if bitpos < 32 then
        var result' := BitOr(result, Shl(b % 128, bitpos) % B32);
        if b >= 128 then DecVarint32At(bs[1..], bitpos + 7, result')
        else if bitpos == 28 && b >= 16 then Fail
        else Ok(result', bs[1..])
      else
        var signExtension := if bitpos < 63 then 0xFF else 0x01;
        if b % 128 != 0 && (result < B31 || b != signExtension) then Fail
        else if b >= 128 then DecVarint32At(bs[1..], (bitpos + 7) % 256, result)
        else Ok(result, bs[1..])
  }

  function DecVarint32(bs: seq<byte>): (r: Parse<nat>)
    ensures r.Ok? ==> Tail(bs, r.rest)
  {
    if bs == [] then Fail
    else if bs[0] < 128 then Ok(bs[0], bs[1..])
    else DecVarint32At(bs[1..], 7, bs[0] % 128)
  }

  lemma {:induction false} VarintLen(v: nat, k: nat)
    requires v < Pow2(7 * k) && k >= 1
    ensures |Varint(v)| <= k
  {
    if v >= 128 {
      Shl7(1);
      Shl7(Pow2(7 * (k - 1)));
      ShlShl(1, 7 * (k - 1), 7);
      VarintLen(v / 128, k - 1);
    }
  }

  lemma VarintStep(v: nat, rest: seq<byte>)
    requires v >= 128
    ensures Varint(v) + rest == [v % 128 + 128] + (Varint(v / 128) + rest)
    ensures (Varint(v) + rest)[0] == v % 128 + 128
    ensures (Varint(v) + rest)[1..] == Varint(v / 128) + rest
  {
    assert Varint(v) + rest == [v % 128 + 128] + (Varint(v / 128) + rest);
  }

  lemma ModSmall(x: nat, w: nat)
    requires x < w
    ensures x % w == x
  {}

  /** One round of the accumulating loop, for a word with values below `w`. */
  lemma OrStep(v: nat, bitpos: nat, result: nat, w: nat)
    requires result < Pow2(bitpos) && Shl(v, bitpos) < w
    ensures BitOr(result, Shl(v % 128, bitpos) % w) == result + Shl(v % 128, bitpos)
    ensures result + Shl(v % 128, bitpos) < Pow2(bitpos + 7)
    ensures Shl(v, bitpos) == Shl(v % 128, bitpos) + Shl(v / 128, bitpos + 7)
    ensures Shl(v / 128, bitpos + 7) < w
  {
    ShlSplit(v, bitpos);
    ModSmall(Shl(v % 128, bitpos), w);
    BitOrDisjoint(result, v % 128, bitpos);
    ShlMono(v % 128, 127, bitpos);
    Shl7(1);
    ShlShl(1, 7, bitpos);
    ShlAdd(127, 1, bitpos);
  }

  /** One byte of the 64-bit reader. */
  lemma DecVarintStep(b: byte, tail: seq<byte>, bitpos: nat, result: nat)
    requires bitpos < 64
    requires BitOr(result, Shl(b % 128, bitpos) % B64) == result + Shl(b % 128, bitpos)
    ensures DecVarintAt([b] + tail, bitpos, result) ==
            if b >= 128 then DecVarintAt(tail, bitpos + 7, result + Shl(b % 128, bitpos))
            else Ok(result + Shl(b % 128, bitpos), tail)
  {
    hide BitOr, Shl;
    assert ([b] + tail)[1..] == tail;
  }

  lemma DecVarintMore(v: nat, bitpos: nat, result: nat, rest: seq<byte>)
    requires bitpos < 64 && result < Pow2(bitpos) && Shl(v, bitpos) < B64
    ensures v >= 128 ==>
      && result + Shl(v % 128, bitpos) < Pow2(bitpos + 7)
      && Shl(v, bitpos) == Shl(v % 128, bitpos) + Shl(v / 128, bitpos + 7)
    ensures DecVarintAt(Varint(v) + rest, bitpos, result) ==
            if v >= 128 then DecVarintAt(Varint(v / 128) + rest, bitpos + 7, result + Shl(v % 128, bitpos))
            else Ok(result + Shl(v, bitpos), rest)
  {
    hide DecVarintAt, BitOr;
    OrStep(v, bitpos, result, B64);
    if v >= 128 {
      VarintStep(v, rest);
      DecVarintStep(v % 128 + 128, Varint(v / 128) + rest, bitpos, result);
    } else {
      DecVarintStep(v, rest, bitpos, result);
    }
  }

  lemma Below64(v: nat, bitpos: nat)
    requires v >= 1 && Shl(v, bitpos) < B64
    ensures bitpos < 64
  {
    if bitpos >= 64 {
      PowConsts();
      ShlGrows(1, 64, bitpos);
      ShlMono(1, v, bitpos);
    }
  }

  lemma {:induction false} DecVarintAtInverts(v: nat, bitpos: nat, result: nat, rest: seq<byte>)
    requires result < Pow2(bitpos) && Shl(v, bitpos) < B64
    requires v >= 1 || bitpos == 0
    ensures DecVarintAt(Varint(v) + rest, bitpos, result) == Ok(result + Shl(v, bitpos), rest)
    decreases v
  {
    hide DecVarintAt, BitOr, Varint;
    if bitpos > 0 { Below64(v, bitpos); }
    DecVarintMore(v, bitpos, result, rest);
    if v >= 128 {
      DecVarintAtInverts(v / 128, bitpos + 7, result + Shl(v % 128, bitpos), rest);
    }
  }

  /** Every 64-bit value takes at most ten bytes and is read back. */
  lemma VarintRoundTrip(v: nat, rest: seq<byte>)
    requires v < B64
    ensures |Varint(v)| <= 10
    ensures DecVarint(Varint(v) + rest) == Ok(v, rest)
  {
    DecVarintAtInverts(v, 0, 0, rest);
    PowConsts();
    ShlGrows(1, 64, 70);
    VarintLen(v, 10);
  }

  /** Only four bits are left at bit 28. */
  lemma NibbleAt28(v: nat)
    requires Shl(v, 28) < B32
    ensures v < 16
  {
    if v >= 16 {
      PowConsts();
      ShlTwice(1, 0); ShlTwice(1, 2);
      ShlShl(1, 4, 28);
      ShlMono(16, v, 28);
    }
  }

  /** One byte of the 32-bit reader below bit 32. */
  lemma DecVarint32Step(b: byte, tail: seq<byte>, bitpos: nat, result: nat)
    requires bitpos < 32
    requires BitOr(result, Shl(b % 128, bitpos) % B32) == result + Shl(b % 128, bitpos)
    ensures DecVarint32At([b] + tail, bitpos, result) ==
            if b >= 128 then DecVarint32At(tail, bitpos + 7, result + Shl(b % 128, bitpos))
            else if bitpos == 28 && b >= 16 then Fail
            else Ok(result + Shl(b % 128, bitpos), tail)
  {
    hide BitOr, Shl;
    assert ([b] + tail)[1..] == tail;
  }

  lemma DecVarint32Continue(v: nat, low: nat, bitpos: nat, result: nat, rest: seq<byte>)
    requires v >= 128 && v % 128 == low && bitpos < 32
    requires BitOr(result, Shl(low, bitpos) % B32) == result + Shl(low, bitpos)
    ensures DecVarint32At(Varint(v) + rest, bitpos, result)
            == DecVarint32At(Varint(v / 128) + rest, bitpos + 7, result + Shl(low, bitpos))
  {
    hide BitOr, Shl, Varint;
    VarintStep(v, rest);
    DecVarint32Step(low + 128, Varint(v / 128) + rest, bitpos, result);
  }

  lemma DecVarint32Last(v: nat, bitpos: nat, result: nat, rest: seq<byte>)
    requires v < 128 && bitpos < 32 && (bitpos == 28 ==> v < 16)
    requires result < Pow2(bitpos) && Shl(v, bitpos) < B32
    ensures DecVarint32At(Varint(v) + rest, bitpos, result) == Ok(result + Shl(v, bitpos), rest)
  {
    OrStep(v, bitpos, result, B32);
    DecVarint32Step(v, rest, bitpos, result);
  }

  lemma DecVarint32More(v: nat, bitpos: nat, result: nat, rest: seq<byte>)
    requires v >= 128 && bitpos < 32 && result < Pow2(bitpos) && Shl(v, bitpos) < B32
    ensures Shl(v, bitpos) == Shl(v % 128, bitpos) + Shl(v / 128, bitpos + 7)
    ensures result + Shl(v % 128, bitpos) < Pow2(bitpos + 7)
    ensures DecVarint32At(Varint(v) + rest, bitpos, result)
            == DecVarint32At(Varint(v / 128) + rest, bitpos + 7, result + Shl(v % 128, bitpos))
  {
    hide DecVarint32At, BitOr, Varint;
    OrStep(v, bitpos, result, B32);
    DecVarint32Continue(v, v % 128, bitpos, result, rest);
  }

  /** Values that fit: the multibyte loop of the 32-bit reader, at its byte `k`,
      accumulates them. */
  lemma {:induction false} DecVarint32Fits(v: nat, k: nat, result: nat, rest: seq<byte>)
    requires k <= 4 && result < Pow2(7 * k)
    requires v >= 1 && Shl(v, 7 * k) < B32
    ensures DecVarint32At(Varint(v) + rest, 7 * k, result) == Ok(result + Shl(v, 7 * k), rest)
    decreases 4 - k
  {
    hide DecVarint32At, BitOr, Varint;
    if k == 4 { NibbleAt28(v); }
    if v < 128 {
      DecVarint32Last(v, 7 * k, result, rest);
    } else {
      DecVarint32More(v, 7 * k, result, rest);
      DecVarint32Fits(v / 128, k + 1, result + Shl(v % 128, 7 * k), rest);
    }
  }

  /** Above bit 32 the 32-bit reader refuses any canonical positive value. */
  lemma {:induction false} DecVarint32High(v: nat, bitpos: nat, result: nat, rest: seq<byte>)
    requires 32 <= bitpos <= 63 && bitpos % 7 == 0
    requires 1 <= v < Pow2(63 - bitpos)
    ensures DecVarint32At(Varint(v) + rest, bitpos, result).Fail?
    decreases v
  {
    if v < 128 {
      assert (Varint(v) + rest)[0] == v;
    } else {
      VarintStep(v, rest);
      if bitpos < 63 { Pow7(63 - bitpos); }
      DecVarint32High(v / 128, bitpos + 7, result, rest);
    }
  }

  /** The last byte of a value that does not fit. */
  lemma DecVarint32ExceedsLast(v: nat, k: nat, result: nat, rest: seq<byte>)
    requires k <= 4 && Pow2(32 - 7 * k) <= v < 128
    ensures DecVarint32At(Varint(v) + rest, 7 * k, result).Fail?
  {
    Shl7(1);
    if k < 4 { ShlGrows(1, 7, 32 - 7 * k); }
    ShlTwice(1, 0); ShlTwice(1, 2);
    assert (Varint(v) + rest)[0] == v;
  }

  /** Values that do not fit are refused at the fifth byte or later. */
  lemma {:induction false} DecVarint32Exceeds(v: nat, k: nat, result: nat, rest: seq<byte>)
    requires k <= 4 && Pow2(32 - 7 * k) <= v < Pow2(63 - 7 * k)
    ensures DecVarint32At(Varint(v) + rest, 7 * k, result).Fail?
    decreases v
  {
    hide DecVarint32At, Varint, BitOr;
    if v < 128 {
      DecVarint32ExceedsLast(v, k, result, rest);
    } else {
      VarintStep(v, rest);
      DecVarint32Byte(v % 128 + 128, Varint(v / 128) + rest, 7 * k, result);
      Pow7(63 - 7 * k);
      var result' := BitOr(result, Shl(v % 128, 7 * k) % B32);
      if k < 4 {
        Pow7(32 - 7 * k);
        DecVarint32Exceeds(v / 128, k + 1, result', rest);
      } else {
        DecVarint32High(v / 128, 35, result', rest);
      }
    }
  }

  lemma DecVarint32Cons(v: nat, rest: seq<byte>)
    requires v >= 128
    ensures DecVarint32(Varint(v) + rest) == DecVarint32At(Varint(v / 128) + rest, 7, v % 128)
  {
    VarintStep(v, rest);
  }

  lemma Multibyte32(v: nat, rest: seq<byte>)
    requires 128 <= v < B63
    ensures DecVarint32At(Varint(v / 128) + rest, 7, v % 128) == if v < B32 then Ok(v, rest) else Fail
  {
    Shl7(v / 128);
    Shl7(1);
    if v < B32 {
      DecVarint32Fits(v / 128, 1, v % 128, rest);
    } else {
      PowConsts(); Pow7(32); Pow7(63);
      DecVarint32Exceeds(v / 128, 1, v % 128, rest);
    }
  }

  /** The 32-bit reader accepts the encoding of a value below 2^63 exactly when
      it fits in 32 bits. */
  lemma Varint32Exact(v: nat, rest: seq<byte>)
    requires v < B63
    ensures DecVarint32(Varint(v) + rest) == if v < B32 then Ok(v, rest) else Fail
  {
    if v < 128 {
      assert (Varint(v) + rest)[0] == v && (Varint(v) + rest)[1..] == rest;
    } else {
      DecVarint32Cons(v, rest);
      Multibyte32(v, rest);
    }
  }

  /** From the sixth byte on only the sign is repeated. */
  lemma SignTail(s: nat, rest: seq<byte>)
    requires s >= B31
    ensures DecVarint32At(Varint(0x1FFF_FFFF) + rest, 35, s) == Ok(s, rest)
  {
    VarintStep(0x1FFF_FFFF, rest);
    VarintStep(0x3F_FFFF, rest);
    VarintStep(0x7FFF, rest);
    VarintStep(0xFF, rest);
    var bs := Varint(1) + rest;
    assert bs[0] == 1 && bs[1..] == rest;
    assert DecVarint32At(bs, 63, s) == Ok(s, rest);
    assert DecVarint32At(Varint(0xFF) + rest, 56, s) == Ok(s, rest);
    assert DecVarint32At(Varint(0x7FFF) + rest, 49, s) == Ok(s, rest);
  }

  lemma {:induction false} ShlMul(a: nat, b: nat, n: nat)
    ensures Shl(a * b, n) == a * Shl(b, n)
  {
    if n > 0 { ShlMul(a, b, n - 1); }
  }

  lemma TopNibble(t: nat)
    requires 8 <= t < 16
    ensures Shl(112 + t, 28) % B32 == Shl(t, 28) && B31 <= Shl(t, 28) < B32
  {
    PowConsts();
    ShlTwice(1, 0); ShlTwice(1, 2); ShlShl(1, 4, 28);
    ShlMul(7, 16, 28);
    ShlMul(2, 8, 28);
    ShlAdd(112, t, 28);
    ShlLt(t, 16, 28);
    ShlMono(8, t, 28);
  }

  lemma DecVarint32Byte(b: byte, tail: seq<byte>, bitpos: nat, result: nat)
    requires bitpos < 32 && b >= 128
    ensures DecVarint32At([b] + tail, bitpos, result) ==
            DecVarint32At(tail, bitpos + 7, BitOr(result, Shl(b % 128, bitpos) % B32))
  {
    assert ([b] + tail)[1..] == tail;
  }

  /** The fifth byte of a negative value holds four payload bits and three of the sign. */
  lemma SignFifth(t: nat, result: nat, rest: seq<byte>)
    requires 8 <= t < 16 && result < Pow2(28)
    ensures DecVarint32At(Varint(0xF_FFFF_FFF0 + t) + rest, 28, result) == Ok(result + Shl(t, 28), rest)
  {
    hide DecVarint32At, BitOr, Varint;
    SignFifthByte(t, result, Varint(0x1FFF_FFFF) + rest);
    TopNibble(t);
    SignTail(result + Shl(t, 28), rest);
    VarintStep(0xF_FFFF_FFF0 + t, rest);
  }

  lemma SignFifthByte(t: nat, result: nat, tail: seq<byte>)
    requires 8 <= t < 16 && result < Pow2(28)
    ensures DecVarint32At([240 + t] + tail, 28, result) == DecVarint32At(tail, 35, result + Shl(t, 28))
  {
    hide DecVarint32At, BitOr, Varint;
    TopNibble(t);
    BitOrDisjoint(result, t, 28);
    DecVarint32Byte(240 + t, tail, 28, result);
  }

  /** Ten-byte encodings of negative 32-bit values: at bit `bitpos`, `t` is
      what is left of the low 32 bits and `v` of the sign-extended value. */
  lemma {:induction false} DecVarint32Negative(v: nat, t: nat, bitpos: nat, result: nat, rest: seq<byte>)
    requires bitpos <= 28 && bitpos % 7 == 0 && result < Pow2(bitpos)
    requires Pow2(31 - bitpos) <= t < Pow2(32 - bitpos)
    requires v + Pow2(32 - bitpos) == Pow2(64 - bitpos) + t
    ensures DecVarint32At(Varint(v) + rest, bitpos, result) == Ok(result + Shl(t, bitpos), rest)
    decreases 28 - bitpos
  {
    hide DecVarint32At, Varint, BitOr;
    if bitpos < 28 {
      NegativeStep(v, t, bitpos);
      OrStep(t, bitpos, result, B32);
      DecVarint32Continue(v, t % 128, bitpos, result, rest);
      DecVarint32Negative(v / 128, t / 128, bitpos + 7, result + Shl(t % 128, bitpos), rest);
    } else {
      Last28(v, t);
      SignFifth(t, result, rest);
    }
  }

  lemma NegativeStep(v: nat, t: nat, bitpos: nat)
    requires bitpos <= 21
    requires Pow2(31 - bitpos) <= t < Pow2(32 - bitpos)
    requires v + Pow2(32 - bitpos) == Pow2(64 - bitpos) + t
    ensures Shl(t, bitpos) < B32 && v >= 128
    ensures v % 128 == t % 128 && v / 128 + Pow2(25 - bitpos) == Pow2(57 - bitpos) + t / 128
    ensures Pow2(24 - bitpos) <= t / 128 < Pow2(25 - bitpos)
  {
    FitsBelow(t, bitpos);
    Pow7(64 - bitpos); Pow7(32 - bitpos); Pow7(31 - bitpos);
    ShlGrows(1, 25 - bitpos, 57 - bitpos);
    ShlGrows(1, 0, 24 - bitpos);
    SevenBits(v, t, Pow2(57 - bitpos), Pow2(25 - bitpos), Pow2(24 - bitpos));
  }

  lemma FitsBelow(t: nat, bitpos: nat)
    requires bitpos <= 32 && t < Pow2(32 - bitpos)
    ensures Shl(t, bitpos) < B32
  {
    ShlShl(1, 32 - bitpos, bitpos);
    PowConsts();
    ShlLt(t, Pow2(32 - bitpos), bitpos);
  }

  lemma SevenBits(v: nat, t: nat, a: nat, b: nat, c: nat)
    requires v + 128 * b == 128 * a + t && 128 * c <= t < 128 * b && a >= b && c >= 1
    ensures v >= 128 && v % 128 == t % 128 && v / 128 + b == a + t / 128 && c <= t / 128 < b
  {
    var q, r := t / 128, t % 128;
    assert v == 128 * (a - b + q) + r;
  }

  lemma Last28(v: nat, t: nat)
    requires Pow2(3) <= t < Pow2(4) && v + Pow2(4) == Pow2(36) + t
    ensures 8 <= t < 16 && v == 0xF_FFFF_FFF0 + t
  {
    ShlTwice(1, 0); ShlTwice(1, 2); Pow7(36); Pow7(29); Pow7(22); Pow7(15); Pow7(8);
  }

  /** Sign-extended negative 32-bit values are accepted and give their low 32 bits. */
  lemma Varint32Negative(s: nat, rest: seq<byte>)
    requires B31 <= s < B32
    ensures DecVarint32(Varint(B64 - B32 + s) + rest) == Ok(s, rest)
  {
    var v := B64 - B32 + s;
    DecVarint32Cons(v, rest);
    PowConsts();
    NegativeStep(v, s, 0);
    Shl7(1);
    Shl7(s / 128);
    DecVarint32Negative(v / 128, s / 128, 7, s % 128, rest);
  }
}
