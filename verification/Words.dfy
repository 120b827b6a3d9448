/** Machine words as integers in range: shifts, bitwise operations and single
    bits, with the laws that tie them to arithmetic. */
module Words {

  type byte = x: int | 0 <= x < 256

  const B31: int := 0x8000_0000
  const B32: int := 0x1_0000_0000
  const B63: int := 0x8000_0000_0000_0000
  const B64: int := 0x1_0000_0000_0000_0000

  /** `v << n` on unbounded words. */
  function Shl(v: nat, n: nat): nat {
    if n == 0 then v else 2 * Shl(v, n - 1)
  }

  function Pow2(n: nat): nat { Shl(1, n) }

  lemma {:induction false} ShlAdd(a: nat, b: nat, n: nat)
    ensures Shl(a + b, n) == Shl(a, n) + Shl(b, n)
  {
    if n > 0 { ShlAdd(a, b, n - 1); }
  }

  lemma {:induction false} ShlShl(v: nat, a: nat, b: nat)
    ensures Shl(Shl(v, a), b) == Shl(v, a + b)
  {
    if b > 0 { ShlShl(v, a, b - 1); }
  }

  lemma ShlMono(a: nat, b: nat, n: nat)
    requires a <= b
    ensures Shl(a, n) <= Shl(b, n)
  {
    ShlAdd(a, b - a, n);
  }

  lemma {:induction false} ShlGrows(v: nat, a: nat, b: nat)
    requires a <= b
    ensures Shl(v, a) <= Shl(v, b)
  {
    if a < b { ShlGrows(v, a, b - 1); }
  }

  lemma {:induction false} ShlLt(v: nat, w: nat, n: nat)
    requires v < w
    ensures Shl(v, n) < Shl(w, n)
  {
    if n > 0 { ShlLt(v, w, n - 1); }
  }

  lemma ShlTwice(v: nat, n: nat)
    ensures Shl(v, n + 2) == 4 * Shl(v, n)
  {
    assert Shl(v, n + 1) == 2 * Shl(v, n);
  }

  lemma Shl7(v: nat)
    ensures Shl(v, 7) == 128 * v
  {
    ShlTwice(v, 0);
    ShlTwice(v, 2);
    ShlTwice(v, 4);
    assert Shl(v, 7) == 2 * Shl(v, 6);
  }

  /** The low seven bits and the rest of a shifted word. */
  lemma ShlSplit(v: nat, n: nat)
    ensures Shl(v, n) == Shl(v % 128, n) + Shl(v / 128, n + 7)
  {
    Shl7(v / 128);
    ShlShl(v / 128, 7, n);
    ShlAdd(v % 128, 128 * (v / 128), n);
  }

  /** Seven bits of a power of two. */
  lemma Pow7(n: nat)
    requires n >= 7
    ensures Pow2(n) == 128 * Pow2(n - 7)
  {
    ShlShl(1, n - 7, 7);
    Shl7(Pow2(n - 7));
  }

  lemma PowConsts()
    ensures Pow2(7) == 128 && Pow2(28) == 0x1000_0000 && Pow2(32) == B32
    ensures Pow2(63) == B63 && Pow2(64) == B64
  {
    Pow7(7); Pow7(14); Pow7(21); Pow7(28);
    ShlTwice(1, 28); ShlTwice(1, 30);
    Pow7(35); Pow7(42); Pow7(49); Pow7(56); Pow7(63);
  }

  /** Bitwise OR of two unsigned words. */
  function BitOr(a: nat, b: nat): nat {
    if a == 0 then b
    else if b == 0 then a
    else (if a % 2 == 1 || b % 2 == 1 then 1 else 0) + 2 * BitOr(a / 2, b / 2)
  }

  /** OR is addition when the second operand starts above the bits of the first. */
  lemma {:induction false} BitOrDisjoint(a: nat, k: nat, n: nat)
    requires a < Pow2(n)
    ensures BitOr(a, Shl(k, n)) == a + Shl(k, n)
  {
    if n > 0 && a > 0 && Shl(k, n) > 0 {
      BitOrDisjoint(a / 2, k, n - 1);
    }
  }

  /** Bit `k` of `w`. */
  predicate Bit(w: nat, k: nat) {
    if k == 0 then w % 2 == 1 else Bit(w / 2, k - 1)
  }

  lemma {:induction false} BitZero(k: nat)
    ensures !Bit(0, k)
  {
    if k > 0 { BitZero(k - 1); }
  }

  lemma {:induction false} BitOrBit(a: nat, b: nat, k: nat)
    ensures Bit(BitOr(a, b), k) <==> Bit(a, k) || Bit(b, k)
  {
    BitZero(k);
    if a != 0 && b != 0 && k > 0 { BitOrBit(a / 2, b / 2, k - 1); }
  }

  lemma {:induction false} BitOfOne(i: nat, k: nat)
    ensures Bit(Shl(1, i), k) <==> k == i
  {
    if i == 0 {
      if k > 0 { BitZero(k - 1); }
    } else if k > 0 {
      BitOfOne(i - 1, k - 1);
    }
  }

  lemma {:induction false} BitOrBound(a: nat, b: nat, n: nat)
    requires a < Pow2(n) && b < Pow2(n)
    ensures BitOr(a, b) < Pow2(n)
  {
    if n > 0 && a != 0 && b != 0 { BitOrBound(a / 2, b / 2, n - 1); }
  }

  /** `v >> n`. */
  function Shr(v: nat, n: nat): nat {
    if n == 0 then v else Shr(v / 2, n - 1)
  }

  /** The word with the `n` lowest bits set. */
  function Ones(n: nat): nat {
    if n == 0 then 0 else 2 * Ones(n - 1) + 1
  }

  /** All ones, shifted down. */
  lemma {:induction false} LowOnes(n: nat, w: nat)
    requires n <= w
    ensures Shr(Ones(w), w - n) == Ones(n)
  {
    if n < w { LowOnes(n, w - 1); }
  }

  lemma {:induction false} OnesSet(n: nat, k: nat)
    requires k < n
    ensures Bit(Ones(n), k)
  {
    if k > 0 { OnesSet(n - 1, k - 1); }
  }

  lemma {:induction false} OnesBelow(n: nat)
    ensures Ones(n) + 1 == Pow2(n)
  {
    if n > 0 { OnesBelow(n - 1); }
  }

  ghost predicate AllSet(v: nat, n: nat) {
    forall k :: 0 <= k < n ==> Bit(v, k)
  }

  /** A word with no bit from `n` on is Ones(n) once each bit below is set. */
  lemma {:induction false} AllSetOnes(v: nat, n: nat)
    requires v < Pow2(n) && AllSet(v, n)
    ensures v == Ones(n)
  {
    if n > 0 {
      assert Bit(v, 0);
      forall k | 0 <= k < n - 1 ensures Bit(v / 2, k) { assert Bit(v, k + 1); }
      AllSetOnes(v / 2, n - 1);
    }
  }

  /** A word with no bit from `n` on is all ones below `n` exactly when each of
      those bits is set. */
  lemma OnesIffAllSet(v: nat, n: nat)
    requires v < Pow2(n)
    ensures v == Ones(n) <==> AllSet(v, n)
  {
    if v == Ones(n) {
      forall k | 0 <= k < n ensures Bit(v, k) { OnesSet(n, k); }
    }
    if AllSet(v, n) { AllSetOnes(v, n); }
  }

  /** No bit from `n` on. */
  lemma {:induction false} BoundedByBits(v: nat, n: nat, w: nat)
    requires n <= w && v < Pow2(w) && forall k :: n <= k < w ==> !Bit(v, k)
    ensures v < Pow2(n)
    decreases w
  {
    if n == w {
    } else if n == 0 {
      assert !Bit(v, 0);
      forall k | 0 <= k < w - 1 ensures !Bit(v / 2, k) { assert !Bit(v, k + 1); }
      BoundedByBits(v / 2, 0, w - 1);
    } else {
      forall k | n - 1 <= k < w - 1 ensures !Bit(v / 2, k) { assert !Bit(v, k + 1); }
      BoundedByBits(v / 2, n - 1, w - 1);
    }
  }

  /** `a & ~b`. */
  function AndNot(a: nat, b: nat): nat {
    if a == 0 then 0
    else (if a % 2 == 1 && b % 2 == 0 then 1 else 0) + 2 * AndNot(a / 2, b / 2)
  }

  lemma {:induction false} AndNotBit(a: nat, b: nat, k: nat)
    ensures Bit(AndNot(a, b), k) <==> Bit(a, k) && !Bit(b, k)
  {
    if a == 0 { BitZero(k); } else if k > 0 { AndNotBit(a / 2, b / 2, k - 1); }
  }

  lemma {:induction false} OnesBit(n: nat, k: nat)
    ensures Bit(Ones(n), k) <==> k < n
  {
    if n == 0 { BitZero(k); } else if k > 0 { OnesBit(n - 1, k - 1); }
  }

  lemma {:induction false} AndNotBound(a: nat, b: nat, n: nat)
    requires a < Pow2(n)
    ensures AndNot(a, b) < Pow2(n)
  {
    if n > 0 && a != 0 { AndNotBound(a / 2, b / 2, n - 1); }
  }

  lemma {:induction false} ShlBit(v: nat, s: nat, k: nat)
    ensures Bit(Shl(v, s), k) <==> k >= s && Bit(v, k - s)
  {
    if s > 0 && k > 0 { ShlBit(v, s - 1, k - 1); }
  }

  /** `v` cut off to `n` bits. */
  function Low(v: nat, n: nat): nat {
    if n == 0 then 0 else v % 2 + 2 * Low(v / 2, n - 1)
  }

  lemma {:induction false} LowBit(v: nat, n: nat, k: nat)
    ensures Bit(Low(v, n), k) <==> k < n && Bit(v, k)
  {
    if n == 0 { BitZero(k); } else if k > 0 { LowBit(v / 2, n - 1, k - 1); }
  }
}
