/** The 64-bit set of required fields in two 32-bit words, as pb_decode_noinit
    keeps and tests it. */
module PbBits {
  import opened Words

// ------------------------------------------------- sixty-four bits in two words

  const WORD: nat := 32

  ghost predicate WordPair(w: seq<nat>) {
    |w| == 2 && w[0] < Pow2(WORD) && w[1] < Pow2(WORD)
  }

  function Members(w: seq<nat>, n: nat): (r: set<nat>)
    requires |w| == 2 && n <= 2 * WORD
    ensures forall i: nat :: i in r <==> i < n && Bit(w[i / WORD], i % WORD)
  {
    if n == 0 then {}
    else if Bit(w[(n - 1) / WORD], (n - 1) % WORD) then Members(w, n - 1) + {n - 1}
    else Members(w, n - 1)
  }

  lemma SetMember(w: seq<nat>, i: nat)
    requires WordPair(w) && i < 2 * WORD
    ensures var w' := w[i / WORD := BitOr(w[i / WORD], Shl(1, i % WORD))];
            WordPair(w') && Members(w', 2 * WORD) == Members(w, 2 * WORD) + {i}
  {
    var w' := w[i / WORD := BitOr(w[i / WORD], Shl(1, i % WORD))];
    ShlGrows(1, i % WORD, WORD - 1);
    ShlGrows(1, 0, WORD - 1);
    BitOrBound(w[i / WORD], Shl(1, i % WORD), WORD);
    forall j: nat | j < 2 * WORD
      ensures Bit(w'[j / WORD], j % WORD) <==> Bit(w[j / WORD], j % WORD) || j == i
    {
      BitOrBit(w[i / WORD], Shl(1, i % WORD), j % WORD);
      BitOfOne(i % WORD, j % WORD);
    }
  }

  lemma NoMembers()
    ensures Members([0, 0], 2 * WORD) == {} && WordPair([0, 0])
  {
    forall j: nat | j < 2 * WORD ensures !Bit([0, 0][j / WORD], j % WORD) { BitZero(j % WORD); }
    ShlGrows(1, 0, WORD);
  }

  /** The tests of pb_decode_noinit on whole words and on the remaining bits. */
  predicate WordTest(w: seq<nat>, n: nat)
    requires |w| == 2 && n <= 2 * WORD
  {
    && (forall i :: 0 <= i < n / WORD ==> w[i] == Ones(WORD))
    && (n % WORD != 0 ==> w[n / WORD] == Shr(Ones(WORD), WORD - n % WORD))
  }

  ghost predicate Contains(w: seq<nat>, from: nat, to: nat)
    requires |w| == 2 && to <= 2 * WORD
  {
    forall i: nat :: from <= i < to ==> i in Members(w, 2 * WORD)
  }

  lemma WordFull(w: seq<nat>, q: nat, k: nat)
    requires WordPair(w) && q < 2 && k <= WORD && w[q] < Pow2(k)
    ensures w[q] == Ones(k) <==> Contains(w, WORD * q, WORD * q + k)
  {
    OnesIffAllSet(w[q], k);
    if Contains(w, WORD * q, WORD * q + k) {
      forall j | 0 <= j < k ensures Bit(w[q], j) {
        assert WORD * q + j in Members(w, 2 * WORD);
        assert (WORD * q + j) / WORD == q && (WORD * q + j) % WORD == j;
      }
    }
    if AllSet(w[q], k) {
      forall i: nat | WORD * q <= i < WORD * q + k ensures i in Members(w, 2 * WORD) {
        assert i / WORD == q && Bit(w[q], i % WORD);
      }
    }
  }

  /** The word-and-remainder test says "all of the first n are members", when
      there are no members from n on. */
  lemma WordTestExact(w: seq<nat>, n: nat)
    requires WordPair(w) && n <= 2 * WORD
    requires forall i :: i in Members(w, 2 * WORD) ==> i < n
    ensures WordTest(w, n) <==> Contains(w, 0, n)
  {
    hide Ones, Members, Bit;
    forall q: nat | q < n / WORD
      ensures w[q] == Ones(WORD) <==> Contains(w, WORD * q, WORD * q + WORD)
    {
      WordFull(w, q, WORD);
    }
    var q, k := n / WORD, n % WORD;
    if k != 0 {
      LowOnes(k, WORD);
      forall j | k <= j < WORD ensures !Bit(w[q], j) {
        assert (WORD * q + j) / WORD == q && (WORD * q + j) % WORD == j;
        assert WORD * q + j in Members(w, 2 * WORD) <==> Bit(w[q], j);
      }
      BoundedByBits(w[q], k, WORD);
      WordFull(w, q, k);
    }
  }
}
