/** Canonical Huffman codes as section 3.2.2 of RFC 1951 defines them, and the bit arithmetic around them.
    A bit stream is a natural number, first bit lowest; behind its last byte it reads as zeros.  Codes of one length
    are consecutive in the order of their symbols, and the first code of a length follows from the number of
    shorter ones.  Since codes are packed most significant bit first into a stream that is read from its low end,
    a stream starts with a code when the reversal of its first bits is that code; this is the only definition
    of decoding that the decoder of the source is measured against.  The lemmas about reversal say how it acts on
    prefixes, on single bits at either end, and on itself, and that only the lowest bits of a number matter to it.
    They are used both for the tables and for the comparison of left-aligned codes. */
module HuffmanCodes {
  import opened Division
  import opened Powers

  const MAX_LEN: nat := 15

  /** A code-length vector: 0 for a symbol that is not used. */
  ghost predicate Lengths(lens: seq<nat>)
  {
    |lens| <= 288 && forall i | 0 <= i < |lens| :: lens[i] <= MAX_LEN
  }

  /** How many of the first `n` symbols have code length `s`. */
  function CountBefore(lens: seq<nat>, s: nat, n: nat): (c: nat)
    requires n <= |lens|
    ensures c <= n
  {
    if n == 0 then 0 else CountBefore(lens, s, n - 1) + (if lens[n - 1] == s then 1 else 0)
  }

  function Count(lens: seq<nat>, s: nat): nat
  {
    CountBefore(lens, s, |lens|)
  }

  /** The smallest code of length `s`: codes of one length are consecutive, and shorter codes come first. */
  function Base(lens: seq<nat>, s: nat): nat
  {
    if s <= 1 then 0 else 2 * (Base(lens, s - 1) + Count(lens, s - 1))
  }

  /** The number of symbols with codes shorter than `s`. */
  function FirstSymbol(lens: seq<nat>, s: nat): nat
  {
    if s <= 1 then 0 else FirstSymbol(lens, s - 1) + Count(lens, s - 1)
  }

  function Code(lens: seq<nat>, i: nat): nat
    requires i < |lens|
  {
    Base(lens, lens[i]) + CountBefore(lens, lens[i], i)
  }

  /** The lowest `n` bits of `v` in reverse order. */
  function Rev(v: nat, n: nat): (r: nat)
  {
    if n == 0 then 0 else (if v % 2 == 1 then Pow2(n - 1) else 0) + Rev(v / 2, n - 1)
  }

  /** The stream starts with the code of symbol `i`: codes are packed most significant bit first. */
  ghost predicate Matches(lens: seq<nat>, i: nat, v: nat)
  {
    i < |lens| && 0 < lens[i] <= MAX_LEN && Rev(v, lens[i]) == Code(lens, i)
  }

  // ----- reversal -----

  lemma {:induction false} RevBound(v: nat, n: nat)
    ensures Rev(v, n) < Pow2(n)
  {
    if n > 0 { RevBound(v / 2, n - 1); }
  }

  /** The first `s` bits of the stream are the high bits of its reversal. */
  lemma {:induction false} RevPrefix(v: nat, s: nat, n: nat)
    requires s <= n
    ensures Rev(v, n) / Pow2(n - s) == Rev(v, s)
  {
    RevBound(v, n);
    if s == 0 {
      Quotient(Rev(v, n), Pow2(n), 0);
    } else {
      var p, x, y := Pow2(n - s), Rev(v / 2, n - 1), Rev(v / 2, s - 1);
      RevPrefix(v / 2, s - 1, n - 1);
      Pow2Sum(s - 1, n - s);
      Shift(x, p, y, if v % 2 == 1 then Pow2(s - 1) else 0);
    }
  }

  lemma {:induction false} Shift(x: nat, p: nat, y: nat, d: nat)
    requires p >= 1 && x / p == y
    ensures (d * p + x) / p == d + y
  {
    Quotient(x, p, y);
    assert (d + y) * p == d * p + y * p;
    Quotient(d * p + x, p, d + y);
  }

  /** The lowest `n` bits. */
  function Low(v: nat, n: nat): nat
  {
    if n == 0 then 0 else v % 2 + 2 * Low(v / 2, n - 1)
  }

  lemma {:induction false} LowIsMod(v: nat, n: nat)
    ensures Low(v, n) == v % Pow2(n)
  {
    if n > 0 {
      LowIsMod(v / 2, n - 1);
      LowBits(v, n);
    }
  }

  /** Only the low bits count. */
  lemma {:induction false} RevLow(v: nat, w: nat, n: nat)
    requires Low(v, n) == Low(w, n)
    ensures Rev(v, n) == Rev(w, n)
  {
    if n > 0 {
      RevLow(v / 2, w / 2, n - 1);
    }
  }

  lemma {:induction false} LowBits(v: nat, n: nat)
    requires n > 0
    ensures v % Pow2(n) == v % 2 + 2 * (v / 2 % Pow2(n - 1))
  {
    var p := Pow2(n - 1);
    var q, r := v / 2 / p, v / 2 % p;
    assert v / 2 == q * p + r;
    assert v == 2 * (q * p + r) + v % 2;
    assert 2 * (q * p) == q * (2 * p);
    assert v - q * (2 * p) == 2 * r + v % 2;
    Quotient(v, 2 * p, q);
    assert v % (2 * p) == v - (v / (2 * p)) * (2 * p);
  }

  function Bit(v: nat, n: nat): nat
  {
    v / Pow2(n) % 2
  }

  /** Appending a bit above is adding it below after reversal. */
  lemma {:induction false} RevHigh(v: nat, n: nat)
    ensures Rev(v, n + 1) == 2 * Rev(v, n) + Bit(v, n)
  {
    if n > 0 {
      RevHigh(v / 2, n - 1);
      DivDiv(v, 2, Pow2(n - 1));
    }
  }

  /** Reversing twice gives the low bits back. */
  lemma {:induction false} RevRev(v: nat, n: nat)
    ensures Rev(Rev(v, n), n) == Low(v, n)
  {
    if n > 0 {
      hide Pow2, Bit;
      var x, r := Rev(v / 2, n - 1), Rev(v, n);
      TopBit(x, n - 1, v % 2);
      RevBound(v / 2, n - 1);
      assert Rev(r, n) == 2 * Rev(r, n - 1) + v % 2 by { RevHigh(r, n - 1); }
      RevLow(r, x, n - 1);
      RevRev(v / 2, n - 1);
    }
  }

  lemma {:induction false} TopBit(x: nat, n: nat, b: nat)
    requires b <= 1
    ensures x < Pow2(n) ==> var r := (if b == 1 then Pow2(n) else 0) + x;
                            Bit(r, n) == b && Low(r, n) == Low(x, n)
  {
    if x < Pow2(n) {
      var p := Pow2(n);
      var r := (if b == 1 then p else 0) + x;
      LowIsMod(r, n);
      LowIsMod(x, n);
      Quotient(r, p, b);
      Quotient(x, p, 0);
    }
  }
}
