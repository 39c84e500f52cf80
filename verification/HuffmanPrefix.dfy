/** Canonical codes cut the range of 16-bit values into consecutive intervals, one per symbol. */
module HuffmanPrefix {
  import opened Division
  import opened Powers
  import opened HuffmanCodes

  /** The accepted vectors, those that satisfy the Kraft inequality: at every length in use the codes still fit. */
  ghost predicate Accepted(lens: seq<nat>)
  {
    forall s | 1 <= s <= MAX_LEN && Count(lens, s) > 0 :: Base(lens, s) + Count(lens, s) <= Pow2(s)
  }

  /** Where the codes of length up to `s` end, left-aligned to 16 bits. */
  function Top(lens: seq<nat>, s: nat): nat
    requires s <= 16
  {
    if s == 0 then 0 else (Base(lens, s) + Count(lens, s)) * Pow2(16 - s)
  }

  lemma {:induction false} TopStep(lens: seq<nat>, s: nat)
    requires 1 <= s <= 16
    ensures Base(lens, s) * Pow2(16 - s) == Top(lens, s - 1)
    ensures Top(lens, s) == Top(lens, s - 1) + Count(lens, s) * Pow2(16 - s)
    ensures Top(lens, s - 1) <= Top(lens, s)
  {
    var p := Pow2(16 - s);
    if s > 1 {
      var b := Base(lens, s - 1) + Count(lens, s - 1);
      assert Pow2(16 - (s - 1)) == 2 * p;
      assert (2 * b) * p == b * (2 * p);
    }
    assert (Base(lens, s) + Count(lens, s)) * p == Base(lens, s) * p + Count(lens, s) * p;
    assert Count(lens, s) * p >= 0;
  }

  lemma {:induction false} TopMonotone(lens: seq<nat>, s: nat, t: nat)
    requires s <= t <= 16
    ensures Top(lens, s) <= Top(lens, t)
    decreases t - s
  {
    if s < t {
      TopMonotone(lens, s, t - 1);
      TopStep(lens, t);
    }
  }

  // ----- symbols of one length -----

  lemma {:induction false} CountMonotone(lens: seq<nat>, s: nat, m: nat, n: nat)
    requires m <= n <= |lens|
    ensures CountBefore(lens, s, m) <= CountBefore(lens, s, n)
    ensures m < n && lens[m] == s ==> CountBefore(lens, s, m) < CountBefore(lens, s, n)
    decreases n - m
  {
    if m < n { CountMonotone(lens, s, m, n - 1); }
  }

  lemma {:induction false} SymbolAt(lens: seq<nat>, s: nat, r: nat, n: nat) returns (i: nat)
    requires n <= |lens| && r < CountBefore(lens, s, n)
    ensures i < n && lens[i] == s && CountBefore(lens, s, i) == r
  {
    if CountBefore(lens, s, n - 1) <= r {
      i := n - 1;
    } else {
      i := SymbolAt(lens, s, r, n - 1);
    }
  }

  lemma {:induction false} SameRank(lens: seq<nat>, i: nat, j: nat)
    requires i < |lens| && j < |lens| && lens[i] == lens[j]
    requires CountBefore(lens, lens[i], i) == CountBefore(lens, lens[i], j)
    ensures i == j
  {
    if i < j { CountMonotone(lens, lens[i], i, j); }
    if j < i { CountMonotone(lens, lens[i], j, i); }
  }

  // ----- intervals -----

  /** A stream that starts with a code of length `s` lies in the interval of that length. */
  lemma {:induction false} InInterval(lens: seq<nat>, i: nat, v: nat)
    requires Matches(lens, i, v)
    ensures Top(lens, lens[i] - 1) <= Rev(v, 16) < Top(lens, lens[i])
  {
    var s, k := lens[i], Rev(v, 16);
    var p, c := Pow2(16 - s), Code(lens, i);
    RevPrefix(v, s, 16);
    Quotient(k, p, c);
    CountMonotone(lens, s, i, |lens|);
    TopStep(lens, s);
    MulMono(Base(lens, s), c, p);
    Scale(c, Base(lens, s) + Count(lens, s), p);
  }

  lemma {:induction false} MulMono(a: nat, b: nat, p: nat)
    requires a <= b
    ensures a * p <= b * p
  {
    if a < b { Scale(a, b, p); }
  }

  /** And every stream in that interval starts with such a code. */
  lemma {:induction false} FromInterval(lens: seq<nat>, v: nat, s: nat) returns (i: nat)
    requires 1 <= s <= MAX_LEN && Top(lens, s - 1) <= Rev(v, 16) < Top(lens, s)
    ensures Matches(lens, i, v) && lens[i] == s
    ensures Rev(v, 16) / Pow2(16 - s) == Base(lens, s) + CountBefore(lens, s, i)
  {
    var p := Pow2(16 - s);
    assert Top(lens, s) == (Base(lens, s) + Count(lens, s)) * p;
    hide Top, Rev, Pow2, CountBefore, Base;
    RevPrefix(v, s, 16);
    TopStep(lens, s);
    Between(Rev(v, 16), p, Base(lens, s), Count(lens, s));
    i := SymbolAt(lens, s, Rev(v, s) - Base(lens, s), |lens|);
  }

  lemma {:induction false} Between(k: nat, p: nat, b: nat, c: nat)
    requires p >= 1 && b * p <= k < (b + c) * p
    ensures b <= k / p < b + c
  {
    QuotientLess(k, p, b);
    QuotientLess(k, p, b + c);
  }

  /** At most one symbol's code starts the stream: no code is a prefix of another. */
  lemma {:induction false} UniqueMatch(lens: seq<nat>, i: nat, j: nat, v: nat)
    requires Matches(lens, i, v) && Matches(lens, j, v)
    ensures i == j
  {
    InInterval(lens, i, v);
    InInterval(lens, j, v);
    if lens[i] < lens[j] { TopMonotone(lens, lens[i], lens[j] - 1); }
    if lens[j] < lens[i] { TopMonotone(lens, lens[j], lens[i] - 1); }
    SameRank(lens, i, j);
  }

  /** Left-aligned comparison finds a code of length up to `t` iff one starts the stream. */
  lemma {:induction false} ShortMatch(lens: seq<nat>, v: nat, t: nat) returns (i: nat)
    requires t <= MAX_LEN && Rev(v, 16) < Top(lens, t)
    ensures Matches(lens, i, v) && lens[i] <= t
  {
    if t > 0 && Rev(v, 16) < Top(lens, t - 1) {
      i := ShortMatch(lens, v, t - 1);
    } else {
      i := FromInterval(lens, v, t);
    }
  }

  // ----- the Kraft sum -----

  /** The sum of `2^-length` over the first `n` symbols in use, scaled by `2^16`. */
  function KraftSum(lens: seq<nat>, n: nat): nat
    requires n <= |lens| && forall i | 0 <= i < |lens| :: lens[i] <= MAX_LEN
  {
    if n == 0 then 0 else KraftSum(lens, n - 1) + (if lens[n - 1] > 0 then Pow2(16 - lens[n - 1]) else 0)
  }

  /** The same sum, taken length by length. */
  function ByLength(lens: seq<nat>, s: nat, n: nat): nat
    requires s <= 16 && n <= |lens|
  {
    if s == 0 then 0 else ByLength(lens, s - 1, n) + CountBefore(lens, s, n) * Pow2(16 - s)
  }

  lemma {:induction false} OneMoreSymbol(lens: seq<nat>, s: nat, n: nat)
    requires s <= 16 && 0 < n <= |lens|
    ensures ByLength(lens, s, n) == ByLength(lens, s, n - 1) + (if 0 < lens[n - 1] <= s then Pow2(16 - lens[n - 1]) else 0)
  {
    if s > 0 {
      OneMoreSymbol(lens, s - 1, n);
      hide Pow2;
      OneMore(CountBefore(lens, s, n - 1), Pow2(16 - s));
    }
  }

  lemma {:induction false} OneMore(c: nat, p: nat)
    ensures (c + 1) * p == c * p + p
  {
  }

  lemma {:induction false} TwoSums(lens: seq<nat>, n: nat)
    requires n <= |lens| && forall i | 0 <= i < |lens| :: lens[i] <= MAX_LEN
    ensures KraftSum(lens, n) == ByLength(lens, MAX_LEN, n)
  {
    if n == 0 {
      NoSymbols(lens, MAX_LEN);
    } else {
      TwoSums(lens, n - 1);
      OneMoreSymbol(lens, MAX_LEN, n);
    }
  }

  lemma {:induction false} NoSymbols(lens: seq<nat>, s: nat)
    requires s <= 16
    ensures ByLength(lens, s, 0) == 0
  {
    if s > 0 { NoSymbols(lens, s - 1); }
  }

  lemma {:induction false} TopIsSum(lens: seq<nat>, s: nat)
    requires s <= 16
    ensures Top(lens, s) == ByLength(lens, s, |lens|)
  {
    if s > 0 {
      TopIsSum(lens, s - 1);
      TopStep(lens, s);
    }
  }

  lemma {:induction false} FitsAt(lens: seq<nat>, s: nat)
    requires 1 <= s <= MAX_LEN
    ensures Base(lens, s) + Count(lens, s) <= Pow2(s) <==> Top(lens, s) <= 0x10000
  {
    var p, b := Pow2(16 - s), Base(lens, s) + Count(lens, s);
    Pow2Sum(s, 16 - s);
    Sixteen();
    if b <= Pow2(s) { MulMono(b, Pow2(s), p); } else { Scale(Pow2(s), b, p); }
  }

  lemma {:induction false} Sixteen()
    ensures Pow2(16) == 0x10000
  {
    assert Pow2(4) == 16;
    Pow2Sum(4, 4);
    Pow2Sum(8, 8);
  }

  lemma {:induction false} NothingAdded(lens: seq<nat>, s: nat)
    requires 1 <= s <= MAX_LEN && Count(lens, s) == 0
    ensures Top(lens, s) == Top(lens, s - 1)
  {
    TopStep(lens, s);
  }

  lemma {:induction false} FitsBelow(lens: seq<nat>, s: nat)
    requires s <= MAX_LEN && Accepted(lens)
    ensures Top(lens, s) <= 0x10000
  {
    if s > 0 {
      FitsBelow(lens, s - 1);
      if Count(lens, s) > 0 { FitsAt(lens, s); } else { NothingAdded(lens, s); }
    }
  }

  /** The vectors accepted are exactly those that satisfy the Kraft inequality. */
  lemma {:induction false} AcceptedIffKraft(lens: seq<nat>)
    requires forall i | 0 <= i < |lens| :: lens[i] <= MAX_LEN
    ensures Accepted(lens) <==> KraftSum(lens, |lens|) <= 0x10000
  {
    TwoSums(lens, |lens|);
    TopIsSum(lens, MAX_LEN);
    if Accepted(lens) { FitsBelow(lens, MAX_LEN); }
    if Top(lens, MAX_LEN) <= 0x10000 {
      forall s | 1 <= s <= MAX_LEN && Count(lens, s) > 0
        ensures Base(lens, s) + Count(lens, s) <= Pow2(s)
      {
        TopMonotone(lens, s, MAX_LEN);
        FitsAt(lens, s);
      }
    }
  }
}
