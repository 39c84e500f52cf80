/** What the tables of stbi__zhuffman must hold for a code-length vector: the fast entries of all 9-bit values,
    the first codes, left-aligned limits and first slots of all lengths, and the symbols by slot.  Looking a
    stream up in tables that hold this decodes it. */
module HuffmanTables {
  import opened Division
  import opened Powers
  import opened HuffmanCodes
  import opened HuffmanPrefix
  import opened BitWords

  const FAST_BITS: nat := 9
  const FAST_SIZE: nat := 512

  /** The fast entry of the 9 bits `j` once the first `n` symbols are entered. */
  ghost function FastEntry(lens: seq<nat>, n: nat, j: nat): nat
    requires n <= |lens|
  {
    if n == 0 then 0
    else if lens[n - 1] <= FAST_BITS && Matches(lens, n - 1, j) then lens[n - 1] * FAST_SIZE + (n - 1)
    else FastEntry(lens, n - 1, j)
  }

  /** The position of a symbol among all symbols in use, ordered by code. */
  function Slot(lens: seq<nat>, i: nat): nat
    requires i < |lens|
  {
    FirstSymbol(lens, lens[i]) + CountBefore(lens, lens[i], i)
  }

  /** `size` and `value` list the first `n` symbols by slot. */
  ghost predicate SlotsHold(lens: seq<nat>, n: nat, size: seq<nat>, value: seq<nat>)
  {
    n <= |lens| && forall i | 0 <= i < n && lens[i] > 0 ::
      Slot(lens, i) < |size| && Slot(lens, i) < |value| && size[Slot(lens, i)] == lens[i] && value[Slot(lens, i)] == i
  }

  ghost predicate CodesHold(lens: seq<nat>, firstcode: seq<nat>, maxcode: seq<nat>, firstsymbol: seq<nat>)
  {
    && |firstcode| == 16 && |maxcode| == 17 && |firstsymbol| == 16
    && (forall s | 1 <= s <= MAX_LEN ::
          firstcode[s] == Base(lens, s) && maxcode[s] == Top(lens, s) && firstsymbol[s] == FirstSymbol(lens, s))
    && maxcode[16] == 0x10000
  }

  ghost predicate FastHolds(lens: seq<nat>, n: nat, fast: seq<nat>)
  {
    |fast| == FAST_SIZE && n <= |lens| && forall j | 0 <= j < FAST_SIZE :: fast[j] == FastEntry(lens, n, j)
  }

  // ----- slots -----

  function Shorter(lens: seq<nat>, s: nat, n: nat): nat
    requires n <= |lens|
  {
    if s <= 1 then 0 else Shorter(lens, s - 1, n) + CountBefore(lens, s - 1, n)
  }

  lemma {:induction false} ShorterStep(lens: seq<nat>, s: nat, n: nat)
    requires 0 < n <= |lens|
    ensures Shorter(lens, s, n) == Shorter(lens, s, n - 1) + (if 1 <= lens[n - 1] < s then 1 else 0)
  {
    if s > 1 { ShorterStep(lens, s - 1, n); }
  }

  lemma {:induction false} ShorterBound(lens: seq<nat>, s: nat, n: nat)
    requires n <= |lens|
    ensures Shorter(lens, s, n) <= n
  {
    if n == 0 {
      NoneShorter(lens, s);
    } else {
      ShorterBound(lens, s, n - 1);
      ShorterStep(lens, s, n);
    }
  }

  lemma {:induction false} NoneShorter(lens: seq<nat>, s: nat)
    ensures Shorter(lens, s, 0) == 0
  {
    if s > 1 { NoneShorter(lens, s - 1); }
  }

  lemma {:induction false} FirstIsShorter(lens: seq<nat>, s: nat)
    ensures FirstSymbol(lens, s) == Shorter(lens, s, |lens|)
  {
    if s > 1 { FirstIsShorter(lens, s - 1); }
  }

  /** Every symbol in use has a slot of its own below the number of symbols. */
  lemma {:induction false} SlotBound(lens: seq<nat>, i: nat)
    requires i < |lens| && lens[i] > 0
    ensures Slot(lens, i) < FirstSymbol(lens, lens[i] + 1) <= |lens|
  {
    CountMonotone(lens, lens[i], i, |lens|);
    FirstIsShorter(lens, lens[i] + 1);
    ShorterBound(lens, lens[i] + 1, |lens|);
  }

  lemma {:induction false} FirstMonotone(lens: seq<nat>, s: nat, t: nat)
    requires s <= t
    ensures FirstSymbol(lens, s) <= FirstSymbol(lens, t)
    decreases t - s
  {
    if s < t { FirstMonotone(lens, s, t - 1); }
  }

  lemma {:induction false} SlotInjective(lens: seq<nat>, i: nat, j: nat)
    requires i < |lens| && j < |lens| && lens[i] > 0 && lens[j] > 0 && Slot(lens, i) == Slot(lens, j)
    ensures i == j
  {
    SlotBound(lens, i);
    SlotBound(lens, j);
    if lens[i] < lens[j] { FirstMonotone(lens, lens[i] + 1, lens[j]); }
    if lens[j] < lens[i] { FirstMonotone(lens, lens[j] + 1, lens[i]); }
    SameRank(lens, i, j);
  }

  /** Entering one more symbol keeps the slots of the others. */
  lemma {:induction false} SlotsStep(lens: seq<nat>, n: nat, size: seq<nat>, value: seq<nat>)
    requires SlotsHold(lens, n, size, value) && n < |lens| && lens[n] > 0
    requires Slot(lens, n) < |size| && Slot(lens, n) < |value|
    ensures SlotsHold(lens, n + 1, size[Slot(lens, n) := lens[n]], value[Slot(lens, n) := n])
  {
    forall i | 0 <= i < n && lens[i] > 0
      ensures Slot(lens, i) != Slot(lens, n)
    {
      if Slot(lens, i) == Slot(lens, n) { SlotInjective(lens, i, n); }
    }
  }

  // ----- the fast table -----

  /** The 9-bit values that start with the code of a symbol are those that agree with its reversal in
      the low bits. */
  lemma {:induction false} FastSlots(lens: seq<nat>, i: nat, j: nat)
    requires i < |lens| && 0 < lens[i] <= MAX_LEN && Code(lens, i) < Pow2(lens[i])
    ensures Matches(lens, i, j) <==> j % Pow2(lens[i]) == Rev(Code(lens, i), lens[i])
  {
    var s, c := lens[i], Code(lens, i);
    LowIsMod(j, s);
    LowIsMod(c, s);
    RevRev(c, s);
    RevRev(j, s);
    Small(c, Pow2(s));
    if Low(j, s) == Rev(c, s) {
      RevBound(c, s);
      Small(Rev(c, s), Pow2(s));
      LowIsMod(Rev(c, s), s);
      RevLow(j, Rev(c, s), s);
    }
  }

  lemma {:induction false} Small(x: nat, p: nat)
    requires x < p
    ensures x % p == x
  {
  }

  /** A fast entry names a symbol whose code starts the stream; an empty one says there is no short code. */
  lemma {:induction false} FastMeans(lens: seq<nat>, n: nat, j: nat)
    requires Lengths(lens) && n <= |lens|
    ensures var e := FastEntry(lens, n, j);
            if e == 0 then forall i | 0 <= i < n && lens[i] <= FAST_BITS :: !Matches(lens, i, j)
            else e % FAST_SIZE < n && Matches(lens, e % FAST_SIZE, j)
                 && lens[e % FAST_SIZE] == e / FAST_SIZE && lens[e % FAST_SIZE] <= FAST_BITS
    ensures FastEntry(lens, n, j) < 0x10000
  {
    if n > 0 {
      FastMeans(lens, n - 1, j);
      if lens[n - 1] <= FAST_BITS && Matches(lens, n - 1, j) {
        var e := lens[n - 1] * FAST_SIZE + (n - 1);
        assert e / FAST_SIZE == lens[n - 1] && e % FAST_SIZE == n - 1;
      }
    }
  }

  /** Short codes are decided by the low 9 bits of the stream. */
  lemma {:induction false} ShortBits(lens: seq<nat>, i: nat, v: nat)
    requires i < |lens| && lens[i] <= FAST_BITS
    ensures Matches(lens, i, v % FAST_SIZE) <==> Matches(lens, i, v)
  {
    var s := lens[i];
    if s > 0 {
      assert Pow2(FAST_BITS) == FAST_SIZE;
      LowIsMod(v, FAST_BITS);
      LowLow(v, s, FAST_BITS);
      RevLow(Low(v, FAST_BITS), v, s);
    }
  }

  lemma {:induction false} LowLow(v: nat, s: nat, n: nat)
    requires s <= n
    ensures Low(Low(v, n), s) == Low(v, s)
  {
    if s > 0 { LowLow(v / 2, s - 1, n - 1); }
  }

  /** The code of a symbol of an accepted vector fits its length. */
  lemma {:induction false} CodeFits(lens: seq<nat>, i: nat)
    requires Accepted(lens) && i < |lens| && 0 < lens[i] <= MAX_LEN
    ensures Code(lens, i) < Base(lens, lens[i]) + Count(lens, lens[i]) <= Pow2(lens[i])
  {
    CountMonotone(lens, lens[i], i, |lens|);
  }

  // ----- looking up -----

  /** The comparison loop of the slow path stops at the first length whose interval ends above the
      stream, and that names the symbol. */
  lemma {:induction false} SlowFinds(lens: seq<nat>, v: nat, s: nat, size: seq<nat>, value: seq<nat>) returns (i: nat)
    requires SlotsHold(lens, |lens|, size, value) && 1 <= s <= MAX_LEN
    requires Top(lens, s - 1) <= Rev(v, 16) < Top(lens, s)
    ensures Matches(lens, i, v) && lens[i] == s
    ensures High(Rev(v, 16), 16 - s) >= Base(lens, s)
    ensures var b := High(Rev(v, 16), 16 - s) - Base(lens, s) + FirstSymbol(lens, s);
            b < |size| && b < |value| && size[b] == s && value[b] == i
  {
    i := FromInterval(lens, v, s);
    assert Slot(lens, i) == FirstSymbol(lens, s) + CountBefore(lens, s, i);
  }

  /** Without a short code the stream lies above all short intervals. */
  lemma {:induction false} NoShortCode(lens: seq<nat>, v: nat)
    requires forall i | 0 <= i < |lens| && lens[i] <= FAST_BITS :: !Matches(lens, i, v)
    ensures Top(lens, FAST_BITS) <= Rev(v, 16)
  {
    if Rev(v, 16) < Top(lens, FAST_BITS) {
      var i := ShortMatch(lens, v, FAST_BITS);
    }
  }

  lemma {:induction false} NoCode(lens: seq<nat>, v: nat)
    requires Top(lens, MAX_LEN) <= Rev(v, 16)
    ensures forall i: nat :: !Matches(lens, i, v)
  {
    forall i: nat | Matches(lens, i, v)
      ensures false
    {
      InInterval(lens, i, v);
      TopMonotone(lens, lens[i], MAX_LEN);
    }
  }
}
