/** The word operations of stb_image.h on natural numbers: or-ing in a byte above the buffered bits, taking bits
    from the low end, and the reversal of sixteen bits by trading ever larger groups.  High and Low split a number
    at a bit, Join puts two parts together again, and BitOr is the bitwise or.  The reversal is proved stage by
    stage: once groups of k bits are reversed in place, trading neighbouring groups leaves groups of 2k bits
    reversed, so that after groups of 1, 2, 4 and 8 bits all sixteen are.  A bit stream is such a number too: its
    buffered part and the bytes still to come are joined, and the lemmas at the end say that the buffer alone
    decides what is read next. */
module BitWords {
  import opened Division
  import opened Powers
  import opened HuffmanCodes

  /** What is above the lowest `k` bits. */
  function High(n: nat, k: nat): nat
  {
    Shifted(n, Pow2(k))
  }

  function Shifted(n: nat, p: nat): nat
    requires p >= 1
  {
    n / p
  }

  /** `high` placed above the `k` bits of `low`. */
  function Join(high: nat, k: nat, low: nat): nat
  {
    high * Pow2(k) + low
  }

  /** `((n & high) >> k) | ((n & low) << k)` where the masks select the upper and the lower half of each
      of `g` groups of `2k` bits: the halves trade places. */
  function SwapHalves(n: nat, k: nat, g: nat): nat
    decreases g
  {
    if g == 0 then 0
    else Join(SwapHalves(High(n, 2 * k), k, g - 1), 2 * k, Join(Low(n, k), k, Low(High(n, k), k)))
  }

  /** stbi__bitreverse16: masks 0xAAAA/0x5555, 0xCCCC/0x3333, 0xF0F0/0x0F0F and 0xFF00/0x00FF. */
  function BitReverse16(n: nat): nat
  {
    SwapHalves(SwapHalves(SwapHalves(SwapHalves(n, 1, 8), 2, 4), 4, 2), 8, 1)
  }

  /** stbi__bit_reverse: reverse sixteen bits and shift. */
  function BitReverse(v: nat, bits: nat): nat
    requires bits <= 16
  {
    High(BitReverse16(v), 16 - bits)
  }

  /** Each of `g` groups of `k` bits reversed in place. */
  function RevGroups(n: nat, k: nat, g: nat): nat
    decreases g
  {
    if g == 0 then 0 else Join(RevGroups(High(n, k), k, g - 1), k, Rev(n, k))
  }

  /** The reversal of a concatenation. */
  lemma {:induction false} RevConcat(v: nat, a: nat, b: nat)
    ensures Rev(v, a + b) == Join(Rev(v, a), b, Rev(High(v, a), b))
    decreases a
  {
    if a > 0 {
      RevConcat(v / 2, a - 1, b);
      DivDiv(v, 2, Pow2(a - 1));
      Pow2Sum(a - 1, b);
      Distribute(if v % 2 == 1 then Pow2(a - 1) else 0, Rev(v / 2, a - 1), Pow2(b));
    }
  }

  lemma {:induction false} Distribute(x: nat, y: nat, p: nat)
    ensures (x + y) * p == x * p + y * p
  {
  }

  /** What is joined can be taken apart. */
  lemma {:induction false} TakeApart(high: nat, k: nat, low: nat)
    requires low < Pow2(k)
    ensures High(Join(high, k, low), k) == high && Low(Join(high, k, low), k) == low
  {
    hide Pow2;
    Quotient(high * Pow2(k) + low, Pow2(k), high);
    LowIsMod(high * Pow2(k) + low, k);
  }

  lemma {:induction false} HighHigh(n: nat, a: nat, b: nat)
    ensures High(High(n, a), b) == High(n, a + b)
  {
    DivDiv(n, Pow2(a), Pow2(b));
    Pow2Sum(a, b);
  }

  /** Trading halves turns reversed halves into reversed wholes. */
  lemma {:induction false} SwapReverses(n: nat, k: nat, g: nat)
    ensures SwapHalves(RevGroups(n, k, 2 * g), k, g) == RevGroups(n, 2 * k, g)
    decreases g
  {
    if g > 0 {
      var n1, n2 := High(n, k), High(n, 2 * k);
      var x, y, r := Rev(n, k), Rev(n1, k), RevGroups(n2, k, 2 * (g - 1));
      HighHigh(n, k, k);
      assert RevGroups(n, k, 2 * g) == Join(RevGroups(n1, k, 2 * g - 1), k, x);
      assert RevGroups(n1, k, 2 * g - 1) == Join(r, k, y);
      hide Join, Rev, High, Low, Pow2;
      RevBound(n, k);
      RevBound(n1, k);
      TakeApart(Join(r, k, y), k, x);
      TakeApart(r, k, y);
      HighHigh(Join(Join(r, k, y), k, x), k, k);
      SwapReverses(n2, k, g - 1);
      RevConcat(n, k, k);
    }
  }

  /** The first stage starts from single bits. */
  lemma {:induction false} SwapBits(n: nat, k: nat, g: nat)
    requires k == 1
    ensures SwapHalves(n, k, g) == RevGroups(n, 2 * k, g)
    decreases g
  {
    if g > 0 {
      SwapBits(High(n, 2 * k), k, g - 1);
      OneSwap(n, k);
      hide Join, High, Low, Rev, Pow2;
      assert SwapHalves(n, k, g) == Join(SwapHalves(High(n, 2 * k), k, g - 1), 2 * k, Join(Low(n, k), k, Low(High(n, k), k)));
    }
  }

  lemma {:induction false} OneSwap(n: nat, k: nat)
    requires k == 1
    ensures Join(Low(n, k), k, Low(High(n, k), k)) == Rev(n, 2 * k)
  {
    hide Join, High, Low, Rev, Pow2;
    RevConcat(n, k, k);
    OneBit(n, k);
    OneBit(High(n, k), k);
  }

  lemma {:induction false} OneBit(n: nat, k: nat)
    requires k == 1
    ensures Low(n, k) == Rev(n, k)
  {
    assert Pow2(0) == 1 && Rev(n / 2, 0) == 0 && Low(n / 2, 0) == 0;
  }

  /** The mask-and-shift reversal reverses the low bits of any value. */
  lemma {:induction false} BitReverseIsRev(v: nat, bits: nat)
    requires bits <= 16
    ensures BitReverse(v, bits) == Rev(v, bits)
  {
    hide SwapHalves, RevGroups, Rev;
    SwapBits(v, 1, 8);
    SwapReverses(v, 2, 4);
    SwapReverses(v, 4, 2);
    SwapReverses(v, 8, 1);
    OneGroup(v, 16);
    RevPrefix(v, bits, 16);
  }

  lemma {:induction false} OneGroup(v: nat, k: nat)
    ensures RevGroups(v, k, 1) == Rev(v, k)
  {
    assert RevGroups(High(v, k), k, 0) == 0;
  }

  /** The bitwise or of two numbers. */
  function BitOr(a: nat, b: nat): nat
    decreases a + b
  {
    if a == 0 && b == 0 then 0
    else (if a % 2 == 1 || b % 2 == 1 then 1 else 0) + 2 * BitOr(a / 2, b / 2)
  }

  /** Bits that do not overlap add up. */
  lemma {:induction false} OrIsSum(a: nat, b: nat, n: nat)
    requires a < Pow2(n)
    ensures BitOr(a, b * Pow2(n)) == a + b * Pow2(n)
  {
    if n == 0 {
      OrZero(b);
    } else {
      assert b * Pow2(n) == 2 * (b * Pow2(n - 1));
      OrIsSum(a / 2, b, n - 1);
    }
  }

  lemma {:induction false} OrZero(b: nat)
    ensures BitOr(0, b) == b
  {
    if b > 0 { OrZero(b / 2); }
  }

  // ----- reading from the low end -----

  lemma {:induction false} HighStep(v: nat, n: nat)
    requires n > 0
    ensures High(v, n) == High(v / 2, n - 1)
  {
    DivDiv(v, 2, Pow2(n - 1));
  }

  lemma {:induction false} HighZero(v: nat)
    ensures High(v, 0) == v
  {
    assert Pow2(0) == 1;
  }

  lemma {:induction false} HalfJoin(high: nat, bits: nat, low: nat)
    requires bits > 0 && low < Pow2(bits)
    ensures low / 2 < Pow2(bits - 1)
    ensures Join(high, bits, low) / 2 == Join(high, bits - 1, low / 2) && Join(high, bits, low) % 2 == low % 2
  {
    assert high * Pow2(bits) == 2 * (high * Pow2(bits - 1));
  }

  /** The lowest bits of a stream are those of its buffered part; dropping them drops them there. */
  lemma {:induction false} TakeBits(high: nat, bits: nat, low: nat, n: nat)
    requires low < Pow2(bits) && n <= bits
    ensures High(low, n) < Pow2(bits - n)
    ensures Low(Join(high, bits, low), n) == Low(low, n)
    ensures High(Join(high, bits, low), n) == Join(high, bits - n, High(low, n))
  {
    hide Join, High, Pow2;
    if n == 0 {
      HighZero(low);
      HighZero(Join(high, bits, low));
    } else {
      HalfJoin(high, bits, low);
      HighStep(low, n);
      HighStep(Join(high, bits, low), n);
      TakeBits(high, bits - 1, low / 2, n - 1);
    }
  }

  /** The buffered bits alone decide what code starts the stream. */
  lemma {:induction false} SameStart(high: nat, bits: nat, low: nat, n: nat)
    requires low < Pow2(bits) && n <= bits
    ensures Rev(Join(high, bits, low), n) == Rev(low, n)
  {
    hide Join, High, Pow2, Rev;
    TakeBits(high, bits, low, n);
    RevLow(Join(high, bits, low), low, n);
  }

  /** Or-ing a byte in above the buffered bits moves it there from the rest of the stream. */
  lemma {:induction false} AddByte(low: nat, bits: nat, b: nat, rest: nat)
    requires low < Pow2(bits) && b < 256
    ensures BitOr(low, Join(b, bits, 0)) < Pow2(bits + 8)
    ensures Join(rest, bits + 8, BitOr(low, Join(b, bits, 0))) == Join(b + 256 * rest, bits, low)
  {
    OrIsSum(low, b, bits);
    EightMore(bits);
    OneByte(low, b, rest, Pow2(bits));
  }

  lemma {:induction false} OneByte(low: nat, b: nat, rest: nat, p: nat)
    requires low < p && b < 256
    ensures low + b * p < 256 * p
    ensures rest * (256 * p) + (low + b * p) == (b + 256 * rest) * p + low
  {
    Scale(b, 256, p);
  }

  lemma {:induction false} EightMore(n: nat)
    ensures Pow2(n + 8) == 256 * Pow2(n)
  {
    assert Pow2(n + 1) == 2 * Pow2(n) && Pow2(n + 2) == 4 * Pow2(n);
    assert Pow2(n + 3) == 8 * Pow2(n) && Pow2(n + 4) == 16 * Pow2(n);
    assert Pow2(n + 5) == 32 * Pow2(n) && Pow2(n + 6) == 64 * Pow2(n);
    assert Pow2(n + 7) == 128 * Pow2(n);
  }
}
