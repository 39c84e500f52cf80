/** stbi__zhuffman of apps/gviewer/stb_image.h: building the decoding tables from code lengths.  The loops of the
    source are methods of their own: counting the symbols of each length, testing that no length has too many,
    assigning first codes and slots, and entering the symbols one by one, each with all the fast entries that start
    with its code.  The loop invariants tie the tables to the canonical codes of HuffmanCodes; together they
    make the tables what HuffmanTables requires for decoding.  A vector is accepted exactly when it satisfies
    the Kraft inequality, since the two tests of the source together are that inequality. */
module HuffmanBuild {
  import opened Division
  import opened Powers
  import opened HuffmanCodes
  import opened HuffmanPrefix
  import opened HuffmanTables
  import opened BitWords

  /** A conversion to stbi__uint16. */
  function U16(x: nat): nat
  {
    x % 0x10000
  }

  class ZHuffman {
    const fast: array<nat>
    const firstcode: array<nat>
    const maxcode: array<nat>
    const firstsymbol: array<nat>
    const size: array<nat>
    const value: array<nat>

    constructor ()
      ensures Valid()
      ensures fresh(fast) && fresh(firstcode) && fresh(maxcode) && fresh(firstsymbol) && fresh(size) && fresh(value)
    {
      fast, firstcode, maxcode := new nat[FAST_SIZE], new nat[16], new nat[17];
      firstsymbol, size, value := new nat[16], new nat[288], new nat[288];
    }

    ghost predicate Valid()
    {
      && fast.Length == FAST_SIZE && firstcode.Length == 16 && maxcode.Length == 17
      && firstsymbol.Length == 16 && size.Length == 288 && value.Length == 288
      && fast != size && fast != value && size != value
      && fast != firstcode && fast != maxcode && fast != firstsymbol
      && size != firstcode && size != maxcode && size != firstsymbol
      && value != firstcode && value != maxcode && value != firstsymbol
      && firstcode != maxcode && firstcode != firstsymbol && maxcode != firstsymbol
    }

    ghost predicate Codes(lens: seq<nat>)
      reads firstcode, maxcode, firstsymbol
    {
      CodesHold(lens, firstcode[..], maxcode[..], firstsymbol[..])
    }

    /** The tables decode `lens`. */
    ghost predicate Table(lens: seq<nat>)
      reads fast, firstcode, maxcode, firstsymbol, size, value
    {
      && Valid() && Lengths(lens) && Accepted(lens) && Codes(lens)
      && SlotsHold(lens, |lens|, size[..], value[..]) && FastHolds(lens, |lens|, fast[..])
    }

    method CountSizes(lens: seq<nat>) returns (sizes: array<nat>)
      requires Lengths(lens)
      ensures fresh(sizes) && sizes.Length == 17
      ensures sizes[0] == 0 && forall s | 1 <= s <= MAX_LEN :: sizes[s] == Count(lens, s)
    {
      sizes := new nat[17](_ => 0);
      var i: nat := 0;
      while i < |lens|
        invariant i <= |lens|
        invariant forall s | 0 <= s < 17 :: sizes[s] == CountBefore(lens, s, i)
      {
        sizes[lens[i]] := sizes[lens[i]] + 1;
        i := i + 1;
      }
      sizes[0] := 0;
    }

    /** No length has more symbols than it has codes. */
    method SizesFit(ghost lens: seq<nat>, sizes: array<nat>) returns (ok: bool)
      requires sizes.Length == 17 && forall s | 1 <= s <= MAX_LEN :: sizes[s] == Count(lens, s)
      ensures ok <==> forall s | 1 <= s <= MAX_LEN :: Count(lens, s) <= Pow2(s)
    {
      hide Count, Pow2;
      var i := 1;
      while i < 16
        invariant 1 <= i <= 16
        invariant forall s | 1 <= s < i :: Count(lens, s) <= Pow2(s)
      {
        if sizes[i] > Pow2(i) {
          return false;
        }
        i := i + 1;
      }
      return true;
    }

    /** Assigns the first code and the first slot of every length, unless the codes do not fit. */
    method AssignCodes(ghost lens: seq<nat>, sizes: array<nat>) returns (ok: bool, nextCode: array<nat>)
      requires Valid() && Lengths(lens) && sizes.Length == 17
      requires sizes != firstcode && sizes != maxcode && sizes != firstsymbol
      requires forall s | 1 <= s <= MAX_LEN :: sizes[s] == Count(lens, s)
      modifies firstcode, maxcode, firstsymbol
      ensures fresh(nextCode) && nextCode.Length == 16
      ensures ok <==> Accepted(lens)
      ensures ok ==> Codes(lens) && forall s | 1 <= s <= MAX_LEN :: nextCode[s] == Base(lens, s)
    {
      hide Base, Top, FirstSymbol, Count, Pow2, Join;
      nextCode := new nat[16];
      var code, k, i := 0, 0, 1;
      FirstCodes(lens);
      while i < 16
        invariant 1 <= i <= 16
        invariant code == Base(lens, i) && k == FirstSymbol(lens, i) && code <= Pow2(i)
        invariant forall s | 1 <= s < i && Count(lens, s) > 0 :: Base(lens, s) + Count(lens, s) <= Pow2(s)
        invariant forall s | 1 <= s < i :: firstcode[s] == Base(lens, s)
        invariant forall s | 1 <= s < i :: maxcode[s] == Top(lens, s)
        invariant forall s | 1 <= s < i :: firstsymbol[s] == FirstSymbol(lens, s)
        invariant forall s | 1 <= s < i :: nextCode[s] == Base(lens, s)
      {
        NextCodes(lens, i);
        nextCode[i] := code;
        firstcode[i] := U16(code);
        firstsymbol[i] := U16(k);
        code := code + sizes[i];
        if sizes[i] > 0 {
          if code >= Pow2(i) + 1 {
            return false, nextCode;
          }
        }
        maxcode[i] := Join(code, 16 - i, 0);
        code := code * 2;
        k := k + sizes[i];
        i := i + 1;
      }
      maxcode[16] := 0x10000;
      ok := true;
    }

    /** Fills the fast entries of one code: every 9-bit value that starts with it. */
    method EnterFast(lens: seq<nat>, i: nat, fastv: nat, code: nat)
      requires Valid() && Lengths(lens) && i < |lens| && 0 < lens[i] <= FAST_BITS
      requires code == Code(lens, i) < Pow2(lens[i]) && fastv == lens[i] * FAST_SIZE + i
      requires FastHolds(lens, i, fast[..])
      modifies fast
      ensures FastHolds(lens, i + 1, fast[..])
    {
      hide Pow2, Rev, InClass, Matches, Code, BitReverse;
      var s: nat := lens[i];
      var j := BitReverse(code, s);
      ghost var r := Rev(code, s);
      FirstInClass(code, s);
      while j < FAST_SIZE
        invariant InClass(j, s, r)
        invariant forall x | 0 <= x < FAST_SIZE ::
                    fast[x] == if x < j && InClass(x, s, r) then fastv else FastEntry(lens, i, x)
      {
        fast[j] := fastv;
        NextInClass(j, s, r);
        j := j + Pow2(s);
      }
      forall x | 0 <= x < FAST_SIZE
        ensures fast[x] == FastEntry(lens, i + 1, x)
      {
        FastClass(lens, i, x);
      }
    }

    /** Enters symbol `i` under the next code of its length. */
    method EnterSymbol(lens: seq<nat>, i: nat, nextCode: array<nat>)
      requires Valid() && Lengths(lens) && Accepted(lens) && Codes(lens) && nextCode.Length == 16
      requires nextCode != fast && nextCode != size && nextCode != value
      requires nextCode != firstcode && nextCode != firstsymbol && nextCode != maxcode
      requires i < |lens| && lens[i] > 0 && nextCode[lens[i]] == Code(lens, i)
      requires SlotsHold(lens, i, size[..], value[..]) && FastHolds(lens, i, fast[..])
      modifies fast, size, value, nextCode
      ensures SlotsHold(lens, i + 1, size[..], value[..]) && FastHolds(lens, i + 1, fast[..])
      ensures forall s | 0 <= s < 16 :: nextCode[s] == old(nextCode[s]) + (if s == lens[i] then 1 else 0)
    {
      hide Accepted, FastHolds, SlotsHold, FirstSymbol, Base, Pow2, CountBefore;
      var s: nat := lens[i];
      var c: nat := nextCode[s] - firstcode[s] + firstsymbol[s];
      var fastv := U16(s * FAST_SIZE + i);
      assert c == Slot(lens, i);
      SlotBound(lens, i);
      SlotsStep(lens, i, size[..], value[..]);
      ghost var size0, value0 := size[..], value[..];
      size[c] := s;
      value[c] := U16(i);
      assert size[..] == size0[c := s] && value[..] == value0[c := i];
      CodeFits(lens, i);
      if s <= FAST_BITS {
        EnterFast(lens, i, fastv, nextCode[s]);
      } else {
        FastSkip(lens, i, fast[..]);
      }
      nextCode[s] := nextCode[s] + 1;
    }

    method EnterSymbols(lens: seq<nat>, nextCode: array<nat>)
      requires Valid() && Lengths(lens) && Accepted(lens) && Codes(lens) && nextCode.Length == 16
      requires nextCode != fast && nextCode != size && nextCode != value
      requires nextCode != firstcode && nextCode != firstsymbol && nextCode != maxcode
      requires forall s | 1 <= s <= MAX_LEN :: nextCode[s] == Base(lens, s)
      requires FastHolds(lens, 0, fast[..])
      modifies fast, size, value, nextCode
      ensures Table(lens)
    {
      hide Accepted, FastHolds, SlotsHold, CodesHold;
      NoSlots(lens, size[..], value[..]);
      var i: nat := 0;
      while i < |lens|
        invariant i <= |lens| && Codes(lens)
        invariant forall s | 1 <= s <= MAX_LEN :: nextCode[s] == Base(lens, s) + CountBefore(lens, s, i)
        invariant SlotsHold(lens, i, size[..], value[..])
        invariant FastHolds(lens, i, fast[..])
      {
        var s := lens[i];
        if s > 0 {
          EnterSymbol(lens, i, nextCode);
        } else {
          FastSkip(lens, i, fast[..]);
          SlotsSkip(lens, i, size[..], value[..]);
        }
        i := i + 1;
      }
    }

    /** stbi__zbuild_huffman: accepts exactly the vectors that satisfy the Kraft inequality, and then the
        tables decode them. */
    method Build(sizelist: seq<nat>) returns (ok: bool)
      requires Valid() && Lengths(sizelist)
      modifies fast, firstcode, maxcode, firstsymbol, size, value
      ensures ok <==> KraftSum(sizelist, |sizelist|) <= 0x10000
      ensures ok ==> Table(sizelist)
    {
      AcceptedIffKraft(sizelist);
      forall j | 0 <= j < FAST_SIZE {
        fast[j] := 0;
      }
      var sizes := CountSizes(sizelist);
      ok := SizesFit(sizelist, sizes);
      if !ok {
        return;
      }
      var nextCode;
      ok, nextCode := AssignCodes(sizelist, sizes);
      if ok {
        EnterSymbols(sizelist, nextCode);
      }
    }
  }

  /** Codes never outgrow 16 bits. */
  lemma {:induction false} SmallCode(lens: seq<nat>, s: nat)
    requires 1 <= s <= MAX_LEN && |lens| <= 288
    ensures Pow2(s) <= 0x8000
    ensures FirstSymbol(lens, s) <= 288
  {
    FirstIsShorter(lens, s);
    ShorterBound(lens, s, |lens|);
    Pow2Grows(s, 15);
    Sixteen();
  }

  lemma {:induction false} Pow2Grows(a: nat, b: nat)
    requires a <= b
    ensures Pow2(a) <= Pow2(b)
    decreases b - a
  {
    if a < b { Pow2Grows(a, b - 1); }
  }

  lemma {:induction false} FirstCodes(lens: seq<nat>)
    ensures Base(lens, 1) == 0 && FirstSymbol(lens, 1) == 0 && Pow2(1) == 2
  {
  }

  lemma {:induction false} NextCodes(lens: seq<nat>, s: nat)
    requires 1 <= s <= MAX_LEN && |lens| <= 288
    ensures Base(lens, s + 1) == 2 * (Base(lens, s) + Count(lens, s))
    ensures FirstSymbol(lens, s + 1) == FirstSymbol(lens, s) + Count(lens, s) && FirstSymbol(lens, s) <= 288
    ensures Top(lens, s) == Join(Base(lens, s) + Count(lens, s), 16 - s, 0)
    ensures Pow2(s + 1) == 2 * Pow2(s) && Pow2(s) <= 0x8000
  {
    SmallCode(lens, s);
  }

  /** The values that agree with `r` in their lowest `s` bits. */
  ghost predicate InClass(x: nat, s: nat, r: nat)
  {
    x % Pow2(s) == r
  }

  lemma {:induction false} FirstInClass(code: nat, s: nat)
    requires s <= 16
    ensures var r := Rev(code, s); BitReverse(code, s) == r && InClass(r, s, r)
    ensures forall x: nat | x < Rev(code, s) :: !InClass(x, s, Rev(code, s))
  {
    BitReverseIsRev(code, s);
    RevBound(code, s);
    Small(Rev(code, s), Pow2(s));
    forall x: nat | x < Rev(code, s)
      ensures !InClass(x, s, Rev(code, s))
    {
      Small(x, Pow2(s));
    }
  }

  lemma {:induction false} NextInClass(j: nat, s: nat, r: nat)
    requires InClass(j, s, r)
    ensures InClass(j + Pow2(s), s, r)
    ensures forall x | j < x < j + Pow2(s) :: !InClass(x, s, r)
  {
    NextMultiple(j, Pow2(s));
  }

  lemma {:induction false} NextMultiple(j: nat, p: nat)
    requires p >= 1
    ensures (j + p) % p == j % p
    ensures forall x | j < x < j + p :: x % p != j % p
  {
    var q, r := j / p, j % p;
    assert j == q * p + r;
    assert (q + 1) * p == q * p + p;
    Quotient(j + p, p, q + 1);
    forall x | j < x < j + p
      ensures x % p != r
    {
      if x < q * p + p { Quotient(x, p, q); } else { Quotient(x, p, q + 1); }
    }
  }

  lemma {:induction false} FastClass(lens: seq<nat>, i: nat, x: nat)
    requires i < |lens| && 0 < lens[i] <= FAST_BITS && Code(lens, i) < Pow2(lens[i])
    ensures FastEntry(lens, i + 1, x) ==
            if InClass(x, lens[i], Rev(Code(lens, i), lens[i])) then lens[i] * FAST_SIZE + i else FastEntry(lens, i, x)
  {
    FastSlots(lens, i, x);
  }

  lemma {:induction false} NoSlots(lens: seq<nat>, size: seq<nat>, value: seq<nat>)
    ensures SlotsHold(lens, 0, size, value)
  {
  }

  lemma {:induction false} SlotsSkip(lens: seq<nat>, n: nat, size: seq<nat>, value: seq<nat>)
    requires SlotsHold(lens, n, size, value) && n < |lens| && lens[n] == 0
    ensures SlotsHold(lens, n + 1, size, value)
  {
  }

  lemma {:induction false} FastSkip(lens: seq<nat>, n: nat, fast: seq<nat>)
    requires FastHolds(lens, n, fast) && n < |lens| && (lens[n] == 0 || lens[n] > FAST_BITS)
    ensures FastHolds(lens, n + 1, fast)
  {
  }
}
