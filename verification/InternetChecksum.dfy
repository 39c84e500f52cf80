/** cksum16 of kernel/network/benri.c and its use by UDP and TCP (kernel/network/udp.c, tcp.c): the checksum of
    RFC 1071 over a pseudo header and a segment.  Words are added in 32 bits, an odd byte counts as a word of its
    own, carries are folded in, and a receiver accepts what the same sum over everything sends to zero. */
module InternetChecksum {
  import opened Basics

  const U16: nat := 0x10000

  function Word(low: Byte, high: Byte): (w: nat)
    ensures w < U16
  {
    low as int + 256 * (high as int)
  }

  /** The sum of the 16-bit words, first byte lowest; an odd byte at the end counts as a word. */
  function WordSum(data: seq<Byte>): (s: nat)
    ensures s <= (|data| + 1) / 2 * 0xffff
  {
    if |data| == 0 then 0
    else if |data| == 1 then data[0]
    else Word(data[0], data[1]) + WordSum(data[2..])
  }

  /** Adds the carries back in until there are none. */
  function Fold(sum: nat): (f: nat)
    ensures f < U16 && (f == 0 <==> sum == 0) && f % 0xffff == sum % 0xffff
  {
    if sum < U16 then sum else Fold(sum % U16 + sum / U16)
  }

  function Complement(x: nat): nat
    requires x < U16
  {
    0xffff - x
  }

  /** cksum16, in 32-bit arithmetic. */
  method Cksum16(data: seq<Byte>, init: nat) returns (sum: nat)
    requires |data| < U16 && init < U16
    ensures sum == Complement(Fold(init + WordSum(data)))
  {
    hide Fold, Word;
    var s: nat := init;
    var i := 0;
    var count := |data|;
    assert data[0..] == data;
    while count > 1
      invariant 0 <= i && count == |data| - i >= 0 && i % 2 == 0
      invariant s + WordSum(data[i..]) == init + WordSum(data) && s <= 0xffff + i / 2 * 0xffff
    {
      assert data[i..][2..] == data[i + 2..];
      s := (s + Word(data[i], data[i + 1])) % U32;
      i := i + 2;
      count := count - 2;
    }
    if count > 0 {
      s := (s + data[i] as int) % U32;
    }
    assert count == 0 ==> data[i..] == [];
    assert s == init + WordSum(data);
    while s / U16 > 0
      invariant Fold(s) == Fold(init + WordSum(data))
      decreases s
    {
      FoldOnce(s);
      s := s % U16 + s / U16;
    }
    FoldDone(s);
    sum := Complement(s);
  }

  lemma {:induction false} FoldOnce(s: nat)
    requires s / U16 > 0
    ensures Fold(s % U16 + s / U16) == Fold(s) && s % U16 + s / U16 < s
  {
  }

  lemma {:induction false} FoldDone(s: nat)
    requires s < U16
    ensures Fold(s) == s
  {
  }

  /** A folded part may be summed on. */
  lemma {:induction false} FoldChain(a: nat, b: nat)
    ensures Fold(Fold(a) + b) == Fold(a + b)
  {
    hide Fold;
    var f := Fold(a);
  }

  /** Chaining through the uncomplemented checksum of an even part is summing the concatenation. */
  lemma {:induction false} ChainIsConcatenation(a: seq<Byte>, b: seq<Byte>)
    requires |a| % 2 == 0
    ensures Fold(Fold(WordSum(a)) + WordSum(b)) == Fold(WordSum(a + b))
  {
    SumConcat(a, b);
    FoldChain(WordSum(a), WordSum(b));
  }

  lemma {:induction false} SumConcat(a: seq<Byte>, b: seq<Byte>)
    requires |a| % 2 == 0
    ensures WordSum(a + b) == WordSum(a) + WordSum(b)
  {
    if a == [] {
      assert a + b == b;
    } else {
      SumConcat(a[2..], b);
      assert (a + b)[2..] == a[2..] + b;
    }
  }

  // ----- headers -----

  /** A segment with its checksum field, two bytes at even position `at`, set to `c`. */
  function Patched(segment: seq<Byte>, at: nat, c: nat): (r: seq<Byte>)
    requires at + 1 < |segment| && c < U16
    ensures |r| == |segment|
  {
    segment[at := c % 256][at + 1 := c / 256]
  }

  lemma {:induction false} PatchedSum(segment: seq<Byte>, at: nat, c: nat)
    requires at % 2 == 0 && at + 1 < |segment| && c < U16
    ensures WordSum(Patched(segment, at, c)) == WordSum(Patched(segment, at, 0)) + c
  {
    if at == 0 {
      assert Patched(segment, 0, c)[2..] == Patched(segment, 0, 0)[2..] == segment[2..];
    } else {
      PatchedSum(segment[2..], at - 2, c);
      assert Patched(segment, at, c)[2..] == Patched(segment[2..], at - 2, c);
      assert Patched(segment, at, 0)[2..] == Patched(segment[2..], at - 2, 0);
    }
  }

  /** udp_output and tcp_output_segment: the checksum is taken with the field zero and then stored. */
  method Seal(pseudo: seq<Byte>, segment: seq<Byte>, at: nat) returns (r: seq<Byte>)
    requires |pseudo| < U16 && |segment| < U16 && at % 2 == 0 && at + 1 < |segment|
    ensures |r| == |segment| && exists c: nat :: c < U16 && r == Patched(segment, at, c)
    ensures Verifies(pseudo, r)
  {
    hide Fold, WordSum;
    var p := Cksum16(pseudo, 0);
    var psum := Complement(p);
    var zeroed := Patched(segment, at, 0);
    var c := Cksum16(zeroed, psum);
    r := Patched(segment, at, c);
    PatchedSum(segment, at, c);
    Sealed(psum + WordSum(zeroed), c);
  }

  /** What udp_input and tcp_input compute is zero. */
  ghost predicate Verifies(pseudo: seq<Byte>, segment: seq<Byte>)
  {
    Complement(Fold(Fold(WordSum(pseudo)) + WordSum(segment))) == 0
  }

  lemma {:induction false} Sealed(sum: nat, c: nat)
    requires c == Complement(Fold(sum))
    ensures Fold(sum + c) == 0xffff
  {
    hide Fold;
    var f := Fold(sum);
  }

  method Verify(pseudo: seq<Byte>, segment: seq<Byte>) returns (ok: bool)
    requires |pseudo| < U16 && |segment| < U16
    ensures ok <==> Verifies(pseudo, segment)
  {
    var p := Cksum16(pseudo, 0);
    var sum := Cksum16(segment, Complement(p));
    ok := sum == 0;
  }

  /** Verification accepts exactly what sums to a positive multiple of 65535; so a change goes unnoticed iff
      it leaves the sum the same modulo 65535 and does not zero everything. */
  lemma {:induction false} VerifiesIff(pseudo: seq<Byte>, segment: seq<Byte>)
    ensures Verifies(pseudo, segment) <==>
            var t := WordSum(pseudo) + WordSum(segment); t > 0 && t % 0xffff == 0
  {
    hide Fold, WordSum;
    FoldChain(WordSum(pseudo), WordSum(segment));
  }
}
