/** The bit reader of apps/gviewer/stb_image.h and the decoding of symbols through the tables. */
module Inflate {
  import opened Division
  import opened Powers
  import opened HuffmanCodes
  import opened HuffmanPrefix
  import opened HuffmanTables
  import opened HuffmanBuild
  import opened BitWords

  /** The number a byte sequence stands for, first byte lowest. */
  function BytesValue(b: seq<nat>): nat
  {
    if b == [] then 0 else b[0] + 256 * BytesValue(b[1..])
  }

  /** What decoding one symbol must achieve on a stream: it yields the one symbol whose canonical code
      starts the stream and drops exactly that code; it fails iff there is no such symbol. */
  ghost predicate Decoded(lens: seq<nat>, v: nat, symbol: int, rest: nat)
  {
    if symbol == -1 then rest == v && forall i: nat :: !Matches(lens, i, v)
    else 0 <= symbol < |lens| && Matches(lens, symbol, v) && rest == High(v, lens[symbol])
  }

  class ZBuf {
    const zbuffer: seq<nat>
    var pos: nat
    var numBits: nat
    var codeBuffer: nat

    constructor (bytes: seq<nat>)
      requires forall i | 0 <= i < |bytes| :: bytes[i] < 256
      ensures Valid() && zbuffer == bytes && Stream() == BytesValue(bytes)
    {
      zbuffer, pos, numBits, codeBuffer := bytes, 0, 0, 0;
      new;
      assert zbuffer[0..] == bytes;
    }

    ghost predicate Valid()
      reads this
    {
      && pos <= |zbuffer| && numBits <= 32 && codeBuffer < Pow2(numBits)
      && forall i | 0 <= i < |zbuffer| :: zbuffer[i] < 256
    }

    ghost function Rest(): nat
      requires pos <= |zbuffer|
      reads this
    {
      BytesValue(zbuffer[pos..])
    }

    /** All bits still to come; behind the last byte the stream is zero. */
    ghost function Stream(): nat
      requires pos <= |zbuffer|
      reads this
    {
      Join(Rest(), numBits, codeBuffer)
    }

    method Get8() returns (b: nat)
      requires Valid()
      modifies this`pos
      ensures Valid() && b < 256 && old(Rest()) == b + 256 * Rest()
    {
      if pos >= |zbuffer| {
        assert zbuffer[pos..] == [];
        return 0;
      }
      b := zbuffer[pos];
      assert zbuffer[pos..][1..] == zbuffer[pos + 1..];
      pos := pos + 1;
    }

    /** Adds bytes until more than 24 bits are buffered; the stream stays the same. */
    method FillBits()
      requires Valid() && numBits <= 24
      modifies this
      ensures Valid() && numBits > 24 && Stream() == old(Stream())
    {
      hide Join, BitOr, Pow2, BytesValue;
      var more := true;
      while more
        invariant Valid() && Stream() == old(Stream())
        invariant if more then numBits <= 24 else numBits > 24
        decreases more, 32 - numBits
      {
        assert codeBuffer < Pow2(numBits);
        var b := Get8();
        AddByte(codeBuffer, numBits, b, Rest());
        codeBuffer := BitOr(codeBuffer, Join(b, numBits, 0));
        numBits := numBits + 8;
        more := numBits <= 24;
      }
    }

    /** `code_buffer >>= n; num_bits -= n` */
    method Consume(n: nat)
      requires Valid() && n <= numBits
      modifies this`codeBuffer, this`numBits
      ensures Valid() && Stream() == High(old(Stream()), n)
    {
      hide Join, High, Pow2, BytesValue;
      TakeBits(Rest(), numBits, codeBuffer, n);
      codeBuffer := High(codeBuffer, n);
      numBits := numBits - n;
    }

    /** stbi__zreceive: the next `n` bits as a number. */
    method Receive(n: nat) returns (k: nat)
      requires Valid() && n <= 25
      modifies this
      ensures Valid() && k == Low(old(Stream()), n) && Stream() == High(old(Stream()), n)
    {
      hide Join, High, Pow2, BytesValue, Low;
      if numBits < n {
        FillBits();
      }
      TakeBits(Rest(), numBits, codeBuffer, n);
      k := Low(codeBuffer, n);
      Consume(n);
    }

    /** stbi__zhuffman_decode_slowpath, for streams that start with no short code. */
    method DecodeSlow(z: ZHuffman, ghost lens: seq<nat>) returns (symbol: int)
      requires Valid() && numBits >= 16 && z.Table(lens)
      requires forall i | 0 <= i < |lens| && lens[i] <= FAST_BITS :: !Matches(lens, i, Stream())
      modifies this
      ensures Valid() && Decoded(lens, old(Stream()), symbol, Stream())
    {
      hide Join, High, Pow2, Rev, BytesValue, BitReverse, Matches, Top, Base, FirstSymbol, Accepted, SlotsHold, FastHolds;
      ghost var v := Stream();
      var k := BitReverse(codeBuffer, 16);
      Reversed(Rest(), numBits, codeBuffer);
      NoShortCode(lens, v);
      var s: nat := FAST_BITS + 1;
      while k >= z.maxcode[s]
        invariant FAST_BITS < s <= 16
        invariant Top(lens, s - 1) <= k
        decreases 16 - s
      {
        s := s + 1;
      }
      if s == 16 {
        NoCode(lens, v);
        return -1;
      }
      ghost var i := SlowFinds(lens, v, s, z.size[..], z.value[..]);
      var b: nat := High(k, 16 - s) - z.firstcode[s] + z.firstsymbol[s];
      assert z.size[b] == s && z.value[b] == i;
      Consume(s);
      symbol := z.value[b];
    }

    /** stbi__zhuffman_decode: the symbol whose code starts the stream, and -1 iff there is none. */
    method Decode(z: ZHuffman, ghost lens: seq<nat>) returns (symbol: int)
      requires Valid() && z.Table(lens)
      modifies this
      ensures Valid() && Decoded(lens, old(Stream()), symbol, Stream())
    {
      hide Join, High, Low, Pow2, BytesValue, Matches, Accepted, SlotsHold, CodesHold, FastEntry;
      if numBits < 16 {
        FillBits();
      }
      ghost var v := Stream();
      TakeBits(Rest(), numBits, codeBuffer, FAST_BITS);
      FastDecides(lens, v);
      var b := z.fast[Low(codeBuffer, FAST_BITS)];
      if b != 0 {
        Consume(b / FAST_SIZE);
        return b % FAST_SIZE;
      }
      symbol := DecodeSlow(z, lens);
    }
  }

  lemma {:induction false} Reversed(high: nat, bits: nat, low: nat)
    requires low < Pow2(bits) && 16 <= bits
    ensures BitReverse(low, 16) == Rev(Join(high, bits, low), 16) < 0x10000
  {
    hide Join, Rev, Pow2, BitReverse;
    SameStart(high, bits, low, 16);
    BitReverseIsRev(low, 16);
    RevBound(low, 16);
    Sixteen();
  }

  /** The fast entry of a stream decides whether it starts with a short code, and with which. */
  lemma {:induction false} FastDecides(lens: seq<nat>, v: nat)
    requires Lengths(lens)
    ensures Low(v, FAST_BITS) < FAST_SIZE
    ensures var e := FastEntry(lens, |lens|, Low(v, FAST_BITS));
            if e == 0 then forall i | 0 <= i < |lens| && lens[i] <= FAST_BITS :: !Matches(lens, i, v)
            else e % FAST_SIZE < |lens| && Matches(lens, e % FAST_SIZE, v)
                 && lens[e % FAST_SIZE] == e / FAST_SIZE && e / FAST_SIZE <= FAST_BITS
  {
    hide Matches, Low, FastEntry;
    LowIsMod(v, FAST_BITS);
    FastMeans(lens, |lens|, v % FAST_SIZE);
    forall i | 0 <= i < |lens| && lens[i] <= FAST_BITS
      ensures Matches(lens, i, v % FAST_SIZE) <==> Matches(lens, i, v)
    {
      ShortBits(lens, i, v);
    }
  }

  // ----- decoding undoes encoding -----

  /** The codes of `syms`, in order, in front of `tail`. */
  ghost function Encode(lens: seq<nat>, syms: seq<nat>, tail: nat): nat
    requires forall k | 0 <= k < |syms| :: syms[k] < |lens|
  {
    if syms == [] then tail
    else Join(Encode(lens, syms[1..], tail), lens[syms[0]], Rev(Code(lens, syms[0]), lens[syms[0]]))
  }

  /** The streams `vs` between which decoding gives the symbols `out`, one after the other. */
  ghost predicate DecodesTo(lens: seq<nat>, vs: seq<nat>, out: seq<int>)
  {
    |vs| == |out| + 1 && forall k | 0 <= k < |out| :: Decoded(lens, vs[k], out[k], vs[k + 1])
  }

  /** A symbol's code put in front of a stream starts it, and dropping it leaves the stream. */
  lemma {:induction false} EncodedStarts(lens: seq<nat>, i: nat, tail: nat)
    requires Lengths(lens) && Accepted(lens) && i < |lens| && lens[i] > 0
    ensures var v := Join(tail, lens[i], Rev(Code(lens, i), lens[i]));
            Matches(lens, i, v) && High(v, lens[i]) == tail
  {
    hide Join, Rev, Pow2, Code, High;
    var s, c := lens[i], Code(lens, i);
    CodeFits(lens, i);
    RevBound(c, s);
    SameStart(tail, s, Rev(c, s), s);
    RevRev(c, s);
    LowIsMod(c, s);
    Small(c, Pow2(s));
    TakeApart(tail, s, Rev(c, s));
  }

  lemma {:induction false} DecodesOne(lens: seq<nat>, i: nat, v: nat, symbol: int, rest: nat)
    requires Matches(lens, i, v) && Decoded(lens, v, symbol, rest)
    ensures symbol == i && rest == High(v, lens[i])
  {
    hide Matches;
    UniqueMatch(lens, i, symbol, v);
  }

  /** The bits of any sequence of symbols decode to that sequence, and what follows them is left. */
  lemma {:induction false} DecodesEncoded(lens: seq<nat>, syms: seq<nat>, tail: nat, vs: seq<nat>, out: seq<int>)
    requires Lengths(lens) && Accepted(lens) && |out| == |syms|
    requires forall k | 0 <= k < |syms| :: syms[k] < |lens| && lens[syms[k]] > 0
    requires DecodesTo(lens, vs, out) && vs[0] == Encode(lens, syms, tail)
    ensures |out| == |syms| && (forall k | 0 <= k < |syms| :: out[k] == syms[k]) && vs[|syms|] == tail
  {
    hide Decoded, Join, Rev, Code;
    if syms != [] {
      EncodedStarts(lens, syms[0], Encode(lens, syms[1..], tail));
      DecodesOne(lens, syms[0], vs[0], out[0], vs[1]);
      assert DecodesTo(lens, vs[1..], out[1..]);
      DecodesEncoded(lens, syms[1..], tail, vs[1..], out[1..]);
      assert forall k | 0 < k < |syms| :: out[k] == out[1..][k - 1] && syms[k] == syms[1..][k - 1];
    }
  }
}
