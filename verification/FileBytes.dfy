/** The bytes of a file as the concatenation of its clusters. */
module FileBytes {
  import opened Basics
  import opened WritePlans

  /** The contents of all clusters, each of `bpc` bytes. */
  ghost predicate Sized(content: seq<seq<Byte>>, bpc: nat)
  {
    bpc > 0 && forall c | 0 <= c < |content| :: |content[c]| == bpc
  }

  ghost predicate Within(chain: seq<nat>, n: nat)
  {
    forall i | 0 <= i < |chain| :: chain[i] < n
  }

  ghost function Flat(content: seq<seq<Byte>>, chain: seq<nat>): seq<Byte>
    requires Within(chain, |content|)
  {
    if chain == [] then [] else content[chain[0]] + Flat(content, chain[1..])
  }

  /** `s` with `d` in place of what was from position `p` on. */
  function Splice(s: seq<Byte>, p: nat, d: seq<Byte>): (r: seq<Byte>)
    requires p + |d| <= |s|
    ensures |r| == |s|
  {
    s[..p] + d + s[p + |d|..]
  }

  lemma {:induction false} FlatSize(content: seq<seq<Byte>>, chain: seq<nat>, bpc: nat)
    requires Sized(content, bpc) && Within(chain, |content|)
    ensures |Flat(content, chain)| == Start(|chain|, bpc)
  {
    if chain != [] {
      FlatSize(content, chain[1..], bpc);
      NextStart(|chain| - 1, bpc);
    }
  }

  lemma {:induction false} FlatAppend(content: seq<seq<Byte>>, a: seq<nat>, b: seq<nat>)
    requires Within(a, |content|) && Within(b, |content|)
    ensures Within(a + b, |content|) && Flat(content, a + b) == Flat(content, a) + Flat(content, b)
  {
    if a == [] {
      assert a + b == b;
    } else {
      FlatAppend(content, a[1..], b);
      assert (a + b)[1..] == a[1..] + b;
    }
  }

  /** Cluster `i` of the file holds the bytes from its start on. */
  lemma {:induction false} FlatSlice(content: seq<seq<Byte>>, chain: seq<nat>, bpc: nat, i: nat, off: nat, n: nat)
    requires Sized(content, bpc) && Within(chain, |content|) && i < |chain| && off + n <= bpc
    ensures Start(i, bpc) + off + n <= |Flat(content, chain)|
    ensures Flat(content, chain)[Start(i, bpc) + off..Start(i, bpc) + off + n] == content[chain[i]][off..off + n]
  {
    var a, b := chain[..i], chain[i + 1..];
    FlatSplit(content, chain, bpc, i);
    var f, x, y := Flat(content, a), content[chain[i]], Flat(content, b);
    assert |f| == Start(i, bpc);
    assert (f + x + y)[|f| + off..|f| + off + n] == x[off..off + n];
  }

  lemma {:induction false} FlatSplit(content: seq<seq<Byte>>, chain: seq<nat>, bpc: nat, i: nat)
    requires Sized(content, bpc) && Within(chain, |content|) && i < |chain|
    ensures Within(chain[..i], |content|) && Within(chain[i + 1..], |content|)
    ensures Flat(content, chain) == Flat(content, chain[..i]) + content[chain[i]] + Flat(content, chain[i + 1..])
    ensures |Flat(content, chain[..i])| == Start(i, bpc)
  {
    var a, m, b := chain[..i], [chain[i]], chain[i + 1..];
    assert chain == a + (m + b);
    assert m[1..] == [];
    assert Flat(content, m) == content[chain[i]] + Flat(content, []);
    FlatAppend(content, m, b);
    FlatAppend(content, a, m + b);
    FlatSize(content, a, bpc);
  }

  lemma {:induction false} FlatFrame(content: seq<seq<Byte>>, chain: seq<nat>, c: nat, cell: seq<Byte>)
    requires Within(chain, |content|) && c < |content| && c !in chain
    ensures Flat(content[c := cell], chain) == Flat(content, chain)
  {
    if chain != [] { FlatFrame(content, chain[1..], c, cell); }
  }

  /** Copying bytes into one cluster of a file copies them into the file. */
  lemma {:induction false} FlatWrite(content: seq<seq<Byte>>, chain: seq<nat>, bpc: nat, i: nat, off: nat, d: seq<Byte>)
    requires Sized(content, bpc) && Within(chain, |content|) && i < |chain| && off + |d| <= bpc
    requires forall j, k | 0 <= j < k < |chain| :: chain[j] != chain[k]
    ensures Start(i, bpc) + off + |d| <= |Flat(content, chain)|
    ensures var c := chain[i];
            Flat(content[c := Splice(content[c], off, d)], chain) == Splice(Flat(content, chain), Start(i, bpc) + off, d)
  {
    var c, a, b := chain[i], chain[..i], chain[i + 1..];
    var cell := Splice(content[c], off, d);
    FlatSplit(content, chain, bpc, i);
    FlatSplit(content[c := cell], chain, bpc, i);
    FlatFrame(content, a, c, cell);
    FlatFrame(content, b, c, cell);
  }
}
