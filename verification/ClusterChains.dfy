/** Cluster chains of a FAT32 volume (kernel/fat.cpp): lists linked through an array of cluster numbers. */
module ClusterChains {
  import opened Basics

  const END_OF_CHAIN: nat := 0x0fffffff

  predicate IsEndOfClusterchain(cluster: nat)
  {
    cluster >= 0x0ffffff8
  }

  /** No entry of the table is numbered like an end mark. */
  predicate FatOk(fat: seq<nat>)
  {
    2 <= |fat| <= 0x0ffffff8
  }

  /** Every cluster of `path` links to the next one. */
  ghost predicate Path(fat: seq<nat>, path: seq<nat>)
  {
    && (forall i | 0 <= i < |path| :: 2 <= path[i] < |fat|)
    && (forall i | 0 <= i < |path| - 1 :: fat[path[i]] == path[i + 1])
  }

  /** A path that ends with an end mark. */
  ghost predicate Chain(fat: seq<nat>, chain: seq<nat>)
  {
    |chain| > 0 && Path(fat, chain) && IsEndOfClusterchain(fat[chain[|chain| - 1]])
  }

  /** The `n` lowest free clusters from `from` on, or all there are. */
  function LowestFree(fat: seq<nat>, from: nat, n: nat): (free: seq<nat>)
    ensures |free| <= n
    decreases |fat| - from
  {
    if n == 0 || from >= |fat| then []
    else if fat[from] == 0 then [from] + LowestFree(fat, from + 1, n - 1)
    else LowestFree(fat, from + 1, n)
  }

  /** The table with `new` linked behind `tail` and an end mark at the end. */
  function Link(fat: seq<nat>, tail: nat, new_: seq<nat>): seq<nat>
    requires tail < |fat| && forall i | 0 <= i < |new_| :: new_[i] < |fat|
    decreases |new_|
  {
    if new_ == [] then fat[tail := END_OF_CHAIN] else Link(fat[tail := new_[0]], new_[0], new_[1..])
  }

  function Last(s: seq<nat>): nat
    requires s != []
  {
    s[|s| - 1]
  }

  // ----- chains have no cycles -----

  lemma {:induction false} SameRest(fat: seq<nat>, chain: seq<nat>, i: nat, j: nat, k: nat)
    requires Path(fat, chain) && i < j && j + k < |chain| && chain[i] == chain[j]
    ensures chain[i + k] == chain[j + k]
  {
    if k > 0 { SameRest(fat, chain, i, j, k - 1); }
  }

  lemma {:induction false} InnerEntry(fat: seq<nat>, chain: seq<nat>, i: nat)
    requires FatOk(fat) && Path(fat, chain) && i + 1 < |chain|
    ensures fat[chain[i]] == chain[i + 1] && !IsEndOfClusterchain(fat[chain[i]])
  {
  }

  lemma {:induction false} EntryNonzero(fat: seq<nat>, chain: seq<nat>, i: nat)
    requires FatOk(fat) && Chain(fat, chain) && i < |chain|
    ensures fat[chain[i]] != 0
  {
    if i + 1 < |chain| { InnerEntry(fat, chain, i); }
  }

  /** A chain meets no cluster twice. */
  lemma {:induction false} ChainDistinct(fat: seq<nat>, chain: seq<nat>)
    requires FatOk(fat) && Chain(fat, chain)
    ensures Distinct(chain)
  {
    forall i, j | 0 <= i < j < |chain|
      ensures chain[i] != chain[j]
    {
      if chain[i] == chain[j] {
        SameRest(fat, chain, i, j, |chain| - 1 - j);
        InnerEntry(fat, chain, i + |chain| - 1 - j);
      }
    }
  }

  lemma {:induction false} FromSame(fat: seq<nat>, c: seq<nat>, d: seq<nat>)
    requires FatOk(fat) && Chain(fat, c) && Chain(fat, d) && c[0] == d[0]
    ensures c == d
    decreases |c|
  {
    if |c| > 1 && |d| > 1 {
      FromSame(fat, c[1..], d[1..]);
      assert c == [c[0]] + c[1..] && d == [d[0]] + d[1..];
    } else if |c| > 1 {
      InnerEntry(fat, c, 0);
    } else if |d| > 1 {
      InnerEntry(fat, d, 0);
    } else {
      assert c == [c[0]] && d == [d[0]];
    }
  }

  // ----- free clusters -----

  /** Free clusters from `from` on, in ascending order. */
  ghost predicate Frees(fat: seq<nat>, from: nat, free: seq<nat>)
  {
    && (forall i | 0 <= i < |free| :: from <= free[i] < |fat| && fat[free[i]] == 0)
    && (forall i, j | 0 <= i < j < |free| :: free[i] < free[j])
  }

  lemma {:induction false} FreesCons(fat: seq<nat>, from: nat, free: seq<nat>)
    requires from < |fat| && fat[from] == 0 && Frees(fat, from + 1, free)
    ensures Frees(fat, from, [from] + free)
  {
  }

  lemma {:induction false} FreesWeaken(fat: seq<nat>, from: nat, free: seq<nat>)
    requires Frees(fat, from + 1, free)
    ensures Frees(fat, from, free)
  {
  }

  lemma {:induction false} FreeAre(fat: seq<nat>, from: nat, n: nat)
    ensures Frees(fat, from, LowestFree(fat, from, n))
    decreases |fat| - from
  {
    hide Frees;
    if n == 0 || from >= |fat| {
      NoFrees(fat, from);
    } else if fat[from] == 0 {
      FreeAre(fat, from + 1, n - 1);
      FreesCons(fat, from, LowestFree(fat, from + 1, n - 1));
    } else {
      FreeAre(fat, from + 1, n);
      FreesWeaken(fat, from, LowestFree(fat, from + 1, n));
    }
  }

  lemma {:induction false} NoFrees(fat: seq<nat>, from: nat)
    ensures Frees(fat, from, [])
  {
  }

  /** Every lower free cluster is taken first. */
  lemma {:induction false} FreeLowest(fat: seq<nat>, from: nat, n: nat, c: nat)
    requires from <= c < |fat| && fat[c] == 0
    ensures var free := LowestFree(fat, from, n); c in free || (|free| == n && forall i | 0 <= i < n :: free[i] < c)
    decreases |fat| - from
  {
    if n > 0 && from < |fat| && from != c {
      if fat[from] == 0 { FreeLowest(fat, from + 1, n - 1, c); } else { FreeLowest(fat, from + 1, n, c); }
    }
  }

  lemma {:induction false} FreeStable(fat: seq<nat>, from: nat, n: nat, c: nat, v: nat)
    requires c < |fat| && (c < from || (fat[c] != 0 && v != 0))
    ensures LowestFree(fat[c := v], from, n) == LowestFree(fat, from, n)
    decreases |fat| - from
  {
    if n > 0 && from < |fat| {
      if fat[from] == 0 { FreeStable(fat, from + 1, n - 1, c, v); } else { FreeStable(fat, from + 1, n, c, v); }
    }
  }

  // ----- linking -----

  /** Behind a path, linking new clusters makes a chain of both. */
  lemma {:induction false} LinkChain(fat: seq<nat>, path: seq<nat>, new_: seq<nat>)
    requires path != [] && Path(fat, path) && Distinct(path + new_)
    requires forall i | 0 <= i < |new_| :: 2 <= new_[i] < |fat|
    ensures Chain(Link(fat, Last(path), new_), path + new_)
    decreases |new_|
  {
    var tail := Last(path);
    if new_ == [] {
      assert path + new_ == path;
      assert path[|path| - 1] == tail;
    } else {
      var fat1 := fat[tail := new_[0]];
      PathGrows(fat, path, new_[0]) by { assert (path + new_)[|path|] == new_[0]; PrefixDistinct(path, new_); }
      assert path + [new_[0]] + new_[1..] == path + new_;
      LinkChain(fat1, path + [new_[0]], new_[1..]);
    }
  }

  lemma {:induction false} PrefixDistinct(a: seq<nat>, b: seq<nat>)
    requires Distinct(a + b)
    ensures Distinct(a)
  {
    assert forall i | 0 <= i < |a| :: (a + b)[i] == a[i];
  }

  lemma {:induction false} PathGrows(fat: seq<nat>, path: seq<nat>, c: nat)
    requires path != [] && Path(fat, path) && Distinct(path) && 2 <= c < |fat|
    ensures Path(fat[Last(path) := c], path + [c])
  {
  }

  /** Only the old tail and the new clusters get other entries. */
  lemma {:induction false} LinkFrame(fat: seq<nat>, tail: nat, new_: seq<nat>, c: nat)
    requires tail < |fat| && c < |fat| && c != tail && c !in new_ && forall i | 0 <= i < |new_| :: new_[i] < |fat|
    ensures |Link(fat, tail, new_)| == |fat| && Link(fat, tail, new_)[c] == fat[c]
    decreases |new_|
  {
    if new_ != [] {
      assert new_[0] in new_;
      LinkFrame(fat[tail := new_[0]], new_[0], new_[1..], c);
    }
  }

  lemma {:induction false} LinkSize(fat: seq<nat>, tail: nat, new_: seq<nat>)
    requires tail < |fat| && forall i | 0 <= i < |new_| :: new_[i] < |fat|
    ensures |Link(fat, tail, new_)| == |fat|
    decreases |new_|
  {
    if new_ != [] { LinkSize(fat[tail := new_[0]], new_[0], new_[1..]); }
  }

  /** A chain disjoint from what is linked stays a chain. */
  lemma {:induction false} OtherChain(fat: seq<nat>, tail: nat, new_: seq<nat>, d: seq<nat>)
    requires FatOk(fat) && Chain(fat, d) && tail < |fat| && tail !in d
    requires forall i | 0 <= i < |new_| :: new_[i] < |fat| && fat[new_[i]] == 0
    ensures Chain(Link(fat, tail, new_), d)
  {
    var fat1 := Link(fat, tail, new_);
    LinkSize(fat, tail, new_);
    forall i | 0 <= i < |d|
      ensures fat1[d[i]] == fat[d[i]]
    {
      EntryNonzero(fat, d, i);
      assert d[i] in d && d[i] !in new_;
      LinkFrame(fat, tail, new_, d[i]);
    }
  }

  /** Free clusters belong to no chain. */
  lemma {:induction false} FreeOutside(fat: seq<nat>, chain: seq<nat>, c: nat)
    requires FatOk(fat) && Chain(fat, chain) && c < |fat| && fat[c] == 0
    ensures c !in chain
  {
    forall i | 0 <= i < |chain|
      ensures chain[i] != c
    {
      EntryNonzero(fat, chain, i);
    }
  }

  /** Extending a chain: the chain becomes itself and the lowest free clusters, every disjoint chain stays. */
  lemma {:induction false} Extends(fat: seq<nat>, chain: seq<nat>, n: nat)
    requires FatOk(fat) && Chain(fat, chain)
    ensures var new_ := LowestFree(fat, 2, n);
            (forall i | 0 <= i < |new_| :: new_[i] < |fat|) && Chain(Link(fat, Last(chain), new_), chain + new_)
            && FatOk(Link(fat, Last(chain), new_))
  {
    var new_ := LowestFree(fat, 2, n);
    FreeAre(fat, 2, n);
    ChainDistinct(fat, chain);
    forall i | 0 <= i < |new_|
      ensures new_[i] !in chain
    {
      FreeOutside(fat, chain, new_[i]);
    }
    LinkSize(fat, Last(chain), new_);
    LinkChain(fat, chain, new_);
  }

  // ----- counting free clusters -----

  ghost function FreeSet(fat: seq<nat>): set<nat>
  {
    set c: nat | c < |fat| && c >= 2 && fat[c] == 0
  }

  function Elements(s: seq<nat>): set<nat>
  {
    set c | c in s
  }

  lemma {:induction false} FewElements(s: seq<nat>)
    ensures |Elements(s)| <= |s|
    ensures Distinct(s) ==> |Elements(s)| == |s|
  {
    if s != [] {
      FewElements(s[1..]);
      assert Elements(s) == {s[0]} + Elements(s[1..]);
    }
  }

  lemma {:induction false} FewerThan(a: set<nat>, b: set<nat>)
    requires a <= b
    ensures |a| <= |b|
  {
    if a != {} {
      var x :| x in a;
      FewerThan(a - {x}, b - {x});
    }
  }

  lemma {:induction false} EnoughFree(fat: seq<nat>, n: nat)
    requires |FreeSet(fat)| >= n
    ensures |LowestFree(fat, 2, n)| == n
  {
    var free := LowestFree(fat, 2, n);
    if |free| < n {
      forall c | c in FreeSet(fat)
        ensures c in Elements(free)
      {
        FreeLowest(fat, 2, n, c);
      }
      FewerThan(FreeSet(fat), Elements(free));
      FewElements(free);
    }
  }

  /** Linking uses up no more than the clusters linked. */
  lemma {:induction false} FreeAfter(fat: seq<nat>, tail: nat, n: nat)
    requires tail < |fat| && fat[tail] != 0
    ensures var new_ := LowestFree(fat, 2, n);
            (forall i | 0 <= i < |new_| :: new_[i] < |fat|) && |FreeSet(Link(fat, tail, new_))| >= |FreeSet(fat)| - |new_|
  {
    var new_ := LowestFree(fat, 2, n);
    FreeAre(fat, 2, n);
    LinkSize(fat, tail, new_);
    forall c | c in FreeSet(fat) - Elements(new_)
      ensures c in FreeSet(Link(fat, tail, new_))
    {
      LinkFrame(fat, tail, new_, c);
    }
    FewerThan(FreeSet(fat) - Elements(new_), FreeSet(Link(fat, tail, new_)));
    FewElements(new_);
  }

  /** Taking the lowest free cluster leaves the others in order. */
  lemma {:induction false} TakeLowest(fat: seq<nat>, from: nat, first: nat, v: nat, n: nat)
    requires from <= first < |fat| && fat[first] == 0 && v != 0 && forall c | from <= c < first :: fat[c] != 0
    ensures LowestFree(fat, from, n + 1) == [first] + LowestFree(fat, first + 1, n)
    ensures LowestFree(fat[first := v], from, n) == LowestFree(fat, first + 1, n)
    decreases first - from
  {
    if from < first {
      TakeLowest(fat, from + 1, first, v, n);
    } else {
      FreeStable(fat, first + 1, n, first, v);
    }
  }

  /** A free cluster becomes a chain of its own. */
  lemma {:induction false} NewChain(fat: seq<nat>, first: nat)
    requires FatOk(fat) && 2 <= first < |fat| && fat[first] == 0
    ensures FatOk(fat[first := END_OF_CHAIN]) && Chain(fat[first := END_OF_CHAIN], [first])
    ensures FreeSet(fat[first := END_OF_CHAIN]) == FreeSet(fat) - {first}
  {
  }
}
