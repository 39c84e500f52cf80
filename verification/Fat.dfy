/** The FAT32 volume and its file descriptors (kernel/fat.cpp, kernel/fat.hpp). */
module Fat {
  import opened Basics
  import opened ClusterChains
  import opened WritePlans
  import opened FileBytes

  class Volume {
    const bytesPerCluster: nat
    const fat: array<nat>
    const content: array<seq<Byte>>

    constructor (bytesPerCluster: nat, clusters: nat)
      requires bytesPerCluster > 0 && 2 <= clusters <= 0x0ffffff8
      ensures Valid() && fresh(fat) && fresh(content) && this.bytesPerCluster == bytesPerCluster && fat.Length == clusters
      ensures forall c: nat | c < clusters :: fat[c] == 0 && content[c] == seq(bytesPerCluster, _ => 0)
    {
      this.bytesPerCluster := bytesPerCluster;
      fat := new nat[clusters](_ => 0);
      content := new seq<Byte>[clusters](_ => seq(bytesPerCluster, _ => 0));
    }

    ghost predicate Valid()
      reads fat, content
    {
      fat.Length == content.Length && FatOk(fat[..]) && Sized(content[..], bytesPerCluster)
    }

    method NextCluster(cluster: nat) returns (next: nat)
      requires cluster < fat.Length
      ensures next == if IsEndOfClusterchain(fat[cluster]) then END_OF_CHAIN else fat[cluster]
      ensures next < 0x0ffffff8 ==> next == fat[cluster]
      ensures fat[cluster] >= 0x0ffffff8 ==> next == 0x0fffffff
    {
      next := fat[cluster];
      if IsEndOfClusterchain(next) {
        return END_OF_CHAIN;
      }
    }

    /** Walks to the end of the chain that `cluster`, its member number `at`, belongs to and links the `n`
        lowest free clusters behind it. */
    method ExtendCluster(cluster: nat, n: nat, ghost chain: seq<nat>, ghost at: nat) returns (last: nat)
      requires Valid() && Chain(fat[..], chain) && at < |chain| && cluster == chain[at]
      requires |FreeSet(fat[..])| >= n
      modifies fat
      ensures var new_ := LowestFree(old(fat[..]), 2, n);
              && |new_| == n && (forall i | 0 <= i < n :: new_[i] < |old(fat[..])|)
              && fat[..] == Link(old(fat[..]), Last(chain), new_) && last == Last(chain + new_)
      ensures Valid() && Chain(fat[..], chain + LowestFree(old(fat[..]), 2, n))
      ensures |FreeSet(fat[..])| >= |FreeSet(old(fat[..]))| - n
    {
      ghost var fat0 := fat[..];
      ghost var new_ := LowestFree(fat0, 2, n);
      EnoughFree(fat0, n);
      Extends(fat0, chain, n);
      EntryNonzero(fat0, chain, |chain| - 1);
      FreeAfter(fat0, Last(chain), n);
      var eoc, j := cluster, at;
      while !IsEndOfClusterchain(fat[eoc])
        invariant j < |chain| && eoc == chain[j] && fat[..] == fat0
        decreases |chain| - j
      {
        eoc, j := fat[eoc], j + 1;
      }
      if j + 1 < |chain| { InnerEntry(fat0, chain, j); }
      last := LinkFree(eoc, n);
    }

    /** The candidate loop of ExtendCluster. */
    method LinkFree(tail: nat, n: nat) returns (last: nat)
      requires tail < fat.Length && fat[tail] != 0 && |LowestFree(fat[..], 2, n)| == n
      modifies fat
      ensures var new_ := LowestFree(old(fat[..]), 2, n);
              && (forall i | 0 <= i < |new_| :: new_[i] < |old(fat[..])|)
              && fat[..] == Link(old(fat[..]), tail, new_) && last == Last([tail] + new_)
    {
      var done: nat, current: nat, candidate: nat := 0, tail, 2;
      ghost var fat0, new_ := fat[..], LowestFree(fat[..], 2, n);
      FreeAre(fat0, 2, n);
      ghost var todo := new_;
      while done < n
        invariant done <= n && current < fat.Length && (fat[current] != 0 || (2 <= current < candidate)) && candidate >= 2
        invariant todo == LowestFree(fat[..], candidate, n - done) && |todo| == n - done
        invariant forall i | 0 <= i < |todo| :: todo[i] < fat.Length
        invariant Link(fat[..], current, todo) == Link(fat0, tail, new_)
        invariant Last([current] + todo) == Last([tail] + new_)
        decreases fat.Length - candidate
      {
        if fat[candidate] == 0 {
          FreeStable(fat[..], candidate + 1, n - done - 1, current, candidate);
          ghost var before := fat[..];
          fat[current] := candidate;
          assert fat[..] == before[current := candidate];
          assert todo == [candidate] + LowestFree(before, candidate + 1, n - done - 1);
          assert todo[1..] == LowestFree(before, candidate + 1, n - done - 1);
          assert ([current] + todo)[1..] == [candidate] + todo[1..];
          current := candidate;
          done := done + 1;
          todo := todo[1..];
        }
        candidate := candidate + 1;
      }
      fat[current] := END_OF_CHAIN;
      return current;
    }

    /** The lowest free cluster. */
    method FirstFree() returns (first: nat)
      requires fat.Length >= 2 && FreeSet(fat[..]) != {}
      ensures 2 <= first < fat.Length && fat[first] == 0 && forall c | 2 <= c < first :: fat[c] != 0
    {
      ghost var free :| free in FreeSet(fat[..]);
      first := 2;
      while true
        invariant 2 <= first <= free < fat.Length && forall c | 2 <= c < first :: fat[c] != 0
        decreases free - first
      {
        if fat[first] == 0 {
          break;
        }
        first := first + 1;
      }
    }

    /** A new chain of `n` clusters, or of one if `n` is 0. */
    method AllocateClusterChain(n: nat) returns (first: nat, ghost chain: seq<nat>)
      requires Valid() && |FreeSet(fat[..])| >= n && FreeSet(fat[..]) != {}
      modifies fat
      ensures Valid() && Chain(fat[..], chain) && chain[0] == first && |chain| == if n > 1 then n else 1
      ensures chain == LowestFree(old(fat[..]), 2, |chain|)
      ensures forall c | 0 <= c < fat.Length && c !in chain :: fat[c] == old(fat[c])
      ensures |FreeSet(fat[..])| >= |FreeSet(old(fat[..]))| - |chain|
    {
      hide FreeSet, Chain, Sized, Link;
      ghost var fat0 := fat[..];
      first := FirstFree();
      fat[first] := END_OF_CHAIN;
      assert fat[..] == fat0[first := END_OF_CHAIN];
      NewChain(fat0, first);
      TakeLowest(fat0, 2, first, END_OF_CHAIN, if n > 1 then n - 1 else 0);
      chain := [first];
      if n > 1 {
        ghost var fat1, more := fat[..], LowestFree(fat[..], 2, n - 1);
        var last := ExtendCluster(first, n - 1, chain, 0);
        chain := chain + more;
        Untouched(fat1, first, more);
      }
    }
  }

  lemma {:induction false} Untouched(fat: seq<nat>, first: nat, more: seq<nat>)
    requires first < |fat| && forall i | 0 <= i < |more| :: more[i] < |fat|
    ensures |Link(fat, first, more)| == |fat|
    ensures forall c | 0 <= c < |fat| && c !in [first] + more :: Link(fat, first, more)[c] == fat[c]
  {
    LinkSize(fat, first, more);
    forall c | 0 <= c < |fat| && c !in [first] + more
      ensures Link(fat, first, more)[c] == fat[c]
    {
      LinkFrame(fat, first, more, c);
    }
  }
}
