/** Positions on a ring of `n` slots, counted without end. */
module RingPositions {

  /** The slot of position `p`: behind the last slot comes the first one again. */
  function Idx(p: nat, n: nat): (i: nat)
    requires n >= 1
    ensures i < n
  {
    if p == 0 || Idx(p - 1, n) == n - 1 then 0 else Idx(p - 1, n) + 1
  }

  /** The cycle state of position `p`: it starts true and toggles with every lap. */
  predicate Cycle(p: nat, n: nat)
    requires n >= 1
  {
    if p == 0 then true else if Idx(p - 1, n) == n - 1 then !Cycle(p - 1, n) else Cycle(p - 1, n)
  }

  lemma {:induction false} NextSlot(p: nat, n: nat)
    requires n >= 1
    ensures Idx(p + 1, n) == if Idx(p, n) == n - 1 then 0 else Idx(p, n) + 1
    ensures Cycle(p + 1, n) == if Idx(p, n) == n - 1 then !Cycle(p, n) else Cycle(p, n)
  {
  }

  /** Up to one lap further. */
  lemma {:induction false} Ahead(p: nat, k: nat, n: nat)
    requires n >= 1 && k <= n
    ensures Idx(p + k, n) == if Idx(p, n) + k < n then Idx(p, n) + k else Idx(p, n) + k - n
    ensures Cycle(p + k, n) == if Idx(p, n) + k < n then Cycle(p, n) else !Cycle(p, n)
  {
    if k > 0 {
      Ahead(p, k - 1, n);
      NextSlot(p + k - 1, n);
    }
  }

  /** One lap further is the same slot with the other cycle state. */
  lemma {:induction false} NextLap(p: nat, n: nat)
    requires n >= 1
    ensures Idx(p + n, n) == Idx(p, n) && Cycle(p + n, n) == !Cycle(p, n)
  {
    Ahead(p, n, n);
  }

  /** Less than a lap apart, positions use different slots. */
  lemma {:induction false} SlotsDiffer(a: nat, b: nat, n: nat)
    requires n >= 1 && a < b < a + n
    ensures Idx(a, n) != Idx(b, n)
  {
    Ahead(a, b - a, n);
  }

  lemma {:induction false} FirstLap(p: nat, n: nat)
    requires n >= 1 && p < n
    ensures Idx(p, n) == p && Cycle(p, n)
  {
    Ahead(0, p, n);
  }
}
