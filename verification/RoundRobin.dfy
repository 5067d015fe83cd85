/** Sub-connection handles, the pickers, and the fairness of round robin. */
module RoundRobin {
  import opened Prelude

  /** A sub-connection is a non-nil 64-bit pointer. */
  type SubConn = x: int | 1 <= x < TWO_64 witness 1

  type Address = string

  datatype PickError = ErrNoSubConnAvailable | ErrTransientFailure

  datatype Picker = ErrPicker(err: PickError) | Balanced(rb: RrBalanced)

  class RrBalanced {
    const scs: seq<SubConn>
    const scToAddr: map<SubConn, Address>
    var next: nat

    ghost predicate Valid()
      reads this
    {
      && (forall i, j :: 0 <= i < j < |scs| ==> scs[i] != scs[j])
      && (forall sc :: sc in scs <==> sc in scToAddr)
      && (next < |scs| || next == |scs| == 0)
    }

    constructor (ready: map<SubConn, Address>)
      ensures Valid() && next == 0 && scToAddr == ready
    {
      var list: seq<SubConn> := [];
      var rest := ready.Keys;
      while rest != {}
        invariant rest <= ready.Keys
        invariant forall sc :: sc in list <==> sc in ready && sc !in rest
        invariant forall i, j :: 0 <= i < j < |list| ==> list[i] != list[j]
      {
        var sc :| sc in rest;
        list := list + [sc];
        rest := rest - {sc};
      }
      scs := list;
      scToAddr := ready;
      next := 0;
    }

    method Pick() returns (r: Option<SubConn>)
      requires Valid()
      modifies this
      ensures Valid()
      ensures scs == [] ==> r == None && next == old(next)
      ensures scs != [] ==> r == Some(scs[old(next)]) && next == Following(|scs|, old(next))
    {
      var n := |scs|;
      if n == 0 {
        return None;
      }
      var cur := next;
      r := Some(scs[cur]);
      next := (next + 1) % |scs|;
    }
  }

  // ---- runs of picks ------------------------------------------------------------------------

  /** The value `next` takes after one pick. */
  function Following(n: nat, i: nat): (r: nat)
    requires i < n
    ensures r < n
  {
    if i + 1 == n then 0 else i + 1
  }

  /** The indices that `k` consecutive picks return when `next` starts at `start`. */
  function Picks(n: nat, start: nat, k: nat): (p: seq<nat>)
    requires start < n
    ensures |p| == k
    decreases k
  {
    if k == 0 then [] else [start] + Picks(n, Following(n, start), k - 1)
  }

  function Occurrences(p: seq<nat>, j: nat): nat {
    if p == [] then 0 else (if p[0] == j then 1 else 0) + Occurrences(p[1..], j)
  }

  /** How many picks pass before index `j` comes round. */
  function Wait(n: nat, start: nat, j: nat): (d: nat)
    requires start < n && j < n
    ensures d < n
  {
    if j >= start then j - start else j - start + n
  }

  lemma {:induction false} ProductBeyond(n: nat, d: int)
    ensures d > 0 ==> n * d >= n
    ensures d < 0 ==> n * d + n <= 0
    decreases if d < 0 then -d else d
  {
    if d > 1 {
      ProductBeyond(n, d - 1);
      assert n * d == n * (d - 1) + n;
    } else if d < -1 {
      ProductBeyond(n, d + 1);
      assert n * d == n * (d + 1) - n;
    }
  }

  lemma QuotientUnique(k: nat, n: nat, q: int, r: int)
    requires 0 < n && k == n * q + r && 0 <= r < n
    ensures k / n == q && k % n == r
  {
    var d := k / n - q;
    assert n * d == r - k % n;
    ProductBeyond(n, d);
  }

  lemma OneLess(k: nat, n: nat)
    requires 0 < n && 0 < k
    ensures if k % n == 0 then (k - 1) / n == k / n - 1 && (k - 1) % n == n - 1
            else (k - 1) / n == k / n && (k - 1) % n == k % n - 1
  {
    var q, r := k / n, k % n;
    if r == 0 {
      assert n * (q - 1) == n * q - n;
      QuotientUnique(k - 1, n, q - 1, n - 1);
    } else {
      QuotientUnique(k - 1, n, q, r - 1);
    }
  }

  /** Exact share of every index among any `k` consecutive picks: the floor of k/n, plus one for
      the indices met in the last, partial round. */
  lemma {:induction false} ExactShare(n: nat, start: nat, k: nat, j: nat)
    requires start < n && j < n
    ensures Occurrences(Picks(n, start, k), j)
         == k / n + (if Wait(n, start, j) < k % n then 1 else 0)
    decreases k
  {
    if k > 0 {
      assert Picks(n, start, k)[1..] == Picks(n, Following(n, start), k - 1);
      ExactShare(n, Following(n, start), k - 1, j);
      OneLess(k, n);
    }
  }

  /** The i-th of any consecutive picks, for i within one round. */
  lemma {:induction false} NthPick(n: nat, start: nat, k: nat, i: nat)
    requires start < n && i < k && i < n
    ensures Picks(n, start, k)[i] == if start + i < n then start + i else start + i - n
    decreases k
  {
    if i > 0 {
      NthPick(n, Following(n, start), k - 1, i - 1);
    }
  }

  /** No index repeats within n consecutive picks. */
  lemma DistinctWithinRound(n: nat, start: nat, k: nat, i: nat, j: nat)
    requires start < n && i < j < k && j - i < n
    ensures Picks(n, start, k)[i] != Picks(n, start, k)[j]
    decreases k
  {
    if i > 0 {
      DistinctWithinRound(n, Following(n, start), k - 1, i - 1, j - 1);
    } else {
      NthPick(n, start, k, j);
    }
  }
}
