/** The quorum backoff and how it meets round robin. */
module Backoff {
  import opened RoundRobin
  import Retry

  class GrpcClient {
    var cfgEndpoints: array<string>

    constructor ()
      ensures fresh(cfgEndpoints) && cfgEndpoints.Length == 0
    {
      cfgEndpoints := new string[0];
    }

    /** A copy: what the caller writes to it does not reach the client. */
    method Endpoints() returns (eps: array<string>)
      ensures fresh(eps) && eps[..] == cfgEndpoints[..]
    {
      eps := new string[cfgEndpoints.Length];
      for i := 0 to cfgEndpoints.Length
        invariant eps[..i] == cfgEndpoints[..i]
      {
        eps[i] := cfgEndpoints[i];
      }
      assert eps[..] == eps[..eps.Length] && cfgEndpoints[..] == cfgEndpoints[..cfgEndpoints.Length];
    }

    /** The caller's slice itself is kept; from then on attempts are paused after quorums of its length. */
    method SetEndpoints(eps: array<string>)
      modifies this
      ensures cfgEndpoints == eps
      ensures forall wait: nat, a: nat :: wait > 0 ==>
                (RoundRobinQuorumBackoff(wait, a) > 0 <==> a % Quorum(eps.Length) == 0)
    {
      cfgEndpoints := eps;
    }

    /** The wait before an attempt: `wait` (already jittered) after each quorum of attempts. */
    function RoundRobinQuorumBackoff(wait: nat, attempt: nat): nat
      reads this
    {
      QuorumWait(cfgEndpoints.Length, wait, attempt)
    }
  }

  function Quorum(n: nat): (q: nat)
    ensures 2 * (q - 1) <= n < 2 * q && (n > 0 ==> q <= n)
  {
    n / 2 + 1
  }

  function QuorumWait(n: nat, wait: nat, attempt: nat): nat {
    if attempt % Quorum(n) == 0 then wait else 0
  }

  /** The wait drawn for each attempt, should it wait; jitter makes each its own, but none is zero. */
  type Jittered = nat -> nat

  ghost predicate Positive(wait: Jittered) {
    forall a :: wait(a) > 0
  }

  /** How many of the first m attempts are preceded by a wait; attempt 0 never is. */
  function Waits(n: nat, wait: Jittered, m: nat): nat {
    if m <= 1 then 0 else Waits(n, wait, m - 1) + (if QuorumWait(n, wait(m - 1), m - 1) > 0 then 1 else 0)
  }

  /** m attempts wait exactly (m-1)/(n/2+1) times. */
  lemma {:induction false} WaitsExactly(n: nat, wait: Jittered, m: nat)
    requires Positive(wait) && m > 0
    ensures Waits(n, wait, m) == (m - 1) / Quorum(n)
  {
    if m > 1 {
      var q, k := Quorum(n), m - 1;
      WaitsStep(n, wait, k);
      hide Quorum, Waits;
      WaitsExactly(n, wait, k);
      OneLess(k, q);
    }
  }

  lemma WaitsStep(n: nat, wait: Jittered, k: nat)
    requires Positive(wait) && k > 0
    ensures Waits(n, wait, k + 1) == Waits(n, wait, k) + (if k % Quorum(n) == 0 then 1 else 0)
  {
    hide Quorum;
  }

  /** How many of the first m attempts of a call were preceded by a wait. */
  function Slept(env: Retry.Env, m: nat): nat {
    if m <= 1 then 0 else Slept(env, m - 1) + (if env.backoff(m - 1) > 0 then 1 else 0)
  }

  lemma {:induction false} SleptIsWaits(env: Retry.Env, n: nat, wait: Jittered, m: nat)
    requires forall a :: env.backoff(a) == QuorumWait(n, wait(a), a)
    ensures Slept(env, m) == Waits(n, wait, m)
    decreases m
  {
    if m > 1 {
      SleptIsWaits(env, n, wait, m - 1);
    }
  }

  /** A whole unary call with the client's own backoff: it invokes m >= 1 times with exactly
      (m-1)/(n/2+1) full waits, and the context can cut it short only between two quorums. */
  lemma CallWaits(client: GrpcClient, opts: Retry.Options, env: Retry.Env, wait: Jittered)
    requires Positive(wait) && forall a :: env.backoff(a) == client.RoundRobinQuorumBackoff(wait(a), a)
    ensures var log, q := Retry.Unary(opts, env).log, Quorum(client.cfgEndpoints.Length);
            && |log| >= 1 && Slept(env, |log|) == (|log| - 1) / q
            && (|log| < opts.max && Retry.Retriable(log[|log| - 1], opts) ==> |log| % q == 0)
  {
    var n, m := client.cfgEndpoints.Length, |Retry.Unary(opts, env).log|;
    Retry.UnaryShape(opts, env);
    hide Retry.Unary, Retry.Retriable;
    assert forall a :: env.backoff(a) == QuorumWait(n, wait(a), a);
    SleptIsWaits(env, n, wait, m);
    WaitsExactly(n, wait, m);
  }

  /** With the n endpoints in the picker and no other picks in between, the attempts of one full
      block between two waits reach Quorum(n) different sub-connections. */
  lemma BlockReachesQuorum(n: nat, start: nat, m: nat, block: nat)
    requires 0 < n && start < n && (block + 1) * Quorum(n) <= m
    ensures forall a :: block * Quorum(n) < a < (block + 1) * Quorum(n) ==> a % Quorum(n) != 0
    ensures |set a | block * Quorum(n) <= a < (block + 1) * Quorum(n) :: Picks(n, start, m)[a]| == Quorum(n)
  {
    var q := Quorum(n);
    var lo := block * q;
    assert (block + 1) * q == lo + q;
    forall a | lo < a < lo + q ensures a % q != 0 {
      QuotientUnique(a, q, block, a - lo);
    }
    var p := Picks(n, start, m);
    forall i, j | lo <= i < j < lo + q ensures p[i] != p[j] {
      DistinctWithinRound(n, start, m, i, j);
    }
    DistinctCard(p, lo, lo + q);
  }

  lemma {:induction false} DistinctCard(p: seq<nat>, lo: nat, hi: nat)
    requires lo <= hi <= |p| && forall i, j :: lo <= i < j < hi ==> p[i] != p[j]
    ensures |set a | lo <= a < hi :: p[a]| == hi - lo
  {
    var s := set a | lo <= a < hi :: p[a];
    if lo == hi {
      assert s == {};
    } else {
      DistinctCard(p, lo, hi - 1);
      var s' := set a | lo <= a < hi - 1 :: p[a];
      assert s == s' + {p[hi - 1]};
    }
  }
}
