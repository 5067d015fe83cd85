/** The connectivity recorder: three wrapping counters and one aggregated state. */
module Connectivity {
  import opened Prelude

  datatype State = Idle | Connecting | Ready | TransientFailure | Shutdown

  /** The recorder's counters as a value. */
  datatype Counters = Counters(ready: uint64, connecting: uint64, failing: uint64)

  const ZERO := Counters(0, 0, 0)

  function Bump(c: Counters, s: State, delta: uint64): Counters {
    match s
    case Ready => c.(ready := Add64(c.ready, delta))
    case Connecting => c.(connecting := Add64(c.connecting, delta))
    case TransientFailure => c.(failing := Add64(c.failing, delta))
    case _ => c
  }

  /** Subtracting one is adding 2^64 - 1, as the source does it. */
  function Transition(c: Counters, from: State, to: State): Counters {
    Bump(Bump(c, from, TWO_64 - 1), to, 1)
  }

  function Evaluate(c: Counters): State {
    if c.ready > 0 then Ready else if c.connecting > 0 then Connecting else TransientFailure
  }

  class Recorder {
    var cur: State
    var numReady: uint64
    var numConnecting: uint64
    var numTransientFailure: uint64

    function Counts(): Counters
      reads this
    {
      Counters(numReady, numConnecting, numTransientFailure)
    }

    constructor ()
      ensures cur == Idle && Counts() == ZERO
    {
      cur, numReady, numConnecting, numTransientFailure := Idle, 0, 0, 0;
    }

    method RecordTransition(oldState: State, newState: State)
      modifies this
      ensures Counts() == Transition(old(Counts()), oldState, newState)
      ensures cur == Evaluate(Counts())
    {
      var states := [oldState, newState];
      for idx := 0 to 2
        invariant Counts() == match idx
                              case 0 => old(Counts())
                              case 1 => Bump(old(Counts()), oldState, TWO_64 - 1)
                              case _ => Transition(old(Counts()), oldState, newState)
      {
        var updateVal := Add64(2 * idx, -1);
        match states[idx] {
          case Ready => numReady := Add64(numReady, updateVal);
          case Connecting => numConnecting := Add64(numConnecting, updateVal);
          case TransientFailure => numTransientFailure := Add64(numTransientFailure, updateVal);
          case _ =>
        }
      }
      if numReady > 0 {
        cur := Ready;
      } else if numConnecting > 0 {
        cur := Connecting;
      } else {
        cur := TransientFailure;
      }
    }
  }

  // ---- what the counters count --------------------------------------------------------------

  function InState<K>(m: map<K, State>, s: State): set<K> {
    set k | k in m && m[k] == s
  }

  /** Every counter holds the number of entries of `m` in its state. */
  ghost predicate Counted<K>(c: Counters, m: map<K, State>) {
    && c.ready == |InState(m, Ready)|
    && c.connecting == |InState(m, Connecting)|
    && c.failing == |InState(m, TransientFailure)|
  }

  /** The aggregated state computed from scratch. */
  function Aggregate<K>(m: map<K, State>): State {
    if exists k :: k in m && m[k] == Ready then Ready
    else if exists k :: k in m && m[k] == Connecting then Connecting
    else TransientFailure
  }

  lemma InStateUpdate<K>(m: map<K, State>, k: K, s: State, t: State)
    requires k in m
    ensures |InState(m[k := s], t)|
         == |InState(m, t)| - (if m[k] == t then 1 else 0) + (if s == t then 1 else 0)
  {
    var before, after := InState(m, t), InState(m[k := s], t);
    var others := before - {k};
    assert after == if s == t then others + {k} else others;
    assert before == if m[k] == t then others + {k} else others;
  }

  lemma InStateRemove<K>(m: map<K, State>, k: K, t: State)
    requires k in m
    ensures |InState(m - {k}, t)| == |InState(m, t)| - (if m[k] == t then 1 else 0)
  {
    assert InState(m - {k}, t) == InState(m, t) - {k};
  }

  lemma InStateBounded<K>(m: map<K, State>, t: State)
    ensures |InState(m, t)| <= |m.Keys|
  {
    SubsetCard(InState(m, t), m.Keys);
  }

  lemma SubsetCard<K>(a: set<K>, b: set<K>)
    requires a <= b
    ensures |a| <= |b|
  {
    assert b == a + (b - a);
  }

  /** The map after `k` moves to `s`; a Shutdown entry is dropped. */
  function Move<K>(m: map<K, State>, k: K, s: State): map<K, State> {
    if s == Shutdown then m - {k} else m[k := s]
  }

  lemma MoveCounts<K>(m: map<K, State>, k: K, s: State, t: State)
    requires k in m && t != Shutdown && |m| < TWO_64
    ensures |InState(Move(m, k, s), t)|
         == |InState(m, t)| - (if m[k] == t then 1 else 0) + (if s == t then 1 else 0)
    ensures |InState(Move(m, k, s), t)| < TWO_64
    ensures m[k] == t ==> |InState(m, t)| > 0
  {
    var m' := Move(m, k, s);
    if s == Shutdown { InStateRemove(m, k, t); } else { InStateUpdate(m, k, s, t); }
    SubsetCard(m'.Keys, m.Keys);
    InStateBounded(m', t);
    if m[k] == t { assert k in InState(m, t); }
  }

  /** One recorded transition keeps the counters exact, with no counter passing below zero. */
  lemma TransitionCounts<K>(c: Counters, m: map<K, State>, k: K, s: State)
    requires Counted(c, m) && k in m && m[k] != Shutdown && |m| < TWO_64
    ensures Counted(Transition(c, m[k], s), Move(m, k, s))
    ensures match m[k]
            case Ready => c.ready > 0
            case Connecting => c.connecting > 0
            case TransientFailure => c.failing > 0
            case _ => true
  {
    hide InState, Move, Transition;
    CountMoved(c, m, k, s, Ready);
    CountMoved(c, m, k, s, Connecting);
    CountMoved(c, m, k, s, TransientFailure);
  }

  predicate Kept(t: State) {
    t == Ready || t == Connecting || t == TransientFailure
  }

  function CountOf(c: Counters, t: State): uint64
    requires Kept(t)
  {
    match t
    case Ready => c.ready
    case Connecting => c.connecting
    case _ => c.failing
  }

  /** Down by 2^64 - 1 for the state left, up by one for the state entered. */
  lemma CountAfter(c: Counters, was: State, s: State, t: State)
    requires Kept(t)
    ensures var left := if was == t then Add64(CountOf(c, t), TWO_64 - 1) else CountOf(c, t);
            CountOf(Transition(c, was, s), t) == if s == t then Add64(left, 1) else left
  {
    hide Add64;
  }

  lemma Down(x: uint64)
    requires x > 0
    ensures Add64(x, TWO_64 - 1) == x - 1
  {
  }

  lemma Up(x: uint64)
    requires x + 1 < TWO_64
    ensures Add64(x, 1) == x + 1
  {
  }

  lemma CountMoved<K>(c: Counters, m: map<K, State>, k: K, s: State, t: State)
    requires Kept(t) && CountOf(c, t) == |InState(m, t)| && k in m && |m| < TWO_64
    ensures CountOf(Transition(c, m[k], s), t) == |InState(Move(m, k, s), t)|
    ensures m[k] == t ==> CountOf(c, t) > 0
  {
    hide InState, Move, Transition, Add64;
    MoveCounts(m, k, s, t);
    CountAfter(c, m[k], s, t);
    var x := CountOf(c, t);
    if m[k] == t {
      Down(x);
      if s == t {
        Up(x - 1);
      }
    } else if s == t {
      Up(x);
    }
  }

  /** Exact counters give the from-scratch aggregate. */
  lemma EvaluateIsAggregate<K>(c: Counters, m: map<K, State>)
    requires Counted(c, m)
    ensures Evaluate(c) == Aggregate(m)
  {
    forall s ensures |InState(m, s)| > 0 <==> exists k :: k in m && m[k] == s {
      if |InState(m, s)| > 0 {
        var k :| k in InState(m, s);
      }
      if k :| k in m && m[k] == s {
        assert k in InState(m, s);
      }
    }
  }

  /** A fresh Idle entry changes neither the counts nor the aggregate. */
  lemma IdleIsNotCounted<K>(c: Counters, m: map<K, State>, k: K)
    requires k !in m && Counted(c, m)
    ensures Counted(c, m[k := Idle]) && Aggregate(m[k := Idle]) == Aggregate(m)
  {
    var m' := m[k := Idle];
    assert InState(m', Ready) == InState(m, Ready);
    assert InState(m', Connecting) == InState(m, Connecting);
    assert InState(m', TransientFailure) == InState(m, TransientFailure);
    EvaluateIsAggregate(c, m);
    EvaluateIsAggregate(c, m');
  }
}
