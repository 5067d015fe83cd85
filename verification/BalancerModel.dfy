/** The client balancer as a value, its events, and what every run keeps. */
module BalancerModel {
  import opened Prelude
  import opened Connectivity
  import opened RoundRobin

  /** What a picker can return, without its position. */
  datatype PickerView = Err(err: PickError) | Offers(subConns: map<SubConn, Address>)

  /** The balancer's fields, followed by what it has asked of its ClientConn: the handles it was
      given, the handles it removed, and the (state, picker) pairs it published. */
  datatype Bal = Bal(
    addrToSc: map<Address, SubConn>,
    scToAddr: map<SubConn, Address>,
    scToSt: map<SubConn, State>,
    counters: Counters,
    cur: State,
    picker: PickerView,
    seen: set<SubConn>,
    removed: multiset<SubConn>,
    published: seq<(State, PickerView)>)

  const INITIAL := Bal(map[], map[], map[], ZERO, Idle, Err(ErrNoSubConnAvailable), {}, multiset{}, [])

  // ---- events -------------------------------------------------------------------------------

  /** `grants[i]` is what NewSubConn answers if it is asked for `addrs[i]`. */
  datatype Event =
    | Resolved(addrs: seq<Address>, grants: seq<Option<SubConn>>, failed: bool)
    | Changed(sc: SubConn, state: State)

  function ResolveOne(b: Bal, addr: Address, grant: Option<SubConn>): Bal {
    if addr in b.addrToSc || grant.None? then b
    else b.(addrToSc := b.addrToSc[addr := grant.value],
            scToAddr := b.scToAddr[grant.value := addr],
            scToSt := b.scToSt[grant.value := Idle],
            seen := b.seen + {grant.value})
  }

  function ResolveFirst(b: Bal, addrs: seq<Address>, grants: seq<Option<SubConn>>, n: nat): Bal
    requires n <= |addrs| == |grants|
  {
    if n == 0 then b else ResolveOne(ResolveFirst(b, addrs, grants, n - 1), addrs[n - 1], grants[n - 1])
  }

  function HandlesOf(m: map<Address, SubConn>, addrs: set<Address>): set<SubConn> {
    set a | a in addrs && a in m :: m[a]
  }

  /** Drops every address that was not resolved; the dropped handles stay in the other maps. */
  function Prune(b: Bal, resolved: set<Address>): Bal {
    var stale := set a | a in b.addrToSc && a !in resolved;
    b.(addrToSc := b.addrToSc - stale,
       removed := b.removed + multiset(HandlesOf(b.addrToSc, stale)))
  }

  function HandleResolved(b: Bal, addrs: seq<Address>, grants: seq<Option<SubConn>>, failed: bool): Bal
    requires |addrs| == |grants|
  {
    if failed then b
    else Prune(ResolveFirst(b, addrs, grants, |addrs|), set a | a in addrs)
  }

  /** The handle is what its address currently maps to. */
  predicate Holds(addrToSc: map<Address, SubConn>, scToAddr: map<SubConn, Address>, sc: SubConn) {
    sc in scToAddr && scToAddr[sc] in addrToSc && addrToSc[scToAddr[sc]] == sc
  }

  predicate Live(b: Bal, sc: SubConn) {
    Holds(b.addrToSc, b.scToAddr, sc)
  }

  /** The picker that a rebuild makes: the live ready handles, or the failure picker. */
  function Rebuild(addrToSc: map<Address, SubConn>, scToAddr: map<SubConn, Address>,
                   scToSt: map<SubConn, State>, cur: State): PickerView
  {
    if cur == TransientFailure then Err(ErrTransientFailure)
    else Offers(map sc | sc in scToSt && scToSt[sc] == Ready && Holds(addrToSc, scToAddr, sc) :: scToAddr[sc])
  }

  function Rebuilt(b: Bal): PickerView {
    Rebuild(b.addrToSc, b.scToAddr, b.scToSt, b.cur)
  }

  /** The picker is rebuilt only when readiness of the handle or failure of the aggregate flips. */
  function HandleChange(b: Bal, sc: SubConn, s: State): Bal {
    if sc !in b.scToSt then b
    else
      var was := b.scToSt[sc];
      var counters := Transition(b.counters, was, s);
      var moved := b.(scToAddr := if s == Shutdown then b.scToAddr - {sc} else b.scToAddr,
                      scToSt := Move(b.scToSt, sc, s),
                      counters := counters,
                      cur := Evaluate(counters));
      var picker :=
        if (s == Ready) != (was == Ready)
           || (moved.cur == TransientFailure) != (b.cur == TransientFailure)
        then Rebuilt(moved) else b.picker;
      moved.(picker := picker, published := b.published + [(moved.cur, picker)])
  }

  function Apply(b: Bal, e: Event): Bal
    requires Legal(b, e)
  {
    match e
    case Resolved(addrs, grants, failed) => HandleResolved(b, addrs, grants, failed)
    case Changed(sc, s) => HandleChange(b, sc, s)
  }

  // ---- what gRPC guarantees -----------------------------------------------------------------

  /** NewSubConn fails or hands out a handle it never handed out before. */
  predicate FreshGrants(seen: set<SubConn>, addrs: seq<Address>, grants: seq<Option<SubConn>>) {
    && |grants| == |addrs|
    && (forall i :: 0 <= i < |grants| && grants[i].Some? ==> grants[i].value !in seen)
    && (forall i, j :: 0 <= i < j < |grants| && grants[i].Some? ==> grants[i] != grants[j])
  }

  /** Shutdown is reported only for a handle that was removed. */
  predicate Legal(b: Bal, e: Event) {
    match e
    case Resolved(addrs, grants, _) => FreshGrants(b.seen, addrs, grants)
    case Changed(sc, s) => s == Shutdown ==> sc in b.removed
  }

  ghost predicate LegalRun(b: Bal, es: seq<Event>)
    decreases |es|
  {
    es == [] || (Legal(b, es[0]) && LegalRun(Apply(b, es[0]), es[1..]))
  }

  ghost function Run(b: Bal, es: seq<Event>): Bal
    requires LegalRun(b, es)
    decreases |es|
  {
    if es == [] then b else Run(Apply(b, es[0]), es[1..])
  }

  // ---- invariants ---------------------------------------------------------------------------

  /** `addrToSc` inverts into `scToAddr`; the two handle maps have the same keys. */
  ghost predicate MapsAgree(b: Bal) {
    && (forall a :: a in b.addrToSc ==> b.addrToSc[a] in b.scToAddr && b.scToAddr[b.addrToSc[a]] == a)
    && b.scToAddr.Keys == b.scToSt.Keys
  }

  /** Each handle ever granted is live or was removed exactly once; a handle still tracked is not
      shut down. */
  ghost predicate RemovedOnce(b: Bal) {
    && b.scToSt.Keys <= b.seen
    && (forall sc :: sc in b.seen ==> b.removed[sc] == if Live(b, sc) then 0 else 1)
    && (forall sc :: sc in b.removed ==> sc in b.seen)
    && (forall sc :: sc in b.scToSt ==> b.scToSt[sc] != Shutdown)
  }

  /** The wrapping counters are exact and the aggregate is the recomputed one, from the first
      accepted transition on. */
  ghost predicate Recorded(b: Bal) {
    && Counted(b.counters, b.scToSt)
    && (b.published != [] ==> b.cur == Aggregate(b.scToSt))
    && (b.published == [] ==> b.cur == Idle && b.counters == ZERO && b.picker == Err(ErrNoSubConnAvailable))
  }

  /** The picker offers only ready handles, offers every live ready one, is the failure picker
      exactly when the aggregate is, and is what gRPC was last told. */
  ghost predicate PickerFresh(b: Bal) {
    && (b.picker.Offers? ==>
          forall sc :: sc in b.picker.subConns ==>
            sc in b.scToSt && b.scToSt[sc] == Ready && sc in b.scToAddr && b.picker.subConns[sc] == b.scToAddr[sc])
    && (forall sc :: sc in b.scToSt && b.scToSt[sc] == Ready && Live(b, sc) ==>
          b.picker.Offers? && sc in b.picker.subConns)
    && (b.picker == Err(ErrTransientFailure) <==> b.cur == TransientFailure)
    && (b.published != [] ==> b.published[|b.published| - 1] == (b.cur, b.picker))
  }

  ghost predicate Inv(b: Bal) {
    MapsAgree(b) && RemovedOnce(b) && Recorded(b) && PickerFresh(b)
  }

  // ---- every event keeps them ---------------------------------------------------------------

  lemma HandlesBounded(s: set<SubConn>)
    ensures |s| < TWO_64
  {
    AtMost(s, TWO_64 - 1);
  }

  lemma {:induction false} AtMost(s: set<int>, n: nat)
    requires forall x :: x in s ==> 1 <= x <= n
    ensures |s| <= n
  {
    if n == 0 {
      forall x | x in s ensures false {
      }
      assert s == {};
    } else {
      AtMost(s - {n}, n - 1);
    }
  }

  /** A handle granted for a new address is live; no other handle changes. */
  lemma GrantedLives(b: Bal, addr: Address, sc: SubConn)
    requires MapsAgree(b) && b.scToSt.Keys <= b.seen && addr !in b.addrToSc && sc !in b.seen
    ensures MapsAgree(ResolveOne(b, addr, Some(sc)))
    ensures forall k :: Live(ResolveOne(b, addr, Some(sc)), k) <==> Live(b, k) || k == sc
  {
  }

  lemma GrantedPicker(b: Bal, addr: Address, sc: SubConn)
    requires MapsAgree(b) && b.scToSt.Keys <= b.seen && addr !in b.addrToSc && sc !in b.seen
    requires PickerFresh(b)
    ensures PickerFresh(ResolveOne(b, addr, Some(sc)))
  {
    GrantedLives(b, addr, sc);
  }

  lemma GrantedRemoved(b: Bal, addr: Address, sc: SubConn)
    requires MapsAgree(b) && RemovedOnce(b) && addr !in b.addrToSc && sc !in b.seen
    ensures RemovedOnce(ResolveOne(b, addr, Some(sc)))
  {
    GrantedLives(b, addr, sc);
    hide MapsAgree, Live;
  }

  lemma ResolveOneKeeps(b: Bal, addr: Address, grant: Option<SubConn>)
    requires Inv(b) && (grant.Some? ==> grant.value !in b.seen)
    ensures Inv(ResolveOne(b, addr, grant))
  {
    if addr !in b.addrToSc && grant.Some? {
      GrantedLives(b, addr, grant.value);
      GrantedPicker(b, addr, grant.value);
      GrantedRemoved(b, addr, grant.value);
      IdleIsNotCounted(b.counters, b.scToSt, grant.value);
      hide MapsAgree, RemovedOnce, PickerFresh, Counted, Aggregate, Live;
    }
  }

  lemma {:induction false} ResolveFirstSeen(b: Bal, addrs: seq<Address>, grants: seq<Option<SubConn>>, n: nat)
    requires n <= |addrs| && FreshGrants(b.seen, addrs, grants)
    ensures forall i :: n <= i < |grants| && grants[i].Some? ==>
              grants[i].value !in ResolveFirst(b, addrs, grants, n).seen
  {
    if n > 0 {
      ResolveFirstSeen(b, addrs, grants, n - 1);
    }
  }

  lemma {:induction false} ResolveFirstKeeps(b: Bal, addrs: seq<Address>, grants: seq<Option<SubConn>>, n: nat)
    requires Inv(b) && n <= |addrs| && FreshGrants(b.seen, addrs, grants)
    ensures Inv(ResolveFirst(b, addrs, grants, n))
  {
    hide Inv, ResolveOne;
    if n > 0 {
      var mid := ResolveFirst(b, addrs, grants, n - 1);
      ResolveFirstKeeps(b, addrs, grants, n - 1);
      ResolveFirstSeen(b, addrs, grants, n - 1);
      ResolveOneKeeps(mid, addrs[n - 1], grants[n - 1]);
    }
  }

  lemma NoHandles(m: map<Address, SubConn>)
    ensures HandlesOf(m, {}) == {}
  {
  }

  lemma Injective(b: Bal)
    requires MapsAgree(b)
    ensures forall a, c :: a in b.addrToSc && c in b.addrToSc && b.addrToSc[a] == b.addrToSc[c] ==> a == c
  {
  }

  lemma HandlesGrow(m: map<Address, SubConn>, addrs: set<Address>, a: Address)
    requires a in m && a !in addrs && forall x :: x in m && m[x] == m[a] ==> x == a
    ensures multiset(HandlesOf(m, addrs + {a})) == multiset(HandlesOf(m, addrs)) + multiset{m[a]}
  {
    assert HandlesOf(m, addrs + {a}) == HandlesOf(m, addrs) + {m[a]};
    assert m[a] !in HandlesOf(m, addrs);
  }

  lemma PruneKeeps(b: Bal, resolved: set<Address>)
    requires Inv(b)
    ensures Inv(Prune(b, resolved))
  {
    var b' := Prune(b, resolved);
    var stale := set a | a in b.addrToSc && a !in resolved;
    var dropped := HandlesOf(b.addrToSc, stale);
    forall sc | sc in b.seen
      ensures b'.removed[sc] == if Live(b', sc) then 0 else 1
    {
      assert sc in dropped <==> Live(b, sc) && !Live(b', sc) by {
        if Live(b, sc) && !Live(b', sc) {
          assert b.scToAddr[sc] in stale;
        }
      }
    }
    assert forall sc :: Live(b', sc) ==> Live(b, sc);
  }

  lemma ChangeKeepsMaps(b: Bal, sc: SubConn, s: State)
    requires Inv(b) && Legal(b, Changed(sc, s))
    ensures MapsAgree(HandleChange(b, sc, s))
  {
  }

  /** No state change makes a handle live or not live. */
  lemma ChangeLive(b: Bal, sc: SubConn, s: State)
    requires MapsAgree(b) && RemovedOnce(b) && Legal(b, Changed(sc, s))
    ensures forall k :: Live(HandleChange(b, sc, s), k) <==> Live(b, k)
  {
    hide Transition, Evaluate, Rebuilt;
    if sc in b.scToSt && s == Shutdown {
      assert sc in b.seen && b.removed[sc] > 0;
    }
  }

  lemma ChangeKeepsRemoved(b: Bal, sc: SubConn, s: State)
    requires MapsAgree(b) && RemovedOnce(b) && Legal(b, Changed(sc, s))
    ensures RemovedOnce(HandleChange(b, sc, s))
  {
    ChangeLive(b, sc, s);
    hide Transition, Evaluate, Rebuilt, Live;
  }

  lemma ChangeKeepsRecorded(b: Bal, sc: SubConn, s: State)
    requires RemovedOnce(b) && Recorded(b) && sc in b.scToSt
    ensures Recorded(HandleChange(b, sc, s))
  {
    var b' := HandleChange(b, sc, s);
    HandlesBounded(b.scToSt.Keys);
    TransitionCounts(b.counters, b.scToSt, sc, s);
    EvaluateIsAggregate(b'.counters, b'.scToSt);
    hide Counted, Transition, Evaluate, Rebuilt, Aggregate;
  }

  lemma ChangeKeeps(b: Bal, sc: SubConn, s: State)
    requires Inv(b) && Legal(b, Changed(sc, s))
    ensures Inv(HandleChange(b, sc, s))
  {
    if sc in b.scToSt {
      hide MapsAgree, RemovedOnce, Recorded, PickerFresh, HandleChange;
      ChangeKeepsMaps(b, sc, s);
      ChangeKeepsRemoved(b, sc, s);
      ChangeKeepsRecorded(b, sc, s);
      ChangeKeepsPicker(b, sc, s);
    }
  }

  /** A picker that was just rebuilt is fresh. */
  lemma RebuiltIsFresh(b: Bal)
    requires MapsAgree(b) && b.picker == Rebuilt(b) && b.cur == Aggregate(b.scToSt)
    requires b.published != [] && b.published[|b.published| - 1] == (b.cur, b.picker)
    ensures PickerFresh(b)
  {
    hide MapsAgree;
  }

  /** A picker stays fresh while no handle becomes ready or stops being ready, none becomes or stops being
      live, and the aggregate neither starts nor stops failing. */
  lemma KeptIsFresh(b: Bal, b': Bal)
    requires PickerFresh(b) && b'.picker == b.picker
    requires forall k :: (k in b'.scToSt && b'.scToSt[k] == Ready) <==> (k in b.scToSt && b.scToSt[k] == Ready)
    requires forall k :: k in b.scToSt && b.scToSt[k] == Ready && k in b.scToAddr ==>
               k in b'.scToAddr && b'.scToAddr[k] == b.scToAddr[k]
    requires forall k :: Live(b', k) <==> Live(b, k)
    requires (b'.cur == TransientFailure) == (b.cur == TransientFailure)
    requires b'.published != [] && b'.published[|b'.published| - 1] == (b'.cur, b'.picker)
    ensures PickerFresh(b')
  {
    hide Live;
  }

  lemma ChangeKeepsPicker(b: Bal, sc: SubConn, s: State)
    requires Inv(b) && Legal(b, Changed(sc, s)) && sc in b.scToSt
    ensures PickerFresh(HandleChange(b, sc, s))
  {
    hide MapsAgree, RemovedOnce, Counted, Aggregate, PickerFresh, Live, Transition, Evaluate, Rebuilt;
    var b' := HandleChange(b, sc, s);
    ChangeLive(b, sc, s);
    ChangeKeepsMaps(b, sc, s);
    ChangeKeepsRecorded(b, sc, s);
    assert b'.cur == Aggregate(b'.scToSt);
    if (s == Ready) != (b.scToSt[sc] == Ready) || (b'.cur == TransientFailure) != (b.cur == TransientFailure) {
      RebuiltAgain(b, sc, s);
      RebuiltIsFresh(b');
    } else {
      KeptIsFresh(b, b');
    }
  }

  /** The picker made from the moved maps is the one a rebuild would make now. */
  lemma RebuiltAgain(b: Bal, sc: SubConn, s: State)
    requires sc in b.scToSt
    requires var b' := HandleChange(b, sc, s);
             (s == Ready) != (b.scToSt[sc] == Ready) || (b'.cur == TransientFailure) != (b.cur == TransientFailure)
    ensures HandleChange(b, sc, s).picker == Rebuilt(HandleChange(b, sc, s))
  {
    hide Rebuild, Transition, Evaluate;
  }

  lemma ApplyKeeps(b: Bal, e: Event)
    requires Inv(b) && Legal(b, e)
    ensures Inv(Apply(b, e))
  {
    match e
    case Resolved(addrs, grants, failed) =>
      ResolveFirstKeeps(b, addrs, grants, |addrs|);
      PruneKeeps(ResolveFirst(b, addrs, grants, |addrs|), set a | a in addrs);
    case Changed(sc, s) =>
      ChangeKeeps(b, sc, s);
  }

  /** Safety over every legal run from any state that satisfies the invariants. */
  lemma {:induction false} RunKeeps(b: Bal, es: seq<Event>)
    requires Inv(b) && LegalRun(b, es)
    ensures Inv(Run(b, es))
    decreases |es|
  {
    if es != [] {
      ApplyKeeps(b, es[0]);
      RunKeeps(Apply(b, es[0]), es[1..]);
    }
  }

  /** In every reachable state of a balancer as it is built, all the invariants hold. */
  lemma EveryReachableState(es: seq<Event>)
    requires LegalRun(INITIAL, es)
    ensures Inv(Run(INITIAL, es))
  {
    assert Counted(ZERO, INITIAL.scToSt) by {
      forall t ensures InState(INITIAL.scToSt, t) == {} {
      }
    }
    RunKeeps(INITIAL, es);
  }

  // ---- consequences -------------------------------------------------------------------------

  /** The counter of a tracked handle's state is positive, so no decrement wraps. */
  lemma NoDecrementWraps(es: seq<Event>, sc: SubConn)
    requires LegalRun(INITIAL, es) && sc in Run(INITIAL, es).scToSt
    ensures var b := Run(INITIAL, es);
            match b.scToSt[sc]
            case Ready => b.counters.ready > 0
            case Connecting => b.counters.connecting > 0
            case TransientFailure => b.counters.failing > 0
            case Idle => true
            case Shutdown => false
  {
    EveryReachableState(es);
    var b := Run(INITIAL, es);
    assert sc in InState(b.scToSt, b.scToSt[sc]);
  }

  /** The incrementally kept picker against one rebuilt from the maps: they offer the same live
      handles, and an error picker means a rebuild has nothing to offer. */
  lemma PickerAgreesWithRebuild(es: seq<Event>)
    requires LegalRun(INITIAL, es)
    ensures var b := Run(INITIAL, es);
            match b.picker
            case Err(ErrTransientFailure) => Rebuilt(b) == b.picker
            case Err(ErrNoSubConnAvailable) => Rebuilt(b) == Offers(map[])
            case Offers(offered) =>
              Rebuilt(b) == Offers(map sc | sc in offered && Live(b, sc) :: offered[sc])
  {
    EveryReachableState(es);
    PickerAgrees(Run(INITIAL, es));
  }

  lemma PickerAgrees(b: Bal)
    requires Inv(b)
    ensures match b.picker
            case Err(ErrTransientFailure) => Rebuilt(b) == b.picker
            case Err(ErrNoSubConnAvailable) => Rebuilt(b) == Offers(map[])
            case Offers(offered) =>
              Rebuilt(b) == Offers(map sc | sc in offered && Live(b, sc) :: offered[sc])
  {
    if b.cur != TransientFailure {
      var all := Rebuilt(b).subConns;
      match b.picker
      case Err(_) =>
        assert all == map[];
      case Offers(offered) =>
        assert all == map sc | sc in offered && Live(b, sc) :: offered[sc];
    }
  }

  /** What a resolution leaves: exactly the resolved addresses that had a handle or were granted
      one; a retained address keeps its handle, a new one gets a handle never seen before, and
      nothing stops being tracked. */
  lemma ResolutionOutcome(b: Bal, addrs: seq<Address>, grants: seq<Option<SubConn>>)
    requires Inv(b) && FreshGrants(b.seen, addrs, grants)
    ensures var b' := HandleResolved(b, addrs, grants, false);
            && (forall a :: a in b'.addrToSc <==>
                  a in addrs && (a in b.addrToSc || exists i :: 0 <= i < |addrs| && addrs[i] == a && grants[i].Some?))
            && (forall a :: a in b'.addrToSc ==>
                  if a in b.addrToSc then b'.addrToSc[a] == b.addrToSc[a] else b'.addrToSc[a] !in b.seen)
            && (forall sc :: sc in b.scToSt ==> sc in b'.scToSt && b'.scToSt[sc] == b.scToSt[sc])
            && (b'.cur, b'.picker, b'.published) == (b.cur, b.picker, b.published)
  {
    ResolveFirstOutcome(b, addrs, grants, |addrs|);
  }

  lemma {:induction false} ResolveFirstOutcome(b: Bal, addrs: seq<Address>, grants: seq<Option<SubConn>>, n: nat)
    requires n <= |addrs| && FreshGrants(b.seen, addrs, grants)
    requires b.scToSt.Keys <= b.seen
    ensures var b' := ResolveFirst(b, addrs, grants, n);
            && (forall a :: a in b'.addrToSc <==>
                  a in b.addrToSc || exists i :: 0 <= i < n && addrs[i] == a && grants[i].Some?)
            && (forall a :: a in b'.addrToSc ==>
                  if a in b.addrToSc then b'.addrToSc[a] == b.addrToSc[a] else b'.addrToSc[a] !in b.seen)
            && (forall sc :: sc in b.scToSt ==> sc in b'.scToSt && b'.scToSt[sc] == b.scToSt[sc])
            && (b'.cur, b'.picker, b'.published) == (b.cur, b.picker, b.published)
  {
    if n > 0 {
      ResolveFirstOutcome(b, addrs, grants, n - 1);
      var mid, last := ResolveFirst(b, addrs, grants, n - 1), n - 1;
      var b' := ResolveFirst(b, addrs, grants, n);
      forall a ensures a in b'.addrToSc <==>
                  a in b.addrToSc || exists i :: 0 <= i < n && addrs[i] == a && grants[i].Some?
      {
        if a in b'.addrToSc && a !in mid.addrToSc {
          assert addrs[last] == a && grants[last].Some?;
        }
      }
    }
  }

  /** The late Shutdown of a removed handle only forgets that handle: an address that came back in
      the meantime keeps its new handle, and nothing is removed twice. */
  lemma LateShutdownSparesReplacement(b: Bal, sc: SubConn)
    requires Inv(b) && sc in b.scToSt && !Live(b, sc)
    ensures var b' := HandleChange(b, sc, Shutdown);
            && b'.addrToSc == b.addrToSc && b'.removed == b.removed
            && b'.scToSt == b.scToSt - {sc} && b'.scToAddr == b.scToAddr - {sc}
            && Inv(b')
  {
    assert b.removed[sc] == 1;
    ChangeKeeps(b, sc, Shutdown);
  }

  /** The maps survive a Shutdown exactly when the handle was removed before: the guarantee asked
      of gRPC cannot be weakened. */
  lemma ShutdownNeedsRemoval(b: Bal, sc: SubConn)
    requires Inv(b) && sc in b.scToSt
    ensures MapsAgree(HandleChange(b, sc, Shutdown)) <==> sc in b.removed
  {
    if Live(b, sc) {
      var b' := HandleChange(b, sc, Shutdown);
      assert b'.addrToSc[b.scToAddr[sc]] !in b'.scToAddr;
    } else {
      LateShutdownSparesReplacement(b, sc);
    }
  }
}
