/** What the balancer's maps, aggregate and picker must be, computed from the events alone. */
module BalancerEvents {
  import opened Prelude
  import opened Connectivity
  import opened RoundRobin
  import opened BalancerModel

  // ---- the reference -----------------------------------------------------------------------------

  /** The first successful answer among the first n, for this address. */
  function FirstGrant(addrs: seq<Address>, grants: seq<Option<SubConn>>, a: Address, n: nat): Option<SubConn>
    requires n <= |addrs| && n <= |grants|
  {
    if n == 0 then None
    else if FirstGrant(addrs, grants, a, n - 1).Some? then FirstGrant(addrs, grants, a, n - 1)
    else if addrs[n - 1] == a then grants[n - 1] else None
  }

  /** The handle that the address has: kept while it stays resolved, otherwise the first one granted for it
      when it is resolved. */
  function HandleOf(es: seq<Event>, a: Address): Option<SubConn>
    decreases |es|
  {
    if es == [] then None
    else
      var before := es[..|es| - 1];
      match es[|es| - 1]
      case Changed(_, _) => HandleOf(before, a)
      case Resolved(addrs, grants, failed) =>
        if failed || |addrs| != |grants| then HandleOf(before, a)
        else if a !in addrs then None
        else if HandleOf(before, a).Some? then HandleOf(before, a)
        else FirstGrant(addrs, grants, a, |addrs|)
  }

  /** The last event is the resolution that made this handle, for this address. */
  predicate MadeNow(es: seq<Event>, sc: SubConn, a: Address) {
    && es != [] && es[|es| - 1].Resolved? && !es[|es| - 1].failed
    && HandleOf(es[..|es| - 1], a).None? && HandleOf(es, a) == Some(sc)
  }

  /** The handle was made for this address. */
  predicate MadeFor(es: seq<Event>, sc: SubConn, a: Address)
    decreases |es|
  {
    es != [] && (MadeNow(es, sc, a) || MadeFor(es[..|es| - 1], sc, a))
  }

  /** The state of a handle that still exists: Idle when it is made, then whatever gRPC reports for it, until
      it reports Shutdown. */
  ghost function StateOf(es: seq<Event>, sc: SubConn): Option<State>
    decreases |es|
  {
    if es == [] then None
    else
      var before := StateOf(es[..|es| - 1], sc);
      if exists a :: MadeNow(es, sc, a) then Some(Idle)
      else match es[|es| - 1]
        case Resolved(_, _, _) => before
        case Changed(k, s) =>
          if k != sc || before.None? then before else if s == Shutdown then None else Some(s)
  }

  ghost predicate SomeIn(es: seq<Event>, s: State) {
    exists sc :: StateOf(es, sc) == Some(s)
  }

  ghost function AggregateOf(es: seq<Event>): State {
    if SomeIn(es, Ready) then Ready else if SomeIn(es, Connecting) then Connecting else TransientFailure
  }

  /** How many reports were about a handle that exists. */
  ghost function Accepted(es: seq<Event>): nat
    decreases |es|
  {
    if es == [] then 0
    else
      var before := es[..|es| - 1];
      Accepted(before) + (if es[|es| - 1].Changed? && StateOf(before, es[|es| - 1].sc).Some? then 1 else 0)
  }

  // ---- the balancer agrees with it ------------------------------------------------------------------

  ghost predicate HandlesMatch(b: Bal, es: seq<Event>) {
    forall a :: HandleOf(es, a) == if a in b.addrToSc then Some(b.addrToSc[a]) else None
  }

  ghost predicate StatesMatch(b: Bal, es: seq<Event>) {
    forall sc :: StateOf(es, sc) == if sc in b.scToSt then Some(b.scToSt[sc]) else None
  }

  /** The tracked handles have the address they were made for, and only handles once granted were made. */
  ghost predicate AddressesMatch(b: Bal, es: seq<Event>) {
    && (forall sc, a :: MadeFor(es, sc, a) ==> sc in b.seen)
    && (forall sc, a :: sc in b.scToAddr ==> (MadeFor(es, sc, a) <==> a == b.scToAddr[sc]))
  }

  ghost predicate Matches(b: Bal, es: seq<Event>) {
    HandlesMatch(b, es) && StatesMatch(b, es) && AddressesMatch(b, es) && |b.published| == Accepted(es)
  }

  // ---- resolutions ---------------------------------------------------------------------------------

  function Found(m: map<Address, SubConn>, a: Address): Option<SubConn> {
    if a in m then Some(m[a]) else None
  }

  lemma {:induction false} GrantIsListed(addrs: seq<Address>, grants: seq<Option<SubConn>>, a: Address, n: nat)
    requires n <= |addrs| == |grants|
    ensures FirstGrant(addrs, grants, a, n).Some? ==> a in addrs
  {
    if n > 0 {
      GrantIsListed(addrs, grants, a, n - 1);
    }
  }

  lemma {:induction false} ResolvedHandles(b: Bal, addrs: seq<Address>, grants: seq<Option<SubConn>>, n: nat)
    requires n <= |addrs| == |grants|
    ensures forall a :: Found(ResolveFirst(b, addrs, grants, n).addrToSc, a)
                     == if a in b.addrToSc then Found(b.addrToSc, a) else FirstGrant(addrs, grants, a, n)
  {
    if n > 0 {
      ResolvedHandles(b, addrs, grants, n - 1);
    }
  }

  /** The address, without a handle before, has this one now, never seen before, Idle. */
  predicate NewAt(b: Bal, b': Bal, a: Address, sc: SubConn) {
    && a !in b.addrToSc && a in b'.addrToSc && b'.addrToSc[a] == sc
    && sc !in b.seen && sc in b'.seen
    && sc in b'.scToSt && b'.scToSt[sc] == Idle && sc in b'.scToAddr && b'.scToAddr[sc] == a
  }

  /** What was tracked stays as it was. */
  ghost predicate Preserves(b: Bal, b': Bal) {
    && b.seen <= b'.seen && b'.published == b.published
    && (forall sc :: sc in b.scToSt ==> sc in b'.scToSt && b'.scToSt[sc] == b.scToSt[sc])
    && (forall sc :: sc in b.scToAddr ==> sc in b'.scToAddr && b'.scToAddr[sc] == b.scToAddr[sc])
    && (forall a :: a in b.addrToSc ==> a in b'.addrToSc && b'.addrToSc[a] == b.addrToSc[a])
  }

  ghost predicate NewAddresses(b: Bal, b': Bal) {
    forall a :: a in b'.addrToSc && a !in b.addrToSc ==> NewAt(b, b', a, b'.addrToSc[a])
  }

  ghost predicate NewHandles(b: Bal, b': Bal) {
    forall sc :: sc in b'.scToSt && sc !in b.scToSt ==> sc in b'.scToAddr && NewAt(b, b', b'.scToAddr[sc], sc)
  }

  ghost predicate Grows(b: Bal, b': Bal) {
    Preserves(b, b') && NewAddresses(b, b') && NewHandles(b, b')
  }

  lemma {:induction false} ResolutionGrows(b: Bal, addrs: seq<Address>, grants: seq<Option<SubConn>>, n: nat)
    requires Inv(b) && n <= |addrs| && FreshGrants(b.seen, addrs, grants)
    ensures Grows(b, ResolveFirst(b, addrs, grants, n))
  {
    hide Inv, Preserves, NewAddresses, NewHandles, ResolveOne;
    if n == 0 {
      GrowsNone(b);
    } else {
      ResolutionGrows(b, addrs, grants, n - 1);
      ResolveFirstKeeps(b, addrs, grants, n - 1);
      ResolveFirstSeen(b, addrs, grants, n - 1);
      GrowsOne(b, ResolveFirst(b, addrs, grants, n - 1), addrs[n - 1], grants[n - 1]);
    }
  }

  lemma GrowsNone(b: Bal)
    ensures Grows(b, b)
  {
  }

  lemma GrowsOne(b: Bal, mid: Bal, addr: Address, grant: Option<SubConn>)
    requires Inv(mid) && Grows(b, mid) && (grant.Some? ==> grant.value !in mid.seen)
    ensures Grows(b, ResolveOne(mid, addr, grant))
  {
    if addr !in mid.addrToSc && grant.Some? {
      Untracked(mid, grant.value);
      hide Inv;
      GrantPreserves(b, mid, addr, grant.value);
      GrantIsNew(b, mid, addr, grant.value);
    }
  }

  lemma Untracked(b: Bal, sc: SubConn)
    requires Inv(b) && sc !in b.seen
    ensures sc !in b.scToSt && sc !in b.scToAddr
  {
  }

  lemma GrantPreserves(b: Bal, mid: Bal, addr: Address, sc: SubConn)
    requires Preserves(b, mid) && addr !in mid.addrToSc && sc !in mid.scToSt && sc !in mid.scToAddr
    ensures Preserves(b, ResolveOne(mid, addr, Some(sc)))
  {
  }

  lemma NewStays(b: Bal, mid: Bal, addr: Address, sc: SubConn, a: Address, k: SubConn)
    requires NewAt(b, mid, a, k) && addr !in mid.addrToSc && sc !in mid.seen
    ensures NewAt(b, ResolveOne(mid, addr, Some(sc)), a, k)
  {
  }

  lemma GrantIsNew(b: Bal, mid: Bal, addr: Address, sc: SubConn)
    requires Grows(b, mid) && addr !in mid.addrToSc && sc !in mid.seen
    ensures var b' := ResolveOne(mid, addr, Some(sc)); NewAddresses(b, b') && NewHandles(b, b')
  {
    var b' := ResolveOne(mid, addr, Some(sc));
    assert NewAt(b, b', addr, sc);
    hide NewAt, Preserves;
    forall a | a in b'.addrToSc && a !in b.addrToSc ensures NewAt(b, b', a, b'.addrToSc[a]) {
      if a != addr {
        NewStays(b, mid, addr, sc, a, mid.addrToSc[a]);
      }
    }
    forall k | k in b'.scToSt && k !in b.scToSt ensures k in b'.scToAddr && NewAt(b, b', b'.scToAddr[k], k) {
      if k != sc {
        NewStays(b, mid, addr, sc, mid.scToAddr[k], k);
      }
    }
  }

  // ---- every event -----------------------------------------------------------------------------------

  /** A run is a shorter run and one more event. */
  lemma {:induction false} RunOneMore(b: Bal, es: seq<Event>)
    requires LegalRun(b, es) && es != []
    ensures var init, e := es[..|es| - 1], es[|es| - 1];
            LegalRun(b, init) && Legal(Run(b, init), e) && Run(b, es) == Apply(Run(b, init), e)
    decreases |es|
  {
    hide Legal, Apply;
    var init := es[..|es| - 1];
    if |es| > 1 {
      RunOneMore(Apply(b, es[0]), es[1..]);
      assert es[1..][..|es| - 2] == init[1..] && init[0] == es[0];
    }
  }

  lemma PrunedHandles(b: Bal, resolved: set<Address>, a: Address)
    ensures Found(Prune(b, resolved).addrToSc, a) == if a in resolved then Found(b.addrToSc, a) else None
  {
  }

  lemma HandlesAfter(b: Bal, es: seq<Event>)
    requires es != [] && Legal(b, es[|es| - 1]) && HandlesMatch(b, es[..|es| - 1])
    ensures HandlesMatch(Apply(b, es[|es| - 1]), es)
  {
    match es[|es| - 1]
    case Changed(sc, s) =>
    case Resolved(addrs, grants, failed) =>
      if !failed {
        var mid, resolved := ResolveFirst(b, addrs, grants, |addrs|), set x | x in addrs;
        ResolvedHandles(b, addrs, grants, |addrs|);
        hide ResolveFirst, FirstGrant, Prune;
        forall a ensures HandleOf(es, a) == Found(Prune(mid, resolved).addrToSc, a) {
          PrunedHandles(mid, resolved, a);
        }
      }
  }

  lemma StatesAfterChange(b: Bal, es: seq<Event>)
    requires es != [] && es[|es| - 1].Changed? && Inv(b)
    requires Matches(b, es[..|es| - 1])
    ensures var b' := HandleChange(b, es[|es| - 1].sc, es[|es| - 1].state);
            StatesMatch(b', es) && AddressesMatch(b', es) && |b'.published| == Accepted(es)
  {
    hide Inv, HandleOf, Transition, Evaluate, Rebuilt;
    var init, sc, s := es[..|es| - 1], es[|es| - 1].sc, es[|es| - 1].state;
    var b' := HandleChange(b, sc, s);
    assert forall k, a :: MadeFor(es, k, a) <==> MadeFor(init, k, a);
    forall k ensures StateOf(es, k) == if k in b'.scToSt then Some(b'.scToSt[k]) else None {
      assert !exists a :: MadeNow(es, k, a);
      assert StateOf(init, k) == if k in b.scToSt then Some(b.scToSt[k]) else None;
    }
    hide StateOf, MadeFor;
  }

  lemma FailedChangesNothing(b: Bal, es: seq<Event>)
    requires es != [] && es[|es| - 1].Resolved? && es[|es| - 1].failed
    requires Matches(b, es[..|es| - 1])
    ensures Matches(b, es)
  {
    hide HandlesMatch;
    var init := es[..|es| - 1];
    assert HandlesMatch(b, es) by { FailedKeepsHandles(b, es); }
    forall k, a ensures MadeFor(es, k, a) <==> MadeFor(init, k, a) {
      assert !MadeNow(es, k, a);
    }
    forall k ensures StateOf(es, k) == StateOf(init, k) {
      assert !exists a :: MadeNow(es, k, a);
    }
    hide StateOf, MadeFor, MadeNow;
  }

  lemma FailedKeepsHandles(b: Bal, es: seq<Event>)
    requires es != [] && es[|es| - 1].Resolved? && es[|es| - 1].failed && HandlesMatch(b, es[..|es| - 1])
    ensures HandlesMatch(b, es)
  {
  }

  /** The handles made by the last event are the new ones. */
  lemma MadeIsNew(b: Bal, mid: Bal, b': Bal, es: seq<Event>, sc: SubConn, a: Address)
    requires es != [] && es[|es| - 1].Resolved? && !es[|es| - 1].failed
    requires HandlesMatch(b, es[..|es| - 1]) && HandlesMatch(b', es) && NewAddresses(b, mid)
    requires forall x :: x in b'.addrToSc ==> x in mid.addrToSc && mid.addrToSc[x] == b'.addrToSc[x]
    requires forall x :: x in mid.addrToSc && x !in b.addrToSc ==> x in b'.addrToSc
    ensures MadeNow(es, sc, a) <==> NewAt(b, mid, a, sc)
  {
    hide HandleOf;
    var init := es[..|es| - 1];
    assert HandleOf(init, a).None? <==> a !in b.addrToSc;
    assert HandleOf(es, a) == Some(sc) <==> a in b'.addrToSc && b'.addrToSc[a] == sc;
    if a in mid.addrToSc && a !in b.addrToSc {
      assert NewAt(b, mid, a, mid.addrToSc[a]);
    }
  }

  lemma TrackedWereSeen(b: Bal)
    requires Inv(b)
    ensures b.scToAddr.Keys == b.scToSt.Keys && forall k :: k in b.scToAddr ==> k in b.seen
  {
  }

  ghost predicate MadeAreNew(b: Bal, mid: Bal, es: seq<Event>) {
    forall k, a :: MadeNow(es, k, a) <==> NewAt(b, mid, a, k)
  }

  lemma MadeByResolution(b: Bal, es: seq<Event>)
    requires es != [] && es[|es| - 1].Resolved? && !es[|es| - 1].failed && Legal(b, es[|es| - 1])
    requires Inv(b) && HandlesMatch(b, es[..|es| - 1]) && HandlesMatch(Apply(b, es[|es| - 1]), es)
    ensures var e := es[|es| - 1];
            var mid := ResolveFirst(b, e.addrs, e.grants, |e.addrs|);
            Grows(b, mid) && MadeAreNew(b, mid, es)
  {
    var addrs, grants := es[|es| - 1].addrs, es[|es| - 1].grants;
    var mid, b' := ResolveFirst(b, addrs, grants, |addrs|), Apply(b, es[|es| - 1]);
    assert b' == Prune(mid, set a | a in addrs);
    ResolutionGrows(b, addrs, grants, |addrs|);
    NewStayResolved(b, addrs, grants);
    assert NewAddresses(b, mid);
    hide Inv, HandlesMatch, ResolveFirst, Apply, Legal, FreshGrants, NewAt, MadeNow, NewAddresses, Grows;
    forall k, a ensures MadeNow(es, k, a) <==> NewAt(b, mid, a, k) {
      MadeIsNew(b, mid, b', es, k, a);
    }
  }

  /** Dropping addresses changes no state and no address of a handle. */
  lemma SameTracked(mid: Bal, b': Bal, es: seq<Event>)
    requires StatesMatch(mid, es) && AddressesMatch(mid, es) && HandlesMatch(b', es) && |mid.published| == Accepted(es)
    requires b' == mid.(addrToSc := b'.addrToSc, removed := b'.removed)
    ensures Matches(b', es)
  {
    hide HandleOf, StateOf, MadeFor, Accepted;
  }

  lemma PublishesNothing(b: Bal, addrs: seq<Address>, grants: seq<Option<SubConn>>, n: nat)
    requires n <= |addrs| == |grants|
    ensures ResolveFirst(b, addrs, grants, n).published == b.published
  {
  }

  lemma StatesAfterResolution(b: Bal, es: seq<Event>)
    requires es != [] && es[|es| - 1].Resolved? && !es[|es| - 1].failed && Legal(b, es[|es| - 1])
    requires Inv(b) && Matches(b, es[..|es| - 1]) && HandlesMatch(Apply(b, es[|es| - 1]), es)
    ensures Matches(Apply(b, es[|es| - 1]), es)
  {
    var addrs, grants := es[|es| - 1].addrs, es[|es| - 1].grants;
    assert |addrs| == |grants|;
    hide Inv, HandlesMatch, ResolveFirst, StatesMatch, AddressesMatch, FreshGrants, MadeAreNew, Grows, HandlesOf;
    var mid := ResolveFirst(b, addrs, grants, |addrs|);
    MadeByResolution(b, es);
    TrackedWereSeen(b);
    ResolveFirstKeeps(b, addrs, grants, |addrs|);
    TrackedWereSeen(mid);
    StatesGrow(b, mid, es);
    AddressesGrow(b, mid, es);
    PublishesNothing(b, addrs, grants, |addrs|);
    SameTracked(mid, Apply(b, es[|es| - 1]), es);
  }

  /** The new addresses were resolved, so they are not dropped again. */
  lemma NewStayResolved(b: Bal, addrs: seq<Address>, grants: seq<Option<SubConn>>)
    requires |addrs| == |grants|
    ensures forall a :: a in ResolveFirst(b, addrs, grants, |addrs|).addrToSc && a !in b.addrToSc ==> a in addrs
  {
    ResolvedHandles(b, addrs, grants, |addrs|);
    forall a | a in ResolveFirst(b, addrs, grants, |addrs|).addrToSc && a !in b.addrToSc ensures a in addrs {
      GrantIsListed(addrs, grants, a, |addrs|);
    }
  }

  lemma StatesGrow(b: Bal, mid: Bal, es: seq<Event>)
    requires es != [] && es[|es| - 1].Resolved? && Grows(b, mid) && StatesMatch(b, es[..|es| - 1])
    requires MadeAreNew(b, mid, es)
    ensures StatesMatch(mid, es)
  {
    hide MadeNow;
    var init := es[..|es| - 1];
    forall k ensures StateOf(es, k) == if k in mid.scToSt then Some(mid.scToSt[k]) else None {
      if k in mid.scToSt && k !in b.scToSt {
        assert MadeNow(es, k, mid.scToAddr[k]);
      } else {
        assert StateOf(init, k) == if k in b.scToSt then Some(b.scToSt[k]) else None;
        if a :| MadeNow(es, k, a) {
          assert NewAt(b, mid, a, k);
        }
      }
    }
  }

  lemma AddressesGrow(b: Bal, mid: Bal, es: seq<Event>)
    requires es != [] && Grows(b, mid) && AddressesMatch(b, es[..|es| - 1])
    requires MadeAreNew(b, mid, es)
    requires mid.scToAddr.Keys == mid.scToSt.Keys && b.scToAddr.Keys == b.scToSt.Keys
    requires forall k :: k in b.scToAddr ==> k in b.seen
    ensures AddressesMatch(mid, es)
  {
    hide MadeNow;
    var init := es[..|es| - 1];
    assert forall k, a :: MadeFor(es, k, a) <==> MadeNow(es, k, a) || MadeFor(init, k, a);
    hide MadeFor;
    forall k, a | k in mid.scToAddr ensures MadeFor(es, k, a) <==> a == mid.scToAddr[k] {
      if k !in b.scToSt {
        assert NewAt(b, mid, mid.scToAddr[k], k);
      }
    }
  }

  // ---- the theorem ---------------------------------------------------------------------------------------

  lemma InitiallyMatches()
    ensures Matches(INITIAL, [])
  {
  }

  /** Over every legal run the maps are what the events make them: each address has its handle, each handle that
      still exists its address and the state gRPC last reported for it, and each report about such a handle
      published once. */
  lemma {:induction false} EventsDecideMaps(es: seq<Event>)
    requires LegalRun(INITIAL, es)
    ensures Inv(Run(INITIAL, es)) && Matches(Run(INITIAL, es), es)
    decreases |es|
  {
    hide Matches, Inv, LegalRun, Apply, Legal;
    if es == [] {
      InitiallyMatches();
      EveryReachableState([]);
    } else {
      var init, e := es[..|es| - 1], es[|es| - 1];
      RunOneMore(INITIAL, es);
      EventsDecideMaps(init);
      var b := Run(INITIAL, init);
      ApplyKeeps(b, e);
      hide Run;
      EventDecides(b, es);
    }
  }

  lemma EventDecides(b: Bal, es: seq<Event>)
    requires es != [] && Inv(b) && Legal(b, es[|es| - 1]) && Matches(b, es[..|es| - 1])
    ensures Matches(Apply(b, es[|es| - 1]), es)
  {
    hide Inv, Legal, HandlesMatch, StatesMatch, AddressesMatch, Accepted;
    HandlesAfter(b, es);
    match es[|es| - 1]
    case Changed(sc, s) => StatesAfterChange(b, es);
    case Resolved(_, _, failed) =>
      if failed {
        FailedChangesNothing(b, es);
      } else {
        StatesAfterResolution(b, es);
      }
  }

  /** The aggregate, the picker and what was published last, over the states that the events give: the aggregate
      is Idle until the first accepted report, then recomputed; the picker fails exactly when it fails, offers
      only ready handles under the addresses they were made for, and offers every ready one that an address still
      has; gRPC was told this pair at the last accepted report. */
  lemma EventsDecidePicker(es: seq<Event>)
    requires LegalRun(INITIAL, es)
    ensures var b := Run(INITIAL, es);
            && b.cur == (if Accepted(es) == 0 then Idle else AggregateOf(es))
            && (b.picker == Err(ErrTransientFailure) <==> Accepted(es) > 0 && AggregateOf(es) == TransientFailure)
            && (b.picker.Offers? ==> forall sc :: sc in b.picker.subConns ==>
                  StateOf(es, sc) == Some(Ready) && MadeFor(es, sc, b.picker.subConns[sc]))
            && (forall a, sc :: HandleOf(es, a) == Some(sc) && StateOf(es, sc) == Some(Ready) ==>
                  b.picker.Offers? && sc in b.picker.subConns && b.picker.subConns[sc] == a)
            && (Accepted(es) > 0 ==> b.published != [] && b.published[|b.published| - 1] == (b.cur, b.picker))
  {
    EventsDecideMaps(es);
    var b := Run(INITIAL, es);
    hide Run;
    AggregateAgrees(b, es);
    PickerFromEvents(b, es);
    hide Inv, StatesMatch, AddressesMatch, HandlesMatch, AggregateOf;
  }

  lemma AggregateAgrees(b: Bal, es: seq<Event>)
    requires Inv(b) && Matches(b, es)
    ensures AggregateOf(es) == Aggregate(b.scToSt)
    ensures b.cur == if Accepted(es) == 0 then Idle else AggregateOf(es)
    ensures b.picker == Err(ErrTransientFailure) <==> Accepted(es) > 0 && AggregateOf(es) == TransientFailure
    ensures Accepted(es) > 0 ==> b.published != [] && b.published[|b.published| - 1] == (b.cur, b.picker)
  {
    hide HandlesMatch, AddressesMatch, StateOf;
    forall s ensures SomeIn(es, s) <==> exists sc :: sc in b.scToSt && b.scToSt[sc] == s {
      if sc :| StateOf(es, sc) == Some(s) {
        assert sc in b.scToSt && b.scToSt[sc] == s;
      }
      if sc :| sc in b.scToSt && b.scToSt[sc] == s {
        assert StateOf(es, sc) == Some(s);
      }
    }
    hide StatesMatch, SomeIn;
    assert Recorded(b) && PickerFresh(b);
  }

  lemma PickerFromEvents(b: Bal, es: seq<Event>)
    requires Inv(b) && Matches(b, es)
    ensures b.picker.Offers? ==> forall sc :: sc in b.picker.subConns ==>
              StateOf(es, sc) == Some(Ready) && MadeFor(es, sc, b.picker.subConns[sc])
    ensures forall a, sc :: HandleOf(es, a) == Some(sc) && StateOf(es, sc) == Some(Ready) ==>
              b.picker.Offers? && sc in b.picker.subConns && b.picker.subConns[sc] == a
  {
    assert MapsAgree(b) && PickerFresh(b);
    hide Inv, HandleOf, StateOf, MadeFor;
    forall a, sc | HandleOf(es, a) == Some(sc) && StateOf(es, sc) == Some(Ready)
      ensures b.picker.Offers? && sc in b.picker.subConns && b.picker.subConns[sc] == a
    {
      assert a in b.addrToSc && b.addrToSc[a] == sc && sc in b.scToSt && b.scToSt[sc] == Ready;
      assert Live(b, sc);
    }
  }

  /** A report about a handle that does not exist, and a failed resolution, change nothing. */
  lemma IgnoredEvents(es: seq<Event>)
    requires LegalRun(INITIAL, es) && es != []
    requires match es[|es| - 1]
             case Resolved(_, _, failed) => failed
             case Changed(sc, _) => StateOf(es[..|es| - 1], sc).None?
    ensures LegalRun(INITIAL, es[..|es| - 1]) && Run(INITIAL, es) == Run(INITIAL, es[..|es| - 1])
  {
    RunOneMore(INITIAL, es);
    EventsDecideMaps(es[..|es| - 1]);
    hide Inv, Run, LegalRun;
  }

  /** What a picker built after these events offers: the ready handles that their addresses still have. */
  ghost predicate OffersLive(es: seq<Event>, p: PickerView) {
    if AggregateOf(es) == TransientFailure then p == Err(ErrTransientFailure)
    else p.Offers? && forall sc, a :: sc in p.subConns && p.subConns[sc] == a
                                      <==> HandleOf(es, a) == Some(sc) && StateOf(es, sc) == Some(Ready)
  }

  lemma RebuiltOffersLive(b: Bal, es: seq<Event>)
    requires Inv(b) && Matches(b, es) && b.cur == AggregateOf(es)
    ensures OffersLive(es, Rebuilt(b))
  {
    assert MapsAgree(b);
    hide Inv, HandleOf, StateOf, AggregateOf, AddressesMatch, Accepted;
    if b.cur != TransientFailure {
      var p := Rebuilt(b);
      forall sc, a ensures sc in p.subConns && p.subConns[sc] == a
                           <==> HandleOf(es, a) == Some(sc) && StateOf(es, sc) == Some(Ready)
      {
        assert HandleOf(es, a) == if a in b.addrToSc then Some(b.addrToSc[a]) else None;
        assert StateOf(es, sc) == if sc in b.scToSt then Some(b.scToSt[sc]) else None;
      }
    }
  }

  lemma StateOfTracked(b: Bal, es: seq<Event>, sc: SubConn)
    requires Matches(b, es)
    ensures StateOf(es, sc) == if sc in b.scToSt then Some(b.scToSt[sc]) else None
  {
    hide StateOf;
  }

  lemma CurrentIs(b: Bal, es: seq<Event>)
    requires Inv(b) && Matches(b, es) && Accepted(es) > 0
    ensures b.cur == AggregateOf(es)
  {
    hide Accepted, AggregateOf;
    AggregateAgrees(b, es);
  }

  lemma ReportPublishes(b: Bal, sc: SubConn, s: State)
    requires sc in b.scToSt
    ensures var b' := HandleChange(b, sc, s);
            && b'.published == b.published + [(b'.cur, b'.picker)]
            && b'.picker == if (s == Ready) != (b.scToSt[sc] == Ready)
                               || (b'.cur == TransientFailure) != (b.cur == TransientFailure)
                            then Rebuilt(b') else b.picker
  {
    hide Transition, Evaluate;
  }

  /** A report about a handle that exists publishes one pair more, the current one; the picker is built anew from
      the handles that are live and ready now if the handle became ready or stopped being ready or the aggregate
      started or stopped failing, and is otherwise the one before. */
  lemma AcceptedReport(es: seq<Event>)
    requires LegalRun(INITIAL, es) && es != [] && es[|es| - 1].Changed?
    requires StateOf(es[..|es| - 1], es[|es| - 1].sc).Some?
    ensures LegalRun(INITIAL, es[..|es| - 1])
    ensures var init, e := es[..|es| - 1], es[|es| - 1];
            var b, b' := Run(INITIAL, init), Run(INITIAL, es);
            && b'.published == b.published + [(AggregateOf(es), b'.picker)]
            && if (StateOf(init, e.sc) == Some(Ready)) != (e.state == Ready)
                  || (b.cur == TransientFailure) != (AggregateOf(es) == TransientFailure)
               then OffersLive(es, b'.picker) else b'.picker == b.picker
  {
    hide Inv, Run, LegalRun, AggregateOf, Matches, StateOf, OffersLive, HandleChange, Rebuilt;
    var init, e := es[..|es| - 1], es[|es| - 1];
    RunOneMore(INITIAL, es);
    var b, b' := Run(INITIAL, init), Run(INITIAL, es);
    EventsDecideMaps(init);
    EventsDecideMaps(es);
    StateOfTracked(b, init, e.sc);
    ReportPublishes(b, e.sc, e.state);
    CurrentIs(b', es);
    RebuiltOffersLive(b', es);
  }
}
