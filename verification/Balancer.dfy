/** The balancer object: the source's fields, its loops, and its refinement of the model. */
module Balancer {
  import opened Prelude
  import opened Connectivity
  import opened RoundRobin
  import opened BalancerModel

  class BaseBalancer {
    var addrToSc: map<Address, SubConn>
    var scToAddr: map<SubConn, Address>
    var scToSt: map<SubConn, State>
    const connectivityRecorder: Recorder
    var picker: Picker

    // What the ClientConn was asked so far.
    ghost var seen: set<SubConn>
    ghost var removed: multiset<SubConn>
    ghost var published: seq<(State, PickerView)>

    ghost function View(): Bal
      reads this, connectivityRecorder
    {
      Bal(addrToSc, scToAddr, scToSt, connectivityRecorder.Counts(), connectivityRecorder.cur,
          Seen(picker), seen, removed, published)
    }

    static ghost function Seen(p: Picker): PickerView {
      match p
      case ErrPicker(err) => Err(err)
      case Balanced(rb) => Offers(rb.scToAddr)
    }

    constructor ()
      ensures View() == INITIAL && fresh(connectivityRecorder)
    {
      addrToSc, scToAddr, scToSt := map[], map[], map[];
      connectivityRecorder := new Recorder();
      picker := ErrPicker(ErrNoSubConnAvailable);
      seen, removed, published := {}, multiset{}, [];
    }

    /** `grants[i]` is NewSubConn's answer for `addrs[i]`, should it be asked. */
    method HandleResolvedAddrs(addrs: seq<Address>, grants: seq<Option<SubConn>>, failed: bool)
      requires Inv(View()) && FreshGrants(seen, addrs, grants)
      modifies this
      ensures View() == HandleResolved(old(View()), addrs, grants, failed) && picker == old(picker)
    {
      if failed {
        return;
      }
      var resolved := ConnectNew(addrs, grants);
      ResolveFirstKeeps(old(View()), addrs, grants, |addrs|);
      DropStale(resolved);
    }

    /** The first loop of HandleResolvedAddrs. */
    method ConnectNew(addrs: seq<Address>, grants: seq<Option<SubConn>>) returns (resolved: set<Address>)
      requires |addrs| == |grants|
      modifies this`addrToSc, this`scToAddr, this`scToSt, this`seen
      ensures resolved == set a | a in addrs
      ensures View() == ResolveFirst(old(View()), addrs, grants, |addrs|)
    {
      hide ResolveOne;
      resolved := {};
      for i := 0 to |addrs|
        invariant resolved == set a | a in addrs[..i]
        invariant View() == ResolveFirst(old(View()), addrs, grants, i)
      {
        resolved := resolved + {addrs[i]};
        ConnectOne(addrs[i], grants[i]);
      }
      assert addrs[..|addrs|] == addrs;
    }

    /** The loop body, for an address that may be known already. */
    method ConnectOne(addr: Address, grant: Option<SubConn>)
      modifies this`addrToSc, this`scToAddr, this`scToSt, this`seen
      ensures View() == ResolveOne(old(View()), addr, grant)
    {
      if addr !in addrToSc {
        match grant {
          case None =>
          case Some(sc) =>
            seen := seen + {sc};
            addrToSc := addrToSc[addr := sc];
            scToAddr := scToAddr[sc := addr];
            scToSt := scToSt[sc := Idle];
        }
      }
    }

    /** The second loop of HandleResolvedAddrs; the map is visited in any order. */
    method DropStale(resolved: set<Address>)
      requires MapsAgree(View())
      modifies this`addrToSc, this`removed
      ensures View() == Prune(old(View()), resolved)
    {
      var todo := addrToSc.Keys;
      ghost var before, done := addrToSc, {};
      Injective(View());
      hide MapsAgree, HandlesOf;
      assert HandlesOf(before, done) == {} by { NoHandles(before); }
      while todo != {}
        invariant todo <= addrToSc.Keys
        invariant done == set a | a in before && a !in resolved && a !in todo
        invariant addrToSc == before - done
        invariant removed == old(removed) + multiset(HandlesOf(before, done))
      {
        var addr :| addr in todo;
        var sc := addrToSc[addr];
        todo := todo - {addr};
        if addr !in resolved {
          HandlesGrow(before, done, addr);
          done := done + {addr};
          removed := removed + multiset{sc};
          addrToSc := addrToSc - {addr};
        }
      }
      assert done == set a | a in before && a !in resolved;
    }

    /** Unless readiness or failure flips the picker object stays, so that its round goes on; otherwise a new one
        starts with its first handle. */
    method HandleSubConnStateChange(sc: SubConn, s: State)
      requires Inv(View()) && (s == Shutdown ==> sc in removed)
      modifies this, connectivityRecorder
      ensures View() == HandleChange(old(View()), sc, s)
      ensures if sc in old(scToSt) && ((s == Ready) != (old(scToSt)[sc] == Ready)
                                       || (connectivityRecorder.cur == TransientFailure)
                                          != (old(connectivityRecorder.cur) == TransientFailure))
              then picker.Balanced? ==> fresh(picker.rb) && picker.rb.Valid() && picker.rb.next == 0
              else picker == old(picker)
    {
      hide Inv;
      if sc !in scToSt {
        return;
      }
      var was := scToSt[sc];
      scToSt := scToSt[sc := s];
      if s == Shutdown {
        scToAddr := scToAddr - {sc};
        scToSt := scToSt - {sc};
      }
      var oldAggrState := connectivityRecorder.cur;
      connectivityRecorder.RecordTransition(was, s);
      assert scToSt == Move(old(scToSt), sc, s);
      ChangeKeepsMaps(old(View()), sc, s);
      assert MapsAgree(View());
      hide MapsAgree;
      if (s == Ready) != (was == Ready)
         || (connectivityRecorder.cur == TransientFailure) != (oldAggrState == TransientFailure)
      {
        UpdatePicker();
      }
      published := published + [(connectivityRecorder.cur, Seen(picker))];
    }

    method UpdatePicker()
      requires MapsAgree(View())
      modifies this`picker
      ensures Seen(picker) == Rebuild(addrToSc, scToAddr, scToSt, connectivityRecorder.cur)
      ensures picker.Balanced? ==> fresh(picker.rb) && picker.rb.Valid() && picker.rb.next == 0
    {
      if connectivityRecorder.cur == TransientFailure {
        picker := ErrPicker(ErrTransientFailure);
        return;
      }
      var ready: map<SubConn, Address> := map[];
      var todo := addrToSc.Keys;
      while todo != {}
        invariant todo <= addrToSc.Keys
        invariant ready == map sc | sc in scToSt && scToSt[sc] == Ready && Holds(addrToSc, scToAddr, sc)
                                    && scToAddr[sc] !in todo :: scToAddr[sc]
      {
        var addr :| addr in todo;
        todo := todo - {addr};
        var sc := addrToSc[addr];
        if sc in scToSt && scToSt[sc] == Ready {
          ready := ready[sc := addr];
        }
      }
      var rb := new RrBalanced(ready);
      picker := Balanced(rb);
    }
  }
}
