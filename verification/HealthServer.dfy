/** The health server object: the loops that run under its lock, each a run of the machine's steps, and the
    loop of a Watch call. */
module HealthServer {
  import opened Prelude
  import opened HealthProtocol

  /** A channel with room for one status. */
  class Chan {
    ghost const service: Service
    ghost const stream: Watcher
    var slot: Option<Status>

    constructor (ghost service: Service, ghost stream: Watcher, status: Status)
      ensures slot == Some(status) && this.service == service && this.stream == stream
    {
      this.service, this.stream := service, stream;
      slot := Some(status);
    }

    /** select { case <-update: default: } */
    method Drain()
      modifies this
      ensures slot == None
    {
      slot := None;
    }

    /** A send; on a full channel it would block. */
    method Send(status: Status)
      requires slot == None
      modifies this
      ensures slot == Some(status)
    {
      slot := Some(status);
    }

    method DrainAndSend(status: Status)
      modifies this
      ensures slot == Some(status)
    {
      Drain();
      Send(status);
    }
  }

  lemma OneService(h: Health, w: Watcher, s: Service)
    requires w in Updates(h, s)
    ensures forall t :: w in Updates(h, t) ==> t == s
  {
  }

  lemma CanSet(h: Health, s: Service)
    ensures Enabled(h, SetStatus(s)) <==> h.lock.Between? && s in h.lock.rest
  {
  }

  lemma CanDrain(h: Health, w: Watcher)
    requires h.lock.Setting? && w in h.lock.pending && h.lock.drained.None?
    ensures Enabled(h, Drain(w))
  {
  }

  lemma CanFinish(h: Health)
    requires h.lock.Setting? && h.lock.pending == {} && h.lock.drained.None?
    ensures Enabled(h, NextService)
  {
  }

  lemma CanUnlock(h: Health)
    requires h.lock.Between? && h.lock.rest == {}
    ensures Enabled(h, Unlock)
  {
  }

  /** The end of a Watch call takes this stream from this service, and nothing else. */
  lemma EndOfWatch(h: Health, w: Watcher, s: Service)
    requires Inv(h) && Reachable(h) && Enabled(h, Unregister(w)) && w in Updates(h, s)
    ensures var h' := Next(h, Unregister(w));
            && Inv(h') && Reachable(h') && (h'.shutdown, h'.statusMap) == (h.shutdown, h.statusMap)
            && (forall t, v :: v in Updates(h', t) <==> v in Updates(h, t) && !(t == s && v == w))
            && (forall v :: v in h.watchers ==> v in h'.watchers && h'.watchers[v].slot == h.watchers[v].slot)
  {
    OneService(h, w, s);
    hide Inv, Reachable, Next, Updates, Enabled;
    UnregisterShows(h, w);
    ReachableNext(h, Unregister(w));
  }

  lemma CanReceive(h: Health, w: Watcher)
    requires Enabled(h, Recv(w))
    ensures w in h.watchers && h.watchers[w].slot.Some?
  {
  }

  class HealthServer {
    var shutdown: bool
    var statusMap: map<Service, Status>
    var updates: map<Service, map<Watcher, Chan>>

    // The machine's state: this object's fields, and what its watchers have received and sent.
    ghost var h: Health

    ghost predicate Watches(w: Watcher, s: Service)
      reads this`updates
    {
      s in updates && w in updates[s]
    }

    /** Every channel was made for the service and the stream under which it is registered. */
    ghost predicate Owned()
      reads this`updates
    {
      forall s, w :: Watches(w, s) ==> updates[s][w].service == s && updates[s][w].stream == w
    }

    ghost function Channels(services: set<Service>): set<Chan>
      reads this`updates
    {
      set s, w | s in services && s in updates && w in updates[s] :: updates[s][w]
    }

    lemma InChannels()
      ensures forall s, w :: Watches(w, s) ==> updates[s][w] in Channels(updates.Keys)
    {
    }

    /** The registered streams are the machine's. */
    ghost predicate Registered()
      reads this
    {
      forall s, w :: Watches(w, s) <==> w in Updates(h, s)
    }

    /** The channels hold what the machine's do. */
    ghost predicate Slots()
      reads this, Channels(updates.Keys)
    {
      forall s, w :: Watches(w, s) ==>
        && w in h.watchers && updates[s][w] in Channels(updates.Keys)
        && updates[s][w].slot == h.watchers[w].slot
    }

    /** The fields and the channels are those of the machine's state. */
    ghost predicate View()
      reads this, Channels(updates.Keys)
    {
      shutdown == h.shutdown && statusMap == h.statusMap && Registered() && Slots()
    }

    /** The object shows a state that the machine reaches. */
    ghost predicate Valid()
      reads this, Channels(updates.Keys)
    {
      Owned() && View() && Inv(h) && Reachable(h)
    }

    constructor ()
      ensures Valid() && h == INITIAL
      ensures !shutdown && statusMap == map["" := SERVING] && updates == map[]
    {
      shutdown, statusMap, updates := false, map["" := SERVING], map[];
      h := INITIAL;
      new;
      assert LegalRun(INITIAL, []) && Run(INITIAL, []) == INITIAL;
    }

    // ---- what holds of the object because it holds of every run ---------------------------------------

    /** While no setter is at work, every registered channel holds its service's current status, or it is
        empty and that status was received last. */
    lemma ChannelsAreCurrent()
      requires Valid() && h.lock.Free?
      ensures forall s, w :: Watches(w, s) ==>
                updates[s][w].slot == Some(StatusOf(h, s))
                || (updates[s][w].slot == None && Holds(h.watchers[w], StatusOf(h, s)))
    {
      var ts :| LegalRun(INITIAL, ts) && Run(INITIAL, ts) == h;
      forall s, w | Watches(w, s)
        ensures updates[s][w].slot == Some(StatusOf(h, s))
                || (updates[s][w].slot == None && Holds(h.watchers[w], StatusOf(h, s)))
      {
        assert w in Updates(h, s);
        ChannelHoldsLatest(ts, w);
      }
    }

    /** What a quiet watcher sent last, and what Shutdown leaves. */
    lemma QuietAndShutdown(service: Service)
      requires Valid() && h.lock.Free?
      ensures shutdown && service in statusMap ==> statusMap[service] == NOT_SERVING
      ensures forall w :: Watches(w, service) && updates[service][w].slot == None && h.watchers[w].got == None ==>
                var sent := h.watchers[w].sent; sent != [] && sent[|sent| - 1] == StatusOf(h, service)
    {
      hide Inv, LegalRun, Run;
      InitialInv();
      var ts :| LegalRun(INITIAL, ts) && Run(INITIAL, ts) == h;
      hide Reachable;
      ShutdownHolds(ts);
      forall w | Watches(w, service) && updates[service][w].slot == None && h.watchers[w].got == None
        ensures var sent := h.watchers[w].sent; sent != [] && sent[|sent| - 1] == StatusOf(h, service)
      {
        assert w in Updates(h, service);
        QuietWatcherIsCurrent(ts, w);
      }
    }

    /** Check agrees with Watch: a watcher that has nothing left to receive last sent what Check answers, with
        not-found sent as SERVICE_UNKNOWN; after Shutdown neither says that a service is serving. */
    method Check(service: Service) returns (r: Option<Status>)
      requires Valid() && h.lock.Free?
      ensures r == if service in statusMap then Some(statusMap[service]) else None
      ensures shutdown ==> r == None || r == Some(NOT_SERVING)
      ensures forall w :: Watches(w, service) && updates[service][w].slot == None && h.watchers[w].got == None ==>
                var sent := h.watchers[w].sent;
                sent != [] && sent[|sent| - 1] == if r == None then SERVICE_UNKNOWN else r.value
    {
      hide Inv, Reachable, Updates;
      QuietAndShutdown(service);
      if service in statusMap {
        return Some(statusMap[service]);
      }
      return None;
    }

    // ---- watchers --------------------------------------------------------------------------------------

    static ghost function WithStream(updates: map<Service, map<Watcher, Chan>>, service: Service,
                                     stream: Watcher, update: Chan): map<Watcher, Chan>
    {
      var streams: map<Watcher, Chan> := if service in updates then updates[service] else map[];
      streams[stream := update]
    }

    /** The locked first part of Watch: a new channel with the current status, registered. Every Watch call has
        a stream of its own. */
    method Subscribe(service: Service, stream: Watcher) returns (update: Chan)
      requires Valid() && Enabled(h, Register(stream, service))
      modifies this`updates, this`h
      ensures Valid() && h == Next(old(h), Register(stream, service)) && fresh(update)
      ensures updates == old(updates)[service := WithStream(old(updates), service, stream, update)]
    {
      hide Inv, Reachable, Next, Updates, Enabled;
      ReachableNext(h, Register(stream, service));
      RegisterShows(h, stream, service);
      var servingStatus := if service in statusMap then statusMap[service] else SERVICE_UNKNOWN;
      assert servingStatus == StatusOf(h, service);
      hide StatusOf;
      update := AddChannel(service, stream, servingStatus);
      h := Next(h, Register(stream, service));
      assert Slots() by {
        hide Registered;
        InChannels();
        hide Channels;
      }
      assert Registered() by {
        hide Slots;
      }
      hide Registered, Slots;
    }

    method AddChannel(service: Service, stream: Watcher, servingStatus: Status) returns (update: Chan)
      modifies this`updates
      ensures fresh(update) && update.slot == Some(servingStatus)
      ensures update.service == service && update.stream == stream
      ensures updates == old(updates)[service := WithStream(old(updates), service, stream, update)]
      ensures forall s, w :: Watches(w, s) <==> old(Watches(w, s)) || (s == service && w == stream)
      ensures forall s, w :: Watches(w, s) ==>
                updates[s][w] == if s == service && w == stream then update else old(updates[s][w])
    {
      update := new Chan(service, stream, servingStatus);
      if service !in updates {
        updates := updates[service := map[]];
      }
      var streams: map<Watcher, Chan> := updates[service];
      streams := streams[stream := update];
      updates := updates[service := streams];
    }

    /** One turn of the Watch loop whose select takes a status; `sendOk` is how sending it would end. */
    method Select(service: Service, stream: Watcher, ghost sendOk: bool) returns (servingStatus: Status)
      requires Valid() && Watches(stream, service) && Enabled(h, Recv(stream))
      modifies this`h, updates[service][stream]
      ensures Valid() && Inv(Next(old(h), Recv(stream))) && Some(servingStatus) == old(updates[service][stream].slot)
      ensures h == Next(Next(old(h), Recv(stream)), Handle(stream, sendOk))
    {
      hide Inv, Reachable, Next, Updates, Enabled;
      OneService(h, stream, service);
      CanReceive(h, stream);
      SelectShows(h, stream, sendOk);
      ReachableNext(h, Recv(stream));
      ReachableNext(Next(h, Recv(stream)), Handle(stream, sendOk));
      var update := updates[service][stream];
      servingStatus := update.slot.value;
      update.Drain();
      h := Next(Next(h, Recv(stream)), Handle(stream, sendOk));
      forall s, w | Watches(w, s)
        ensures w in h.watchers && updates[s][w] in Channels(updates.Keys) && updates[s][w].slot == h.watchers[w].slot
      {
        assert w != stream ==> updates[s][w] != update;
      }
      assert View();
    }

    /** The deferred end of a Watch call. */
    method Unsubscribe(service: Service, stream: Watcher)
      requires Valid() && Watches(stream, service) && Enabled(h, Unregister(stream))
      modifies this`updates, this`h
      ensures Valid() && h == Next(old(h), Unregister(stream)) && !Watches(stream, service)
    {
      hide Inv, Reachable, Next, Updates, Enabled;
      EndOfWatch(h, stream, service);
      DeleteChannel(service, stream);
      h := Next(h, Unregister(stream));
      assert Slots() by {
        hide Registered;
        InChannels();
        hide Channels;
      }
      assert Registered() by {
        hide Slots;
        forall s, w ensures Watches(w, s) <==> w in Updates(h, s) {
          assert w in Updates(h, s) <==> w in Updates(old(h), s) && !(s == service && w == stream);
          assert old(Watches(w, s)) <==> w in Updates(old(h), s);
        }
      }
      hide Registered, Slots;
    }

    method DeleteChannel(service: Service, stream: Watcher)
      requires Watches(stream, service)
      modifies this`updates
      ensures forall s, w :: Watches(w, s) <==> old(Watches(w, s)) && !(s == service && w == stream)
      ensures forall s, w :: Watches(w, s) ==> old(Watches(w, s)) && updates[s][w] == old(updates[s][w])
    {
      updates := updates[service := updates[service] - {stream}];
    }

    // ---- setters ---------------------------------------------------------------------------------------

    /** Every channel of the service holds the status. */
    ghost predicate AllHold(s: Service, status: Status)
      reads this`updates, Channels({s})
    {
      forall w :: Watches(w, s) ==> updates[s][w] in Channels({s}) && updates[s][w].slot == Some(status)
    }

    /** A step of the machine that no channel shows. */
    ghost method Silent(t: Step)
      requires Valid() && Enabled(h, t) && (t.LockSet? || t.NextService? || t.Unlock?)
      modifies this`h
      ensures Valid() && Inv(old(h)) && h == Next(old(h), t)
    {
      hide Inv, Reachable, Next, Updates, Enabled;
      ReachableNext(h, t);
      LockStepShows(h, t);
      h := Next(h, t);
    }

    method SetServingStatus(service: Service, servingStatus: Status)
      requires Valid() && h.lock.Free?
      modifies this`statusMap, this`h, Channels({service})
      ensures Valid() && h.lock.Free?
      ensures shutdown ==> h == old(h)
      ensures !shutdown ==> SetBy(old(h), LockSet(service, servingStatus), h)
      ensures !shutdown ==> statusMap == old(statusMap)[service := servingStatus] && AllHold(service, servingStatus)
    {
      if shutdown {
        return;
      }
      Silent(LockSet(service, servingStatus));
      ghost var locked := h;
      SetServingStatusLocked(service, servingStatus);
      BySetterNext(locked, h, Unlock);
      Silent(Unlock);
    }

    method Shutdown()
      requires Valid() && h.lock.Free?
      modifies this`shutdown, this`statusMap, this`h, Channels(statusMap.Keys)
      ensures Valid() && h.lock.Free? && SetBy(old(h), LockShutdown, h)
      ensures shutdown && SetAll(old(statusMap), NOT_SERVING)
    {
      hide Inv, Reachable, BySetter;
      LockStepShows(h, LockShutdown);
      ReachableNext(h, LockShutdown);
      hide Next, Updates;
      shutdown := true;
      h := Next(h, LockShutdown);
      SetEvery(NOT_SERVING);
    }

    method Resume()
      requires Valid() && h.lock.Free?
      modifies this`shutdown, this`statusMap, this`h, Channels(statusMap.Keys)
      ensures Valid() && h.lock.Free? && SetBy(old(h), LockResume, h)
      ensures !shutdown && SetAll(old(statusMap), SERVING)
    {
      hide Inv, Reachable, BySetter;
      LockStepShows(h, LockResume);
      ReachableNext(h, LockResume);
      hide Next, Updates;
      shutdown := false;
      h := Next(h, LockResume);
      SetEvery(SERVING);
    }

    /** Every known service has the status, and so does each of its channels. */
    ghost predicate SetAll(known: map<Service, Status>, status: Status)
      reads this`updates, this`statusMap, Channels(known.Keys)
    {
      && statusMap == (map s | s in known :: status)
      && forall s :: s in known ==> Channels({s}) <= Channels(known.Keys) && AllHold(s, status)
    }

    lemma OwnChannels(s: Service, t: Service)
      requires Owned() && s != t
      ensures Channels({s}) !! Channels({t})
    {
    }

    /** The loop body of Shutdown and Resume: one service; those done before keep their status. */
    method SetOne(ghost start: Health, s: Service, status: Status, ghost done: set<Service>)
      requires Valid() && h.lock.Between? && h.lock.status == status && s in h.lock.rest && s !in done
      requires Inv(start) && BySetter(start, h) && forall d :: d in done ==> AllHold(d, status)
      modifies this`statusMap, this`h, Channels({s})
      ensures Valid() && BySetter(start, h) && h.lock == Between(status, old(h).lock.rest - {s})
      ensures statusMap == old(statusMap)[s := status] && forall d :: d in done + {s} ==> AllHold(d, status)
    {
      hide Inv, Reachable, BySetter, View, Enabled;
      forall t | t != s ensures Channels({s}) !! Channels({t}) {
        OwnChannels(s, t);
      }
      CanSet(h, s);
      ghost var before := h;
      SetServingStatusLocked(s, status);
      BySetterThen(start, before, h);
    }

    /** The loop of Shutdown and Resume, and the end of the lock. */
    method SetEvery(status: Status)
      requires Valid() && h.lock == Between(status, statusMap.Keys)
      modifies this`statusMap, this`h, Channels(statusMap.Keys)
      ensures Valid() && Inv(old(h)) && BySetter(old(h), h) && h.lock.Free? && SetAll(old(statusMap), status)
    {
      hide Inv, Reachable, BySetter, View, Enabled;
      ghost var start, known := h, statusMap;
      BySetterNone(h);
      var rest := statusMap.Keys;
      while rest != {}
        invariant rest <= known.Keys == statusMap.Keys && Valid() && Inv(start) && BySetter(start, h)
        invariant h.lock == Between(status, rest)
        invariant forall s :: s in known && s !in rest ==> statusMap[s] == status
        invariant forall s :: s in known && s !in rest ==> AllHold(s, status)
      {
        var s :| s in rest;
        SetOne(start, s, status, known.Keys - rest);
        rest := rest - {s};
      }
      CanUnlock(h);
      BySetterNext(start, h, Unlock);
      LockStepShows(h, Unlock);
      Silent(Unlock);
    }

    /** Every channel of the service ends up with the new status and no send blocks; the whole is the setter's
        work on one service. */
    method SetServingStatusLocked(service: Service, servingStatus: Status)
      requires Valid() && Enabled(h, SetStatus(service)) && h.lock.status == servingStatus
      modifies this`statusMap, this`h, Channels({service})
      ensures Valid() && Inv(old(h)) && BySetter(old(h), h)
      ensures h.lock == Between(servingStatus, old(h).lock.rest - {service})
      ensures statusMap == old(statusMap)[service := servingStatus] && AllHold(service, servingStatus)
    {
      hide Inv, Reachable, BySetter, View, Enabled;
      ghost var start := h;
      CanSet(h, service);
      SetField(service, servingStatus);
      if service in updates {
        var rest := updates[service].Keys;
        while rest != {}
          invariant rest <= updates[service].Keys && Valid() && Inv(start) && BySetter(start, h)
          invariant h.lock == Setting(servingStatus, start.lock.rest - {service}, service, rest, None)
          invariant statusMap == old(statusMap)[service := servingStatus]
          invariant forall w :: w in updates[service] && w !in rest ==> updates[service][w].slot == Some(servingStatus)
        {
          var w :| w in rest;
          assert Watches(w, service);
          CanDrain(h, w);
          Replace(start, service, w, servingStatus);
          rest := rest - {w};
        }
      }
      CanFinish(h);
      BySetterNext(start, h, NextService);
      LockStepShows(h, NextService);
      Silent(NextService);
    }

    /** The entry of the status map; every channel of the service is to follow. */
    method SetField(service: Service, servingStatus: Status)
      requires Valid() && Enabled(h, SetStatus(service)) && h.lock.status == servingStatus
      modifies this`statusMap, this`h
      ensures Valid() && Inv(old(h)) && BySetter(old(h), h)
      ensures var pending := if service in updates then updates[service].Keys else {};
              h.lock == Setting(servingStatus, old(h).lock.rest - {service}, service, pending, None)
      ensures statusMap == old(statusMap)[service := servingStatus]
    {
      hide Inv, Reachable, BySetter, Next;
      BySetterNone(h);
      BySetterNext(h, h, SetStatus(service));
      ReachableNext(h, SetStatus(service));
      SetStatusShows(h, service);
      forall w ensures w in Updates(h, service) <==> service in updates && w in updates[service] {
        assert w in Updates(h, service) <==> Watches(w, service);
      }
      hide Updates;
      statusMap := statusMap[service := servingStatus];
      h := Next(h, SetStatus(service));
    }

    /** The loop body: clear the channel, then put the status. */
    method Replace(ghost start: Health, service: Service, w: Watcher, servingStatus: Status)
      requires Valid() && Watches(w, service) && Enabled(h, Drain(w)) && Inv(start) && BySetter(start, h)
      requires h.lock.status == servingStatus && h.lock.service == service
      modifies this`h, updates[service][w]
      ensures Valid() && BySetter(start, h) && updates[service][w].slot == Some(servingStatus)
      ensures h.lock == Setting(servingStatus, old(h).lock.rest, service, old(h).lock.pending - {w}, None)
    {
      hide Inv, Reachable, BySetter, Next, Updates;
      OneService(h, w, service);
      RefillShows(h, w);
      BySetterNext(start, h, Drain(w));
      ReachableNext(h, Drain(w));
      BySetterNext(start, Next(h, Drain(w)), Refill(w));
      ReachableNext(Next(h, Drain(w)), Refill(w));
      var update := updates[service][w];
      update.DrainAndSend(servingStatus);
      h := Next(Next(h, Drain(w)), Refill(w));
      assert Registered() by {
        hide Slots;
      }
      assert Slots() by {
        hide Registered;
        InChannels();
        hide Channels;
      }
      hide Registered, Slots;
    }
  }

  /** The steps of one setter, from taking the lock by t. */
  ghost predicate SetBy(h: Health, t: Step, h': Health) {
    Inv(h) && Enabled(h, t) && Inv(Next(h, t)) && BySetter(Next(h, t), h')
  }

  // ---- the loop of a Watch call -------------------------------------------------------------

  /** What the select yields: a status from the channel (and whether sending it works), or the end of
      the stream's context. */
  datatype Selected = Update(status: Status, sendOk: bool) | ContextDone

  /** The statuses sent for a run of selects, when `last` was sent before. */
  function Sends(xs: seq<Selected>, last: Option<Status>): seq<Status> {
    if xs == [] || xs[0].ContextDone? then []
    else if last == Some(xs[0].status) then Sends(xs[1..], last)
    else [xs[0].status] + (if xs[0].sendOk then Sends(xs[1..], Some(xs[0].status)) else [])
  }

  /** One turn of the loop. */
  lemma SendsStep(xs: seq<Selected>, i: nat, last: Option<Status>)
    requires i < |xs|
    ensures Sends(xs[i..], last)
         == if xs[i].ContextDone? then []
            else if last == Some(xs[i].status) then Sends(xs[i + 1..], last)
            else [xs[i].status] + (if xs[i].sendOk then Sends(xs[i + 1..], Some(xs[i].status)) else [])
  {
    assert xs[i..][0] == xs[i] && xs[i..][1..] == xs[i + 1..];
  }

  /** The status received before the i-th select. */
  function Before(xs: seq<Selected>, last: Option<Status>, i: nat): Option<Status>
    requires i <= |xs|
  {
    if i == 0 then last else if xs[i - 1].Update? then Some(xs[i - 1].status) else None
  }

  predicate Changed(xs: seq<Selected>, last: Option<Status>, i: nat)
    requires i < |xs|
  {
    xs[i].Update? && Before(xs, last, i) != Some(xs[i].status)
  }

  /** The i-th select ends the loop: the context is done, or a changed status cannot be sent. */
  predicate Ends(xs: seq<Selected>, last: Option<Status>, i: nat)
    requires i < |xs|
  {
    xs[i].ContextDone? || (Changed(xs, last, i) && !xs[i].sendOk)
  }

  /** The statuses among the first n selects that differ from the one before. */
  function Changes(xs: seq<Selected>, last: Option<Status>, n: nat): seq<Status>
    requires n <= |xs|
  {
    if n == 0 then [] else Changes(xs, last, n - 1) + (if Changed(xs, last, n - 1) then [xs[n - 1].status] else [])
  }

  /** Up to and including the first select that ends the loop, or up to the last one. */
  ghost predicate UpToTheEnd(xs: seq<Selected>, last: Option<Status>, n: nat) {
    && n <= |xs|
    && (forall i: nat :: i < n - 1 ==> !Ends(xs, last, i))
    && (n < |xs| ==> n > 0 && Ends(xs, last, n - 1))
  }

  /** The loop sends every status that differs from the one received before it, up to the select that ends it, and
      nothing after. */
  lemma {:induction false} SendsExactly(xs: seq<Selected>, last: Option<Status>) returns (n: nat)
    ensures UpToTheEnd(xs, last, n) && Sends(xs, last) == Changes(xs, last, n)
    decreases |xs|
  {
    if xs == [] {
      n := 0;
    } else {
      assert Changes(xs, last, 0) == [];
      n := 1;
      if !Ends(xs, last, 0) {
        var rest, received := xs[1..], Some(xs[0].status);
        assert Sends(xs, last) == (if Changed(xs, last, 0) then [xs[0].status] else []) + Sends(rest, received);
        var m := SendsExactly(rest, received);
        n := m + 1;
        hide Sends;
        ChangesLater(xs, last, m);
        EndsLater(xs, last, m);
      }
    }
  }

  lemma SameLater(xs: seq<Selected>, last: Option<Status>, i: nat)
    requires xs != [] && xs[0].Update? && i < |xs| - 1
    ensures Changed(xs[1..], Some(xs[0].status), i) == Changed(xs, last, i + 1)
    ensures Ends(xs[1..], Some(xs[0].status), i) == Ends(xs, last, i + 1)
  {
  }

  lemma {:induction false} ChangesLater(xs: seq<Selected>, last: Option<Status>, m: nat)
    requires xs != [] && xs[0].Update? && m < |xs|
    ensures Changes(xs, last, m + 1)
         == (if Changed(xs, last, 0) then [xs[0].status] else []) + Changes(xs[1..], Some(xs[0].status), m)
    decreases m
  {
    if m == 0 {
      assert Changes(xs, last, 0) == [];
    } else {
      ChangesLater(xs, last, m - 1);
      SameLater(xs, last, m - 1);
    }
  }

  lemma EndsLater(xs: seq<Selected>, last: Option<Status>, m: nat)
    requires xs != [] && !Ends(xs, last, 0) && UpToTheEnd(xs[1..], Some(xs[0].status), m)
    ensures UpToTheEnd(xs, last, m + 1)
  {
    assert xs[0].Update?;
    hide Ends;
    forall i: nat | i < m && i < |xs| ensures !Ends(xs, last, i) {
      if i > 0 {
        SameLater(xs, last, i - 1);
      }
    }
    if 0 < m < |xs| - 1 {
      SameLater(xs, last, m - 1);
    }
  }

  /** The loop, until it returns or the selects run out. */
  method Watch(xs: seq<Selected>) returns (sent: seq<Status>, ended: bool)
    ensures sent == Sends(xs, None)
    ensures ended <==> exists i: nat :: i < |xs| && Ends(xs, None, i)
  {
    var lastSentStatus: Option<Status> := None;
    sent := [];
    var i := 0;
    assert xs[0..] == xs;
    while i < |xs|
      invariant i <= |xs|
      invariant sent + Sends(xs[i..], lastSentStatus) == Sends(xs, None)
      invariant lastSentStatus == Before(xs, None, i)
      invariant forall k: nat :: k < i ==> !Ends(xs, None, k)
    {
      SendsStep(xs, i, lastSentStatus);
      hide Sends;
      match xs[i] {
        case ContextDone =>
          assert Ends(xs, None, i);
          return sent, true;
        case Update(servingStatus, sendOk) =>
          i := i + 1;
          if lastSentStatus == Some(servingStatus) {
            continue;
          }
          lastSentStatus := Some(servingStatus);
          Assoc(sent, [servingStatus], if sendOk then Sends(xs[i..], lastSentStatus) else []);
          sent := sent + [servingStatus];
          if !sendOk {
            assert sent + [] == sent && Ends(xs, None, i - 1);
            return sent, true;
          }
      }
    }
    assert xs[i..] == [] && Sends([], lastSentStatus) == [];
    return sent, false;
  }

  /** A Watch never sends the same status twice in a row. */
  lemma {:induction false} SendsChange(xs: seq<Selected>, last: Option<Status>)
    ensures var s := Sends(xs, last);
            && (s != [] ==> last != Some(s[0]))
            && (forall i :: 0 < i < |s| ==> s[i - 1] != s[i])
    decreases |xs|
  {
    if xs != [] && xs[0].Update? {
      SendsChange(xs[1..], last);
      SendsChange(xs[1..], Some(xs[0].status));
    }
  }

  /** While sends work, what the client saw last is what was received last. */
  lemma {:induction false} LastSendIsLastReceived(xs: seq<Selected>, last: Option<Status>)
    requires forall i :: 0 <= i < |xs| ==> xs[i].Update? && xs[i].sendOk
    requires xs != []
    ensures var s := Sends(xs, last);
            (if s == [] then last else Some(s[|s| - 1])) == Some(xs[|xs| - 1].status)
    decreases |xs|
  {
    if |xs| > 1 {
      assert xs[1..][|xs| - 2] == xs[|xs| - 1];
      LastSendIsLastReceived(xs[1..], if last == Some(xs[0].status) then last else Some(xs[0].status));
    } else {
      assert xs[1..] == [];
    }
  }

  // ---- the loop in every interleaving -------------------------------------------------------

  /** What one step is for the loop of watcher w. */
  function SelectOf(h: Health, t: Step, w: Watcher): seq<Selected> {
    match t
    case Handle(v, sendOk) =>
      if v == w && w in h.watchers && h.watchers[w].got.Some? then [Update(h.watchers[w].got.value, sendOk)] else []
    case Cancel(v) => if v == w then [ContextDone] else []
    case _ => []
  }

  /** The selects of watcher w's loop over a run, in order. */
  ghost function Selects(h: Health, ts: seq<Step>, w: Watcher): seq<Selected>
    requires Inv(h) && LegalRun(h, ts)
    decreases |ts|
  {
    if ts == [] then []
    else
      NextKeeps(h, ts[0]);
      SelectOf(h, ts[0], w) + Selects(Next(h, ts[0]), ts[1..], w)
  }

  /** The loop of w: what it sent and sent last, and whether it is over. */
  datatype Loop = Loop(sent: seq<Status>, last: Option<Status>, over: bool)

  function LoopOf(h: Health, w: Watcher): Loop {
    if w in h.watchers then Loop(h.watchers[w].sent, h.watchers[w].lastSent, h.watchers[w].ended)
    else Loop([], None, false)
  }

  /** A loop that is over holds nothing it still has to handle. */
  predicate NothingLeft(h: Health, w: Watcher) {
    w in h.watchers && h.watchers[w].ended ==> h.watchers[w].got.None?
  }

  function ToSend(l: Loop, xs: seq<Selected>): seq<Status> {
    if l.over then [] else Sends(xs, l.last)
  }

  /** A step that is none of w's selects leaves its loop alone. */
  lemma OtherSteps(h: Health, t: Step, w: Watcher)
    requires Inv(h) && Enabled(h, t) && NothingLeft(h, w) && SelectOf(h, t, w) == []
    ensures NothingLeft(Next(h, t), w) && LoopOf(Next(h, t), w) == LoopOf(h, w)
  {
    hide Inv, Updates, StatusOf;
    if t.Drain? {
      PendingWatches(h, t.w);
    }
  }

  lemma HandleSends(h: Health, sendOk: bool, w: Watcher, later: seq<Selected>)
    requires Inv(h) && Enabled(h, Handle(w, sendOk)) && NothingLeft(h, w)
    ensures var h', xs := Next(h, Handle(w, sendOk)), SelectOf(h, Handle(w, sendOk), w);
            && NothingLeft(h', w)
            && LoopOf(h', w).sent + ToSend(LoopOf(h', w), later)
               == LoopOf(h, w).sent + ToSend(LoopOf(h, w), xs + later)
  {
    hide Inv;
    var status := h.watchers[w].got.value;
    var xs, l := [Update(status, sendOk)], LoopOf(h, w);
    assert (xs + later)[1..] == later;
    hide Updates;
    if l.last != Some(status) {
      Assoc(l.sent, [status], if sendOk then Sends(later, Some(status)) else []);
    }
  }

  /** One step of anyone is one turn of w's loop, or nothing for it. */
  lemma StepSends(h: Health, t: Step, w: Watcher, later: seq<Selected>)
    requires Inv(h) && Enabled(h, t) && NothingLeft(h, w)
    ensures NothingLeft(Next(h, t), w)
    ensures var l, l' := LoopOf(h, w), LoopOf(Next(h, t), w);
            l'.sent + ToSend(l', later) == l.sent + ToSend(l, SelectOf(h, t, w) + later)
  {
    var xs := SelectOf(h, t, w);
    if xs == [] {
      OtherSteps(h, t, w);
      assert xs + later == later;
    } else if t.Handle? {
      HandleSends(h, t.sendOk, w, later);
    } else {
      assert (xs + later)[0] == ContextDone;
    }
    hide Inv;
  }

  /** Whatever the interleaving, a watcher has sent what the loop sends for the statuses it took. */
  lemma {:induction false} EveryRunSends(h: Health, ts: seq<Step>, w: Watcher)
    requires Inv(h) && LegalRun(h, ts) && NothingLeft(h, w)
    ensures LoopOf(Run(h, ts), w).sent == LoopOf(h, w).sent + ToSend(LoopOf(h, w), Selects(h, ts, w))
    decreases |ts|
  {
    hide Inv;
    if ts != [] {
      var h1 := Next(h, ts[0]);
      NextKeeps(h, ts[0]);
      StepSends(h, ts[0], w, Selects(h1, ts[1..], w));
      hide LoopOf, ToSend, Next, NothingLeft, SelectOf;
      EveryRunSends(h1, ts[1..], w);
    } else {
      assert ToSend(LoopOf(h, w), []) == [];
    }
  }

  /** From a new server: what a watcher has sent is what the method Watch sends for its selects. */
  lemma WatcherRunsLoop(ts: seq<Step>, w: Watcher)
    requires LegalRun(INITIAL, ts) && w in Run(INITIAL, ts).watchers
    ensures Run(INITIAL, ts).watchers[w].sent == Sends(Selects(INITIAL, ts, w), None)
  {
    EveryRunSends(INITIAL, ts, w);
    assert [] + Sends(Selects(INITIAL, ts, w), None) == Sends(Selects(INITIAL, ts, w), None);
  }
}
