/** The health service as a machine: setters hold the lock and work channel by channel, while every
    watcher receives and sends without the lock. */
module HealthProtocol {
  import opened Prelude

  type Service = string
  type Watcher = nat  // one stream, watching one service

  datatype Status = UNKNOWN | SERVING | NOT_SERVING | SERVICE_UNKNOWN

  /** One Watch call. `slot` is its one-slot channel and `got` a status it took from there and has not
      handled; `hist` is every status its service had since it registered. The positions in `hist` of
      what is in the slot, was received and was sent are kept beside the values. */
  datatype Watch = Watch(
    service: Service,
    registered: bool,
    ended: bool,
    slot: Option<Status>,
    got: Option<Status>,
    lastSent: Option<Status>,
    sent: seq<Status>,
    hist: seq<Status>,
    slotAt: nat,
    recvAt: seq<nat>,
    sentAt: seq<nat>)

  /** The lock, and how far the setter that holds it has come: the services still to set, the one
      being set, its channels still to refill, and the channel drained but not refilled yet. */
  datatype Lock =
    | Free
    | Between(status: Status, rest: set<Service>)
    | Setting(status: Status, rest: set<Service>, service: Service, pending: set<Watcher>,
              drained: Option<Watcher>)

  datatype Health = Health(
    shutdown: bool,
    statusMap: map<Service, Status>,
    watchers: map<Watcher, Watch>,
    lock: Lock)

  const INITIAL := Health(false, map["" := SERVING], map[], Free)

  function StatusOf(h: Health, s: Service): Status {
    if s in h.statusMap then h.statusMap[s] else SERVICE_UNKNOWN
  }

  /** `updates[s]` of the source. */
  function Updates(h: Health, s: Service): set<Watcher> {
    set w | w in h.watchers && h.watchers[w].registered && h.watchers[w].service == s
  }

  datatype Step =
    | Register(w: Watcher, s: Service)
    | Recv(w: Watcher)
    | Handle(w: Watcher, sendOk: bool)
    | Cancel(w: Watcher)
    | Unregister(w: Watcher)
    | LockSet(s: Service, status: Status)
    | LockShutdown
    | LockResume
    | SetStatus(s: Service)       // statusMap entry of one service; its channels are next
    | Drain(w: Watcher)
    | Refill(w: Watcher)
    | NextService
    | Unlock

  predicate Enabled(h: Health, t: Step) {
    match t
    case Register(w, s) => h.lock.Free? && w !in h.watchers
    case Recv(w) => w in h.watchers && h.watchers[w].slot.Some? && h.watchers[w].got.None? && !h.watchers[w].ended
    case Handle(w, _) => w in h.watchers && h.watchers[w].got.Some?
    case Cancel(w) => w in h.watchers && h.watchers[w].got.None?
    case Unregister(w) => h.lock.Free? && w in h.watchers && h.watchers[w].ended
    case LockSet(_, _) => h.lock.Free?
    case LockShutdown => h.lock.Free?
    case LockResume => h.lock.Free?
    case SetStatus(s) => h.lock.Between? && s in h.lock.rest
    case Drain(w) => h.lock.Setting? && h.lock.drained.None? && w in h.lock.pending
    // a send on a full channel blocks
    case Refill(w) => h.lock.Setting? && h.lock.drained == Some(w) && w in h.watchers && h.watchers[w].slot.None?
    case NextService => h.lock.Setting? && h.lock.drained.None? && h.lock.pending == {}
    case Unlock => h.lock.Between? && h.lock.rest == {}
  }

  // ---- steps on one watcher -----------------------------------------------------------------

  function Registered(s: Service, status: Status): Watch {
    Watch(s, true, false, Some(status), None, None, [], [status], 0, [], [])
  }

  function Received(x: Watch): Watch
    requires x.slot.Some?
  {
    x.(slot := None, got := x.slot, recvAt := x.recvAt + [x.slotAt])
  }

  /** The loop body of Watch: a status equal to the last one sent is skipped. */
  function Handled(x: Watch, sendOk: bool): Watch
    requires x.got.Some? && x.recvAt != []
  {
    if x.lastSent == x.got then x.(got := None)
    else x.(got := None, lastSent := x.got, sent := x.sent + [x.got.value],
            sentAt := x.sentAt + [x.recvAt[|x.recvAt| - 1]], ended := x.ended || !sendOk)
  }

  function Noted(x: Watch, s: Service, status: Status): Watch {
    if x.registered && x.service == s then x.(hist := x.hist + [status]) else x
  }

  function Refilled(x: Watch, status: Status): Watch
    requires x.hist != []
  {
    x.(slot := Some(status), slotAt := |x.hist| - 1)
  }

  function With(h: Health, w: Watcher, x: Watch): Health {
    h.(watchers := h.watchers[w := x])
  }

  function Next(h: Health, t: Step): Health
    requires Enabled(h, t) && Inv(h)
  {
    match t
    case Register(w, s) => With(h, w, Registered(s, StatusOf(h, s)))
    case Recv(w) => With(h, w, Received(h.watchers[w]))
    case Handle(w, sendOk) => With(h, w, Handled(h.watchers[w], sendOk))
    case Cancel(w) => With(h, w, h.watchers[w].(ended := true))
    case Unregister(w) => With(h, w, h.watchers[w].(registered := false))
    case LockSet(s, status) => if h.shutdown then h else h.(lock := Between(status, {s}))
    case LockShutdown => h.(shutdown := true, lock := Between(NOT_SERVING, h.statusMap.Keys))
    case LockResume => h.(shutdown := false, lock := Between(SERVING, h.statusMap.Keys))
    case SetStatus(s) =>
      h.(statusMap := h.statusMap[s := h.lock.status],
         watchers := map w | w in h.watchers :: Noted(h.watchers[w], s, h.lock.status),
         lock := Setting(h.lock.status, h.lock.rest - {s}, s, Updates(h, s), None))
    case Drain(w) => With(h, w, h.watchers[w].(slot := None)).(lock := h.lock.(drained := Some(w)))
    case Refill(w) =>
      With(h, w, Refilled(h.watchers[w], h.lock.status))
        .(lock := h.lock.(drained := None, pending := h.lock.pending - {w}))
    case NextService => h.(lock := Between(h.lock.status, h.lock.rest))
    case Unlock => h.(lock := Free)
  }

  // ---- invariants ---------------------------------------------------------------------------

  ghost predicate Increasing(p: seq<nat>) {
    forall i, j :: 0 <= i < j < |p| ==> p[i] < p[j]
  }

  /** What was received and what waits in the slot are statuses of the history, in order. */
  ghost predicate ReceivesHistory(x: Watch) {
    && x.hist != []
    && Increasing(x.recvAt)
    && (forall i :: 0 <= i < |x.recvAt| ==> x.recvAt[i] < |x.hist|)
    && (x.slot.Some? ==> x.slotAt < |x.hist| && x.hist[x.slotAt] == x.slot.value)
    && (x.slot.Some? ==> forall i :: 0 <= i < |x.recvAt| ==> x.recvAt[i] < x.slotAt)
    && (x.got.Some? ==> x.recvAt != [] && x.got.value == x.hist[x.recvAt[|x.recvAt| - 1]])
  }

  /** `sent` are the statuses at the positions `at` of `hist`, none equal to its neighbour. */
  ghost predicate Picked(sent: seq<Status>, at: seq<nat>, hist: seq<Status>) {
    && |sent| == |at| && Increasing(at)
    && (forall i :: 0 <= i < |at| ==> at[i] < |hist| && sent[i] == hist[at[i]])
    && (forall i :: 0 < i < |sent| ==> sent[i - 1] != sent[i])
  }

  /** What was sent is what was received without repetitions. */
  ghost predicate SendsReceived(x: Watch) {
    && Picked(x.sent, x.sentAt, x.hist)
    && x.lastSent == (if x.sent == [] then None else Some(x.sent[|x.sent| - 1]))
    && (x.sentAt != [] ==> x.recvAt != [] && x.sentAt[|x.sentAt| - 1] <= x.recvAt[|x.recvAt| - 1])
    && (x.got.Some? && x.sentAt != [] ==> x.sentAt[|x.sentAt| - 1] < x.recvAt[|x.recvAt| - 1])
    && (x.got.None? && x.recvAt != [] ==>
          x.recvAt[|x.recvAt| - 1] < |x.hist| && x.lastSent == Some(x.hist[x.recvAt[|x.recvAt| - 1]]))
  }

  /** The channel holds `status`, or it is empty and `status` was the last value received. */
  ghost predicate Holds(x: Watch, status: Status) {
    x.slot == Some(status)
    || (x.slot.None? && x.recvAt != [] && x.recvAt[|x.recvAt| - 1] < |x.hist|
        && x.hist[x.recvAt[|x.recvAt| - 1]] == status)
  }

  /** The setter that holds the lock has not refilled this watcher's channel yet. */
  predicate BeingSet(h: Health, w: Watcher) {
    h.lock.Setting? && w in h.lock.pending
  }

  /** The newest status of the history has not reached this watcher. */
  ghost predicate Behind(x: Watch) {
    && (x.slot.Some? ==> x.slotAt < |x.hist| - 1)
    && (x.recvAt != [] ==> x.recvAt[|x.recvAt| - 1] < |x.hist| - 1)
  }

  /** One watcher, given its service's current status and whether a setter is still to refill it. */
  ghost predicate WatchInv(x: Watch, status: Status, beingSet: bool) {
    && ReceivesHistory(x) && SendsReceived(x)
    && (x.registered ==> x.hist[|x.hist| - 1] == status)
    && (beingSet ==> Behind(x))
    && (x.registered && !beingSet ==> Holds(x, status))
  }

  ghost predicate WatcherInv(h: Health, w: Watcher)
    requires w in h.watchers
  {
    WatchInv(h.watchers[w], StatusOf(h, h.watchers[w].service), BeingSet(h, w))
  }

  /** The setter refills only channels of the service it is setting, and the one it drained is
      still empty. */
  ghost predicate LockInv(h: Health) {
    h.lock.Setting? ==>
      && h.lock.pending <= Updates(h, h.lock.service)
      && h.lock.service in h.statusMap && h.statusMap[h.lock.service] == h.lock.status
      && (h.lock.drained.Some? ==>
            h.lock.drained.value in h.lock.pending && h.watchers[h.lock.drained.value].slot.None?)
  }

  /** While the server is shut down, every service outside the current setter's work is not serving. */
  ghost predicate ShutdownInv(h: Health) {
    h.shutdown ==>
      && (!h.lock.Free? ==> h.lock.status == NOT_SERVING)
      && forall s :: s in h.statusMap && (h.lock.Free? || s !in h.lock.rest) ==> h.statusMap[s] == NOT_SERVING
  }

  ghost predicate Inv(h: Health) {
    && (forall w :: w in h.watchers ==> WatcherInv(h, w))
    && LockInv(h) && ShutdownInv(h)
  }

  // ---- every step keeps them ----------------------------------------------------------------

  lemma IncreasingSnoc(p: seq<nat>, k: nat)
    requires Increasing(p) && (p != [] ==> p[|p| - 1] < k)
    ensures Increasing(p + [k])
  {
  }

  lemma PickedSnoc(sent: seq<Status>, at: seq<nat>, hist: seq<Status>, k: nat)
    requires Picked(sent, at, hist) && k < |hist|
    requires at != [] ==> at[|at| - 1] < k && sent[|sent| - 1] != hist[k]
    ensures Picked(sent + [hist[k]], at + [k], hist)
  {
    IncreasingSnoc(at, k);
    hide Increasing;
  }

  lemma RegisteredKeeps(s: Service, status: Status)
    ensures WatchInv(Registered(s, status), status, false)
  {
  }

  lemma ReceivedKeeps(x: Watch, status: Status, beingSet: bool)
    requires WatchInv(x, status, beingSet) && x.slot.Some? && x.got.None?
    ensures WatchInv(Received(x), status, beingSet)
  {
  }

  lemma HandledSends(x: Watch, sendOk: bool)
    requires ReceivesHistory(x) && SendsReceived(x) && x.got.Some?
    ensures SendsReceived(Handled(x, sendOk))
  {
    if x.lastSent != x.got {
      PickedSnoc(x.sent, x.sentAt, x.hist, x.recvAt[|x.recvAt| - 1]);
      hide Picked;
    }
  }

  lemma HandledKeeps(x: Watch, sendOk: bool, status: Status, beingSet: bool)
    requires WatchInv(x, status, beingSet) && x.got.Some?
    ensures x.recvAt != [] && WatchInv(Handled(x, sendOk), status, beingSet)
  {
    assert x.recvAt != [];
    hide SendsReceived, ReceivesHistory, Behind, Holds;
    HandledSends(x, sendOk);
    HandledReceives(x, sendOk);
    HandledHolds(x, sendOk, status);
  }

  lemma HandledHolds(x: Watch, sendOk: bool, status: Status)
    requires x.got.Some? && x.recvAt != []
    ensures Holds(Handled(x, sendOk), status) == Holds(x, status) && Behind(Handled(x, sendOk)) == Behind(x)
  {
  }

  lemma HandledReceives(x: Watch, sendOk: bool)
    requires ReceivesHistory(x) && x.got.Some?
    ensures ReceivesHistory(Handled(x, sendOk))
  {
  }

  lemma EndedKeeps(x: Watch, status: Status, beingSet: bool)
    requires WatchInv(x, status, beingSet)
    ensures WatchInv(x.(ended := true), status, beingSet)
    ensures WatchInv(x.(registered := false), status, beingSet)
  {
  }

  lemma NotedKeeps(x: Watch, s: Service, was: Status, status: Status)
    requires WatchInv(x, was, false)
    ensures if x.service == s then WatchInv(Noted(x, s, status), status, x.registered)
            else WatchInv(Noted(x, s, status), was, false)
  {
  }

  lemma DrainedKeeps(x: Watch, status: Status)
    requires WatchInv(x, status, true)
    ensures WatchInv(x.(slot := None), status, true)
  {
  }

  lemma RefilledKeeps(x: Watch, status: Status)
    requires WatchInv(x, status, true) && x.registered && x.slot.None?
    ensures WatchInv(Refilled(x, status), status, false)
  {
  }

  /** A step that touches one watcher, and neither the statuses nor the setter's work. */
  lemma WatcherStepKeeps(h: Health, w: Watcher, x: Watch)
    requires Inv(h) && w in h.watchers
    requires WatchInv(x, StatusOf(h, x.service), BeingSet(h, w))
    requires x.service == h.watchers[w].service
    requires h.lock.Setting? ==> x.registered == h.watchers[w].registered
    requires h.watchers[w].slot.None? ==> x.slot.None?
    ensures Inv(With(h, w, x))
  {
    hide WatchInv;
    var h' := With(h, w, x);
    assert forall v :: v in h.watchers && v != w ==> WatcherInv(h, v) && WatcherInv(h', v);
    if h.lock.Setting? {
      assert Updates(h', h.lock.service) == Updates(h, h.lock.service);
    }
  }

  lemma RegisterKeeps(h: Health, w: Watcher, s: Service)
    requires Inv(h) && Enabled(h, Register(w, s))
    ensures Inv(Next(h, Register(w, s)))
  {
    hide WatchInv;
    var h' := Next(h, Register(w, s));
    RegisteredKeeps(s, StatusOf(h, s));
    assert forall v :: v in h.watchers ==> WatcherInv(h, v) && WatcherInv(h', v);
  }

  lemma SetStatusKeeps(h: Health, s: Service)
    requires Inv(h) && Enabled(h, SetStatus(s))
    ensures Inv(Next(h, SetStatus(s)))
  {
    hide WatchInv;
    var h' := Next(h, SetStatus(s));
    forall v | v in h'.watchers ensures WatcherInv(h', v) {
      assert WatcherInv(h, v);
      NotedKeeps(h.watchers[v], s, StatusOf(h, h.watchers[v].service), h.lock.status);
    }
    assert Updates(h', s) == Updates(h, s);
  }

  lemma DrainKeeps(h: Health, w: Watcher)
    requires Inv(h) && Enabled(h, Drain(w))
    ensures Inv(Next(h, Drain(w)))
  {
    hide WatchInv;
    var h' := Next(h, Drain(w));
    assert w in Updates(h, h.lock.service);
    assert WatcherInv(h, w);
    DrainedKeeps(h.watchers[w], StatusOf(h, h.watchers[w].service));
    assert forall v :: v in h.watchers && v != w ==> WatcherInv(h, v) && WatcherInv(h', v);
    assert Updates(h', h.lock.service) == Updates(h, h.lock.service);
  }

  lemma RefillKeeps(h: Health, w: Watcher)
    requires Inv(h) && Enabled(h, Refill(w))
    ensures Inv(Next(h, Refill(w)))
  {
    hide WatchInv;
    var h' := Next(h, Refill(w));
    assert w in Updates(h, h.lock.service);
    assert WatcherInv(h, w);
    RefilledKeeps(h.watchers[w], h.lock.status);
    assert forall v :: v in h.watchers && v != w ==> WatcherInv(h, v) && WatcherInv(h', v);
    assert Updates(h', h.lock.service) == Updates(h, h.lock.service);
  }

  lemma LockStepKeeps(h: Health, t: Step)
    requires Inv(h) && Enabled(h, t)
    requires t.LockSet? || t.LockShutdown? || t.LockResume? || t.NextService? || t.Unlock?
    ensures Inv(Next(h, t))
  {
    hide WatchInv;
    var h' := Next(h, t);
    assert forall v :: v in h.watchers ==> WatcherInv(h, v) && WatcherInv(h', v);
  }

  lemma OneWatcherKeeps(h: Health, t: Step)
    requires Inv(h) && Enabled(h, t)
    requires t.Recv? || t.Handle? || t.Cancel? || t.Unregister?
    ensures Inv(Next(h, t))
  {
    hide WatchInv;
    var x, status, being := h.watchers[t.w], StatusOf(h, h.watchers[t.w].service), BeingSet(h, t.w);
    assert WatcherInv(h, t.w);
    match t
    case Recv(w) => ReceivedKeeps(x, status, being); WatcherStepKeeps(h, w, Received(x));
    case Handle(w, ok) => HandledKeeps(x, ok, status, being); WatcherStepKeeps(h, w, Handled(x, ok));
    case Cancel(w) => EndedKeeps(x, status, being); WatcherStepKeeps(h, w, x.(ended := true));
    case Unregister(w) => EndedKeeps(x, status, being); WatcherStepKeeps(h, w, x.(registered := false));
  }

  lemma NextKeeps(h: Health, t: Step)
    requires Inv(h) && Enabled(h, t)
    ensures Inv(Next(h, t))
  {
    match t
    case Register(w, s) => RegisterKeeps(h, w, s);
    case Recv(_) => OneWatcherKeeps(h, t);
    case Handle(_, _) => OneWatcherKeeps(h, t);
    case Cancel(_) => OneWatcherKeeps(h, t);
    case Unregister(_) => OneWatcherKeeps(h, t);
    case SetStatus(s) => SetStatusKeeps(h, s);
    case Drain(w) => DrainKeeps(h, w);
    case Refill(w) => RefillKeeps(h, w);
    case _ => LockStepKeeps(h, t);
  }

  // ---- runs ---------------------------------------------------------------------------------

  ghost predicate LegalRun(h: Health, ts: seq<Step>)
    requires Inv(h)
    decreases |ts|
  {
    ts == [] || (Enabled(h, ts[0]) && (NextKeeps(h, ts[0]); LegalRun(Next(h, ts[0]), ts[1..])))
  }

  ghost function Run(h: Health, ts: seq<Step>): (h': Health)
    requires Inv(h) && LegalRun(h, ts)
    ensures Inv(h')
    decreases |ts|
  {
    if ts == [] then h else (NextKeeps(h, ts[0]); Run(Next(h, ts[0]), ts[1..]))
  }

  /** Every interleaving: outside the setter's work on it, a registered watcher's channel holds its
      service's current status, or the channel is empty and that status was received last. */
  lemma ChannelHoldsLatest(ts: seq<Step>, w: Watcher)
    requires LegalRun(INITIAL, ts) && w in Run(INITIAL, ts).watchers
    ensures var h := Run(INITIAL, ts); var x := h.watchers[w];
            x.registered && !BeingSet(h, w) ==> Holds(x, StatusOf(h, x.service))
  {
    assert WatcherInv(Run(INITIAL, ts), w);
  }

  /** So a watcher that has nothing left to do last sent the current status. */
  lemma QuietWatcherIsCurrent(ts: seq<Step>, w: Watcher)
    requires LegalRun(INITIAL, ts) && w in Run(INITIAL, ts).watchers
    ensures var h := Run(INITIAL, ts); var x := h.watchers[w];
            x.registered && !BeingSet(h, w) && x.slot.None? && x.got.None?
            ==> x.sent != [] && x.sent[|x.sent| - 1] == StatusOf(h, x.service)
  {
    assert WatcherInv(Run(INITIAL, ts), w);
  }

  /** `a` is a subsequence of `b`. */
  ghost predicate Subsequence(a: seq<Status>, b: seq<Status>) {
    exists at: seq<nat> :: |at| == |a| && Increasing(at)
      && forall i :: 0 <= i < |a| ==> at[i] < |b| && a[i] == b[at[i]]
  }

  /** What a watcher sends is a subsequence of its service's history without equal neighbours. */
  lemma SendsAreHistory(ts: seq<Step>, w: Watcher)
    requires LegalRun(INITIAL, ts) && w in Run(INITIAL, ts).watchers
    ensures var x := Run(INITIAL, ts).watchers[w];
            && Subsequence(x.sent, x.hist)
            && (forall i :: 0 < i < |x.sent| ==> x.sent[i - 1] != x.sent[i])
  {
    assert WatcherInv(Run(INITIAL, ts), w);
  }

  /** A setter that holds the lock can always go on: its sends never block. */
  lemma SetterNeverBlocks(ts: seq<Step>)
    requires LegalRun(INITIAL, ts) && !Run(INITIAL, ts).lock.Free?
    ensures var h := Run(INITIAL, ts);
            if h.lock.Between? then
              if h.lock.rest == {} then Enabled(h, Unlock) else exists s :: Enabled(h, SetStatus(s))
            else if h.lock.drained.Some? then Enabled(h, Refill(h.lock.drained.value))
            else if h.lock.pending == {} then Enabled(h, NextService) else exists w :: Enabled(h, Drain(w))
  {
    var h := Run(INITIAL, ts);
    if h.lock.Between? && h.lock.rest != {} {
      var s :| s in h.lock.rest;
      assert Enabled(h, SetStatus(s));
    }
    if h.lock.Setting? && h.lock.drained.None? && h.lock.pending != {} {
      var w :| w in h.lock.pending;
      assert Enabled(h, Drain(w));
    }
  }

  /** Between Shutdown and Resume every status reads not serving, whatever is set. */
  lemma ShutdownHolds(ts: seq<Step>)
    requires LegalRun(INITIAL, ts)
    ensures var h := Run(INITIAL, ts);
            h.shutdown && h.lock.Free? ==> forall s :: s in h.statusMap ==> h.statusMap[s] == NOT_SERVING
  {
  }

  // ---- reachable states ---------------------------------------------------------------------

  ghost predicate Reachable(h: Health) {
    exists ts :: LegalRun(INITIAL, ts) && Run(INITIAL, ts) == h
  }

  lemma {:induction false} RunSnoc(h: Health, ts: seq<Step>, t: Step)
    requires Inv(h) && LegalRun(h, ts) && Enabled(Run(h, ts), t)
    ensures LegalRun(h, ts + [t]) && Run(h, ts + [t]) == Next(Run(h, ts), t)
    decreases |ts|
  {
    hide Inv;
    NextKeeps(Run(h, ts), t);
    if ts == [] {
      assert ts + [t] == [t] && [t][1..] == [];
    } else {
      NextKeeps(h, ts[0]);
      assert (ts + [t])[1..] == ts[1..] + [t];
      RunSnoc(Next(h, ts[0]), ts[1..], t);
    }
  }

  lemma ReachableNext(h: Health, t: Step)
    requires Reachable(h) && Inv(h) && Enabled(h, t)
    ensures Reachable(Next(h, t)) && Inv(Next(h, t))
  {
    var ts :| LegalRun(INITIAL, ts) && Run(INITIAL, ts) == h;
    RunSnoc(INITIAL, ts, t);
    NextKeeps(h, t);
  }

  lemma InitialInv()
    ensures Inv(INITIAL)
  {
  }

  /** The steps of a setter that has the lock. */
  predicate SetterStep(t: Step) {
    t.SetStatus? || t.Drain? || t.Refill? || t.NextService? || t.Unlock?
  }

  /** The setter that has the lock leads from h to h', with no other step in between. */
  ghost predicate BySetter(h: Health, h': Health)
    requires Inv(h)
  {
    exists ts :: LegalRun(h, ts) && (forall t :: t in ts ==> SetterStep(t)) && Run(h, ts) == h'
  }

  lemma BySetterNone(h: Health)
    requires Inv(h)
    ensures BySetter(h, h)
  {
    assert LegalRun(h, []) && Run(h, []) == h;
  }

  lemma BySetterNext(h: Health, h': Health, t: Step)
    requires Inv(h) && BySetter(h, h') && Inv(h') && Enabled(h', t) && SetterStep(t)
    ensures BySetter(h, Next(h', t))
  {
    hide Inv, Next, Enabled, SetterStep, LegalRun, Run;
    var ts :| LegalRun(h, ts) && (forall t :: t in ts ==> SetterStep(t)) && Run(h, ts) == h';
    RunSnoc(h, ts, t);
    assert forall x :: x in ts + [t] ==> SetterStep(x);
  }

  lemma {:induction false} RunThen(h: Health, ts: seq<Step>, us: seq<Step>)
    requires Inv(h) && LegalRun(h, ts) && LegalRun(Run(h, ts), us)
    ensures LegalRun(h, ts + us) && Run(h, ts + us) == Run(Run(h, ts), us)
    decreases |ts|
  {
    hide Inv;
    if ts == [] {
      assert ts + us == us;
    } else {
      NextKeeps(h, ts[0]);
      assert (ts + us)[1..] == ts[1..] + us;
      RunThen(Next(h, ts[0]), ts[1..], us);
    }
  }

  lemma BySetterThen(h: Health, h1: Health, h2: Health)
    requires Inv(h) && BySetter(h, h1) && Inv(h1) && BySetter(h1, h2)
    ensures BySetter(h, h2)
  {
    hide Inv, Next, Enabled, SetterStep, LegalRun, Run;
    var ts :| LegalRun(h, ts) && (forall t :: t in ts ==> SetterStep(t)) && Run(h, ts) == h1;
    var us :| LegalRun(h1, us) && (forall t :: t in us ==> SetterStep(t)) && Run(h1, us) == h2;
    RunThen(h, ts, us);
    assert forall t :: t in ts + us ==> SetterStep(t);
  }

  // ---- what a step shows outside ------------------------------------------------------------

  /** The two states register the same watchers, and the given ones have the same channels. */
  ghost predicate SameShown(h: Health, h': Health, changed: set<Watcher>) {
    && (forall s, w :: w in Updates(h', s) <==> w in Updates(h, s))
    && (forall w :: w in h.watchers ==> w in h'.watchers)
    && (forall w :: w in h.watchers && w !in changed ==> h'.watchers[w].slot == h.watchers[w].slot)
  }

  /** The watcher's channel has this content. */
  predicate SlotIs(h: Health, w: Watcher, slot: Option<Status>) {
    w in h.watchers && h.watchers[w].slot == slot
  }

  predicate Holding(h: Health, w: Watcher) {
    w in h.watchers && h.watchers[w].got.Some?
  }

  lemma RegisterShows(h: Health, w: Watcher, s: Service)
    requires Inv(h) && Enabled(h, Register(w, s))
    ensures var h' := Next(h, Register(w, s));
            && (h'.shutdown, h'.statusMap, h'.lock) == (h.shutdown, h.statusMap, h.lock)
            && (forall t, v :: v in Updates(h', t) <==> v in Updates(h, t) || (t == s && v == w))
            && (forall v :: v in h.watchers ==> v in h'.watchers && h'.watchers[v].slot == h.watchers[v].slot)
            && SlotIs(h', w, Some(StatusOf(h, s)))
  {
    hide Inv;
  }

  lemma ShownTwice(h: Health, h1: Health, h2: Health, changed: set<Watcher>)
    requires SameShown(h, h1, changed) && SameShown(h1, h2, changed)
    ensures SameShown(h, h2, changed)
  {
    hide Updates;
  }

  lemma EachWatcher(h: Health, w: Watcher)
    requires Inv(h) && w in h.watchers
    ensures WatcherInv(h, w)
  {
  }

  lemma HasReceived(h: Health, w: Watcher)
    requires w in h.watchers && WatcherInv(h, w) && h.watchers[w].got.Some?
    ensures h.watchers[w].recvAt != []
  {
  }

  lemma PendingWatches(h: Health, w: Watcher)
    requires Inv(h) && Enabled(h, Drain(w))
    ensures w in h.watchers
  {
    assert w in Updates(h, h.lock.service);
  }

  lemma WithShows(h: Health, w: Watcher, x: Watch)
    requires w in h.watchers && x.service == h.watchers[w].service && x.registered == h.watchers[w].registered
    ensures SameShown(h, With(h, w, x), {w})
  {
  }

  lemma SameShownLock(h: Health, h': Health, lock: Lock, changed: set<Watcher>)
    requires SameShown(h, h', changed)
    ensures SameShown(h, h'.(lock := lock), changed)
  {
    assert forall s :: Updates(h'.(lock := lock), s) == Updates(h', s);
  }

  lemma RecvShows(h: Health, w: Watcher)
    requires Inv(h) && Enabled(h, Recv(w))
    ensures var h' := Next(h, Recv(w));
            && (h'.shutdown, h'.statusMap, h'.lock) == (h.shutdown, h.statusMap, h.lock)
            && SameShown(h, h', {w}) && SlotIs(h', w, None) && Holding(h', w)
  {
    hide Inv, SameShown, Updates;
    WithShows(h, w, Received(h.watchers[w]));
  }

  lemma HandleShows(h: Health, w: Watcher, sendOk: bool)
    requires Inv(h) && Enabled(h, Handle(w, sendOk))
    ensures var h' := Next(h, Handle(w, sendOk));
            && (h'.shutdown, h'.statusMap, h'.lock) == (h.shutdown, h.statusMap, h.lock)
            && SameShown(h, h', {w}) && SlotIs(h', w, h.watchers[w].slot)
  {
    hide Inv, SameShown, Updates, WatcherInv;
    EachWatcher(h, w);
    HasReceived(h, w);
    WithShows(h, w, Handled(h.watchers[w], sendOk));
  }

  /** One turn of a Watch loop. */
  lemma SelectShows(h: Health, w: Watcher, sendOk: bool)
    requires Inv(h) && Enabled(h, Recv(w))
    ensures var h1 := Next(h, Recv(w));
            && Inv(h1) && Enabled(h1, Handle(w, sendOk))
            && var h2 := Next(h1, Handle(w, sendOk));
            && (h2.shutdown, h2.statusMap, h2.lock) == (h.shutdown, h.statusMap, h.lock)
            && SameShown(h, h2, {w}) && SlotIs(h2, w, None)
  {
    hide Next, Updates, Inv, WatcherInv;
    NextKeeps(h, Recv(w));
    RecvShows(h, w);
    var h1 := Next(h, Recv(w));
    HandleShows(h1, w, sendOk);
    ShownTwice(h, h1, Next(h1, Handle(w, sendOk)), {w});
    hide SameShown;
  }

  lemma UnregisterShows(h: Health, w: Watcher)
    requires Inv(h) && Enabled(h, Unregister(w))
    ensures var h' := Next(h, Unregister(w));
            && (h'.shutdown, h'.statusMap, h'.lock) == (h.shutdown, h.statusMap, h.lock)
            && (forall t, v :: v in Updates(h', t) <==> v in Updates(h, t) && v != w)
            && (forall v :: v in h.watchers ==> v in h'.watchers && h'.watchers[v].slot == h.watchers[v].slot)
  {
    hide Inv;
  }

  lemma LockStepShows(h: Health, t: Step)
    requires Inv(h) && Enabled(h, t)
    requires t.LockSet? || t.LockShutdown? || t.LockResume? || t.NextService? || t.Unlock?
    ensures var h' := Next(h, t);
            && SameShown(h, h', {}) && h'.statusMap == h.statusMap
            && h'.shutdown == (if t.LockShutdown? then true else if t.LockResume? then false else h.shutdown)
            && match t
               case LockSet(s, status) => h'.lock == if h.shutdown then Free else Between(status, {s})
               case LockShutdown => h'.lock == Between(NOT_SERVING, h.statusMap.Keys)
               case LockResume => h'.lock == Between(SERVING, h.statusMap.Keys)
               case NextService => h'.lock == Between(h.lock.status, h.lock.rest)
               case _ => h'.lock == Free
  {
    hide Inv;
  }

  lemma SetStatusShows(h: Health, s: Service)
    requires Inv(h) && Enabled(h, SetStatus(s))
    ensures var h' := Next(h, SetStatus(s));
            && SameShown(h, h', {}) && h'.shutdown == h.shutdown && h'.statusMap == h.statusMap[s := h.lock.status]
            && h'.lock == Setting(h.lock.status, h.lock.rest - {s}, s, Updates(h, s), None)
  {
    hide Inv;
  }

  lemma DrainShows(h: Health, w: Watcher)
    requires Inv(h) && Enabled(h, Drain(w)) && w in h.watchers
    ensures var h' := Next(h, Drain(w));
            && SameShown(h, h', {w}) && (h'.shutdown, h'.statusMap) == (h.shutdown, h.statusMap)
            && SlotIs(h', w, None) && h'.lock == h.lock.(drained := Some(w))
  {
    hide Inv, SameShown, Updates;
    WithShows(h, w, h.watchers[w].(slot := None));
    SameShownLock(h, With(h, w, h.watchers[w].(slot := None)), h.lock.(drained := Some(w)), {w});
  }

  lemma OneRefillShows(h: Health, w: Watcher)
    requires Inv(h) && Enabled(h, Refill(w))
    ensures var h' := Next(h, Refill(w));
            && SameShown(h, h', {w}) && (h'.shutdown, h'.statusMap) == (h.shutdown, h.statusMap)
            && SlotIs(h', w, Some(h.lock.status))
            && h'.lock == h.lock.(drained := None, pending := h.lock.pending - {w})
  {
    EachWatcher(h, w);
    assert h.watchers[w].hist != [];
    hide Inv, SameShown, Updates, WatcherInv;
    var x := Refilled(h.watchers[w], h.lock.status);
    WithShows(h, w, x);
    SameShownLock(h, With(h, w, x), h.lock.(drained := None, pending := h.lock.pending - {w}), {w});
  }

  /** Drain and refill of one channel. */
  lemma RefillShows(h: Health, w: Watcher)
    requires Inv(h) && Enabled(h, Drain(w))
    ensures var h1 := Next(h, Drain(w));
            && Inv(h1) && Enabled(h1, Refill(w))
            && var h2 := Next(h1, Refill(w));
            && SameShown(h, h2, {w}) && (h2.shutdown, h2.statusMap) == (h.shutdown, h.statusMap)
            && SlotIs(h2, w, Some(h.lock.status))
            && h2.lock == Setting(h.lock.status, h.lock.rest, h.lock.service, h.lock.pending - {w}, None)
  {
    hide Next, Updates, Inv, WatcherInv;
    PendingWatches(h, w);
    NextKeeps(h, Drain(w));
    DrainShows(h, w);
    var h1 := Next(h, Drain(w));
    OneRefillShows(h1, w);
    ShownTwice(h, h1, Next(h1, Refill(w)), {w});
    hide SameShown;
  }
}
