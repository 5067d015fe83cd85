/** The Thrift connection pool as a machine: every step is one lock region, one atomic access or one
    call out of the pool, and any number of callers interleave. */
module PoolProtocol {
  import opened Prelude

  type Client = nat

  /** An idle connection and when it was returned. */
  datatype Entry = Entry(c: Client, t: int)

  datatype Config = Config(maxConn: int, idleTimeout: int)

  /** Where a dialled client is: in the idle list; popped by a Get, not yet handed out; with a
      caller; inside Put after the decision; popped by the sweep, and then closed by it; waiting to be
      closed; closed; or dropped without being closed. */
  datatype Phase =
    | Idle | Popped | Out | PutDrop | PutKeep | Swept | SweptClosed | ToClose | Closed | Lost

  /** The phases that `count` is meant to count. */
  predicate Counts(p: Phase) {
    p in {Idle, Popped, Out, PutDrop, PutKeep, Swept, SweptClosed}
  }

  /** The pool's fields, the clients, the Get calls in flight (`waiting` for the lock, `dials` past
      the limit check without a client yet), the Release calls between their store and their swap, the
      Close calls made, the clock, and two corrections to the count: `forgotten` by Release and `nils`,
      the nil clients returned since. */
  datatype Pool = Pool(
    idle: seq<Entry>,
    count: int,
    phase: map<Client, Phase>,
    waiting: nat,
    dials: nat,
    releases: nat,
    closes: multiset<Client>,
    now: int,
    forgotten: int,
    nils: nat)

  const EMPTY := Pool([], 0, map[], 0, 0, 0, multiset{}, 0, 0, 0)

  datatype Action =
    | GetStart
    | GetLock                        // limit check, then miss or pop
    | DialFail
    | Dialled(c: Client, open: bool) // handed out and counted if Check finds it open
    | Checked(c: Client, open: bool) // popped: handed out if Check finds it open, else uncounted
    | PutLoad(c: Client, alive: bool)
    | PutDecrement(c: Client)
    | PutPush(c: Client)
    | NilReturned                    // Put(nil) or CloseErrConn(nil)
    | CloseErr(c: Client)            // CloseErrConn's decrement
    | CloseNow(c: Client)            // the Close call of Put, CloseErrConn or Release
    | SweepPop                       // CheckTimeout takes an expired front entry
    | SweepClose(c: Client)
    | SweepDecrement(c: Client)
    | ReleaseStore
    | ReleaseSwap
    | Tick(d: nat)

  predicate At(s: Pool, c: Client, p: Phase) {
    c in s.phase && s.phase[c] == p
  }

  predicate Expired(cfg: Config, e: Entry, now: int) {
    e.t + cfg.idleTimeout <= now
  }

  /** Dials are fresh, and only a caller that holds a client returns it. */
  predicate Enabled(cfg: Config, s: Pool, a: Action) {
    match a
    case GetStart | NilReturned | ReleaseStore | Tick(_) => true
    case ReleaseSwap => s.releases > 0
    case GetLock => s.waiting > 0
    case DialFail => s.dials > 0
    case Dialled(c, _) => s.dials > 0 && c !in s.phase
    case Checked(c, _) => At(s, c, Popped)
    case PutLoad(c, _) => At(s, c, Out)
    case PutDecrement(c) => At(s, c, PutDrop)
    case PutPush(c) => At(s, c, PutKeep)
    case CloseErr(c) => At(s, c, Out)
    case CloseNow(c) => At(s, c, ToClose)
    case SweepPop => s.idle != [] && Expired(cfg, s.idle[0], s.now)
    case SweepClose(c) => At(s, c, Swept)
    case SweepDecrement(c) => At(s, c, SweptClosed)
  }

  function Next(cfg: Config, s: Pool, a: Action): Pool
    requires Enabled(cfg, s, a)
  {
    match a
    case GetStart => s.(waiting := s.waiting + 1)
    case GetLock =>
      if s.idle == [] && s.count >= cfg.maxConn then s.(waiting := s.waiting - 1)
      else if s.idle == [] then s.(waiting := s.waiting - 1, dials := s.dials + 1)
      else s.(waiting := s.waiting - 1, idle := s.idle[1..], phase := s.phase[s.idle[0].c := Popped])
    case DialFail => s.(dials := s.dials - 1)
    case Dialled(c, open) =>
      if open then s.(dials := s.dials - 1, phase := s.phase[c := Out], count := s.count + 1)
      else s.(dials := s.dials - 1, phase := s.phase[c := Lost])
    case Checked(c, open) =>
      if open then s.(phase := s.phase[c := Out]) else s.(phase := s.phase[c := Lost], count := s.count - 1)
    case PutLoad(c, alive) =>
      s.(phase := s.phase[c := if s.count > cfg.maxConn || !alive then PutDrop else PutKeep])
    case PutDecrement(c) => s.(phase := s.phase[c := ToClose], count := s.count - 1)
    case PutPush(c) => s.(phase := s.phase[c := Idle], idle := s.idle + [Entry(c, s.now)])
    case NilReturned => s.(count := s.count - 1, nils := s.nils + 1)
    case CloseErr(c) => s.(phase := s.phase[c := ToClose], count := s.count - 1)
    case CloseNow(c) => s.(phase := s.phase[c := Closed], closes := s.closes + multiset{c})
    case SweepPop => s.(idle := s.idle[1..], phase := s.phase[s.idle[0].c := Swept])
    case SweepClose(c) => s.(phase := s.phase[c := SweptClosed], closes := s.closes + multiset{c})
    case SweepDecrement(c) => s.(phase := s.phase[c := Closed], count := s.count - 1)
    case ReleaseStore => s.(releases := s.releases + 1, count := 0, forgotten := |Counted(s.phase)|, nils := 0)
    case ReleaseSwap =>
      s.(releases := s.releases - 1, idle := [], phase := Unlisted(s.phase, s.idle),
         forgotten := s.forgotten - |s.idle|)
    case Tick(d) => s.(now := s.now + d)
  }

  predicate Listed(idle: seq<Entry>, c: Client) {
    exists i :: 0 <= i < |idle| && idle[i].c == c
  }

  /** Every client of the swapped-out list is waiting to be closed. */
  function Unlisted(phase: map<Client, Phase>, idle: seq<Entry>): map<Client, Phase> {
    map c | c in phase :: if Listed(idle, c) then ToClose else phase[c]
  }

  function Counted(phase: map<Client, Phase>): set<Client> {
    set c | c in phase && Counts(phase[c])
  }

  ghost predicate LegalRun(cfg: Config, s: Pool, actions: seq<Action>)
    decreases |actions|
  {
    actions == [] || (Enabled(cfg, s, actions[0]) && LegalRun(cfg, Next(cfg, s, actions[0]), actions[1..]))
  }

  ghost function Run(cfg: Config, s: Pool, actions: seq<Action>): Pool
    requires LegalRun(cfg, s, actions)
    decreases |actions|
  {
    if actions == [] then s else Run(cfg, Next(cfg, s, actions[0]), actions[1..])
  }

  // ---- invariants ---------------------------------------------------------------------------

  /** The idle list holds each idle client once and nothing else. */
  ghost predicate IdleListed(s: Pool) {
    && (forall i, j :: 0 <= i < j < |s.idle| ==> s.idle[i].c != s.idle[j].c)
    && (forall c :: At(s, c, Idle) <==> Listed(s.idle, c))
  }

  /** A client is closed at most once, and exactly when its phase says so. */
  ghost predicate ClosedOnce(s: Pool) {
    forall c :: s.closes[c] == if At(s, c, Closed) || At(s, c, SweptClosed) then 1 else 0
  }

  /** The count is the number of counted clients, less what Release forgot and what nil returns took. */
  ghost predicate Conserved(s: Pool) {
    s.count == |Counted(s.phase)| - s.forgotten - s.nils
  }

  /** The idle list is sorted by return time. */
  ghost predicate Sorted(idle: seq<Entry>, now: int) {
    && (forall i, j :: 0 <= i < j < |idle| ==> idle[i].t <= idle[j].t)
    && (forall i :: 0 <= i < |idle| ==> idle[i].t <= now)
  }

  ghost predicate Inv(s: Pool) {
    IdleListed(s) && ClosedOnce(s) && Conserved(s) && Sorted(s.idle, s.now)
  }

  lemma CountedUpdate(phase: map<Client, Phase>, c: Client, p: Phase)
    ensures |Counted(phase[c := p])|
         == |Counted(phase)| - (if c in phase && Counts(phase[c]) then 1 else 0) + (if Counts(p) then 1 else 0)
  {
    var others := Counted(phase) - {c};
    assert Counted(phase) == if c in phase && Counts(phase[c]) then others + {c} else others;
    assert Counted(phase[c := p]) == if Counts(p) then others + {c} else others;
  }

  function ClientsOf(idle: seq<Entry>): set<Client> {
    set e | e in idle :: e.c
  }

  lemma {:induction false} IdleClients(idle: seq<Entry>)
    requires forall i, j :: 0 <= i < j < |idle| ==> idle[i].c != idle[j].c
    ensures |ClientsOf(idle)| == |idle|
  {
    if idle == [] {
      assert ClientsOf(idle) == {};
    } else {
      var init, last := idle[..|idle| - 1], idle[|idle| - 1];
      IdleClients(init);
      assert idle == init + [last];
      assert ClientsOf(idle) == ClientsOf(init) + {last.c};
    }
  }

  lemma SwapUncounts(s: Pool)
    requires IdleListed(s)
    ensures |Counted(Unlisted(s.phase, s.idle))| == |Counted(s.phase)| - |s.idle|
  {
    var listed := ClientsOf(s.idle);
    IdleClients(s.idle);
    assert forall c :: c in listed <==> Listed(s.idle, c);
    assert forall c :: c in listed ==> At(s, c, Idle);
    assert Counted(Unlisted(s.phase, s.idle)) == Counted(s.phase) - listed;
    assert listed <= Counted(s.phase);
  }

  lemma PopKeepsListed(s: Pool, p: Phase)
    requires IdleListed(s) && s.idle != [] && p != Idle
    ensures IdleListed(s.(idle := s.idle[1..], phase := s.phase[s.idle[0].c := p]))
  {
    var front, rest := s.idle[0].c, s.idle[1..];
    forall c ensures Listed(rest, c) <==> Listed(s.idle, c) && c != front {
      if Listed(s.idle, c) && c != front {
        var i :| 0 <= i < |s.idle| && s.idle[i].c == c;
        assert rest[i - 1].c == c;
      }
    }
    assert Listed(s.idle, front);
  }

  lemma NextKeepsListed(cfg: Config, s: Pool, a: Action)
    requires IdleListed(s) && Enabled(cfg, s, a)
    ensures IdleListed(Next(cfg, s, a))
  {
    var s' := Next(cfg, s, a);
    match a
    case GetLock => if s.idle != [] { PopKeepsListed(s, Popped); }
    case SweepPop => PopKeepsListed(s, Swept);
    case PutPush(c) =>
      assert s'.idle[|s.idle|].c == c;
      forall k ensures Listed(s'.idle, k) <==> Listed(s.idle, k) || k == c {
        if Listed(s.idle, k) {
          var i :| 0 <= i < |s.idle| && s.idle[i].c == k;
          assert s'.idle[i].c == k;
        }
      }
      assert forall i :: 0 <= i < |s.idle| ==> Listed(s.idle, s.idle[i].c);
    case _ =>
  }

  lemma NextKeepsCount(cfg: Config, s: Pool, a: Action)
    requires IdleListed(s) && Conserved(s) && Enabled(cfg, s, a)
    ensures Conserved(Next(cfg, s, a))
  {
    match a
    case GetLock => if s.idle != [] { assert Listed(s.idle, s.idle[0].c); CountedUpdate(s.phase, s.idle[0].c, Popped); }
    case SweepPop => assert Listed(s.idle, s.idle[0].c); CountedUpdate(s.phase, s.idle[0].c, Swept);
    case Dialled(c, open) => CountedUpdate(s.phase, c, if open then Out else Lost);
    case Checked(c, open) => CountedUpdate(s.phase, c, if open then Out else Lost);
    case PutLoad(c, _) => CountedUpdate(s.phase, c, Next(cfg, s, a).phase[c]);
    case PutDecrement(c) => CountedUpdate(s.phase, c, ToClose);
    case PutPush(c) => CountedUpdate(s.phase, c, Idle);
    case CloseErr(c) => CountedUpdate(s.phase, c, ToClose);
    case CloseNow(c) => CountedUpdate(s.phase, c, Closed);
    case SweepClose(c) => CountedUpdate(s.phase, c, SweptClosed);
    case SweepDecrement(c) => CountedUpdate(s.phase, c, Closed);
    case ReleaseSwap => SwapUncounts(s);
    case _ =>
  }

  predicate Shut(p: Phase) {
    p == Closed || p == SweptClosed
  }

  /** One client moves to a phase, closed on the way if and only if that is a closed phase it was not in. */
  lemma PhaseKeepsClosed(s: Pool, s': Pool, c: Client, p: Phase)
    requires ClosedOnce(s) && s'.phase == s.phase[c := p]
    requires c in s.phase && Shut(s.phase[c]) ==> Shut(p)
    requires s'.closes == if Shut(p) && !(c in s.phase && Shut(s.phase[c])) then s.closes + multiset{c} else s.closes
    ensures ClosedOnce(s')
  {
  }

  lemma NextKeepsClosed(cfg: Config, s: Pool, a: Action)
    requires IdleListed(s) && ClosedOnce(s) && Enabled(cfg, s, a)
    ensures ClosedOnce(Next(cfg, s, a))
  {
    hide ClosedOnce, Counted, Unlisted, IdleListed, Listed;
    if Moves(a) {
      MoveKeepsClosed(cfg, s, a);
    } else {
      var s' := Next(cfg, s, a);
      match a
      case GetLock => if s.idle != [] { FrontKeepsClosed(s, s', Popped); } else { SameClosed(s, s'); }
      case SweepPop => FrontKeepsClosed(s, s', Swept);
      case ReleaseSwap => SwapKeepsClosed(s); SameClosed(s.(phase := s'.phase), s');
      case _ => SameClosed(s, s');
    }
  }

  /** The steps that move one client, named by the step, to another phase. */
  predicate Moves(a: Action) {
    a.Dialled? || a.Checked? || a.PutLoad? || a.PutDecrement? || a.PutPush? || a.CloseErr?
    || a.CloseNow? || a.SweepClose? || a.SweepDecrement?
  }

  lemma MoveKeepsClosed(cfg: Config, s: Pool, a: Action)
    requires ClosedOnce(s) && Enabled(cfg, s, a) && Moves(a)
    ensures ClosedOnce(Next(cfg, s, a))
  {
    hide ClosedOnce, Counted, Unlisted;
    var s' := Next(cfg, s, a);
    PhaseKeepsClosed(s, s', a.c, s'.phase[a.c]);
  }

  lemma SameClosed(s: Pool, s': Pool)
    requires ClosedOnce(s) && s'.phase == s.phase && s'.closes == s.closes
    ensures ClosedOnce(s')
  {
  }

  lemma FrontKeepsClosed(s: Pool, s': Pool, p: Phase)
    requires IdleListed(s) && s.idle != [] && !Shut(p) && ClosedOnce(s)
    requires s'.phase == s.phase[s.idle[0].c := p] && s'.closes == s.closes
    ensures ClosedOnce(s')
  {
    assert Listed(s.idle, s.idle[0].c);
    hide ClosedOnce;
    PhaseKeepsClosed(s, s', s.idle[0].c, p);
  }

  lemma SwapKeepsClosed(s: Pool)
    requires IdleListed(s) && ClosedOnce(s)
    ensures ClosedOnce(s.(phase := Unlisted(s.phase, s.idle)))
  {
    assert forall c :: Listed(s.idle, c) ==> At(s, c, Idle);
  }

  lemma NextKeeps(cfg: Config, s: Pool, a: Action)
    requires Inv(s) && Enabled(cfg, s, a)
    ensures Inv(Next(cfg, s, a))
  {
    NextKeepsListed(cfg, s, a);
    NextKeepsCount(cfg, s, a);
    NextKeepsClosed(cfg, s, a);
  }

  /** Conservation, single ownership and order, over every interleaving. */
  lemma {:induction false} RunKeeps(cfg: Config, s: Pool, actions: seq<Action>)
    requires Inv(s) && LegalRun(cfg, s, actions)
    ensures Inv(Run(cfg, s, actions))
    decreases |actions|
  {
    if actions != [] {
      NextKeeps(cfg, s, actions[0]);
      RunKeeps(cfg, Next(cfg, s, actions[0]), actions[1..]);
    }
  }

  lemma EveryInterleaving(cfg: Config, actions: seq<Action>)
    requires LegalRun(cfg, EMPTY, actions)
    ensures Inv(Run(cfg, EMPTY, actions))
  {
    assert Counted(EMPTY.phase) == {};
    RunKeeps(cfg, EMPTY, actions);
  }

  /** The correction changes only when Release runs. With no step between its two halves, Release
      forgets exactly the counted clients that were not in the idle list, and puts each idle client
      up for closing. */
  lemma OnlyReleaseForgets(cfg: Config, s: Pool, a: Action)
    requires Inv(s) && Enabled(cfg, s, a)
    ensures a != ReleaseStore && a != ReleaseSwap ==> Next(cfg, s, a).forgotten == s.forgotten
    ensures var r := Next(cfg, Next(cfg, s, ReleaseStore), ReleaseSwap);
            && r.forgotten == |set c | c in s.phase && Counts(s.phase[c]) && s.phase[c] != Idle|
            && r.count == 0 && r.nils == 0 && r.idle == []
            && (forall c :: Listed(s.idle, c) ==> At(r, c, ToClose) && r.closes[c] == 0)
  {
    ReleaseForgets(cfg, s);
    hide Inv, Unlisted, Counted;
  }

  lemma CountedOutside(s: Pool)
    requires IdleListed(s)
    ensures Counted(Unlisted(s.phase, s.idle)) == set c | c in s.phase && Counts(s.phase[c]) && s.phase[c] != Idle
  {
    assert forall c :: Listed(s.idle, c) <==> At(s, c, Idle);
    hide Listed, IdleListed;
  }

  lemma ReleaseForgets(cfg: Config, s: Pool)
    requires Inv(s)
    ensures var r := Next(cfg, Next(cfg, s, ReleaseStore), ReleaseSwap);
            && r.forgotten == |set c | c in s.phase && Counts(s.phase[c]) && s.phase[c] != Idle|
            && r.count == 0 && r.nils == 0 && r.idle == []
            && (forall c :: Listed(s.idle, c) ==> At(r, c, ToClose) && r.closes[c] == 0)
  {
    var r := Next(cfg, Next(cfg, s, ReleaseStore), ReleaseSwap);
    assert r == s.(count := 0, nils := 0, idle := [], phase := Unlisted(s.phase, s.idle),
                   forgotten := |Counted(s.phase)| - |s.idle|);
    hide Next;
    SwapUncounts(s);
    assert forall c :: Listed(s.idle, c) ==> At(s, c, Idle);
    CountedOutside(s);
    hide Counted, Listed, Inv, IdleListed;
  }

  /** A Get hands out only a client that nobody holds and that the pool has not closed. */
  lemma HandedOutClientIsFree(cfg: Config, s: Pool, a: Action, c: Client)
    requires Inv(s) && Enabled(cfg, s, a) && (a == Dialled(c, true) || a == Checked(c, true))
    ensures !At(s, c, Out) && !Listed(s.idle, c) && s.closes[c] == 0
    ensures At(Next(cfg, s, a), c, Out)
  {
    assert At(s, c, Idle) <==> Listed(s.idle, c);
  }

  /** A client comes into a caller's hands exactly when Check finds it open. */
  lemma OutExactlyWhenFoundOpen(cfg: Config, s: Pool, a: Action, c: Client)
    requires Enabled(cfg, s, a)
    ensures !At(s, c, Out) && At(Next(cfg, s, a), c, Out) <==> a == Dialled(c, true) || a == Checked(c, true)
  {
  }

  /** What Check answered for a client in this step. */
  function AnswerOf(a: Action, c: Client): Option<bool> {
    if (a.Dialled? || a.Checked?) && a.c == c then Some(a.open) else None
  }

  /** What Check, asked by a Get, answered last for a client. */
  function LastAnswer(actions: seq<Action>, c: Client): Option<bool> {
    if actions == [] then None
    else
      var later := LastAnswer(actions[1..], c);
      if later.Some? then later else AnswerOf(actions[0], c)
  }

  /** Whether the client is one of the pool's, and if it is, whether it was not lost. */
  function Standing(s: Pool, c: Client): Option<bool> {
    if c in s.phase then Some(s.phase[c] != Lost) else None
  }

  lemma NextStands(cfg: Config, s: Pool, a: Action, c: Client)
    requires IdleListed(s) && Enabled(cfg, s, a)
    ensures Standing(Next(cfg, s, a), c) == if AnswerOf(a, c).Some? then AnswerOf(a, c) else Standing(s, c)
  {
    assert s.idle != [] ==> Listed(s.idle, s.idle[0].c) && At(s, s.idle[0].c, Idle);
    assert Listed(s.idle, c) ==> At(s, c, Idle);
    hide Listed, IdleListed, Counted;
  }

  lemma {:induction false} RunStands(cfg: Config, s: Pool, actions: seq<Action>, c: Client)
    requires Inv(s) && LegalRun(cfg, s, actions)
    ensures Standing(Run(cfg, s, actions), c)
         == if LastAnswer(actions, c).Some? then LastAnswer(actions, c) else Standing(s, c)
    decreases |actions|
  {
    if actions != [] {
      NextStands(cfg, s, actions[0], c);
      NextKeeps(cfg, s, actions[0]);
      hide Inv, Enabled, Standing, AnswerOf;
      RunStands(cfg, Next(cfg, s, actions[0]), actions[1..], c);
    }
  }

  /** Over every interleaving: the pool's clients are those that a Get dialled, and the last answer of Check to a
      Get decides; a client found not open is lost for good, so whatever a caller holds, the idle list keeps or the
      pool closes was found open when it was handed out last. */
  lemma FoundOpenOrLost(cfg: Config, actions: seq<Action>, c: Client)
    requires LegalRun(cfg, EMPTY, actions)
    ensures var s := Run(cfg, EMPTY, actions);
            && (At(s, c, Lost) <==> LastAnswer(actions, c) == Some(false))
            && (c in s.phase && s.phase[c] != Lost <==> LastAnswer(actions, c) == Some(true))
  {
    assert Counted(EMPTY.phase) == {};
    RunStands(cfg, EMPTY, actions, c);
  }

  // ---- the sweep ----------------------------------------------------------------------------

  function TickOf(a: Action): nat {
    if a.Tick? then a.d else 0
  }

  function Elapsed(actions: seq<Action>): nat {
    if actions == [] then 0 else TickOf(actions[0]) + Elapsed(actions[1..])
  }

  /** When a client was put back last, on a clock that starts at `now`. */
  function LastReturn(actions: seq<Action>, now: int, c: Client): Option<int>
    decreases |actions|
  {
    if actions == [] then None
    else
      var later := LastReturn(actions[1..], now + TickOf(actions[0]), c);
      if later.Some? then later else if actions[0] == PutPush(c) then Some(now) else None
  }

  lemma NextStamps(cfg: Config, s: Pool, a: Action, e: Entry)
    requires IdleListed(s) && Enabled(cfg, s, a) && e in Next(cfg, s, a).idle
    ensures if a == PutPush(e.c) then e.t == s.now else e in s.idle
  {
    var s' := Next(cfg, s, a);
    NextKeepsListed(cfg, s, a);
    if a == PutPush(e.c) {
      assert s'.idle[|s.idle|] == Entry(e.c, s.now);
    }
    hide Enabled;
  }

  lemma {:induction false} RunStamps(cfg: Config, s: Pool, actions: seq<Action>, e: Entry)
    requires Inv(s) && LegalRun(cfg, s, actions) && e in Run(cfg, s, actions).idle
    ensures match LastReturn(actions, s.now, e.c)
            case Some(t) => e.t == t
            case None => e in s.idle
    decreases |actions|
  {
    if actions != [] {
      var s1 := Next(cfg, s, actions[0]);
      NextKeeps(cfg, s, actions[0]);
      assert s1.now == s.now + TickOf(actions[0]);
      RunStamps(cfg, s1, actions[1..], e);
      if e in s1.idle {
        NextStamps(cfg, s, actions[0], e);
      }
      hide Inv, Enabled, Next;
    }
  }

  lemma {:induction false} RunElapses(cfg: Config, s: Pool, actions: seq<Action>)
    requires LegalRun(cfg, s, actions)
    ensures Run(cfg, s, actions).now == s.now + Elapsed(actions)
    decreases |actions|
  {
    if actions != [] {
      RunElapses(cfg, Next(cfg, s, actions[0]), actions[1..]);
    }
  }

  /** Since a client was put back last, the timeout has passed. */
  predicate IdleTooLong(cfg: Config, actions: seq<Action>, c: Client) {
    match LastReturn(actions, 0, c)
    case Some(t) => Elapsed(actions) - t >= cfg.idleTimeout
    case None => false
  }

  /** Over every interleaving, from the steps alone: the sweep takes a client if and only if some idle client was put
      back at least the timeout ago, and then it takes one that was, and put back first. */
  lemma SweepsExactlyWhenIdleTooLong(cfg: Config, actions: seq<Action>)
    requires LegalRun(cfg, EMPTY, actions)
    ensures var s := Run(cfg, EMPTY, actions);
            && (Enabled(cfg, s, SweepPop) <==> exists c :: At(s, c, Idle) && IdleTooLong(cfg, actions, c))
            && (Enabled(cfg, s, SweepPop) ==>
                  && At(s, s.idle[0].c, Idle) && IdleTooLong(cfg, actions, s.idle[0].c)
                  && At(Next(cfg, s, SweepPop), s.idle[0].c, Swept)
                  && forall c :: At(s, c, Idle) ==>
                       && LastReturn(actions, 0, c).Some?
                       && LastReturn(actions, 0, s.idle[0].c).value <= LastReturn(actions, 0, c).value)
  {
    var s := Run(cfg, EMPTY, actions);
    EveryInterleaving(cfg, actions);
    RunElapses(cfg, EMPTY, actions);
    assert Inv(EMPTY) by { assert Counted(EMPTY.phase) == {}; }
    forall e | e in s.idle ensures LastReturn(actions, 0, e.c) == Some(e.t) && At(s, e.c, Idle) {
      RunStamps(cfg, EMPTY, actions, e);
      assert Listed(s.idle, e.c);
    }
    hide LastReturn, Elapsed, Run, LegalRun, ClosedOnce, Conserved;
    forall c | At(s, c, Idle) ensures exists e :: e in s.idle && e.c == c && s.idle[0].t <= e.t {
      var i :| 0 <= i < |s.idle| && s.idle[i].c == c;
      assert s.idle[i] in s.idle;
    }
  }

  // ---- the limit ----------------------------------------------------------------------------

  function PoppedClients(phase: map<Client, Phase>): set<Client> {
    set c | c in phase && phase[c] == Popped
  }

  /** How many Get calls are in flight. */
  function InFlight(s: Pool): nat {
    s.waiting + s.dials + |PoppedClients(s.phase)|
  }

  ghost predicate AtMostInFlight(cfg: Config, s: Pool, actions: seq<Action>, t: nat)
    requires LegalRun(cfg, s, actions)
    decreases |actions|
  {
    InFlight(s) <= t && (actions == [] || AtMostInFlight(cfg, Next(cfg, s, actions[0]), actions[1..], t))
  }

  function AtLeastOne(n: int): int {
    if n < 1 then 1 else n
  }

  /** Counted connections plus dials that passed the check stay within the limit plus the Gets that
      can race for its last place. */
  lemma {:induction false} RunBounded(cfg: Config, s: Pool, actions: seq<Action>, t: nat)
    requires LegalRun(cfg, s, actions) && AtMostInFlight(cfg, s, actions, t) && t >= 1
    requires s.count + s.dials <= AtLeastOne(cfg.maxConn) + t - 1
    ensures var s' := Run(cfg, s, actions); s'.count + s'.dials <= AtLeastOne(cfg.maxConn) + t - 1
    decreases |actions|
  {
    if actions != [] {
      RunBounded(cfg, Next(cfg, s, actions[0]), actions[1..], t);
    }
  }

  /** With at most t Get calls in flight the count never exceeds maxConn + t - 1. */
  lemma CountWithinLimit(cfg: Config, actions: seq<Action>, t: nat)
    requires cfg.maxConn >= 1 && t >= 1
    requires LegalRun(cfg, EMPTY, actions) && AtMostInFlight(cfg, EMPTY, actions, t)
    ensures Run(cfg, EMPTY, actions).count <= cfg.maxConn + t - 1
  {
    RunBounded(cfg, EMPTY, actions, t);
  }

  /** The clients really open or still being closed by the sweep: what Release forgot and what nil
      returns took come on top of the limit. */
  lemma OpenWithinLimit(cfg: Config, actions: seq<Action>, t: nat)
    requires cfg.maxConn >= 1 && t >= 1
    requires LegalRun(cfg, EMPTY, actions) && AtMostInFlight(cfg, EMPTY, actions, t)
    ensures var s := Run(cfg, EMPTY, actions);
            |Counted(s.phase)| <= cfg.maxConn + t - 1 + s.forgotten + s.nils
  {
    EveryInterleaving(cfg, actions);
    CountWithinLimit(cfg, actions, t);
  }

  // ---- what a Release costs -----------------------------------------------------------------

  /** No part of a Release. */
  predicate NoRelease(actions: seq<Action>) {
    forall a :: a in actions ==> a != ReleaseStore && a != ReleaseSwap
  }

  lemma {:induction false} NoReleaseKeepsForgotten(cfg: Config, s: Pool, actions: seq<Action>)
    requires LegalRun(cfg, s, actions) && NoRelease(actions)
    ensures Run(cfg, s, actions).forgotten == s.forgotten && Run(cfg, s, actions).releases == s.releases
    decreases |actions|
  {
    if actions != [] {
      assert actions[0] in actions;
      assert NoRelease(actions[1..]) by {
        assert forall a :: a in actions[1..] ==> a in actions;
      }
      NoReleaseKeepsForgotten(cfg, Next(cfg, s, actions[0]), actions[1..]);
    }
  }

  /** How many idle clients the swaps of a run take out. */
  ghost function TakenBySwaps(cfg: Config, s: Pool, actions: seq<Action>): nat
    requires LegalRun(cfg, s, actions)
    decreases |actions|
  {
    if actions == [] then 0
    else
      (if actions[0] == ReleaseSwap then |s.idle| else 0) + TakenBySwaps(cfg, Next(cfg, s, actions[0]), actions[1..])
  }

  lemma {:induction false} ForgottenAfter(cfg: Config, s: Pool, actions: seq<Action>)
    requires LegalRun(cfg, s, actions) && ReleaseStore !in actions
    ensures Run(cfg, s, actions).forgotten == s.forgotten - TakenBySwaps(cfg, s, actions)
    decreases |actions|
  {
    if actions != [] {
      assert actions[0] in actions && forall a :: a in actions[1..] ==> a in actions;
      ForgottenAfter(cfg, Next(cfg, s, actions[0]), actions[1..]);
    }
  }

  /** What is counted without a client, at any time after the first half of a Release, other Releases'
      second halves and everything else included: exactly what swaps have closed since the latest first
      half beyond the clients counted then, less the nil returns since. So capacity is lost if and only
      if that is positive. */
  lemma CapacityLostExactly(cfg: Config, s: Pool, actions: seq<Action>)
    requires Inv(s) && LegalRun(cfg, Next(cfg, s, ReleaseStore), actions) && ReleaseStore !in actions
    ensures var s1 := Next(cfg, s, ReleaseStore);
            var s2, swapped := Run(cfg, s1, actions), TakenBySwaps(cfg, s1, actions);
            && s2.count - |Counted(s2.phase)| == swapped - |Counted(s.phase)| - s2.nils
            && (s2.count > |Counted(s2.phase)| <==> swapped > |Counted(s.phase)| + s2.nils)
  {
    var s1 := Next(cfg, s, ReleaseStore);
    NextKeeps(cfg, s, ReleaseStore);
    RunKeeps(cfg, s1, actions);
    ForgottenAfter(cfg, s1, actions);
  }

  /** One Release with no other between its two halves, and any other steps: its own swap decides. */
  lemma ReleaseCosts(cfg: Config, s: Pool, actions: seq<Action>)
    requires Inv(s) && NoRelease(actions) && LegalRun(cfg, Next(cfg, s, ReleaseStore), actions)
    ensures var s2 := Run(cfg, Next(cfg, s, ReleaseStore), actions);
            && Enabled(cfg, s2, ReleaseSwap)
            && var s3 := Next(cfg, s2, ReleaseSwap);
            && s3.count - |Counted(s3.phase)| == |s2.idle| - |Counted(s.phase)| - s2.nils
            && (s3.count > |Counted(s3.phase)| <==> |s2.idle| > |Counted(s.phase)| + s2.nils)
  {
    var s1 := Next(cfg, s, ReleaseStore);
    NextKeeps(cfg, s, ReleaseStore);
    RunKeeps(cfg, s1, actions);
    NoReleaseKeepsForgotten(cfg, s1, actions);
    var s2 := Run(cfg, s1, actions);
    NextKeeps(cfg, s2, ReleaseSwap);
  }

  /** A pool with no client left anywhere refuses the next Get exactly when the corrections have used
      up the limit. */
  lemma EmptyPoolRefusesExactly(cfg: Config, actions: seq<Action>)
    requires LegalRun(cfg, EMPTY, actions) && Counted(Run(cfg, EMPTY, actions).phase) == {}
    ensures var s := Next(cfg, Run(cfg, EMPTY, actions), GetStart);
            && s.idle == []
            && (Next(cfg, s, GetLock).dials == s.dials <==> s.forgotten + s.nils <= -cfg.maxConn)
  {
    EveryInterleaving(cfg, actions);
    IdleAreCounted(Run(cfg, EMPTY, actions));
  }

  lemma IdleAreCounted(s: Pool)
    requires IdleListed(s)
    ensures s.idle == [] || s.idle[0].c in Counted(s.phase)
  {
    if s.idle != [] {
      assert Listed(s.idle, s.idle[0].c);
    }
  }

  // ---- witnesses ----------------------------------------------------------------------------

  ghost predicate Leads(cfg: Config, actions: seq<Action>, t: nat, s: Pool) {
    LegalRun(cfg, EMPTY, actions) && AtMostInFlight(cfg, EMPTY, actions, t) && Run(cfg, EMPTY, actions) == s
  }

  /** Some run with at most t Gets in flight leads from the empty pool to s. */
  ghost predicate Reached(cfg: Config, t: nat, s: Pool) {
    exists actions :: Leads(cfg, actions, t, s)
  }

  lemma {:induction false} RunSnoc(cfg: Config, s: Pool, actions: seq<Action>, a: Action, t: nat)
    requires LegalRun(cfg, s, actions) && AtMostInFlight(cfg, s, actions, t)
    requires Enabled(cfg, Run(cfg, s, actions), a) && InFlight(Next(cfg, Run(cfg, s, actions), a)) <= t
    ensures LegalRun(cfg, s, actions + [a]) && AtMostInFlight(cfg, s, actions + [a], t)
    ensures Run(cfg, s, actions + [a]) == Next(cfg, Run(cfg, s, actions), a)
    decreases |actions|
  {
    if actions == [] {
      assert actions + [a] == [a];
      assert [a][1..] == [];
    } else {
      RunSnoc(cfg, Next(cfg, s, actions[0]), actions[1..], a, t);
      assert (actions + [a])[1..] == actions[1..] + [a];
    }
  }

  lemma ReachedNext(cfg: Config, t: nat, s: Pool, a: Action)
    requires Reached(cfg, t, s) && Enabled(cfg, s, a) && InFlight(Next(cfg, s, a)) <= t
    ensures Reached(cfg, t, Next(cfg, s, a))
  {
    var actions :| Leads(cfg, actions, t, s);
    RunSnoc(cfg, EMPTY, actions, a, t);
    assert Leads(cfg, actions + [a], t, Next(cfg, s, a));
  }

  lemma ReachedEmpty(cfg: Config, t: nat)
    ensures Reached(cfg, t, EMPTY)
  {
    assert PoppedClients(EMPTY.phase) == {};
    assert Leads(cfg, [], t, EMPTY);
  }

  function AllOut(k: nat): (m: map<Client, Phase>)
    ensures forall c :: c in m ==> c < k && m[c] == Out
    ensures PoppedClients(m) == {}
  {
    if k == 0 then map[] else AllOut(k - 1)[k - 1 := Out]
  }

  /** Clients 0..k are with callers; w Gets wait for the lock, d dial, and r Releases are halfway. */
  function Busy(k: nat, w: nat, d: nat, r: nat): Pool {
    Pool([], k, AllOut(k), w, d, r, multiset{}, 0, 0, 0)
  }

  /** From k clients in use, d dials past the check all get a client. */
  lemma {:induction false} AllDial(cfg: Config, t: nat, k: nat, d: nat, r: nat)
    requires Reached(cfg, t, Busy(k, 0, d, r)) && d <= t
    ensures Reached(cfg, t, Busy(k + d, 0, 0, r))
    decreases d
  {
    if d > 0 {
      ReachedNext(cfg, t, Busy(k, 0, d, r), Dialled(k, true));
      assert Next(cfg, Busy(k, 0, d, r), Dialled(k, true)) == Busy(k + 1, 0, d - 1, r);
      AllDial(cfg, t, k + 1, d - 1, r);
    }
  }

  lemma {:induction false} AllPassTheCheck(cfg: Config, t: nat, k: nat, d: nat, r: nat)
    requires Reached(cfg, t, Busy(k, 0, d, r)) && d <= t && k < cfg.maxConn
    ensures Reached(cfg, t, Busy(k, 0, t, r))
    decreases t - d
  {
    if d < t {
      OnePassesTheCheck(cfg, t, k, d, r);
      AllPassTheCheck(cfg, t, k, d + 1, r);
    }
  }

  lemma OnePassesTheCheck(cfg: Config, t: nat, k: nat, d: nat, r: nat)
    requires Reached(cfg, t, Busy(k, 0, d, r)) && d < t && k < cfg.maxConn
    ensures Reached(cfg, t, Busy(k, 0, d + 1, r))
  {
    ReachedNext(cfg, t, Busy(k, 0, d, r), GetStart);
    assert Next(cfg, Busy(k, 0, d, r), GetStart) == Busy(k, 1, d, r);
    ReachedNext(cfg, t, Busy(k, 1, d, r), GetLock);
    assert Next(cfg, Busy(k, 1, d, r), GetLock) == Busy(k, 0, d + 1, r);
  }

  /** One Get after the other takes k clients, from an empty pool or after the first half of a Release. */
  lemma {:induction false} Sequential(cfg: Config, t: nat, k: nat, r: nat)
    requires t >= 1 && k <= cfg.maxConn && r <= 1
    ensures Reached(cfg, t, Busy(k, 0, 0, r))
    decreases k
  {
    if k == 0 {
      ReachedEmpty(cfg, t);
      assert Busy(0, 0, 0, 0) == EMPTY;
      if r == 1 {
        assert Counted(EMPTY.phase) == {};
        ReachedNext(cfg, t, EMPTY, ReleaseStore);
        assert Next(cfg, EMPTY, ReleaseStore) == Busy(0, 0, 0, 1);
      }
    } else {
      Sequential(cfg, t, k - 1, r);
      OnePassesTheCheck(cfg, t, k - 1, 0, r);
      AllDial(cfg, t, k - 1, 1, r);
    }
  }

  /** The bound is met: t racing Gets do take the count to maxConn + t - 1. */
  lemma LimitIsReached(cfg: Config, t: nat)
    requires cfg.maxConn >= 1 && t >= 1
    ensures exists s :: Reached(cfg, t, s) && s.count == cfg.maxConn + t - 1
  {
    var k := cfg.maxConn - 1;
    Sequential(cfg, t, k, 0);
    AllPassTheCheck(cfg, t, k, 0, 0);
    AllDial(cfg, t, k, t, 0);
    assert Busy(k + t, 0, 0, 0).count == cfg.maxConn + t - 1;
  }

  /** With at most one Get in flight, and any other calls between its steps, the limit is respected
      exactly when it is at least one: below that, a nil return, a Get past the check and the first half
      of a Release before it counts bring the count to one. */
  lemma OneGetLimitExactly(cfg: Config)
    ensures (forall s :: Reached(cfg, 1, s) ==> s.count <= cfg.maxConn) <==> cfg.maxConn >= 1
  {
    if cfg.maxConn >= 1 {
      forall s | Reached(cfg, 1, s) ensures s.count <= cfg.maxConn {
        var actions :| Leads(cfg, actions, 1, s);
        CountWithinLimit(cfg, actions, 1);
      }
    } else if cfg.maxConn < 0 {
      ReachedEmpty(cfg, 1);
    } else {
      ZeroLimitExceeded(cfg);
    }
  }

  lemma ZeroLimitExceeded(cfg: Config)
    requires cfg.maxConn == 0
    ensures exists s :: Reached(cfg, 1, s) && s.count == 1
  {
    ReachedEmpty(cfg, 1);
    var s1 := EMPTY.(count := -1, nils := 1);
    ReachedNext(cfg, 1, EMPTY, NilReturned);
    ReachedNext(cfg, 1, s1, GetStart);
    ReachedNext(cfg, 1, s1.(waiting := 1), GetLock);
    ReachedNext(cfg, 1, s1.(dials := 1), ReleaseStore);
    assert Counted(EMPTY.phase) == {};
    ReachedNext(cfg, 1, EMPTY.(dials := 1, releases := 1), Dialled(0, true));
    assert Next(cfg, EMPTY.(dials := 1, releases := 1), Dialled(0, true)).count == 1;
  }

  function Shelve(m: map<Client, Phase>, j: nat): map<Client, Phase> {
    if j == 0 then m else Shelve(m, j - 1)[j - 1 := Idle]
  }

  function Shelf(j: nat): seq<Entry> {
    seq(j, i requires 0 <= i < j => Entry(i, 0))
  }

  /** Of k clients dialled after the first half of a Release, the first j are back. */
  function Returned(k: nat, j: nat): Pool
    requires j <= k
  {
    Pool(Shelf(j), k, Shelve(AllOut(k), j), 0, 0, 1, multiset{}, 0, 0, 0)
  }

  lemma {:induction false} ShelvePhases(k: nat, j: nat)
    requires j <= k
    ensures forall c: Client :: c in Shelve(AllOut(k), j) <==> c < k
    ensures forall c: Client :: c < k ==> Shelve(AllOut(k), j)[c] == if c < j then Idle else Out
    decreases j
  {
    AllOutKeys(k);
    if j > 0 {
      ShelvePhases(k, j - 1);
      hide AllOut;
      var m, before := Shelve(AllOut(k), j), Shelve(AllOut(k), j - 1);
      assert m == before[j - 1 := Idle];
      assert m.Keys == before.Keys + {j - 1};
    }
  }

  lemma {:induction false} AllOutKeys(k: nat)
    ensures forall c: Client :: c in AllOut(k) <==> c < k
  {
    if k > 0 {
      AllOutKeys(k - 1);
    }
  }

  lemma {:induction false} AllReturn(cfg: Config, k: nat, j: nat)
    requires j <= k <= cfg.maxConn && Reached(cfg, 1, Busy(k, 0, 0, 1))
    ensures Reached(cfg, 1, Returned(k, j))
    decreases j
  {
    if j == 0 {
      assert Returned(k, 0) == Busy(k, 0, 0, 1);
    } else {
      AllReturn(cfg, k, j - 1);
      OneReturns(cfg, k, j - 1);
    }
  }

  lemma OneReturns(cfg: Config, k: nat, j: nat)
    requires j < k <= cfg.maxConn && Reached(cfg, 1, Returned(k, j))
    ensures Reached(cfg, 1, Returned(k, j + 1))
  {
    var s, s2 := Returned(k, j), Returned(k, j + 1);
    var s1 := s.(phase := s.phase[j := PutKeep]);
    ShelvePhases(k, j);
    ShelvePhases(k, j + 1);
    assert PoppedClients(s1.phase) == PoppedClients(s2.phase) == {};
    assert Next(cfg, s, PutLoad(j, true)) == s1;
    ReachedNext(cfg, 1, s, PutLoad(j, true));
    assert s1.phase[j := Idle] == s2.phase;
    assert s1.idle + [Entry(j, 0)] == s2.idle;
    assert Next(cfg, s1, PutPush(j)) == s2;
    ReachedNext(cfg, 1, s1, PutPush(j));
  }

  /** Connections dialled and returned between the two halves of a Release are closed but stay
      counted: whatever the limit, a pool can end up with no client anywhere and refuse every Get. */
  lemma ReleaseRaceLosesCapacity(cfg: Config)
    requires cfg.maxConn >= 1
    ensures exists s :: Reached(cfg, 1, s) && Counted(s.phase) == {} && InFlight(s) == 0
                        && s.idle == [] && s.count >= cfg.maxConn
  {
    var k := cfg.maxConn;
    Sequential(cfg, 1, k, 1);
    AllReturn(cfg, k, k);
    ShelvePhases(k, k);
    var s := Returned(k, k);
    var end := Next(cfg, s, ReleaseSwap);
    forall c | c in s.phase ensures Listed(s.idle, c) {
      assert s.idle[c].c == c;
    }
    assert Counted(end.phase) == {} && PoppedClients(end.phase) == {};
    ReachedNext(cfg, 1, s, ReleaseSwap);
  }

  // ---- the width of the count -----------------------------------------------------------------------

  function Occurs(actions: seq<Action>, a: Action): nat {
    if actions == [] then 0 else (if actions[0] == a then 1 else 0) + Occurs(actions[1..], a)
  }

  /** Each Release forgets at most the limit, each nil return one, on top of what was forgotten before. */
  lemma {:induction false} CorrectionsBounded(cfg: Config, s: Pool, actions: seq<Action>, t: nat, m: nat)
    requires Inv(s) && LegalRun(cfg, s, actions) && AtMostInFlight(cfg, s, actions, t) && t >= 1
    requires m == AtLeastOne(cfg.maxConn) + t - 1 && s.count + s.dials <= m
    ensures var s' := Run(cfg, s, actions);
            s'.forgotten + s'.nils
            <= s.forgotten + s.nils + Occurs(actions, ReleaseStore) * m + Occurs(actions, NilReturned)
    decreases |actions|
  {
    hide Inv, Next, Enabled, InFlight;
    if actions != [] {
      var a, rest := actions[0], actions[1..];
      OneCorrection(cfg, s, a, t, m);
      NextKeeps(cfg, s, a);
      CorrectionsBounded(cfg, Next(cfg, s, a), rest, t, m);
      var n := Occurs(rest, ReleaseStore);
      assert (n + 1) * m == n * m + m;
      hide Run;
    }
  }

  lemma OneCorrection(cfg: Config, s: Pool, a: Action, t: nat, m: nat)
    requires Inv(s) && Enabled(cfg, s, a) && InFlight(s) <= t && InFlight(Next(cfg, s, a)) <= t && t >= 1
    requires m == AtLeastOne(cfg.maxConn) + t - 1 && s.count + s.dials <= m
    ensures var s' := Next(cfg, s, a);
            && s'.forgotten + s'.nils
               <= s.forgotten + s.nils + (if a == ReleaseStore then m else 0) + (if a == NilReturned then 1 else 0)
            && s'.count + s'.dials <= m
  {
  }

  /** The source's 32-bit count never wraps while the limit and the Gets in flight, times the Releases so
      far, and the nil returns so far stay within 2^31. */
  lemma CountFitsInt32(cfg: Config, actions: seq<Action>, t: nat)
    requires LegalRun(cfg, EMPTY, actions) && AtMostInFlight(cfg, EMPTY, actions, t) && t >= 1
    ensures var m: nat := AtLeastOne(cfg.maxConn) + t - 1;
            var low := Occurs(actions, ReleaseStore) * m + Occurs(actions, NilReturned);
            && -low <= Run(cfg, EMPTY, actions).count <= m
            && (m < 0x8000_0000 && low <= 0x8000_0000 ==>
                  -0x8000_0000 <= Run(cfg, EMPTY, actions).count < 0x8000_0000)
  {
    var m := AtLeastOne(cfg.maxConn) + t - 1;
    EveryInterleaving(cfg, actions);
    assert Counted(EMPTY.phase) == {};
    assert Inv(EMPTY);
    hide Inv;
    CorrectionsBounded(cfg, EMPTY, actions, t, m);
    RunBounded(cfg, EMPTY, actions, t);
    Conservation(Run(cfg, EMPTY, actions));
  }

  lemma Conservation(s: Pool)
    requires Inv(s)
    ensures Conserved(s)
  {
  }
}
