/** The pool object: each call as one caller alone makes it, as a script of the machine's steps. */
module ThriftPool {
  import opened Prelude
  import opened PoolProtocol

  datatype Dial = Refused | NotOpen(c: Client) | Open(c: Client)

  datatype GetResult = OverMax | DialError | Disconnected | Got(c: Client)

  // ---- calls as scripts ---------------------------------------------------------------------

  function GetCall(cfg: Config, s: Pool, dial: Dial, alive: bool): (Pool, GetResult)
    requires !dial.Refused? ==> dial.c !in s.phase
  {
    var s1 := Next(cfg, Next(cfg, s, GetStart), GetLock);
    if s.idle == [] && s.count >= cfg.maxConn then (s1, OverMax)
    else if s.idle == [] then
      match dial
      case Refused => (Next(cfg, s1, DialFail), DialError)
      case NotOpen(c) => (Next(cfg, s1, Dialled(c, false)), Disconnected)
      case Open(c) => (Next(cfg, s1, Dialled(c, true)), Got(c))
    else
      var c := s.idle[0].c;
      if alive then (Next(cfg, s1, Checked(c, true)), Got(c)) else (Next(cfg, s1, Checked(c, false)), Disconnected)
  }

  /** Over the limit or not open any more, the client is uncounted and closed; else it is idle. */
  function PutCall(cfg: Config, s: Pool, c: Client, alive: bool): (s': Pool)
    requires At(s, c, Out)
    ensures s' == if s.count > cfg.maxConn || !alive
                  then s.(phase := s.phase[c := Closed], count := s.count - 1, closes := s.closes + multiset{c})
                  else s.(phase := s.phase[c := Idle], idle := s.idle + [Entry(c, s.now)])
  {
    var s1 := Next(cfg, s, PutLoad(c, alive));
    if At(s1, c, PutDrop) then
      var s3 := Next(cfg, Next(cfg, s1, PutDecrement(c)), CloseNow(c));
      assert s3.phase == s.phase[c := Closed];
      s3
    else
      var s2 := Next(cfg, s1, PutPush(c));
      assert s2.phase == s.phase[c := Idle];
      s2
  }

  lemma GetKeeps(cfg: Config, s: Pool, dial: Dial, alive: bool)
    requires Inv(s) && (!dial.Refused? ==> dial.c !in s.phase)
    ensures Inv(GetCall(cfg, s, dial, alive).0)
  {
    var s1 := Next(cfg, s, GetStart);
    NextKeeps(cfg, s, GetStart);
    NextKeeps(cfg, s1, GetLock);
    var s2 := Next(cfg, s1, GetLock);
    if s.idle != [] {
      NextKeeps(cfg, s2, Checked(s.idle[0].c, alive));
    } else if s.count < cfg.maxConn {
      NextKeeps(cfg, s2, match dial
                         case Refused => DialFail
                         case NotOpen(c) => Dialled(c, false)
                         case Open(c) => Dialled(c, true));
    }
    hide Inv;
  }

  lemma GetPops(cfg: Config, s: Pool, dial: Dial, alive: bool)
    requires IdleListed(s) && s.idle != [] && (!dial.Refused? ==> dial.c !in s.phase)
    ensures var c := s.idle[0].c;
            && At(s, c, Idle)
            && GetCall(cfg, s, dial, alive)
               == (s.(idle := s.idle[1..], phase := s.phase[c := if alive then Out else Lost],
                      count := if alive then s.count else s.count - 1),
                   if alive then Got(c) else Disconnected)
  {
    var c := s.idle[0].c;
    assert Listed(s.idle, c);
    assert s.phase[c := Popped][c := Out] == s.phase[c := Out];
    assert s.phase[c := Popped][c := Lost] == s.phase[c := Lost];
  }

  /** What a Get alone answers. With a client in the list, the longest idle one is checked: it is handed out if it
      is open, and otherwise it is uncounted, lost and the caller told it is disconnected. With none, the call is
      refused at the limit; below it the dial decides: its error is passed on, a client that is not open is lost,
      an open one counted and handed out. */
  lemma GetCallOutcome(cfg: Config, s: Pool, dial: Dial, alive: bool)
    requires Inv(s) && (!dial.Refused? ==> dial.c !in s.phase)
    ensures var (s', r) := GetCall(cfg, s, dial, alive);
            && Inv(s')
            && (r.Got? ==> At(s', r.c, Out) && !At(s, r.c, Out) && s.closes[r.c] == 0)
            && (s'.closes, s'.waiting, s'.dials, s'.now) == (s.closes, s.waiting, s.dials, s.now)
    ensures s.idle != [] ==>
              var (s', r) := GetCall(cfg, s, dial, alive);
              var c := s.idle[0].c;
              && r == (if alive then Got(c) else Disconnected)
              && s'.idle == s.idle[1..] && s'.count == (if alive then s.count else s.count - 1)
              && s'.phase == s.phase[c := if alive then Out else Lost]
    ensures s.idle == [] ==>
              var (s', r) := GetCall(cfg, s, dial, alive);
              && (r == OverMax <==> s.count >= cfg.maxConn)
              && (r == DialError <==> s.count < cfg.maxConn && dial.Refused?)
              && (r == Disconnected <==> s.count < cfg.maxConn && dial.NotOpen?)
              && (r.Got? <==> s.count < cfg.maxConn && dial.Open?)
              && (r.Got? ==> r.c == dial.c)
              && s'.idle == [] && s'.count == (if r.Got? then s.count + 1 else s.count)
              && s'.phase == (if r.Got? then s.phase[dial.c := Out]
                              else if r == Disconnected then s.phase[dial.c := Lost] else s.phase)
  {
    GetKeeps(cfg, s, dial, alive);
    assert IdleListed(s) && ClosedOnce(s);
    hide Inv, IdleListed, Counted, Unlisted;
    if s.idle != [] {
      GetPops(cfg, s, dial, alive);
      hide GetCall;
    }
  }

  /** A client put back alone is kept or closed once, and the pool's invariants stay. */
  lemma PutCallKeeps(cfg: Config, s: Pool, c: Client, alive: bool)
    requires Inv(s) && At(s, c, Out)
    ensures var s' := PutCall(cfg, s, c, alive);
            && Inv(s') && !At(s', c, Out)
            && (s.count > cfg.maxConn || !alive <==> s'.closes[c] == 1)
            && (alive && s.count <= cfg.maxConn ==> Listed(s'.idle, c) && s'.count == s.count)
  {
    var s1 := Next(cfg, s, PutLoad(c, alive));
    NextKeeps(cfg, s, PutLoad(c, alive));
    if At(s1, c, PutDrop) {
      NextKeeps(cfg, s1, PutDecrement(c));
      NextKeeps(cfg, Next(cfg, s1, PutDecrement(c)), CloseNow(c));
    } else {
      NextKeeps(cfg, s1, PutPush(c));
      assert PutCall(cfg, s, c, alive).idle[|s.idle|].c == c;
    }
  }

  lemma NilReturnedIs(cfg: Config, s: Pool)
    ensures Next(cfg, s, NilReturned) == s.(count := s.count - 1, nils := s.nils + 1)
  {
  }

  lemma CloseErrIs(cfg: Config, s: Pool, c: Client)
    requires At(s, c, Out)
    ensures Enabled(cfg, Next(cfg, s, CloseErr(c)), CloseNow(c))
    ensures Next(cfg, Next(cfg, s, CloseErr(c)), CloseNow(c))
         == s.(phase := s.phase[c := Closed], count := s.count - 1, closes := s.closes + multiset{c})
  {
    assert s.phase[c := ToClose][c := Closed] == s.phase[c := Closed];
  }

  /** CheckTimeout; the i-th clock reading comes `clock(i)` after the one before. */
  function SweepCall(cfg: Config, s: Pool, clock: nat -> nat, i: nat): Pool
    requires IdleListed(s)
    decreases |s.idle|
  {
    if s.idle == [] then s
    else
      var s1 := Next(cfg, s, Tick(clock(i)));
      if !Expired(cfg, s.idle[0], s1.now) then s1 else SweepCall(cfg, SweepOne(cfg, s1), clock, i + 1)
  }

  lemma SweepUnfolds(cfg: Config, s: Pool, clock: nat -> nat, i: nat)
    requires IdleListed(s)
    ensures var s1 := s.(now := s.now + clock(i));
            && IdleListed(s1)
            && SweepCall(cfg, s, clock, i)
               == if s.idle == [] then s
                  else if Expired(cfg, s.idle[0], s1.now) then SweepCall(cfg, SweepOne(cfg, s1), clock, i + 1) else s1
  {
    LaterListed(s, s.now + clock(i));
    hide IdleListed, Expired, SweepOne;
  }

  lemma LaterListed(s: Pool, now: int)
    requires IdleListed(s)
    ensures IdleListed(s.(now := now))
  {
  }

  /** The sweep from here on, with the i-th clock reading next, ends like this. */
  ghost predicate EndsIn(cfg: Config, s: Pool, clock: nat -> nat, i: nat, end: Pool) {
    IdleListed(s) && SweepCall(cfg, s, clock, i) == end
  }

  function Taken(s: Pool, now: int): Pool
    requires s.idle != []
  {
    var c := s.idle[0].c;
    s.(idle := s.idle[1..], phase := s.phase[c := Closed], closes := s.closes + multiset{c}, count := s.count - 1,
       now := now)
  }

  lemma TakenIs(cfg: Config, s: Pool, now: int)
    requires IdleListed(s) && s.idle != [] && Expired(cfg, s.idle[0], now)
    ensures var s1 := s.(now := now);
            IdleListed(s1) && SweepOne(cfg, s1) == Taken(s, now) && IdleListed(Taken(s, now))
  {
    LaterListed(s, now);
    hide IdleListed;
  }

  lemma Round(cfg: Config, s: Pool, clock: nat -> nat, i: nat, end: Pool)
    requires EndsIn(cfg, s, clock, i, end) && s.idle != []
    ensures var now := s.now + clock(i);
            if now < s.idle[0].t + cfg.idleTimeout then s.(now := now) == end
            else EndsIn(cfg, Taken(s, now), clock, i + 1, end)
  {
    SweepUnfolds(cfg, s, clock, i);
    hide IdleListed, SweepCall, SweepOne, Taken;
    if Expired(cfg, s.idle[0], s.now + clock(i)) {
      TakenIs(cfg, s, s.now + clock(i));
    }
  }

  lemma Ended(cfg: Config, s: Pool, clock: nat -> nat, i: nat, end: Pool)
    requires EndsIn(cfg, s, clock, i, end) && s.idle == []
    ensures s == end
  {
  }

  /** One sweep of an expired front entry. */
  function SweepOne(cfg: Config, s: Pool): (s': Pool)
    requires IdleListed(s) && s.idle != [] && Expired(cfg, s.idle[0], s.now)
    ensures IdleListed(s')
    ensures s' == s.(idle := s.idle[1..], phase := s.phase[s.idle[0].c := Closed],
                     closes := s.closes + multiset{s.idle[0].c}, count := s.count - 1)
  {
    var c := s.idle[0].c;
    PopKeepsListed(s, Closed);
    var s' := Next(cfg, Next(cfg, Next(cfg, s, SweepPop), SweepClose(c)), SweepDecrement(c));
    assert s'.phase == s.phase[c := Closed];
    s'
  }

  /** Release's walk over the list it swapped out. */
  function CloseEach(cfg: Config, s: Pool, entries: seq<Entry>): Pool
    requires forall i :: 0 <= i < |entries| ==> At(s, entries[i].c, ToClose)
    requires forall i, j :: 0 <= i < j < |entries| ==> entries[i].c != entries[j].c
    decreases |entries|
  {
    if entries == [] then s
    else
      assert At(s, entries[0].c, ToClose);
      var s1, rest := Next(cfg, s, CloseNow(entries[0].c)), entries[1..];
      assert forall i :: 0 <= i < |rest| ==> rest[i] == entries[i + 1] && At(s, rest[i].c, ToClose);
      CloseEach(cfg, s1, rest)
  }

  /** Release up to its walk. */
  function SwappedOut(cfg: Config, s: Pool): (s': Pool)
    requires IdleListed(s)
    ensures forall i :: 0 <= i < |s.idle| ==> At(s', s.idle[i].c, ToClose)
  {
    var s' := Next(cfg, Next(cfg, s, ReleaseStore), ReleaseSwap);
    assert forall i :: 0 <= i < |s.idle| ==> Listed(s.idle, s.idle[i].c) && At(s, s.idle[i].c, Idle);
    s'
  }

  lemma SwappedOutIs(cfg: Config, s: Pool)
    requires IdleListed(s)
    ensures SwappedOut(cfg, s) == s.(count := 0, nils := 0, idle := [], phase := Unlisted(s.phase, s.idle),
                                     forgotten := |Counted(s.phase)| - |s.idle|)
  {
    hide Counted, Unlisted, IdleListed;
  }

  function ReleaseCall(cfg: Config, s: Pool): Pool
    requires IdleListed(s)
  {
    CloseEach(cfg, SwappedOut(cfg, s), s.idle)
  }

  // ---- what the scripts achieve -------------------------------------------------------------

  function KeepFresh(cfg: Config, idle: seq<Entry>, now: int): seq<Entry> {
    if idle == [] then []
    else (if now < idle[0].t + cfg.idleTimeout then [idle[0]] else []) + KeepFresh(cfg, idle[1..], now)
  }

  lemma {:induction false} AllFreshKept(cfg: Config, idle: seq<Entry>, now: int)
    requires forall i :: 0 <= i < |idle| ==> now < idle[i].t + cfg.idleTimeout
    ensures KeepFresh(cfg, idle, now) == idle
  {
    if idle != [] {
      AllFreshKept(cfg, idle[1..], now);
    }
  }

  function ClientBag(idle: seq<Entry>): multiset<Client> {
    if idle == [] then multiset{} else multiset{idle[0].c} + ClientBag(idle[1..])
  }

  lemma SweepOneKeeps(cfg: Config, s: Pool)
    requires Inv(s) && s.idle != [] && Expired(cfg, s.idle[0], s.now)
    ensures Inv(SweepOne(cfg, s))
  {
    var c := s.idle[0].c;
    NextKeeps(cfg, s, SweepPop);
    NextKeeps(cfg, Next(cfg, s, SweepPop), SweepClose(c));
    NextKeeps(cfg, Next(cfg, Next(cfg, s, SweepPop), SweepClose(c)), SweepDecrement(c));
  }

  /** A sweep keeps the invariants and moves the clock forward. */
  lemma {:induction false} SweepKeeps(cfg: Config, s: Pool, clock: nat -> nat, i: nat)
    requires Inv(s)
    ensures Inv(SweepCall(cfg, s, clock, i)) && s.now <= SweepCall(cfg, s, clock, i).now
    decreases |s.idle|
  {
    if s.idle != [] {
      var s1 := Next(cfg, s, Tick(clock(i)));
      NextKeeps(cfg, s, Tick(clock(i)));
      if Expired(cfg, s.idle[0], s1.now) {
        SweepOneKeeps(cfg, s1);
        SweepKeeps(cfg, SweepOne(cfg, s1), clock, i + 1);
      }
    }
  }

  /** Stopping at the first fresh entry filters the whole list: what stays is what has been idle for less than
      the timeout at the last clock reading. */
  lemma {:induction false} SweepFilters(cfg: Config, s: Pool, clock: nat -> nat, i: nat)
    requires Inv(s)
    ensures SweepCall(cfg, s, clock, i).idle == KeepFresh(cfg, s.idle, SweepCall(cfg, s, clock, i).now)
    decreases |s.idle|
  {
    if s.idle != [] {
      var s1 := Next(cfg, s, Tick(clock(i)));
      NextKeeps(cfg, s, Tick(clock(i)));
      if Expired(cfg, s.idle[0], s1.now) {
        SweepOneKeeps(cfg, s1);
        SweepKeeps(cfg, SweepOne(cfg, s1), clock, i + 1);
        SweepFilters(cfg, SweepOne(cfg, s1), clock, i + 1);
      } else {
        AllFreshKept(cfg, s.idle, s1.now);
      }
    }
  }

  /** What a sweep removes is a prefix; each client of it is closed once and uncounted. */
  lemma {:induction false} SweepAccounts(cfg: Config, s: Pool, clock: nat -> nat, i: nat) returns (n: nat)
    requires IdleListed(s)
    ensures var s' := SweepCall(cfg, s, clock, i);
            && n <= |s.idle| && s'.idle == s.idle[n..] && s'.count == s.count - n
            && s'.closes == s.closes + ClientBag(s.idle[..n])
            && s'.forgotten == s.forgotten && s'.nils == s.nils
    decreases |s.idle|
  {
    SweepUnfolds(cfg, s, clock, i);
    hide SweepCall, IdleListed;
    if s.idle == [] || !Expired(cfg, s.idle[0], s.now + clock(i)) {
      n := 0;
    } else {
      var s2 := SweepOne(cfg, s.(now := s.now + clock(i)));
      var m := SweepAccounts(cfg, s2, clock, i + 1);
      n := m + 1;
      BagFront(s.idle, m);
      hide ClientBag, SweepOne, Expired;
      assert s.idle[1..][m..] == s.idle[n..];
    }
  }

  /** The clock after m readings from the i-th on. */
  function Reading(now: int, clock: nat -> nat, i: nat, m: nat): int
    decreases m
  {
    if m == 0 then now else Reading(now + clock(i), clock, i + 1, m - 1)
  }

  /** The first n clients were taken, the k-th at the k-th clock reading, having been idle for the timeout by then;
      the rest was kept because the next client, at the last reading, had not. */
  predicate SweptInTime(cfg: Config, idle: seq<Entry>, now: int, clock: nat -> nat, i: nat,
                        n: nat, kept: seq<Entry>, end: int)
  {
    && n <= |idle| && kept == idle[n..]
    && (forall k: nat :: k < n ==> idle[k].t + cfg.idleTimeout <= Reading(now, clock, i, k + 1))
    && end == Reading(now, clock, i, if kept == [] then n else n + 1)
    && (kept != [] ==> end < kept[0].t + cfg.idleTimeout)
  }

  lemma SweptOneMore(cfg: Config, idle: seq<Entry>, now: int, clock: nat -> nat, i: nat,
                     m: nat, kept: seq<Entry>, end: int)
    requires idle != [] && idle[0].t + cfg.idleTimeout <= now + clock(i)
    requires SweptInTime(cfg, idle[1..], now + clock(i), clock, i + 1, m, kept, end)
    ensures SweptInTime(cfg, idle, now, clock, i, m + 1, kept, end)
  {
    assert idle[1..][m..] == idle[m + 1..];
    forall k: nat | k < m + 1 ensures idle[k].t + cfg.idleTimeout <= Reading(now, clock, i, k + 1) {
      if k > 0 {
        assert idle[1..][k - 1] == idle[k];
      } else {
        assert Reading(now, clock, i, 1) == Reading(now + clock(i), clock, i + 1, 0);
      }
    }
  }

  lemma SweptNone(cfg: Config, idle: seq<Entry>, now: int, clock: nat -> nat, i: nat)
    requires idle == [] || now + clock(i) < idle[0].t + cfg.idleTimeout
    ensures SweptInTime(cfg, idle, now, clock, i, 0, idle, if idle == [] then now else now + clock(i))
  {
    assert idle[0..] == idle;
    assert Reading(now, clock, i, 1) == Reading(now + clock(i), clock, i + 1, 0);
  }

  lemma SweepStops(cfg: Config, s: Pool, clock: nat -> nat, i: nat)
    requires IdleListed(s) && (s.idle == [] || !Expired(cfg, s.idle[0], s.now + clock(i)))
    ensures var s' := SweepCall(cfg, s, clock, i); SweptInTime(cfg, s.idle, s.now, clock, i, 0, s'.idle, s'.now)
  {
    hide IdleListed, SweptInTime;
    SweptNone(cfg, s.idle, s.now, clock, i);
  }

  lemma SweepGoesOn(cfg: Config, s: Pool, clock: nat -> nat, i: nat)
    requires IdleListed(s) && s.idle != [] && Expired(cfg, s.idle[0], s.now + clock(i))
    ensures var s1 := s.(now := s.now + clock(i));
            && IdleListed(s1) && SweepCall(cfg, s, clock, i) == SweepCall(cfg, SweepOne(cfg, s1), clock, i + 1)
            && SweepOne(cfg, s1).idle == s.idle[1..] && SweepOne(cfg, s1).now == s1.now
  {
    SweepUnfolds(cfg, s, clock, i);
    hide SweepCall, IdleListed;
  }

  /** What a sweep takes and leaves, and when. */
  lemma {:induction false} SweepIsInTime(cfg: Config, s: Pool, clock: nat -> nat, i: nat) returns (n: nat)
    requires IdleListed(s)
    ensures var s' := SweepCall(cfg, s, clock, i); SweptInTime(cfg, s.idle, s.now, clock, i, n, s'.idle, s'.now)
    decreases |s.idle|
  {
    hide SweepCall, IdleListed, SweptInTime, SweepOne;
    if s.idle == [] || !Expired(cfg, s.idle[0], s.now + clock(i)) {
      SweepStops(cfg, s, clock, i);
      n := 0;
    } else {
      SweepGoesOn(cfg, s, clock, i);
      var s' := SweepCall(cfg, s, clock, i);
      var m := SweepIsInTime(cfg, SweepOne(cfg, s.(now := s.now + clock(i))), clock, i + 1);
      n := m + 1;
      SweptOneMore(cfg, s.idle, s.now, clock, i, m, s'.idle, s'.now);
    }
  }

  /** From s to s', clients were taken once they had been idle for the timeout, and in a sorted list those left have
      been idle for less. */
  ghost predicate SweepsInTime(cfg: Config, s: Pool, clock: nat -> nat, s': Pool) {
    && (exists n: nat :: SweptInTime(cfg, s.idle, s.now, clock, 0, n, s'.idle, s'.now))
    && (Sorted(s.idle, s.now) ==> forall e :: e in s'.idle ==> s'.now < e.t + cfg.idleTimeout)
  }

  lemma SweepTakesAndLeaves(cfg: Config, s: Pool, clock: nat -> nat)
    requires IdleListed(s)
    ensures SweepsInTime(cfg, s, clock, SweepCall(cfg, s, clock, 0))
  {
    var n := SweepIsInTime(cfg, s, clock, 0);
    hide SweepCall, IdleListed;
  }

  lemma BagFront(idle: seq<Entry>, m: nat)
    requires m < |idle|
    ensures ClientBag(idle[..m + 1]) == multiset{idle[0].c} + ClientBag(idle[1..][..m])
  {
    assert idle[..m + 1][1..] == idle[1..][..m];
  }

  lemma {:induction false} KeptAreFresh(cfg: Config, idle: seq<Entry>, now: int)
    ensures forall e :: e in KeepFresh(cfg, idle, now) <==> e in idle && now < e.t + cfg.idleTimeout
  {
    if idle != [] {
      KeptAreFresh(cfg, idle[1..], now);
      assert idle == [idle[0]] + idle[1..];
    }
  }

  lemma {:induction false} CloseEachClosesOnce(cfg: Config, s: Pool, entries: seq<Entry>)
    requires Inv(s)
    requires forall i :: 0 <= i < |entries| ==> At(s, entries[i].c, ToClose)
    requires forall i, j :: 0 <= i < j < |entries| ==> entries[i].c != entries[j].c
    ensures var s' := CloseEach(cfg, s, entries);
            && Inv(s') && s'.closes == s.closes + ClientBag(entries)
            && (s'.idle, s'.count, s'.forgotten, s'.nils) == (s.idle, s.count, s.forgotten, s.nils)
    decreases |entries|
  {
    if entries != [] {
      NextKeeps(cfg, s, CloseNow(entries[0].c));
      CloseEachClosesOnce(cfg, Next(cfg, s, CloseNow(entries[0].c)), entries[1..]);
    }
  }

  /** A Release alone closes each idle client exactly once, zeroes the count, and forgets exactly the
      counted clients that were not idle. */
  lemma ReleaseClosesIdleOnce(cfg: Config, s: Pool)
    requires Inv(s)
    ensures var s' := ReleaseCall(cfg, s);
            && Inv(s') && s'.idle == [] && s'.count == 0
            && s'.closes == s.closes + ClientBag(s.idle)
            && s'.forgotten == |set c | c in s.phase && Counts(s.phase[c]) && s.phase[c] != Idle|
  {
    NextKeeps(cfg, s, ReleaseStore);
    NextKeeps(cfg, Next(cfg, s, ReleaseStore), ReleaseSwap);
    OnlyReleaseForgets(cfg, s, ReleaseStore);
    CloseEachClosesOnce(cfg, SwappedOut(cfg, s), s.idle);
  }

  // ---- the object ---------------------------------------------------------------------------

  // ---- calls one after another ---------------------------------------------------------------------

  datatype Call =
    | GetC(dial: Dial, alive: bool)
    | PutC(c: Client, alive: bool)
    | CloseErrC(c: Client)
    | NilC                           // Put or CloseErrConn of a nil client
    | CheckTimeoutC(clock: nat -> nat)
    | ReleaseC

  /** Dials are fresh, and only a client that is out is returned. */
  predicate Allowed(s: Pool, call: Call) {
    match call
    case GetC(dial, _) => !dial.Refused? ==> dial.c !in s.phase
    case PutC(c, _) => At(s, c, Out)
    case CloseErrC(c) => At(s, c, Out)
    case _ => true
  }

  function CallNext(cfg: Config, s: Pool, call: Call): Pool
    requires IdleListed(s) && Allowed(s, call)
  {
    match call
    case GetC(dial, alive) => GetCall(cfg, s, dial, alive).0
    case PutC(c, alive) => PutCall(cfg, s, c, alive)
    case CloseErrC(c) => Next(cfg, Next(cfg, s, CloseErr(c)), CloseNow(c))
    case NilC => Next(cfg, s, NilReturned)
    case CheckTimeoutC(clock) => SweepCall(cfg, s, clock, 0)
    case ReleaseC => ReleaseCall(cfg, s)
  }

  lemma CallKeeps(cfg: Config, s: Pool, call: Call)
    requires Inv(s) && Allowed(s, call)
    ensures Inv(CallNext(cfg, s, call))
    ensures s.count <= cfg.maxConn && cfg.maxConn >= 0 ==> CallNext(cfg, s, call).count <= cfg.maxConn
  {
    match call {
      case GetC(dial, alive) => GetCallOutcome(cfg, s, dial, alive);
      case PutC(c, alive) => PutCallKeeps(cfg, s, c, alive);
      case CloseErrC(c) =>
        NextKeeps(cfg, s, CloseErr(c));
        NextKeeps(cfg, Next(cfg, s, CloseErr(c)), CloseNow(c));
      case NilC => NextKeeps(cfg, s, NilReturned);
      case CheckTimeoutC(clock) =>
        SweepKeeps(cfg, s, clock, 0);
        var n := SweepAccounts(cfg, s, clock, 0);
      case ReleaseC => ReleaseClosesIdleOnce(cfg, s);
    }
    hide Inv;
  }

  /** Calls run whole, one after another. */
  ghost predicate AllAllowed(cfg: Config, s: Pool, calls: seq<Call>)
    requires Inv(s)
    decreases |calls|
  {
    calls == [] ||
    (Allowed(s, calls[0]) && (CallKeeps(cfg, s, calls[0]); AllAllowed(cfg, CallNext(cfg, s, calls[0]), calls[1..])))
  }

  ghost function RunCalls(cfg: Config, s: Pool, calls: seq<Call>): (s': Pool)
    requires Inv(s) && AllAllowed(cfg, s, calls)
    ensures Inv(s')
    decreases |calls|
  {
    if calls == [] then s
    else
      CallKeeps(cfg, s, calls[0]);
      RunCalls(cfg, CallNext(cfg, s, calls[0]), calls[1..])
  }

  lemma {:induction false} SequentialCallsKeepLimit(cfg: Config, s: Pool, calls: seq<Call>)
    requires Inv(s) && AllAllowed(cfg, s, calls) && 0 <= cfg.maxConn && s.count <= cfg.maxConn
    ensures RunCalls(cfg, s, calls).count <= cfg.maxConn
    decreases |calls|
  {
    assert IdleListed(s);
    hide Inv, CallNext, IdleListed;
    if calls != [] {
      CallKeeps(cfg, s, calls[0]);
      SequentialCallsKeepLimit(cfg, CallNext(cfg, s, calls[0]), calls[1..]);
    }
  }

  lemma EmptyIsFine()
    ensures Inv(EMPTY)
  {
    assert Counted(EMPTY.phase) == {};
  }

  /** Calls that run one after another respect the limit exactly when it is not negative: it takes two at a
      time to exceed it. */
  lemma SequentialLimitExactly(cfg: Config)
    ensures Inv(EMPTY)
    ensures (forall calls :: AllAllowed(cfg, EMPTY, calls) ==> RunCalls(cfg, EMPTY, calls).count <= cfg.maxConn)
            <==> cfg.maxConn >= 0
  {
    EmptyIsFine();
    hide Inv;
    if cfg.maxConn >= 0 {
      forall calls | AllAllowed(cfg, EMPTY, calls) ensures RunCalls(cfg, EMPTY, calls).count <= cfg.maxConn {
        SequentialCallsKeepLimit(cfg, EMPTY, calls);
      }
    } else {
      NothingExceeds(cfg);
    }
    hide AllAllowed, RunCalls;
  }

  lemma NothingExceeds(cfg: Config)
    requires Inv(EMPTY) && cfg.maxConn < 0
    ensures exists calls :: AllAllowed(cfg, EMPTY, calls) && RunCalls(cfg, EMPTY, calls).count > cfg.maxConn
  {
    hide Inv;
    assert AllAllowed(cfg, EMPTY, []) && RunCalls(cfg, EMPTY, []) == EMPTY;
  }

  class ThriftPool {
    const cfg: Config
    var idle: seq<Entry>
    var count: int
    var now: int  // what nowFunc reads

    // Where the clients are, what was closed, and the corrections to the count.
    ghost var phase: map<Client, Phase>
    ghost var closes: multiset<Client>
    ghost var forgotten: int
    ghost var nils: nat

    ghost function View(): Pool
      reads this
    {
      Pool(idle, count, phase, 0, 0, 0, closes, now, forgotten, nils)
    }

    constructor (cfg: Config)
      ensures View() == EMPTY && this.cfg == cfg
    {
      this.cfg := cfg;
      idle, count, phase, closes, now, forgotten, nils := [], 0, map[], multiset{}, 0, 0, 0;
    }

    /** `dial` and `alive` are what Dial and Check answer, should they be asked. */
    method Get(dial: Dial, alive: bool) returns (r: GetResult)
      requires !dial.Refused? ==> dial.c !in phase
      modifies this
      ensures (View(), r) == GetCall(cfg, old(View()), dial, alive)
    {
      if |idle| == 0 && count >= cfg.maxConn {
        return OverMax;
      }
      if |idle| == 0 {
        match dial {
          case Refused =>
            return DialError;
          case NotOpen(c) =>
            phase := phase[c := Lost];
            return Disconnected;
          case Open(c) =>
            phase := phase[c := Out];
            count := count + 1;
            return Got(c);
        }
      }
      var c := idle[0].c;
      idle := idle[1..];
      phase := phase[c := Popped];
      if !alive {
        phase := phase[c := Lost];
        count := count - 1;
        return Disconnected;
      }
      phase := phase[c := Out];
      return Got(c);
    }

    /** `first` and `second` are what the two Checks answer. */
    method Put(client: Option<Client>, first: bool, second: bool)
      requires client.Some? ==> At(View(), client.value, Out)
      modifies this
      ensures client.None? ==> View() == Next(cfg, old(View()), NilReturned)
      ensures client.Some? ==> View() == PutCall(cfg, old(View()), client.value, first && second)
    {
      NilReturnedIs(cfg, View());
      hide Next, PutCall;
      if client.None? {
        count, nils := count - 1, nils + 1;
        return;
      }
      var c := client.value;
      if count > cfg.maxConn || !first {
        count := count - 1;
        Close(c);
        return;
      }
      if !second {
        count := count - 1;
        Close(c);
        return;
      }
      idle := idle + [Entry(c, now)];
      phase := phase[c := Idle];
    }

    method CloseErrConn(client: Option<Client>)
      requires client.Some? ==> At(View(), client.value, Out)
      modifies this
      ensures View() == match client
                        case None => Next(cfg, old(View()), NilReturned)
                        case Some(c) => Next(cfg, Next(cfg, old(View()), CloseErr(c)), CloseNow(c))
    {
      NilReturnedIs(cfg, View());
      if client.Some? {
        CloseErrIs(cfg, View(), client.value);
      }
      hide Next;
      count := count - 1;
      match client {
        case None => nils := nils + 1;
        case Some(c) => Close(c);
      }
    }

    ghost method Close(c: Client)
      modifies this`phase, this`closes
      ensures phase == old(phase)[c := Closed] && closes == old(closes) + multiset{c}
    {
      phase, closes := phase[c := Closed], closes + multiset{c};
    }

    /** The i-th reading of the clock is `clock(i)` later than the one before. */
    method CheckTimeout(clock: nat -> nat)
      requires IdleListed(View())
      modifies this
      ensures View() == SweepCall(cfg, old(View()), clock, 0)
      ensures SweepsInTime(cfg, old(View()), clock, View())
    {
      ghost var s, end := View(), SweepCall(cfg, View(), clock, 0);
      assert SweepsInTime(cfg, s, clock, end) by { SweepTakesAndLeaves(cfg, s, clock); }
      var i := 0;
      hide SweepCall, IdleListed, SweepsInTime;
      assert EndsIn(cfg, View(), clock, i, end);
      hide EndsIn, Taken;
      while |idle| != 0
        invariant EndsIn(cfg, View(), clock, i, end)
        decreases |idle|
      {
        var swept := SweepRound(clock(i), clock, i, end);
        if !swept {
          return;
        }
        i := i + 1;
      }
      Ended(cfg, View(), clock, i, end);
    }

    /** One round of CheckTimeout, at the i-th clock reading of a sweep that is to end in `end`. */
    method SweepRound(d: nat, ghost clock: nat -> nat, ghost i: nat, ghost end: Pool) returns (swept: bool)
      requires |idle| != 0 && d == clock(i) && EndsIn(cfg, View(), clock, i, end)
      modifies this
      ensures swept ==> EndsIn(cfg, View(), clock, i + 1, end) && |idle| < |old(idle)|
      ensures !swept ==> View() == end
    {
      ghost var s := View();
      assert if now + d < idle[0].t + cfg.idleTimeout then s.(now := now + d) == end
             else EndsIn(cfg, Taken(s, now + d), clock, i + 1, end)
      by { Round(cfg, s, clock, i, end); }
      hide EndsIn, Taken;
      swept := SweepFront(d);
    }

    /** The clock reads d later than before. */
    method SweepFront(d: nat) returns (swept: bool)
      requires |idle| != 0
      modifies this
      ensures swept == (old(idle[0].t) + cfg.idleTimeout <= old(now) + d)
      ensures View() == if swept then Taken(old(View()), old(now) + d) else old(View()).(now := old(now) + d)
      ensures swept ==> |idle| < |old(idle)|
    {
      var ele := idle[0];
      now := now + d;
      if ele.t + cfg.idleTimeout > now {
        return false;
      }
      idle := idle[1..];
      Close(ele.c);
      count := count - 1;
      return true;
    }

    method Release()
      requires IdleListed(View())
      modifies this
      ensures View() == ReleaseCall(cfg, old(View()))
    {
      ghost var s := View();
      assert forall i, j :: 0 <= i < j < |s.idle| ==> s.idle[i].c != s.idle[j].c;
      SwappedOutIs(cfg, s);
      hide Next, Counted, Unlisted, IdleListed, SwappedOut;
      count := 0;
      forgotten, nils := |Counted(phase)|, 0;
      var list := idle;
      idle := [];
      phase, forgotten := Unlisted(phase, list), forgotten - |list|;
      assert View() == SwappedOut(cfg, s);
      CloseAll(list);
    }

    method CloseAll(list: seq<Entry>)
      requires forall k :: 0 <= k < |list| ==> At(View(), list[k].c, ToClose)
      requires forall i, j :: 0 <= i < j < |list| ==> list[i].c != list[j].c
      modifies this`phase, this`closes
      ensures View() == CloseEach(cfg, old(View()), list)
    {
      hide Counted, Unlisted;
      var i := 0;
      while i < |list|
        invariant i <= |list|
        invariant forall k :: i <= k < |list| ==> At(View(), list[k].c, ToClose)
        invariant CloseEach(cfg, View(), list[i..]) == CloseEach(cfg, old(View()), list)
      {
        assert list[i..][0] == list[i] && list[i..][1..] == list[i + 1..];
        Close(list[i].c);
        i := i + 1;
      }
    }
  }
}
