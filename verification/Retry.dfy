/** Retry decisions, the retrying unary call, and its at-most-once guarantee. */
module Retry {
  import opened Prelude

  datatype Code = Canceled | Unknown | DeadlineExceeded | Unauthenticated | Unavailable | Other(n: nat)

  /** What the client can tell from an error's description: the two texts that gRPC uses when no
      connection was established, a description that the etcd error table knows (with its code),
      or anything else. */
  datatype Description =
    | NoAddressAvailable
    | NoConnectionAvailable
    | InvalidAuthToken
    | EtcdError(etcdCode: Code)
    | Text

  /** `isStatus` tells a gRPC status error from any other error value. */
  datatype RpcError = RpcError(isStatus: bool, code: Code, desc: Description)

  datatype ContextErr = CtxDeadlineExceeded | CtxCanceled | CtxOther

  datatype RetryPolicy = Repeatable | NonRepeatable

  datatype Options = Options(policy: RetryPolicy, max: nat, retryAuth: bool)

  function GrpcCode(e: RpcError): Code {
    if e.isStatus then e.code else Unknown
  }

  predicate IsContextError(e: RpcError) {
    GrpcCode(e) == DeadlineExceeded || GrpcCode(e) == Canceled
  }

  predicate IsSafeRetryImmutableRPC(e: RpcError) {
    if e.desc == InvalidAuthToken || (e.desc.EtcdError? && e.desc.etcdCode != Unavailable) then false
    else e.isStatus && e.code == Unavailable
  }

  predicate IsSafeRetryMutableRPC(e: RpcError) {
    if e.isStatus && e.code != Unavailable then false
    else e.desc == NoAddressAvailable || e.desc == NoConnectionAvailable
  }

  predicate IsSafeRetry(e: RpcError, opts: Options) {
    if IsContextError(e) then false
    else match opts.policy
      case Repeatable => IsSafeRetryImmutableRPC(e)
      case NonRepeatable => IsSafeRetryMutableRPC(e)
  }

  function ContextErrToGrpcErr(c: ContextErr): RpcError {
    match c
    case CtxDeadlineExceeded => RpcError(true, DeadlineExceeded, Text)
    case CtxCanceled => RpcError(true, Canceled, Text)
    case CtxOther => RpcError(true, Unknown, Text)
  }

  // ---- one call -----------------------------------------------------------------------------

  /** One invocation's outcome; `ctxDone` is what the call context says right after a failure. */
  datatype Outcome = Success | Failed(err: RpcError, ctxDone: bool)

  /** The adversary: how each attempt ends, how long each backoff is, and whether the context ends
      during it. */
  datatype Env = Env(invoke: nat -> Outcome, backoff: nat -> nat, cancelled: nat -> Option<ContextErr>)

  datatype Verdict = Stop | AgainLiveContext | AgainAuth | AgainSafe

  function Decide(o: Outcome, opts: Options): Verdict
    requires o.Failed?
  {
    if IsContextError(o.err) then (if o.ctxDone then Stop else AgainLiveContext)
    else if opts.retryAuth && o.err.desc == InvalidAuthToken then AgainAuth
    else if IsSafeRetry(o.err, opts) then AgainSafe else Stop
  }

  /** The error with which the wait before an attempt ends, if the context ends during it. */
  function WaitRetryBackoff(env: Env, attempt: nat): Option<RpcError> {
    if attempt > 0 && env.backoff(attempt) > 0 && env.cancelled(attempt).Some?
    then Some(ContextErrToGrpcErr(env.cancelled(attempt).value)) else None
  }

  /** The call's error and the outcomes of its invocations, in order. */
  datatype Call = Call(err: Option<RpcError>, log: seq<Outcome>)

  function ErrorOf(o: Outcome): Option<RpcError> {
    if o.Success? then None else Some(o.err)
  }

  function Attempts(opts: Options, env: Env, attempt: nat, last: Option<RpcError>): Call
    decreases opts.max - attempt
  {
    if attempt >= opts.max then Call(last, [])
    else if WaitRetryBackoff(env, attempt).Some? then Call(WaitRetryBackoff(env, attempt), [])
    else
      var o := env.invoke(attempt);
      if o.Success? || Decide(o, opts) == Stop then Call(ErrorOf(o), [o])
      else
        var rest := Attempts(opts, env, attempt + 1, Some(o.err));
        Call(rest.err, [o] + rest.log)
  }

  function Unary(opts: Options, env: Env): Call {
    if opts.max == 0 then Call(ErrorOf(env.invoke(0)), [env.invoke(0)])
    else Attempts(opts, env, 0, None)
  }

  /** One round of the loop, when `log` was made before it. */
  lemma AttemptsStep(opts: Options, env: Env, attempt: nat, last: Option<RpcError>, log: seq<Outcome>)
    requires attempt < opts.max
    ensures var c, o := Attempts(opts, env, attempt, last), env.invoke(attempt);
            if WaitRetryBackoff(env, attempt).Some? then c == Call(WaitRetryBackoff(env, attempt), [])
            else if o.Success? || Decide(o, opts) == Stop then c == Call(ErrorOf(o), [o])
            else var rest := Attempts(opts, env, attempt + 1, Some(o.err));
                 c.err == rest.err && log + c.log == log + [o] + rest.log
  {
    var o := env.invoke(attempt);
    if o.Failed? {
      var rest := Attempts(opts, env, attempt + 1, Some(o.err));
      assert log + ([o] + rest.log) == log + [o] + rest.log;
    }
  }

  /** The interceptor's loop. */
  method UnaryClientInterceptor(opts: Options, env: Env) returns (err: Option<RpcError>, log: seq<Outcome>)
    ensures Call(err, log) == Unary(opts, env)
  {
    hide IsSafeRetry, IsContextError, WaitRetryBackoff;
    if opts.max == 0 {
      var o := env.invoke(0);
      return ErrorOf(o), [o];
    }
    var lastErr: Option<RpcError> := None;
    log := [];
    var attempt := 0;
    while attempt < opts.max
      invariant attempt <= opts.max
      invariant var rest := Attempts(opts, env, attempt, lastErr);
                Unary(opts, env) == Call(rest.err, log + rest.log)
    {
      AttemptsStep(opts, env, attempt, lastErr, log);
      hide Attempts, Unary;
      var interrupted := WaitRetryBackoff(env, attempt);
      if interrupted.Some? {
        assert log + [] == log;
        return interrupted, log;
      }
      var o := env.invoke(attempt);
      log := log + [o];
      if o.Success? {
        return None, log;
      }
      lastErr := Some(o.err);
      if IsContextError(o.err) {
        if o.ctxDone {
          return lastErr, log;
        }
      } else if opts.retryAuth && o.err.desc == InvalidAuthToken {
      } else if !IsSafeRetry(o.err, opts) {
        return lastErr, log;
      }
      attempt := attempt + 1;
    }
    assert log + [] == log;
    err := lastErr;
  }

  // ---- properties ---------------------------------------------------------------------------

  predicate Retriable(o: Outcome, opts: Options) {
    o.Failed? && Decide(o, opts) != Stop
  }

  /** The i-th invocation, and the wait before it, counted from an attempt on. */
  function InvokeFrom(env: Env, attempt: nat, i: nat): Outcome {
    env.invoke(attempt + i)
  }

  function WaitFrom(env: Env, attempt: nat, i: nat): Option<RpcError> {
    WaitRetryBackoff(env, attempt + i)
  }

  lemma FromLater(env: Env, attempt: nat, i: nat)
    requires i > 0
    ensures InvokeFrom(env, attempt, i) == InvokeFrom(env, attempt + 1, i - 1)
    ensures WaitFrom(env, attempt, i) == WaitFrom(env, attempt + 1, i - 1)
  {
  }

  lemma FromStart(env: Env, i: nat)
    ensures InvokeFrom(env, 0, i) == env.invoke(i) && WaitFrom(env, 0, i) == WaitRetryBackoff(env, i)
  {
  }

  /** From any attempt on: what is invoked, why the loop ends, and with which error. */
  lemma {:induction false} AttemptsShape(opts: Options, env: Env, attempt: nat, last: Option<RpcError>)
    requires attempt <= opts.max
    ensures var c := Attempts(opts, env, attempt, last);
            && |c.log| <= opts.max - attempt
            && (forall i :: 0 <= i < |c.log| ==> c.log[i] == InvokeFrom(env, attempt, i))
            && (forall i :: 0 <= i < |c.log| ==> WaitFrom(env, attempt, i).None?)
            && (forall i :: 0 <= i < |c.log| - 1 ==> Retriable(c.log[i], opts))
            && (|c.log| < opts.max - attempt ==>
                  (c.log != [] && !Retriable(c.log[|c.log| - 1], opts)) || WaitFrom(env, attempt, |c.log|).Some?)
            && c.err == (
                if c.log != [] && !Retriable(c.log[|c.log| - 1], opts) then ErrorOf(c.log[|c.log| - 1])
                else if |c.log| < opts.max - attempt then WaitFrom(env, attempt, |c.log|)
                else if c.log != [] then ErrorOf(c.log[|c.log| - 1]) else last)
    decreases opts.max - attempt
  {
    hide Decide, WaitRetryBackoff;
    if attempt < opts.max && WaitRetryBackoff(env, attempt).None? && Retriable(env.invoke(attempt), opts) {
      var o := env.invoke(attempt);
      AttemptsShape(opts, env, attempt + 1, Some(o.err));
      var c, rest := Attempts(opts, env, attempt, last), Attempts(opts, env, attempt + 1, Some(o.err));
      assert c.log == [o] + rest.log && c.err == rest.err;
      FromLater(env, attempt, |c.log|);
      hide Attempts, Retriable;
      forall i | 0 <= i < |c.log|
        ensures c.log[i] == InvokeFrom(env, attempt, i) && WaitFrom(env, attempt, i).None?
      {
        if i > 0 {
          FromLater(env, attempt, i);
        }
      }
    }
  }

  lemma SuccessIsFinal(opts: Options)
    ensures forall o: Outcome :: Retriable(o, opts) ==> o.Failed?
  {
  }

  /** The attempts from the first on, when retrying is on. */
  lemma FirstAttempts(opts: Options, env: Env)
    requires opts.max > 0
    ensures var c := Attempts(opts, env, 0, None);
            && 1 <= |c.log| <= opts.max
            && (forall i :: 0 <= i < |c.log| ==> c.log[i] == env.invoke(i) && WaitRetryBackoff(env, i).None?)
            && (forall i :: 0 <= i < |c.log| - 1 ==> Retriable(c.log[i], opts))
            && (|c.log| < opts.max ==>
                  !Retriable(c.log[|c.log| - 1], opts) || WaitRetryBackoff(env, |c.log|).Some?)
            && c.err == if Retriable(c.log[|c.log| - 1], opts) && |c.log| < opts.max
                        then WaitRetryBackoff(env, |c.log|) else ErrorOf(c.log[|c.log| - 1])
  {
    NoFirstWait(env);
    hide Attempts, Retriable, ErrorOf, WaitRetryBackoff, WaitFrom, InvokeFrom;
    var c := Attempts(opts, env, 0, None);
    AttemptsShape(opts, env, 0, None);
    FromStart(env, |c.log|);
    forall i | 0 <= i < |c.log| ensures c.log[i] == env.invoke(i) && WaitRetryBackoff(env, i).None? {
      FromStart(env, i);
    }
  }

  lemma NoFirstWait(env: Env)
    ensures WaitRetryBackoff(env, 0).None?
  {
  }

  /** A call invokes at least once, at most `max` times (once when retrying is off), retries only
      after a retriable error, goes on until an attempt settles it, the context ends during a
      backoff or `max` is used up, and reports what ended it. */
  lemma UnaryShape(opts: Options, env: Env)
    ensures var c := Unary(opts, env);
            && 1 <= |c.log| <= (if opts.max == 0 then 1 else opts.max)
            && (forall i :: 0 <= i < |c.log| ==> c.log[i] == env.invoke(i))
            && (forall i :: 0 <= i < |c.log| - 1 ==> Retriable(c.log[i], opts))
            && (c.err.None? <==> c.log[|c.log| - 1].Success?)
            && (|c.log| < opts.max ==>
                  !Retriable(c.log[|c.log| - 1], opts) || WaitRetryBackoff(env, |c.log|).Some?)
            && (c.err == ErrorOf(c.log[|c.log| - 1])
                || (c.err.Some? && c.err == WaitRetryBackoff(env, |c.log|) && |c.log| < opts.max))
  {
    if opts.max > 0 {
      assert Unary(opts, env) == Attempts(opts, env, 0, None);
      hide Unary, Attempts, Retriable, WaitRetryBackoff;
      FirstAttempts(opts, env);
      SuccessIsFinal(opts);
    }
  }

  // ---- retried exactly when safe --------------------------------------------------------------------

  /** The failures to try again after, by the error itself and whether the caller's context is done: a deadline or a
      cancellation that is not the caller's own; rejected credentials if they are to be renewed; if the request
      changes something, only an error saying that there was no connection, which is Unavailable or no status at
      all; if it does not, Unavailable whatever the text, unless the text is an etcd error with another code. */
  predicate RetrySet(e: RpcError, ctxDone: bool, opts: Options) {
    if e.isStatus && e.code in {DeadlineExceeded, Canceled} then !ctxDone
    else
      || (e.desc == InvalidAuthToken && opts.retryAuth)
      || (opts.policy == NonRepeatable && e.desc in {NoAddressAvailable, NoConnectionAvailable}
          && (!e.isStatus || e.code == Unavailable))
      || (opts.policy == Repeatable && e.isStatus && e.code == Unavailable && e.desc != InvalidAuthToken
          && (e.desc.EtcdError? ==> e.desc.etcdCode == Unavailable))
  }

  lemma RetriableExactly(o: Outcome, opts: Options)
    ensures Retriable(o, opts) <==> o.Failed? && RetrySet(o.err, o.ctxDone, opts)
  {
  }

  /** The call's context ends during the wait before an attempt. */
  predicate CutShort(env: Env, attempt: nat) {
    attempt > 0 && env.backoff(attempt) > 0 && env.cancelled(attempt).Some?
  }

  /** The status code that stands for how a context ended. */
  predicate CodeFor(c: ContextErr, code: Code) {
    && (c == CtxDeadlineExceeded <==> code == DeadlineExceeded)
    && (c == CtxCanceled <==> code == Canceled)
    && (c == CtxOther <==> code == Unknown)
  }

  lemma WaitIsCut(env: Env, attempt: nat)
    ensures match WaitRetryBackoff(env, attempt)
            case None => !CutShort(env, attempt)
            case Some(e) => CutShort(env, attempt) && e.isStatus && CodeFor(env.cancelled(attempt).value, e.code)
  {
  }

  /** How a call goes on and how it ends: it tries again after exactly the failures of the retry set, as long as
      `max` allows and no wait is cut short, and its error is that of its last attempt or of the wait cut short. */
  lemma UnaryExactly(opts: Options, env: Env)
    ensures var c := Unary(opts, env);
            var n := |c.log|;
            var last := env.invoke(n - 1);
            && n >= 1
            && (forall i :: 0 <= i < n ==> c.log[i] == env.invoke(i) && !CutShort(env, i))
            && (forall i :: 0 <= i < n - 1 ==> c.log[i].Failed? && RetrySet(c.log[i].err, c.log[i].ctxDone, opts))
            && if last.Success? then c.err == None
               else if n >= opts.max || !RetrySet(last.err, last.ctxDone, opts) then c.err == Some(last.err)
               else CutShort(env, n) && c.err.Some? && c.err.value.isStatus
                    && CodeFor(env.cancelled(n).value, c.err.value.code)
    ensures |Unary(opts, env).log| <= if opts.max == 0 then 1 else opts.max
  {
    hide RetrySet, Retriable, CutShort, WaitRetryBackoff, CodeFor, Attempts;
    var c := Unary(opts, env);
    if opts.max > 0 {
      FirstAttempts(opts, env);
      hide Unary;
    } else {
      NoFirstWait(env);
    }
    forall i | 0 <= i < |c.log| ensures c.log[i] == env.invoke(i) && !CutShort(env, i) {
      WaitIsCut(env, i);
    }
    WaitIsCut(env, |c.log|);
    forall o ensures Retriable(o, opts) <==> o.Failed? && RetrySet(o.err, o.ctxDone, opts) {
      RetriableExactly(o, opts);
    }
  }

  // ---- at most once -------------------------------------------------------------------------

  /** The error says that no connection was established or that the credentials were rejected. */
  predicate NeverReached(d: Description) {
    d == InvalidAuthToken || d == NoAddressAvailable || d == NoConnectionAvailable
  }

  /** The server may have applied the request: always, except after an error that says it was never
      reached. A context error's text says nothing: it is the client's own. */
  predicate MayApply(o: Outcome) {
    o.Success? || IsContextError(o.err) || !NeverReached(o.err.desc)
  }

  /** `applied[i]` says whether the server applied attempt i. */
  predicate Possible(log: seq<Outcome>, applied: seq<bool>) {
    |applied| == |log| && forall i :: 0 <= i < |log| ==> applied[i] ==> MayApply(log[i])
  }

  /** Two different attempts were both applied. */
  ghost predicate AppliedTwice(applied: seq<bool>) {
    exists i, j :: 0 <= i < j < |applied| && applied[i] && applied[j]
  }

  predicate LiveContext(o: Outcome) {
    o.Failed? && IsContextError(o.err) && !o.ctxDone
  }

  /** The server answered Unavailable, and the text does not say that the request never reached it. */
  predicate PlainUnavailable(o: Outcome) {
    o.Failed? && o.err.isStatus && o.err.code == Unavailable && !NeverReached(o.err.desc)
  }

  /** A failure after which the policy tries again although the request may have been applied. */
  predicate HidesApply(o: Outcome, policy: RetryPolicy) {
    LiveContext(o) || (policy == Repeatable && PlainUnavailable(o))
  }

  /** Of the attempts before the final one, exactly those that hide an application may have been
      applied; this is what the two retry predicates are for. */
  lemma RetriedMayApply(opts: Options, env: Env, i: nat)
    requires i < |Unary(opts, env).log| - 1
    ensures MayApply(Unary(opts, env).log[i]) <==> HidesApply(Unary(opts, env).log[i], opts.policy)
  {
    UnaryShape(opts, env);
  }

  /** A call can be applied twice exactly when, of the retried attempts that hide an application and
      the final attempt if that one may have been applied, there are two. */
  lemma AppliedTwiceExactly(opts: Options, env: Env)
    ensures var log := Unary(opts, env).log;
            (exists applied :: Possible(log, applied) && AppliedTwice(applied))
            <==> exists i, j :: 0 <= i < j < |log| && HidesApply(log[i], opts.policy)
                                && (if j == |log| - 1 then MayApply(log[j]) else HidesApply(log[j], opts.policy))
  {
    var log := Unary(opts, env).log;
    forall i | 0 <= i < |log| - 1 ensures MayApply(log[i]) <==> HidesApply(log[i], opts.policy) {
      RetriedMayApply(opts, env, i);
    }
    hide MayApply, HidesApply, Unary;
    if applied :| Possible(log, applied) && AppliedTwice(applied) {
      var i, j :| 0 <= i < j < |applied| && applied[i] && applied[j];
      assert MayApply(log[i]) && MayApply(log[j]);
    }
    if i, j :| 0 <= i < j < |log| && HidesApply(log[i], opts.policy)
               && (if j == |log| - 1 then MayApply(log[j]) else HidesApply(log[j], opts.policy)) {
      var applied := seq(|log|, k => k == i || k == j);
      assert applied[i] && applied[j];
      assert Possible(log, applied) && AppliedTwice(applied);
    }
  }

  /** Under the non-repeatable policy only attempts cut short while the call's own context was alive
      hide an application. */
  lemma AtMostOnceExactly(opts: Options, env: Env)
    requires opts.policy == NonRepeatable
    ensures var log := Unary(opts, env).log;
            (exists applied :: Possible(log, applied) && AppliedTwice(applied))
            <==> exists i, j :: 0 <= i < j < |log| && LiveContext(log[i])
                                && (if j == |log| - 1 then MayApply(log[j]) else LiveContext(log[j]))
  {
    AppliedTwiceExactly(opts, env);
    assert forall o :: HidesApply(o, opts.policy) <==> LiveContext(o);
    hide MayApply, HidesApply, Unary, Possible, AppliedTwice, LiveContext;
  }

  lemma AtMostOnce(opts: Options, env: Env, applied: seq<bool>)
    requires opts.policy == NonRepeatable && Possible(Unary(opts, env).log, applied)
    requires forall i :: 0 <= i < |applied| - 1 ==> !LiveContext(Unary(opts, env).log[i])
    ensures !AppliedTwice(applied)
  {
    AtMostOnceExactly(opts, env);
  }

  /** The first attempt is cut short by a deadline that is not the caller's own, the second succeeds. */
  function CutThenSuccess(): Env {
    Env(i => if i == 0 then Failed(RpcError(true, DeadlineExceeded, Text), false) else Success, _ => 0, _ => None)
  }

  lemma CutThenSuccessLog(opts: Options)
    requires opts.max > 1
    ensures Unary(opts, CutThenSuccess()).log == [CutThenSuccess().invoke(0), Success]
  {
    var env := CutThenSuccess();
    var cut := RpcError(true, DeadlineExceeded, Text);
    assert Attempts(opts, env, 1, Some(cut)).log == [Success];
    assert Attempts(opts, env, 0, None).log == [env.invoke(0)] + [Success];
  }

  /** Before the call nothing less than a single attempt will do: whatever happens, a call is applied at
      most once, if and only if `max` is at most one, under either policy. */
  lemma SafeBeforehandExactly(opts: Options)
    ensures (forall env, applied :: Possible(Unary(opts, env).log, applied) ==> !AppliedTwice(applied))
            <==> opts.max <= 1
  {
    if opts.max <= 1 {
      forall env, applied | Possible(Unary(opts, env).log, applied) ensures !AppliedTwice(applied) {
        UnaryShape(opts, env);
      }
    } else {
      CutThenSuccessLog(opts);
      assert [true, true][0] && [true, true][1];
      assert Possible(Unary(opts, CutThenSuccess()).log, [true, true]) && AppliedTwice([true, true]);
    }
  }

  /** Under the non-repeatable policy two live-context deadlines may hide two applications. */
  lemma NonRepeatableMayApplyTwice()
    ensures var opts := Options(NonRepeatable, 2, true);
            var env := Env(_ => Failed(RpcError(true, DeadlineExceeded, Text), false), _ => 0, _ => None);
            Possible(Unary(opts, env).log, [true, true]) && AppliedTwice([true, true])
  {
    var opts, cut := Options(NonRepeatable, 2, true), RpcError(true, DeadlineExceeded, Text);
    var env := Env(_ => Failed(cut, false), _ => 0, _ => None);
    assert Attempts(opts, env, 1, Some(cut)).log == [env.invoke(1)];
    assert Unary(opts, env).log == [env.invoke(0), env.invoke(1)];
    assert [true, true][0] && [true, true][1];
  }

  /** So under the repeatable policy two Unavailable answers may hide two applications. */
  lemma RepeatableMayApplyTwice()
    ensures var opts := Options(Repeatable, 2, true);
            var env := Env(_ => Failed(RpcError(true, Unavailable, Text), false), _ => 0, _ => None);
            Possible(Unary(opts, env).log, [true, true]) && AppliedTwice([true, true])
  {
    var opts := Options(Repeatable, 2, true);
    var env := Env(_ => Failed(RpcError(true, Unavailable, Text), false), _ => 0, _ => None);
    assert Attempts(opts, env, 1, Some(RpcError(true, Unavailable, Text))).log == [env.invoke(1)];
    assert Unary(opts, env).log == [env.invoke(0), env.invoke(1)];
    assert [true, true][0] && [true, true][1];
  }
}
