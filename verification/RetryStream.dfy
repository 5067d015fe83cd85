/** The retrying server stream: re-establishment, replay of the buffered sends, and where the
    delivered messages come from. */
module RetryStream {
  import opened Prelude
  import opened Retry

  type Msg = nat

  /** What one read of an underlying stream yields; `ctxDone` as in a unary outcome. */
  datatype Recv = Message(m: Msg) | Eof | Broken(err: RpcError, ctxDone: bool)

  /** What one underlying stream was asked to do, in order; asking may have failed. */
  datatype StreamEvent = Sent(m: Msg) | ClosedSend

  datatype StreamLog = StreamLog(events: seq<StreamEvent>, readCount: nat)

  /** The adversary: errors of opening the k-th new stream, of the i-th event on a stream, what its
      reads yield, and the backoff before each attempt. */
  datatype StreamEnv = StreamEnv(
    open: nat -> Option<RpcError>,
    event: (nat, nat) -> Option<RpcError>,
    read: (nat, nat) -> Recv,
    waits: Env)

  /** The wrapper's fields, the underlying streams opened so far (`current` indexes the installed
      one), how often opening was tried, and the messages delivered, each with its stream. */
  datatype Wrapper = Wrapper(
    current: nat,
    streams: seq<StreamLog>,
    opens: nat,
    bufferedSends: seq<Msg>,
    receivedGood: bool,
    wasClosedSend: bool,
    delivered: seq<(nat, Msg)>)

  predicate Valid(w: Wrapper) {
    w.current < |w.streams|
  }

  const INITIAL := Wrapper(0, [StreamLog([], 0)], 0, [], false, false, [])

  // ---- the wrapper's operations on values ---------------------------------------------------

  function Log(w: Wrapper, id: nat, e: StreamEvent): Wrapper
    requires id < |w.streams|
  {
    w.(streams := w.streams[id := w.streams[id].(events := w.streams[id].events + [e])])
  }

  function SendMsg(w: Wrapper, m: Msg): Wrapper
    requires Valid(w)
  {
    Log(w.(bufferedSends := w.bufferedSends + [m]), w.current, Sent(m))
  }

  function CloseSend(w: Wrapper): Wrapper
    requires Valid(w)
  {
    Log(w.(wasClosedSend := true), w.current, ClosedSend)
  }

  /** One read of the installed stream: the new wrapper, what was read, and whether to retry. */
  function Receive(w: Wrapper, opts: Options, env: StreamEnv): (Wrapper, Recv, bool)
    requires Valid(w)
  {
    var r := env.read(w.current, w.streams[w.current].readCount);
    var log := w.streams[w.current];
    var w1 := w.(streams := w.streams[w.current := log.(readCount := log.readCount + 1)]);
    match r
    case Message(m) => (w1.(receivedGood := true, delivered := w.delivered + [(w.current, m)]), r, false)
    case Eof => (w1.(receivedGood := true), r, false)
    case Broken(err, ctxDone) => (w1, r, !w.receivedGood && Retriable(Failed(err, ctxDone), opts))
  }

  /** Sends the rest of the buffer and one CloseSend on stream `id`; stops at the first error. */
  function Resend(w: Wrapper, env: StreamEnv, id: nat, i: nat): (r: (Wrapper, Option<RpcError>))
    requires id < |w.streams| && i <= |w.bufferedSends|
    ensures |r.0.streams| == |w.streams| && r.0.bufferedSends == w.bufferedSends
    ensures r.0.current == w.current
    decreases |w.bufferedSends| - i
  {
    var err := env.event(id, |w.streams[id].events|);
    if i < |w.bufferedSends| then
      var w1 := Log(w, id, Sent(w.bufferedSends[i]));
      if err.Some? then (w1, err) else Resend(w1, env, id, i + 1)
    else
      (Log(w, id, ClosedSend), err)
  }

  /** Opens a stream and replays the buffer; the stream is not installed yet. */
  function Reestablish(w: Wrapper, env: StreamEnv): (r: (Wrapper, Option<RpcError>))
    ensures r.0.current == w.current
    ensures |w.streams| <= |r.0.streams| && (r.1.None? ==> |r.0.streams| == |w.streams| + 1)
  {
    var err := env.open(w.opens);
    var w1 := w.(opens := w.opens + 1);
    if err.Some? then (w1, err)
    else Resend(w1.(streams := w.streams + [StreamLog([], 0)]), env, |w.streams|, 0)
  }

  /** The retry loop of RecvMsg from an attempt on; `last` is what the last read yielded. */
  function RecvFrom(w: Wrapper, opts: Options, env: StreamEnv, attempt: nat, last: Recv): (r: (Wrapper, Recv))
    requires Valid(w)
    ensures Valid(r.0)
    decreases opts.max - attempt
  {
    if attempt >= opts.max then (w, last)
    else if WaitRetryBackoff(env.waits, attempt).Some? then
      (w, Broken(WaitRetryBackoff(env.waits, attempt).value, true))
    else
      var (w1, err) := Reestablish(w, env);
      if err.Some? then (w1, Broken(err.value, false))
      else
        var (w2, r, again) := Receive(w1.(current := |w.streams|), opts, env);
        if again then RecvFrom(w2, opts, env, attempt + 1, r) else (w2, r)
  }

  function RecvMsg(w: Wrapper, opts: Options, env: StreamEnv): (r: (Wrapper, Recv))
    requires Valid(w)
    ensures Valid(r.0)
  {
    var (w1, r, again) := Receive(w, opts, env);
    if again then RecvFrom(w1, opts, env, 1, r) else (w1, r)
  }

  // ---- the wrapper object -------------------------------------------------------------------

  class ServerStreamingRetryingStream {
    const callOpts: Options
    const env: StreamEnv
    var w: Wrapper

    constructor (callOpts: Options, env: StreamEnv)
      ensures w == INITIAL && this.callOpts == callOpts && this.env == env
    {
      this.callOpts, this.env, w := callOpts, env, INITIAL;
    }

    method Send(m: Msg) returns (err: Option<RpcError>)
      requires Valid(w)
      modifies this
      ensures w == SendMsg(old(w), m)
      ensures err == env.event(old(w).current, |old(w).streams[old(w).current].events|)
    {
      w := w.(bufferedSends := w.bufferedSends + [m]);
      err := env.event(w.current, |w.streams[w.current].events|);
      w := Log(w, w.current, Sent(m));
    }

    method Close() returns (err: Option<RpcError>)
      requires Valid(w)
      modifies this
      ensures w == CloseSend(old(w))
      ensures err == env.event(old(w).current, |old(w).streams[old(w).current].events|)
    {
      w := w.(wasClosedSend := true);
      err := env.event(w.current, |w.streams[w.current].events|);
      w := Log(w, w.current, ClosedSend);
    }

    method ReceiveMsgAndIndicateRetry() returns (again: bool, r: Recv)
      requires Valid(w)
      modifies this
      ensures Valid(w) && Receive(old(w), callOpts, env) == (w, r, again)
    {
      var wasGood := w.receivedGood;
      var id := w.current;
      r := env.read(id, w.streams[id].readCount);
      w := w.(streams := w.streams[id := w.streams[id].(readCount := w.streams[id].readCount + 1)]);
      match r {
        case Message(m) =>
          w := w.(receivedGood := true, delivered := w.delivered + [(id, m)]);
          again := false;
        case Eof =>
          w := w.(receivedGood := true);
          again := false;
        case Broken(err, ctxDone) =>
          if wasGood {
            again := false;
          } else if IsContextError(err) {
            again := !ctxDone;
          } else if callOpts.retryAuth && err.desc == InvalidAuthToken {
            again := true;
          } else {
            again := IsSafeRetry(err, callOpts);
          }
      }
    }

    method ReestablishStreamAndResendBuffer() returns (id: nat, err: Option<RpcError>)
      requires Valid(w)
      modifies this
      ensures (w, err) == Reestablish(old(w), env)
      ensures w.current == old(w).current && id == |old(w).streams|
    {
      ghost var w0 := w;
      err := env.open(w.opens);
      id := |w.streams|;
      w := w.(opens := w.opens + 1);
      if err.Some? {
        return;
      }
      w := w.(streams := w.streams + [StreamLog([], 0)]);
      var i := 0;
      while i < |w.bufferedSends|
        invariant i <= |w.bufferedSends| && id < |w.streams| && w.current == w0.current
        invariant Resend(w, env, id, i) == Reestablish(w0, env)
        decreases |w.bufferedSends| - i
      {
        err := env.event(id, |w.streams[id].events|);
        w := Log(w, id, Sent(w.bufferedSends[i]));
        if err.Some? {
          return;
        }
        i := i + 1;
      }
      err := env.event(id, |w.streams[id].events|);
      w := Log(w, id, ClosedSend);
    }

    method Recv() returns (r: Recv)
      requires Valid(w)
      modifies this
      ensures Valid(w) && (w, r) == RecvMsg(old(w), callOpts, env)
    {
      ghost var w0 := w;
      var again;
      again, r := ReceiveMsgAndIndicateRetry();
      if !again {
        return;
      }
      var attempt := 1;
      while attempt < callOpts.max
        invariant Valid(w)
        invariant RecvFrom(w, callOpts, env, attempt, r) == RecvMsg(w0, callOpts, env)
        decreases callOpts.max - attempt
      {
        var interrupted := WaitRetryBackoff(env.waits, attempt);
        if interrupted.Some? {
          return Broken(interrupted.value, true);
        }
        var newStream, err := ReestablishStreamAndResendBuffer();
        if err.Some? {
          return Broken(err.value, false);
        }
        w := w.(current := newStream);
        again, r := ReceiveMsgAndIndicateRetry();
        if !again {
          return;
        }
        attempt := attempt + 1;
      }
    }
  }

  // ---- properties ---------------------------------------------------------------------------

  /** Everything delivered came from the installed stream, and nothing was delivered before a read
      succeeded. */
  ghost predicate OneSource(w: Wrapper) {
    && Valid(w)
    && (forall i :: 0 <= i < |w.delivered| ==> w.delivered[i].0 == w.current)
    && (w.delivered != [] ==> w.receivedGood)
  }

  /** What a faithfully replayed stream was asked to do. */
  function Replay(sends: seq<Msg>): seq<StreamEvent> {
    seq(|sends|, i requires 0 <= i < |sends| => Sent(sends[i])) + [ClosedSend]
  }

  /** The first n events asked of the stream all succeeded. */
  predicate Accepted(env: StreamEnv, id: nat, n: nat) {
    forall k :: 0 <= k < n ==> env.event(id, k).None?
  }

  lemma {:induction false} ResendReplays(w: Wrapper, env: StreamEnv, id: nat, i: nat)
    requires id < |w.streams| && i <= |w.bufferedSends|
    requires w.streams[id].events == Replay(w.bufferedSends)[..i] && Accepted(env, id, i)
    ensures var (w', err) := Resend(w, env, id, i);
            && (err.None? ==> w'.streams[id].events == Replay(w.bufferedSends)
                              && Accepted(env, id, |w.bufferedSends| + 1))
            && (forall k :: 0 <= k < |w.streams| && k != id ==> w'.streams[k] == w.streams[k])
            && w' == w.(streams := w'.streams)
    decreases |w.bufferedSends| - i
  {
    var p := Replay(w.bufferedSends);
    assert p[..i] + [p[i]] == p[..i + 1];
    if i < |w.bufferedSends| {
      if env.event(id, i).None? {
        ResendReplays(Log(w, id, p[i]), env, id, i + 1);
      }
    } else {
      assert p[..i + 1] == p;
    }
  }

  lemma ReestablishReplays(w: Wrapper, env: StreamEnv)
    requires Valid(w)
    ensures var (w', err) := Reestablish(w, env);
            && (err.None? ==> w'.streams[|w.streams|].events == Replay(w.bufferedSends)
                              && Accepted(env, |w.streams|, |w.bufferedSends| + 1))
            && (forall k :: 0 <= k < |w.streams| ==> w'.streams[k] == w.streams[k])
            && w' == w.(streams := w'.streams, opens := w.opens + 1)
  {
    if env.open(w.opens).None? {
      ResendReplays(w.(opens := w.opens + 1, streams := w.streams + [StreamLog([], 0)]), env, |w.streams|, 0);
    }
  }

  /** What any number of further retry attempts keep. */
  lemma {:induction false} RecvFromKeeps(w: Wrapper, opts: Options, env: StreamEnv, attempt: nat, last: Recv)
    requires OneSource(w) && !w.receivedGood && last.Broken?
    ensures var (w', r) := RecvFrom(w, opts, env, attempt, last);
            && OneSource(w')
            && w'.bufferedSends == w.bufferedSends && w'.wasClosedSend == w.wasClosedSend
            && w.current <= w'.current
            && w'.opens <= w.opens + (if attempt < opts.max then opts.max - attempt else 0)
            && (w'.current != w.current ==> w'.streams[w'.current].events == Replay(w.bufferedSends)
                                            && Accepted(env, w'.current, |w.bufferedSends| + 1))
            && (w'.current == w.current ==> w'.streams[w.current].events == w.streams[w.current].events)
            && w'.delivered == w.delivered + (if r.Message? then [(w'.current, r.m)] else [])
            && w'.receivedGood == (r.Message? || r.Eof?)
    decreases opts.max - attempt
  {
    if attempt < opts.max && WaitRetryBackoff(env.waits, attempt).None? {
      ReestablishReplays(w, env);
      hide Reestablish, Replay, WaitRetryBackoff, Retriable, Accepted;
      var (w1, err) := Reestablish(w, env);
      if err.None? {
        var (w2, r, again) := Receive(w1.(current := |w.streams|), opts, env);
        if again {
          RecvFromKeeps(w2, opts, env, attempt + 1, r);
        }
      }
    }
  }

  /** One RecvMsg: a stream that delivered is never replaced; a replacement was sent exactly the
      buffered messages in order and then one CloseSend; at most max-1 streams are opened; a message
      is delivered exactly when RecvMsg returns one, from the stream then installed. */
  lemma RecvMsgKeeps(w: Wrapper, opts: Options, env: StreamEnv)
    requires OneSource(w)
    ensures var (w', r) := RecvMsg(w, opts, env);
            && OneSource(w')
            && w'.bufferedSends == w.bufferedSends && w'.wasClosedSend == w.wasClosedSend
            && w'.opens - w.opens <= (if opts.max == 0 then 0 else opts.max - 1)
            && (w.receivedGood ==> w'.current == w.current && w'.opens == w.opens)
            && (w'.current != w.current ==> w'.streams[w'.current].events == Replay(w.bufferedSends)
                                            && Accepted(env, w'.current, |w.bufferedSends| + 1))
            && (w'.current == w.current ==> w'.streams[w.current].events == w.streams[w.current].events)
            && w'.delivered == w.delivered + (if r.Message? then [(w'.current, r.m)] else [])
  {
    var (w1, r, again) := Receive(w, opts, env);
    hide Replay, Retriable, Accepted;
    if again {
      RecvFromKeeps(w1, opts, env, 1, r);
    }
  }

  // ---- whole runs ---------------------------------------------------------------------------

  datatype Op = OpSend(m: Msg) | OpClose | OpRecv

  function Step(w: Wrapper, op: Op, opts: Options, env: StreamEnv): (w': Wrapper)
    requires Valid(w)
    ensures Valid(w')
  {
    match op
    case OpSend(m) => SendMsg(w, m)
    case OpClose => CloseSend(w)
    case OpRecv => RecvMsg(w, opts, env).0
  }

  function Run(w: Wrapper, ops: seq<Op>, opts: Options, env: StreamEnv): (w': Wrapper)
    requires Valid(w)
    ensures Valid(w')
    decreases |ops|
  {
    if ops == [] then w else Run(Step(w, ops[0], opts, env), ops[1..], opts, env)
  }

  /** All messages ever delivered come from one underlying stream, in any order of operations. */
  lemma {:induction false} RunHasOneSource(w: Wrapper, ops: seq<Op>, opts: Options, env: StreamEnv)
    requires OneSource(w)
    ensures OneSource(Run(w, ops, opts, env))
    decreases |ops|
  {
    if ops != [] {
      if ops[0].OpRecv? { RecvMsgKeeps(w, opts, env); }
      RunHasOneSource(Step(w, ops[0], opts, env), ops[1..], opts, env);
    }
  }

  lemma RunFromStartHasOneSource(ops: seq<Op>, opts: Options, env: StreamEnv)
    ensures var w := Run(INITIAL, ops, opts, env);
            forall i, j :: 0 <= i < j < |w.delivered| ==> w.delivered[i].0 == w.delivered[j].0
  {
    RunHasOneSource(INITIAL, ops, opts, env);
  }

  function ServerStreamingOrder(sends: seq<Msg>, receives: nat): seq<Op> {
    seq(|sends|, i requires 0 <= i < |sends| => OpSend(sends[i])) + [OpClose] + seq(receives, _ => OpRecv)
  }

  /** In the server-streaming order (all sends, one close, then receives) whatever stream is installed
      was asked the same thing: to send every message once, in order, and then to close. A stream
      installed by a retry did all of it without an error. */
  lemma InstalledStreamWasAskedAll(sends: seq<Msg>, receives: nat, opts: Options, env: StreamEnv)
    ensures var w := Run(INITIAL, ServerStreamingOrder(sends, receives), opts, env);
            && w.streams[w.current].events == Replay(sends) && w.bufferedSends == sends
            && (w.current != 0 ==> Accepted(env, w.current, |sends| + 1))
  {
    var ops := ServerStreamingOrder(sends, receives);
    assert ops[0..] == ops && sends[..0] == [] && Replay(sends)[..0] == [];
    SendsThenReceives(INITIAL, sends, 0, receives, opts, env);
  }

  /** The rest of such a run, when the first n messages have been sent. */
  lemma {:induction false} SendsThenReceives(w: Wrapper, sends: seq<Msg>, n: nat, receives: nat,
                                             opts: Options, env: StreamEnv)
    requires n <= |sends| && OneSource(w) && w.current == 0
    requires w.bufferedSends == sends[..n] && w.streams[w.current].events == Replay(sends)[..n]
    ensures var w' := Run(w, ServerStreamingOrder(sends, receives)[n..], opts, env);
            && w'.streams[w'.current].events == Replay(sends) && w'.bufferedSends == sends
            && (w'.current != 0 ==> Accepted(env, w'.current, |sends| + 1))
    decreases |sends| - n
  {
    var ops := ServerStreamingOrder(sends, receives)[n..];
    var w1 := Step(w, ops[0], opts, env);
    assert Replay(sends)[..n] + [Replay(sends)[n]] == Replay(sends)[..n + 1];
    assert ops[1..] == ServerStreamingOrder(sends, receives)[n + 1..];
    if n < |sends| {
      assert sends[..n] + [sends[n]] == sends[..n + 1];
      SendsThenReceives(w1, sends, n + 1, receives, opts, env);
    } else {
      assert sends[..n] == sends && Replay(sends)[..n + 1] == Replay(sends);
      assert ops[1..] == seq(receives, _ => OpRecv);
      ReceivesKeepReplay(w1, receives, opts, env);
    }
  }

  lemma {:induction false} ReceivesKeepReplay(w: Wrapper, receives: nat, opts: Options, env: StreamEnv)
    requires OneSource(w) && w.streams[w.current].events == Replay(w.bufferedSends)
    requires w.current != 0 ==> Accepted(env, w.current, |w.bufferedSends| + 1)
    ensures var w' := Run(w, seq(receives, _ => OpRecv), opts, env);
            && w'.streams[w'.current].events == Replay(w.bufferedSends) && w'.bufferedSends == w.bufferedSends
            && (w'.current != 0 ==> Accepted(env, w'.current, |w.bufferedSends| + 1))
    decreases receives
  {
    if receives > 0 {
      RecvMsgKeeps(w, opts, env);
      assert seq(receives, _ => OpRecv)[1..] == seq(receives - 1, _ => OpRecv);
      ReceivesKeepReplay(RecvMsg(w, opts, env).0, receives - 1, opts, env);
    }
  }

  // ---- what one RecvMsg answers ------------------------------------------------------------------------

  /** The stream that attempt a of a RecvMsg reads: the installed one, then one more for each attempt. */
  function StreamAt(w: Wrapper, a: nat): nat {
    if a == 0 then w.current else |w.streams| + a - 1
  }

  function ReadAt(w: Wrapper, env: StreamEnv, a: nat): Recv
    requires Valid(w)
  {
    env.read(StreamAt(w, a), if a == 0 then w.streams[w.current].readCount else 0)
  }

  /** The first error among the events from the i-th to the n-th on a stream. */
  function FirstError(env: StreamEnv, id: nat, i: nat, n: nat): Option<RpcError>
    decreases n - i
  {
    if i >= n then None else if env.event(id, i).Some? then env.event(id, i) else FirstError(env, id, i + 1, n)
  }

  /** Why there is no stream for attempt a > 0: opening it failed, or sending the buffer or closing did. */
  function OpenError(w: Wrapper, env: StreamEnv, a: nat): Option<RpcError>
    requires a > 0
  {
    if env.open(w.opens + a - 1).Some? then env.open(w.opens + a - 1)
    else FirstError(env, StreamAt(w, a), 0, |w.bufferedSends| + 1)
  }

  predicate RetriesAfter(w: Wrapper, opts: Options, env: StreamEnv, a: nat)
    requires Valid(w)
  {
    var r := ReadAt(w, env, a);
    r.Broken? && !w.receivedGood && RetrySet(r.err, r.ctxDone, opts)
  }

  predicate Reaches(w: Wrapper, env: StreamEnv, a: nat) {
    a == 0 || (!CutShort(env.waits, a) && OpenError(w, env, a).None?)
  }

  ghost predicate TriedBefore(w: Wrapper, opts: Options, env: StreamEnv, n: nat)
    requires Valid(w)
  {
    forall a: nat :: a < n ==> RetriesAfter(w, opts, env, a) && Reaches(w, env, a)
  }

  /** Attempt j is the last one of a RecvMsg that reads, and r is the answer: the attempts before it were retried
      after; r is what it read if that is not retried after or the attempts are used up, and otherwise what kept the
      next attempt from reading: the context's end during the wait, or an error of opening or of the replay. */
  ghost predicate Answers(w: Wrapper, opts: Options, env: StreamEnv, j: nat, r: Recv)
    requires Valid(w)
  {
    && TriedBefore(w, opts, env, j) && Reaches(w, env, j)
    && (j > 0 ==> j < opts.max)
    && if !RetriesAfter(w, opts, env, j) || j + 1 >= opts.max then r == ReadAt(w, env, j)
       else if CutShort(env.waits, j + 1) then
         r.Broken? && r.err.isStatus && CodeFor(env.waits.cancelled(j + 1).value, r.err.code)
       else OpenError(w, env, j + 1).Some? && r == Broken(OpenError(w, env, j + 1).value, false)
  }

  /** What a RecvMsg whose last read was attempt j's leaves: that attempt's stream is installed and was read once
      more; the answer is delivered if it is a message. */
  predicate Leaves(w: Wrapper, j: nat, r: Recv, w': Wrapper)
    requires Valid(w)
  {
    && w'.current == StreamAt(w, j) < |w'.streams|
    && w'.streams[w'.current].readCount == (if j == 0 then w.streams[w.current].readCount + 1 else 1)
    && w'.receivedGood == (w.receivedGood || !r.Broken?)
    && w'.delivered == w.delivered + (if r.Message? then [(w'.current, r.m)] else [])
  }

  lemma {:induction false} ResendError(w: Wrapper, env: StreamEnv, id: nat, i: nat)
    requires id < |w.streams| && i <= |w.bufferedSends| && |w.streams[id].events| == i
    ensures Resend(w, env, id, i).1 == FirstError(env, id, i, |w.bufferedSends| + 1)
    ensures Resend(w, env, id, i).0.streams[id].readCount == w.streams[id].readCount
    decreases |w.bufferedSends| - i
  {
    if i < |w.bufferedSends| {
      ResendError(Log(w, id, Sent(w.bufferedSends[i])), env, id, i + 1);
    } else {
      assert FirstError(env, id, i + 1, i + 1).None?;
    }
  }

  /** A wrapper in the course of a RecvMsg that began with w0, before attempt a. */
  predicate Underway(w0: Wrapper, w: Wrapper, a: nat)
    requires Valid(w0)
  {
    && a > 0 && Valid(w) && !w.receivedGood && !w0.receivedGood
    && w.current == StreamAt(w0, a - 1) && |w.streams| == |w0.streams| + a - 1 && w.opens == w0.opens + a - 1
    && w.bufferedSends == w0.bufferedSends && w.delivered == w0.delivered
    && w.streams[w.current].readCount == (if a == 1 then w0.streams[w0.current].readCount + 1 else 1)
  }

  lemma ReestablishError(w0: Wrapper, w: Wrapper, env: StreamEnv, a: nat)
    requires Valid(w0) && Underway(w0, w, a)
    ensures Reestablish(w, env).1 == OpenError(w0, env, a)
    ensures OpenError(w0, env, a).None? ==> Reestablish(w, env).0.streams[|w.streams|].readCount == 0
  {
    if env.open(w.opens).None? {
      ResendError(w.(opens := w.opens + 1, streams := w.streams + [StreamLog([], 0)]), env, |w.streams|, 0);
    }
  }

  /** There is no attempt a: the attempts are used up, or the context ends during the wait. */
  lemma StopsBefore(w0: Wrapper, w: Wrapper, opts: Options, env: StreamEnv, a: nat, last: Recv)
    requires Valid(w0) && Underway(w0, w, a) && last == ReadAt(w0, env, a - 1)
    requires TriedBefore(w0, opts, env, a) && (a > 1 ==> a - 1 < opts.max)
    requires a >= opts.max || CutShort(env.waits, a)
    ensures var (w', r) := RecvFrom(w, opts, env, a, last);
            Answers(w0, opts, env, a - 1, r) && Leaves(w0, a - 1, r, w')
  {
    hide WaitRetryBackoff, CutShort, CodeFor, Reaches, RetriesAfter;
    WaitIsCut(env.waits, a);
    assert RetriesAfter(w0, opts, env, a - 1) && Reaches(w0, env, a - 1);
    WasRetried(w0, opts, env, a - 1);
    hide ReadAt, OpenError, RecvFrom;
    NoAttempt(w, opts, env, a, last);
  }

  lemma WasRetried(w: Wrapper, opts: Options, env: StreamEnv, a: nat)
    requires Valid(w) && RetriesAfter(w, opts, env, a)
    ensures ReadAt(w, env, a).Broken? && !w.receivedGood
  {
  }

  lemma NoAttempt(w: Wrapper, opts: Options, env: StreamEnv, a: nat, last: Recv)
    requires Valid(w) && (a >= opts.max || CutShort(env.waits, a))
    ensures RecvFrom(w, opts, env, a, last)
         == (w, if a >= opts.max then last else Broken(WaitRetryBackoff(env.waits, a).value, true))
  {
    WaitIsCut(env.waits, a);
    hide WaitRetryBackoff, CutShort, CodeFor;
  }

  /** Attempt a gets no stream. */
  lemma StopsOpening(w0: Wrapper, w: Wrapper, opts: Options, env: StreamEnv, a: nat, last: Recv)
    requires Valid(w0) && Underway(w0, w, a) && last == ReadAt(w0, env, a - 1)
    requires TriedBefore(w0, opts, env, a) && (a > 1 ==> a - 1 < opts.max)
    requires a < opts.max && !CutShort(env.waits, a) && OpenError(w0, env, a).Some?
    ensures var (w', r) := RecvFrom(w, opts, env, a, last);
            Answers(w0, opts, env, a - 1, r) && Leaves(w0, a - 1, r, w')
  {
    hide WaitRetryBackoff, CutShort, CodeFor, OpenError, RetriesAfter, Reaches, Reestablish, Accepted, Replay;
    WaitIsCut(env.waits, a);
    ReestablishReplays(w, env);
    ReestablishError(w0, w, env, a);
    assert RetriesAfter(w0, opts, env, a - 1) && Reaches(w0, env, a - 1);
  }

  /** Attempt a reads, and its read decides whether there may be another. */
  lemma Attempt(w0: Wrapper, w: Wrapper, opts: Options, env: StreamEnv, a: nat, last: Recv)
    returns (w2: Wrapper, r: Recv)
    requires Valid(w0) && Underway(w0, w, a)
    requires a < opts.max && !CutShort(env.waits, a) && OpenError(w0, env, a).None?
    ensures r == ReadAt(w0, env, a) && Reaches(w0, env, a)
    ensures if RetriesAfter(w0, opts, env, a)
            then Underway(w0, w2, a + 1) && RecvFrom(w, opts, env, a, last) == RecvFrom(w2, opts, env, a + 1, r)
            else Leaves(w0, a, r, w2) && RecvFrom(w, opts, env, a, last) == (w2, r)
  {
    hide WaitRetryBackoff, CutShort, CodeFor, OpenError, Reestablish, Accepted, Replay, RetrySet, Retriable;
    WaitIsCut(env.waits, a);
    ReestablishReplays(w, env);
    ReestablishError(w0, w, env, a);
    var (w1, err) := Reestablish(w, env);
    var (w2', r', again) := Receive(w1.(current := |w.streams|), opts, env);
    if r'.Broken? {
      RetriableExactly(Failed(r'.err, r'.ctxDone), opts);
    }
    w2, r := w2', r';
  }

  lemma TriedOnce(w: Wrapper, opts: Options, env: StreamEnv, n: nat)
    requires Valid(w) && TriedBefore(w, opts, env, n) && RetriesAfter(w, opts, env, n) && Reaches(w, env, n)
    ensures TriedBefore(w, opts, env, n + 1)
  {
    hide RetriesAfter, Reaches;
  }

  lemma {:induction false} RecvFromAnswers(w0: Wrapper, w: Wrapper, opts: Options, env: StreamEnv,
                                           a: nat, last: Recv) returns (j: nat)
    requires Valid(w0) && Underway(w0, w, a) && last == ReadAt(w0, env, a - 1)
    requires TriedBefore(w0, opts, env, a) && (a > 1 ==> a - 1 < opts.max)
    ensures var (w', r) := RecvFrom(w, opts, env, a, last);
            Answers(w0, opts, env, j, r) && Leaves(w0, j, r, w')
    decreases opts.max - a
  {
    hide CutShort, CodeFor, OpenError, RetriesAfter, Reaches, RecvFrom, TriedBefore, Leaves, ReadAt;
    if a >= opts.max || CutShort(env.waits, a) {
      StopsBefore(w0, w, opts, env, a, last);
      j := a - 1;
    } else if OpenError(w0, env, a).Some? {
      StopsOpening(w0, w, opts, env, a, last);
      j := a - 1;
    } else {
      var w2, r := Attempt(w0, w, opts, env, a, last);
      if RetriesAfter(w0, opts, env, a) {
        TriedOnce(w0, opts, env, a);
        hide Underway;
        j := RecvFromAnswers(w0, w2, opts, env, a + 1, r);
      } else {
        j := a;
        hide Underway;
      }
    }
  }

  /** One RecvMsg, from the environment alone: which read or which error its answer is, and what it leaves. */
  lemma RecvMsgAnswers(w: Wrapper, opts: Options, env: StreamEnv) returns (j: nat)
    requires Valid(w)
    ensures var (w', r) := RecvMsg(w, opts, env);
            Answers(w, opts, env, j, r) && Leaves(w, j, r, w')
  {
    hide RecvFrom, RetrySet, Retriable, CutShort, OpenError, CodeFor;
    var (w1, r, again) := Receive(w, opts, env);
    if r.Broken? {
      RetriableExactly(Failed(r.err, r.ctxDone), opts);
    }
    j := 0;
    if again {
      j := RecvFromAnswers(w, w1, opts, env, 1, r);
    }
  }

  // ---- the messages delivered are the messages read ------------------------------------------------------

  /** The messages among the first n reads of a stream, in order. */
  function MessagesRead(env: StreamEnv, id: nat, n: nat): seq<(nat, Msg)> {
    if n == 0 then []
    else MessagesRead(env, id, n - 1) + (match env.read(id, n - 1) case Message(m) => [(id, m)] case _ => [])
  }

  function ReadsOf(w: Wrapper): nat
    requires Valid(w)
  {
    w.streams[w.current].readCount
  }

  /** Delivered is every message that the installed stream has yielded, once and in order; and a receive was good if
      and only if some read of that stream was. */
  ghost predicate DeliversReads(w: Wrapper, env: StreamEnv) {
    && Valid(w)
    && w.delivered == MessagesRead(env, w.current, ReadsOf(w))
    && (w.receivedGood <==> exists i: nat :: i < ReadsOf(w) && !env.read(w.current, i).Broken?)
  }

  lemma {:induction false} NothingGood(env: StreamEnv, id: nat, n: nat)
    requires forall i: nat :: i < n ==> env.read(id, i).Broken?
    ensures MessagesRead(env, id, n) == []
  {
    if n > 0 {
      NothingGood(env, id, n - 1);
    }
  }

  lemma RecvMsgDelivers(w: Wrapper, opts: Options, env: StreamEnv)
    requires DeliversReads(w, env)
    ensures DeliversReads(RecvMsg(w, opts, env).0, env)
  {
    var j := RecvMsgAnswers(w, opts, env);
    var (w', r) := RecvMsg(w, opts, env);
    hide RecvMsg, RetrySet, CutShort, OpenError, CodeFor;
    if j == 0 {
      SameStreamDelivers(w, w', r, opts, env);
    } else {
      assert RetriesAfter(w, opts, env, 0);
      NothingGood(env, w.current, ReadsOf(w));
      NewStreamDelivers(w, w', j, r, opts, env);
    }
  }

  lemma SameStreamDelivers(w: Wrapper, w': Wrapper, r: Recv, opts: Options, env: StreamEnv)
    requires DeliversReads(w, env) && Answers(w, opts, env, 0, r) && Leaves(w, 0, r, w')
    ensures DeliversReads(w', env)
  {
    hide RetrySet, CutShort, OpenError, CodeFor, Reaches;
    var n := ReadsOf(w);
    assert r.Broken? == env.read(w.current, n).Broken? && (!r.Broken? ==> r == env.read(w.current, n));
  }

  lemma NewStreamDelivers(w: Wrapper, w': Wrapper, j: nat, r: Recv, opts: Options, env: StreamEnv)
    requires Valid(w) && w.delivered == [] && !w.receivedGood && j > 0
    requires Answers(w, opts, env, j, r) && Leaves(w, j, r, w')
    ensures DeliversReads(w', env)
  {
    hide RetrySet, CutShort, OpenError, CodeFor, Reaches;
    var id := w'.current;
    assert r.Broken? == env.read(id, 0).Broken? && (!r.Broken? ==> r == env.read(id, 0));
    assert MessagesRead(env, id, 0) == [];
  }

  lemma {:induction false} RunDelivers(w: Wrapper, ops: seq<Op>, opts: Options, env: StreamEnv)
    requires DeliversReads(w, env)
    ensures DeliversReads(Run(w, ops, opts, env), env)
    decreases |ops|
  {
    if ops != [] {
      if ops[0].OpRecv? {
        RecvMsgDelivers(w, opts, env);
      }
      hide RecvMsg, MessagesRead;
      RunDelivers(Step(w, ops[0], opts, env), ops[1..], opts, env);
    }
  }

  /** Any run of a new wrapper has delivered exactly the messages that the installed stream has yielded, none
      skipped and none twice, in the order of its reads. */
  lemma DeliveredAreTheReads(ops: seq<Op>, opts: Options, env: StreamEnv)
    ensures DeliversReads(Run(INITIAL, ops, opts, env), env)
  {
    RunDelivers(INITIAL, ops, opts, env);
  }

  /** An operation reads the installed stream once if it is a RecvMsg, or that RecvMsg installs a new stream and
      has read it once; the latter not after a good receive. */
  lemma StepReads(w: Wrapper, op: Op, opts: Options, env: StreamEnv)
    requires Valid(w)
    ensures var w' := Step(w, op, opts, env);
            && (w'.current == w.current ==> ReadsOf(w') == ReadsOf(w) + Receives([op]))
            && (w'.current != w.current ==>
                  w'.current > w.current && op.OpRecv? && ReadsOf(w') == 1 && !w.receivedGood)
            && (w.receivedGood ==> w'.receivedGood)
  {
    assert Receives([op]) == if op.OpRecv? then 1 else 0;
    if op.OpRecv? {
      var j := RecvMsgAnswers(w, opts, env);
      assert j > 0 ==> RetriesAfter(w, opts, env, 0);
      hide RecvMsg, RetrySet, CutShort, OpenError, CodeFor;
    }
  }

  lemma OneMore(ops: seq<Op>, i: nat, n: nat)
    requires i <= n < |ops|
    ensures Receives(ops[i..n + 1]) == Receives(ops[i..n]) + Receives([ops[n]])
  {
    assert ops[i..n + 1][..n - i] == ops[i..n];
    assert Receives([]) == 0;
  }

  /** How often the installed stream was read, by the operations: once for each RecvMsg since the one that installed
      it, that one included, or since the start. */
  lemma {:induction false} ReadsAreReceives(ops: seq<Op>, n: nat, opts: Options, env: StreamEnv) returns (i: nat)
    requires n <= |ops|
    ensures var w := After(ops, n, opts, env);
            && i <= n && ReadsOf(w) == Receives(ops[i..n])
            && (forall k: nat :: i < k <= n ==> After(ops, k, opts, env).current == w.current)
            && if w.current == 0 then i == 0
               else i < n && ops[i].OpRecv? && After(ops, i, opts, env).current != w.current
    decreases n
  {
    hide After, Receives, Step;
    if n == 0 {
      StartsUnread(ops, opts, env);
      i := 0;
    } else {
      i := ReadsAreReceives(ops, n - 1, opts, env);
      AfterStep(ops, n - 1, opts, env);
      StepReads(After(ops, n - 1, opts, env), ops[n - 1], opts, env);
      OneMore(ops, i, n - 1);
      if After(ops, n, opts, env).current != After(ops, n - 1, opts, env).current {
        i := n - 1;
        OnlyTheLast(ops, n - 1);
      }
    }
  }

  lemma StartsUnread(ops: seq<Op>, opts: Options, env: StreamEnv)
    ensures var w := After(ops, 0, opts, env);
            w.current == 0 && ReadsOf(w) == 0 == Receives(ops[0..0])
  {
    assert ops[0..0] == [];
  }

  lemma OnlyTheLast(ops: seq<Op>, n: nat)
    requires n < |ops| && ops[n].OpRecv?
    ensures Receives(ops[n..n + 1]) == 1
  {
    OneMore(ops, n, n);
    assert ops[n..n] == [];
  }

  /** After a good receive the stream stays, and each RecvMsg is one read of it. */
  lemma {:induction false} GoodStreamStays(w: Wrapper, ops: seq<Op>, n: nat, opts: Options, env: StreamEnv)
    requires Valid(w) && w.receivedGood && n <= |ops|
    ensures var w' := Run(w, ops[..n], opts, env);
            && w'.current == w.current && w'.receivedGood && ReadsOf(w') == ReadsOf(w) + Receives(ops[..n])
    decreases n
  {
    hide Step;
    if n > 0 {
      GoodStreamStays(w, ops, n - 1, opts, env);
      assert ops[..n] == ops[..n - 1] + [ops[n - 1]] && ops[0..n] == ops[..n] && ops[0..n - 1] == ops[..n - 1];
      RunSnoc(w, ops[..n - 1], ops[n - 1], opts, env);
      OneMore(ops, 0, n - 1);
      StepReads(Run(w, ops[..n - 1], opts, env), ops[n - 1], opts, env);
      hide Run, Receives;
    }
  }

  /** From the first good receive on every RecvMsg is one read of the same stream, and what is delivered is what
      these reads yield. */
  lemma EachReceiveReadsOnce(w: Wrapper, ops: seq<Op>, opts: Options, env: StreamEnv)
    requires DeliversReads(w, env) && w.receivedGood
    ensures var w' := Run(w, ops, opts, env);
            && w'.current == w.current
            && w'.delivered == MessagesRead(env, w.current, ReadsOf(w) + Receives(ops))
  {
    RunDelivers(w, ops, opts, env);
    GoodStreamStays(w, ops, |ops|, opts, env);
    assert ops[..|ops|] == ops;
    hide Run, Receives, MessagesRead;
  }

  // ---- faithfulness of the replay -----------------------------------------------------------

  /** What the caller asked for, in order. */
  function CallerEvents(ops: seq<Op>): seq<StreamEvent> {
    if ops == [] then []
    else CallerEvents(ops[..|ops| - 1]) + EventOf(ops[|ops| - 1])
  }

  function EventOf(op: Op): seq<StreamEvent> {
    match op
    case OpSend(m) => [Sent(m)]
    case OpClose => [ClosedSend]
    case OpRecv => []
  }

  function SendsOf(ops: seq<Op>): seq<Msg> {
    if ops == [] then []
    else SendsOf(ops[..|ops| - 1]) + (if ops[|ops| - 1].OpSend? then [ops[|ops| - 1].m] else [])
  }

  /** Before every receive the caller has sent its messages and closed once, after the last of them. */
  predicate ClosesBeforeReceiving(ops: seq<Op>) {
    forall i :: 0 <= i < |ops| && ops[i].OpRecv? ==> CallerEvents(ops[..i]) == Replay(SendsOf(ops[..i]))
  }

  /** The installed stream was asked exactly what the caller asked. */
  ghost predicate Faithful(w: Wrapper, ops: seq<Op>) {
    Valid(w) && w.streams[w.current].events == CallerEvents(ops)
  }

  lemma {:induction false} RunSnoc(w: Wrapper, ops: seq<Op>, op: Op, opts: Options, env: StreamEnv)
    requires Valid(w)
    ensures Run(w, ops + [op], opts, env) == Step(Run(w, ops, opts, env), op, opts, env)
    decreases |ops|
  {
    if ops == [] {
      assert ops + [op] == [op] && [op][1..] == [];
    } else {
      assert (ops + [op])[1..] == ops[1..] + [op];
      RunSnoc(Step(w, ops[0], opts, env), ops[1..], op, opts, env);
    }
  }

  /** The first n operations, from a new wrapper. */
  function After(ops: seq<Op>, n: nat, opts: Options, env: StreamEnv): (w: Wrapper)
    requires n <= |ops|
    ensures Valid(w)
  {
    Run(INITIAL, ops[..n], opts, env)
  }

  lemma AfterStep(ops: seq<Op>, n: nat, opts: Options, env: StreamEnv)
    requires n < |ops|
    ensures After(ops, n + 1, opts, env) == Step(After(ops, n, opts, env), ops[n], opts, env)
    ensures CallerEvents(ops[..n + 1]) == CallerEvents(ops[..n]) + EventOf(ops[n])
    ensures SendsOf(ops[..n + 1]) == SendsOf(ops[..n]) + (if ops[n].OpSend? then [ops[n].m] else [])
  {
    assert ops[..n + 1] == ops[..n] + [ops[n]];
    assert ops[..n + 1][..n] == ops[..n];
    RunSnoc(INITIAL, ops[..n], ops[n], opts, env);
  }

  lemma FaithfulAtStart(ops: seq<Op>, opts: Options, env: StreamEnv)
    ensures var w := After(ops, 0, opts, env);
            OneSource(w) && Faithful(w, ops[..0]) && w.bufferedSends == SendsOf(ops[..0])
  {
  }

  /** One operation keeps the stream faithful; a receive does if it can install only what it replaces. */
  lemma StepFaithful(w: Wrapper, before: seq<Op>, op: Op, after: seq<Op>, opts: Options, env: StreamEnv)
    requires OneSource(w) && Faithful(w, before) && w.bufferedSends == SendsOf(before)
    requires CallerEvents(after) == CallerEvents(before) + EventOf(op)
    requires SendsOf(after) == SendsOf(before) + (if op.OpSend? then [op.m] else [])
    requires op.OpRecv? ==> opts.max <= 1 || CallerEvents(before) == Replay(SendsOf(before))
    ensures var w' := Step(w, op, opts, env);
            OneSource(w') && Faithful(w', after) && w'.bufferedSends == SendsOf(after)
  {
    hide RecvMsg, CallerEvents, SendsOf, Replay;
    if op.OpRecv? {
      StillFaithful(w, before, opts, env);
    }
  }

  /** A caller that closes before receiving, or a client that never retries, gets a faithful stream. */
  lemma {:induction false} StaysFaithful(ops: seq<Op>, n: nat, opts: Options, env: StreamEnv)
    requires n <= |ops| && (opts.max <= 1 || ClosesBeforeReceiving(ops))
    ensures var w := After(ops, n, opts, env);
            OneSource(w) && Faithful(w, ops[..n]) && w.bufferedSends == SendsOf(ops[..n])
    decreases n
  {
    hide After, SendsOf, CallerEvents, Replay, OneSource, Faithful, Step, EventOf;
    if n == 0 {
      FaithfulAtStart(ops, opts, env);
    } else {
      StaysFaithful(ops, n - 1, opts, env);
      AfterStep(ops, n - 1, opts, env);
      StepFaithful(After(ops, n - 1, opts, env), ops[..n - 1], ops[n - 1], ops[..n], opts, env);
    }
  }

  lemma StillFaithful(w: Wrapper, ops: seq<Op>, opts: Options, env: StreamEnv)
    requires OneSource(w) && Faithful(w, ops) && w.bufferedSends == SendsOf(ops)
    requires opts.max <= 1 || CallerEvents(ops) == Replay(SendsOf(ops))
    ensures var w' := RecvMsg(w, opts, env).0;
            OneSource(w') && Faithful(w', ops) && w'.bufferedSends == SendsOf(ops)
  {
    RecvMsgKeeps(w, opts, env);
    if opts.max <= 1 {
      NeverReplaced(w, opts, env);
    }
    hide RecvMsg, Replay, CallerEvents, SendsOf, Accepted;
  }

  lemma NeverReplaced(w: Wrapper, opts: Options, env: StreamEnv)
    requires Valid(w) && opts.max <= 1
    ensures RecvMsg(w, opts, env).0.current == w.current
  {
  }

  const ENDED := Broken(RpcError(true, Other(0), Text), false)
  const CUT := Broken(RpcError(true, DeadlineExceeded, Text), false)

  /** Everything succeeds, except that no read ever yields a message: the r-th read of the first
      stream ends in a deadline that is not the caller's own, every other read in an error that no
      policy retries. The caller's context stays alive throughout. */
  function CutAt(r: nat): StreamEnv {
    StreamEnv(_ => None, (_, _) => None, (id, n) => if id == 0 && n == r then CUT else ENDED,
              Env(_ => Success, _ => 0, _ => None))
  }

  function Receives(ops: seq<Op>): nat {
    if ops == [] then 0 else Receives(ops[..|ops| - 1]) + (if ops[|ops| - 1].OpRecv? then 1 else 0)
  }

  lemma ReceivesStep(ops: seq<Op>, n: nat)
    requires n < |ops|
    ensures Receives(ops[..n + 1]) == Receives(ops[..n]) + (if ops[n].OpRecv? then 1 else 0)
  {
    assert ops[..n + 1][..n] == ops[..n];
  }

  /** Until the read that is cut, the first stream stays. */
  lemma {:induction false} BeforeTheCut(ops: seq<Op>, n: nat, r: nat, opts: Options)
    requires n <= |ops| && Receives(ops[..n]) <= r
    ensures var w := After(ops, n, opts, CutAt(r));
            && w.current == 0 && |w.streams| == 1 && !w.receivedGood && w.bufferedSends == SendsOf(ops[..n])
            && w.streams[0].events == CallerEvents(ops[..n]) && w.streams[0].readCount == Receives(ops[..n])
    decreases n
  {
    if n > 0 {
      hide After, SendsOf, CallerEvents, Receives, Step;
      ReceivesStep(ops, n - 1);
      BeforeTheCut(ops, n - 1, r, opts);
      AfterStep(ops, n - 1, opts, CutAt(r));
      StepBeforeCut(After(ops, n - 1, opts, CutAt(r)), ops[n - 1], r, opts);
    }
  }

  lemma StepBeforeCut(w: Wrapper, op: Op, r: nat, opts: Options)
    requires w.current == 0 && |w.streams| == 1 && !w.receivedGood
    requires op.OpRecv? ==> w.streams[0].readCount < r
    ensures var w' := Step(w, op, opts, CutAt(r));
            && w'.current == 0 && |w'.streams| == 1 && !w'.receivedGood
            && w'.bufferedSends == w.bufferedSends + (if op.OpSend? then [op.m] else [])
            && w'.streams[0].events == w.streams[0].events + EventOf(op)
            && w'.streams[0].readCount == w.streams[0].readCount + (if op.OpRecv? then 1 else 0)
  {
  }

  /** The read that is cut installs a replay. */
  lemma TheCut(w: Wrapper, r: nat, opts: Options)
    requires w.current == 0 && |w.streams| == 1 && !w.receivedGood && w.streams[0].readCount == r
    requires opts.max > 1
    ensures var w' := RecvMsg(w, opts, CutAt(r)).0;
            && w'.current == 1 && Valid(w') && w'.streams[1].events == Replay(w.bufferedSends)
  {
    var env := CutAt(r);
    var (w1, read, again) := Receive(w, opts, env);
    assert again;
    ReestablishReplays(w1, env);
    var (w2, err) := Reestablish(w1, env);
    AllAccepted(w1, env);
    hide Reestablish, Replay;
    var (w3, read2, again2) := Receive(w2.(current := 1), opts, env);
    assert !again2;
  }

  lemma AllAccepted(w: Wrapper, env: StreamEnv)
    requires forall k :: env.open(k).None?
    requires forall id, k :: env.event(id, k).None?
    ensures Reestablish(w, env).1.None?
  {
    var w1 := w.(opens := w.opens + 1, streams := w.streams + [StreamLog([], 0)]);
    ResendAccepted(w1, env, |w.streams|, 0);
  }

  lemma {:induction false} ResendAccepted(w: Wrapper, env: StreamEnv, id: nat, i: nat)
    requires id < |w.streams| && i <= |w.bufferedSends| && forall id, k :: env.event(id, k).None?
    ensures Resend(w, env, id, i).1.None?
    decreases |w.bufferedSends| - i
  {
    if i < |w.bufferedSends| {
      ResendAccepted(Log(w, id, Sent(w.bufferedSends[i])), env, id, i + 1);
    }
  }

  lemma StepAfterCut(w: Wrapper, op: Op, r: nat, opts: Options)
    requires w.current == 1 && |w.streams| > 1
    ensures var w' := Step(w, op, opts, CutAt(r));
            w'.current == 1 && |w'.streams| > 1 && w'.streams[1].events == w.streams[1].events + EventOf(op)
  {
  }

  /** What the caller asked from operation i on, up to n. */
  function EventsFrom(ops: seq<Op>, i: nat, n: nat): seq<StreamEvent>
    requires i <= n <= |ops|
  {
    if n == i then [] else EventsFrom(ops, i, n - 1) + EventOf(ops[n - 1])
  }

  lemma {:induction false} EventsSplit(ops: seq<Op>, i: nat, n: nat)
    requires i <= n <= |ops|
    ensures CallerEvents(ops[..n]) == CallerEvents(ops[..i]) + EventsFrom(ops, i, n)
    decreases n
  {
    if n > i {
      EventsSplit(ops, i, n - 1);
      assert ops[..n][..n - 1] == ops[..n - 1];
      Assoc(CallerEvents(ops[..i]), EventsFrom(ops, i, n - 1), EventOf(ops[n - 1]));
    }
  }

  lemma NoEvent(op: Op)
    requires op.OpRecv?
    ensures EventOf(op) == []
  {
  }

  /** After it, the replay stays installed and only what the caller asks is added. */
  lemma {:induction false} AfterTheCut(ops: seq<Op>, i: nat, n: nat, r: nat, opts: Options)
    requires i < n <= |ops| && ops[i].OpRecv? && Receives(ops[..i]) == r && opts.max > 1
    ensures var w := After(ops, n, opts, CutAt(r));
            && w.current == 1 && |w.streams| > 1
            && w.streams[1].events == Replay(SendsOf(ops[..i])) + EventsFrom(ops, i, n)
    decreases n
  {
    hide After, Replay, SendsOf, CallerEvents, CutAt, Receives, EventOf;
    AfterStep(ops, n - 1, opts, CutAt(r));
    if n == i + 1 {
      BeforeTheCut(ops, i, r, opts);
      TheCut(After(ops, i, opts, CutAt(r)), r, opts);
      NoEvent(ops[i]);
      assert EventsFrom(ops, i, n) == EventsFrom(ops, i, i) + EventOf(ops[i]) == [];
    } else {
      AfterTheCut(ops, i, n - 1, r, opts);
      StepAfterCut(After(ops, n - 1, opts, CutAt(r)), ops[n - 1], r, opts);
      hide Step;
      Assoc(Replay(SendsOf(ops[..i])), EventsFrom(ops, i, n - 1), EventOf(ops[n - 1]));
    }
  }

  /** Every environment leaves the installed stream with exactly what the caller asked, if and only if
      the client never retries or the caller closes before it receives. */
  lemma FaithfulExactly(ops: seq<Op>, opts: Options)
    ensures (forall env :: Faithful(Run(INITIAL, ops, opts, env), ops))
            <==> opts.max <= 1 || ClosesBeforeReceiving(ops)
  {
    assert ops[..|ops|] == ops;
    if opts.max <= 1 || ClosesBeforeReceiving(ops) {
      forall env ensures Faithful(Run(INITIAL, ops, opts, env), ops) {
        StaysFaithful(ops, |ops|, opts, env);
      }
    } else {
      UnfaithfulRun(ops, opts);
    }
  }

  lemma UnfaithfulRun(ops: seq<Op>, opts: Options)
    requires opts.max > 1 && !ClosesBeforeReceiving(ops)
    ensures exists env :: !Faithful(Run(INITIAL, ops, opts, env), ops)
  {
    assert ops[..|ops|] == ops;
    var i :| 0 <= i < |ops| && ops[i].OpRecv? && CallerEvents(ops[..i]) != Replay(SendsOf(ops[..i]));
    var r := Receives(ops[..i]);
    AfterTheCut(ops, i, |ops|, r, opts);
    EventsSplit(ops, i, |ops|);
    hide Run, Replay, CallerEvents, SendsOf, CutAt, EventsFrom;
    if Replay(SendsOf(ops[..i])) + EventsFrom(ops, i, |ops|) == CallerEvents(ops) {
      RightCancel(Replay(SendsOf(ops[..i])), CallerEvents(ops[..i]), EventsFrom(ops, i, |ops|));
    }
    assert !Faithful(Run(INITIAL, ops, opts, CutAt(r)), ops);
  }

  /** A caller that sends, never closes, and receives: the retry closes for it. */
  lemma ClosesUnasked(m: Msg)
    ensures var opts := Options(NonRepeatable, 2, true);
            var w := Run(INITIAL, [OpSend(m), OpRecv], opts, CutAt(0));
            !w.wasClosedSend && w.current == 1 && w.streams[1].events == [Sent(m), ClosedSend]
  {
    var ops, opts := [OpSend(m), OpRecv], Options(NonRepeatable, 2, true);
    AfterStep(ops, 0, opts, CutAt(0));
    AfterStep(ops, 1, opts, CutAt(0));
    var w := After(ops, 1, opts, CutAt(0));
    TheCut(w, 0, opts);
    RecvMsgKeeps(w, opts, CutAt(0));
    assert ops[..2] == ops;
    assert Replay([m]) == [Sent(m), ClosedSend];
  }
}
