# Verification of the gRPC-versus-Thrift key-value benchmark

The repository compares a gRPC and a Thrift key-value service. Around the two servers it carries its own
client-side machinery: a gRPC balancer with a round-robin picker, a retry interceptor for unary calls and
server streams, a Thrift connection pool, a health service, double-buffered request queues, and the
generated Thrift codec and dispatcher. This project models that machinery in Dafny 4.11 and proves what it
is meant to guarantee. `dafny verify dfyconfig.toml` checks everything.

Two kinds of module work together. A *model* module gives an operation, or one atomic step of a concurrent
protocol, as a function on values, and proves properties of all runs and all interleavings. An *object*
module has the source's fields, loops and in-place updates, and ties them to the model:

- `BaseBalancer`, `EntryQueue` and `ThriftPool` have a `View()`, and each method takes it to what the model
  function gives; the pool's functions are themselves scripts of the machine's steps.
- `HealthServer` carries the machine's state; `Valid()` says that the fields and channels show it and that it
  is reachable, and each method performs a run of the machine's steps, so `ChannelsAreCurrent` and `Check`
  take what holds of every run over to the object.
- `ServerStreamingRetryingStream`, `Processor`, `KvService`, `Recorder`, `RrBalanced` and the loops of
  `ThriftStructs`, `UnaryClientInterceptor` and `Watch` are proved equal to specification functions, about which
  the properties are then proved.

| modules | what they model |
|---|---|
| `Connectivity`, `RoundRobin`, `BalancerModel`, `BalancerEvents`, `Balancer` | the connectivity recorder, the pickers, the balancer's three maps and its incrementally rebuilt picker, and what they must be by the events alone |
| `Retry`, `RetryStream`, `Backoff` | retry decisions and loops, stream re-establishment with replay, the quorum backoff |
| `PoolProtocol`, `ThriftPool` | the connection pool: every interleaving of its atomic steps, and its methods run alone |
| `HealthProtocol`, `HealthServer` | watchers against setters, step by step, and the server object |
| `EntryQueue`, `KvServer` | the double-buffered queue on a heap, and batched writes over a map store |
| `Protocol`, `Codec`, `WireFields`, `ThriftStructs` | the token stream with Skip, every generated Read and Write (driven by field tables), and the loops that run them over a stateful protocol |
| `KvRpc`, `KvProcessor`, `KvOverThrift` | the KV service's field tables, its message dispatcher, and the server's handler behind it |
| `BinaryProtocol`, `BinaryCodec`, `BinaryOrigin`, `BinaryProcessor`, `BinaryLayout` | the same reader and dispatcher over bytes, and some messages byte by byte, by the Apache Thrift specification "Thrift Binary protocol encoding", sections "Message", "Struct", "List and Set" and "Map" |

What the environment is assumed to do is written as a predicate on events: `BalancerModel.Legal` (handles
from NewSubConn are never reused, Shutdown is reported only for removed handles), `PoolProtocol.Enabled`
(dials are fresh, only a holder returns a client), `HealthProtocol.Enabled` (every Watch call has a stream of
its own), and the oracles `Env`, `StreamEnv` and `Backend`, which
answer in any way they like.

## Findings

Where the code does less than one would expect, the code is modelled as it is, a lemma shows the failure,
and the exact condition for the expected behaviour is proved.

- Two attempts of one call can both be applied. Before the call nothing less than a single attempt rules this
  out: it is safe whatever happens if and only if `max <= 1`, under either policy
  (`Retry.SafeBeforehandExactly`). Afterwards, it is possible exactly when two attempts may have reached the
  server and the earlier one was retried all the same (`Retry.AppliedTwiceExactly`): under `nonRepeatable` only
  after a deadline or cancellation error while the caller's context was still alive
  (`Retry.AtMostOnceExactly`, with the run `Retry.NonRepeatableMayApplyTwice`), under `repeatable` also after an
  Unavailable answer whose text does not say that no connection was there (`Retry.RepeatableMayApplyTwice`).
- The pool's limit check and its counting are separate steps: t racing `Get` calls can take the count to
  `maxConn + t - 1` and no further (`PoolProtocol.CountWithinLimit`, `PoolProtocol.LimitIsReached`). Calls that
  run whole, one after another, respect the limit exactly when it is not negative
  (`ThriftPool.SequentialLimitExactly`). With one `Get` at a time but other calls between its steps the limit is
  respected exactly when it is at least one: at zero, a nil `Put`, a `Get` past its check and the first half of
  a `Release` before that `Get` counts exceed it (`PoolProtocol.OneGetLimitExactly`,
  `PoolProtocol.ZeroLimitExceeded`).
- `Release` is two steps. Clients dialled and returned between them are closed but stay counted; whatever the
  limit, a pool with no client anywhere can then refuse every `Get` (`PoolProtocol.ReleaseRaceLosesCapacity`).
  At any time, capacity is lost exactly when the swaps since the latest first half of a Release have closed more
  idle clients than were counted then, beyond the nil returns since (`PoolProtocol.CapacityLostExactly`); for one
  Release with no other between its halves, that is its own swap (`PoolProtocol.ReleaseCosts`). An empty pool
  refuses exactly when the corrections have used up the limit (`PoolProtocol.EmptyPoolRefusesExactly`).
- A stream that a retry installs always gets a `CloseSend`, whether or not the caller closed the first one
  (`RetryStream.ClosesUnasked`). Every environment leaves the installed stream with exactly what the caller
  asked for if and only if the client never retries or, before each receive, the caller has sent its messages
  and then closed once (`RetryStream.FaithfulExactly`).
- A well-formed `Get` or `Put` frame without its request field makes the server's handler panic, and the frame
  gets no answer (`KvOverThrift.EmptyPutPanics`). The server answers every one of a sequence of well-formed
  frames if and only if none is such a call (`KvOverThrift.ServerProcessesFrames`); `MultiPut` never panics.
- A second round trip of the codec changes nothing exactly when no nil struct stands, outside an unset
  optional field, for a struct with pointers of its own (`Codec.SecondRoundTrip`). Every message of the KV
  service meets this except a bare nil response or argument struct (`KvRpc.WhatSettles`,
  `KvRpc.NilResponseChangesTwice`).
- A nil request inside `MultiPut` is written as an empty struct and arrives as a write of the empty key
  (`KvOverThrift.PointedArrives`).
- A Shutdown of a handle that was never removed would break the balancer's maps, and no other Shutdown would
  (`BalancerModel.ShutdownNeedsRemoval`).

## Model

| member | source | states |
|---|---|---|
| `Connectivity.Recorder.constructor` | grpc/client/balancer/connectivity/connectivity.go:16-18 | a new recorder is Idle with zero counters |
| `Connectivity.Recorder.RecordTransition` | grpc/client/balancer/connectivity/connectivity.go:49-74 | the two-round loop with its wrapping update takes one from the old state's counter and adds one to the new state's, and re-evaluates the state |
| `Connectivity.TransitionCounts` | grpc/client/balancer/connectivity/connectivity.go:49-61 | counters that count a map's entries still count them after one entry moves, and the counter of the left state was positive, so nothing wraps |
| `Connectivity.EvaluateIsAggregate` | grpc/client/balancer/connectivity/connectivity.go:63-73 | exact counters evaluate to the aggregate recomputed from all entries |
| `Connectivity.IdleIsNotCounted` | grpc/client/balancer/balancer.go:123-135 | a fresh Idle entry leaves counters exact and the aggregate unchanged without being recorded |
| `BalancerModel.EveryReachableState` | grpc/client/balancer/balancer.go:112-211 | in every state any legal run reaches: `addrToSc` inverts into `scToAddr`, the handle maps have one key set, every handle ever granted is live or was removed exactly once, the counters are exact, `cur` is the recomputed aggregate (Idle before the first accepted transition), the picker offers only Ready handles, offers every live Ready one, is the failure picker exactly when the aggregate is, and equals the last published one |
| `BalancerModel.RunKeeps` | grpc/client/balancer/balancer.go:112-211 | the same for runs from any state with the invariants |
| `BalancerModel.ChangeKeeps` | grpc/client/balancer/balancer.go:152-190 | one state change keeps all of them, although the picker is rebuilt only on some transitions |
| `BalancerModel.PruneKeeps` | grpc/client/balancer/balancer.go:137-148 | dropping the unresolved addresses keeps all of them while the dropped handles linger |
| `BalancerModel.ResolveFirstKeeps` | grpc/client/balancer/balancer.go:122-135 | connecting any prefix of the resolved addresses keeps all of them |
| `BalancerModel.NoDecrementWraps` | grpc/client/balancer/connectivity/connectivity.go:52-61 | in every reachable state the counter that the next transition of a tracked handle decrements is positive |
| `BalancerModel.PickerAgreesWithRebuild` | grpc/client/balancer/balancer.go:192-211 | in every reachable state the incrementally kept picker and one rebuilt from the maps offer the same live handles |
| `BalancerModel.ResolutionOutcome` | grpc/client/balancer/balancer.go:119-148 | after a resolution exactly the resolved addresses with a handle or a grant remain, retained addresses keep their handle, new ones get unseen handles, nothing stops being tracked, and nothing is published |
| `BalancerModel.LateShutdownSparesReplacement` | grpc/client/balancer/balancer.go:161-169 | the late Shutdown of a removed handle only forgets that handle, even when its address has come back |
| `BalancerModel.ShutdownNeedsRemoval` | grpc/client/balancer/balancer.go:161-169 | the maps survive a Shutdown if and only if the handle had been removed |
| `BalancerEvents.EventsDecideMaps` | grpc/client/balancer/balancer.go:112-190 | over every legal run, computed from the events alone: each address has the first handle granted while it stays resolved, each handle is tracked with the address it was made for and the state gRPC last reported for it (Idle before any report) until Shutdown is reported, and as many pairs were published as reports were about tracked handles |
| `BalancerEvents.EventsDecidePicker` | grpc/client/balancer/balancer.go:152-211 | over these event-derived states: the aggregate is the recomputed one (Idle before the first accepted report), the picker fails with ErrTransientFailure exactly when the aggregate does, offers only ready handles under the addresses they were made for, offers every ready handle an address still has, and this pair was the last one published |
| `BalancerEvents.AcceptedReport` | grpc/client/balancer/balancer.go:152-211 | a report about a tracked handle publishes one pair more, the event-derived aggregate with the picker; the picker is built anew from the live ready handles if readiness or failure flips, and is the one before otherwise |
| `BalancerEvents.IgnoredEvents` | grpc/client/balancer/balancer.go:112-165 | a failed resolution and a report about a handle that is not tracked change nothing |
| `Balancer.BaseBalancer.constructor` | grpc/client/balancer/balancer.go:51-74 | a built balancer is the model's initial state |
| `Balancer.BaseBalancer.HandleResolvedAddrs` | grpc/client/balancer/balancer.go:112-149 | the method is the model's resolution step, and keeps the picker object |
| `Balancer.BaseBalancer.ConnectNew` | grpc/client/balancer/balancer.go:122-135 | the first loop connects each new address once and collects the resolved set |
| `Balancer.BaseBalancer.DropStale` | grpc/client/balancer/balancer.go:137-148 | the deletion loop, in any map order, drops exactly the unresolved addresses and removes each of their handles once |
| `Balancer.BaseBalancer.HandleSubConnStateChange` | grpc/client/balancer/balancer.go:152-190 | the method is the model's state-change step, whose states, aggregate and picker `BalancerEvents` derives from the events; the picker object stays unless readiness or failure flips, and a new one starts its round from the first handle |
| `Balancer.BaseBalancer.UpdatePicker` | grpc/client/balancer/balancer.go:192-211 | the rebuild offers exactly the live Ready handles in a fresh picker, or fails |
| `RoundRobin.RrBalanced.constructor` | grpc/client/balancer/picker/roundrobin.go:12-22 | the picker holds each ready handle once, in some order |
| `RoundRobin.RrBalanced.Pick` | grpc/client/balancer/picker/roundrobin.go:35-61 | returns the handle at `next` and advances it cyclically; an empty picker answers none |
| `RoundRobin.ExactShare` | grpc/client/balancer/picker/roundrobin.go:43-48 | any k consecutive picks from n return each index floor(k/n) times, plus one exactly for the indices met in the partial round |
| `RoundRobin.DistinctWithinRound` | grpc/client/balancer/picker/roundrobin.go:43-48 | fewer than n picks apart, two picks differ |
| `Backoff.GrpcClient.Endpoints` | grpc/client/client.go:53-60 | the endpoints are handed out as a fresh copy |
| `Backoff.CallWaits` | grpc/client/client.go:135-145 | a whole unary call with the client's backoff over n endpoints, each wait jittered anew, makes m >= 1 invocations and exactly (m-1)/(n/2+1) full waits, and the context can end it in a wait only after whole quorums |
| `Backoff.Quorum` | grpc/client/client.go:138-140 | n/2+1 is the smallest majority of n and, for n > 0, reachable |
| `Backoff.WaitsExactly` | grpc/client/client.go:135-145 | m attempts are preceded by exactly (m-1)/(n/2+1) waits |
| `Backoff.BlockReachesQuorum` | grpc/client/client.go:135-145 | each full block of n/2+1 attempts has no wait inside and reaches n/2+1 distinct handles of the round robin |
| `Retry.UnaryClientInterceptor` | grpc/client/retry.go:115-153 | the loop returns the error and makes the invocations of the recursive definition, which `Retry.UnaryExactly` pins from both sides |
| `Retry.AttemptsShape` | grpc/client/retry.go:125-152 | from any attempt on: how many invocations, which were retriable, why the loop ended, and with which error |
| `Retry.UnaryShape` | grpc/client/retry.go:115-153 | a call invokes between once and max times (once when max is 0), only retriable failures are followed by another attempt, it succeeds exactly when its last attempt did, and its error is the last attempt's or the context's during a wait |
| `Retry.UnaryExactly` | grpc/client/retry.go:115-153 | a call tries again after exactly the failures of the retry set, as long as max allows and no wait is cut short: all attempts but the last failed inside the set without a cut wait, and the call ended because the last one succeeded, failed outside the set or was attempt max, or because the context ended during the next wait, whose error then carries that end's code |
| `Retry.RetriableExactly` | grpc/client/retry.go:134-149 | the retry decision by the error alone, both policies: a deadline or cancellation while the caller's context lives; InvalidAuthToken if retryAuth; for nonRepeatable one of the two no-connection texts with Unavailable or no status; for repeatable an Unavailable status that is neither InvalidAuthToken nor an etcd error of another code |
| `Retry.WaitIsCut` | grpc/client/retry.go:383-410 | a wait fails exactly when it is not the first, is positive and the context ends during it, with the code of the deadline, of the cancellation, or Unknown |
| `Retry.RetriedMayApply` | grpc/client/retry.go:298-362 | of the retried attempts exactly those may have been applied that ended on the live-context branch or, under the repeatable policy, in an Unavailable error whose text is not one of the three that say the server was not reached; the retry predicates let no other through |
| `Retry.AppliedTwiceExactly` | grpc/client/retry.go:115-153 | under either policy a call may be applied twice if and only if two of its attempts may have been applied, the earlier one a retried attempt of that kind |
| `Retry.AtMostOnceExactly` | grpc/client/retry.go:298-362 | for a non-repeatable call the earlier one is on the live-context branch |
| `Retry.AtMostOnce` | grpc/client/retry.go:298-362 | without a live-context retry at most one attempt is applied |
| `Retry.SafeBeforehandExactly` | grpc/client/retry.go:115-153 | whatever happens, a call is applied at most once if and only if max is at most one, under either policy |
| `Retry.NonRepeatableMayApplyTwice` | grpc/client/retry.go:136-142 | two live-context deadlines under the non-repeatable policy may both hide an application |
| `Retry.RepeatableMayApplyTwice` | grpc/client/retry.go:316-343 | two Unavailable answers under the repeatable policy may both hide an application |
| `RetryStream.ServerStreamingRetryingStream.constructor` | grpc/client/retry.go:183-191 | a new wrapper has one stream and an empty buffer |
| `RetryStream.ServerStreamingRetryingStream.Send` | grpc/client/retry.go:223-228 | SendMsg buffers the message and sends it on the installed stream |
| `RetryStream.ServerStreamingRetryingStream.Close` | grpc/client/retry.go:230-235 | CloseSend is noted and passed on |
| `RetryStream.ServerStreamingRetryingStream.ReceiveMsgAndIndicateRetry` | grpc/client/retry.go:270-295 | one read at the next position, the good-receive flag, and the decision to retry |
| `RetryStream.ServerStreamingRetryingStream.ReestablishStreamAndResendBuffer` | grpc/client/retry.go:364-381 | the resend loop does what the recursive definition does, and installs nothing |
| `RetryStream.ServerStreamingRetryingStream.Recv` | grpc/client/retry.go:245-268 | RecvMsg's retry loop does what the recursive definition does, which `RetryStream.RecvMsgAnswers` derives from the environment |
| `RetryStream.ResendReplays` | grpc/client/retry.go:370-379 | a resend without error completes the replay of the buffer, each event of it accepted, and touches no other stream |
| `RetryStream.ReestablishReplays` | grpc/client/retry.go:364-381 | a re-established stream accepted exactly the buffer in order and one CloseSend |
| `RetryStream.RecvFromKeeps` | grpc/client/retry.go:250-266 | what any number of further attempts keep: one source, the buffer, the number of opens |
| `RetryStream.RecvMsgKeeps` | grpc/client/retry.go:245-268 | one RecvMsg opens at most max-1 streams, never replaces a stream that has delivered, installs only a full replay, and delivers at most one message from the installed stream |
| `RetryStream.RecvMsgAnswers` | grpc/client/retry.go:245-295 | one RecvMsg from the environment alone: the attempts before its last were retried after, that is failed inside the retry set before any good receive, and each attempt waited, opened and replayed without an error; its answer is what the last attempt read if that is not retried after or attempts are used up, else the context's end during the next wait or the first error of the next open or replay; it leaves the last attempt's stream installed, read exactly once more, or once if it is new |
| `RetryStream.RecvFromAnswers` | grpc/client/retry.go:250-266 | the same from any attempt on |
| `RetryStream.ResendError` | grpc/client/retry.go:370-379 | a resend ends with the first error among its sends and its close, or with none |
| `RetryStream.RunHasOneSource` | grpc/client/retry.go:199-295 | whatever the order of operations, all messages delivered come from one underlying stream |
| `RetryStream.RunFromStartHasOneSource` | grpc/client/retry.go:199-295 | the same for any run of a new wrapper, message by message |
| `RetryStream.DeliveredAreTheReads` | grpc/client/retry.go:199-295 | every run of a new wrapper has delivered exactly the messages that reads 0, 1, 2, ... of the installed stream yielded, in order, none skipped and none twice; a receive was good if and only if one of these reads was |
| `RetryStream.ReadsAreReceives` | grpc/client/retry.go:245-277 | the number of these reads, by the operations: one for each RecvMsg since the one that installed the stream, or since the start |
| `RetryStream.EachReceiveReadsOnce` | grpc/client/retry.go:270-282 | after a good receive the stream stays and each RecvMsg is one read of it; what is delivered is what these reads yield |
| `RetryStream.InstalledStreamWasAskedAll` | grpc/client/retry.go:223-268 | in the server-streaming order the installed stream was asked to send all messages in order and to close once, after any number of receives; if a retry installed it, it accepted all of that |
| `RetryStream.FaithfulExactly` | grpc/client/retry.go:223-295 | every environment leaves the installed stream with exactly what the caller asked for if and only if the client never retries or the caller sends, then closes once, before each receive |
| `RetryStream.StaysFaithful` | grpc/client/retry.go:245-268 | the if direction, after any number of operations |
| `RetryStream.UnfaithfulRun` | grpc/client/retry.go:364-381 | otherwise some environment leaves it with something else |
| `RetryStream.ClosesUnasked` | grpc/client/retry.go:377-379 | a caller that sends, does not close, and receives can end up on a stream that was closed |
| `PoolProtocol.EveryInterleaving` | thrift/client/pool/pool.go:80-190 | over every interleaving: count = idle + checked out + popped - forgotten - nil returns, each client is in one place, closed at most once and exactly when its phase says so, and the idle list is sorted by time |
| `PoolProtocol.RunKeeps` | thrift/client/pool/pool.go:80-190 | the same from any state with the invariants |
| `PoolProtocol.NextKeepsCount` | thrift/client/pool/pool.go:80-165 | every single step conserves the count equation |
| `PoolProtocol.NextKeepsClosed` | thrift/client/pool/pool.go:121-232 | no step closes a client twice |
| `PoolProtocol.OnlyReleaseForgets` | thrift/client/pool/pool.go:220-232 | only Release changes the correction; taken as one step it sets it to the counted clients outside the idle list and leaves each idle client waiting for one close |
| `PoolProtocol.HandedOutClientIsFree` | thrift/client/pool/pool.go:97-118 | Get hands out only a client that nobody holds and that was never closed |
| `PoolProtocol.OutExactlyWhenFoundOpen` | thrift/client/pool/pool.go:93-118 | a step brings a client into a caller's hands if and only if it is Get finding that client open, dialled or popped |
| `PoolProtocol.FoundOpenOrLost` | thrift/client/pool/pool.go:93-118 | over every interleaving, by what Check answered last for a client: it is lost for good exactly if the answer was no, and held by a caller, in the list, or on its way to being closed exactly if it was yes |
| `PoolProtocol.SweepsExactlyWhenIdleTooLong` | thrift/client/pool/pool.go:168-190 | over every interleaving, from the steps alone: the sweep can take a client if and only if some idle client was put back at least idleTimeout ago, and then it takes one that was, and none that was put back earlier is left behind it |
| `PoolProtocol.RunBounded` | thrift/client/pool/pool.go:86-107 | count plus dials past the check never exceeds the limit plus the other Gets in flight |
| `PoolProtocol.CountWithinLimit` | thrift/client/pool/pool.go:86-107 | with at most t Gets in flight count stays within maxConn + t - 1 |
| `PoolProtocol.OpenWithinLimit` | thrift/client/pool/pool.go:86-107 | the clients really open stay within that plus what Release forgot and nil returns took |
| `PoolProtocol.LimitIsReached` | thrift/client/pool/pool.go:86-107 | that bound is attained |
| `PoolProtocol.OneGetLimitExactly` | thrift/client/pool/pool.go:86-127 | with at most one Get in flight and any other calls between its steps, the limit is respected if and only if it is at least one |
| `ThriftPool.SequentialLimitExactly` | thrift/client/pool/pool.go:80-232 | calls that run whole, one after another, respect the limit if and only if it is not negative |
| `ThriftPool.CallKeeps` | thrift/client/pool/pool.go:80-232 | every whole call keeps the pool's invariants and a limit that is not negative |
| `PoolProtocol.ZeroLimitExceeded` | thrift/client/pool/pool.go:121-127 | with limit zero a nil return lets a dial through, and a Release before it counts takes the count to one |
| `PoolProtocol.ReleaseRaceLosesCapacity` | thrift/client/pool/pool.go:220-232 | for every limit, as many clients dialled and returned between Release's halves leave a full count with no client anywhere |
| `PoolProtocol.CapacityLostExactly` | thrift/client/pool/pool.go:220-232 | at any time after the latest first half of a Release, any other steps included: what is counted without a client, and that this is positive if and only if swaps have since closed more idle clients than were counted then plus the nil returns since |
| `PoolProtocol.ReleaseCosts` | thrift/client/pool/pool.go:220-232 | for a Release with any steps between its halves except those of another Release, its own swap decides |
| `PoolProtocol.EmptyPoolRefusesExactly` | thrift/client/pool/pool.go:86-91 | a reachable pool with no client left refuses the next Get if and only if the corrections have used up the limit |
| `PoolProtocol.CountFitsInt32` | thrift/client/pool/pool.go:25-36 | with m the limit plus the Gets in flight, the count lies between minus (m times the Releases so far plus the nil returns so far) and m, so within these bounds 32 bits never wrap |
| `ThriftPool.ThriftPool.Get` | thrift/client/pool/pool.go:80-119 | a Get alone is its script of steps: limit, miss and dial, or pop and check, with the outcomes of `ThriftPool.GetCallOutcome` |
| `ThriftPool.ThriftPool.Put` | thrift/client/pool/pool.go:121-155 | a Put alone keeps or closes the client, and drifts the count on nil |
| `ThriftPool.GetCallOutcome` | thrift/client/pool/pool.go:86-118 | with a client listed a Get alone hands out the longest-idle one if and only if Check finds it open, and otherwise uncounts it, loses it and answers disconnected; with none it is over the limit exactly when the limit is reached, and below it the dial decides between its error, disconnected with the client lost, and handing out the counted client; the invariants stay |
| `ThriftPool.PutCallKeeps` | thrift/client/pool/pool.go:129-154 | a returned client leaves its caller and is closed exactly once or listed; the invariants stay |
| `ThriftPool.PutCall` | thrift/client/pool/pool.go:129-154 | over the limit or not open the client is uncounted and closed, else it joins the idle list with the current time |
| `ThriftPool.ThriftPool.CloseErrConn` | thrift/client/pool/pool.go:157-166 | uncounts and closes, or only uncounts on nil |
| `ThriftPool.ThriftPool.CheckTimeout` | thrift/client/pool/pool.go:168-190 | the loop that drops its lock in each round is the sweep: it closes each client at a clock reading at least idleTimeout after it was put back, and whatever it leaves of a sorted list has been idle for less at its last reading |
| `ThriftPool.SweepFilters` | thrift/client/pool/pool.go:168-190 | stopping at the first fresh entry keeps exactly the entries idle for less than idleTimeout at the last clock reading, in order |
| `ThriftPool.SweepIsInTime` | thrift/client/pool/pool.go:173-188 | the k-th client taken had been idle for idleTimeout at the k-th clock reading, and the sweep ended because the list was empty or the next client had not been at the last reading |
| `ThriftPool.SweepAccounts` | thrift/client/pool/pool.go:178-188 | what is swept is a prefix, each client closed once and uncounted once |
| `ThriftPool.SweepKeeps` | thrift/client/pool/pool.go:168-190 | a sweep keeps the pool's invariants |
| `ThriftPool.KeptAreFresh` | thrift/client/pool/pool.go:173-177 | filtering keeps an entry if and only if the clock is before its return time plus idleTimeout |
| `ThriftPool.ThriftPool.Release` | thrift/client/pool/pool.go:220-232 | zero the count, swap out the idle list, close each |
| `ThriftPool.ReleaseClosesIdleOnce` | thrift/client/pool/pool.go:220-232 | a Release alone closes each idle client exactly once and forgets exactly the counted clients outside the list |
| `HealthProtocol.NextKeeps` | grpc/server/api/health.go:45-141 | every step of every watcher and setter keeps the invariants |
| `HealthProtocol.ChannelHoldsLatest` | grpc/server/api/health.go:45-114 | at every interleaved step outside the update of its service, a registered watcher's channel holds the current status, or is empty and the last value received is that status |
| `HealthProtocol.QuietWatcherIsCurrent` | grpc/server/api/health.go:69-87 | a watcher with nothing left to handle last sent the current status |
| `HealthProtocol.SendsAreHistory` | grpc/server/api/health.go:69-87 | what a watcher sends is a subsequence of its service's history without equal neighbours |
| `HealthProtocol.SetterNeverBlocks` | grpc/server/api/health.go:102-114 | a setter holding the lock always has a step: no send on a channel blocks |
| `HealthProtocol.ShutdownHolds` | grpc/server/api/health.go:91-128 | between Shutdown and Resume every status reads not serving |
| `HealthServer.HealthServer.constructor` | grpc/server/api/health.go:25-30 | a new server shows the machine's initial state: not shut down, exactly the service "" known and serving, no watchers |
| `HealthServer.HealthServer.Check` | grpc/server/api/health.go:33-42 | Check agrees with Watch: a watcher with nothing left to receive last sent what Check answers, not-found being SERVICE_UNKNOWN; after Shutdown no service is answered as serving |
| `HealthServer.HealthServer.ChannelsAreCurrent` | grpc/server/api/health.go:45-114 | on the object, while no setter is at work, every registered channel holds its service's current status or is empty with that status received last |
| `HealthServer.HealthServer.Subscribe` | grpc/server/api/health.go:46-67 | the locked part of Watch is the machine's registration: a fresh channel with the current status or SERVICE_UNKNOWN |
| `HealthServer.HealthServer.Select` | grpc/server/api/health.go:70-81 | one turn of the Watch loop is the machine's receive and handle |
| `HealthServer.HealthServer.Unsubscribe` | grpc/server/api/health.go:62-66 | the deferred delete is the machine's unregistration |
| `HealthServer.HealthServer.SetServingStatus` | grpc/server/api/health.go:91-100 | does nothing after Shutdown; otherwise a run of one setter's steps that ends with the lock free, the status set and every channel of the service holding it |
| `HealthServer.HealthServer.SetServingStatusLocked` | grpc/server/api/health.go:102-114 | the setter's steps for one service: each channel is drained before it is refilled, and all end with the new status |
| `HealthServer.HealthServer.Shutdown` | grpc/server/api/health.go:121-128 | a run of the shutdown setter's steps: every known service and each of its channels becomes not serving |
| `HealthServer.HealthServer.Resume` | grpc/server/api/health.go:135-141 | a run of the resuming setter's steps: every known service and each of its channels becomes serving |
| `HealthServer.Watch` | grpc/server/api/health.go:69-87 | the loop sends what `Sends` says for any run of selects, and returns if and only if some select ends it |
| `HealthServer.SendsExactly` | grpc/server/api/health.go:69-87 | what is sent is every status that differs from the one received before it, up to the first select that ends the loop (the context done, or a changed status that cannot be sent), and nothing after |
| `HealthServer.WatcherRunsLoop` | grpc/server/api/health.go:69-87 | in every interleaving, what a watcher has sent is what that loop sends for the statuses it took |
| `HealthServer.EveryRunSends` | grpc/server/api/health.go:69-87 | the same from any state: what a run adds to a watcher's sends |
| `HealthServer.SendsChange` | grpc/server/api/health.go:73-77 | no status is sent twice in a row |
| `HealthServer.LastSendIsLastReceived` | grpc/server/api/health.go:69-87 | while sends work the client last saw what was received last |
| `EntryQueue.BatchesAreAccepted` | internal/messagequeue/queue.go:43-68 | for every run of Add, Get and Close the batches followed by what is pending are the accepted entries in order |
| `EntryQueue.RunInOrder` | internal/messagequeue/queue.go:43-68 | no run loses, duplicates or reorders, and no batch exceeds the capacity |
| `EntryQueue.RunAccepts` | internal/messagequeue/queue.go:43-58 | which entries a run accepts, computed from the operations alone |
| `EntryQueue.AddAnswers` | internal/messagequeue/queue.go:43-58 | after any run, by its operations alone: Add accepts if and only if there is room and no Close came before, its second result is true if and only if a Close came before, and an accepted entry is pending last |
| `EntryQueue.EntryQueue.constructor` | internal/messagequeue/queue.go:18-25 | two fresh arrays of the given size |
| `EntryQueue.EntryQueue.Add` | internal/messagequeue/queue.go:43-58 | accepts if and only if neither full nor stopped, and always tells whether stopped; then writes one slot of the write array, leaves the other array alone, and keeps the slices of earlier Gets as `Valid` says |
| `EntryQueue.EntryQueue.Get` | internal/messagequeue/queue.go:60-68 | returns the pending entries as a slice of the reused array; with `Valid`, the slice of one Get keeps its contents until the first accepted Add after the following Get |
| `EntryQueue.EntryQueue.Close` | internal/messagequeue/queue.go:27-31 | only sets stopped |
| `KvServer.KvService.Put` | grpc/server/kv.go:36-51 | one write or the store's error |
| `KvServer.KvService.Get` | grpc/server/kv.go:13-34 | the value under the key, an empty one counting as missing |
| `KvServer.KvService.PutStream` | grpc/server/kv.go:53-90 | commits exactly the requests received before the stream's end or first error, in one batch |
| `KvServer.KvService.MultiPut` | thrift/server/kv.go:64-87 | commits all requests in one batch |
| `KvServer.LastWriteWins` | thrift/server/kv.go:64-87 | after a batch each key holds its last request's value, other keys are unchanged |
| `KvServer.FailedReceiveCommitsPrefix` | grpc/server/kv.go:59-75 | a failing receive commits exactly the received prefix |
| `KvServer.DrainedQueueEqualsSingleWrites` | grpc/server/kv.go:53-90 | draining any run of the queue batch by batch leaves the store that single writes of the accepted requests leave |
| `KvServer.DrainWhileAdding` | internal/messagequeue/queue.go:43-68 | the slice that Get returned, read element by element while other entries are added, still sends exactly the batch to PutStream |
| `KvServer.DrainRun` | internal/messagequeue/queue.go:27-68 | a whole run on the queue object, every slice sent to the server object, leaves the store that single writes of the accepted requests leave |
| `Protocol.SkipExactly` | thrift/rpc/rpc.go:335-339 | Skip passes exactly one value of any type if and only if it is not nested deeper than its limit |
| `Codec.RoundTrip` | thrift/rpc/rpc.go:302-420 | reading what Write emitted, followed by anything, consumes exactly that and yields the normalised value, for every type and list length |
| `Codec.StructRoundTrip` | thrift/rpc/rpc.go:378-390 | the same for a struct pointer, nil included |
| `Codec.FieldsRoundTrip` | thrift/rpc/rpc.go:302-346 | the read loop over any suffix of the written fields |
| `Codec.ListRoundTrip` | thrift/rpc/rpc.go:403-420 | the same for a list, nil included |
| `Codec.SecondRoundTrip` | thrift/rpc/rpc.go:302-420 | a second round trip changes nothing if and only if the value is settled |
| `Codec.ReadHasType` | thrift/rpc/rpc.go:576-640 | whatever the input, a value read fits its type and is not nil, and its lists hold no nil |
| `WireFields.ReadsStruct` | thrift/rpc/rpc.go:715-817 | any body of complete fields decodes to the assignments of its known fields in order |
| `WireFields.InsertionIsHarmless` | thrift/rpc/rpc.go:576-640 | a well-formed field with an unknown id or another type, inserted anywhere, leaves the decoded struct unchanged |
| `WireFields.PermutationIsHarmless` | thrift/rpc/rpc.go:715-817 | permuting fields leaves the decoded struct unchanged when no known id repeats |
| `WireFields.PermutedDistinct` | thrift/rpc/rpc.go:715-781 | that condition does not depend on the order |
| `WireFields.WrittenStructTolerates` | thrift/rpc/rpc.go:642-680 | what Write emits tolerates such an insertion at any place |
| `WireFields.WrittenStructPermutes` | thrift/rpc/rpc.go:819-865 | what Write emits may arrive in any order |
| `ThriftStructs.ReadStruct` | thrift/rpc/rpc.go:715-817 | the generated read loop over a stateful protocol is the specification's Read |
| `ThriftStructs.ReadValue` | thrift/rpc/rpc.go:783-817 | the readers of the field types are the specification's Read of those types |
| `ThriftStructs.ReadList` | thrift/rpc/rpc.go:357-376 | the list loop is the specification's Read of a list; the element type that the header names is not looked at |
| `ThriftStructs.WriteStruct` | thrift/rpc/rpc.go:819-833 | the generated writer appends the specification's Write |
| `ThriftStructs.WriteFieldOf` | thrift/rpc/rpc.go:1632-1643 | appends one field with its header, an optional one only when it is set |
| `ThriftStructs.WriteList` | thrift/rpc/rpc.go:403-420 | the list loop appends the specification's Write, a nil slice as an empty list |
| `KvRpc.MethodOf` | thrift/rpc/rpc.go:1082-1088 | the processor map knows exactly the four method names |
| `KvRpc.SchemasAreValid` | thrift/rpc/rpc.thrift:5-45 | every argument, result and return struct has distinct field ids and optional fields only on pointers |
| `KvRpc.WhatSettles` | thrift/rpc/rpc.go:1864-1952 | arguments and return values settle in one round trip exactly when they are not a bare nil struct with pointers |
| `KvRpc.NilResponseChangesTwice` | thrift/rpc/rpc.go:378-420 | a nil GetResponse is read without a header first and with an empty header the second time |
| `KvProcessor.ProcessesFrame` | thrift/rpc/rpc.go:1091-1298 | one well-formed frame followed by anything: the handler runs on its arguments, and unless it panics exactly the frame is consumed and one message answers it |
| `KvProcessor.ProcessesFrames` | thrift/rpc/rpc.go:1091-1298 | a concatenation of well-formed frames writes one message per frame, in order, with its name and sequence id: a REPLY decoding to the normalised result, or an EXCEPTION decoding to its code and text; a handler that panics ends this at its frame |
| `KvProcessor.UnreadableArgsAreRefused` | thrift/rpc/rpc.go:1256-1266 | arguments that cannot be read leave the handler uncalled and are answered by one EXCEPTION with code 7 and the text of the failed read |
| `KvProcessor.ExceptionsSay` | thrift/rpc/rpc.go:1096-1298 | in full: an unknown method is answered under code 1 with its name, a handler's error under code 6 with the method's name and the error's text |
| `KvProcessor.ExceptionReadsBack` | thrift/rpc/rpc.go:1098-1103 | a written exception decodes to its code and text, even when the empty text is left out |
| `KvProcessor.ResultReadsBack` | thrift/rpc/rpc.go:1573-1643 | a written result decodes to the normalised return value, or to an unset one |
| `KvProcessor.CallIsComplete` | thrift/rpc/rpc.go:1052-1060 | a client's call is such a frame |
| `KvProcessor.Processor.Process` | thrift/rpc/rpc.go:1091-1106 | the dispatcher over stateful protocols is the specification's, unknown methods included |
| `KvProcessor.Processor.ProcessCall` | thrift/rpc/rpc.go:1256-1298 | each method's processor is the specification's: an unreadable call, a handler error and a reply, in that branch order |
| `KvProcessor.Processor.WriteException` | thrift/rpc/rpc.go:1098-1104 | appends one EXCEPTION message with the call's name and sequence id |
| `KvProcessor.Processor.WriteReply` | thrift/rpc/rpc.go:1283-1291 | appends one REPLY message whose body is the written result struct |
| `KvOverThrift.KvImplTyped` | thrift/server/kv.go:17-87 | the handler returns values of its methods' return types |
| `KvOverThrift.PanicsExactly` | thrift/server/kv.go:24-87 | on arguments that were read, from whatever input, the handler panics if and only if a Get or Put has a nil request |
| `KvOverThrift.ServerProcessesFrames` | thrift/server/kv.go:17-87 | this server answers every one of a sequence of well-formed frames if and only if none is a Get or Put without its request |
| `KvOverThrift.EmptyPutPanics` | thrift/server/kv.go:47-49 | a Put frame without its request field is well formed, and the server panics on it |
| `KvOverThrift.ServesWrite` | thrift/server/kv.go:47-87 | the handler writes the requests that arrive |
| `KvOverThrift.WriteOnTheWire` | thrift/server/kv.go:47-87 | one Put or MultiPut on the wire: if the store accepts it the requests are written and a response with a header (zero, zero, the time, the fixed address) comes back, and if not the store stays and the error comes back under code 6 |
| `KvOverThrift.PingOnTheWire` | thrift/server/kv.go:17-22 | a Ping on the wire is answered with true and an empty text, and the store stays |
| `KvOverThrift.PointedArrives` | thrift/rpc/rpc.go:1935-1952 | a request arrives as it was sent, a nil one as the empty request |
| `KvOverThrift.AcceptedWritesAreSingleWrites` | thrift/server/kv.go:47-87 | any mix of Put and MultiPut calls on the wire, some refused by the store, leaves the store of single writes of the accepted calls' requests, each call written whole or not at all |
| `KvOverThrift.WireWritesAreSingleWrites` | thrift/server/kv.go:47-87 | with none refused, the store of single writes of all requests, and the input after the last call |
| `KvOverThrift.GroupingDoesNotMatter` | thrift/server/kv.go:47-87 | how requests are grouped into calls does not matter |
| `KvOverThrift.MultiPutEqualsPuts` | thrift/server/kv.go:64-87 | one MultiPut and one Put for each of its requests leave the same store |
| `KvOverThrift.GetFindsLastWrite` | thrift/server/kv.go:24-45 | after such calls a Get on the wire answers the last value written under its key, or the missing-key error when that is empty or nothing was there |
| `BinaryProtocol.IntBack` | thrift/rpc/rpc.go:783-808 | an integer in the range of its bytes is read back from two's complement, whatever follows |
| `BinaryProtocol.StrBack` | thrift/rpc/rpc.go:810-817 | a string of bytes is read back, whatever follows |
| `BinaryProtocol.SkipFollows` | thrift/rpc/rpc.go:335-339 | wherever Skip succeeds on tokens, it passes exactly their bytes |
| `BinaryCodec.ReadBytesFollow` | thrift/rpc/rpc.go:302-376 | wherever Read succeeds on tokens, it reads the same value from their bytes and leaves the bytes of the rest |
| `BinaryOrigin.ReadOrigin` | thrift/rpc/rpc.go:302-376 | conversely, whatever bytes are read start with bytes that stand for tokens which are read as the same value, whatever follows; standing for tokens is their encoding, up to other false bytes and other element types in list headers |
| `BinaryOrigin.SkipOrigin` | thrift/rpc/rpc.go:335-339 | the same for whatever bytes are skipped |
| `BinaryOrigin.IntOrigin` | thrift/rpc/rpc.go:783-808 | any bytes of an integer are the encoding of what is read from them |
| `BinaryOrigin.BytesHaveType` | thrift/rpc/rpc.go:576-640 | a value read from any bytes fits its type, is not nil, and has no nil in its lists |
| `BinaryCodec.BytesRoundTrip` | thrift/rpc/rpc.go:302-420 | the round trip on bytes, followed by any bytes at all |
| `BinaryCodec.BytesDetermineValue` | thrift/rpc/rpc.go:302-420 | bytes determine the written value up to normalisation, and where it ends |
| `BinaryCodec.BytesTolerateForeign` | thrift/rpc/rpc.go:576-680 | an inserted unknown or mistyped field goes unnoticed on bytes too |
| `BinaryProcessor.HeaderIsRead` | thrift/rpc/rpc.go:1091-1093 | the versioned message header is read back: name, kind and sequence id |
| `BinaryProcessor.DispatchFollows` | thrift/rpc/rpc.go:1091-1298 | the byte dispatcher does what the token dispatcher does |
| `BinaryProcessor.ProcessesByteFrames` | thrift/rpc/rpc.go:1091-1298 | the frame theorem on bytes, followed by any bytes, panics included |
| `BinaryProcessor.RemoteCallIsLocalCall` | thrift/rpc/rpc.go:993-1060 | a remote call, encoded, dispatched, answered and decoded on bytes, is a local call on the normalised arguments: the client reads a REPLY with the normalised return value, or an EXCEPTION with the handler's error |
| `BinaryProcessor.UnknownCallIsRefused` | thrift/rpc/rpc.go:1096-1105 | a call of an unknown method is read back as an EXCEPTION that says so |
| `BinaryLayout.GetCallLayout` | thrift/rpc/rpc.go:1029-1037 | the bytes of every Get call, written out |
| `BinaryLayout.ExceptionLayout` | thrift/rpc/rpc.go:1098-1103 | the bytes of every EXCEPTION with a text, written out |
| `BinaryLayout.MessageLayout` | thrift/rpc/rpc.go:1091-1093 | the bytes of every message: version, kind, name, sequence id, body |
| `BinaryLayout.WireCodes` | thrift/rpc/rpc.go:576-640 | the codes of types, message kinds and fields, and that no other byte stands for a type |

## Left out

- RocksDB: the store is a map whose writes succeed or fail as an oracle says; `Lookup` treats an empty value as missing, as the source does. `NALookup`, iteration, snapshots and the applied index are not modelled.
- The protobuf messages of `grpc/rpcpb`: marshalling is done by reflection that is not part of the repository.
- `thrift/client/client.go`, `conn.go` and `dial.go`: network plumbing; a dial and a liveness check are answers of the environment.
- `internal/messagequeue/thriftqueue.go`: the same queue with another element type; `EntryQueue` is generic.
- `resolver.go`, `generate.go`, `ParseTarget` and the policies other than round robin: easy members; `picker.New` panics for an unknown policy, which is not modelled.
- `Connect` calls of the balancer: they ask gRPC for a connection and change no field here; what follows arrives as state changes.
- The pool's `poolStop` branches: no code sets that status.
- `NewGRPCClient`: it never copies its configuration into the client, so the endpoints start empty, as `Backoff.GrpcClient` does; the backoff results hold for any number of endpoints.
- The read of `stopped` after unlocking on the full path of `EntryQueue.Add`: the call is one step here.
- `SendMsg` concurrent with `RecvMsg` on a retrying stream: operations come in any order, but one at a time.
- Clocks, timers, randomness and `jitterUp`: a wait is a number, a clock reading is an input, and an error is a class; the two gRPC descriptions and the etcd error table that the retry policies look at are kept as cases.
- The Apache Thrift runtime: tokens, Skip with a depth limit (one limit for map keys and values alike, unknown type codes not decoded), the layout of TApplicationException and the binary encoding follow its specification and interface; the framed transport and write errors are not modelled.
- `KvProcessor.Processor.Process`: after a failed read of the arguments the position in the input is not described, because the connection is then given up; a panic in the handler leaves no answer.
- `BinaryProcessor.DispatchFollows`: goes from tokens to bytes only; for the reader the other direction is `BinaryOrigin.ReadOrigin`.
- The pool's 32-bit count is unbounded in the model; `PoolProtocol.CountFitsInt32` says when that makes no difference.
- `ThriftPool.ThriftPool.CheckTimeout`: is proved for a call that nothing interleaves with; the interleaved case is covered by the steps of `PoolProtocol`.
