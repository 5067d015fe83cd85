/** The key-value handler behind the dispatcher: what calls on the wire do to the store. */
module KvOverThrift {
  import opened Prelude
  import opened Protocol
  import opened Codec
  import opened KvRpc
  import opened KvProcessor
  import KvServer

  type Store = KvServer.Store
  type PutRequest = KvServer.PutRequest

  // ---- the handler --------------------------------------------------------------------------

  datatype Server = Server(store: Store, calls: nat)

  /** How long the n-th call takes, and whether the store accepts its write. */
  datatype Backend = Backend(elapsed: nat -> int, writeOk: nat -> bool)

  const WRITE_ERROR := "write failed"

  function Header(time: int): Val {
    VStruct([VI64(0), VI64(0), VI64(time), VStr("0.0.0.0:xxx")])
  }

  /** A request struct on the wire; a nil one reads as the empty request. */
  function RequestOf(v: Val): PutRequest
    requires HasType(v, TStruct(PUT_REQUEST))
  {
    if v.VNil? then KvServer.PutRequest("", "")
    else
      assert HasType(v.fields[0], TString) && HasType(v.fields[1], TString);
      KvServer.PutRequest(v.fields[0].s, v.fields[1].s)
  }

  function RequestsOf(elems: seq<Val>): seq<PutRequest>
    requires HasType(VList(elems), TList(PUT_REQUEST))
  {
    if elems == [] then []
    else
      assert forall i :: 0 <= i < |elems[1..]| ==> elems[1..][i] == elems[i + 1];
      [RequestOf(elems[0])] + RequestsOf(elems[1..])
  }

  function Written(b: Backend, sv: Server, rs: seq<PutRequest>): (Server, Answer) {
    if b.writeOk(sv.calls) then
      (Server(KvServer.WriteAll(sv.store, rs), sv.calls + 1), Return(VStruct([Header(b.elapsed(sv.calls))])))
    else (sv.(calls := sv.calls + 1), HandlerError(WRITE_ERROR))
  }

  function NotFound(key: string): string {
    "key: <" + key + "> not found"
  }

  /** The handler's methods; a nil request is dereferenced. */
  function Handle(b: Backend, sv: Server, m: Method, args: Val): (Server, Answer) {
    if args.VNil? || !HasType(args, TStruct(ArgsOf(m))) then (sv, Panic)  // never read: ReadHasType
    else if m.Ping? then (sv.(calls := sv.calls + 1), Return(VStruct([VBool(true), VStr("")])))
    else
      var arg := args.fields[0];
      assert HasType(arg, ArgsOf(m).fields[0].ty);
      match m
      case Get =>
        if arg.VNil? then (sv, Panic)
        else
          assert HasType(arg.fields[0], TString);
          var key := arg.fields[0].s;
          (sv.(calls := sv.calls + 1),
           match KvServer.Lookup(sv.store, key)
           case None => HandlerError(NotFound(key))
           case Some(v) => Return(VStruct([Header(b.elapsed(sv.calls)), VList([VStruct([VStr(key), VStr(v)])])])))
      case Put => if arg.VNil? then (sv, Panic) else Written(b, sv, [RequestOf(arg)])
      case MultiPut =>
        if arg.VNil? then Written(b, sv, [])
        else if exists i :: 0 <= i < |arg.elems| && arg.elems[i].VNil? then (sv, Panic)
        else Written(b, sv, RequestsOf(arg.elems))
  }

  function KvImpl(b: Backend): Handler<Server> {
    (sv, m, args) => Handle(b, sv, m, args)
  }

  lemma HeaderHasType(time: int)
    ensures HasType(Header(time), TStruct(RESPONSE_HEADER))
  {
  }

  lemma KvImplTyped(b: Backend)
    ensures Typed(KvImpl(b))
  {
    forall sv: Server, m, args | Handle(b, sv, m, args).1.Return?
      ensures HasType(Handle(b, sv, m, args).1.v, TStruct(ReturnOf(m)))
    {
      HeaderHasType(b.elapsed(sv.calls));
      if m.Get? {
        var kvs := Handle(b, sv, m, args).1.v.fields[1];
        assert HasType(kvs.elems[0], TStruct(KEY_VALUE));
        assert HasType(kvs, TList(KEY_VALUE));
      }
    }
  }

  // ---- which calls panic --------------------------------------------------------------------

  /** The call asks to read or write under a nil request. */
  predicate NilRequest(m: Method, args: Val) {
    (m.Get? || m.Put?) && args.VStruct? && |args.fields| > 0 && args.fields[0].VNil?
  }

  /** The field of a struct that was read is of its type, and so are a list's elements, none of them nil. */
  lemma ReadArgs(depth: nat, m: Method, toks: Tokens)
    requires Read(depth, TStruct(ArgsOf(m)), toks).Ok?
    ensures var args := Read(depth, TStruct(ArgsOf(m)), toks).v;
            && HasType(args, TStruct(ArgsOf(m))) && args.VStruct? && |args.fields| == |ArgsOf(m).fields|
            && (m.MultiPut? && args.fields[0].VList? ==>
                  forall i :: 0 <= i < |args.fields[0].elems| ==> !args.fields[0].elems[i].VNil?)
  {
    ReadHasType(depth, TStruct(ArgsOf(m)), toks);
    var args := Read(depth, TStruct(ArgsOf(m)), toks).v;
    assert m.MultiPut? ==> NoNilElems(args.fields[0]);
  }

  /** On arguments that were read, whatever the input, the handler panics exactly on a nil request to Get or
      Put: a MultiPut never does. */
  lemma PanicsExactly(b: Backend, depth: nat, sv: Server, m: Method, toks: Tokens)
    requires Read(depth, TStruct(ArgsOf(m)), toks).Ok?
    ensures var args := Read(depth, TStruct(ArgsOf(m)), toks).v;
            Handle(b, sv, m, args).1.Panic? <==> NilRequest(m, args)
  {
    ReadArgs(depth, m, toks);
    hide Read;
  }

  /** The frame is a call with a nil request. */
  predicate AsksNil(f: Frame) {
    MethodOf(f.name).Some? && NilRequest(MethodOf(f.name).value, f.args)
  }

  lemma FramePanicsExactly(b: Backend, depth: nat, sv: Server, f: Frame)
    requires Complete(depth, f)
    ensures Panics(Serve(KvImpl(b), sv, f).1) <==> AsksNil(f)
  {
    if MethodOf(f.name).Some? {
      var m := MethodOf(f.name).value;
      assert Read(depth, TStruct(ArgsOf(m)), f.body + []) == Ok(f.args, []);
      PanicsExactly(b, depth, sv, m, f.body + []);
      hide Handle, NilRequest, Read, MethodOf;
    }
  }

  lemma {:induction false} ServesExactly(b: Backend, depth: nat, sv: Server, frames: seq<Frame>)
    requires forall i :: 0 <= i < |frames| ==> Complete(depth, frames[i])
    ensures EndsInPanic(ServeAll(KvImpl(b), sv, frames).1) <==> exists i :: 0 <= i < |frames| && AsksNil(frames[i])
    decreases |frames|
  {
    if frames != [] {
      var (sv', a) := Serve(KvImpl(b), sv, frames[0]);
      FramePanicsExactly(b, depth, sv, frames[0]);
      ServesExactly(b, depth, sv', frames[1..]);
      hide Serve, Complete, KvImpl, AsksNil;
      if !Panics(a) {
        AnsweredMore(a, ServeAll(KvImpl(b), sv', frames[1..]).1);
        if i :| 0 <= i < |frames| && AsksNil(frames[i]) {
          assert frames[1..][i - 1] == frames[i];
        }
      }
    }
  }

  /** This server on well-formed frames: it answers every one of them if and only if none is a call with a nil
      request, and otherwise those before the first such call. */
  lemma ServerProcessesFrames(b: Backend, depth: nat, why: string, sv: Server, frames: seq<Frame>, k: Tokens)
    requires forall i :: 0 <= i < |frames| ==> Complete(depth, frames[i])
    ensures Typed(KvImpl(b))
    ensures var (final, answers) := ServeAll(KvImpl(b), sv, frames);
            var d := DispatchAll(KvImpl(b), depth, why, sv, |frames|, AllTokens(frames) + k);
            && Processed(depth, frames, final, answers, k, d)
            && (d.rest == Some(k) <==> forall i :: 0 <= i < |frames| ==> !AsksNil(frames[i]))
  {
    KvImplTyped(b);
    ProcessesFrames(KvImpl(b), depth, why, sv, frames, k);
    ServesExactly(b, depth, sv, frames);
    hide DispatchAll, ServeAll, AllTokens, KvImpl, AsksNil, Typed, Complete;
  }

  /** A Put without its request field is a well-formed frame, and the server panics on it. */
  lemma EmptyPutPanics(b: Backend, depth: nat, sv: Server, seqId: int)
    ensures var f := Frame("Put", CALL, seqId, [StructBegin, FieldStop, StructEnd], VStruct([VNil]));
            Complete(depth, f) && Serve(KvImpl(b), sv, f).1 == Some(Panic)
  {
    var f := Frame("Put", CALL, seqId, [StructBegin, FieldStop, StructEnd], VStruct([VNil]));
    forall k ensures Read(depth, TStruct(ArgsOf(Put)), f.body + k) == Ok(f.args, k) {
      assert (f.body + k)[1..] == [FieldStop, StructEnd] + k;
      FieldsEnd(depth, ArgsOf(Put), Zeros(ArgsOf(Put)), k);
      assert Zeros(ArgsOf(Put)) == [VNil];
    }
    assert MethodOf(f.name) == Some(Put);
    FramePanicsExactly(b, depth, sv, f);
  }

  // ---- writes on the wire -------------------------------------------------------------------

  /** A client's call of Put or MultiPut; it may pass nil requests. */
  datatype WriteCall = PutCall(r: Option<PutRequest>) | MultiPutCall(rs: seq<Option<PutRequest>>)

  function Pointed(r: Option<PutRequest>): (v: Val)
    ensures HasType(v, TStruct(PUT_REQUEST))
  {
    match r
    case None => VNil
    case Some(p) =>
      var v := VStruct([VStr(p.key), VStr(p.value)]);
      assert HasType(v.fields[0], TString) && HasType(v.fields[1], TString);
      v
  }

  function PointedAll(rs: seq<Option<PutRequest>>): seq<Val> {
    seq(|rs|, i requires 0 <= i < |rs| => Pointed(rs[i]))
  }

  /** The request that arrives. */
  function Arrives(r: Option<PutRequest>): PutRequest {
    if r.None? then KvServer.PutRequest("", "") else r.value
  }

  function ArriveAll(rs: seq<Option<PutRequest>>): seq<PutRequest> {
    seq(|rs|, i requires 0 <= i < |rs| => Arrives(rs[i]))
  }

  function WriteMethod(c: WriteCall): Method {
    if c.PutCall? then Put else MultiPut
  }

  function WriteArgs(c: WriteCall): (v: Val)
    ensures HasType(v, TStruct(ArgsOf(WriteMethod(c))))
  {
    var arg := match c case PutCall(r) => Pointed(r) case MultiPutCall(rs) => VList(PointedAll(rs));
    assert HasType(arg, ArgsOf(WriteMethod(c)).fields[0].ty);
    VStruct([arg])
  }

  /** The frames of a sequence of calls, with their sequence ids. */
  function Frames(calls: seq<WriteCall>, ids: seq<int>): seq<Frame>
    requires |ids| == |calls|
  {
    seq(|calls|, i requires 0 <= i < |calls| => CallFrame(WriteMethod(calls[i]), ids[i], WriteArgs(calls[i])))
  }

  function Arrived(c: WriteCall): seq<PutRequest> {
    match c
    case PutCall(r) => [Arrives(r)]
    case MultiPutCall(rs) => ArriveAll(rs)
  }

  /** The requests of all calls, one after another. */
  function ArrivedAll(calls: seq<WriteCall>): seq<PutRequest> {
    if calls == [] then [] else Arrived(calls[0]) + ArrivedAll(calls[1..])
  }

  lemma PointedArrives(r: Option<PutRequest>)
    ensures var v := Norm(Pointed(r), TStruct(PUT_REQUEST));
            v.VStruct? && HasType(v, TStruct(PUT_REQUEST)) && RequestOf(v) == Arrives(r)
  {
    var v := Norm(Pointed(r), TStruct(PUT_REQUEST));
    NormHasType(Pointed(r), TStruct(PUT_REQUEST));
    if r.None? {
      assert v == VStruct(Zeros(PUT_REQUEST));
      assert v.fields[0] == VStr("") && v.fields[1] == VStr("");
    } else {
      PlainStructs();
      ScalarStructs(PUT_REQUEST);
      assert v == Pointed(r);
    }
  }

  lemma {:induction false} PointedArriveAll(rs: seq<Option<PutRequest>>)
    ensures var es := PointedAll(rs);
            var ns := NormElems(es, PUT_REQUEST);
            && HasType(VList(ns), TList(PUT_REQUEST)) && RequestsOf(ns) == ArriveAll(rs)
            && forall i :: 0 <= i < |ns| ==> !ns[i].VNil?
    decreases |rs|
  {
    var es := PointedAll(rs);
    var ns := NormElems(es, PUT_REQUEST);
    forall i | 0 <= i < |ns| ensures HasType(ns[i], TStruct(PUT_REQUEST)) && !ns[i].VNil? {
      PointedArrives(rs[i]);
    }
    if rs != [] {
      PointedArrives(rs[0]);
      PointedArriveAll(rs[1..]);
      var es' := PointedAll(rs[1..]);
      assert ns[1..] == NormElems(es', PUT_REQUEST);
      assert ArriveAll(rs) == [Arrives(rs[0])] + ArriveAll(rs[1..]);
    }
  }

  /** The arguments of a write as they arrive. */
  lemma ArgsArrive(c: WriteCall)
    ensures var n := Norm(WriteArgs(c), TStruct(ArgsOf(WriteMethod(c))));
            && HasType(n, TStruct(ArgsOf(WriteMethod(c)))) && n.VStruct?
            && n.fields[0] == Norm(WriteArgs(c).fields[0], ArgsOf(WriteMethod(c)).fields[0].ty)
            && HasType(n.fields[0], ArgsOf(WriteMethod(c)).fields[0].ty)
  {
    var ty := TStruct(ArgsOf(WriteMethod(c)));
    NormHasType(WriteArgs(c), ty);
    assert Norm(WriteArgs(c), ty).fields[0] == NormField(WriteArgs(c).fields[0], ty.schema.fields[0]);
  }

  lemma HandlesPut(b: Backend, sv: Server, args: Val)
    requires HasType(args, TStruct(ArgsOf(Put))) && args.VStruct? && args.fields[0].VStruct?
    requires HasType(args.fields[0], TStruct(PUT_REQUEST))
    ensures Handle(b, sv, Put, args) == Written(b, sv, [RequestOf(args.fields[0])])
  {
  }

  lemma HandlesMultiPut(b: Backend, sv: Server, args: Val)
    requires HasType(args, TStruct(ArgsOf(MultiPut))) && args.VStruct? && args.fields[0].VList?
    requires HasType(args.fields[0], TList(PUT_REQUEST))
    requires forall i :: 0 <= i < |args.fields[0].elems| ==> !args.fields[0].elems[i].VNil?
    ensures Handle(b, sv, MultiPut, args) == Written(b, sv, RequestsOf(args.fields[0].elems))
  {
  }

  /** The handler writes the requests that arrived. */
  lemma ServesWrite(b: Backend, sv: Server, c: WriteCall, id: int)
    ensures Serve(KvImpl(b), sv, CallFrame(WriteMethod(c), id, WriteArgs(c)))
         == var (sv', a) := Written(b, sv, Arrived(c)); (sv', Some(a))
  {
    var n := Norm(WriteArgs(c), TStruct(ArgsOf(WriteMethod(c))));
    ArgsArrive(c);
    match c
    case PutCall(r) =>
      PointedArrives(r);
      HandlesPut(b, sv, n);
    case MultiPutCall(rs) =>
      PointedArriveAll(rs);
      HandlesMultiPut(b, sv, n);
  }

  ghost predicate AlwaysWrites(b: Backend) {
    forall n :: b.writeOk(n)
  }

  /** The requests of the call that is written, when n calls came before it: all of them or none. */
  function Accepted(b: Backend, n: nat, c: WriteCall): seq<PutRequest> {
    if b.writeOk(n) then Arrived(c) else []
  }

  /** The requests of the calls whose write the store accepts, when n calls came before. */
  function AcceptedAll(b: Backend, n: nat, calls: seq<WriteCall>): seq<PutRequest>
    decreases |calls|
  {
    if calls == [] then []
    else Accepted(b, n, calls[0]) + AcceptedAll(b, n + 1, calls[1..])
  }

  lemma {:induction false} AllAreAccepted(b: Backend, n: nat, calls: seq<WriteCall>)
    requires AlwaysWrites(b)
    ensures AcceptedAll(b, n, calls) == ArrivedAll(calls)
    decreases |calls|
  {
    if calls != [] {
      AllAreAccepted(b, n + 1, calls[1..]);
    }
  }

  /** A refused write leaves the store alone; no write panics. */
  lemma ServesOneWrite(b: Backend, sv: Server, c: WriteCall, id: int)
    ensures var (next, a) := Serve(KvImpl(b), sv, CallFrame(WriteMethod(c), id, WriteArgs(c)));
            && next.calls == sv.calls + 1 && a.Some? && !a.value.Panic? && (a.value.Return? <==> b.writeOk(sv.calls))
            && next.store == KvServer.WriteAll(sv.store, Accepted(b, sv.calls, c))
  {
    ServesWrite(b, sv, c, id);
    hide Serve, CallFrame, WriteArgs, KvImpl, Arrived;
  }

  lemma LaterFrames(calls: seq<WriteCall>, ids: seq<int>)
    requires |ids| == |calls| > 0
    ensures Frames(calls, ids)[0] == CallFrame(WriteMethod(calls[0]), ids[0], WriteArgs(calls[0]))
    ensures Frames(calls, ids)[1..] == Frames(calls[1..], ids[1..])
  {
  }

  lemma {:induction false} ServesWrites(b: Backend, sv: Server, calls: seq<WriteCall>, ids: seq<int>)
    requires |ids| == |calls|
    ensures var (sv', answers) := ServeAll(KvImpl(b), sv, Frames(calls, ids));
            && sv'.store == KvServer.WriteAll(sv.store, AcceptedAll(b, sv.calls, calls))
            && (forall i :: 0 <= i < |answers| ==> answers[i].Some? && !answers[i].value.Panic?)
    decreases |calls|
  {
    hide Written, Accepted, Arrived, Serve, CallFrame, WriteArgs, KvImpl;
    if calls != [] {
      hide KvServer.WriteAll;
      var (next, a) := Serve(KvImpl(b), sv, CallFrame(WriteMethod(calls[0]), ids[0], WriteArgs(calls[0])));
      ServesOneWrite(b, sv, calls[0], ids[0]);
      LaterFrames(calls, ids);
      hide Frames;
      ServesWrites(b, next, calls[1..], ids[1..]);
      KvServer.WriteAllAppend(sv.store, Accepted(b, sv.calls, calls[0]), AcceptedAll(b, sv.calls + 1, calls[1..]));
    }
  }

  /** Any mix of Put and MultiPut calls on the wire leaves the store that writing the requests of the accepted calls
      one by one would leave; the requests of a call are written all or not at all. */
  lemma AcceptedWritesAreSingleWrites(b: Backend, depth: nat, why: string, sv: Server, calls: seq<WriteCall>,
                                      ids: seq<int>, k: Tokens)
    requires |ids| == |calls|
    ensures Typed(KvImpl(b))
    ensures var d := DispatchAll(KvImpl(b), depth, why, sv, |calls|, AllTokens(Frames(calls, ids)) + k);
            && d.s.store == KvServer.WriteAll(sv.store, AcceptedAll(b, sv.calls, calls))
            && d.rest == Some(k)
  {
    KvImplTyped(b);
    ServesWrites(b, sv, calls, ids);
    var fs := Frames(calls, ids);
    forall i | 0 <= i < |fs| ensures Complete(depth, fs[i]) {
      CallIsComplete(depth, WriteMethod(calls[i]), ids[i], WriteArgs(calls[i]));
    }
    ProcessesFrames(KvImpl(b), depth, why, sv, fs, k);
  }

  /** With every store write succeeding, the requests of all calls are written. */
  lemma WireWritesAreSingleWrites(b: Backend, depth: nat, why: string, sv: Server, calls: seq<WriteCall>,
                                  ids: seq<int>, k: Tokens)
    requires AlwaysWrites(b) && |ids| == |calls|
    ensures Typed(KvImpl(b))
    ensures var d := DispatchAll(KvImpl(b), depth, why, sv, |calls|, AllTokens(Frames(calls, ids)) + k);
            && d.s.store == KvServer.WriteAll(sv.store, ArrivedAll(calls))
            && d.rest == Some(k)
  {
    AcceptedWritesAreSingleWrites(b, depth, why, sv, calls, ids, k);
    AllAreAccepted(b, sv.calls, calls);
    hide DispatchAll, Frames, AllTokens, KvImpl, KvServer.WriteAll;
  }

  /** The header of every answer, with the time it took. */
  ghost predicate HasHeader(v: Val, time: int) {
    v == VStruct([VI64(0), VI64(0), VI64(time), VStr("0.0.0.0:xxx")])
  }

  /** The answer to a write: a response with a header, or the store's error as an internal one. */
  ghost predicate WriteAnswered(depth: nat, name: string, id: int, accepted: bool, msg: Tokens) {
    if accepted then
      exists header, time :: HasHeader(header, time)
                             && Carries(depth, msg, name, REPLY, id, ResultOf(Put), VStruct([VStruct([header])]))
    else
      Carries(depth, msg, name, EXCEPTION, id, APP_EXCEPTION,
              VStruct([VStr("Internal error processing " + name + ": " + WRITE_ERROR), VI32(6)]))
  }

  /** One Put or MultiPut on the wire: the requests are written and a response with a header comes back, or, if the
      store refuses them, it stays as it was and an internal error comes back. */
  lemma WriteOnTheWire(b: Backend, depth: nat, why: string, sv: Server, c: WriteCall, id: int, k: Tokens)
    ensures Typed(KvImpl(b))
    ensures var name := if c.PutCall? then "Put" else "MultiPut";
            var call := FrameTokens(CallFrame(WriteMethod(c), id, WriteArgs(c)));
            var d := Dispatch(KvImpl(b), depth, why, sv, call + k);
            && d.rest == Some(k) && WriteAnswered(depth, name, id, b.writeOk(sv.calls), d.out)
            && d.s.store == if b.writeOk(sv.calls) then KvServer.WriteAll(sv.store, Arrived(c)) else sv.store
  {
    KvImplTyped(b);
    var m, f := WriteMethod(c), CallFrame(WriteMethod(c), id, WriteArgs(c));
    CallIsComplete(depth, m, id, WriteArgs(c));
    ServesWrite(b, sv, c, id);
    ProcessesFrame(KvImpl(b), depth, why, sv, f, k);
    hide Dispatch, Complete, Carries, KvImpl, Typed, WriteArgs, Arrived, KvServer.WriteAll;
    if b.writeOk(sv.calls) {
      var time := b.elapsed(sv.calls);
      PutResponseSettles(time);
      assert HasHeader(Header(time), time);
      assert ResultVal(m, VStruct([Header(time)])) == VStruct([VStruct([Header(time)])]);
    }
  }

  lemma PutResponseSettles(time: int)
    ensures var r := VStruct([Header(time)]);
            HasType(r, TStruct(PUT_RESPONSE)) && Norm(r, TStruct(PUT_RESPONSE)) == r
  {
    var r := VStruct([Header(time)]);
    HeaderHasType(time);
    PlainStructs();
    ScalarStructs(RESPONSE_HEADER);
    assert NormField(r.fields[0], PUT_RESPONSE.fields[0]) == r.fields[0];
    assert NormFields(r.fields, PUT_RESPONSE) == r.fields;
  }

  /** One Ping on the wire is answered that the server is well, without an error text; the store stays. */
  lemma PingOnTheWire(b: Backend, depth: nat, why: string, sv: Server, id: int, k: Tokens)
    ensures Typed(KvImpl(b))
    ensures HasType(VStruct([]), TStruct(ArgsOf(Ping)))
    ensures var d := Dispatch(KvImpl(b), depth, why, sv, FrameTokens(CallFrame(Ping, id, VStruct([]))) + k);
            && d.rest == Some(k) && d.s.store == sv.store
            && Carries(depth, d.out, "Ping", REPLY, id, ResultOf(Ping), VStruct([VStruct([VBool(true), VStr("")])]))
  {
    KvImplTyped(b);
    var f := CallFrame(Ping, id, VStruct([]));
    CallIsComplete(depth, Ping, id, VStruct([]));
    ProcessesFrame(KvImpl(b), depth, why, sv, f, k);
    assert Norm(VStruct([]), TStruct(ArgsOf(Ping))) == VStruct([]);
    var v := VStruct([VBool(true), VStr("")]);
    PlainStructs();
    ScalarStructs(HEALTH);
    assert Serve(KvImpl(b), sv, f).1 == Some(Return(v));
    hide Dispatch, Complete, Carries, KvImpl, Typed;
    assert ResultVal(Ping, v) == VStruct([v]);
  }

  /** How requests are grouped into calls does not matter. */
  lemma GroupingDoesNotMatter(b: Backend, depth: nat, why: string, sv: Server,
                              calls: seq<WriteCall>, ids: seq<int>, calls': seq<WriteCall>, ids': seq<int>, k: Tokens)
    requires AlwaysWrites(b) && |ids| == |calls| && |ids'| == |calls'|
    requires ArrivedAll(calls) == ArrivedAll(calls')
    ensures Typed(KvImpl(b))
    ensures DispatchAll(KvImpl(b), depth, why, sv, |calls|, AllTokens(Frames(calls, ids)) + k).s.store
            == DispatchAll(KvImpl(b), depth, why, sv, |calls'|, AllTokens(Frames(calls', ids')) + k).s.store
  {
    hide DispatchAll, Frames, AllTokens, KvImpl, KvServer.WriteAll, ArrivedAll;
    WireWritesAreSingleWrites(b, depth, why, sv, calls, ids, k);
    WireWritesAreSingleWrites(b, depth, why, sv, calls', ids', k);
  }

  function Puts(rs: seq<Option<PutRequest>>): seq<WriteCall> {
    seq(|rs|, i requires 0 <= i < |rs| => PutCall(rs[i]))
  }

  lemma OneCallArrives(c: WriteCall)
    ensures ArrivedAll([c]) == Arrived(c)
  {
    assert ArrivedAll([c]) == Arrived(c) + ArrivedAll([]);
  }

  lemma {:induction false} PutsArrive(rs: seq<Option<PutRequest>>)
    ensures ArrivedAll(Puts(rs)) == ArriveAll(rs)
    decreases |rs|
  {
    if rs != [] {
      PutsArrive(rs[1..]);
      assert Puts(rs)[1..] == Puts(rs[1..]);
      assert Arrived(Puts(rs)[0]) == [Arrives(rs[0])];
      assert ArriveAll(rs) == [Arrives(rs[0])] + ArriveAll(rs[1..]);
      hide Puts, ArriveAll, Arrived;
    }
  }

  /** One MultiPut on the wire and one Put on the wire for each of its requests leave the same store. */
  lemma MultiPutEqualsPuts(b: Backend, depth: nat, why: string, sv: Server, rs: seq<Option<PutRequest>>, id: int,
                           ids: seq<int>, k: Tokens)
    requires AlwaysWrites(b) && |ids| == |rs|
    ensures Typed(KvImpl(b))
    ensures DispatchAll(KvImpl(b), depth, why, sv, 1, AllTokens(Frames([MultiPutCall(rs)], [id])) + k).s.store
            == DispatchAll(KvImpl(b), depth, why, sv, |rs|, AllTokens(Frames(Puts(rs), ids)) + k).s.store
  {
    OneCallArrives(MultiPutCall(rs));
    PutsArrive(rs);
    GroupingDoesNotMatter(b, depth, why, sv, [MultiPutCall(rs)], [id], Puts(rs), ids, k);
  }

  // ---- a read after writes ------------------------------------------------------------------

  function GetArgs(key: string, serializable: bool): (v: Val)
    ensures HasType(v, TStruct(ArgsOf(Get)))
  {
    var req := VStruct([VStr(key), VBool(serializable)]);
    assert HasType(req.fields[0], TString) && HasType(req.fields[1], TBool);
    assert HasType(req, TStruct(GET_REQUEST));
    VStruct([req])
  }

  /** The answer to a Get: the value under the key with a header, or the missing-key error. */
  ghost predicate GetAnswered(depth: nat, key: string, id: int, found: Option<string>, msg: Tokens) {
    match found
    case None =>
      Carries(depth, msg, "Get", EXCEPTION, id, APP_EXCEPTION,
              ExceptionVal(INTERNAL_ERROR, Internal(Get, NotFound(key))))
    case Some(v) =>
      exists time :: Carries(depth, msg, "Get", REPLY, id, ResultOf(Get), VStruct([Response(time, key, v)]))
  }

  /** After any Put and MultiPut calls, a Get on the wire finds the last value written under its key, if it
      is not empty, and what the store held before if nothing was written. */
  lemma GetFindsLastWrite(b: Backend, depth: nat, why: string, sv: Server, calls: seq<WriteCall>, ids: seq<int>,
                          key: string, serializable: bool, id: int, k: Tokens)
    requires AlwaysWrites(b) && |ids| == |calls|
    ensures Typed(KvImpl(b))
    ensures var get := FrameTokens(CallFrame(Get, id, GetArgs(key, serializable)));
            var d := DispatchAll(KvImpl(b), depth, why, sv, |calls|, AllTokens(Frames(calls, ids)) + (get + k));
            && d.rest == Some(get + k)
            && var g := Dispatch(KvImpl(b), depth, why, d.s, d.rest.value);
            && g.rest == Some(k) && g.s.store == d.s.store
            && GetAnswered(depth, key, id,
                           match KvServer.LastFor(ArrivedAll(calls), key)
                           case Some(v) => if v == [] then None else Some(v)
                           case None => KvServer.Lookup(sv.store, key),
                           g.out)
  {
    var f := CallFrame(Get, id, GetArgs(key, serializable));
    WireWritesAreSingleWrites(b, depth, why, sv, calls, ids, FrameTokens(f) + k);
    var d := DispatchAll(KvImpl(b), depth, why, sv, |calls|, AllTokens(Frames(calls, ids)) + (FrameTokens(f) + k));
    KvServer.LastWriteWins(sv.store, ArrivedAll(calls), key);
    GetAnswers(b, depth, why, d.s, key, serializable, id, k);
  }

  /** One Get on the wire. */
  lemma GetAnswers(b: Backend, depth: nat, why: string, sv: Server, key: string, serializable: bool, id: int, k: Tokens)
    ensures Typed(KvImpl(b))
    ensures var call := FrameTokens(CallFrame(Get, id, GetArgs(key, serializable)));
            var g := Dispatch(KvImpl(b), depth, why, sv, call + k);
            && g.rest == Some(k) && g.s.store == sv.store
            && GetAnswered(depth, key, id, KvServer.Lookup(sv.store, key), g.out)
  {
    KvImplTyped(b);
    var f := CallFrame(Get, id, GetArgs(key, serializable));
    CallIsComplete(depth, Get, id, GetArgs(key, serializable));
    ServesGet(b, sv, key, serializable, id);
    ProcessesFrame(KvImpl(b), depth, why, sv, f, k);
    var time := b.elapsed(sv.calls);
    if KvServer.Lookup(sv.store, key).Some? {
      var v := KvServer.Lookup(sv.store, key).value;
      ResponseSettles(time, key, v);
      assert ResultVal(Get, Response(time, key, v)) == VStruct([Response(time, key, v)]);
    }
  }

  lemma ServesGet(b: Backend, sv: Server, key: string, serializable: bool, id: int)
    ensures Serve(KvImpl(b), sv, CallFrame(Get, id, GetArgs(key, serializable)))
         == (sv.(calls := sv.calls + 1),
             Some(match KvServer.Lookup(sv.store, key)
                  case None => HandlerError(NotFound(key))
                  case Some(v) => Return(Response(b.elapsed(sv.calls), key, v))))
  {
    var args := GetArgs(key, serializable);
    var n := Norm(args, TStruct(ArgsOf(Get)));
    NormHasType(args, TStruct(ArgsOf(Get)));
    PlainStructs();
    ScalarStructs(GET_REQUEST);
    assert n == VStruct(NormFields(args.fields, ArgsOf(Get)));
    assert NormField(args.fields[0], ArgsOf(Get).fields[0]) == args.fields[0];
  }

  function Response(time: int, key: string, value: string): Val {
    VStruct([Header(time), VList([VStruct([VStr(key), VStr(value)])])])
  }

  lemma ResponseSettles(time: int, key: string, value: string)
    ensures HasType(Response(time, key, value), TStruct(GET_RESPONSE))
    ensures Norm(Response(time, key, value), TStruct(GET_RESPONSE)) == Response(time, key, value)
  {
    var r := Response(time, key, value);
    HeaderHasType(time);
    var kv := r.fields[1].elems[0];
    assert HasType(kv, TStruct(KEY_VALUE));
    assert HasType(r.fields[1], TList(KEY_VALUE));
    PlainStructs();
    ScalarStructs(KEY_VALUE);
    ScalarStructs(RESPONSE_HEADER);
    assert NormElems(r.fields[1].elems, KEY_VALUE) == r.fields[1].elems;
    assert NormField(r.fields[0], GET_RESPONSE.fields[0]) == r.fields[0];
    assert NormField(r.fields[1], GET_RESPONSE.fields[1]) == r.fields[1];
    assert NormFields(r.fields, GET_RESPONSE) == r.fields;
  }
}
