/** The dispatcher over bytes, and whole remote calls. */
module BinaryProcessor {
  import opened Prelude
  import opened Protocol
  import opened Codec
  import opened KvRpc
  import opened KvProcessor
  import opened BinaryProtocol
  import opened BinaryCodec

  /** A message's name, the code of its kind, and its sequence id. */
  datatype Header = Header(name: string, kind: int, seqId: int)

  /** ReadMessageBegin. A message in the old form starts with its name's length, which is not negative, instead
      of the version. */
  function TakeHeader(bs: Bytes): (r: Option<(Header, Bytes)>)
    ensures r.Some? ==> |r.value.1| < |bs|
  {
    var first := TakeInt(4, bs);
    if first.None? then None
    else
      var (size, rest) := first.value;
      if size < 0 then
        if (size + Pow(4)) / 0x1_0000 != VERSION_1 / 0x1_0000 || TakeStr(rest).None? then None
        else
          var (name, rest1) := TakeStr(rest).value;
          var id := TakeInt(4, rest1);
          if id.None? then None else Some((Header(name, (size + Pow(4)) % 0x100, id.value.0), id.value.1))
      else if |rest| < size + 1 then None
      else
        var id := TakeInt(4, rest[size + 1..]);
        if id.None? then None else Some((Header(BytesStr(rest[..size]), rest[size], id.value.0), id.value.1))
  }

  datatype DoneBytes<S> = DoneBytes(s: S, success: bool, err: Option<Failure>, out: Bytes, rest: Option<Bytes>)

  /** The kind of a message is not looked at. */
  function DispatchBytes<S(!new)>(h: Handler<S>, depth: nat, why: string, s: S, bs: Bytes): DoneBytes<S>
    requires Typed(h)
  {
    var header := TakeHeader(bs);
    if header.None? then DoneBytes(s, false, Some(NoMessage), [], None)
    else
      var (Header(name, _, seqId), rest) := header.value;
      match MethodOf(name)
      case Some(m) => DispatchCallBytes(h, depth, why, s, m, seqId, rest)
      case None =>
        DoneBytes(s, false, Some(UnknownMethod), EncAll(Exception(name, seqId, UNKNOWN_METHOD, Unknown(name))),
                  SkipBytes(STRUCT, rest, depth))
  }

  function DispatchCallBytes<S(!new)>(h: Handler<S>, depth: nat, why: string, s: S, m: Method, seqId: int,
                                      bs: Bytes): DoneBytes<S>
    requires Typed(h)
  {
    match ReadBytes(depth, TStruct(ArgsOf(m)), bs)
    case Failed => DoneBytes(s, false, Some(BadArgs), EncAll(Exception(Name(m), seqId, PROTOCOL_ERROR, why)), None)
    case Got(args, rest) =>
      var (s', a) := h(s, m, args);
      match a
      case Return(v) => DoneBytes(s', true, None, EncAll(Reply(m, seqId, v)), Some(rest))
      case HandlerError(text) =>
        DoneBytes(s', true, Some(HandlerFailed(text)),
                  EncAll(Exception(Name(m), seqId, INTERNAL_ERROR, Internal(m, text))), Some(rest))
      case Panic => DoneBytes(s', false, Some(Panicked), [], None)
  }

  function DispatchAllBytes<S(!new)>(h: Handler<S>, depth: nat, why: string, s: S, n: nat, bs: Bytes): DoneBytes<S>
    requires Typed(h)
    decreases n
  {
    if n == 0 then DoneBytes(s, true, None, [], Some(bs))
    else
      var d := DispatchBytes(h, depth, why, s, bs);
      if d.rest.None? then d
      else
        var e := DispatchAllBytes(h, depth, why, d.s, n - 1, d.rest.value);
        e.(out := d.out + e.out)
  }

  // ---- the bytes follow the tokens ----------------------------------------------------------

  /** The versioned header is read back, whatever follows. */
  lemma HeaderIsRead(t: Token, k: Bytes)
    requires t.MessageBegin? && Fits(t)
    ensures TakeHeader(Enc(t) + k) == Some((Header(t.name, KindCode(t.kind), t.seqId), k))
  {
    var version, name, id :=
      Int(4, VERSION_1 + KindCode(t.kind)), Int(4, |t.name|) + StrBytes(t.name), Int(4, t.seqId);
    assert Pow(4) == 0x1_0000_0000 && Half(4) == 0x8000_0000;
    UnsignedBack(4, VERSION_1 + KindCode(t.kind));
    StrBack(t.name, id + k);
    IntBack(4, t.seqId, k);
    var bs := Enc(t) + k;
    assert Unsigned(version) == VERSION_1 + KindCode(t.kind);
    hide Int, StrBytes, Unsigned, TakeStr, Fits;
    assert bs == version + (name + (id + k)) by {
      Assoc(version + Int(4, |t.name|), StrBytes(t.name), id);
      Assoc(version, Int(4, |t.name|), StrBytes(t.name) + id);
      Assoc(Int(4, |t.name|), StrBytes(t.name), id);
      Assoc(version, name + id, k);
      Assoc(name, id, k);
    }
    assert bs[..4] == version && bs[4..] == name + (id + k);
  }

  /** The tokens' outcome is known: a position, or a panic. */
  predicate OutcomeKnown<S>(d: Done<S>) {
    d.rest.Some? || d.err == Some(Panicked)
  }

  ghost predicate DoneFollows<S>(d: Done<S>, b: DoneBytes<S>) {
    OutcomeKnown(d) ==>
      && (d.rest.Some? ==> AllFit(d.rest.value))
      && b == DoneBytes(d.s, d.success, d.err, EncAll(d.out),
                        if d.rest.Some? then Some(EncAll(d.rest.value)) else None)
  }

  lemma PastEndFollows(toks: Tokens)
    requires AllFit(toks)
    ensures AllFit(PastEnd(toks)) && EncAll(PastEnd(toks)) == EncAll(toks)
  {
    if toks != [] && toks[0] == MessageEnd {
      EncStep(toks);
      assert EncAll(toks) == EncAll(toks[1..]);
    }
  }

  lemma CallFollows<S(!new)>(h: Handler<S>, depth: nat, why: string, s: S, m: Method, seqId: int, toks: Tokens)
    requires Typed(h) && AllFit(toks)
    ensures DoneFollows(DispatchCall(h, depth, why, s, m, seqId, toks),
                        DispatchCallBytes(h, depth, why, s, m, seqId, EncAll(toks)))
  {
    ReadBytesFollow(depth, TStruct(ArgsOf(m)), toks);
    var r := Read(depth, TStruct(ArgsOf(m)), toks);
    if r.Ok? {
      PastEndFollows(r.rest);
    }
  }

  /** One message: wherever the token dispatcher knows its position afterwards, or the handler panics, the byte
      dispatcher does the same to the handler, returns the same, and writes the same message. */
  lemma DispatchFollows<S(!new)>(h: Handler<S>, depth: nat, why: string, s: S, toks: Tokens)
    requires Typed(h) && AllFit(toks)
    ensures DoneFollows(Dispatch(h, depth, why, s, toks), DispatchBytes(h, depth, why, s, EncAll(toks)))
  {
    if toks != [] && toks[0].MessageBegin? {
      var name, seqId, rest := toks[0].name, toks[0].seqId, toks[1..];
      EncStep(toks);
      HeaderIsRead(toks[0], EncAll(rest));
      if MethodOf(name).Some? {
        CallFollows(h, depth, why, s, MethodOf(name).value, seqId, rest);
      } else {
        SkipFollows(STRUCT, rest, depth);
        var r := Skip(STRUCT, rest, depth);
        if r.Some? {
          PastEndFollows(r.value);
        }
      }
    }
  }

  lemma DispatchStep<S(!new)>(h: Handler<S>, depth: nat, why: string, s: S, n: nat, toks: Tokens)
    requires Typed(h) && n > 0
    ensures var d := Dispatch(h, depth, why, s, toks);
            DispatchAll(h, depth, why, s, n, toks)
            == if d.rest.None? then d
               else var e := DispatchAll(h, depth, why, d.s, n - 1, d.rest.value); e.(out := d.out + e.out)
  {
  }

  lemma DispatchBytesStep<S(!new)>(h: Handler<S>, depth: nat, why: string, s: S, n: nat, bs: Bytes)
    requires Typed(h) && n > 0
    ensures var d := DispatchBytes(h, depth, why, s, bs);
            DispatchAllBytes(h, depth, why, s, n, bs)
            == if d.rest.None? then d
               else var e := DispatchAllBytes(h, depth, why, d.s, n - 1, d.rest.value); e.(out := d.out + e.out)
  {
  }

  lemma ThenFollows<S>(d: Done<S>, d': DoneBytes<S>, e: Done<S>, e': DoneBytes<S>)
    requires d.rest.Some? && DoneFollows(d, d') && DoneFollows(e, e')
    ensures DoneFollows(e.(out := d.out + e.out), e'.(out := d'.out + e'.out))
  {
    EncConcat(d.out, e.out);
  }

  lemma NoDispatchFollows<S(!new)>(h: Handler<S>, depth: nat, why: string, s: S, toks: Tokens)
    requires Typed(h) && AllFit(toks)
    ensures DoneFollows(DispatchAll(h, depth, why, s, 0, toks), DispatchAllBytes(h, depth, why, s, 0, EncAll(toks)))
  {
    assert EncAll([]) == [];
  }

  lemma DispatchAllStepFollows<S(!new)>(h: Handler<S>, depth: nat, why: string, s: S, n: nat, toks: Tokens)
    requires Typed(h) && AllFit(toks) && n > 0
    requires var d := Dispatch(h, depth, why, s, toks);
             && d.rest.Some? && AllFit(d.rest.value)
             && DoneFollows(DispatchAll(h, depth, why, d.s, n - 1, d.rest.value),
                            DispatchAllBytes(h, depth, why, d.s, n - 1, EncAll(d.rest.value)))
    ensures DoneFollows(DispatchAll(h, depth, why, s, n, toks), DispatchAllBytes(h, depth, why, s, n, EncAll(toks)))
  {
    hide Typed;
    DispatchStep(h, depth, why, s, n, toks);
    DispatchBytesStep(h, depth, why, s, n, EncAll(toks));
    DispatchFollows(h, depth, why, s, toks);
    hide Dispatch, DispatchBytes, DispatchAll, DispatchAllBytes, EncAll;
    var d, d' := Dispatch(h, depth, why, s, toks), DispatchBytes(h, depth, why, s, EncAll(toks));
    ThenFollows(d, d', DispatchAll(h, depth, why, d.s, n - 1, d.rest.value),
                DispatchAllBytes(h, depth, why, d.s, n - 1, d'.rest.value));
  }

  lemma {:induction false} DispatchAllFollows<S(!new)>(h: Handler<S>, depth: nat, why: string, s: S, n: nat,
                                                       toks: Tokens)
    requires Typed(h) && AllFit(toks)
    ensures DoneFollows(DispatchAll(h, depth, why, s, n, toks), DispatchAllBytes(h, depth, why, s, n, EncAll(toks)))
    decreases n
  {
    hide Dispatch, DispatchBytes, DispatchAll, DispatchAllBytes, EncAll, Typed, AllFit;
    if n == 0 {
      NoDispatchFollows(h, depth, why, s, toks);
    } else {
      var d := Dispatch(h, depth, why, s, toks);
      DispatchFollows(h, depth, why, s, toks);
      DispatchStep(h, depth, why, s, n, toks);
      DispatchBytesStep(h, depth, why, s, n, EncAll(toks));
      if d.rest.Some? {
        DispatchAllFollows(h, depth, why, d.s, n - 1, d.rest.value);
        DispatchAllStepFollows(h, depth, why, s, n, toks);
      }
    }
  }

  // ---- frames of bytes ----------------------------------------------------------------------

  lemma {:induction false} FramesFit(frames: seq<Frame>)
    requires forall i :: 0 <= i < |frames| ==> AllFit(FrameTokens(frames[i]))
    ensures AllFit(AllTokens(frames))
    decreases |frames|
  {
    if frames != [] {
      FramesFit(frames[1..]);
      FitConcat(FrameTokens(frames[0]), AllTokens(frames[1..]));
    }
  }

  /** The bytes of well-formed frames, followed by any bytes at all: what is written is the bytes of one message
      per frame, in order, each answering its frame, and exactly the frames are consumed; a handler that panics
      ends this at its frame. */
  lemma ProcessesByteFrames<S(!new)>(h: Handler<S>, depth: nat, why: string, s: S, frames: seq<Frame>, k: Bytes)
    requires Typed(h) && forall i :: 0 <= i < |frames| ==> KvProcessor.Complete(depth, frames[i])
    requires forall i :: 0 <= i < |frames| ==> AllFit(FrameTokens(frames[i]))
    ensures var (final, answers) := ServeAll(h, s, frames);
            var d := DispatchAllBytes(h, depth, why, s, |frames|, EncAll(AllTokens(frames)) + k);
            && d.s == final
            && (if EndsInPanic(answers) then d.rest == None && d.err == Some(Panicked)
                else d.rest == Some(k) && |answers| == |frames|)
            && exists msgs :: |msgs| == Answered(answers) && d.out == EncAll(Flatten(msgs))
                              && AnswersAll(depth, frames, answers, msgs)
  {
    var ks := BytesAreTokens(k);
    FramesFit(frames);
    FitConcat(AllTokens(frames), ks);
    EncConcat(AllTokens(frames), ks);
    ProcessesFrames(h, depth, why, s, frames, ks);
    DispatchAllFollows(h, depth, why, s, |frames|, AllTokens(frames) + ks);
    hide DispatchAll, DispatchAllBytes, ServeAll, AllTokens, AnswersAll, Flatten, EncAll, Typed;
  }

  // ---- a remote call ------------------------------------------------------------------------

  lemma RpcIdsFit(m: Method)
    ensures IdsFit(TStruct(ArgsOf(m))) && IdsFit(TStruct(ResultOf(m)))
  {
    assert InRange(2, 0) && InRange(2, 1) && InRange(2, 2) && InRange(2, 3) && InRange(2, 4) by {
      assert Half(2) == 0x8000;
    }
    hide InRange;
    assert IdsFit(TStruct(HEALTH)) && IdsFit(TStruct(RESPONSE_HEADER));
    assert IdsFit(TStruct(KEY_VALUE)) && IdsFit(TStruct(PUT_REQUEST)) && IdsFit(TStruct(GET_REQUEST));
    assert IdsFit(TList(KEY_VALUE)) && IdsFit(TList(PUT_REQUEST));
    assert IdsFit(TStruct(PUT_RESPONSE)) && IdsFit(TStruct(GET_RESPONSE));
  }

  /** The bytes of a client's call. */
  function CallBytes(m: Method, seqId: int, args: Val): Bytes
    requires HasType(args, TStruct(ArgsOf(m)))
  {
    EncAll(FrameTokens(CallFrame(m, seqId, args)))
  }

  /** A string of bytes with a 31-bit length. */
  predicate TextFits(s: string) {
    IsBytes(s) && InRange(4, |s|)
  }

  lemma NamesFit(m: Method)
    ensures TextFits(Name(m)) && InRange(4, UNKNOWN_METHOD) && InRange(4, INTERNAL_ERROR)
  {
    assert Half(4) == 0x8000_0000;
  }

  lemma MessageFits(name: string, kind: MessageKind, seqId: int, body: Tokens)
    requires AllFit(body) && InRange(4, seqId) && TextFits(name)
    ensures AllFit(Message(name, kind, seqId, body))
    ensures EncAll(Message(name, kind, seqId, body)) == Enc(MessageBegin(name, kind, seqId)) + EncAll(body)
    ensures Fits(MessageBegin(name, kind, seqId))
  {
    var begin := MessageBegin(name, kind, seqId);
    assert Fits(begin);
    hide InRange, Enc;
    FitConcat([begin], body);
    FitConcat([begin] + body, [MessageEnd]);
    EncConcat([begin] + body, [MessageEnd]);
    EncConcat([begin], body);
    EncOne(begin);
    EncOne(MessageEnd);
  }

  lemma EncOne(t: Token)
    ensures EncAll([t]) == Enc(t)
  {
    assert EncAll([t]) == Enc(t) + EncAll([]);
  }

  /** The client finds in these bytes exactly one message of this kind, with the call's name and sequence id and
      this struct. */
  ghost predicate ClientReads(depth: nat, bs: Bytes, name: string, kind: MessageKind, seqId: int, s: Schema, v: Val) {
    var reply := TakeHeader(bs);
    && reply.Some? && reply.value.0 == Header(name, KindCode(kind), seqId)
    && ReadBytes(depth, TStruct(s), reply.value.1) == Got(v, [])
  }

  /** A remote call is a local call on the normalised arguments: the server takes exactly the call's bytes, and
      the client reads back a REPLY with exactly the normalised return value, or an EXCEPTION with the handler's
      error. */
  lemma RemoteCallIsLocalCall<S(!new)>(h: Handler<S>, depth: nat, why: string, s: S, m: Method, seqId: int, args: Val,
                                       k: Bytes)
    requires Typed(h) && HasType(args, TStruct(ArgsOf(m))) && ValFits(args) && InRange(4, seqId)
    requires match h(s, m, Norm(args, TStruct(ArgsOf(m)))).1
             case Return(v) => ValFits(v)
             case HandlerError(text) => TextFits(Internal(m, text))
             case Panic => true
    ensures var (s', a) := h(s, m, Norm(args, TStruct(ArgsOf(m))));
            var d := DispatchBytes(h, depth, why, s, CallBytes(m, seqId, args) + k);
            && d.s == s'
            && match a
               case Return(v) =>
                 && d.rest == Some(k)
                 && ClientReads(depth, d.out, Name(m), REPLY, seqId, ResultOf(m), ResultVal(m, v))
               case HandlerError(text) =>
                 && d.rest == Some(k)
                 && ClientReads(depth, d.out, Name(m), EXCEPTION, seqId, APP_EXCEPTION,
                                ExceptionVal(INTERNAL_ERROR, Internal(m, text)))
               case Panic => d.rest == None && d.out == []
  {
    RpcIdsFit(m);
    NamesFit(m);
    WriteFits(args, TStruct(ArgsOf(m)));
    MessageFits(Name(m), CALL, seqId, CallFrame(m, seqId, args).body);
    ServerTakesCall(h, depth, why, s, m, seqId, args, k);
    hide DispatchBytes, TakeHeader;
    match h(s, m, Norm(args, TStruct(ArgsOf(m)))).1
    case Return(v) => ClientReadsReply(depth, m, seqId, v);
    case HandlerError(text) => ClientReadsException(depth, Name(m), seqId, INTERNAL_ERROR, Internal(m, text));
    case Panic =>
  }

  /** A call of a method that the server does not know comes back as an EXCEPTION that says so. */
  lemma UnknownCallIsRefused<S(!new)>(h: Handler<S>, depth: nat, why: string, s: S, f: Frame, k: Bytes)
    requires Typed(h) && MethodOf(f.name).None? && KvProcessor.Complete(depth, f) && AllFit(FrameTokens(f))
    requires TextFits(f.name) && TextFits(Unknown(f.name)) && InRange(4, f.seqId)
    ensures var d := DispatchBytes(h, depth, why, s, EncAll(FrameTokens(f)) + k);
            && d.s == s && d.rest == Some(k)
            && ClientReads(depth, d.out, f.name, EXCEPTION, f.seqId, APP_EXCEPTION,
                           ExceptionVal(UNKNOWN_METHOD, Unknown(f.name)))
  {
    var ks := BytesAreTokens(k);
    FitConcat(FrameTokens(f), ks);
    EncConcat(FrameTokens(f), ks);
    RefusedTokens(h, depth, why, s, f, ks);
    DispatchFollows(h, depth, why, s, FrameTokens(f) + ks);
    hide DispatchBytes, Dispatch, TakeHeader;
    NamesFit(Ping);
    ClientReadsException(depth, f.name, f.seqId, UNKNOWN_METHOD, Unknown(f.name));
  }

  lemma RefusedTokens<S(!new)>(h: Handler<S>, depth: nat, why: string, s: S, f: Frame, k: Tokens)
    requires Typed(h) && MethodOf(f.name).None? && KvProcessor.Complete(depth, f)
    ensures Dispatch(h, depth, why, s, FrameTokens(f) + k)
            == Done(s, false, Some(UnknownMethod), Exception(f.name, f.seqId, UNKNOWN_METHOD, Unknown(f.name)), Some(k))
  {
    AfterName(f, k);
    hide MethodOf, Exception, Unknown;
  }

  /** What the server makes of the call's tokens. */
  function Outcome<S>(m: Method, seqId: int, s: S, a: Answer, rest: Tokens): Done<S>
    requires a.Return? ==> HasType(a.v, TStruct(ReturnOf(m)))
  {
    match a
    case Return(v) => Done(s, true, None, Reply(m, seqId, v), Some(rest))
    case HandlerError(text) =>
      Done(s, true, Some(HandlerFailed(text)), Exception(Name(m), seqId, INTERNAL_ERROR, Internal(m, text)), Some(rest))
    case Panic => Done(s, false, Some(Panicked), [], None)
  }

  lemma TokensTakeCall<S(!new)>(h: Handler<S>, depth: nat, why: string, s: S, m: Method, seqId: int, args: Val,
                                k: Tokens)
    requires Typed(h) && HasType(args, TStruct(ArgsOf(m)))
    ensures var (s', a) := h(s, m, Norm(args, TStruct(ArgsOf(m))));
            Dispatch(h, depth, why, s, FrameTokens(CallFrame(m, seqId, args)) + k) == Outcome(m, seqId, s', a, k)
  {
    var f := CallFrame(m, seqId, args);
    SchemasAreValid(m);
    RoundTrip(depth, args, TStruct(ArgsOf(m)), [MessageEnd] + k);
    AfterName(f, k);
    assert MethodOf(f.name) == Some(m);
    hide MethodOf, Name, Read, Norm, ArgsOf, ResultOf, Write, Exception, Internal, Reply;
  }

  lemma ServerTakesCall<S(!new)>(h: Handler<S>, depth: nat, why: string, s: S, m: Method, seqId: int, args: Val,
                                 k: Bytes)
    requires Typed(h) && HasType(args, TStruct(ArgsOf(m))) && AllFit(FrameTokens(CallFrame(m, seqId, args)))
    ensures var (s', a) := h(s, m, Norm(args, TStruct(ArgsOf(m))));
            var d := DispatchBytes(h, depth, why, s, CallBytes(m, seqId, args) + k);
            var o := Outcome(m, seqId, s', a, []);
            d == DoneBytes(s', o.success, o.err, EncAll(o.out), if a.Panic? then None else Some(k))
  {
    var f := CallFrame(m, seqId, args);
    var ks := BytesAreTokens(k);
    FitConcat(FrameTokens(f), ks);
    EncConcat(FrameTokens(f), ks);
    TokensTakeCall(h, depth, why, s, m, seqId, args, ks);
    DispatchFollows(h, depth, why, s, FrameTokens(f) + ks);
    hide Dispatch, DispatchBytes, FrameTokens, CallFrame, Exception, Internal, Reply, Write, EncAll, AllFit;
  }

  lemma ClientReadsMessage(depth: nat, name: string, kind: MessageKind, seqId: int, s: Schema, body: Tokens, v: Val)
    requires TextFits(name) && InRange(4, seqId) && AllFit(body)
    requires Read(depth, TStruct(s), body + []) == Ok(v, [])
    ensures ClientReads(depth, EncAll(Message(name, kind, seqId, body)), name, kind, seqId, s, v)
  {
    MessageFits(name, kind, seqId, body);
    HeaderIsRead(MessageBegin(name, kind, seqId), EncAll(body));
    assert body + [] == body;
    ReadBytesFollow(depth, TStruct(s), body);
  }

  lemma ClientReadsReply(depth: nat, m: Method, seqId: int, v: Val)
    requires HasType(v, TStruct(ReturnOf(m))) && ValFits(v) && InRange(4, seqId)
    ensures ClientReads(depth, EncAll(Reply(m, seqId, v)), Name(m), REPLY, seqId, ResultOf(m), ResultVal(m, v))
  {
    var r, ty := VStruct([v]), TStruct(ResultOf(m));
    RpcIdsFit(m);
    WriteFits(r, ty);
    ResultReadsBack(depth, m, v, []);
    NamesFit(m);
    ClientReadsMessage(depth, Name(m), REPLY, seqId, ResultOf(m), Write(r, ty), ResultVal(m, v));
  }

  lemma ClientReadsException(depth: nat, name: string, seqId: int, code: int, text: string)
    requires TextFits(name) && TextFits(text) && InRange(4, seqId) && InRange(4, code)
    ensures ClientReads(depth, EncAll(Exception(name, seqId, code, text)), name, EXCEPTION, seqId, APP_EXCEPTION,
                        ExceptionVal(code, text))
  {
    assert AllFit(AppException(code, text)) by {
      assert Half(2) == 0x8000;
    }
    ExceptionReadsBack(depth, code, text, []);
    var body, v := AppException(code, text), ExceptionVal(code, text);
    ClientReadsMessage(depth, name, EXCEPTION, seqId, APP_EXCEPTION, body, v);
  }
}
