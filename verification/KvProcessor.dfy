/** The message dispatcher of the KV service: one call frame in, one answer out. */
module KvProcessor {
  import opened Prelude
  import opened Protocol
  import opened Codec
  import opened ThriftStructs
  import opened KvRpc

  /** How a handler method ends. A panic leaves no answer. */
  datatype Answer = Return(v: Val) | HandlerError(text: string) | Panic

  /** A service: its state and the arguments of a call give the next state and the answer. */
  type Handler<!S> = (S, Method, Val) -> (S, Answer)

  /** The handler returns what its signature says; the value may be nil. */
  ghost predicate Typed<S(!new)>(h: Handler<S>) {
    forall s, m, v :: h(s, m, v).1.Return? ==> HasType(h(s, m, v).1.v, TStruct(ReturnOf(m)))
  }

  // ---- messages -----------------------------------------------------------------------------

  const UNKNOWN_METHOD := 1
  const INTERNAL_ERROR := 6
  const PROTOCOL_ERROR := 7

  /** A TApplicationException as a struct. */
  const APP_EXCEPTION := Schema([Req(1, TString), Req(2, TI32)])

  function Message(name: string, kind: MessageKind, seqId: int, body: Tokens): Tokens {
    [MessageBegin(name, kind, seqId)] + body + [MessageEnd]
  }

  /** How a TApplicationException writes itself: its message is left out when empty. */
  function AppException(code: int, text: string): Tokens {
    [StructBegin]
    + (if text == "" then [] else [FieldBegin(STRING, 1), Str(text), FieldEnd])
    + [FieldBegin(I32, 2), Number(I32, code), FieldEnd, FieldStop, StructEnd]
  }

  function Exception(name: string, seqId: int, code: int, text: string): Tokens {
    Message(name, EXCEPTION, seqId, AppException(code, text))
  }

  function Reply(m: Method, seqId: int, v: Val): Tokens
    requires HasType(v, TStruct(ReturnOf(m)))
  {
    Message(Name(m), REPLY, seqId, Write(VStruct([v]), TStruct(ResultOf(m))))
  }

  function Internal(m: Method, text: string): string {
    "Internal error processing " + Name(m) + ": " + text
  }

  function Unknown(name: string): string {
    "Unknown function " + name
  }

  // ---- dispatch -----------------------------------------------------------------------------

  datatype Failure = NoMessage | BadArgs | HandlerFailed(text: string) | UnknownMethod | Panicked

  /** The handler's state after a message, what the processor returned, what it wrote, and the input left; the
      input's position is unknown after a failed read or a panic. */
  datatype Done<S> = Done(s: S, success: bool, err: Option<Failure>, out: Tokens, rest: Option<Tokens>)

  /** ReadMessageEnd with its error ignored. */
  function PastEnd(toks: Tokens): Tokens {
    if toks != [] && toks[0] == MessageEnd then toks[1..] else toks
  }

  /** One message; `why` is the text of a failed read. */
  function Dispatch<S(!new)>(h: Handler<S>, depth: nat, why: string, s: S, toks: Tokens): Done<S>
    requires Typed(h)
  {
    if toks == [] || !toks[0].MessageBegin? then Done(s, false, Some(NoMessage), [], None)
    else
      var name, seqId := toks[0].name, toks[0].seqId;
      match MethodOf(name)
      case Some(m) => DispatchCall(h, depth, why, s, m, seqId, toks[1..])
      case None =>
        var r := Skip(STRUCT, toks[1..], depth);
        Done(s, false, Some(UnknownMethod), Exception(name, seqId, UNKNOWN_METHOD, Unknown(name)),
             if r.Some? then Some(PastEnd(r.value)) else None)
  }

  /** The processor of one method. */
  function DispatchCall<S(!new)>(h: Handler<S>, depth: nat, why: string, s: S, m: Method, seqId: int,
                                 toks: Tokens): Done<S>
    requires Typed(h)
  {
    match Read(depth, TStruct(ArgsOf(m)), toks)
    case Fail => Done(s, false, Some(BadArgs), Exception(Name(m), seqId, PROTOCOL_ERROR, why), None)
    case Ok(args, rest) =>
      var (s', a) := h(s, m, args);
      match a
      case Return(v) => Done(s', true, None, Reply(m, seqId, v), Some(PastEnd(rest)))
      case HandlerError(text) =>
        Done(s', true, Some(HandlerFailed(text)), Exception(Name(m), seqId, INTERNAL_ERROR, Internal(m, text)),
             Some(PastEnd(rest)))
      case Panic => Done(s', false, Some(Panicked), [], None)
  }

  /** n messages, each from where the last one left the input. */
  function DispatchAll<S(!new)>(h: Handler<S>, depth: nat, why: string, s: S, n: nat, toks: Tokens): Done<S>
    requires Typed(h)
    decreases n
  {
    if n == 0 then Done(s, true, None, [], Some(toks))
    else
      var d := Dispatch(h, depth, why, s, toks);
      if d.rest.None? then d
      else
        var e := DispatchAll(h, depth, why, d.s, n - 1, d.rest.value);
        e.(out := d.out + e.out)
  }

  // ---- call frames --------------------------------------------------------------------------

  /** A message with a body, and the arguments that the body decodes to if the method is known. */
  datatype Frame = Frame(name: string, kind: MessageKind, seqId: int, body: Tokens, args: Val)

  function FrameTokens(f: Frame): Tokens {
    Message(f.name, f.kind, f.seqId, f.body)
  }

  function AllTokens(frames: seq<Frame>): Tokens {
    if frames == [] then [] else FrameTokens(frames[0]) + AllTokens(frames[1..])
  }

  /** The body is one complete argument struct, or for an unknown method one struct that Skip can pass. */
  ghost predicate Complete(depth: nat, f: Frame) {
    match MethodOf(f.name)
    case Some(m) => forall k :: Read(depth, TStruct(ArgsOf(m)), f.body + k) == Ok(f.args, k)
    case None => forall k :: Skip(STRUCT, f.body + k, depth) == Some(k)
  }

  /** What the handler makes of a frame: the next state, and its answer if the method is known. */
  function Serve<S>(h: Handler<S>, s: S, f: Frame): (S, Option<Answer>) {
    match MethodOf(f.name)
    case None => (s, None)
    case Some(m) => var (s', a) := h(s, m, f.args); (s', Some(a))
  }

  predicate Panics(a: Option<Answer>) {
    a == Some(Panic)
  }

  /** The handler's state after the frames, and its answers to them, up to the first panic. */
  function ServeAll<S>(h: Handler<S>, s: S, frames: seq<Frame>): (r: (S, seq<Option<Answer>>))
    ensures |r.1| <= |frames|
    decreases |frames|
  {
    if frames == [] then (s, [])
    else
      var (s', a) := Serve(h, s, frames[0]);
      if Panics(a) then (s', [a])
      else
        var (final, answers) := ServeAll(h, s', frames[1..]);
        (final, [a] + answers)
  }

  /** The frames were served up to one that panicked. */
  predicate EndsInPanic(answers: seq<Option<Answer>>) {
    answers != [] && Panics(answers[|answers| - 1])
  }

  /** How many frames were answered. */
  function Answered(answers: seq<Option<Answer>>): nat {
    if EndsInPanic(answers) then |answers| - 1 else |answers|
  }

  /** The message has this name, kind and sequence id, and a body that decodes to this struct. */
  ghost predicate Carries(depth: nat, msg: Tokens, name: string, kind: MessageKind, seqId: int, s: Schema, v: Val) {
    exists body :: msg == Message(name, kind, seqId, body) && forall k :: Read(depth, TStruct(s), body + k) == Ok(v, k)
  }

  function ExceptionVal(code: int, text: string): Val {
    VStruct([VStr(text), VI32(code)])
  }

  /** What a client finds in a result: the normalised return value, or an unset one. */
  function ResultVal(m: Method, v: Val): Val
    requires HasType(v, TStruct(ReturnOf(m)))
  {
    VStruct([if v.VNil? then VNil else Norm(v, TStruct(ReturnOf(m)))])
  }

  /** The message answers the frame, with its name and sequence id: a REPLY with the handler's result, or
      an EXCEPTION that carries the handler's error or says that the method is unknown. */
  ghost predicate Answers(depth: nat, f: Frame, a: Option<Answer>, msg: Tokens) {
    match (MethodOf(f.name), a)
    case (None, None) =>
      Carries(depth, msg, f.name, EXCEPTION, f.seqId, APP_EXCEPTION, ExceptionVal(UNKNOWN_METHOD, Unknown(f.name)))
    case (Some(m), Some(HandlerError(text))) =>
      Carries(depth, msg, f.name, EXCEPTION, f.seqId, APP_EXCEPTION, ExceptionVal(INTERNAL_ERROR, Internal(m, text)))
    case (Some(m), Some(Return(v))) =>
      && HasType(v, TStruct(ReturnOf(m)))
      && Carries(depth, msg, f.name, REPLY, f.seqId, ResultOf(m), ResultVal(m, v))
    case _ => false
  }

  /** The written result decodes to the normalised return value, or to an unset one. */
  lemma ResultReadsBack(depth: nat, m: Method, v: Val, k: Tokens)
    requires HasType(v, TStruct(ReturnOf(m)))
    ensures Read(depth, TStruct(ResultOf(m)), Write(VStruct([v]), TStruct(ResultOf(m))) + k) == Ok(ResultVal(m, v), k)
  {
    SchemasAreValid(m);
    RoundTrip(depth, VStruct([v]), TStruct(ResultOf(m)), k);
    assert Norm(VStruct([v]), TStruct(ResultOf(m))) == VStruct([NormField(v, ResultOf(m).fields[0])]);
  }

  lemma ExceptionFields(code: int, text: string)
    ensures var s, vs := APP_EXCEPTION, [VStr(text), VI32(code)];
            && ValidType(TStruct(s)) && HasType(VStruct(vs), TStruct(s)) && NormFields(vs, s) == vs
            && Filled(vs, s, Zeros(s), if text == "" then 1 else 0)
  {
    assert Scalars(APP_EXCEPTION);
    ScalarStructs(APP_EXCEPTION);
    assert HasType(VStruct([VStr(text), VI32(code)]), TStruct(APP_EXCEPTION));
    assert NormFields([VStr(text), VI32(code)], APP_EXCEPTION) == [VStr(text), VI32(code)];
  }

  lemma ExceptionTokens(code: int, text: string)
    requires HasType(VStruct([VStr(text), VI32(code)]), TStruct(APP_EXCEPTION))
    ensures AppException(code, text)
         == [StructBegin] + WriteFields([VStr(text), VI32(code)], APP_EXCEPTION, if text == "" then 1 else 0)
            + [FieldStop, StructEnd]
  {
    var s, vs := APP_EXCEPTION, [VStr(text), VI32(code)];
    var f1, f2 := WriteField(vs[0], s.fields[0]), WriteField(vs[1], s.fields[1]);
    assert Write(vs[0], s.fields[0].ty) == [Str(text)] && Write(vs[1], s.fields[1].ty) == [Number(I32, code)];
    assert f1 == [FieldBegin(STRING, 1), Str(text), FieldEnd];
    assert f2 == [FieldBegin(I32, 2), Number(I32, code), FieldEnd];
    assert WriteFields(vs, s, 2) == [];
    assert WriteFields(vs, s, 1) == f2 + WriteFields(vs, s, 2) == f2;
    assert WriteFields(vs, s, 0) == f1 + WriteFields(vs, s, 1) == f1 + f2;
    hide WriteFields, WriteField, HasType;
  }

  /** A written exception decodes to its text and code, even when the empty text is left out. */
  lemma ExceptionReadsBack(depth: nat, code: int, text: string, k: Tokens)
    ensures Read(depth, TStruct(APP_EXCEPTION), AppException(code, text) + k) == Ok(ExceptionVal(code, text), k)
  {
    var s, vs, i := APP_EXCEPTION, [VStr(text), VI32(code)], if text == "" then 1 else 0;
    ExceptionFields(code, text);
    ExceptionTokens(code, text);
    FieldsRoundTrip(depth, vs, s, i, Zeros(s), k);
    hide ReadFields, WriteFields, AppException, HasType, ValidType, Filled, NormFields;
    Assoc([StructBegin] + WriteFields(vs, s, i), [FieldStop, StructEnd], k);
    Assoc([StructBegin], WriteFields(vs, s, i), [FieldStop, StructEnd] + k);
    Tail(StructBegin, WriteFields(vs, s, i) + ([FieldStop, StructEnd] + k));
  }

  lemma AfterName(f: Frame, k: Tokens)
    ensures FrameTokens(f) + k == [MessageBegin(f.name, f.kind, f.seqId)] + (f.body + ([MessageEnd] + k))
    ensures (FrameTokens(f) + k)[1..] == f.body + ([MessageEnd] + k) && PastEnd([MessageEnd] + k) == k
  {
    var begin := MessageBegin(f.name, f.kind, f.seqId);
    Assoc([begin] + f.body, [MessageEnd], k);
    Assoc([begin], f.body, [MessageEnd] + k);
    Tail(begin, f.body + ([MessageEnd] + k));
    Tail(MessageEnd, k);
  }

  lemma ExceptionCarries(depth: nat, name: string, seqId: int, code: int, text: string)
    ensures Carries(depth, Exception(name, seqId, code, text), name, EXCEPTION, seqId, APP_EXCEPTION,
                    ExceptionVal(code, text))
  {
    var body := AppException(code, text);
    forall k ensures Read(depth, TStruct(APP_EXCEPTION), body + k) == Ok(ExceptionVal(code, text), k) {
      ExceptionReadsBack(depth, code, text, k);
    }
  }

  lemma ReplyCarries(depth: nat, m: Method, seqId: int, v: Val)
    requires HasType(v, TStruct(ReturnOf(m)))
    ensures Carries(depth, Reply(m, seqId, v), Name(m), REPLY, seqId, ResultOf(m), ResultVal(m, v))
  {
    var body := Write(VStruct([v]), TStruct(ResultOf(m)));
    forall k ensures Read(depth, TStruct(ResultOf(m)), body + k) == Ok(ResultVal(m, v), k) {
      ResultReadsBack(depth, m, v, k);
    }
  }

  /** One well-formed frame, followed by anything: the handler runs on its arguments, and unless it panics
      exactly the frame is consumed and exactly one message that answers it is written. */
  lemma ProcessesFrame<S(!new)>(h: Handler<S>, depth: nat, why: string, s: S, f: Frame, k: Tokens)
    requires Typed(h) && Complete(depth, f)
    ensures var d, a := Dispatch(h, depth, why, s, FrameTokens(f) + k), Serve(h, s, f).1;
            && d.s == Serve(h, s, f).0
            && if Panics(a) then d.rest == None && d.out == [] && d.err == Some(Panicked)
               else d.rest == Some(k) && Answers(depth, f, a, d.out)
                    && d.success == MethodOf(f.name).Some?
                    && (d.err.None? <==> (exists v :: a == Some(Return(v))))
  {
    AfterName(f, k);
    if MethodOf(f.name).Some? {
      var m := MethodOf(f.name).value;
      assert Name(m) == f.name;
      hide MethodOf, Name, Carries;
      match h(s, m, f.args).1
      case Return(v) => ReplyCarries(depth, m, f.seqId, v);
      case HandlerError(text) => ExceptionCarries(depth, f.name, f.seqId, INTERNAL_ERROR, Internal(m, text));
      case Panic =>
    } else {
      ExceptionCarries(depth, f.name, f.seqId, UNKNOWN_METHOD, Unknown(f.name));
    }
  }

  /** Arguments that cannot be read: the handler is not called, and the caller gets one protocol error with the text
      of the failed read. */
  lemma UnreadableArgsAreRefused<S(!new)>(h: Handler<S>, depth: nat, why: string, s: S, m: Method, kind: MessageKind,
                                          seqId: int, toks: Tokens)
    requires Typed(h) && Read(depth, TStruct(ArgsOf(m)), toks).Fail?
    ensures var d := Dispatch(h, depth, why, s, [MessageBegin(Name(m), kind, seqId)] + toks);
            && d.s == s && !d.success && d.err == Some(BadArgs)
            && Carries(depth, d.out, Name(m), EXCEPTION, seqId, APP_EXCEPTION, VStruct([VStr(why), VI32(7)]))
  {
    Tail(MessageBegin(Name(m), kind, seqId), toks);
    ExceptionCarries(depth, Name(m), seqId, PROTOCOL_ERROR, why);
    hide Read, Carries, Name, MethodOf;
  }

  /** What the exceptions say, in full: a handler's error under code 6, an unknown method under code 1. */
  lemma ExceptionsSay<S(!new)>(h: Handler<S>, depth: nat, why: string, s: S, f: Frame, k: Tokens)
    requires Typed(h) && Complete(depth, f)
    ensures var d, a := Dispatch(h, depth, why, s, FrameTokens(f) + k), Serve(h, s, f).1;
            match a
            case None =>
              Carries(depth, d.out, f.name, EXCEPTION, f.seqId, APP_EXCEPTION,
                      VStruct([VStr("Unknown function " + f.name), VI32(1)]))
            case Some(HandlerError(text)) =>
              Carries(depth, d.out, f.name, EXCEPTION, f.seqId, APP_EXCEPTION,
                      VStruct([VStr("Internal error processing " + f.name + ": " + text), VI32(6)]))
            case _ => true
  {
    ProcessesFrame(h, depth, why, s, f, k);
    hide Dispatch, Complete, Carries, Typed;
  }

  /** One message for each of the answered frames. */
  ghost predicate AnswersAll(depth: nat, frames: seq<Frame>, answers: seq<Option<Answer>>, msgs: seq<Tokens>) {
    && |msgs| <= |frames| && |msgs| <= |answers|
    && forall i :: 0 <= i < |msgs| ==> Answers(depth, frames[i], answers[i], msgs[i])
  }

  function Flatten(msgs: seq<Tokens>): Tokens {
    if msgs == [] then [] else msgs[0] + Flatten(msgs[1..])
  }

  /** What processing the frames should come to, when the handler's answers to them are these. */
  ghost predicate Processed<S>(depth: nat, frames: seq<Frame>, final: S, answers: seq<Option<Answer>>, k: Tokens,
                               d: Done<S>)
  {
    && d.s == final
    && (if EndsInPanic(answers) then d.rest == None && d.err == Some(Panicked)
        else d.rest == Some(k) && |answers| == |frames|)
    && exists msgs :: |msgs| == Answered(answers) && d.out == Flatten(msgs)
                      && AnswersAll(depth, frames, answers, msgs)
  }

  lemma ProcessedNone<S>(depth: nat, final: S, k: Tokens, d: Done<S>)
    requires d == Done(final, true, None, [], Some(k))
    ensures Processed(depth, [], final, [], k, d)
  {
    assert Flatten([]) == [] && AnswersAll(depth, [], [], []);
  }

  lemma ProcessedPanic<S>(depth: nat, frames: seq<Frame>, final: S, k: Tokens, d: Done<S>)
    requires frames != [] && d.s == final && d.rest == None && d.err == Some(Panicked) && d.out == []
    ensures Processed(depth, frames, final, [Some(Panic)], k, d)
  {
    assert Flatten([]) == [] && AnswersAll(depth, frames, [Some(Panic)], []);
  }

  lemma AnswersMore(depth: nat, frames: seq<Frame>, a: Option<Answer>, tail: seq<Option<Answer>>, first: Tokens,
                    msgs: seq<Tokens>)
    requires frames != [] && Answers(depth, frames[0], a, first) && AnswersAll(depth, frames[1..], tail, msgs)
    ensures AnswersAll(depth, frames, [a] + tail, [first] + msgs)
  {
    hide Answers;
    forall i | 0 < i <= |msgs| ensures Answers(depth, frames[i], ([a] + tail)[i], ([first] + msgs)[i]) {
      assert frames[i] == frames[1..][i - 1];
    }
  }

  lemma AnsweredMore(a: Option<Answer>, tail: seq<Option<Answer>>)
    requires !Panics(a)
    ensures EndsInPanic([a] + tail) == EndsInPanic(tail) && Answered([a] + tail) == 1 + Answered(tail)
  {
    assert tail != [] ==> ([a] + tail)[|tail|] == tail[|tail| - 1];
  }

  lemma ProcessedMore<S>(depth: nat, frames: seq<Frame>, final: S, a: Option<Answer>, tail: seq<Option<Answer>>,
                         k: Tokens, first: Tokens, e: Done<S>)
    requires frames != [] && Answers(depth, frames[0], a, first) && !Panics(a)
    requires Processed(depth, frames[1..], final, tail, k, e)
    ensures Processed(depth, frames, final, [a] + tail, k, e.(out := first + e.out))
  {
    var msgs :| |msgs| == Answered(tail) && e.out == Flatten(msgs) && AnswersAll(depth, frames[1..], tail, msgs);
    assert ([first] + msgs)[1..] == msgs;
    assert Flatten([first] + msgs) == first + Flatten(msgs);
    AnswersMore(depth, frames, a, tail, first, msgs);
    AnsweredMore(a, tail);
    hide Answers, Flatten, AnswersAll, Answered, EndsInPanic, Panics;
    assert |[first] + msgs| == Answered([a] + tail);
  }

  /** A concatenation of well-formed frames, followed by anything: what is written is one message per frame,
      in order, each answering its frame, and exactly the frames are consumed. A handler that panics ends
      this at its frame, which gets no answer. */
  lemma {:induction false} ProcessesFrames<S(!new)>(h: Handler<S>, depth: nat, why: string, s: S, frames: seq<Frame>,
                                                    k: Tokens)
    requires Typed(h) && forall i :: 0 <= i < |frames| ==> Complete(depth, frames[i])
    ensures var (final, answers) := ServeAll(h, s, frames);
            Processed(depth, frames, final, answers, k,
                      DispatchAll(h, depth, why, s, |frames|, AllTokens(frames) + k))
    decreases |frames|
  {
    hide Dispatch, Serve, FrameTokens, Typed, Answers, Processed, Complete;
    if frames == [] {
      assert AllTokens(frames) + k == k;
      ProcessedNone(depth, s, k, DispatchAll(h, depth, why, s, 0, k));
    } else {
      var f, rest := frames[0], AllTokens(frames[1..]) + k;
      var (s', a) := Serve(h, s, f);
      Assoc(FrameTokens(f), AllTokens(frames[1..]), k);
      ProcessesFrame(h, depth, why, s, f, rest);
      var d := Dispatch(h, depth, why, s, FrameTokens(f) + rest);
      if Panics(a) {
        ProcessedPanic(depth, frames, s', k, d);
      } else {
        ProcessesFrames(h, depth, why, s', frames[1..], k);
        var (final, tail) := ServeAll(h, s', frames[1..]);
        ProcessedMore(depth, frames, final, a, tail, k, d.out, DispatchAll(h, depth, why, s', |frames| - 1, rest));
      }
    }
  }

  // ---- calls a client writes ----------------------------------------------------------------

  /** The frame of a client's call. */
  function CallFrame(m: Method, seqId: int, args: Val): Frame
    requires HasType(args, TStruct(ArgsOf(m)))
  {
    Frame(Name(m), CALL, seqId, Write(args, TStruct(ArgsOf(m))), Norm(args, TStruct(ArgsOf(m))))
  }

  lemma CallIsComplete(depth: nat, m: Method, seqId: int, args: Val)
    requires HasType(args, TStruct(ArgsOf(m)))
    ensures Complete(depth, CallFrame(m, seqId, args))
  {
    SchemasAreValid(m);
    var ty := TStruct(ArgsOf(m));
    forall k ensures Read(depth, ty, Write(args, ty) + k) == Ok(Norm(args, ty), k) {
      RoundTrip(depth, args, ty, k);
    }
  }

  // ---- the processor over a stateful protocol -----------------------------------------------

  class Processor<S(!new)> {
    const handler: Handler<S>
    var state: S

    constructor (handler: Handler<S>, state: S)
      ensures this.handler == handler && this.state == state
    {
      this.handler, this.state := handler, state;
    }

    /** Input and output are two protocols, or one. */
    method Process(iprot: TProtocol, oprot: TProtocol, why: string)
      returns (success: bool, err: Option<Failure>)
      requires Typed(handler)
      modifies this`state, iprot`input, oprot`output
      ensures var d := Dispatch(handler, iprot.depth, why, old(state), old(iprot.input));
              && state == d.s && success == d.success && err == d.err
              && oprot.output == old(oprot.output) + d.out
              && (d.rest.Some? ==> iprot.input == d.rest.value)
    {
      if |iprot.input| == 0 || !iprot.input[0].MessageBegin? {
        return false, Some(NoMessage);
      }
      var begin := iprot.input[0];
      iprot.input := iprot.input[1..];
      var m := MethodOf(begin.name);
      if m.Some? {
        success, err := ProcessCall(m.value, begin.seqId, iprot, oprot, why);
        return;
      }
      var _ := iprot.SkipValue(STRUCT);
      var _ := iprot.Take(MessageEnd);
      WriteException(oprot, begin.name, begin.seqId, UNKNOWN_METHOD, Unknown(begin.name));
      return false, Some(UnknownMethod);
    }

    method ProcessCall(m: Method, seqId: int, iprot: TProtocol, oprot: TProtocol, why: string)
      returns (success: bool, err: Option<Failure>)
      requires Typed(handler)
      modifies this`state, iprot`input, oprot`output
      ensures var d := DispatchCall(handler, iprot.depth, why, old(state), m, seqId, old(iprot.input));
              && state == d.s && success == d.success && err == d.err
              && oprot.output == old(oprot.output) + d.out
              && (d.rest.Some? ==> iprot.input == d.rest.value)
    {
      var args := ReadStruct(iprot, ArgsOf(m));
      var _ := iprot.Take(MessageEnd);
      if args.None? {
        WriteException(oprot, Name(m), seqId, PROTOCOL_ERROR, why);
        return false, Some(BadArgs);
      }
      var (s', a) := handler(state, m, args.value);
      state := s';
      match a {
        case Panic =>
          return false, Some(Panicked);
        case HandlerError(text) =>
          WriteException(oprot, Name(m), seqId, INTERNAL_ERROR, Internal(m, text));
          return true, Some(HandlerFailed(text));
        case Return(v) =>
          WriteReply(oprot, m, seqId, v);
          return true, None;
      }
    }

    method WriteReply(oprot: TProtocol, m: Method, seqId: int, v: Val)
      requires HasType(v, TStruct(ReturnOf(m)))
      modifies oprot`output
      ensures oprot.output == old(oprot.output) + Reply(m, seqId, v)
    {
      oprot.Emit([MessageBegin(Name(m), REPLY, seqId)]);
      WriteStruct(oprot, VStruct([v]), ResultOf(m));
      hide Write;
      oprot.Emit([MessageEnd]);
    }

    method WriteException(oprot: TProtocol, name: string, seqId: int, code: int, text: string)
      modifies oprot`output
      ensures oprot.output == old(oprot.output) + Exception(name, seqId, code, text)
    {
      oprot.Emit([MessageBegin(name, EXCEPTION, seqId)]);
      oprot.Emit(AppException(code, text));
      oprot.Emit([MessageEnd]);
    }
  }
}
