/** The bytes of whole messages, written out (Apache Thrift specification, "Thrift Binary protocol encoding"). */
module BinaryLayout {
  import opened Prelude
  import opened Protocol
  import opened Codec
  import opened KvRpc
  import opened KvProcessor
  import KvOverThrift
  import opened BinaryProtocol
  import opened BinaryProcessor

  /** The code of every type, of every kind of message and of a field by its type in the table; no other byte
      stands for a type. */
  lemma WireCodes(b: byte, s: Schema)
    ensures (Code(STOP), Code(BOOL), Code(BYTE), Code(DOUBLE), Code(I16), Code(I32)) == (0, 2, 3, 4, 6, 8)
    ensures (Code(I64), Code(STRING), Code(STRUCT), Code(MAP), Code(SET), Code(LIST)) == (10, 11, 12, 13, 14, 15)
    ensures (KindCode(CALL), KindCode(REPLY), KindCode(EXCEPTION), KindCode(ONEWAY)) == (1, 2, 3, 4)
    ensures (Code(Tag(TBool)), Code(Tag(TI32)), Code(Tag(TI64)), Code(Tag(TString))) == (2, 8, 10, 11)
    ensures (Code(Tag(TStruct(s))), Code(Tag(TList(s)))) == (12, 15)
    ensures OfCode(b).None? <==> b in {1, 5, 7, 9} || b > 15
  {
  }

  lemma FourBytes(n: int)
    ensures Int(4, n) == [n / 256 / 256 / 256 % 256, n / 256 / 256 % 256, n / 256 % 256, n % 256]
  {
    assert Int(0, n / 256 / 256 / 256 / 256) == [];
    assert Int(1, n / 256 / 256 / 256) == [n / 256 / 256 / 256 % 256];
    assert Int(2, n / 256 / 256) == [n / 256 / 256 / 256 % 256, n / 256 / 256 % 256];
    assert Int(3, n / 256) == [n / 256 / 256 / 256 % 256, n / 256 / 256 % 256, n / 256 % 256];
  }

  lemma TwoBytes(n: int)
    ensures Int(2, n) == [n / 256 % 256, n % 256]
  {
    assert Int(0, n / 256 / 256) == [];
    assert Int(1, n / 256) == [n / 256 % 256];
  }

  /** A string with its length before it. */
  function Sized(s: string): Bytes {
    Int(4, |s|) + StrBytes(s)
  }

  lemma EncCons(t: Token, rest: Tokens)
    ensures EncAll([t] + rest) == Enc(t) + EncAll(rest)
  {
    Tail(t, rest);
  }

  function VersionAnd(kind: MessageKind): Bytes {
    [0x80, 0x01, 0x00, match kind case CALL => 1 case REPLY => 2 case EXCEPTION => 3 case ONEWAY => 4]
  }

  lemma HeaderLayout(name: string, kind: MessageKind, seqId: int)
    ensures Enc(MessageBegin(name, kind, seqId)) == VersionAnd(kind) + (Sized(name) + Int(4, seqId))
  {
    FourBytes(VERSION_1 + KindCode(kind));
    assert Int(4, VERSION_1 + KindCode(kind)) == VersionAnd(kind);
    hide Int, StrBytes;
    Assoc(VersionAnd(kind), Int(4, |name|), StrBytes(name));
    Assoc(VersionAnd(kind), Sized(name), Int(4, seqId));
  }

  /** A message: the version with the kind, the name, the sequence id, the body. */
  lemma MessageLayout(name: string, kind: MessageKind, seqId: int, body: Tokens)
    ensures EncAll(Message(name, kind, seqId, body))
         == VersionAnd(kind) + (Sized(name) + Int(4, seqId)) + EncAll(body)
  {
    var begin := MessageBegin(name, kind, seqId);
    HeaderLayout(name, kind, seqId);
    Assoc([begin], body, [MessageEnd]);
    EncCons(begin, body + [MessageEnd]);
    EncConcat(body, [MessageEnd]);
    assert EncAll([MessageEnd]) == [] by {
      EncCons(MessageEnd, []);
      assert [MessageEnd] + [] == [MessageEnd];
    }
    hide EncAll, Int, StrBytes, VersionAnd, Sized;
    assert EncAll(body) + [] == EncAll(body);
  }

  lemma MarkLayout(t: Token, rest: Tokens)
    requires t in {StructBegin, FieldEnd, StructEnd}
    ensures EncAll([t] + rest) == EncAll(rest)
  {
    EncCons(t, rest);
    hide EncAll;
  }

  lemma ThreeTokens(a: Token, b: Token, c: Token, rest: Tokens)
    ensures [a, b, c] + rest == [a] + ([b] + ([c] + rest))
  {
  }

  lemma FieldBeginLayout(ty: TType, id: nat)
    requires id < 256
    ensures Enc(FieldBegin(ty, id)) == [Code(ty), 0, id]
  {
    TwoBytes(id);
  }

  /** A field of one token, and what follows. */
  lemma FieldLayout(ty: TType, id: nat, value: Token, rest: Tokens)
    requires id < 256
    ensures EncAll([FieldBegin(ty, id), value, FieldEnd] + rest) == [Code(ty), 0, id] + Enc(value) + EncAll(rest)
  {
    FieldBeginLayout(ty, id);
    ThreeTokens(FieldBegin(ty, id), value, FieldEnd, rest);
    EncCons(FieldBegin(ty, id), [value] + ([FieldEnd] + rest));
    EncCons(value, [FieldEnd] + rest);
    MarkLayout(FieldEnd, rest);
    hide EncAll, Enc, Code;
    Assoc([Code(ty), 0, id], Enc(value), EncAll(rest));
  }

  lemma EndLayout()
    ensures EncAll([FieldStop, StructEnd]) == [0]
  {
    assert EncAll([StructEnd]) == [];
  }

  lemma ExceptionTokensSplit(code: int, text: string)
    requires text != ""
    ensures AppException(code, text)
         == [StructBegin] + ([FieldBegin(STRING, 1), Str(text), FieldEnd]
                             + ([FieldBegin(I32, 2), Number(I32, code), FieldEnd] + [FieldStop, StructEnd]))
  {
  }

  lemma AppExceptionLayout(code: int, text: string)
    requires text != ""
    ensures EncAll(AppException(code, text)) == [11, 0, 1] + Sized(text) + ([8, 0, 2] + Int(4, code) + [0])
  {
    ExceptionTokensSplit(code, text);
    hide AppException, EncAll, Int, StrBytes;
    assert Enc(Str(text)) == Sized(text) && Enc(Number(I32, code)) == Int(4, code);
    assert Code(STRING) == 11 && Code(I32) == 8;
    hide Enc, Code, Sized;
    var end := [FieldStop, StructEnd];
    var second := [FieldBegin(I32, 2), Number(I32, code), FieldEnd] + end;
    MarkLayout(StructBegin, [FieldBegin(STRING, 1), Str(text), FieldEnd] + second);
    FieldLayout(STRING, 1, Str(text), second);
    FieldLayout(I32, 2, Number(I32, code), end);
    EndLayout();
  }

  /** An EXCEPTION with a text: the text under id 1, the code under id 2. */
  lemma ExceptionLayout(name: string, seqId: int, code: int, text: string)
    requires text != ""
    ensures EncAll(Exception(name, seqId, code, text))
         == [0x80, 0x01, 0x00, 0x03] + (Sized(name) + Int(4, seqId))
            + ([11, 0, 1] + Sized(text) + ([8, 0, 2] + Int(4, code) + [0]))
  {
    MessageLayout(name, EXCEPTION, seqId, AppException(code, text));
    AppExceptionLayout(code, text);
    assert VersionAnd(EXCEPTION) == [0x80, 0x01, 0x00, 0x03];
    hide AppException, Message, VersionAnd, EncAll, Int, StrBytes, Sized;
  }

  lemma FieldsInTurn(a: Val, b: Val, s: Schema)
    requires |s.fields| == 2 && HasType(a, s.fields[0].ty) && HasType(b, s.fields[1].ty)
    requires HasType(VStruct([a, b]), TStruct(s))
    ensures Write(VStruct([a, b]), TStruct(s))
         == [StructBegin] + (WriteField(a, s.fields[0]) + WriteField(b, s.fields[1])) + [FieldStop, StructEnd]
  {
    var vs := [a, b];
    assert WriteFields(vs, s, 2) == [];
    assert WriteFields(vs, s, 1) == WriteField(b, s.fields[1]);
    assert WriteFields(vs, s, 0) == WriteField(a, s.fields[0]) + WriteFields(vs, s, 1);
  }

  /** One field, with what follows, as bytes. */
  lemma StringLayout(s: string, id: nat, rest: Tokens)
    requires id < 256
    ensures HasType(VStr(s), TString)
    ensures EncAll(WriteField(VStr(s), Req(id, TString)) + rest) == [11, 0, id] + Sized(s) + EncAll(rest)
  {
    assert WriteField(VStr(s), Req(id, TString)) == [FieldBegin(STRING, id), Str(s), FieldEnd];
    FieldLayout(STRING, id, Str(s), rest);
    hide EncAll, Int, StrBytes, WriteField;
  }

  lemma BoolLayout(b: bool, id: nat, rest: Tokens)
    requires id < 256
    ensures HasType(VBool(b), TBool)
    ensures EncAll(WriteField(VBool(b), Req(id, TBool)) + rest)
         == [2, 0, id] + [if b then 1 else 0] + EncAll(rest)
  {
    assert WriteField(VBool(b), Req(id, TBool)) == [FieldBegin(BOOL, id), Bool(b), FieldEnd];
    FieldLayout(BOOL, id, Bool(b), rest);
    hide EncAll, Int, StrBytes, WriteField;
  }

  /** The request of a Get. */
  lemma RequestLayout(key: string, serializable: bool)
    ensures EncAll(Write(KvOverThrift.GetArgs(key, serializable).fields[0], TStruct(GET_REQUEST)))
         == [11, 0, 1] + Sized(key) + [2, 0, 2] + [if serializable then 1 else 0] + [0]
  {
    var a, b, s, end := VStr(key), VBool(serializable), GET_REQUEST, [FieldStop, StructEnd];
    FieldsInTurn(a, b, s);
    EndLayout();
    BoolLayout(serializable, 2, end);
    StringLayout(key, 1, WriteField(b, s.fields[1]) + end);
    var fields := WriteField(a, s.fields[0]) + WriteField(b, s.fields[1]);
    EncCons(StructBegin, fields + end);
    hide EncAll, Int, StrBytes, WriteField, Write, Sized;
    Assoc([StructBegin], fields, end);
    Assoc(WriteField(a, s.fields[0]), WriteField(b, s.fields[1]), end);
    Assoc([11, 0, 1] + Sized(key), [2, 0, 2] + [if serializable then 1 else 0], [0]);
    Assoc([11, 0, 1] + Sized(key), [2, 0, 2], [if serializable then 1 else 0]);
  }

  lemma OneField(arg: Val, f: Field)
    requires HasType(arg, f.ty) && HasType(VStruct([arg]), TStruct(Schema([f])))
    ensures Write(VStruct([arg]), TStruct(Schema([f]))) == [StructBegin] + WriteField(arg, f) + [FieldStop, StructEnd]
  {
    assert WriteFields([arg], Schema([f]), 1) == [];
    assert WriteFields([arg], Schema([f]), 0) == WriteField(arg, f);
  }

  lemma Nest<T>(a: seq<T>, b: seq<T>, c: seq<T>, d: seq<T>, e: seq<T>)
    ensures a + (b + c + d) + e == a + (b + (c + (d + e)))
  {
    Assoc(a, b + c + d, e);
    Assoc(b + c, d, e);
    Assoc(b, c, d + e);
  }

  /** A struct under id 1, and nothing else. */
  lemma ArgumentLayout(arg: Val, s: Schema)
    requires HasType(arg, TStruct(s))
    ensures var toks := Write(arg, TStruct(s));
            EncAll([StructBegin] + ([FieldBegin(STRUCT, 1)] + toks + [FieldEnd]) + [FieldStop, StructEnd])
            == [12, 0, 1] + EncAll(toks) + [0]
  {
    hide *;
    var toks, end := Write(arg, TStruct(s)), [FieldStop, StructEnd];
    Nest([StructBegin], [FieldBegin(STRUCT, 1)], toks, [FieldEnd], end);
    var rest := toks + ([FieldEnd] + end);
    MarkLayout(StructBegin, [FieldBegin(STRUCT, 1)] + rest);
    EncCons(FieldBegin(STRUCT, 1), rest);
    EncConcat(toks, [FieldEnd] + end);
    MarkLayout(FieldEnd, end);
    EndLayout();
    StructMark(1);
    Assoc([12, 0, 1], EncAll(toks), [0]);
  }

  lemma StructMark(id: nat)
    requires id < 256
    ensures Enc(FieldBegin(STRUCT, id)) == [12, 0, id]
  {
    FieldBeginLayout(STRUCT, id);
  }

  lemma ArgumentsLayout(key: string, serializable: bool)
    ensures var args := KvOverThrift.GetArgs(key, serializable);
            EncAll(Write(args, TStruct(ArgsOf(Get))))
            == [12, 0, 1] + EncAll(Write(args.fields[0], TStruct(GET_REQUEST))) + [0]
  {
    var args := KvOverThrift.GetArgs(key, serializable);
    var f := Req(1, TStruct(GET_REQUEST));
    assert HasType(args.fields[0], f.ty);
    OneField(args.fields[0], f);
    ArgumentLayout(args.fields[0], GET_REQUEST);
    hide EncAll;
    assert ArgsOf(Get) == Schema([f]);
    assert WriteField(args.fields[0], f)
        == [FieldBegin(STRUCT, 1)] + Write(args.fields[0], TStruct(GET_REQUEST)) + [FieldEnd];
    hide Write, WriteField;
  }

  /** A client's Get, byte by byte: a CALL whose one argument, a struct, holds the key and the flag. */
  lemma GetCallLayout(seqId: int, key: string, serializable: bool)
    ensures CallBytes(Get, seqId, KvOverThrift.GetArgs(key, serializable))
         == [0x80, 0x01, 0x00, 0x01] + (Sized("Get") + Int(4, seqId))
            + ([12, 0, 1] + ([11, 0, 1] + Sized(key) + [2, 0, 2] + [if serializable then 1 else 0] + [0]) + [0])
  {
    var args := KvOverThrift.GetArgs(key, serializable);
    MessageLayout("Get", CALL, seqId, Write(args, TStruct(ArgsOf(Get))));
    ArgumentsLayout(key, serializable);
    RequestLayout(key, serializable);
    hide EncAll, Int, StrBytes, Write, Sized;
  }
}
