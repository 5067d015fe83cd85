/** The generated Read over bytes, and what carries over to it from Read over tokens. */
module BinaryCodec {
  import opened Prelude
  import opened Protocol
  import opened Codec
  import opened BinaryProtocol
  import WireFields

  datatype ByteRes = Got(v: Val, rest: Bytes) | Failed

  /** Read of a type; a list's element code is not looked at. */
  function ReadBytes(depth: nat, ty: FType, bs: Bytes): (r: ByteRes)
    ensures r.Got? ==> |r.rest| < |bs|
    decreases |bs|, 2, 0
  {
    match ty
    case TBool => if bs == [] then Failed else Got(VBool(bs[0] == 1), bs[1..])
    case TI32 =>
      var r := TakeInt(4, bs);
      if r.None? then Failed else Got(VI32(r.value.0), r.value.1)
    case TI64 =>
      var r := TakeInt(8, bs);
      if r.None? then Failed else Got(VI64(r.value.0), r.value.1)
    case TString =>
      var r := TakeStr(bs);
      if r.None? then Failed else Got(VStr(r.value.0), r.value.1)
    case TStruct(s) => ReadFieldBytes(depth, s, Zeros(s), bs)
    case TList(s) =>
      if bs == [] then Failed
      else
        var r := TakeInt(4, bs[1..]);
        if r.None? || r.value.0 < 0 then Failed else ReadElemBytes(depth, s, r.value.0, [], r.value.1)
  }

  function ReadFieldBytes(depth: nat, s: Schema, acc: seq<Val>, bs: Bytes): (r: ByteRes)
    requires |acc| == |s.fields|
    ensures r.Got? ==> |r.rest| < |bs|
    decreases |bs|, 1, 0
  {
    if bs == [] then Failed
    else if bs[0] == Code(STOP) then Got(VStruct(acc), bs[1..])
    else if OfCode(bs[0]).None? || TakeInt(2, bs[1..]).None? then Failed
    else
      var (id, body) := TakeInt(2, bs[1..]).value;
      match ReadOneBytes(depth, s, acc, OfCode(bs[0]).value, id, body)
      case Failed => Failed
      case Got(v, rest) => ReadFieldBytes(depth, s, v.fields, rest)
  }

  function ReadOneBytes(depth: nat, s: Schema, acc: seq<Val>, ty: TType, id: int, bs: Bytes): (r: ByteRes)
    requires |acc| == |s.fields|
    ensures r.Got? ==> |r.rest| <= |bs| && r.v.VStruct? && |r.v.fields| == |acc|
    decreases |bs|, 3, 0
  {
    if Known(s, ty, id) then
      var i := IndexOf(s, id, 0);
      match ReadBytes(depth, s.fields[i].ty, bs)
      case Failed => Failed
      case Got(v, rest) => Got(VStruct(acc[i := v]), rest)
    else
      var rest := SkipBytes(ty, bs, depth);
      if rest.None? then Failed else Got(VStruct(acc), rest.value)
  }

  function ReadElemBytes(depth: nat, s: Schema, n: nat, acc: seq<Val>, bs: Bytes): (r: ByteRes)
    ensures r.Got? ==> |r.rest| <= |bs|
    decreases |bs|, 3, 0
  {
    if n == 0 then Got(VList(acc), bs)
    else match ReadBytes(depth, TStruct(s), bs)
      case Failed => Failed
      case Got(v, rest) => ReadElemBytes(depth, s, n - 1, acc + [v], rest)
  }

  // ---- the bytes follow the tokens ----------------------------------------------------------

  ghost predicate ReadFollows(r: Res, b: ByteRes) {
    r.Ok? ==> AllFit(r.rest) && b == Got(r.v, EncAll(r.rest))
  }

  lemma {:induction false} ReadBytesFollow(depth: nat, ty: FType, toks: Tokens)
    requires AllFit(toks)
    ensures ReadFollows(Read(depth, ty, toks), ReadBytes(depth, ty, EncAll(toks)))
    decreases |toks|, 2, 0
  {
    if Read(depth, ty, toks).Ok? {
      match ty {
        case TStruct(s) => ReadStructFollows(depth, s, toks);
        case TList(s) => ReadListFollows(depth, s, toks);
        case _ => ReadScalarFollows(depth, ty, toks);
      }
    }
  }

  lemma ReadScalarFollows(depth: nat, ty: FType, toks: Tokens)
    requires !Pointer(ty)
    requires AllFit(toks) && Read(depth, ty, toks).Ok?
    ensures ReadFollows(Read(depth, ty, toks), ReadBytes(depth, ty, EncAll(toks)))
  {
    var k := EncAll(toks[1..]);
    EncStep(toks);
    match ty
    case TBool => assert EncAll(toks)[1..] == k;
    case TI32 => IntBack(4, toks[0].n, k);
    case TI64 => IntBack(8, toks[0].n, k);
    case TString => StrBack(toks[0].s, k);
  }

  lemma {:induction false} ReadStructFollows(depth: nat, s: Schema, toks: Tokens)
    requires AllFit(toks) && Read(depth, TStruct(s), toks).Ok?
    ensures ReadFollows(Read(depth, TStruct(s), toks), ReadBytes(depth, TStruct(s), EncAll(toks)))
    decreases |toks|, 1, 0
  {
    EncStep(toks);
    assert EncAll(toks) == EncAll(toks[1..]);
    ReadFieldBytesFollow(depth, s, Zeros(s), toks[1..]);
  }

  lemma {:induction false} ReadListFollows(depth: nat, s: Schema, toks: Tokens)
    requires AllFit(toks) && Read(depth, TList(s), toks).Ok?
    ensures ReadFollows(Read(depth, TList(s), toks), ReadBytes(depth, TList(s), EncAll(toks)))
    decreases |toks|, 1, 0
  {
    var t, rest := toks[0], toks[1..];
    EncStep(toks);
    HeaderBack(Code(t.elem), t.size, EncAll(rest));
    ReadElemBytesFollow(depth, s, t.size, [], rest);
    EndFollows(ListEnd, Some(ReadElems(depth, s, t.size, [], rest).rest));
  }

  lemma {:induction false} ReadFieldBytesFollow(depth: nat, s: Schema, acc: seq<Val>, toks: Tokens)
    requires AllFit(toks) && |acc| == |s.fields|
    ensures ReadFollows(ReadFields(depth, s, acc, toks), ReadFieldBytes(depth, s, acc, EncAll(toks)))
    decreases |toks|, 1, 0
  {
    hide EncAll, AllFit, Fits, ReadOne, ReadOneBytes, TakeInt;
    if AtStop(toks) {
      EncStep(toks);
      StopIsCode(toks[0]);
      assert EncAll(toks)[1..] == EncAll(toks[1..]);
      EndFollows(StructEnd, Some(toks[1..]));
    } else if toks != [] && toks[0].FieldBegin? {
      EncStep(toks);
      HeaderOfField(toks[0], EncAll(toks[1..]));
      ReadOneBytesFollow(depth, s, acc, toks[0].ty, toks[0].id, toks[1..]);
      var one := ReadOne(depth, s, acc, toks[0].ty, toks[0].id, toks[1..]);
      if one.Ok? {
        ReadFieldBytesFollow(depth, s, one.v.fields, one.rest);
      }
    }
  }

  lemma StopIsCode(t: Token)
    requires AtStop([t]) && Fits(t)
    ensures Enc(t) == [Code(STOP)]
  {
  }

  lemma HeaderOfField(t: Token, k: Bytes)
    requires t.FieldBegin? && Fits(t)
    ensures var bs := Enc(t) + k; bs[0] == Code(t.ty) != Code(STOP) && TakeInt(2, bs[1..]) == Some((t.id, k))
  {
    assert (Enc(t) + k)[1..] == Int(2, t.id) + k;
    IntBack(2, t.id, k);
  }

  lemma {:induction false} ReadOneBytesFollow(depth: nat, s: Schema, acc: seq<Val>, ty: TType, id: int, toks: Tokens)
    requires AllFit(toks) && |acc| == |s.fields|
    ensures ReadFollows(ReadOne(depth, s, acc, ty, id, toks), ReadOneBytes(depth, s, acc, ty, id, EncAll(toks)))
    decreases |toks|, 3, 0
  {
    if Known(s, ty, id) {
      var i := IndexOf(s, id, 0);
      ReadBytesFollow(depth, s.fields[i].ty, toks);
      var r := Read(depth, s.fields[i].ty, toks);
      EndFollows(FieldEnd, if r.Ok? then Some(r.rest) else None);
    } else {
      SkipFollows(ty, toks, depth);
      EndFollows(FieldEnd, Skip(ty, toks, depth));
    }
  }

  lemma {:induction false} ReadElemBytesFollow(depth: nat, s: Schema, n: nat, acc: seq<Val>, toks: Tokens)
    requires AllFit(toks)
    ensures ReadFollows(ReadElems(depth, s, n, acc, toks), ReadElemBytes(depth, s, n, acc, EncAll(toks)))
    decreases |toks|, 3, 0
  {
    if n > 0 {
      ReadBytesFollow(depth, TStruct(s), toks);
      var r := Read(depth, TStruct(s), toks);
      if r.Ok? {
        ReadElemBytesFollow(depth, s, n - 1, acc + [r.v], r.rest);
      }
    }
  }

  // ---- what the binary protocol can carry ---------------------------------------------------

  /** Field ids are 16-bit. */
  predicate IdsFit(ty: FType)
    decreases ty
  {
    Pointer(ty) ==>
      forall i :: 0 <= i < |ty.schema.fields| ==> InRange(2, ty.schema.fields[i].id) && IdsFit(ty.schema.fields[i].ty)
  }

  /** Numbers fit their widths, strings are bytes, and lengths are 31-bit. */
  predicate ValFits(v: Val)
    decreases v
  {
    match v
    case VI32(n) => InRange(4, n)
    case VI64(n) => InRange(8, n)
    case VStr(s) => IsBytes(s) && InRange(4, |s|)
    case VStruct(fields) => forall i :: 0 <= i < |fields| ==> ValFits(fields[i])
    case VList(elems) => InRange(4, |elems|) && forall i :: 0 <= i < |elems| ==> ValFits(elems[i])
    case _ => true
  }

  lemma FitConcat(a: Tokens, b: Tokens)
    requires AllFit(a) && AllFit(b)
    ensures AllFit(a + b)
  {
  }

  lemma {:induction false} WriteFits(v: Val, ty: FType)
    requires HasType(v, ty) && ValFits(v) && IdsFit(ty)
    ensures AllFit(Write(v, ty))
    decreases v, 2, 0
  {
    match ty
    case TStruct(s) =>
      assert AllFit([StructBegin]) && AllFit([FieldStop, StructEnd]);
      if v.VStruct? { WriteFieldsFit(v.fields, s, 0); }
    case TList(s) =>
      assert InRange(4, 0) by { assert Half(4) > 0; }
      if v.VList? { WriteElemsFit(v.elems, s); }
    case _ =>
  }

  lemma {:induction false} WriteFieldsFit(vs: seq<Val>, s: Schema, i: nat)
    requires |vs| == |s.fields| && forall k :: 0 <= k < |vs| ==> HasType(vs[k], s.fields[k].ty) && ValFits(vs[k])
    requires i <= |vs| && IdsFit(TStruct(s))
    ensures AllFit(WriteFields(vs, s, i))
    decreases vs, 1, |vs| - i
  {
    if i < |vs| {
      WriteFits(vs[i], s.fields[i].ty);
      WriteFieldsFit(vs, s, i + 1);
      var f := s.fields[i];
      assert AllFit([FieldBegin(Tag(f.ty), f.id)]) && AllFit([FieldEnd]);
      assert AllFit(WriteField(vs[i], f));
      FitConcat(WriteField(vs[i], f), WriteFields(vs, s, i + 1));
    }
  }

  lemma {:induction false} WriteElemsFit(es: seq<Val>, s: Schema)
    requires forall i :: 0 <= i < |es| ==> HasType(es[i], TStruct(s)) && ValFits(es[i])
    requires IdsFit(TStruct(s))
    ensures AllFit(WriteElems(es, s))
    decreases es, 1, 0
  {
    if es != [] {
      WriteFits(es[0], TStruct(s));
      WriteElemsFit(es[1..], s);
      FitConcat(Write(es[0], TStruct(s)), WriteElems(es[1..], s));
    }
  }

  /** Reading the bytes of what was written, followed by any bytes at all, consumes exactly the written
      bytes and yields the normalised value. */
  lemma BytesRoundTrip(depth: nat, v: Val, ty: FType, k: Bytes)
    requires HasType(v, ty) && ValidType(ty) && ValFits(v) && IdsFit(ty)
    ensures ReadBytes(depth, ty, EncAll(Write(v, ty)) + k) == Got(Norm(v, ty), k)
  {
    var ks := BytesAreTokens(k);
    WriteFits(v, ty);
    RoundTrip(depth, v, ty, ks);
    FitConcat(Write(v, ty), ks);
    EncConcat(Write(v, ty), ks);
    ReadBytesFollow(depth, ty, Write(v, ty) + ks);
  }

  /** Bytes decode in one way: what was written is determined, up to normalisation, by any bytes that
      begin with its encoding. */
  lemma BytesDetermineValue(v: Val, w: Val, ty: FType, k: Bytes, j: Bytes)
    requires HasType(v, ty) && HasType(w, ty) && ValidType(ty) && ValFits(v) && ValFits(w) && IdsFit(ty)
    requires EncAll(Write(v, ty)) + k == EncAll(Write(w, ty)) + j
    ensures Norm(v, ty) == Norm(w, ty) && k == j
  {
    BytesRoundTrip(0, v, ty, k);
    BytesRoundTrip(0, w, ty, j);
  }

  /** A foreign field inserted anywhere between the written fields is not noticed in bytes either. */
  lemma BytesTolerateForeign(depth: nat, vs: seq<Val>, s: Schema, at: nat, w: WireFields.Wire, k: Bytes)
    requires HasType(VStruct(vs), TStruct(s)) && ValidType(TStruct(s)) && WireFields.Foreign(depth, s, w)
    requires at <= |WireFields.WiresFrom(vs, s, 0)|
    requires var ws := WireFields.WiresFrom(vs, s, 0); AllFit(WireFields.Body(ws[..at] + [w] + ws[at..]))
    ensures var ws := WireFields.WiresFrom(vs, s, 0);
            && ReadBytes(depth, TStruct(s), EncAll(WireFields.Body(ws[..at] + [w] + ws[at..])) + k)
               == Got(Norm(VStruct(vs), TStruct(s)), k)
  {
    var ws := WireFields.WiresFrom(vs, s, 0);
    var body := WireFields.Body(ws[..at] + [w] + ws[at..]);
    var ks := BytesAreTokens(k);
    WireFields.WrittenStructTolerates(depth, vs, s, at, w, ks);
    hide WireFields.Foreign, WireFields.Body, HasType, ValidType;
    FitConcat(body, ks);
    EncConcat(body, ks);
    ReadBytesFollow(depth, TStruct(s), body + ks);
  }
}
