/** The generated Read and Write of every struct, driven by the struct's field table, and their round
    trip. A nil pointer or slice is `VNil`. */
module Codec {
  import opened Prelude
  import opened Protocol

  /** A field's type; lists hold structs. */
  datatype FType = TBool | TI32 | TI64 | TString | TStruct(schema: Schema) | TList(schema: Schema)

  /** An optional field is written only when it is set. */
  datatype Field = Field(id: int, ty: FType, optional: bool)

  datatype Schema = Schema(fields: seq<Field>)

  datatype Val =
    | VNil
    | VBool(b: bool)
    | VI32(i: int)
    | VI64(n: int)
    | VStr(s: string)
    | VStruct(fields: seq<Val>)
    | VList(elems: seq<Val>)

  function Tag(ty: FType): (t: TType)
    ensures t != STOP
  {
    match ty
    case TBool => BOOL
    case TI32 => I32
    case TI64 => I64
    case TString => STRING
    case TStruct(_) => STRUCT
    case TList(_) => LIST
  }

  predicate Pointer(ty: FType) {
    ty.TStruct? || ty.TList?
  }

  /** Field ids are distinct and only pointers are optional. */
  predicate ValidType(ty: FType)
    decreases ty
  {
    Pointer(ty) ==>
      && (forall i, j :: 0 <= i < j < |ty.schema.fields| ==> ty.schema.fields[i].id != ty.schema.fields[j].id)
      && (forall i :: 0 <= i < |ty.schema.fields| ==>
            ValidType(ty.schema.fields[i].ty)
            && (ty.schema.fields[i].optional ==> Pointer(ty.schema.fields[i].ty)))
  }

  predicate HasType(v: Val, ty: FType)
    decreases v
  {
    match ty
    case TBool => v.VBool?
    case TI32 => v.VI32?
    case TI64 => v.VI64?
    case TString => v.VStr?
    case TStruct(s) =>
      v.VNil? || (v.VStruct? && |v.fields| == |s.fields|
                  && forall i :: 0 <= i < |v.fields| ==> HasType(v.fields[i], s.fields[i].ty))
    case TList(s) =>
      v.VNil? || (v.VList? && forall i :: 0 <= i < |v.elems| ==> HasType(v.elems[i], TStruct(s)))
  }

  /** The value of a field that was never assigned. */
  function Zero(ty: FType): Val {
    match ty
    case TBool => VBool(false)
    case TI32 => VI32(0)
    case TI64 => VI64(0)
    case TString => VStr("")
    case _ => VNil
  }

  function Zeros(s: Schema): (vs: seq<Val>)
    ensures |vs| == |s.fields|
  {
    seq(|s.fields|, i requires 0 <= i < |s.fields| => Zero(s.fields[i].ty))
  }

  // ---- Write --------------------------------------------------------------------------------

  function Write(v: Val, ty: FType): Tokens
    requires HasType(v, ty)
    decreases v, 2, 0
  {
    match ty
    case TBool => [Bool(v.b)]
    case TI32 => [Number(I32, v.i)]
    case TI64 => [Int64(v.n)]
    case TString => [Str(v.s)]
    case TStruct(s) =>
      [StructBegin] + (if v.VNil? then [] else WriteFields(v.fields, s, 0)) + [FieldStop, StructEnd]
    case TList(s) =>
      if v.VNil? then [ListBegin(STRUCT, 0), ListEnd]
      else [ListBegin(STRUCT, |v.elems|)] + WriteElems(v.elems, s) + [ListEnd]
  }

  function WriteFields(vs: seq<Val>, s: Schema, i: nat): Tokens
    requires |vs| == |s.fields| && forall k :: 0 <= k < |vs| ==> HasType(vs[k], s.fields[k].ty)
    requires i <= |vs|
    decreases vs, 1, |vs| - i
  {
    if i == |vs| then [] else WriteField(vs[i], s.fields[i]) + WriteFields(vs, s, i + 1)
  }

  function WriteField(v: Val, f: Field): Tokens
    requires HasType(v, f.ty)
    decreases v, 3, 0
  {
    if f.optional && v.VNil? then []
    else [FieldBegin(Tag(f.ty), f.id)] + Write(v, f.ty) + [FieldEnd]
  }

  function WriteElems(es: seq<Val>, s: Schema): Tokens
    requires forall i :: 0 <= i < |es| ==> HasType(es[i], TStruct(s))
    decreases es, 1, 0
  {
    if es == [] then [] else Write(es[0], TStruct(s)) + WriteElems(es[1..], s)
  }

  // ---- Read ---------------------------------------------------------------------------------

  datatype Res = Ok(v: Val, rest: Tokens) | Fail

  /** The position of a field id in the table, or the table's length. */
  function IndexOf(s: Schema, id: int, i: nat): (k: nat)
    requires i <= |s.fields|
    ensures i <= k <= |s.fields|
    ensures k < |s.fields| ==> s.fields[k].id == id
    ensures forall j :: i <= j < k ==> s.fields[j].id != id
    decreases |s.fields| - i
  {
    if i == |s.fields| || s.fields[i].id == id then i else IndexOf(s, id, i + 1)
  }

  /** The field with this id has this type; every other field is skipped. */
  predicate Known(s: Schema, ty: TType, id: int) {
    IndexOf(s, id, 0) < |s.fields| && Tag(s.fields[IndexOf(s, id, 0)].ty) == ty
  }

  /** `depth` is how deep the protocol's Skip may go. */
  function Read(depth: nat, ty: FType, toks: Tokens): (r: Res)
    ensures r.Ok? ==> |r.rest| < |toks|
    decreases |toks|, 2, 0
  {
    if toks == [] then Fail
    else match ty
      case TBool => if toks[0].Bool? then Ok(VBool(toks[0].b), toks[1..]) else Fail
      case TI32 => if toks[0].Number? && toks[0].num == I32 then Ok(VI32(toks[0].n), toks[1..]) else Fail
      case TI64 => if toks[0].Int64? then Ok(VI64(toks[0].n), toks[1..]) else Fail
      case TString => if toks[0].Str? then Ok(VStr(toks[0].s), toks[1..]) else Fail
      case TStruct(s) => if toks[0].StructBegin? then ReadFields(depth, s, Zeros(s), toks[1..]) else Fail
      case TList(s) =>
        if !toks[0].ListBegin? then Fail
        else
          match ReadElems(depth, s, toks[0].size, [], toks[1..])
          case Fail => Fail
          case Ok(v, rest) =>
            var end := Expect(ListEnd, rest);
            if end.None? then Fail else Ok(v, end.value)
  }

  /** The loop of every generated Read, from the fields assigned so far. */
  function ReadFields(depth: nat, s: Schema, acc: seq<Val>, toks: Tokens): (r: Res)
    requires |acc| == |s.fields|
    ensures r.Ok? ==> |r.rest| < |toks|
    decreases |toks|, 1, 0
  {
    if AtStop(toks) then
      var end := Expect(StructEnd, toks[1..]);
      if end.None? then Fail else Ok(VStruct(acc), end.value)
    else if toks == [] || !toks[0].FieldBegin? then Fail
    else
      match ReadOne(depth, s, acc, toks[0].ty, toks[0].id, toks[1..])
      case Fail => Fail
      case Ok(v, rest) => ReadFields(depth, s, v.fields, rest)
  }

  /** One field and its end: assigned if known, skipped if not. */
  function ReadOne(depth: nat, s: Schema, acc: seq<Val>, ty: TType, id: int, toks: Tokens): (r: Res)
    requires |acc| == |s.fields|
    ensures r.Ok? ==> |r.rest| < |toks| && r.v.VStruct? && |r.v.fields| == |acc|
    decreases |toks|, 3, 0
  {
    var i := IndexOf(s, id, 0);
    if Known(s, ty, id) then
      match Read(depth, s.fields[i].ty, toks)
      case Fail => Fail
      case Ok(v, rest) =>
        var end := Expect(FieldEnd, rest);
        if end.None? then Fail else Ok(VStruct(acc[i := v]), end.value)
    else
      var rest := Skip(ty, toks, depth);
      if rest.None? then Fail
      else
        var end := Expect(FieldEnd, rest.value);
        if end.None? then Fail else Ok(VStruct(acc), end.value)
  }

  function ReadElems(depth: nat, s: Schema, n: nat, acc: seq<Val>, toks: Tokens): (r: Res)
    ensures r.Ok? ==> |r.rest| <= |toks| && r.v.VList?
    decreases |toks|, 3, 0
  {
    if n == 0 then Ok(VList(acc), toks)
    else match Read(depth, TStruct(s), toks)
      case Fail => Fail
      case Ok(v, rest) => ReadElems(depth, s, n - 1, acc + [v], rest)
  }

  /** No list in the value holds a nil struct. */
  predicate NoNilElems(v: Val)
    decreases v
  {
    match v
    case VStruct(fields) => forall i :: 0 <= i < |fields| ==> NoNilElems(fields[i])
    case VList(elems) => forall i :: 0 <= i < |elems| ==> !elems[i].VNil? && NoNilElems(elems[i])
    case _ => true
  }

  /** What every value that was read is like, whatever the input. */
  predicate Readable(v: Val, ty: FType) {
    HasType(v, ty) && !v.VNil? && NoNilElems(v)
  }

  /** Whatever the input, a value that is read fits its type and is not nil, and its lists hold no nil. */
  lemma {:induction false} ReadHasType(depth: nat, ty: FType, toks: Tokens)
    ensures var r := Read(depth, ty, toks); r.Ok? ==> Readable(r.v, ty)
    decreases |toks|, 2
  {
    if toks != [] {
      match ty
      case TStruct(s) =>
        if toks[0].StructBegin? {
          FieldsHaveType(depth, s, Zeros(s), toks[1..]);
        }
      case TList(s) =>
        if toks[0].ListBegin? {
          ElemsHaveType(depth, s, toks[0].size, [], toks[1..]);
        }
      case _ =>
    }
  }

  lemma {:induction false} FieldsHaveType(depth: nat, s: Schema, acc: seq<Val>, toks: Tokens)
    requires Readable(VStruct(acc), TStruct(s))
    ensures var r := ReadFields(depth, s, acc, toks); r.Ok? ==> Readable(r.v, TStruct(s))
    decreases |toks|, 1
  {
    if !AtStop(toks) && toks != [] && toks[0].FieldBegin? {
      var i := IndexOf(s, toks[0].id, 0);
      if Known(s, toks[0].ty, toks[0].id) {
        ReadHasType(depth, s.fields[i].ty, toks[1..]);
      }
      var one := ReadOne(depth, s, acc, toks[0].ty, toks[0].id, toks[1..]);
      if one.Ok? {
        FieldsHaveType(depth, s, one.v.fields, one.rest);
      }
    }
  }

  lemma {:induction false} ElemsHaveType(depth: nat, s: Schema, n: nat, acc: seq<Val>, toks: Tokens)
    requires Readable(VList(acc), TList(s))
    ensures var r := ReadElems(depth, s, n, acc, toks); r.Ok? ==> Readable(r.v, TList(s))
    decreases |toks|, 3
  {
    if n != 0 {
      ReadHasType(depth, TStruct(s), toks);
      var one := Read(depth, TStruct(s), toks);
      if one.Ok? {
        ElemsHaveType(depth, s, n - 1, acc + [one.v], one.rest);
      }
    }
  }

  // ---- round trip ---------------------------------------------------------------------------

  /** What a value becomes: a nil struct is written empty and read as the zero struct, a nil list as
      the empty list, an unset optional field stays unset. */
  function Norm(v: Val, ty: FType): Val
    requires HasType(v, ty)
    decreases v, 0
  {
    match ty
    case TStruct(s) =>
      if v.VNil? then VStruct(Zeros(s))
      else VStruct(NormFields(v.fields, s))
    case TList(s) =>
      if v.VNil? then VList([])
      else VList(NormElems(v.elems, s))
    case _ => v
  }

  function NormFields(vs: seq<Val>, s: Schema): seq<Val>
    requires |vs| == |s.fields| && forall i :: 0 <= i < |vs| ==> HasType(vs[i], s.fields[i].ty)
    decreases vs, 2
  {
    seq(|vs|, i requires 0 <= i < |vs| => NormField(vs[i], s.fields[i]))
  }

  function NormElems(es: seq<Val>, s: Schema): seq<Val>
    requires forall i :: 0 <= i < |es| ==> HasType(es[i], TStruct(s))
    decreases es, 2
  {
    seq(|es|, i requires 0 <= i < |es| => Norm(es[i], TStruct(s)))
  }

  function NormField(v: Val, f: Field): Val
    requires HasType(v, f.ty)
    decreases v, 1
  {
    if f.optional && v.VNil? then VNil else Norm(v, f.ty)
  }

  lemma NormHasType(v: Val, ty: FType)
    requires HasType(v, ty)
    ensures HasType(Norm(v, ty), ty)
    decreases v
  {
    match ty
    case TStruct(s) =>
      if v.VStruct? {
        forall i | 0 <= i < |v.fields| ensures HasType(NormField(v.fields[i], s.fields[i]), s.fields[i].ty) {
          NormHasType(v.fields[i], s.fields[i].ty);
        }
      }
    case TList(s) =>
      if v.VList? {
        forall i | 0 <= i < |v.elems| ensures HasType(Norm(v.elems[i], TStruct(s)), TStruct(s)) {
          NormHasType(v.elems[i], TStruct(s));
        }
      }
    case _ =>
  }

  /** Reading what was written, followed by anything, consumes exactly what was written and yields the
      normalised value. */
  lemma {:induction false} RoundTrip(depth: nat, v: Val, ty: FType, k: Tokens)
    requires HasType(v, ty) && ValidType(ty)
    ensures Read(depth, ty, Write(v, ty) + k) == Ok(Norm(v, ty), k)
    decreases v, 3, 0
  {
    match ty
    case TStruct(s) => StructRoundTrip(depth, v, s, k);
    case TList(s) => ListRoundTrip(depth, v, s, k);
    case _ => assert (Write(v, ty) + k)[1..] == k;
  }

  lemma {:induction false} StructRoundTrip(depth: nat, v: Val, s: Schema, k: Tokens)
    requires HasType(v, TStruct(s)) && ValidType(TStruct(s))
    ensures Read(depth, TStruct(s), Write(v, TStruct(s)) + k) == Ok(Norm(v, TStruct(s)), k)
    decreases v, 2, 0
  {
    var toks := Write(v, TStruct(s)) + k;
    var vs := if v.VNil? then [] else WriteFields(v.fields, s, 0);
    assert toks[1..] == vs + ([FieldStop, StructEnd] + k);
    if v.VNil? {
      assert toks[1..][1..] == [StructEnd] + k && ([StructEnd] + k)[1..] == k;
    } else {
      FieldsRoundTrip(depth, v.fields, s, 0, Zeros(s), k);
    }
  }

  lemma {:induction false} ListRoundTrip(depth: nat, v: Val, s: Schema, k: Tokens)
    requires HasType(v, TList(s)) && ValidType(TList(s))
    ensures Read(depth, TList(s), Write(v, TList(s)) + k) == Ok(Norm(v, TList(s)), k)
    decreases v, 2, 0
  {
    var toks := Write(v, TList(s)) + k;
    assert ([ListEnd] + k)[1..] == k;
    if v.VNil? {
      assert toks[1..] == [ListEnd] + k;
    } else {
      assert toks[1..] == WriteElems(v.elems, s) + ([ListEnd] + k);
      ElemsRoundTrip(depth, v.elems, s, [], [ListEnd] + k);
      assert [] + NormElems(v.elems, s) == NormElems(v.elems, s);
    }
  }

  /** One round of the field loop. */
  lemma ReadFieldsStep(depth: nat, s: Schema, acc: seq<Val>, ty: TType, id: int, body: Tokens, acc': seq<Val>,
                       rest: Tokens)
    requires |acc| == |s.fields| && ty != STOP
    requires ReadOne(depth, s, acc, ty, id, body) == Ok(VStruct(acc'), rest)
    ensures ReadFields(depth, s, acc, [FieldBegin(ty, id)] + body) == ReadFields(depth, s, acc', rest)
  {
    Tail(FieldBegin(ty, id), body);
  }

  lemma IndexOfField(s: Schema, i: nat)
    requires i < |s.fields| && ValidType(TStruct(s))
    ensures IndexOf(s, s.fields[i].id, 0) == i
  {
  }

  /** The first i fields have been read. */
  predicate Filled(vs: seq<Val>, s: Schema, acc: seq<Val>, i: nat)
    requires |vs| == |s.fields| == |acc| && i <= |vs|
    requires forall j :: 0 <= j < |vs| ==> HasType(vs[j], s.fields[j].ty)
  {
    && (forall j :: 0 <= j < i ==> acc[j] == NormField(vs[j], s.fields[j]))
    && (forall j :: i <= j < |vs| ==> acc[j] == Zero(s.fields[j].ty))
  }

  lemma FillNext(vs: seq<Val>, s: Schema, acc: seq<Val>, i: nat)
    requires |vs| == |s.fields| == |acc| && i < |vs| && ValidType(TStruct(s))
    requires forall j :: 0 <= j < |vs| ==> HasType(vs[j], s.fields[j].ty)
    requires Filled(vs, s, acc, i)
    ensures var unset := s.fields[i].optional && vs[i].VNil?;
            Filled(vs, s, if unset then acc else acc[i := Norm(vs[i], s.fields[i].ty)], i + 1)
  {
  }

  lemma AllFilled(vs: seq<Val>, s: Schema, acc: seq<Val>)
    requires |vs| == |s.fields| == |acc| && forall j :: 0 <= j < |vs| ==> HasType(vs[j], s.fields[j].ty)
    requires Filled(vs, s, acc, |vs|)
    ensures acc == NormFields(vs, s)
  {
  }

  lemma {:induction false} FieldsRoundTrip(depth: nat, vs: seq<Val>, s: Schema, i: nat, acc: seq<Val>, k: Tokens)
    requires |vs| == |s.fields| == |acc| && i <= |vs| && ValidType(TStruct(s))
    requires forall j :: 0 <= j < |vs| ==> HasType(vs[j], s.fields[j].ty)
    requires Filled(vs, s, acc, i)
    ensures ReadFields(depth, s, acc, WriteFields(vs, s, i) + ([FieldStop, StructEnd] + k))
         == Ok(VStruct(NormFields(vs, s)), k)
    decreases vs, 1, |vs| - i
  {
    hide ReadFields, NormFields;
    var end := [FieldStop, StructEnd] + k;
    if i == |vs| {
      assert WriteFields(vs, s, i) + end == end;
      FieldsEnd(depth, s, acc, k);
      AllFilled(vs, s, acc);
    } else {
      var f, v := s.fields[i], vs[i];
      var rest := WriteFields(vs, s, i + 1) + end;
      FillNext(vs, s, acc, i);
      hide Filled;
      Assoc(WriteField(v, f), WriteFields(vs, s, i + 1), end);
      if f.optional && v.VNil? {
        assert WriteField(v, f) + rest == rest;
        FieldsRoundTrip(depth, vs, s, i + 1, acc, k);
      } else {
        FieldRoundTrip(depth, s, i, v, acc, rest);
        FieldsRoundTrip(depth, vs, s, i + 1, acc[i := Norm(v, f.ty)], k);
      }
    }
  }

  lemma FieldsEnd(depth: nat, s: Schema, acc: seq<Val>, k: Tokens)
    requires |acc| == |s.fields|
    ensures ReadFields(depth, s, acc, [FieldStop, StructEnd] + k) == Ok(VStruct(acc), k)
  {
    var end := [FieldStop, StructEnd] + k;
    assert end[1..] == [StructEnd] + k && ([StructEnd] + k)[1..] == k;
  }

  /** One written field is read into its place. */
  lemma {:induction false} FieldRoundTrip(depth: nat, s: Schema, i: nat, v: Val, acc: seq<Val>, rest: Tokens)
    requires i < |s.fields| == |acc| && ValidType(TStruct(s)) && HasType(v, s.fields[i].ty)
    requires !(s.fields[i].optional && v.VNil?)
    ensures ReadFields(depth, s, acc, WriteField(v, s.fields[i]) + rest)
         == ReadFields(depth, s, acc[i := Norm(v, s.fields[i].ty)], rest)
    decreases v, 4, 0
  {
    var f := s.fields[i];
    var body := Write(v, f.ty) + ([FieldEnd] + rest);
    IndexOfField(s, i);
    RoundTrip(depth, v, f.ty, [FieldEnd] + rest);
    assert ([FieldEnd] + rest)[1..] == rest;
    assert ReadOne(depth, s, acc, Tag(f.ty), f.id, body) == Ok(VStruct(acc[i := Norm(v, f.ty)]), rest);
    hide ReadOne, Write, Norm;
    ReadFieldsStep(depth, s, acc, Tag(f.ty), f.id, body, acc[i := Norm(v, f.ty)], rest);
    Assoc([FieldBegin(Tag(f.ty), f.id)] + Write(v, f.ty), [FieldEnd], rest);
    Assoc([FieldBegin(Tag(f.ty), f.id)], Write(v, f.ty), [FieldEnd] + rest);
  }

  lemma {:induction false} ElemsRoundTrip(depth: nat, es: seq<Val>, s: Schema, acc: seq<Val>, k: Tokens)
    requires forall i :: 0 <= i < |es| ==> HasType(es[i], TStruct(s))
    requires ValidType(TStruct(s))
    ensures ReadElems(depth, s, |es|, acc, WriteElems(es, s) + k)
         == Ok(VList(acc + NormElems(es, s)), k)
    decreases es, 1, 0
  {
    hide Read, Write, Norm, HasType, ValidType;
    if es == [] {
      assert WriteElems(es, s) + k == k && acc + NormElems(es, s) == acc;
    } else {
      var rest, first := WriteElems(es[1..], s) + k, Norm(es[0], TStruct(s));
      RoundTrip(depth, es[0], TStruct(s), rest);
      ElemsRoundTrip(depth, es[1..], s, acc + [first], k);
      Assoc(Write(es[0], TStruct(s)), WriteElems(es[1..], s), k);
      assert NormElems(es, s) == [first] + NormElems(es[1..], s);
      hide NormElems;
      Assoc(acc, [first], NormElems(es[1..], s));
    }
  }

  // ---- a second round trip ------------------------------------------------------------------

  /** The zero struct has no pointer that Write would fill in. */
  predicate Flat(s: Schema) {
    forall i :: 0 <= i < |s.fields| && Pointer(s.fields[i].ty) ==> s.fields[i].optional
  }

  /** No nil struct stands, outside an unset optional field, for a struct with pointers of its own. */
  predicate Settled(v: Val, ty: FType)
    requires HasType(v, ty)
    decreases v, 0
  {
    match ty
    case TStruct(s) =>
      if v.VNil? then Flat(s)
      else forall i :: 0 <= i < |v.fields| ==> SettledField(v.fields[i], s.fields[i])
    case TList(s) =>
      v.VNil? || forall i :: 0 <= i < |v.elems| ==> Settled(v.elems[i], TStruct(s))
    case _ => true
  }

  predicate SettledField(v: Val, f: Field)
    requires HasType(v, f.ty)
    decreases v, 1
  {
    (f.optional && v.VNil?) || Settled(v, f.ty)
  }

  /** A second round trip changes nothing exactly when the value is settled. */
  lemma {:induction false} SecondRoundTrip(v: Val, ty: FType)
    requires HasType(v, ty) && ValidType(ty)
    ensures HasType(Norm(v, ty), ty)
    ensures Norm(Norm(v, ty), ty) == Norm(v, ty) <==> Settled(v, ty)
    decreases v, 0
  {
    NormHasType(v, ty);
    match ty
    case TStruct(s) =>
      var n := Norm(v, ty);
      assert v.VStruct? ==> n == VStruct(NormFields(v.fields, s));
      if v.VNil? {
        assert forall i :: 0 <= i < |s.fields| ==>
          (NormField(n.fields[i], s.fields[i]) == n.fields[i] <==> !(Pointer(s.fields[i].ty) && !s.fields[i].optional));
        assert Norm(n, ty) == n <==>
               forall i :: 0 <= i < |s.fields| ==> NormField(n.fields[i], s.fields[i]) == n.fields[i];
      } else {
        forall i | 0 <= i < |v.fields|
          ensures NormField(n.fields[i], s.fields[i]) == n.fields[i] <==> SettledField(v.fields[i], s.fields[i])
        {
          SecondRoundTripField(v.fields[i], s.fields[i]);
        }
        assert Norm(n, ty) == n <==>
               forall i :: 0 <= i < |v.fields| ==> NormField(n.fields[i], s.fields[i]) == n.fields[i];
      }
    case TList(s) =>
      if v.VList? {
        var n := Norm(v, ty);
        assert n == VList(NormElems(v.elems, s)) && Norm(n, ty) == VList(NormElems(n.elems, s));
        forall i | 0 <= i < |v.elems|
          ensures Norm(n.elems[i], TStruct(s)) == n.elems[i] <==> Settled(v.elems[i], TStruct(s))
        {
          SecondRoundTrip(v.elems[i], TStruct(s));
        }
        assert Norm(n, ty) == n <==> forall i :: 0 <= i < |v.elems| ==> Norm(n.elems[i], TStruct(s)) == n.elems[i];
      }
    case _ =>
  }

  lemma {:induction false} SecondRoundTripField(v: Val, f: Field)
    requires HasType(v, f.ty) && ValidType(f.ty) && (f.optional ==> Pointer(f.ty))
    ensures HasType(NormField(v, f), f.ty)
    ensures NormField(NormField(v, f), f) == NormField(v, f) <==> SettledField(v, f)
    decreases v, 1
  {
    if !(f.optional && v.VNil?) {
      SecondRoundTrip(v, f.ty);
    }
  }
}
