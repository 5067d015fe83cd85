/** The field tables and method names of the KV service. */
module KvRpc {
  import opened Prelude
  import opened Codec

  // ---- field tables -------------------------------------------------------------------------

  function Req(id: int, ty: FType): Field {
    Field(id, ty, false)
  }

  const HEALTH := Schema([Req(1, TBool), Req(2, TString)])
  const GET_REQUEST := Schema([Req(1, TString), Req(2, TBool)])
  const KEY_VALUE := Schema([Req(1, TString), Req(2, TString)])
  const PUT_REQUEST := Schema([Req(1, TString), Req(2, TString)])
  const RESPONSE_HEADER := Schema([Req(1, TI64), Req(2, TI64), Req(3, TI64), Req(4, TString)])
  const GET_RESPONSE := Schema([Req(1, TStruct(RESPONSE_HEADER)), Req(2, TList(KEY_VALUE))])
  const PUT_RESPONSE := Schema([Req(1, TStruct(RESPONSE_HEADER))])

  datatype Method = Ping | Get | Put | MultiPut

  function Name(m: Method): string {
    match m
    case Ping => "Ping"
    case Get => "Get"
    case Put => "Put"
    case MultiPut => "MultiPut"
  }

  /** The processor map's lookup. */
  function MethodOf(name: string): (m: Option<Method>)
    ensures m.Some? ==> Name(m.value) == name
    ensures forall n: Method :: name == Name(n) ==> m == Some(n)
  {
    if name == "Ping" then Some(Ping)
    else if name == "Get" then Some(Get)
    else if name == "Put" then Some(Put)
    else if name == "MultiPut" then Some(MultiPut)
    else None
  }

  function ArgsOf(m: Method): Schema {
    match m
    case Ping => Schema([])
    case Get => Schema([Req(1, TStruct(GET_REQUEST))])
    case Put => Schema([Req(1, TStruct(PUT_REQUEST))])
    case MultiPut => Schema([Req(1, TList(PUT_REQUEST))])
  }

  function ReturnOf(m: Method): Schema {
    match m
    case Ping => HEALTH
    case Get => GET_RESPONSE
    case _ => PUT_RESPONSE
  }

  /** The result struct: one optional field, the method's return value. */
  function ResultOf(m: Method): Schema {
    Schema([Field(0, TStruct(ReturnOf(m)), true)])
  }

  predicate Scalars(s: Schema) {
    && (forall i :: 0 <= i < |s.fields| ==> !Pointer(s.fields[i].ty) && !s.fields[i].optional)
    && (forall i, j :: 0 <= i < j < |s.fields| ==> s.fields[i].id != s.fields[j].id)
  }

  lemma ScalarStructs(s: Schema)
    requires Scalars(s)
    ensures ValidType(TStruct(s)) && ValidType(TList(s)) && Flat(s)
    ensures forall v :: HasType(v, TStruct(s)) ==> Settled(v, TStruct(s)) && (v.VStruct? ==> Norm(v, TStruct(s)) == v)
    ensures forall v :: HasType(v, TList(s)) ==> Settled(v, TList(s))
  {
    forall v | HasType(v, TStruct(s))
      ensures Settled(v, TStruct(s)) && (v.VStruct? ==> Norm(v, TStruct(s)) == v)
    {
      if v.VStruct? {
        forall i | 0 <= i < |v.fields|
          ensures SettledField(v.fields[i], s.fields[i]) && NormField(v.fields[i], s.fields[i]) == v.fields[i]
        {
          assert !Pointer(s.fields[i].ty) && HasType(v.fields[i], s.fields[i].ty);
        }
      }
    }
    forall v | HasType(v, TList(s)) ensures Settled(v, TList(s)) {
      if v.VList? {
        forall i | 0 <= i < |v.elems| ensures Settled(v.elems[i], TStruct(s)) {
          assert HasType(v.elems[i], TStruct(s));
        }
      }
    }
  }

  lemma PlainStructs()
    ensures Scalars(HEALTH) && Scalars(GET_REQUEST) && Scalars(KEY_VALUE)
    ensures Scalars(PUT_REQUEST) && Scalars(RESPONSE_HEADER)
  {
  }

  lemma SchemasAreValid(m: Method)
    ensures ValidType(TStruct(ArgsOf(m))) && ValidType(TStruct(ReturnOf(m))) && ValidType(TStruct(ResultOf(m)))
  {
    PlainStructs();
    ScalarStructs(HEALTH);
    ScalarStructs(GET_REQUEST);
    ScalarStructs(KEY_VALUE);
    ScalarStructs(PUT_REQUEST);
    ScalarStructs(RESPONSE_HEADER);
    hide Scalars;
  }

  lemma ArgsSettle(m: Method, args: Val)
    requires HasType(args, TStruct(ArgsOf(m)))
    ensures Settled(args, TStruct(ArgsOf(m))) <==> (args.VNil? ==> m.Ping?)
  {
    PlainStructs();
    ScalarStructs(GET_REQUEST);
    ScalarStructs(PUT_REQUEST);
    hide Scalars;
    if !m.Ping? {
      assert Pointer(ArgsOf(m).fields[0].ty) && !ArgsOf(m).fields[0].optional;
    }
  }

  lemma ReturnSettles(m: Method, ret: Val)
    requires HasType(ret, TStruct(ReturnOf(m)))
    ensures Settled(ret, TStruct(ReturnOf(m))) <==> (ret.VNil? ==> m.Ping?)
  {
    PlainStructs();
    ScalarStructs(HEALTH);
    ScalarStructs(KEY_VALUE);
    ScalarStructs(RESPONSE_HEADER);
    hide Scalars;
    if !m.Ping? {
      assert Pointer(ReturnOf(m).fields[0].ty) && !ReturnOf(m).fields[0].optional;
    }
  }

  /** The arguments a client writes settle in one round trip, whatever is nil in them; so does the return
      value of Ping. The other return values settle exactly when they are not nil. */
  lemma WhatSettles(m: Method, args: Val, ret: Val)
    requires HasType(args, TStruct(ArgsOf(m))) && HasType(ret, TStruct(ReturnOf(m)))
    ensures Settled(args, TStruct(ArgsOf(m))) <==> (args.VNil? ==> m.Ping?)
    ensures Settled(ret, TStruct(ReturnOf(m))) <==> (ret.VNil? ==> m.Ping?)
  {
    hide Settled, HasType, ArgsOf, ReturnOf;
    ArgsSettle(m, args);
    ReturnSettles(m, ret);
  }

  /** A nil GetResponse is read as a response without a header, which is read as one with an empty header. */
  lemma NilResponseChangesTwice()
    ensures var ty := TStruct(GET_RESPONSE);
            && Norm(VNil, ty) == VStruct([VNil, VNil])
            && Norm(Norm(VNil, ty), ty) == VStruct([VStruct([VI64(0), VI64(0), VI64(0), VStr("")]), VList([])])
  {
    var s := GET_RESPONSE;
    assert Norm(VNil, TStruct(s)) == VStruct([VNil, VNil]);
    assert Zeros(RESPONSE_HEADER) == [VI64(0), VI64(0), VI64(0), VStr("")];
    assert NormField(VNil, s.fields[0]) == VStruct(Zeros(RESPONSE_HEADER));
    assert NormField(VNil, s.fields[1]) == VList([]);
  }
}
