/** Read and Write as the generated code runs them: loops over a stateful protocol. */
module ThriftStructs {
  import opened Prelude
  import opened Protocol
  import opened Codec

  class TProtocol {
    const depth: nat  // how deep Skip may go
    var input: Tokens
    var output: Tokens

    constructor (depth: nat, input: Tokens)
      ensures this.depth == depth && this.input == input && output == []
    {
      this.depth, this.input, output := depth, input, [];
    }

    /** ReadStructEnd, ReadFieldEnd, ReadListEnd and their like. */
    method Take(t: Token) returns (ok: bool)
      modifies this`input
      ensures match Expect(t, old(input))
              case Some(rest) => ok && input == rest
              case None => !ok && input == old(input)
    {
      ok := |input| != 0 && input[0] == t;
      if ok {
        input := input[1..];
      }
    }

    method SkipValue(ty: TType) returns (ok: bool)
      modifies this`input
      ensures match Skip(ty, old(input), depth)
              case Some(rest) => ok && input == rest
              case None => !ok && input == old(input)
    {
      var r := Skip(ty, input, depth);
      ok := r.Some?;
      if ok {
        input := r.value;
      }
    }

    method Emit(toks: Tokens)
      modifies this`output
      ensures output == old(output) + toks
    {
      output := output + toks;
    }
  }

  /** The reader's outcome against the specification: the value and the input left, or an error. */
  ghost predicate Outcome(r: Option<Val>, rest: Tokens, spec: Res) {
    match spec
    case Ok(v, left) => r == Some(v) && rest == left
    case Fail => r == None
  }

  /** The Read method of a struct with this field table. */
  method ReadStruct(iprot: TProtocol, s: Schema) returns (r: Option<Val>)
    modifies iprot`input
    ensures Outcome(r, iprot.input, Read(iprot.depth, TStruct(s), old(iprot.input)))
    decreases |iprot.input|, 1
  {
    var ok := iprot.Take(StructBegin);
    if !ok {
      return None;
    }
    var p := Zeros(s);
    while true
      invariant |p| == |s.fields| && |iprot.input| < |old(iprot.input)|
      invariant ReadFields(iprot.depth, s, p, iprot.input) == Read(iprot.depth, TStruct(s), old(iprot.input))
      decreases |iprot.input|
    {
      if |iprot.input| == 0 {
        return None;
      }
      var field := iprot.input[0];
      if AtStop(iprot.input) {
        iprot.input := iprot.input[1..];
        break;
      }
      if !field.FieldBegin? {
        return None;
      }
      iprot.input := iprot.input[1..];
      if Known(s, field.ty, field.id) {
        var i := IndexOf(s, field.id, 0);
        var v := ReadValue(iprot, s.fields[i].ty);
        if v.None? {
          return None;
        }
        p := p[i := v.value];
      } else {
        ok := iprot.SkipValue(field.ty);
        if !ok {
          return None;
        }
      }
      ok := iprot.Take(FieldEnd);
      if !ok {
        return None;
      }
    }
    ok := iprot.Take(StructEnd);
    return if ok then Some(VStruct(p)) else None;
  }

  /** The ReadField methods, by the field's type. */
  method ReadValue(iprot: TProtocol, ty: FType) returns (r: Option<Val>)
    modifies iprot`input
    ensures Outcome(r, iprot.input, Read(iprot.depth, ty, old(iprot.input)))
    decreases |iprot.input|, 2
  {
    if ty.TStruct? {
      r := ReadStruct(iprot, ty.schema);
      return;
    }
    if |iprot.input| == 0 {
      return None;
    }
    var t := iprot.input[0];
    match ty {
      case TBool =>
        if !t.Bool? { return None; }
        r := Some(VBool(t.b));
      case TI32 =>
        if !t.Number? || t.num != I32 { return None; }
        r := Some(VI32(t.n));
      case TI64 =>
        if !t.Int64? { return None; }
        r := Some(VI64(t.n));
      case TString =>
        if !t.Str? { return None; }
        r := Some(VStr(t.s));
      case TList(s) =>
        if !t.ListBegin? { return None; }
        r := ReadList(iprot, s);
        return;
    }
    iprot.input := iprot.input[1..];
  }

  /** The loop over a list's elements; each must be a struct of the schema, whatever the header says. */
  method ReadList(iprot: TProtocol, s: Schema) returns (r: Option<Val>)
    requires iprot.input != [] && iprot.input[0].ListBegin?
    modifies iprot`input
    ensures Outcome(r, iprot.input, Read(iprot.depth, TList(s), old(iprot.input)))
    decreases |iprot.input|, 1
  {
    var size := iprot.input[0].size;
    iprot.input := iprot.input[1..];
    var list: seq<Val> := [];
    ghost var all := ReadElems(iprot.depth, s, size, [], iprot.input);
    var i := 0;
    while i < size
      invariant i <= size && |iprot.input| < |old(iprot.input)|
      invariant ReadElems(iprot.depth, s, size - i, list, iprot.input) == all
    {
      var elem := ReadStruct(iprot, s);
      if elem.None? {
        return None;
      }
      list := list + [elem.value];
      i := i + 1;
    }
    var ok := iprot.Take(ListEnd);
    return if ok then Some(VList(list)) else None;
  }

  /** The Write method of a struct, on a pointer that may be nil. */
  method WriteStruct(oprot: TProtocol, v: Val, s: Schema)
    requires HasType(v, TStruct(s))
    modifies oprot`output
    ensures oprot.output == old(oprot.output) + Write(v, TStruct(s))
    decreases v, 1
  {
    ghost var start, body := oprot.output, if v.VNil? then [] else WriteFields(v.fields, s, 0);
    oprot.Emit([StructBegin]);
    if v.VStruct? {
      WriteAllFields(oprot, v.fields, s);
    }
    assert oprot.output == start + [StructBegin] + body;
    hide WriteFields, HasType;
    oprot.Emit([FieldStop, StructEnd]);
    Assoc(start, [StructBegin], body);
    Assoc(start, [StructBegin] + body, [FieldStop, StructEnd]);
  }

  method WriteAllFields(oprot: TProtocol, vs: seq<Val>, s: Schema)
    requires |vs| == |s.fields| && forall k :: 0 <= k < |vs| ==> HasType(vs[k], s.fields[k].ty)
    modifies oprot`output
    ensures oprot.output == old(oprot.output) + WriteFields(vs, s, 0)
    decreases vs, 4
  {
    ghost var start, all := oprot.output, WriteFields(vs, s, 0);
    for i := 0 to |vs|
      invariant oprot.output + WriteFields(vs, s, i) == start + all
    {
      ghost var before, rest := oprot.output, WriteFields(vs, s, i + 1);
      assert WriteFields(vs, s, i) == WriteField(vs[i], s.fields[i]) + rest;
      WriteFieldOf(oprot, vs[i], s.fields[i]);
      assert before + (WriteField(vs[i], s.fields[i]) + rest) == oprot.output + rest;
    }
    assert oprot.output == start + all;
  }

  /** The writeField methods; an optional field is written only when it is set. */
  method WriteFieldOf(oprot: TProtocol, v: Val, f: Field)
    requires HasType(v, f.ty)
    modifies oprot`output
    ensures oprot.output == old(oprot.output) + WriteField(v, f)
    decreases v, 3
  {
    if f.optional && v == VNil {
      return;
    }
    oprot.Emit([FieldBegin(Tag(f.ty), f.id)]);
    WriteValue(oprot, v, f.ty);
    hide Write, HasType;
    oprot.Emit([FieldEnd]);
  }

  method WriteValue(oprot: TProtocol, v: Val, ty: FType)
    requires HasType(v, ty)
    modifies oprot`output
    ensures oprot.output == old(oprot.output) + Write(v, ty)
    decreases v, 2
  {
    match ty {
      case TBool => oprot.Emit([Bool(v.b)]);
      case TI32 => oprot.Emit([Number(I32, v.i)]);
      case TI64 => oprot.Emit([Int64(v.n)]);
      case TString => oprot.Emit([Str(v.s)]);
      case TStruct(s) => WriteStruct(oprot, v, s);
      case TList(s) => WriteList(oprot, v, s);
    }
  }

  method WriteList(oprot: TProtocol, v: Val, s: Schema)
    requires HasType(v, TList(s))
    modifies oprot`output
    ensures oprot.output == old(oprot.output) + Write(v, TList(s))
    decreases v, 1
  {
    var size := if v.VNil? then 0 else |v.elems|;
    ghost var start, body := oprot.output, if v.VNil? then [] else WriteElems(v.elems, s);
    oprot.Emit([ListBegin(STRUCT, size)]);
    if v.VList? {
      WriteElements(oprot, v.elems, s);
    }
    assert Write(v, TList(s)) == [ListBegin(STRUCT, size)] + body + [ListEnd];
    assert oprot.output == start + [ListBegin(STRUCT, size)] + body;
    hide WriteElems, HasType, Write;
    oprot.Emit([ListEnd]);
    Assoc(start, [ListBegin(STRUCT, size)], body);
    Assoc(start, [ListBegin(STRUCT, size)] + body, [ListEnd]);
  }

  method WriteElements(oprot: TProtocol, es: seq<Val>, s: Schema)
    requires forall i :: 0 <= i < |es| ==> HasType(es[i], TStruct(s))
    modifies oprot`output
    ensures oprot.output == old(oprot.output) + WriteElems(es, s)
    decreases es, 2
  {
    ghost var start, all := oprot.output, WriteElems(es, s);
    assert es[0..] == es;
    for i := 0 to |es|
      invariant oprot.output + WriteElems(es[i..], s) == start + all
    {
      ghost var before, rest := oprot.output, WriteElems(es[i + 1..], s);
      assert es[i..][1..] == es[i + 1..] && es[i..][0] == es[i];
      assert WriteElems(es[i..], s) == Write(es[i], TStruct(s)) + rest;
      WriteStruct(oprot, es[i], s);
      assert before + (Write(es[i], TStruct(s)) + rest) == oprot.output + rest;
    }
    assert oprot.output == start + all;
  }
}
