/** The Thrift protocol as a stream of tokens, and the recursive Skip of its runtime. */
module Protocol {
  import opened Prelude

  datatype TType = STOP | BOOL | BYTE | DOUBLE | I16 | I32 | I64 | STRING | STRUCT | MAP | SET | LIST

  datatype MessageKind = CALL | REPLY | EXCEPTION | ONEWAY

  datatype Token =
    | MessageBegin(name: string, kind: MessageKind, seqId: int)
    | MessageEnd
    | StructBegin
    | StructEnd
    | FieldBegin(ty: TType, id: int)
    | FieldEnd
    | FieldStop
    | ListBegin(elem: TType, size: nat)
    | ListEnd
    | SetBegin(elem: TType, size: nat)
    | SetEnd
    | MapBegin(key: TType, val: TType, size: nat)
    | MapEnd
    | Bool(b: bool)
    | Int64(n: int)
    | Str(s: string)
    | Number(num: TType, n: int)  // BYTE, I16, I32 and DOUBLE

  type Tokens = seq<Token>

  /** The input after one given token. */
  function Expect(t: Token, toks: Tokens): (r: Option<Tokens>)
    ensures r.Some? ==> |r.value| < |toks|
  {
    if toks != [] && toks[0] == t then Some(toks[1..]) else None
  }

  /** The input after one value of the type, at most `depth` levels deep; None on any error. */
  function Skip(ty: TType, toks: Tokens, depth: nat): (r: Option<Tokens>)
    ensures r.Some? ==> |r.value| <= |toks|
    decreases depth, |toks|, 0, 0
  {
    if depth == 0 then None
    else if ty == STOP then Some(toks)
    else if toks == [] then None
    else match toks[0]
      case Bool(_) => if ty == BOOL then Some(toks[1..]) else None
      case Int64(_) => if ty == I64 then Some(toks[1..]) else None
      case Str(_) => if ty == STRING then Some(toks[1..]) else None
      case Number(num, _) => if ty == num && num in {BYTE, I16, I32, DOUBLE} then Some(toks[1..]) else None
      case StructBegin => if ty == STRUCT then SkipFields(toks[1..], depth - 1) else None
      case ListBegin(elem, size) =>
        if ty != LIST then None
        else
          var r := SkipElements(elem, size, toks[1..], depth - 1);
          if r.None? then None else Expect(ListEnd, r.value)
      case SetBegin(elem, size) =>
        if ty != SET then None
        else
          var r := SkipElements(elem, size, toks[1..], depth - 1);
          if r.None? then None else Expect(SetEnd, r.value)
      case MapBegin(key, val, size) =>
        if ty != MAP then None
        else
          var r := SkipPairs(key, val, size, toks[1..], depth - 1);
          if r.None? then None else Expect(MapEnd, r.value)
      case _ => None
  }

  predicate AtStop(toks: Tokens) {
    toks != [] && (toks[0].FieldStop? || (toks[0].FieldBegin? && toks[0].ty == STOP))
  }

  function SkipFields(toks: Tokens, depth: nat): (r: Option<Tokens>)
    ensures r.Some? ==> |r.value| <= |toks|
    decreases depth, |toks|, 1, 0
  {
    if AtStop(toks) then Expect(StructEnd, toks[1..])
    else if toks == [] || !toks[0].FieldBegin? then None
    else
      var r := Skip(toks[0].ty, toks[1..], depth);
      if r.None? then None
      else
        var r1 := Expect(FieldEnd, r.value);
        if r1.None? then None else SkipFields(r1.value, depth)
  }

  function SkipElements(elem: TType, n: nat, toks: Tokens, depth: nat): (r: Option<Tokens>)
    ensures r.Some? ==> |r.value| <= |toks|
    decreases depth, |toks|, 1, n
  {
    if n == 0 then Some(toks)
    else
      var r := Skip(elem, toks, depth);
      if r.None? then None else SkipElements(elem, n - 1, r.value, depth)
  }

  function SkipPairs(key: TType, val: TType, n: nat, toks: Tokens, depth: nat): (r: Option<Tokens>)
    ensures r.Some? ==> |r.value| <= |toks|
    decreases depth, |toks|, 1, n
  {
    if n == 0 then Some(toks)
    else
      var k := Skip(key, toks, depth);
      if k.None? then None
      else
        var v := Skip(val, k.value, depth);
        if v.None? then None else SkipPairs(key, val, n - 1, v.value, depth)
  }

  // ---- well-formed values of any type -------------------------------------------------------

  /** A struct has its field ids and values in parallel; a map's entries alternate key and value. */
  datatype Any =
    | ABool(b: bool)
    | AInt64(n: int)
    | AStr(s: string)
    | ANumber(num: TType, n: int)
    | AStruct(ids: seq<int>, fields: seq<Any>)
    | AList(elem: TType, elems: seq<Any>)
    | ASet(elem: TType, elems: seq<Any>)
    | AMap(key: TType, val: TType, entries: seq<Any>)

  function TypeOf(a: Any): TType {
    match a
    case ABool(_) => BOOL
    case AInt64(_) => I64
    case AStr(_) => STRING
    case ANumber(num, _) => num
    case AStruct(_, _) => STRUCT
    case AList(_, _) => LIST
    case ASet(_, _) => SET
    case AMap(_, _, _) => MAP
  }

  predicate AllWellFormed(vals: seq<Any>)
    decreases vals
  {
    forall i :: 0 <= i < |vals| ==> WellFormed(vals[i])
  }

  predicate WellFormed(a: Any)
    decreases a
  {
    match a
    case ANumber(num, _) => num in {BYTE, I16, I32, DOUBLE}
    case AStruct(ids, fields) => |ids| == |fields| && AllWellFormed(fields)
    case AList(elem, elems) => AllWellFormed(elems) && forall i :: 0 <= i < |elems| ==> TypeOf(elems[i]) == elem
    case ASet(elem, elems) => AllWellFormed(elems) && forall i :: 0 <= i < |elems| ==> TypeOf(elems[i]) == elem
    case AMap(key, val, entries) => AllWellFormed(entries) && Alternate(key, val, entries)
    case _ => true
  }

  predicate Alternate(key: TType, val: TType, entries: seq<Any>) {
    |entries| % 2 == 0 &&
    forall i :: 0 <= i < |entries| ==> TypeOf(entries[i]) == if i % 2 == 0 then key else val
  }

  function Max(a: nat, b: nat): nat {
    if a >= b then a else b
  }

  /** Levels of nesting; a scalar has one. */
  function Depth(a: Any): (n: nat)
    ensures n >= 1
    decreases a
  {
    match a
    case AStruct(_, fields) => 1 + AllDepth(fields)
    case AList(_, elems) => 1 + AllDepth(elems)
    case ASet(_, elems) => 1 + AllDepth(elems)
    case AMap(_, _, entries) => 1 + AllDepth(entries)
    case _ => 1
  }

  function AllDepth(vals: seq<Any>): nat
    decreases vals
  {
    if vals == [] then 0 else Max(Depth(vals[0]), AllDepth(vals[1..]))
  }

  function WriteAny(a: Any): Tokens
    requires WellFormed(a)
    decreases a
  {
    match a
    case ABool(b) => [Bool(b)]
    case AInt64(n) => [Int64(n)]
    case AStr(s) => [Str(s)]
    case ANumber(num, n) => [Number(num, n)]
    case AStruct(ids, fields) => [StructBegin] + WriteAnyFields(ids, fields) + [FieldStop, StructEnd]
    case AList(elem, elems) => [ListBegin(elem, |elems|)] + WriteAnys(elems) + [ListEnd]
    case ASet(elem, elems) => [SetBegin(elem, |elems|)] + WriteAnys(elems) + [SetEnd]
    case AMap(key, val, entries) => [MapBegin(key, val, |entries| / 2)] + WriteAnys(entries) + [MapEnd]
  }

  function WriteAnyFields(ids: seq<int>, fields: seq<Any>): Tokens
    requires |ids| == |fields| && AllWellFormed(fields)
    decreases fields
  {
    if fields == [] then []
    else [FieldBegin(TypeOf(fields[0]), ids[0])] + WriteAny(fields[0]) + [FieldEnd]
         + WriteAnyFields(ids[1..], fields[1..])
  }

  function WriteAnys(vals: seq<Any>): Tokens
    requires AllWellFormed(vals)
    decreases vals
  {
    if vals == [] then [] else WriteAny(vals[0]) + WriteAnys(vals[1..])
  }

  // ---- skipping -----------------------------------------------------------------------------

  /** Skip passes over exactly one written value if the value is not nested deeper than the limit, and
      fails otherwise, whatever follows. */
  lemma {:induction false} SkipExactly(a: Any, k: Tokens, depth: nat)
    requires WellFormed(a)
    ensures Skip(TypeOf(a), WriteAny(a) + k, depth) == if Depth(a) <= depth then Some(k) else None
    decreases a, 1
  {
    match a
    case AStruct(_, _) => SkipStructExactly(a, k, depth);
    case AList(_, _) => SkipListExactly(a, k, depth);
    case ASet(_, _) => SkipSetExactly(a, k, depth);
    case AMap(_, _, _) => SkipMapExactly(a, k, depth);
    case _ => assert (WriteAny(a) + k)[1..] == k;
  }

  lemma {:induction false} SkipStructExactly(a: Any, k: Tokens, depth: nat)
    requires WellFormed(a) && a.AStruct?
    ensures Skip(STRUCT, WriteAny(a) + k, depth) == if Depth(a) <= depth then Some(k) else None
    decreases a, 0
  {
    hide SkipFields;
    assert (WriteAny(a) + k)[1..] == WriteAnyFields(a.ids, a.fields) + ([FieldStop, StructEnd] + k);
    if depth > 0 {
      SkipFieldsExactly(a.ids, a.fields, k, depth - 1);
    }
  }

  lemma {:induction false} SkipListExactly(a: Any, k: Tokens, depth: nat)
    requires WellFormed(a) && a.AList?
    ensures Skip(LIST, WriteAny(a) + k, depth) == if Depth(a) <= depth then Some(k) else None
    decreases a, 0
  {
    hide SkipElements;
    assert (WriteAny(a) + k)[1..] == WriteAnys(a.elems) + ([ListEnd] + k);
    Tail(ListEnd, k);
    if depth > 0 {
      SkipElementsExactly(a.elem, a.elems, [ListEnd] + k, depth - 1);
    }
  }

  lemma {:induction false} SkipSetExactly(a: Any, k: Tokens, depth: nat)
    requires WellFormed(a) && a.ASet?
    ensures Skip(SET, WriteAny(a) + k, depth) == if Depth(a) <= depth then Some(k) else None
    decreases a, 0
  {
    hide SkipElements;
    assert (WriteAny(a) + k)[1..] == WriteAnys(a.elems) + ([SetEnd] + k);
    Tail(SetEnd, k);
    if depth > 0 {
      SkipElementsExactly(a.elem, a.elems, [SetEnd] + k, depth - 1);
    }
  }

  lemma {:induction false} SkipMapExactly(a: Any, k: Tokens, depth: nat)
    requires WellFormed(a) && a.AMap?
    ensures Skip(MAP, WriteAny(a) + k, depth) == if Depth(a) <= depth then Some(k) else None
    decreases a, 0
  {
    hide SkipPairs;
    assert (WriteAny(a) + k)[1..] == WriteAnys(a.entries) + ([MapEnd] + k);
    Tail(MapEnd, k);
    if depth > 0 {
      SkipPairsExactly(a.key, a.val, a.entries, [MapEnd] + k, depth - 1);
    }
  }

  /** One round of the field loop. */
  lemma SkipFieldsStep(ty: TType, id: int, body: Tokens, rest: Tokens, depth: nat)
    requires ty != STOP
    requires Skip(ty, body, depth).None? || Skip(ty, body, depth) == Some([FieldEnd] + rest)
    ensures SkipFields([FieldBegin(ty, id)] + body, depth)
         == if Skip(ty, body, depth).None? then None else SkipFields(rest, depth)
  {
    var toks := [FieldBegin(ty, id)] + body;
    assert toks[1..] == body && ([FieldEnd] + rest)[1..] == rest;
  }

  lemma SkipFieldsEnd(k: Tokens, depth: nat)
    ensures SkipFields([FieldStop, StructEnd] + k, depth) == Some(k)
  {
    var end := [FieldStop, StructEnd] + k;
    assert end[1..] == [StructEnd] + k;
    Tail(StructEnd, k);
  }

  lemma {:induction false} SkipFieldsExactly(ids: seq<int>, fields: seq<Any>, k: Tokens, depth: nat)
    requires |ids| == |fields| && AllWellFormed(fields)
    ensures SkipFields(WriteAnyFields(ids, fields) + ([FieldStop, StructEnd] + k), depth)
         == if AllDepth(fields) <= depth then Some(k) else None
    decreases fields, 0
  {
    hide Skip, SkipFields;
    var end := [FieldStop, StructEnd] + k;
    if fields == [] {
      assert WriteAnyFields(ids, fields) + end == end;
      SkipFieldsEnd(k, depth);
    } else {
      var f, more := fields[0], WriteAnyFields(ids[1..], fields[1..]);
      var header, rest := FieldBegin(TypeOf(f), ids[0]), more + end;
      SkipExactly(f, [FieldEnd] + rest, depth);
      SkipFieldsStep(TypeOf(f), ids[0], WriteAny(f) + ([FieldEnd] + rest), rest, depth);
      SkipFieldsExactly(ids[1..], fields[1..], k, depth);
      assert WriteAnyFields(ids, fields) == [header] + WriteAny(f) + [FieldEnd] + more;
      hide WriteAny, WriteAnyFields;
      Assoc([header] + WriteAny(f) + [FieldEnd], more, end);
      Assoc([header] + WriteAny(f), [FieldEnd], rest);
      Assoc([header], WriteAny(f), [FieldEnd] + rest);
    }
  }

  lemma {:induction false} SkipElementsExactly(elem: TType, elems: seq<Any>, k: Tokens, depth: nat)
    requires AllWellFormed(elems) && forall i :: 0 <= i < |elems| ==> TypeOf(elems[i]) == elem
    ensures SkipElements(elem, |elems|, WriteAnys(elems) + k, depth)
         == if AllDepth(elems) <= depth then Some(k) else None
    decreases elems, 0
  {
    if elems == [] {
      assert WriteAnys(elems) + k == k;
    } else {
      var rest := WriteAnys(elems[1..]) + k;
      assert WriteAnys(elems) + k == WriteAny(elems[0]) + rest;
      SkipExactly(elems[0], rest, depth);
      SkipElementsExactly(elem, elems[1..], k, depth);
    }
  }

  lemma EntryKinds(key: TType, val: TType, entries: seq<Any>)
    requires entries != [] && AllWellFormed(entries) && Alternate(key, val, entries)
    ensures |entries| >= 2 && WellFormed(entries[0]) && WellFormed(entries[1])
    ensures TypeOf(entries[0]) == key && TypeOf(entries[1]) == val
    ensures AllWellFormed(entries[2..]) && Alternate(key, val, entries[2..])
  {
    hide WellFormed, TypeOf;
  }

  lemma TwoEntries(entries: seq<Any>)
    requires |entries| >= 2 && AllWellFormed(entries) && AllWellFormed(entries[2..])
    requires WellFormed(entries[0]) && WellFormed(entries[1])
    ensures WriteAnys(entries) == WriteAny(entries[0]) + (WriteAny(entries[1]) + WriteAnys(entries[2..]))
    ensures AllDepth(entries) == Max(Depth(entries[0]), Max(Depth(entries[1]), AllDepth(entries[2..])))
  {
    hide WriteAny, WellFormed, Depth;
    assert entries[1..][0] == entries[1] && entries[1..][1..] == entries[2..];
    assert AllWellFormed(entries[1..]);
  }

  lemma {:induction false} SkipPairsExactly(key: TType, val: TType, entries: seq<Any>, k: Tokens, depth: nat)
    requires AllWellFormed(entries) && Alternate(key, val, entries)
    ensures SkipPairs(key, val, |entries| / 2, WriteAnys(entries) + k, depth)
         == if AllDepth(entries) <= depth then Some(k) else None
    decreases entries, 0
  {
    hide Skip;
    if entries == [] {
      assert WriteAnys(entries) + k == k;
    } else {
      EntryKinds(key, val, entries);
      var e, f, tail := entries[0], entries[1], entries[2..];
      TwoEntries(entries);
      hide WriteAnys, WriteAny, AllDepth, Depth, AllWellFormed, WellFormed, Alternate;
      var rest := WriteAnys(tail) + k;
      Assoc(WriteAny(e), WriteAny(f) + WriteAnys(tail), k);
      Assoc(WriteAny(f), WriteAnys(tail), k);
      SkipExactly(e, WriteAny(f) + rest, depth);
      SkipExactly(f, rest, depth);
      SkipPairsExactly(key, val, tail, k, depth);
    }
  }
}
