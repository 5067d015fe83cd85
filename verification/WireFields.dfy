/** Struct bodies field by field: inserting foreign fields and permuting fields changes nothing. */
module WireFields {
  import opened Prelude
  import opened Protocol
  import opened Codec

  /** A field on the wire: its header, its payload, and the value its payload decodes to if the reader
      knows the field. */
  datatype Wire = Wire(ty: TType, id: int, payload: Tokens, v: Val)

  function Encode(ws: seq<Wire>): Tokens {
    if ws == [] then [] else EncodeOne(ws[0]) + Encode(ws[1..])
  }

  function EncodeOne(w: Wire): Tokens {
    [FieldBegin(w.ty, w.id)] + w.payload + [FieldEnd]
  }

  function Body(ws: seq<Wire>): Tokens {
    [StructBegin] + Encode(ws) + [FieldStop, StructEnd]
  }

  /** The field is known to the reader. */
  predicate IsKnown(s: Schema, w: Wire) {
    Known(s, w.ty, w.id)
  }

  /** The payload is one complete value: the reader reads it if it knows the field, and can skip it if
      it does not. */
  ghost predicate Complete(depth: nat, s: Schema, w: Wire) {
    w.ty != STOP &&
    if IsKnown(s, w) then
      forall k :: Read(depth, s.fields[IndexOf(s, w.id, 0)].ty, w.payload + k) == Ok(w.v, k)
    else
      forall k :: Skip(w.ty, w.payload + k, depth) == Some(k)
  }

  ghost predicate AllComplete(depth: nat, s: Schema, ws: seq<Wire>) {
    forall i :: 0 <= i < |ws| ==> Complete(depth, s, ws[i])
  }

  function Assign(s: Schema, acc: seq<Val>, w: Wire): (r: seq<Val>)
    requires |acc| == |s.fields|
    ensures |r| == |acc|
  {
    if IsKnown(s, w) then acc[IndexOf(s, w.id, 0) := w.v] else acc
  }

  function AssignAll(s: Schema, acc: seq<Val>, ws: seq<Wire>): (r: seq<Val>)
    requires |acc| == |s.fields|
    ensures |r| == |acc|
    decreases |ws|
  {
    if ws == [] then acc else AssignAll(s, Assign(s, acc, ws[0]), ws[1..])
  }

  lemma ReadsOne(depth: nat, s: Schema, acc: seq<Val>, w: Wire, rest: Tokens)
    requires |acc| == |s.fields| && Complete(depth, s, w)
    ensures ReadFields(depth, s, acc, EncodeOne(w) + rest) == ReadFields(depth, s, Assign(s, acc, w), rest)
  {
    var header, body := FieldBegin(w.ty, w.id), w.payload + ([FieldEnd] + rest);
    Tail(FieldEnd, rest);
    assert ReadOne(depth, s, acc, w.ty, w.id, body) == Ok(VStruct(Assign(s, acc, w)), rest);
    hide *;
    ReadFieldsStep(depth, s, acc, w.ty, w.id, body, Assign(s, acc, w), rest);
    OneInFront(w, rest);
  }

  lemma OneInFront(w: Wire, rest: Tokens)
    ensures EncodeOne(w) + rest == [FieldBegin(w.ty, w.id)] + (w.payload + ([FieldEnd] + rest))
  {
    Assoc([FieldBegin(w.ty, w.id)] + w.payload, [FieldEnd], rest);
    Assoc([FieldBegin(w.ty, w.id)], w.payload, [FieldEnd] + rest);
  }

  /** A struct body decodes to the assignments of its known fields, in order. */
  lemma {:induction false} ReadsBody(depth: nat, s: Schema, acc: seq<Val>, ws: seq<Wire>, k: Tokens)
    requires |acc| == |s.fields| && AllComplete(depth, s, ws)
    ensures ReadFields(depth, s, acc, Encode(ws) + ([FieldStop, StructEnd] + k))
         == Ok(VStruct(AssignAll(s, acc, ws)), k)
    decreases |ws|
  {
    hide ReadFields, EncodeOne, Complete, Assign;
    var end := [FieldStop, StructEnd] + k;
    if ws == [] {
      assert Encode(ws) + end == end;
      FieldsEnd(depth, s, acc, k);
    } else {
      Assoc(EncodeOne(ws[0]), Encode(ws[1..]), end);
      ReadsOne(depth, s, acc, ws[0], Encode(ws[1..]) + end);
      ReadsBody(depth, s, Assign(s, acc, ws[0]), ws[1..], k);
    }
  }

  lemma ReadsStruct(depth: nat, s: Schema, ws: seq<Wire>, k: Tokens)
    requires AllComplete(depth, s, ws)
    ensures Read(depth, TStruct(s), Body(ws) + k) == Ok(VStruct(AssignAll(s, Zeros(s), ws)), k)
  {
    assert (Body(ws) + k)[1..] == Encode(ws) + ([FieldStop, StructEnd] + k);
    ReadsBody(depth, s, Zeros(s), ws, k);
  }

  // ---- insertion ----------------------------------------------------------------------------

  lemma {:induction false} ForeignIsIgnored(s: Schema, acc: seq<Val>, before: seq<Wire>, w: Wire, after: seq<Wire>)
    requires |acc| == |s.fields| && !IsKnown(s, w)
    ensures AssignAll(s, acc, before + [w] + after) == AssignAll(s, acc, before + after)
    decreases |before|
  {
    if before == [] {
      assert ([] + [w] + after)[1..] == after && [] + after == after;
    } else {
      ForeignIsIgnored(s, Assign(s, acc, before[0]), before[1..], w, after);
      assert (before + [w] + after)[1..] == before[1..] + [w] + after;
      assert (before + after)[1..] == before[1..] + after;
    }
  }

  /** A field with an unknown id or another type, carrying any well-formed value that is not nested too
      deep for Skip. */
  ghost predicate Foreign(depth: nat, s: Schema, w: Wire) {
    !IsKnown(s, w) && exists a :: WellFormed(a) && Depth(a) <= depth && TypeOf(a) == w.ty && w.payload == WriteAny(a)
  }

  lemma ForeignIsComplete(depth: nat, s: Schema, w: Wire)
    requires Foreign(depth, s, w)
    ensures Complete(depth, s, w)
  {
    var a :| WellFormed(a) && Depth(a) <= depth && TypeOf(a) == w.ty && w.payload == WriteAny(a);
    forall k ensures Skip(w.ty, w.payload + k, depth) == Some(k) {
      SkipExactly(a, k, depth);
    }
  }

  /** Inserting a foreign field at any position leaves the decoded struct unchanged. */
  lemma InsertionIsHarmless(depth: nat, s: Schema, before: seq<Wire>, w: Wire, after: seq<Wire>, k: Tokens)
    requires AllComplete(depth, s, before + after) && Foreign(depth, s, w)
    ensures Read(depth, TStruct(s), Body(before + [w] + after) + k) == Read(depth, TStruct(s), Body(before + after) + k)
  {
    ForeignIsComplete(depth, s, w);
    var ws := before + [w] + after;
    forall i | 0 <= i < |ws| ensures Complete(depth, s, ws[i]) {
      if i < |before| { assert ws[i] == (before + after)[i]; }
      else if i > |before| { assert ws[i] == (before + after)[i - 1]; }
    }
    ReadsStruct(depth, s, ws, k);
    ReadsStruct(depth, s, before + after, k);
    ForeignIsIgnored(s, Zeros(s), before, w, after);
  }

  // ---- permutation --------------------------------------------------------------------------

  /** No two known fields have the same id. */
  ghost predicate DistinctKnown(s: Schema, ws: seq<Wire>) {
    forall i, j :: 0 <= i < j < |ws| && IsKnown(s, ws[i]) && IsKnown(s, ws[j]) ==> ws[i].id != ws[j].id
  }

  /** The wire field that decides field `n` of the struct. */
  predicate Decides(s: Schema, w: Wire, n: nat) {
    IsKnown(s, w) && IndexOf(s, w.id, 0) == n
  }

  lemma {:induction false} AssignedBy(s: Schema, acc: seq<Val>, ws: seq<Wire>, n: nat)
    requires |acc| == |s.fields| && n < |acc| && DistinctKnown(s, ws)
    ensures forall w :: w in ws && Decides(s, w, n) ==> AssignAll(s, acc, ws)[n] == w.v
    ensures (forall w :: w in ws ==> !Decides(s, w, n)) ==> AssignAll(s, acc, ws)[n] == acc[n]
    decreases |ws|
  {
    if ws != [] {
      var rest := ws[1..];
      assert ws == [ws[0]] + rest;
      assert DistinctKnown(s, rest);
      AssignedBy(s, Assign(s, acc, ws[0]), rest, n);
      if Decides(s, ws[0], n) {
        forall w | w in rest ensures !Decides(s, w, n) {
          var j :| 0 <= j < |rest| && rest[j] == w;
          assert ws[j + 1] == w;
        }
      }
    }
  }

  lemma SameMembers(ws: seq<Wire>, ws': seq<Wire>)
    requires multiset(ws) == multiset(ws')
    ensures forall w :: w in ws' <==> w in ws
  {
    forall w ensures w in ws' <==> w in ws {
      assert w in ws <==> multiset(ws)[w] > 0;
      assert w in ws' <==> multiset(ws')[w] > 0;
    }
  }

  /** Two places with one element count it twice, and the other way round. */
  lemma TwoPlaces(ws: seq<Wire>, i: nat, j: nat)
    requires i < j < |ws| && ws[i] == ws[j]
    ensures multiset(ws)[ws[i]] >= 2
  {
    assert ws == ws[..j] + ws[j..];
    assert ws[i] in ws[..j] && ws[j] in ws[j..];
  }

  lemma CountedTwice(ws: seq<Wire>, x: Wire) returns (i: nat, j: nat)
    requires multiset(ws)[x] >= 2
    ensures i < j < |ws| && ws[i] == x == ws[j]
  {
    assert x in multiset(ws);
    i :| i < |ws| && ws[i] == x;
    assert ws == ws[..i] + [x] + ws[i + 1..];
    if x in ws[..i] {
      j := i;
      i :| i < |ws[..j]| && ws[..j][i] == x;
    } else {
      assert x in ws[i + 1..];
      var n :| 0 <= n < |ws[i + 1..]| && ws[i + 1..][n] == x;
      j := i + 1 + n;
    }
  }

  /** Distinctness of the known ids does not depend on the order. */
  lemma PermutedDistinct(s: Schema, ws: seq<Wire>, ws': seq<Wire>)
    requires DistinctKnown(s, ws) && multiset(ws') == multiset(ws)
    ensures DistinctKnown(s, ws')
  {
    SameMembers(ws, ws');
    forall i, j | 0 <= i < j < |ws'| && IsKnown(s, ws'[i]) && IsKnown(s, ws'[j])
      ensures ws'[i].id != ws'[j].id
    {
      if ws'[i] == ws'[j] {
        TwoPlaces(ws', i, j);
        var m, n := CountedTwice(ws, ws'[i]);
      } else {
        assert ws'[i] in ws && ws'[j] in ws;
      }
    }
  }

  lemma PermutedAssignments(s: Schema, acc: seq<Val>, ws: seq<Wire>, ws': seq<Wire>)
    requires |acc| == |s.fields| && DistinctKnown(s, ws) && DistinctKnown(s, ws')
    requires forall w :: w in ws' <==> w in ws
    ensures AssignAll(s, acc, ws') == AssignAll(s, acc, ws)
  {
    var a, a' := AssignAll(s, acc, ws), AssignAll(s, acc, ws');
    forall n | 0 <= n < |a| ensures a[n] == a'[n] {
      AssignedBy(s, acc, ws, n);
      AssignedBy(s, acc, ws', n);
      hide AssignAll, DistinctKnown;
      if w :| w in ws && Decides(s, w, n) {
        assert w in ws';
      }
    }
  }

  /** Permuting the fields of a struct body, known and foreign alike, leaves the decoded struct
      unchanged if no known id repeats. */
  lemma PermutationIsHarmless(depth: nat, s: Schema, ws: seq<Wire>, ws': seq<Wire>, k: Tokens)
    requires AllComplete(depth, s, ws) && DistinctKnown(s, ws) && multiset(ws') == multiset(ws)
    ensures Read(depth, TStruct(s), Body(ws') + k) == Read(depth, TStruct(s), Body(ws) + k)
  {
    PermutedDistinct(s, ws, ws');
    SameMembers(ws, ws');
    assert AllComplete(depth, s, ws') by {
      forall i | 0 <= i < |ws'| ensures Complete(depth, s, ws'[i]) {
        assert ws'[i] in ws;
      }
    }
    hide DistinctKnown;
    ReadsStruct(depth, s, ws, k);
    ReadsStruct(depth, s, ws', k);
    assert DistinctKnown(s, ws) && DistinctKnown(s, ws');
    PermutedAssignments(s, Zeros(s), ws, ws');
  }

  // ---- what Write emits is such a body ------------------------------------------------------

  /** The wire of one field, if it is written. */
  function WireOf(v: Val, f: Field): (ws: seq<Wire>)
    requires HasType(v, f.ty)
    ensures |ws| <= 1
  {
    if f.optional && v.VNil? then [] else [Wire(Tag(f.ty), f.id, Write(v, f.ty), Norm(v, f.ty))]
  }

  function WiresFrom(vs: seq<Val>, s: Schema, i: nat): seq<Wire>
    requires |vs| == |s.fields| && forall k :: 0 <= k < |vs| ==> HasType(vs[k], s.fields[k].ty)
    requires i <= |vs|
    decreases |vs| - i
  {
    if i == |vs| then [] else WireOf(vs[i], s.fields[i]) + WiresFrom(vs, s, i + 1)
  }

  lemma WireOfEncodes(v: Val, f: Field)
    requires HasType(v, f.ty)
    ensures Encode(WireOf(v, f)) == WriteField(v, f)
  {
    if !(f.optional && v.VNil?) {
      var w := Wire(Tag(f.ty), f.id, Write(v, f.ty), Norm(v, f.ty));
      assert [w][1..] == [] && EncodeOne(w) + [] == EncodeOne(w);
    }
  }

  lemma EncodeAppend(head: seq<Wire>, rest: seq<Wire>)
    requires |head| <= 1
    ensures Encode(head + rest) == Encode(head) + Encode(rest)
  {
    if head == [] {
      assert head + rest == rest && [] + Encode(rest) == Encode(rest);
    } else {
      assert (head + rest)[1..] == rest && head[1..] == [];
      assert EncodeOne(head[0]) + [] == EncodeOne(head[0]);
    }
  }

  lemma {:induction false} WiresEncode(vs: seq<Val>, s: Schema, i: nat)
    requires |vs| == |s.fields| && forall k :: 0 <= k < |vs| ==> HasType(vs[k], s.fields[k].ty)
    requires i <= |vs|
    ensures Encode(WiresFrom(vs, s, i)) == WriteFields(vs, s, i)
    decreases |vs| - i
  {
    hide Encode, WireOf, WriteField, HasType;
    if i == |vs| {
      assert Encode([]) == [] by { NothingEncodes(); }
    } else {
      WiresEncode(vs, s, i + 1);
      WireOfEncodes(vs[i], s.fields[i]);
      EncodeAppend(WireOf(vs[i], s.fields[i]), WiresFrom(vs, s, i + 1));
    }
  }

  lemma NothingEncodes()
    ensures Encode([]) == []
  {
  }

  lemma WireComplete(depth: nat, v: Val, s: Schema, i: nat)
    requires i < |s.fields| && HasType(v, s.fields[i].ty) && ValidType(TStruct(s))
    ensures var f := s.fields[i];
            Complete(depth, s, Wire(Tag(f.ty), f.id, Write(v, f.ty), Norm(v, f.ty)))
  {
    var f := s.fields[i];
    IndexOfField(s, i);
    forall k ensures Read(depth, f.ty, Write(v, f.ty) + k) == Ok(Norm(v, f.ty), k) {
      RoundTrip(depth, v, f.ty, k);
    }
  }

  lemma {:induction false} WiresComplete(depth: nat, vs: seq<Val>, s: Schema, i: nat)
    requires |vs| == |s.fields| && forall k :: 0 <= k < |vs| ==> HasType(vs[k], s.fields[k].ty)
    requires i <= |vs| && ValidType(TStruct(s))
    ensures AllComplete(depth, s, WiresFrom(vs, s, i))
    decreases |vs| - i
  {
    if i < |vs| {
      WiresComplete(depth, vs, s, i + 1);
      WireComplete(depth, vs[i], s, i);
      hide Complete;
    }
  }

  /** The id belongs to field i or a later one. */
  predicate IdFrom(s: Schema, i: nat, id: int) {
    exists n :: i <= n < |s.fields| && s.fields[n].id == id
  }

  lemma {:induction false} WiresDistinct(vs: seq<Val>, s: Schema, i: nat)
    requires |vs| == |s.fields| && forall k :: 0 <= k < |vs| ==> HasType(vs[k], s.fields[k].ty)
    requires i <= |vs| && ValidType(TStruct(s))
    ensures forall j :: 0 <= j < |WiresFrom(vs, s, i)| ==> IdFrom(s, i, WiresFrom(vs, s, i)[j].id)
    ensures DistinctKnown(s, WiresFrom(vs, s, i))
    decreases |vs| - i
  {
    if i < |vs| {
      hide HasType, IsKnown;
      var head, tail := WireOf(vs[i], s.fields[i]), WiresFrom(vs, s, i + 1);
      WiresDistinct(vs, s, i + 1);
      assert head != [] ==> head[0].id == s.fields[i].id;
      hide WireOf, WiresFrom;
      forall j | 0 <= j < |head + tail| ensures IdFrom(s, i, (head + tail)[j].id) {
        assert (head + tail)[j] == if j < |head| then head[j] else tail[j - |head|];
      }
      forall j | 0 <= j < |tail| ensures tail[j].id != s.fields[i].id {
        assert IdFrom(s, i + 1, tail[j].id);
      }
      OneMoreDistinct(s, head, tail);
    }
  }

  lemma OneMoreDistinct(s: Schema, head: seq<Wire>, tail: seq<Wire>)
    requires |head| <= 1 && DistinctKnown(s, tail)
    requires head != [] ==> forall j :: 0 <= j < |tail| ==> tail[j].id != head[0].id
    ensures DistinctKnown(s, head + tail)
  {
    hide IsKnown;
  }

  lemma WrittenWires(depth: nat, vs: seq<Val>, s: Schema)
    requires |vs| == |s.fields| && forall k :: 0 <= k < |vs| ==> HasType(vs[k], s.fields[k].ty)
    requires ValidType(TStruct(s))
    ensures var ws := WiresFrom(vs, s, 0);
            Write(VStruct(vs), TStruct(s)) == Body(ws) && AllComplete(depth, s, ws) && DistinctKnown(s, ws)
  {
    WiresEncode(vs, s, 0);
    WiresComplete(depth, vs, s, 0);
    WiresDistinct(vs, s, 0);
  }

  /** A foreign field inserted anywhere between the fields that Write emits is not noticed by Read. */
  lemma WrittenStructTolerates(depth: nat, vs: seq<Val>, s: Schema, at: nat, w: Wire, k: Tokens)
    requires HasType(VStruct(vs), TStruct(s)) && ValidType(TStruct(s)) && Foreign(depth, s, w)
    requires at <= |WiresFrom(vs, s, 0)|
    ensures var ws := WiresFrom(vs, s, 0);
            && Write(VStruct(vs), TStruct(s)) == Body(ws)
            && Read(depth, TStruct(s), Body(ws[..at] + [w] + ws[at..]) + k) == Ok(Norm(VStruct(vs), TStruct(s)), k)
  {
    hide Complete, Foreign, Read, Norm, ValidType, DistinctKnown, WiresFrom, Body;
    var ws := WiresFrom(vs, s, 0);
    hide HasType;
    WrittenWires(depth, vs, s);
    assert ws[..at] + ws[at..] == ws;
    InsertionIsHarmless(depth, s, ws[..at], w, ws[at..], k);
    RoundTrip(depth, VStruct(vs), TStruct(s), k);
  }

  /** The fields that Write emits may arrive in any order. */
  lemma WrittenStructPermutes(depth: nat, vs: seq<Val>, s: Schema, ws': seq<Wire>, k: Tokens)
    requires HasType(VStruct(vs), TStruct(s)) && ValidType(TStruct(s))
    requires multiset(ws') == multiset(WiresFrom(vs, s, 0))
    ensures Read(depth, TStruct(s), Body(ws') + k) == Ok(Norm(VStruct(vs), TStruct(s)), k)
  {
    var ws := WiresFrom(vs, s, 0);
    WrittenWires(depth, vs, s);
    PermutationIsHarmless(depth, s, ws, ws', k);
    RoundTrip(depth, VStruct(vs), TStruct(s), k);
  }
}
