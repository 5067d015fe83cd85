/** Whatever bytes are read or skipped successfully come from tokens that are read or skipped alike. */
module BinaryOrigin {
  import opened Prelude
  import opened Protocol
  import opened Codec
  import opened BinaryProtocol
  import opened BinaryCodec

  // ---- bytes of tokens, loosely ---------------------------------------------------------------------

  /** The bytes stand for the token: its encoding, except that any byte but 1 is false, and that a list may name
      another element type. */
  predicate StandsFor(t: Token, bs: Bytes) {
    match t
    case Bool(b) => |bs| == 1 && b == (bs[0] == 1)
    case ListBegin(_, size) => |bs| == 5 && bs[1..] == Int(4, size)
    case _ => bs == Enc(t)
  }

  /** The bytes stand for the tokens, one after another. */
  predicate StandFor(toks: Tokens, bs: Bytes) {
    if toks == [] then bs == []
    else
      var n := |Enc(toks[0])|;
      n <= |bs| && StandsFor(toks[0], bs[..n]) && StandFor(toks[1..], bs[n..])
  }

  lemma EncStandsFor(t: Token)
    ensures StandsFor(t, Enc(t))
  {
    if t.ListBegin? {
      assert Enc(t)[1..] == Int(4, t.size);
    }
  }

  lemma OneStandsFor(t: Token, bs: Bytes)
    requires StandsFor(t, bs)
    ensures StandFor([t], bs)
  {
    assert |bs| == |Enc(t)|;
    assert bs[..|bs|] == bs && bs[|bs|..] == [] && [t][1..] == [];
  }

  lemma {:induction false} StandConcat(a: Tokens, x: Bytes, b: Tokens, y: Bytes)
    requires StandFor(a, x) && StandFor(b, y)
    ensures StandFor(a + b, x + y)
    decreases |a|
  {
    hide StandsFor, Enc;
    if a == [] {
      assert a + b == b && x + y == y;
    } else {
      var n := |Enc(a[0])|;
      StandConcat(a[1..], x[n..], b, y);
      assert (a + b)[0] == a[0] && (a + b)[1..] == a[1..] + b;
      assert (x + y)[..n] == x[..n] && (x + y)[n..] == x[n..] + y;
    }
  }

  // ---- numbers and strings ---------------------------------------------------------------------------

  lemma {:induction false} UnsignedBytes(bs: Bytes)
    ensures Unsigned(bs) < Pow(|bs|) && Int(|bs|, Unsigned(bs)) == bs
    decreases |bs|
  {
    if bs != [] {
      var init, last := bs[..|bs| - 1], bs[|bs| - 1];
      UnsignedBytes(init);
      var u := Unsigned(init) * 256 + last;
      assert u / 256 == Unsigned(init) && u % 256 == last;
      assert bs == init + [last];
    }
  }

  lemma {:induction false} IntWraps(w: nat, n: int)
    ensures Int(w, n - Pow(w)) == Int(w, n)
    decreases w
  {
    if w > 0 {
      assert (n - Pow(w)) / 256 == n / 256 - Pow(w - 1) && (n - Pow(w)) % 256 == n % 256;
      IntWraps(w - 1, n / 256);
    }
  }

  lemma IntOrigin(w: nat, bs: Bytes)
    requires w > 0 && TakeInt(w, bs).Some?
    ensures var (n, rest) := TakeInt(w, bs).value; InRange(w, n) && bs == Int(w, n) + rest
  {
    var u := Unsigned(bs[..w]);
    UnsignedBytes(bs[..w]);
    IntWraps(w, u);
    assert bs == bs[..w] + bs[w..];
    hide Int, Unsigned;
  }

  lemma BytesBack(bs: Bytes)
    ensures |BytesStr(bs)| == |bs|
    ensures IsBytes(BytesStr(bs)) && StrBytes(BytesStr(bs)) == bs
  {
    forall i | 0 <= i < |bs| ensures StrBytes(BytesStr(bs))[i] == bs[i] {
      assert BytesStr(bs)[i] as int == bs[i];
    }
  }

  lemma StrParts(bs: Bytes)
    requires TakeStr(bs).Some?
    ensures TakeInt(4, bs).Some?
    ensures var (n, rest) := TakeInt(4, bs).value;
            0 <= n <= |rest| && TakeStr(bs) == Some((BytesStr(rest[..n]), rest[n..]))
  {
  }

  lemma StrOrigin(bs: Bytes)
    requires TakeStr(bs).Some?
    ensures var (s, rest) := TakeStr(bs).value;
            IsBytes(s) && InRange(4, |s|) && bs == Int(4, |s|) + StrBytes(s) + rest
  {
    hide Int, TakeInt, InRange, TakeStr, IsBytes;
    StrParts(bs);
    IntOrigin(4, bs);
    var (n, rest) := TakeInt(4, bs).value;
    var s := BytesStr(rest[..n]);
    BytesBack(rest[..n]);
    hide BytesStr, StrBytes;
    assert |s| == n && rest == StrBytes(s) + rest[n..];
    Assoc(Int(4, n), StrBytes(s), rest[n..]);
  }

  // ---- Skip -------------------------------------------------------------------------------------------

  /** These tokens are what the first `|bs| - |rest|` bytes stand for. */
  predicate Used(toks: Tokens, bs: Bytes, rest: Bytes) {
    AllFit(toks) && |rest| <= |bs| && bs == bs[..|bs| - |rest|] + rest && StandFor(toks, bs[..|bs| - |rest|])
  }

  lemma UsedOne(t: Token, head: Bytes, rest: Bytes)
    requires Fits(t) && StandsFor(t, head)
    ensures Used([t], head + rest, rest)
  {
    OneStandsFor(t, head);
    assert (head + rest)[..|head|] == head;
  }

  lemma UsedThen(a: Tokens, b: Tokens, bs: Bytes, mid: Bytes, rest: Bytes)
    requires Used(a, bs, mid) && Used(b, mid, rest)
    ensures Used(a + b, bs, rest)
  {
    var x, y := bs[..|bs| - |mid|], mid[..|mid| - |rest|];
    StandConcat(a, x, b, y);
    Assoc(x, y, rest);
    assert (x + y + rest)[..|x + y|] == x + y;
    hide StandFor;
  }

  /** Tokens that take no bytes. */
  lemma UsedNone(t: Token, bs: Bytes)
    requires Enc(t) == [] && Fits(t)
    ensures Used([t], bs, bs)
  {
    assert StandsFor(t, []);
    UsedOne(t, [], bs);
    assert [] + bs == bs;
  }

  lemma UsedNothing(bs: Bytes)
    ensures Used([], bs, bs)
  {
    assert bs[..0] == [] && [] + bs == bs;
  }

  lemma NothingBefore()
    ensures forall k: Tokens :: [] + k == k
  {
  }

  /** The tokens are skipped, whatever follows. */
  ghost predicate Skips(ty: TType, toks: Tokens, depth: nat) {
    forall k :: Skip(ty, toks + k, depth) == Some(k)
  }

  lemma {:induction false} SkipOrigin(ty: TType, bs: Bytes, depth: nat) returns (toks: Tokens)
    requires SkipBytes(ty, bs, depth).Some?
    ensures Used(toks, bs, SkipBytes(ty, bs, depth).value) && Skips(ty, toks, depth)
    decreases depth, |bs|, 0, 0
  {
    hide Used;
    if ty == STOP {
      toks := [];
      UsedNothing(bs);
      NothingBefore();
    } else if ty == STRUCT {
      toks := SkipStructOrigin(bs, depth);
    } else if ty == LIST || ty == SET {
      toks := SkipListOrigin(ty, bs, depth);
    } else if ty == MAP {
      toks := SkipMapOrigin(bs, depth);
    } else {
      toks := SkipScalarOrigin(ty, bs, depth);
    }
  }

  lemma SkipScalarOrigin(ty: TType, bs: Bytes, depth: nat) returns (toks: Tokens)
    requires SkipBytes(ty, bs, depth).Some? && ty in {BOOL, BYTE, I16, I32, I64, DOUBLE, STRING}
    ensures Used(toks, bs, SkipBytes(ty, bs, depth).value) && Skips(ty, toks, depth)
  {
    var t, rest := ScalarOrigin(ty, bs);
    toks := [t];
    assert SkipBytes(ty, bs, depth) == Some(rest);
    ScalarSkips(t, ty, depth);
  }

  /** The token of a scalar, and the bytes after it. */
  lemma ScalarOrigin(ty: TType, bs: Bytes) returns (t: Token, rest: Bytes)
    requires ty in {BOOL, BYTE, I16, I32, I64, DOUBLE, STRING}
    requires if ty == STRING then TakeStr(bs).Some? else |bs| >= Width(ty)
    ensures rest == if ty == STRING then TakeStr(bs).value.1 else bs[Width(ty)..]
    ensures Used([t], bs, rest) && IsScalar(t, ty)
  {
    hide Used, TakeStr;
    if ty == STRING {
      t, rest := Str(TakeStr(bs).value.0), TakeStr(bs).value.1;
      StrUsed(bs);
    } else if ty == BOOL {
      t, rest := Bool(bs[0] == 1), bs[1..];
      BoolUsed(bs);
    } else {
      var n := TakeInt(Width(ty), bs).value.0;
      t, rest := if ty == I64 then Int64(n) else Number(ty, n), bs[Width(ty)..];
      IntUsed(Width(ty), bs, t);
    }
  }

  lemma BoolUsed(bs: Bytes)
    requires bs != []
    ensures Used([Bool(bs[0] == 1)], bs, bs[1..])
  {
    assert bs == [bs[0]] + bs[1..];
    UsedOne(Bool(bs[0] == 1), [bs[0]], bs[1..]);
  }

  lemma StrUsed(bs: Bytes)
    requires TakeStr(bs).Some?
    ensures var (s, rest) := TakeStr(bs).value; Used([Str(s)], bs, rest)
  {
    hide TakeStr, Int, InRange, Used, IsBytes;
    StrOrigin(bs);
    var (s, rest) := TakeStr(bs).value;
    UsedOne(Str(s), Enc(Str(s)), rest);
  }

  lemma IntUsed(w: nat, bs: Bytes, t: Token)
    requires w > 0 && TakeInt(w, bs).Some?
    requires (t.Int64? && w == 8) || (t.Number? && t.num in {BYTE, I16, I32, DOUBLE} && w == Width(t.num))
    requires t.n == TakeInt(w, bs).value.0
    ensures Used([t], bs, TakeInt(w, bs).value.1)
  {
    hide TakeInt, Int, InRange, Used;
    IntOrigin(w, bs);
    UsedOne(t, Enc(t), TakeInt(w, bs).value.1);
  }

  /** The token is a value of the scalar type. */
  predicate IsScalar(t: Token, ty: TType) {
    match t
    case Bool(_) => ty == BOOL
    case Int64(_) => ty == I64
    case Str(_) => ty == STRING
    case Number(num, _) => ty == num && ty in {BYTE, I16, I32, DOUBLE}
    case _ => false
  }

  lemma ScalarSkips(t: Token, ty: TType, depth: nat)
    requires IsScalar(t, ty) && depth > 0
    ensures Skips(ty, [t], depth)
  {
    forall k ensures Skip(ty, [t] + k, depth) == Some(k) {
      Tail(t, k);
    }
  }

  lemma {:induction false} SkipStructOrigin(bs: Bytes, depth: nat) returns (toks: Tokens)
    requires SkipBytes(STRUCT, bs, depth).Some?
    ensures Used(toks, bs, SkipBytes(STRUCT, bs, depth).value) && Skips(STRUCT, toks, depth)
    decreases depth, 0, 0, 0
  {
    var fields := SkipFieldsOrigin(bs, depth - 1);
    UsedNone(StructBegin, bs);
    UsedThen([StructBegin], fields, bs, bs, SkipBytes(STRUCT, bs, depth).value);
    toks := [StructBegin] + fields;
    forall k ensures Skip(STRUCT, toks + k, depth) == Some(k) {
      Assoc([StructBegin], fields, k);
      Tail(StructBegin, fields + k);
      hide SkipFields;
    }
  }

  /** The field loop passes the tokens, whatever follows. */
  ghost predicate SkipsFields(toks: Tokens, depth: nat) {
    forall k :: SkipFields(toks + k, depth) == Some(k)
  }

  lemma {:induction false} SkipFieldsOrigin(bs: Bytes, depth: nat) returns (toks: Tokens)
    requires SkipFieldBytes(bs, depth).Some?
    ensures Used(toks, bs, SkipFieldBytes(bs, depth).value) && SkipsFields(toks, depth)
    decreases depth, |bs|, 1, 0
  {
    if bs[0] == Code(STOP) {
      toks := StopOrigin(bs, depth);
    } else {
      hide Skip, SkipFields, Used, Skips, SkipsFields, TakeInt;
      var ty := OfCode(bs[0]).value;
      var t := FieldOrigin(bs);
      var mid := SkipBytes(ty, bs[3..], depth).value;
      var value := SkipOrigin(ty, bs[3..], depth);
      var rest := SkipFieldsOrigin(mid, depth);
      toks := FieldThen(t, value, rest, bs, mid, SkipFieldBytes(bs, depth).value);
      OneFieldSkips(t, value, rest, depth);
    }
  }

  lemma StopOrigin(bs: Bytes, depth: nat) returns (toks: Tokens)
    requires bs != [] && bs[0] == Code(STOP)
    ensures toks == [FieldStop, StructEnd] && Used(toks, bs, bs[1..]) && SkipsFields(toks, depth)
  {
    toks := [FieldStop, StructEnd];
    assert bs == [0] + bs[1..];
    UsedOne(FieldStop, [0], bs[1..]);
    UsedNone(StructEnd, bs[1..]);
    UsedThen([FieldStop], [StructEnd], bs, bs[1..], bs[1..]);
    forall k ensures SkipFields(toks + k, depth) == Some(k) {
      assert (toks + k)[1..] == [StructEnd] + k && ([StructEnd] + k)[1..] == k;
    }
  }

  /** A field's header. */
  lemma FieldOrigin(bs: Bytes) returns (t: Token)
    requires |bs| >= 3 && bs[0] != Code(STOP) && OfCode(bs[0]).Some?
    ensures t.FieldBegin? && t.ty == OfCode(bs[0]).value != STOP && Used([t], bs, bs[3..])
    ensures TakeInt(2, bs[1..]) == Some((t.id, bs[3..]))
  {
    IntOrigin(2, bs[1..]);
    var id := TakeInt(2, bs[1..]).value.0;
    t := FieldBegin(OfCode(bs[0]).value, id);
    assert bs[1..][2..] == bs[3..];
    assert bs == Enc(t) + bs[3..];
    EncStandsFor(t);
    UsedOne(t, Enc(t), bs[3..]);
  }

  /** A field, its end, and the fields after it. */
  lemma FieldThen(t: Token, value: Tokens, rest: Tokens, bs: Bytes, mid: Bytes, end: Bytes) returns (toks: Tokens)
    requires |bs| >= 3 && Used([t], bs, bs[3..]) && Used(value, bs[3..], mid) && Used(rest, mid, end)
    ensures toks == [t] + (value + ([FieldEnd] + rest)) && Used(toks, bs, end)
  {
    UsedNone(FieldEnd, mid);
    hide Used;
    UsedThen([FieldEnd], rest, mid, mid, end);
    UsedThen(value, [FieldEnd] + rest, bs[3..], mid, end);
    UsedThen([t], value + ([FieldEnd] + rest), bs, bs[3..], end);
    toks := [t] + (value + ([FieldEnd] + rest));
  }

  lemma OneFieldSkips(t: Token, value: Tokens, rest: Tokens, depth: nat)
    requires t.FieldBegin? && t.ty != STOP && Skips(t.ty, value, depth) && SkipsFields(rest, depth)
    ensures SkipsFields([t] + (value + ([FieldEnd] + rest)), depth)
  {
    hide SkipFields;
    forall k ensures SkipFields([t] + (value + ([FieldEnd] + rest)) + k, depth) == Some(k) {
      FieldBefore(t, value, rest, k);
      assert Skip(t.ty, value + ([FieldEnd] + (rest + k)), depth) == Some([FieldEnd] + (rest + k));
      assert SkipFields(rest + k, depth) == Some(k);
      hide Skip, SkipFields, Skips, SkipsFields;
      SkipFieldsStep(t.ty, t.id, value + ([FieldEnd] + (rest + k)), rest + k, depth);
    }
  }

  lemma FieldBefore(t: Token, value: Tokens, rest: Tokens, k: Tokens)
    ensures [t] + (value + ([FieldEnd] + rest)) + k == [t] + (value + ([FieldEnd] + (rest + k)))
  {
    Assoc([t], value + ([FieldEnd] + rest), k);
    Assoc(value, [FieldEnd] + rest, k);
    Assoc([FieldEnd], rest, k);
  }

  /** n elements are passed, whatever follows. */
  ghost predicate SkipsElements(elem: TType, n: nat, toks: Tokens, depth: nat) {
    forall k :: SkipElements(elem, n, toks + k, depth) == Some(k)
  }

  lemma {:induction false} SkipElementsOrigin(elem: TType, n: nat, bs: Bytes, depth: nat) returns (toks: Tokens)
    requires SkipElementBytes(elem, n, bs, depth).Some?
    ensures Used(toks, bs, SkipElementBytes(elem, n, bs, depth).value) && SkipsElements(elem, n, toks, depth)
    decreases depth, |bs|, 1, n
  {
    hide Skip, Used, Skips;
    if n == 0 {
      toks := [];
      UsedNothing(bs);
      NothingBefore();
    } else {
      var mid := SkipBytes(elem, bs, depth).value;
      var first := SkipOrigin(elem, bs, depth);
      var rest := SkipElementsOrigin(elem, n - 1, mid, depth);
      toks := first + rest;
      UsedThen(first, rest, bs, mid, SkipElementBytes(elem, n, bs, depth).value);
      OneElementSkips(elem, n, first, rest, depth);
    }
  }

  lemma OneElementSkips(elem: TType, n: nat, first: Tokens, rest: Tokens, depth: nat)
    requires n > 0 && Skips(elem, first, depth) && SkipsElements(elem, n - 1, rest, depth)
    ensures SkipsElements(elem, n, first + rest, depth)
  {
    hide Skip;
    forall k ensures SkipElements(elem, n, first + rest + k, depth) == Some(k) {
      Assoc(first, rest, k);
      assert Skip(elem, first + (rest + k), depth) == Some(rest + k);
      assert SkipElements(elem, n - 1, rest + k, depth) == Some(k);
    }
  }

  lemma {:induction false} SkipListOrigin(ty: TType, bs: Bytes, depth: nat) returns (toks: Tokens)
    requires SkipBytes(ty, bs, depth).Some? && ty in {LIST, SET}
    ensures Used(toks, bs, SkipBytes(ty, bs, depth).value) && Skips(ty, toks, depth)
    decreases depth, 0, 0, 0
  {
    hide SkipBytes, SkipElementBytes, Used, Skips, SkipsElements, TakeInt;
    var elem, size, body := ListParts(ty, bs, depth);
    var elems := SkipElementsOrigin(elem, size, body, depth - 1);
    ListSkips(ty, elem, size, elems, depth);
    var begin := if ty == LIST then ListBegin(elem, size) else SetBegin(elem, size);
    var end := if ty == LIST then ListEnd else SetEnd;
    toks := Bracketed(begin, elems, end, bs, body, SkipBytes(ty, bs, depth).value);
  }

  /** A list's header and the bytes of its elements. */
  lemma ListParts(ty: TType, bs: Bytes, depth: nat) returns (elem: TType, size: nat, body: Bytes)
    requires SkipBytes(ty, bs, depth).Some? && ty in {LIST, SET}
    ensures depth > 0 && SkipElementBytes(elem, size, body, depth - 1) == SkipBytes(ty, bs, depth)
    ensures Used([if ty == LIST then ListBegin(elem, size) else SetBegin(elem, size)], bs, body)
  {
    elem, size, body := OfCode(bs[0]).value, TakeInt(4, bs[1..]).value.0, TakeInt(4, bs[1..]).value.1;
    assert SkipElementBytes(elem, size, body, depth - 1) == SkipBytes(ty, bs, depth);
    hide SkipBytes, SkipElementBytes, Used;
    IntOrigin(4, bs[1..]);
    HeaderUsed(if ty == LIST then ListBegin(elem, size) else SetBegin(elem, size), bs, body, elem, size);
  }

  lemma ListSkips(ty: TType, elem: TType, size: nat, elems: Tokens, depth: nat)
    requires ty in {LIST, SET} && depth > 0 && SkipsElements(elem, size, elems, depth - 1)
    ensures var begin := if ty == LIST then ListBegin(elem, size) else SetBegin(elem, size);
            Skips(ty, [begin] + (elems + [if ty == LIST then ListEnd else SetEnd]), depth)
  {
    var begin := if ty == LIST then ListBegin(elem, size) else SetBegin(elem, size);
    var end := if ty == LIST then ListEnd else SetEnd;
    forall k ensures Skip(ty, [begin] + (elems + [end]) + k, depth) == Some(k) {
      BracketsBefore(begin, elems, end, k);
      assert SkipElements(elem, size, elems + ([end] + k), depth - 1) == Some([end] + k);
      hide SkipElements, SkipsElements;
    }
  }

  lemma HeaderUsed(t: Token, bs: Bytes, body: Bytes, elem: TType, size: nat)
    requires bs != [] && OfCode(bs[0]) == Some(elem) && bs[1..] == Int(4, size) + body && InRange(4, size)
    requires t == ListBegin(elem, size) || t == SetBegin(elem, size)
    ensures Used([t], bs, body)
  {
    assert bs == [bs[0]] + bs[1..];
    Assoc([bs[0]], Int(4, size), body);
    EncStandsFor(t);
    UsedOne(t, Enc(t), body);
  }

  /** A container's tokens. */
  lemma Bracketed(begin: Token, inner: Tokens, end: Token, bs: Bytes, body: Bytes, rest: Bytes) returns (toks: Tokens)
    requires Used([begin], bs, body) && Used(inner, body, rest) && Enc(end) == [] && Fits(end)
    ensures toks == [begin] + (inner + [end]) && Used(toks, bs, rest)
  {
    UsedNone(end, rest);
    hide Used;
    UsedThen(inner, [end], body, rest, rest);
    UsedThen([begin], inner + [end], bs, body, rest);
    toks := [begin] + (inner + [end]);
  }

  lemma BracketsBefore(begin: Token, inner: Tokens, end: Token, k: Tokens)
    ensures var toks := [begin] + (inner + [end]) + k;
            && toks == [begin] + (inner + ([end] + k)) && toks[0] == begin && toks[1..] == inner + ([end] + k)
            && Expect(end, [end] + k) == Some(k)
  {
    Assoc([begin], inner + [end], k);
    Assoc(inner, [end], k);
    Tail(begin, inner + ([end] + k));
    Tail(end, k);
  }

  ghost predicate SkipsPairs(key: TType, val: TType, n: nat, toks: Tokens, depth: nat) {
    forall k :: SkipPairs(key, val, n, toks + k, depth) == Some(k)
  }

  lemma {:induction false} SkipPairsOrigin(key: TType, val: TType, n: nat, bs: Bytes, depth: nat) returns (toks: Tokens)
    requires SkipPairBytes(key, val, n, bs, depth).Some?
    ensures Used(toks, bs, SkipPairBytes(key, val, n, bs, depth).value) && SkipsPairs(key, val, n, toks, depth)
    decreases depth, |bs|, 1, n
  {
    hide Skip, Used, Skips;
    if n == 0 {
      toks := [];
      UsedNothing(bs);
      NothingBefore();
    } else {
      var mid := SkipBytes(key, bs, depth).value;
      var mid' := SkipBytes(val, mid, depth).value;
      var a := SkipOrigin(key, bs, depth);
      var b := SkipOrigin(val, mid, depth);
      var rest := SkipPairsOrigin(key, val, n - 1, mid', depth);
      toks := a + (b + rest);
      UsedThen(b, rest, mid, mid', SkipPairBytes(key, val, n, bs, depth).value);
      UsedThen(a, b + rest, bs, mid, SkipPairBytes(key, val, n, bs, depth).value);
      OnePairSkips(key, val, n, a, b, rest, depth);
    }
  }

  lemma OnePairSkips(key: TType, val: TType, n: nat, a: Tokens, b: Tokens, rest: Tokens, depth: nat)
    requires n > 0 && Skips(key, a, depth) && Skips(val, b, depth) && SkipsPairs(key, val, n - 1, rest, depth)
    ensures SkipsPairs(key, val, n, a + (b + rest), depth)
  {
    hide Skip;
    forall k ensures SkipPairs(key, val, n, a + (b + rest) + k, depth) == Some(k) {
      Assoc(a, b + rest, k);
      Assoc(b, rest, k);
      assert Skip(key, a + (b + (rest + k)), depth) == Some(b + (rest + k));
      assert Skip(val, b + (rest + k), depth) == Some(rest + k);
      assert SkipPairs(key, val, n - 1, rest + k, depth) == Some(k);
    }
  }

  lemma {:induction false} SkipMapOrigin(bs: Bytes, depth: nat) returns (toks: Tokens)
    requires SkipBytes(MAP, bs, depth).Some?
    ensures Used(toks, bs, SkipBytes(MAP, bs, depth).value) && Skips(MAP, toks, depth)
    decreases depth, 0, 0, 0
  {
    hide SkipBytes, SkipPairBytes, Used, Skips, SkipsPairs, TakeInt;
    var key, val, size, body := MapParts(bs, depth);
    var pairs := SkipPairsOrigin(key, val, size, body, depth - 1);
    MapSkips(key, val, size, pairs, depth);
    toks := Bracketed(MapBegin(key, val, size), pairs, MapEnd, bs, body, SkipBytes(MAP, bs, depth).value);
  }

  lemma TwoInFront(bs: Bytes)
    requires |bs| >= 2
    ensures bs == [bs[0], bs[1]] + bs[2..]
  {
  }

  lemma MapParts(bs: Bytes, depth: nat) returns (key: TType, val: TType, size: nat, body: Bytes)
    requires SkipBytes(MAP, bs, depth).Some?
    ensures depth > 0 && SkipPairBytes(key, val, size, body, depth - 1) == SkipBytes(MAP, bs, depth)
    ensures Used([MapBegin(key, val, size)], bs, body)
  {
    hide TakeInt, Int, SkipPairBytes, Used;
    key, val := OfCode(bs[0]).value, OfCode(bs[1]).value;
    size, body := TakeInt(4, bs[2..]).value.0, TakeInt(4, bs[2..]).value.1;
    assert SkipPairBytes(key, val, size, body, depth - 1) == SkipBytes(MAP, bs, depth);
    hide SkipBytes;
    IntOrigin(4, bs[2..]);
    var begin := MapBegin(key, val, size);
    TwoInFront(bs);
    Assoc([bs[0], bs[1]], Int(4, size), body);
    UsedOne(begin, Enc(begin), body);
  }

  lemma MapSkips(key: TType, val: TType, size: nat, pairs: Tokens, depth: nat)
    requires depth > 0 && SkipsPairs(key, val, size, pairs, depth - 1)
    ensures Skips(MAP, [MapBegin(key, val, size)] + (pairs + [MapEnd]), depth)
  {
    var begin := MapBegin(key, val, size);
    forall k ensures Skip(MAP, [begin] + (pairs + [MapEnd]) + k, depth) == Some(k) {
      BracketsBefore(begin, pairs, MapEnd, k);
      assert SkipPairs(key, val, size, pairs + ([MapEnd] + k), depth - 1) == Some([MapEnd] + k);
      hide SkipPairs, SkipsPairs;
    }
  }

  // ---- Read -------------------------------------------------------------------------------------------

  /** The tokens are read as the value, whatever follows. */
  ghost predicate Reads(depth: nat, ty: FType, toks: Tokens, v: Val) {
    forall k :: Read(depth, ty, toks + k) == Ok(v, k)
  }

  ghost predicate ReadsFields(depth: nat, s: Schema, acc: seq<Val>, toks: Tokens, v: Val)
    requires |acc| == |s.fields|
  {
    forall k :: ReadFields(depth, s, acc, toks + k) == Ok(v, k)
  }

  ghost predicate ReadsElems(depth: nat, s: Schema, n: nat, acc: seq<Val>, toks: Tokens, v: Val) {
    forall k :: ReadElems(depth, s, n, acc, toks + k) == Ok(v, k)
  }

  /** Whatever bytes are read successfully start with bytes that stand for tokens which are read as the same
      value, whatever follows. */
  lemma {:induction false} ReadOrigin(depth: nat, ty: FType, bs: Bytes) returns (toks: Tokens)
    requires ReadBytes(depth, ty, bs).Got?
    ensures var r := ReadBytes(depth, ty, bs); Used(toks, bs, r.rest) && Reads(depth, ty, toks, r.v)
    decreases |bs|, 2, 0
  {
    match ty {
      case TStruct(s) => toks := ReadStructOrigin(depth, s, bs);
      case TList(s) => toks := ReadListOrigin(depth, s, bs);
      case _ => toks := ReadScalarOrigin(depth, ty, bs);
    }
  }

  lemma ReadScalarOrigin(depth: nat, ty: FType, bs: Bytes) returns (toks: Tokens)
    requires ReadBytes(depth, ty, bs).Got? && !Pointer(ty)
    ensures var r := ReadBytes(depth, ty, bs); Used(toks, bs, r.rest) && Reads(depth, ty, toks, r.v)
  {
    hide TakeInt, TakeStr, Used;
    var t;
    match ty {
      case TBool =>
        t := Bool(bs[0] == 1);
        BoolUsed(bs);
      case TI32 =>
        t := Number(I32, TakeInt(4, bs).value.0);
        IntUsed(4, bs, t);
      case TI64 =>
        t := Int64(TakeInt(8, bs).value.0);
        IntUsed(8, bs, t);
      case TString =>
        t := Str(TakeStr(bs).value.0);
        StrUsed(bs);
    }
    toks := [t];
    forall k ensures Read(depth, ty, [t] + k) == Ok(ReadBytes(depth, ty, bs).v, k) {
      Tail(t, k);
    }
  }

  lemma {:induction false} ReadStructOrigin(depth: nat, s: Schema, bs: Bytes) returns (toks: Tokens)
    requires ReadBytes(depth, TStruct(s), bs).Got?
    ensures var r := ReadBytes(depth, TStruct(s), bs);
            Used(toks, bs, r.rest) && Reads(depth, TStruct(s), toks, r.v)
    decreases |bs|, 1, 1
  {
    var r := ReadBytes(depth, TStruct(s), bs);
    assert r == ReadFieldBytes(depth, s, Zeros(s), bs);
    hide ReadBytes, ReadFieldBytes, Used, ReadFields;
    var fields := ReadFieldsOrigin(depth, s, Zeros(s), bs);
    UsedNone(StructBegin, bs);
    UsedThen([StructBegin], fields, bs, bs, r.rest);
    toks := [StructBegin] + fields;
    forall k ensures Read(depth, TStruct(s), toks + k) == Ok(r.v, k) {
      Assoc([StructBegin], fields, k);
      Tail(StructBegin, fields + k);
    }
  }

  lemma {:induction false} ReadFieldsOrigin(depth: nat, s: Schema, acc: seq<Val>, bs: Bytes) returns (toks: Tokens)
    requires |acc| == |s.fields| && ReadFieldBytes(depth, s, acc, bs).Got?
    ensures var r := ReadFieldBytes(depth, s, acc, bs);
            Used(toks, bs, r.rest) && ReadsFields(depth, s, acc, toks, r.v)
    decreases |bs|, 1, 0
  {
    hide ReadFields, Used, ReadsFields, TakeInt, ReadOneBytes;
    if bs[0] == Code(STOP) {
      toks := StopReads(depth, s, acc, bs);
    } else {
      var ty, r := OfCode(bs[0]).value, ReadFieldBytes(depth, s, acc, bs);
      LongEnough(bs);
      var t := FieldOrigin(bs);
      var one := ReadOneBytes(depth, s, acc, ty, t.id, bs[3..]);
      var value := ReadOneOrigin(depth, s, acc, ty, t.id, bs[3..]);
      var rest := ReadFieldsOrigin(depth, s, one.v.fields, one.rest);
      toks := FieldThen(t, value, rest, bs, one.rest, r.rest);
      OneFieldReads(depth, s, acc, t, value, one.v.fields, rest, r.v);
    }
  }

  lemma LongEnough(bs: Bytes)
    requires bs != [] && TakeInt(2, bs[1..]).Some?
    ensures |bs| >= 3
  {
  }

  lemma StopReads(depth: nat, s: Schema, acc: seq<Val>, bs: Bytes) returns (toks: Tokens)
    requires |acc| == |s.fields| && bs != [] && bs[0] == Code(STOP)
    ensures Used(toks, bs, bs[1..]) && ReadsFields(depth, s, acc, toks, VStruct(acc))
  {
    toks := StopOrigin(bs, depth);
    hide Used;
    forall k ensures ReadFields(depth, s, acc, toks + k) == Ok(VStruct(acc), k) {
      FieldsEnd(depth, s, acc, k);
    }
  }

  /** A field's value and its end, whatever follows. */
  ghost predicate ReadsOne(depth: nat, s: Schema, acc: seq<Val>, ty: TType, id: int, toks: Tokens, acc': seq<Val>)
    requires |acc| == |s.fields|
  {
    forall k :: ReadOne(depth, s, acc, ty, id, toks + ([FieldEnd] + k)) == Ok(VStruct(acc'), k)
  }

  lemma {:induction false} ReadOneOrigin(depth: nat, s: Schema, acc: seq<Val>, ty: TType, id: int, bs: Bytes)
    returns (toks: Tokens)
    requires |acc| == |s.fields| && ReadOneBytes(depth, s, acc, ty, id, bs).Got?
    ensures var r := ReadOneBytes(depth, s, acc, ty, id, bs);
            Used(toks, bs, r.rest) && r.v.VStruct? && ReadsOne(depth, s, acc, ty, id, toks, r.v.fields)
    decreases |bs|, 3, 0
  {
    hide Used, ReadBytes, SkipBytes, Read, Skip;
    var r := ReadOneBytes(depth, s, acc, ty, id, bs);
    if Known(s, ty, id) {
      var fty := s.fields[IndexOf(s, id, 0)].ty;
      toks := ReadOrigin(depth, fty, bs);
      KnownReads(depth, s, acc, ty, id, toks, ReadBytes(depth, fty, bs).v);
    } else {
      toks := SkipOrigin(ty, bs, depth);
      UnknownReads(depth, s, acc, ty, id, toks);
    }
  }

  lemma KnownReads(depth: nat, s: Schema, acc: seq<Val>, ty: TType, id: int, toks: Tokens, v: Val)
    requires |acc| == |s.fields| && Known(s, ty, id) && Reads(depth, s.fields[IndexOf(s, id, 0)].ty, toks, v)
    ensures ReadsOne(depth, s, acc, ty, id, toks, acc[IndexOf(s, id, 0) := v])
  {
    forall k
      ensures ReadOne(depth, s, acc, ty, id, toks + ([FieldEnd] + k)) == Ok(VStruct(acc[IndexOf(s, id, 0) := v]), k)
    {
      Tail(FieldEnd, k);
      assert Read(depth, s.fields[IndexOf(s, id, 0)].ty, toks + ([FieldEnd] + k)) == Ok(v, [FieldEnd] + k);
      hide Read, Reads;
    }
  }

  lemma UnknownReads(depth: nat, s: Schema, acc: seq<Val>, ty: TType, id: int, toks: Tokens)
    requires |acc| == |s.fields| && !Known(s, ty, id) && Skips(ty, toks, depth)
    ensures ReadsOne(depth, s, acc, ty, id, toks, acc)
  {
    forall k ensures ReadOne(depth, s, acc, ty, id, toks + ([FieldEnd] + k)) == Ok(VStruct(acc), k) {
      Tail(FieldEnd, k);
      assert Skip(ty, toks + ([FieldEnd] + k), depth) == Some([FieldEnd] + k);
      hide Skip, Skips;
    }
  }

  lemma OneFieldReads(depth: nat, s: Schema, acc: seq<Val>, t: Token, value: Tokens, acc': seq<Val>, rest: Tokens,
                      v: Val)
    requires |acc| == |s.fields| == |acc'| && t.FieldBegin? && t.ty != STOP
    requires ReadsOne(depth, s, acc, t.ty, t.id, value, acc') && ReadsFields(depth, s, acc', rest, v)
    ensures ReadsFields(depth, s, acc, [t] + (value + ([FieldEnd] + rest)), v)
  {
    hide ReadFields, ReadOne;
    forall k ensures ReadFields(depth, s, acc, [t] + (value + ([FieldEnd] + rest)) + k) == Ok(v, k) {
      FieldBefore(t, value, rest, k);
      ReadFieldsStep(depth, s, acc, t.ty, t.id, value + ([FieldEnd] + (rest + k)), acc', rest + k);
      assert ReadFields(depth, s, acc', rest + k) == Ok(v, k);
    }
  }

  lemma {:induction false} ReadListOrigin(depth: nat, s: Schema, bs: Bytes) returns (toks: Tokens)
    requires ReadBytes(depth, TList(s), bs).Got?
    ensures var r := ReadBytes(depth, TList(s), bs);
            Used(toks, bs, r.rest) && Reads(depth, TList(s), toks, r.v)
    decreases |bs|, 1, 1
  {
    hide ReadBytes, ReadElemBytes, Used, Reads, ReadsElems, TakeInt;
    var r := ReadBytes(depth, TList(s), bs);
    var size, body := ListValueParts(depth, s, bs);
    var elems := ReadElemsOrigin(depth, s, size, [], body);
    toks := Bracketed(ListBegin(STRUCT, size), elems, ListEnd, bs, body, r.rest);
    ListReads(depth, s, size, elems, r.v);
  }

  /** A list's header, whatever element type it names, and the bytes of its elements. */
  lemma ListValueParts(depth: nat, s: Schema, bs: Bytes) returns (size: nat, body: Bytes)
    requires ReadBytes(depth, TList(s), bs).Got?
    ensures |body| < |bs| && ReadElemBytes(depth, s, size, [], body) == ReadBytes(depth, TList(s), bs)
    ensures Used([ListBegin(STRUCT, size)], bs, body)
  {
    size, body := TakeInt(4, bs[1..]).value.0, TakeInt(4, bs[1..]).value.1;
    assert ReadElemBytes(depth, s, size, [], body) == ReadBytes(depth, TList(s), bs);
    hide ReadBytes, ReadElemBytes;
    IntOrigin(4, bs[1..]);
    hide TakeInt;
    var head := [bs[0]] + Int(4, size);
    assert bs == [bs[0]] + bs[1..];
    Assoc([bs[0]], Int(4, size), body);
    assert head[1..] == Int(4, size);
    UsedOne(ListBegin(STRUCT, size), head, body);
  }

  lemma ListReads(depth: nat, s: Schema, size: nat, elems: Tokens, v: Val)
    requires ReadsElems(depth, s, size, [], elems, v)
    ensures Reads(depth, TList(s), [ListBegin(STRUCT, size)] + (elems + [ListEnd]), v)
  {
    forall k ensures Read(depth, TList(s), [ListBegin(STRUCT, size)] + (elems + [ListEnd]) + k) == Ok(v, k) {
      BracketsBefore(ListBegin(STRUCT, size), elems, ListEnd, k);
      assert ReadElems(depth, s, size, [], elems + ([ListEnd] + k)) == Ok(v, [ListEnd] + k);
      hide ReadElems, ReadsElems;
    }
  }

  lemma {:induction false} ReadElemsOrigin(depth: nat, s: Schema, n: nat, acc: seq<Val>, bs: Bytes)
    returns (toks: Tokens)
    requires ReadElemBytes(depth, s, n, acc, bs).Got?
    ensures var r := ReadElemBytes(depth, s, n, acc, bs);
            Used(toks, bs, r.rest) && ReadsElems(depth, s, n, acc, toks, r.v)
    decreases |bs|, 3, 0
  {
    hide ReadBytes, Read, Used, Reads;
    if n == 0 {
      toks := [];
      UsedNothing(bs);
      NothingBefore();
    } else {
      var one := ReadBytes(depth, TStruct(s), bs);
      var first := ReadOrigin(depth, TStruct(s), bs);
      var rest := ReadElemsOrigin(depth, s, n - 1, acc + [one.v], one.rest);
      toks := first + rest;
      var r := ReadElemBytes(depth, s, n, acc, bs);
      UsedThen(first, rest, bs, one.rest, r.rest);
      OneElemReads(depth, s, n, acc, first, one.v, rest, r.v);
    }
  }

  lemma OneElemReads(depth: nat, s: Schema, n: nat, acc: seq<Val>, first: Tokens, e: Val, rest: Tokens, v: Val)
    requires n > 0 && Reads(depth, TStruct(s), first, e) && ReadsElems(depth, s, n - 1, acc + [e], rest, v)
    ensures ReadsElems(depth, s, n, acc, first + rest, v)
  {
    hide Read;
    forall k ensures ReadElems(depth, s, n, acc, first + rest + k) == Ok(v, k) {
      Assoc(first, rest, k);
      assert Read(depth, TStruct(s), first + (rest + k)) == Ok(e, rest + k);
      assert ReadElems(depth, s, n - 1, acc + [e], rest + k) == Ok(v, k);
    }
  }

  /** So what a reader of bytes accepts is always a value of its type, with no nil in its lists. */
  lemma BytesHaveType(depth: nat, ty: FType, bs: Bytes)
    requires ReadBytes(depth, ty, bs).Got?
    ensures Readable(ReadBytes(depth, ty, bs).v, ty)
  {
    var toks := ReadOrigin(depth, ty, bs);
    hide ReadBytes, Readable;
    assert Read(depth, ty, toks + []) == Ok(ReadBytes(depth, ty, bs).v, []);
    ReadHasType(depth, ty, toks + []);
  }
}
