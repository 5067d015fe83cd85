/** Tokens as bytes: the Thrift binary protocol (Apache Thrift specification, "Thrift Binary protocol
    encoding", sections "Message", "Struct", "List and Set" and "Map"). */
module BinaryProtocol {
  import opened Prelude
  import opened Protocol

  type byte = x: int | 0 <= x < 256

  type Bytes = seq<byte>

  // ---- integers: big-endian two's complement ------------------------------------------------

  function Pow(w: nat): (p: nat)
    ensures p > 0
  {
    if w == 0 then 1 else 256 * Pow(w - 1)
  }

  /** Half the range of w bytes. */
  function Half(w: nat): nat
    requires w > 0
  {
    128 * Pow(w - 1)
  }

  /** An integer in w bytes; higher bits are cut off. */
  function Int(w: nat, n: int): (bs: Bytes)
    ensures |bs| == w
  {
    if w == 0 then [] else Int(w - 1, n / 256) + [n % 256]
  }

  function Unsigned(bs: Bytes): nat {
    if bs == [] then 0 else Unsigned(bs[..|bs| - 1]) * 256 + bs[|bs| - 1]
  }

  function TakeInt(w: nat, bs: Bytes): (r: Option<(int, Bytes)>)
    requires w > 0
    ensures r.Some? ==> |r.value.1| == |bs| - w
  {
    if |bs| < w then None
    else
      var u := Unsigned(bs[..w]);
      Some((if u < Half(w) then u else u - Pow(w), bs[w..]))
  }

  lemma {:induction false} UnsignedBack(w: nat, n: int)
    requires 0 - Pow(w) <= n < Pow(w)
    ensures Unsigned(Int(w, n)) == if n >= 0 then n else n + Pow(w)
    decreases w
  {
    if w > 0 {
      UnsignedBack(w - 1, n / 256);
      assert Int(w, n)[..w - 1] == Int(w - 1, n / 256);
    }
  }

  predicate InRange(w: nat, n: int)
    requires w > 0
  {
    0 - Half(w) <= n < Half(w)
  }

  /** An integer in range is read back, whatever follows. */
  lemma IntBack(w: nat, n: int, k: Bytes)
    requires w > 0 && InRange(w, n)
    ensures TakeInt(w, Int(w, n) + k) == Some((n, k))
  {
    UnsignedBack(w, n);
    var bs := Int(w, n) + k;
    assert bs[..w] == Int(w, n) && bs[w..] == k;
  }

  // ---- strings ------------------------------------------------------------------------------

  /** A Go string's bytes. */
  predicate IsBytes(s: string) {
    forall i :: 0 <= i < |s| ==> s[i] as int < 256
  }

  function StrBytes(s: string): Bytes {
    seq(|s|, i requires 0 <= i < |s| => s[i] as int % 256)
  }

  function BytesStr(bs: Bytes): string {
    seq(|bs|, i requires 0 <= i < |bs| => bs[i] as char)
  }

  function TakeStr(bs: Bytes): (r: Option<(string, Bytes)>)
    ensures r.Some? ==> |r.value.1| < |bs|
  {
    var size := TakeInt(4, bs);
    if size.None? then None
    else
      var (n, rest) := size.value;
      if n < 0 || |rest| < n then None else Some((BytesStr(rest[..n]), rest[n..]))
  }

  lemma CharsBack(s: string)
    requires IsBytes(s)
    ensures BytesStr(StrBytes(s)) == s
  {
    forall i | 0 <= i < |s| ensures BytesStr(StrBytes(s))[i] == s[i] {
      assert StrBytes(s)[i] == s[i] as int;
    }
  }

  lemma StrBack(s: string, k: Bytes)
    requires IsBytes(s) && InRange(4, |s|)
    ensures TakeStr(Int(4, |s|) + StrBytes(s) + k) == Some((s, k))
  {
    var size, rest := Int(4, |s|), StrBytes(s) + k;
    IntBack(4, |s|, rest);
    CharsBack(s);
    hide Int, TakeInt, InRange, IsBytes, BytesStr;
    assert size + StrBytes(s) + k == size + rest;
    assert rest[..|s|] == StrBytes(s) && rest[|s|..] == k;
  }

  // ---- tokens -------------------------------------------------------------------------------

  function Code(ty: TType): byte {
    match ty
    case STOP => 0
    case BOOL => 2
    case BYTE => 3
    case DOUBLE => 4
    case I16 => 6
    case I32 => 8
    case I64 => 10
    case STRING => 11
    case STRUCT => 12
    case MAP => 13
    case SET => 14
    case LIST => 15
  }

  /** The type of a code; other codes are not decoded. */
  function OfCode(b: byte): (r: Option<TType>)
    ensures r.Some? ==> Code(r.value) == b
    ensures forall ty: TType :: Code(ty) == b ==> r == Some(ty)
  {
    if b == 0 then Some(STOP)
    else if b == 2 then Some(BOOL)
    else if b == 3 then Some(BYTE)
    else if b == 4 then Some(DOUBLE)
    else if b == 6 then Some(I16)
    else if b == 8 then Some(I32)
    else if b == 10 then Some(I64)
    else if b == 11 then Some(STRING)
    else if b == 12 then Some(STRUCT)
    else if b == 13 then Some(MAP)
    else if b == 14 then Some(SET)
    else if b == 15 then Some(LIST)
    else None
  }

  function KindCode(k: MessageKind): byte {
    match k
    case CALL => 1
    case REPLY => 2
    case EXCEPTION => 3
    case ONEWAY => 4
  }

  /** The size of a number; a double is its bit pattern. */
  function Width(ty: TType): nat {
    match ty
    case BOOL => 1
    case BYTE => 1
    case I16 => 2
    case I32 => 4
    case I64 => 8
    case DOUBLE => 8
    case _ => 0
  }

  const VERSION_1 := 0x8001_0000

  function Enc(t: Token): Bytes {
    match t
    case MessageBegin(name, kind, seqId) =>
      Int(4, VERSION_1 + KindCode(kind)) + Int(4, |name|) + StrBytes(name) + Int(4, seqId)
    case FieldBegin(ty, id) => [Code(ty)] + Int(2, id)
    case FieldStop => [0]
    case ListBegin(elem, size) => [Code(elem)] + Int(4, size)
    case SetBegin(elem, size) => [Code(elem)] + Int(4, size)
    case MapBegin(key, val, size) => [Code(key), Code(val)] + Int(4, size)
    case Bool(b) => [if b then 1 else 0]
    case Int64(n) => Int(8, n)
    case Str(s) => Int(4, |s|) + StrBytes(s)
    case Number(num, n) => Int(Width(num), n)
    case _ => []
  }

  /** The token's numbers fit their fields and its strings hold bytes. */
  predicate Fits(t: Token) {
    match t
    case MessageBegin(name, _, seqId) => IsBytes(name) && InRange(4, |name|) && InRange(4, seqId)
    case FieldBegin(ty, id) => ty != STOP && InRange(2, id)
    case ListBegin(_, size) => InRange(4, size)
    case SetBegin(_, size) => InRange(4, size)
    case MapBegin(_, _, size) => InRange(4, size)
    case Int64(n) => InRange(8, n)
    case Str(s) => IsBytes(s) && InRange(4, |s|)
    case Number(num, n) => num in {BYTE, I16, I32, DOUBLE} && InRange(Width(num), n)
    case _ => true
  }

  predicate AllFit(toks: Tokens) {
    forall i :: 0 <= i < |toks| ==> Fits(toks[i])
  }

  function EncAll(toks: Tokens): Bytes {
    if toks == [] then [] else Enc(toks[0]) + EncAll(toks[1..])
  }

  lemma EncStep(toks: Tokens)
    requires AllFit(toks) && toks != []
    ensures Fits(toks[0]) && AllFit(toks[1..]) && EncAll(toks) == Enc(toks[0]) + EncAll(toks[1..])
  {
  }

  lemma {:induction false} EncConcat(a: Tokens, b: Tokens)
    ensures EncAll(a + b) == EncAll(a) + EncAll(b)
    decreases |a|
  {
    hide Enc;
    if a == [] {
      assert a + b == b;
    } else {
      EncConcat(a[1..], b);
      assert (a + b)[1..] == a[1..] + b;
    }
  }

  lemma ByteToken(c: byte)
    ensures var t := Number(BYTE, if c < 128 then c else c - 256); Fits(t) && Enc(t) == [c]
  {
    var n := if c < 128 then c else c - 256;
    assert Half(1) == 128;
    assert Int(1, n) == Int(0, n / 256) + [n % 256];
  }

  /** Any bytes at all are the encoding of some tokens. */
  lemma {:induction false} BytesAreTokens(k: Bytes) returns (toks: Tokens)
    ensures AllFit(toks) && EncAll(toks) == k
    decreases |k|
  {
    if k == [] {
      toks := [];
    } else {
      var rest := BytesAreTokens(k[1..]);
      var c: int := k[0];
      var t := Number(BYTE, if c < 128 then c else c - 256);
      ByteToken(k[0]);
      hide Enc, Fits;
      toks := [t] + rest;
      assert toks[1..] == rest;
    }
  }

  // ---- Skip over bytes ----------------------------------------------------------------------

  function SkipBytes(ty: TType, bs: Bytes, depth: nat): (r: Option<Bytes>)
    ensures r.Some? ==> |r.value| <= |bs|
    decreases depth, |bs|, 0, 0
  {
    if depth == 0 then None
    else if ty == STOP then Some(bs)
    else if ty == STRING then
      var r := TakeStr(bs);
      if r.None? then None else Some(r.value.1)
    else if ty == STRUCT then SkipFieldBytes(bs, depth - 1)
    else if ty == LIST || ty == SET then
      if bs == [] || OfCode(bs[0]).None? then None
      else
        var r := TakeInt(4, bs[1..]);
        if r.None? || r.value.0 < 0 then None
        else SkipElementBytes(OfCode(bs[0]).value, r.value.0, r.value.1, depth - 1)
    else if ty == MAP then
      if |bs| < 2 || OfCode(bs[0]).None? || OfCode(bs[1]).None? then None
      else
        var r := TakeInt(4, bs[2..]);
        if r.None? || r.value.0 < 0 then None
        else SkipPairBytes(OfCode(bs[0]).value, OfCode(bs[1]).value, r.value.0, r.value.1, depth - 1)
    else if |bs| < Width(ty) then None
    else Some(bs[Width(ty)..])
  }

  function SkipFieldBytes(bs: Bytes, depth: nat): (r: Option<Bytes>)
    ensures r.Some? ==> |r.value| <= |bs|
    decreases depth, |bs|, 1, 0
  {
    if bs == [] then None
    else if bs[0] == Code(STOP) then Some(bs[1..])
    else if |bs| < 3 || OfCode(bs[0]).None? then None
    else
      var r := SkipBytes(OfCode(bs[0]).value, bs[3..], depth);
      if r.None? then None else SkipFieldBytes(r.value, depth)
  }

  function SkipElementBytes(elem: TType, n: nat, bs: Bytes, depth: nat): (r: Option<Bytes>)
    ensures r.Some? ==> |r.value| <= |bs|
    decreases depth, |bs|, 1, n
  {
    if n == 0 then Some(bs)
    else
      var r := SkipBytes(elem, bs, depth);
      if r.None? then None else SkipElementBytes(elem, n - 1, r.value, depth)
  }

  function SkipPairBytes(key: TType, val: TType, n: nat, bs: Bytes, depth: nat): (r: Option<Bytes>)
    ensures r.Some? ==> |r.value| <= |bs|
    decreases depth, |bs|, 1, n
  {
    if n == 0 then Some(bs)
    else
      var k := SkipBytes(key, bs, depth);
      if k.None? then None
      else
        var v := SkipBytes(val, k.value, depth);
        if v.None? then None else SkipPairBytes(key, val, n - 1, v.value, depth)
  }

  // ---- the bytes follow the tokens ----------------------------------------------------------

  /** What the bytes give, seen from what the tokens give: the same, where the tokens succeed. */
  ghost predicate Follows(r: Option<Tokens>, b: Option<Bytes>) {
    r.Some? ==> AllFit(r.value) && b == Some(EncAll(r.value))
  }

  /** A token that takes no bytes. */
  lemma EndFollows(t: Token, r: Option<Tokens>)
    requires Enc(t) == [] && (r.Some? ==> AllFit(r.value))
    ensures r.Some? ==> Follows(Expect(t, r.value), Some(EncAll(r.value)))
  {
    if r.Some? && Expect(t, r.value).Some? {
      assert EncAll(r.value) == Enc(t) + EncAll(r.value[1..]) == EncAll(r.value[1..]);
    }
  }

  lemma HeaderBack(c: byte, size: int, k: Bytes)
    requires InRange(4, size)
    ensures var bs := [c] + Int(4, size) + k; bs[0] == c && TakeInt(4, bs[1..]) == Some((size, k))
  {
    assert ([c] + Int(4, size) + k)[1..] == Int(4, size) + k;
    IntBack(4, size, k);
  }

  lemma PairHeaderBack(c: byte, d: byte, size: int, k: Bytes)
    requires InRange(4, size)
    ensures var bs := [c, d] + Int(4, size) + k; bs[0] == c && bs[1] == d && TakeInt(4, bs[2..]) == Some((size, k))
  {
    assert ([c, d] + Int(4, size) + k)[2..] == Int(4, size) + k;
    IntBack(4, size, k);
  }

  lemma {:induction false} SkipFollows(ty: TType, toks: Tokens, depth: nat)
    requires AllFit(toks)
    ensures Follows(Skip(ty, toks, depth), SkipBytes(ty, EncAll(toks), depth))
    decreases depth, |toks|, 0, 0
  {
    if Skip(ty, toks, depth).Some? && ty != STOP {
      hide Enc, Fits;
      match ty {
        case STRING =>
          SkipStringFollows(toks, depth);
        case STRUCT =>
          SkipStructFollows(toks, depth);
        case LIST =>
          SkipListFollows(toks, depth);
        case SET =>
          SkipSetFollows(toks, depth);
        case MAP =>
          SkipMapFollows(toks, depth);
        case _ =>
          SkipNumberFollows(ty, toks, depth);
      }
    }
  }

  lemma SkipStringFollows(toks: Tokens, depth: nat)
    requires AllFit(toks) && Skip(STRING, toks, depth).Some?
    ensures Follows(Skip(STRING, toks, depth), SkipBytes(STRING, EncAll(toks), depth))
  {
    StrBack(toks[0].s, EncAll(toks[1..]));
    hide TakeStr, Int, StrBytes;
  }

  lemma SkipNumberFollows(ty: TType, toks: Tokens, depth: nat)
    requires ty in {BOOL, BYTE, I16, I32, I64, DOUBLE}
    requires AllFit(toks) && Skip(ty, toks, depth).Some?
    ensures Follows(Skip(ty, toks, depth), SkipBytes(ty, EncAll(toks), depth))
  {
    hide Int;
    assert |Enc(toks[0])| == Width(ty);
    assert EncAll(toks)[Width(ty)..] == EncAll(toks[1..]);
  }

  lemma {:induction false} SkipStructFollows(toks: Tokens, depth: nat)
    requires AllFit(toks) && Skip(STRUCT, toks, depth).Some?
    ensures Follows(Skip(STRUCT, toks, depth), SkipBytes(STRUCT, EncAll(toks), depth))
    decreases depth, 0, 0, 0
  {
    hide SkipFields, SkipFieldBytes, AllFit;
    EncStep(toks);
    SkipFieldsFollow(toks[1..], depth - 1);
    assert EncAll(toks) == Enc(toks[0]) + EncAll(toks[1..]) == EncAll(toks[1..]);
  }

  lemma SkipListBytes(ty: TType, elem: TType, size: nat, k: Bytes, depth: nat)
    requires ty in {LIST, SET} && InRange(4, size) && depth > 0
    ensures SkipBytes(ty, [Code(elem)] + Int(4, size) + k, depth) == SkipElementBytes(elem, size, k, depth - 1)
  {
    HeaderBack(Code(elem), size, k);
    hide Int, TakeInt, SkipElementBytes;
  }

  lemma SkipMapBytes(key: TType, val: TType, size: nat, k: Bytes, depth: nat)
    requires InRange(4, size) && depth > 0
    ensures SkipBytes(MAP, [Code(key), Code(val)] + Int(4, size) + k, depth)
         == SkipPairBytes(key, val, size, k, depth - 1)
  {
    PairHeaderBack(Code(key), Code(val), size, k);
    hide Int, TakeInt, SkipPairBytes;
  }

  lemma {:induction false} SkipListFollows(toks: Tokens, depth: nat)
    requires AllFit(toks) && Skip(LIST, toks, depth).Some?
    ensures Follows(Skip(LIST, toks, depth), SkipBytes(LIST, EncAll(toks), depth))
    decreases depth, 0, 0, 0
  {
    hide SkipElements, SkipElementBytes, SkipBytes, AllFit;
    var t, rest := toks[0], toks[1..];
    EncStep(toks);
    SkipListBytes(LIST, t.elem, t.size, EncAll(rest), depth);
    assert Enc(t) == [Code(t.elem)] + Int(4, t.size) && Enc(ListEnd) == [];
    hide Enc, Fits, Int;
    SkipElementsFollow(t.elem, t.size, rest, depth - 1);
    EndFollows(ListEnd, SkipElements(t.elem, t.size, rest, depth - 1));
  }

  lemma {:induction false} SkipSetFollows(toks: Tokens, depth: nat)
    requires AllFit(toks) && Skip(SET, toks, depth).Some?
    ensures Follows(Skip(SET, toks, depth), SkipBytes(SET, EncAll(toks), depth))
    decreases depth, 0, 0, 0
  {
    hide SkipElements, SkipElementBytes, SkipBytes, AllFit;
    var t, rest := toks[0], toks[1..];
    EncStep(toks);
    SkipListBytes(SET, t.elem, t.size, EncAll(rest), depth);
    assert Enc(t) == [Code(t.elem)] + Int(4, t.size) && Enc(SetEnd) == [];
    hide Enc, Fits, Int;
    SkipElementsFollow(t.elem, t.size, rest, depth - 1);
    EndFollows(SetEnd, SkipElements(t.elem, t.size, rest, depth - 1));
  }

  lemma {:induction false} SkipMapFollows(toks: Tokens, depth: nat)
    requires AllFit(toks) && Skip(MAP, toks, depth).Some?
    ensures Follows(Skip(MAP, toks, depth), SkipBytes(MAP, EncAll(toks), depth))
    decreases depth, 0, 0, 0
  {
    hide SkipPairs, SkipPairBytes, SkipBytes, AllFit;
    var t, rest := toks[0], toks[1..];
    EncStep(toks);
    SkipMapBytes(t.key, t.val, t.size, EncAll(rest), depth);
    assert Enc(t) == [Code(t.key), Code(t.val)] + Int(4, t.size) && Enc(MapEnd) == [];
    hide Enc, Fits, Int;
    SkipPairsFollow(t.key, t.val, t.size, rest, depth - 1);
    EndFollows(MapEnd, SkipPairs(t.key, t.val, t.size, rest, depth - 1));
  }

  lemma FieldHeaderBytes(t: Token, k: Bytes, depth: nat)
    requires t.FieldBegin? && Fits(t)
    ensures SkipFieldBytes(Enc(t) + k, depth)
         == if SkipBytes(t.ty, k, depth).None? then None else SkipFieldBytes(SkipBytes(t.ty, k, depth).value, depth)
  {
    var bs := Enc(t) + k;
    assert bs[0] == Code(t.ty) && bs[3..] == k;
    hide SkipBytes, Int;
  }

  lemma {:induction false} SkipFieldsFollow(toks: Tokens, depth: nat)
    requires AllFit(toks)
    ensures Follows(SkipFields(toks, depth), SkipFieldBytes(EncAll(toks), depth))
    decreases depth, |toks|, 1, 0
  {
    hide Skip, SkipBytes;
    if AtStop(toks) {
      assert EncAll(toks)[1..] == EncAll(toks[1..]);
      EndFollows(StructEnd, Some(toks[1..]));
    } else if toks != [] && toks[0].FieldBegin? {
      EncStep(toks);
      FieldHeaderBytes(toks[0], EncAll(toks[1..]), depth);
      assert Enc(FieldEnd) == [];
      hide Enc, Fits, SkipFieldBytes, EncAll, AllFit;
      SkipFollows(toks[0].ty, toks[1..], depth);
      var r := Skip(toks[0].ty, toks[1..], depth);
      EndFollows(FieldEnd, r);
      if r.Some? && Expect(FieldEnd, r.value).Some? {
        SkipFieldsFollow(Expect(FieldEnd, r.value).value, depth);
      }
    }
  }

  lemma {:induction false} SkipElementsFollow(elem: TType, n: nat, toks: Tokens, depth: nat)
    requires AllFit(toks)
    ensures Follows(SkipElements(elem, n, toks, depth), SkipElementBytes(elem, n, EncAll(toks), depth))
    decreases depth, |toks|, 1, n
  {
    hide Skip, SkipBytes, EncAll, AllFit;
    if n > 0 {
      SkipFollows(elem, toks, depth);
      var r := Skip(elem, toks, depth);
      if r.Some? {
        SkipElementsFollow(elem, n - 1, r.value, depth);
      }
    }
  }

  lemma {:induction false} SkipPairsFollow(key: TType, val: TType, n: nat, toks: Tokens, depth: nat)
    requires AllFit(toks)
    ensures Follows(SkipPairs(key, val, n, toks, depth), SkipPairBytes(key, val, n, EncAll(toks), depth))
    decreases depth, |toks|, 1, n
  {
    hide Skip, SkipBytes, EncAll, AllFit;
    if n > 0 {
      SkipFollows(key, toks, depth);
      var r := Skip(key, toks, depth);
      if r.Some? {
        SkipFollows(val, r.value, depth);
        var v := Skip(val, r.value, depth);
        if v.Some? {
          SkipPairsFollow(key, val, n - 1, v.value, depth);
        }
      }
    }
  }
}
