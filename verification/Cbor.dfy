/**
  CBOR (section 2 of RFC 7049; json.hpp `to_cbor_internal` and
  `from_cbor_internal`): the encoder, the decoder, and their round trip.
 */
module Cbor {
  import opened JsonValue
  import opened Binary

  // initial bytes of the major types
  const UNSIGNED: nat := 0x00
  const NEGATIVE: nat := 0x20
  const TEXT: nat := 0x60
  const ARRAY: nat := 0x80
  const MAP: nat := 0xA0

  lemma BaseBounds()
    ensures TEXT <= 0xA0 && ARRAY <= 0xA0 && MAP <= 0xA0
  {
  }

  // ---------- encoder ----------

  function Head(base: nat, n: uint64): (r: Bytes)
    requires base <= 0xA0
    ensures r != []
  {
    if n <= 0x17 then [base + n]
    else if n <= 0xFF then [base + 0x18] + BigEndian(1, n)
    else if n <= 0xFFFF then [base + 0x19] + BigEndian(2, n)
    else if n <= 0xFFFF_FFFF then [base + 0x1A] + BigEndian(4, n)
    else [base + 0x1B] + BigEndian(8, n)
  }

  /** Every string, key, array and object has fewer than 2^64 parts, as any size_t does. */
  predicate Sized(j: Json) {
    match j
    case String(s) => |s| < 0x1_0000_0000_0000_0000
    case Array(es) => |es| < 0x1_0000_0000_0000_0000 && forall i :: 0 <= i < |es| ==> Sized(es[i])
    case Object(m) => |m| < 0x1_0000_0000_0000_0000 &&
                      forall k :: k in m ==> |k| < 0x1_0000_0000_0000_0000 && Sized(m[k])
    case _ => true
  }

  function Encode(j: Json): (r: Bytes)
    requires Sized(j)
    ensures r != []
    decreases j, 1, 0
  {
    match j
    case Null => [0xF6]
    case Bool(b) => [if b then 0xF5 else 0xF4]
    case Int(i) => if i >= 0 then Head(UNSIGNED, i) else Head(NEGATIVE, -1 - i)
    case Uint(u) => Head(UNSIGNED, u)
    case Float(bits) => [0xFB] + BigEndian(8, bits)
    case String(s) => Head(TEXT, |s|) + s
    case Array(es) => Head(ARRAY, |es|) + EncodeElems(j, 0)
    case Object(m) => Head(MAP, |m|) + EncodeMembers(j, SortedKeys(m.Keys))
  }

  function EncodeElems(j: Json, i: nat): Bytes
    requires j.Array? && Sized(j) && i <= |j.elems|
    decreases j, 0, |j.elems| - i
  {
    if i == |j.elems| then [] else Encode(j.elems[i]) + EncodeElems(j, i + 1)
  }

  function EncodeMembers(j: Json, ks: seq<Bytes>): Bytes
    requires j.Object? && Sized(j) && forall k :: k in ks ==> k in j.members
    decreases j, 0, |ks|
  {
    if ks == [] then []
    else Head(TEXT, |ks[0]|) + ks[0] + Encode(j.members[ks[0]]) + EncodeMembers(j, ks[1..])
  }

  // ---------- decoder ----------

  /** The argument of a head byte: in the byte itself or in the 1, 2, 4 or 8 bytes after it. */
  function Argument(v: Bytes, idx: nat, base: nat): (r: Read<uint64>)
    requires idx < |v| && base <= v[idx] <= base + 0x1B
    ensures r.Ok? ==> idx < r.value.1 <= |v|
  {
    var n := v[idx] - base;
    if n <= 0x17 then Ok((n, idx + 1)) else
      PowValues();
      var w := if n == 0x18 then 1 else if n == 0x19 then 2 else if n == 0x1A then 4 else 8;
      var x :- Fetch(v, idx, w);
      Ok((x, idx + 1 + w))
  }

  function Decode(v: Bytes, idx: nat): (r: Read<Json>)
    ensures r.Ok? ==> idx < r.value.1 <= |v|
    decreases if idx <= |v| then |v| - idx else 0, 0, 0
  {
    if idx >= |v| then Err(OutOfRange)
    else if v[idx] == 0x7F then
      var (s, i) :- DecodeChunks(v, idx + 1);
      Ok((String(s), i))
    else if 0x80 <= v[idx] <= 0x9B then
      var (n, i) :- Argument(v, idx, ARRAY);
      var (es, k) :- DecodeElems(v, i, n);
      Ok((Array(es), k))
    else if v[idx] == 0x9F then
      var (es, k) :- DecodeElemsToBreak(v, idx + 1);
      Ok((Array(es), k))
    else if 0xA0 <= v[idx] <= 0xBB then
      var (n, i) :- Argument(v, idx, MAP);
      var (m, k) :- DecodePairs(v, i, n, map[]);
      Ok((Object(m), k))
    else if v[idx] == 0xBF then
      var (m, k) :- DecodePairsToBreak(v, idx + 1, map[]);
      Ok((Object(m), k))
    else DecodeLeaf(v, idx)
  }

  /** The items without nested items. */
  function DecodeLeaf(v: Bytes, idx: nat): (r: Read<Json>)
    requires idx < |v|
    ensures r.Ok? ==> idx < r.value.1 <= |v|
  {
    var b := v[idx];
    if b <= 0x1B then
      var (n, i) :- Argument(v, idx, UNSIGNED);
      Ok((Uint(n), i))
    else if 0x20 <= b <= 0x3B then
      var (n, i) :- Argument(v, idx, NEGATIVE);
      Ok((Int(-1 - AsSigned(n)), i))
    else if 0x60 <= b <= 0x7B then
      var (n, i) :- Argument(v, idx, TEXT);
      var (s, k) :- Text(v, i, n);
      Ok((String(s), k))
    else if b == 0xF4 then Ok((Bool(false), idx + 1))
    else if b == 0xF5 then Ok((Bool(true), idx + 1))
    else if b == 0xF6 then Ok((Null, idx + 1))
    else DecodeFloat(v, idx)
  }

  function DecodeFloat(v: Bytes, idx: nat): (r: Read<Json>)
    requires idx < |v|
    ensures r.Ok? ==> idx < r.value.1 <= |v|
  {
    if v[idx] == 0xF9 then
      var half :- Fetch(v, idx, 2);
      Ok((Float(HalfToDouble(half)), idx + 3))
    else if v[idx] == 0xFA then
      var single :- Fetch(v, idx, 4);
      Ok((Float(SingleToDouble(single)), idx + 5))
    else if v[idx] == 0xFB then
      PowValues();
      var bits :- Fetch(v, idx, 8);
      Ok((Float(bits), idx + 9))
    else Err(InvalidArgument)
  }

  /** A text item, as a key or as a chunk of an indefinite-length text. */
  function DecodeText(v: Bytes, idx: nat): (r: Read<Bytes>)
    ensures r.Ok? ==> idx < r.value.1 <= |v|
    decreases if idx <= |v| then |v| - idx else 0, 1, 0
  {
    var (j, i) :- Decode(v, idx);
    if j.String? then Ok((j.s, i)) else Err(DomainError)
  }

  function DecodeChunks(v: Bytes, idx: nat): (r: Read<Bytes>)
    requires idx <= |v|
    ensures r.Ok? ==> idx < r.value.1 <= |v|
    decreases |v| - idx, 2, 0
  {
    if idx == |v| then Err(OutOfRange)
    else if v[idx] == 0xFF then Ok(([], idx + 1))
    else
      var (s, i) :- DecodeText(v, idx);
      var (rest, k) :- DecodeChunks(v, i);
      Ok((s + rest, k))
  }

  function DecodeElems(v: Bytes, idx: nat, len: nat): (r: Read<seq<Json>>)
    requires idx <= |v|
    ensures r.Ok? ==> idx <= r.value.1 <= |v| && |r.value.0| == len
    decreases |v| - idx, 2, len
  {
    if len == 0 then Ok(([], idx)) else
      var (x, i) :- Decode(v, idx);
      var (xs, k) :- DecodeElems(v, i, len - 1);
      Ok(([x] + xs, k))
  }

  function DecodeElemsToBreak(v: Bytes, idx: nat): (r: Read<seq<Json>>)
    requires idx <= |v|
    ensures r.Ok? ==> idx < r.value.1 <= |v|
    decreases |v| - idx, 2, 0
  {
    if idx == |v| then Err(OutOfRange)
    else if v[idx] == 0xFF then Ok(([], idx + 1))
    else
      var (x, i) :- Decode(v, idx);
      var (xs, k) :- DecodeElemsToBreak(v, i);
      Ok(([x] + xs, k))
  }

  function DecodePairs(v: Bytes, idx: nat, len: nat, m: map<Bytes, Json>): (r: Read<map<Bytes, Json>>)
    requires idx <= |v|
    ensures r.Ok? ==> idx <= r.value.1 <= |v|
    decreases |v| - idx, 2, len
  {
    if len == 0 then Ok((m, idx)) else
      var (key, i) :- DecodeText(v, idx);
      var (x, k) :- Decode(v, i);
      DecodePairs(v, k, len - 1, m[key := x])
  }

  function DecodePairsToBreak(v: Bytes, idx: nat, m: map<Bytes, Json>): (r: Read<map<Bytes, Json>>)
    requires idx <= |v|
    ensures r.Ok? ==> idx < r.value.1 <= |v|
    decreases |v| - idx, 2, 0
  {
    if idx == |v| then Err(OutOfRange)
    else if v[idx] == 0xFF then Ok((m, idx + 1))
    else
      var (key, i) :- DecodeText(v, idx);
      var (x, k) :- Decode(v, i);
      DecodePairsToBreak(v, k, m[key := x])
  }

  // ---------- round trip ----------

  lemma ArgumentOfHead(v: Bytes, idx: nat, base: nat, n: uint64)
    requires base <= 0xA0 && HoldsAt(v, idx, Head(base, n))
    ensures idx < |v| && base <= v[idx] <= base + 0x1B
    ensures Argument(v, idx, base) == Ok((n, idx + |Head(base, n)|))
  {
    hide HoldsAt;
    hide BigEndian;
    hide Fetch;
    var h := Head(base, n);
    HoldsFirst(v, idx, h);
    PowValues();
    if n > 0x17 {
      var w := if n <= 0xFF then 1 else if n <= 0xFFFF then 2 else if n <= 0xFFFF_FFFF then 4 else 8;
      assert h == [h[0]] + BigEndian(w, n);
      HoldsConcat(v, idx, [h[0]], BigEndian(w, n));
      FetchHeld(v, idx, w, n);
    }
  }

  lemma HeldText(v: Bytes, idx: nat, s: Bytes)
    requires |s| < 0x1_0000_0000_0000_0000
    requires HoldsAt(v, idx, Head(TEXT, |s|) + s)
    ensures Decode(v, idx) == Ok((String(s), idx + |Head(TEXT, |s|)| + |s|))
    ensures DecodeText(v, idx) == Ok((s, idx + |Head(TEXT, |s|)| + |s|))
  {
    hide Head;
    hide Argument;
    hide DecodeElems;
    hide DecodePairs;
    HoldsConcat(v, idx, Head(TEXT, |s|), s);
    ArgumentOfHead(v, idx, TEXT, |s|);
  }

  /**
    Round trip in context: wherever a vector holds the encoding of `j`, decoding
    there returns `j` up to `Canonical` and stops exactly at the end of it.
   */
  lemma {:induction false} DecodeEncode(v: Bytes, idx: nat, j: Json)
    requires Sized(j) && HoldsAt(v, idx, Encode(j))
    ensures Decode(v, idx) == Ok((Canonical(j), idx + |Encode(j)|))
    decreases j, 2, 0
  {
    match j
    case Array(es) => DecodeEncodeArray(v, idx, j);
    case Object(m) => DecodeEncodeObject(v, idx, j);
    case _ => DecodeEncodeScalar(v, idx, j);
  }

  lemma DecodeEncodeScalar(v: Bytes, idx: nat, j: Json)
    requires !j.Array? && !j.Object? && Sized(j) && HoldsAt(v, idx, Encode(j))
    ensures Decode(v, idx) == Ok((Canonical(j), idx + |Encode(j)|))
  {
    hide Head;
    hide Argument;
    hide HoldsAt;
    hide BigEndian;
    hide DecodeElems;
    hide DecodePairs;
    hide DecodeChunks;
    hide DecodeElemsToBreak;
    hide DecodePairsToBreak;
    HoldsFirst(v, idx, Encode(j));
    match j
    case Null =>
    case Bool(_) =>
    case Int(i) => ArgumentOfHead(v, idx, if i >= 0 then UNSIGNED else NEGATIVE, if i >= 0 then i else -1 - i);
    case Uint(u) => ArgumentOfHead(v, idx, UNSIGNED, u);
    case Float(bits) =>
      PowValues();
      HoldsConcat(v, idx, [0xFB], BigEndian(8, bits));
      FetchHeld(v, idx, 8, bits);
    case String(s) => HeldText(v, idx, s);
  }

  lemma {:induction false} DecodeEncodeArray(v: Bytes, idx: nat, j: Json)
    requires j.Array? && Sized(j) && HoldsAt(v, idx, Encode(j))
    ensures Decode(v, idx) == Ok((Canonical(j), idx + |Encode(j)|))
    decreases j, 1, 0
  {
    hide Head;
    hide Argument;
    hide HoldsAt;
    hide DecodeElems;
    hide DecodePairs;
    hide EncodeElems;
    hide Canonical;
    var h := Head(ARRAY, |j.elems|);
    HoldsConcat(v, idx, h, EncodeElems(j, 0));
    ArgumentOfHead(v, idx, ARRAY, |j.elems|);
    DecodeEncodeElems(v, idx + |h|, j, 0);
    CanonicalArray(j);
  }

  lemma {:induction false} DecodeEncodeElems(v: Bytes, idx: nat, j: Json, i: nat)
    requires j.Array? && Sized(j) && i <= |j.elems| && HoldsAt(v, idx, EncodeElems(j, i)) && idx <= |v|
    ensures DecodeElems(v, idx, |j.elems| - i) == Ok((CanonicalFrom(j.elems, i), idx + |EncodeElems(j, i)|))
    decreases j, 0, |j.elems| - i
  {
    hide Encode;
    hide Decode;
    hide Canonical;
    hide HoldsAt;
    if i < |j.elems| {
      var e := Encode(j.elems[i]);
      HoldsConcat(v, idx, e, EncodeElems(j, i + 1));
      DecodeEncode(v, idx, j.elems[i]);
      DecodeEncodeElems(v, idx + |e|, j, i + 1);
    }
  }

  lemma DecodeMap(v: Bytes, idx: nat, n: uint64, i: nat, m: map<Bytes, Json>, k: nat)
    requires idx < |v| && MAP <= v[idx] <= MAP + 0x1B && i <= |v|
    requires Argument(v, idx, MAP) == Ok((n, i)) && DecodePairs(v, i, n, map[]) == Ok((m, k))
    ensures Decode(v, idx) == Ok((Object(m), k))
  {
    hide Argument;
    hide DecodePairs;
  }

  lemma EncodeObject(j: Json)
    requires j.Object? && Sized(j)
    ensures |SortedKeys(j.members.Keys)| == |j.members|
    ensures Encode(j) == Head(MAP, |j.members|) + EncodeMembers(j, SortedKeys(j.members.Keys))
  {
    hide EncodeMembers;
    hide Head;
    hide Sized;
    hide SortedKeys;
    assert |j.members.Keys| == |j.members|;
  }

  lemma {:induction false} DecodeEncodeObject(v: Bytes, idx: nat, j: Json)
    requires j.Object? && Sized(j) && HoldsAt(v, idx, Encode(j))
    ensures Decode(v, idx) == Ok((Canonical(j), idx + |Encode(j)|))
    decreases j, 1, 0
  {
    hide *;
    BaseBounds();
    SizedParts(j);
    EncodeObject(j);
    CanonicalObject(j);
    DecodeEncodePairs(v, idx, j, SortedKeys(j.members.Keys), |j.members|);
  }

  lemma {:induction false} DecodeEncodePairs(v: Bytes, idx: nat, j: Json, ks: seq<Bytes>, n: uint64)
    requires j.Object? && Sized(j) && n == |ks| && forall k :: k in ks ==> k in j.members
    requires HoldsAt(v, idx, Head(MAP, n) + EncodeMembers(j, ks))
    ensures Decode(v, idx) ==
            Ok((Object(CanonicalMembers(j, ks, map[])), idx + |Head(MAP, n) + EncodeMembers(j, ks)|))
    decreases j, 0, |ks| + 1
  {
    hide *;
    BaseBounds();
    var h, body := Head(MAP, n), EncodeMembers(j, ks);
    HoldsConcat(v, idx, h, body);
    ArgumentOfHead(v, idx, MAP, n);
    HoldsBounds(v, idx + |h|, body);
    DecodeEncodeMembers(v, idx + |h|, j, ks, map[]);
    DecodeMap(v, idx, n, idx + |h|, CanonicalMembers(j, ks, map[]), idx + |h| + |body|);
  }

  lemma SizedParts(j: Json)
    requires Sized(j)
    ensures j.Array? ==> |j.elems| < 0x1_0000_0000_0000_0000 && forall i :: 0 <= i < |j.elems| ==> Sized(j.elems[i])
    ensures j.Object? ==> |j.members| < 0x1_0000_0000_0000_0000
    ensures j.Object? ==> forall k :: k in j.members ==> |k| < 0x1_0000_0000_0000_0000 && Sized(j.members[k])
  {
  }

  lemma EncodeMembersStep(j: Json, ks: seq<Bytes>)
    requires j.Object? && Sized(j) && ks != [] && forall k :: k in ks ==> k in j.members
    ensures |ks[0]| < 0x1_0000_0000_0000_0000 && Sized(j.members[ks[0]])
    ensures EncodeMembers(j, ks) ==
            (Head(TEXT, |ks[0]|) + ks[0]) + Encode(j.members[ks[0]]) + EncodeMembers(j, ks[1..])
  {
    hide Head;
    hide Encode;
  }

  lemma DecodePairsStep(v: Bytes, idx: nat, len: nat, m: map<Bytes, Json>, key: Bytes, i: nat, x: Json, k: nat)
    requires idx <= |v| && len > 0 && DecodeText(v, idx) == Ok((key, i)) && Decode(v, i) == Ok((x, k))
    ensures k <= |v| && DecodePairs(v, idx, len, m) == DecodePairs(v, k, len - 1, m[key := x])
  {
    hide Decode;
    hide DecodeText;
  }

  lemma {:induction false} DecodeEncodeMembers(v: Bytes, idx: nat, j: Json, ks: seq<Bytes>, m: map<Bytes, Json>)
    requires j.Object? && Sized(j) && forall k :: k in ks ==> k in j.members
    requires HoldsAt(v, idx, EncodeMembers(j, ks)) && idx <= |v|
    ensures DecodePairs(v, idx, |ks|, m) == Ok((CanonicalMembers(j, ks, m), idx + |EncodeMembers(j, ks)|))
    decreases j, 0, |ks|
  {
    hide *;
    BaseBounds();
    if ks == [] {
      NoMembers(v, idx, j, m);
    } else {
      EncodeMembersStep(j, ks);
      var k := ks[0];
      var text, e, rest := Head(TEXT, |k|) + k, Encode(j.members[k]), EncodeMembers(j, ks[1..]);
      HoldsConcat(v, idx, text + e, rest);
      HoldsConcat(v, idx, text, e);
      HeldText(v, idx, k);
      DecodeEncode(v, idx + |text|, j.members[k]);
      var x := Canonical(j.members[k]);
      DecodePairsStep(v, idx, |ks|, m, k, idx + |text|, x, idx + |text| + |e|);
      DecodeEncodeMembers(v, idx + |text| + |e|, j, ks[1..], m[k := x]);
      CanonicalMembersStep(j, ks, m);
    }
  }

  lemma NoMembers(v: Bytes, idx: nat, j: Json, m: map<Bytes, Json>)
    requires j.Object? && Sized(j) && idx <= |v|
    ensures EncodeMembers(j, []) == [] && CanonicalMembers(j, [], m) == m
    ensures DecodePairs(v, idx, 0, m) == Ok((m, idx))
  {
  }

  // ---------- every successful read is stable and self-delimiting ----------

  lemma ArgumentExtends(v: Bytes, w: Bytes, idx: nat, base: nat)
    requires idx < |v| && base <= v[idx] <= base + 0x1B && Argument(v, idx, base).Ok?
    ensures Argument(v + w, idx, base) == Argument(v, idx, base)
  {
    hide ValueOf;
    FetchExtends(v, w, idx);
  }

  lemma LeafExtends(v: Bytes, w: Bytes, idx: nat)
    requires idx < |v| && DecodeLeaf(v, idx).Ok?
    ensures DecodeLeaf(v + w, idx) == DecodeLeaf(v, idx)
  {
    hide Argument;
    hide Fetch;
    var b := v[idx];
    assert (v + w)[idx] == b;
    if b <= 0x1B {
      ArgumentExtends(v, w, idx, UNSIGNED);
    } else if 0x20 <= b <= 0x3B {
      ArgumentExtends(v, w, idx, NEGATIVE);
    } else if 0x60 <= b <= 0x7B {
      ArgumentExtends(v, w, idx, TEXT);
      var (n, i) := Argument(v, idx, TEXT).value;
      assert (v + w)[i..i + n] == v[i..i + n];
    } else {
      FetchExtends(v, w, idx);
    }
  }

  /** Appending bytes never changes a successful read. */
  lemma {:induction false} DecodeExtends(v: Bytes, w: Bytes, idx: nat)
    requires Decode(v, idx).Ok?
    ensures Decode(v + w, idx) == Decode(v, idx)
    decreases if idx <= |v| then |v| - idx else 0, 0, 0
  {
    hide Argument;
    hide DecodeLeaf;
    hide DecodeElems;
    hide DecodePairs;
    hide DecodeChunks;
    hide DecodeElemsToBreak;
    hide DecodePairsToBreak;
    var b := v[idx];
    assert (v + w)[idx] == b;
    if b == 0x7F {
      ChunksExtend(v, w, idx + 1);
    } else if 0x80 <= b <= 0x9B {
      ArgumentExtends(v, w, idx, ARRAY);
      var (n, i) := Argument(v, idx, ARRAY).value;
      ElemsExtend(v, w, i, n);
    } else if b == 0x9F {
      ElemsToBreakExtend(v, w, idx + 1);
    } else if 0xA0 <= b <= 0xBB {
      ArgumentExtends(v, w, idx, MAP);
      var (n, i) := Argument(v, idx, MAP).value;
      PairsExtend(v, w, i, n, map[]);
    } else if b == 0xBF {
      PairsToBreakExtend(v, w, idx + 1, map[]);
    } else {
      LeafExtends(v, w, idx);
    }
  }

  lemma {:induction false} TextExtends(v: Bytes, w: Bytes, idx: nat)
    requires DecodeText(v, idx).Ok?
    ensures DecodeText(v + w, idx) == DecodeText(v, idx)
    decreases if idx <= |v| then |v| - idx else 0, 1, 0
  {
    hide Decode;
    DecodeExtends(v, w, idx);
  }

  lemma {:induction false} ChunksExtend(v: Bytes, w: Bytes, idx: nat)
    requires idx <= |v| && DecodeChunks(v, idx).Ok?
    ensures DecodeChunks(v + w, idx) == DecodeChunks(v, idx)
    decreases |v| - idx, 2, 0
  {
    hide DecodeText;
    assert (v + w)[idx] == v[idx];
    if v[idx] != 0xFF {
      TextExtends(v, w, idx);
      ChunksExtend(v, w, DecodeText(v, idx).value.1);
    }
  }

  lemma {:induction false} ElemsExtend(v: Bytes, w: Bytes, idx: nat, len: nat)
    requires idx <= |v| && DecodeElems(v, idx, len).Ok?
    ensures DecodeElems(v + w, idx, len) == DecodeElems(v, idx, len)
    decreases |v| - idx, 2, len
  {
    hide Decode;
    if len > 0 {
      DecodeExtends(v, w, idx);
      ElemsExtend(v, w, Decode(v, idx).value.1, len - 1);
    }
  }

  lemma {:induction false} ElemsToBreakExtend(v: Bytes, w: Bytes, idx: nat)
    requires idx <= |v| && DecodeElemsToBreak(v, idx).Ok?
    ensures DecodeElemsToBreak(v + w, idx) == DecodeElemsToBreak(v, idx)
    decreases |v| - idx, 2, 0
  {
    hide Decode;
    assert (v + w)[idx] == v[idx];
    if v[idx] != 0xFF {
      DecodeExtends(v, w, idx);
      ElemsToBreakExtend(v, w, Decode(v, idx).value.1);
    }
  }

  lemma {:induction false} PairsExtend(v: Bytes, w: Bytes, idx: nat, len: nat, m: map<Bytes, Json>)
    requires idx <= |v| && DecodePairs(v, idx, len, m).Ok?
    ensures DecodePairs(v + w, idx, len, m) == DecodePairs(v, idx, len, m)
    decreases |v| - idx, 2, len
  {
    hide Decode;
    hide DecodeText;
    if len > 0 {
      TextExtends(v, w, idx);
      var (key, i) := DecodeText(v, idx).value;
      DecodeExtends(v, w, i);
      var (x, k) := Decode(v, i).value;
      PairsExtend(v, w, k, len - 1, m[key := x]);
    }
  }

  lemma {:induction false} PairsToBreakExtend(v: Bytes, w: Bytes, idx: nat, m: map<Bytes, Json>)
    requires idx <= |v| && DecodePairsToBreak(v, idx, m).Ok?
    ensures DecodePairsToBreak(v + w, idx, m) == DecodePairsToBreak(v, idx, m)
    decreases |v| - idx, 2, 0
  {
    hide Decode;
    hide DecodeText;
    assert (v + w)[idx] == v[idx];
    if v[idx] != 0xFF {
      TextExtends(v, w, idx);
      var (key, i) := DecodeText(v, idx).value;
      DecodeExtends(v, w, i);
      var (x, k) := Decode(v, i).value;
      PairsToBreakExtend(v, w, k, m[key := x]);
    }
  }

  /** No strict prefix of an encoding decodes. */
  lemma PrefixFree(j: Json, n: nat)
    requires Sized(j) && n < |Encode(j)|
    ensures Decode(Encode(j)[..n], 0).Err?
  {
    hide Encode;
    hide Decode;
    hide Canonical;
    var e := Encode(j);
    var p := e[..n];
    assert p + e[n..] == e == e[0..|e|];
    DecodeEncode(e, 0, j);
    if Decode(p, 0).Ok? {
      DecodeExtends(p, e[n..], 0);
      assert false;
    }
  }

  /** `from_cbor(to_cbor(j))`, followed by anything. */
  lemma RoundTrip(j: Json, trailing: Bytes)
    requires Sized(j)
    ensures Decode(Encode(j) + trailing, 0) == Ok((Canonical(j), |Encode(j)|))
  {
    hide Encode;
    hide Decode;
    hide Canonical;
    var v := Encode(j) + trailing;
    assert v[0..|Encode(j)|] == Encode(j);
    DecodeEncode(v, 0, j);
  }

  // ---------- the recursive procedures ----------

  /** `to_cbor_internal`: appends to the vector it is given. */
  method Append(j: Json, v: Bytes) returns (r: Bytes)
    requires Sized(j)
    ensures r == v + Encode(j)
    decreases j
  {
    hide Head;
    match j {
      case Null => r := v + [0xF6];
      case Bool(b) => r := v + [if b then 0xF5 else 0xF4];
      case Int(i) =>
        if i >= 0 {
          r := v + Head(UNSIGNED, i);
        } else {
          var positive := -1 - i;
          r := v + Head(NEGATIVE, positive);
        }
      case Uint(u) => r := v + Head(UNSIGNED, u);
      case Float(bits) =>
        r := v + [0xFB];
        r := r + BigEndian(8, bits);
        assert r == v + ([0xFB] + BigEndian(8, bits));
      case String(s) =>
        r := v + Head(TEXT, |s|);
        r := r + s;
      case Array(es) =>
        r := AppendArray(j, v);
      case Object(m) =>
        r := AppendObject(j, v);
    }
  }

  method AppendArray(j: Json, v: Bytes) returns (r: Bytes)
    requires j.Array? && Sized(j)
    ensures r == v + (Head(ARRAY, |j.elems|) + EncodeElems(j, 0))
    decreases j, 0
  {
    hide Head;
    hide Encode;
    r := v + Head(ARRAY, |j.elems|);
    ghost var start := r;
    for n := 0 to |j.elems|
      invariant start + EncodeElems(j, 0) == r + EncodeElems(j, n)
    {
      ghost var before := r;
      r := Append(j.elems[n], r);
      assert before + EncodeElems(j, n) == r + EncodeElems(j, n + 1);
    }
    assert r == start + EncodeElems(j, 0);
  }

  method AppendObject(j: Json, v: Bytes) returns (r: Bytes)
    requires j.Object? && Sized(j)
    ensures r == v + (Head(MAP, |j.members|) + EncodeMembers(j, SortedKeys(j.members.Keys)))
    decreases j, 0
  {
    hide *;
    BaseBounds();
    SizedParts(j);
    var h := Head(MAP, |j.members|);
    var ks := SortedKeys(j.members.Keys);
    r := AppendMembers(j, ks, v + h);
    assert v + h + EncodeMembers(j, ks) == v + (h + EncodeMembers(j, ks));
  }

  method AppendMembers(j: Json, ks: seq<Bytes>, v: Bytes) returns (r: Bytes)
    requires j.Object? && Sized(j) && forall k :: k in ks ==> k in j.members
    ensures r == v + EncodeMembers(j, ks)
    decreases j, 0, 0
  {
    hide *;
    BaseBounds();
    r := v;
    assert ks[0..] == ks;
    for n := 0 to |ks|
      invariant v + EncodeMembers(j, ks) == r + EncodeMembers(j, ks[n..])
    {
      var k := ks[n];
      EncodeMembersStep(j, ks[n..]);
      assert ks[n..][0] == k && ks[n..][1..] == ks[n + 1..];
      ghost var text, rest := Head(TEXT, |k|) + k, EncodeMembers(j, ks[n + 1..]);
      ghost var before := r;
      r := r + (Head(TEXT, |k|) + k);
      r := Append(j.members[k], r);
      assert before + (text + Encode(j.members[k]) + rest) == before + text + Encode(j.members[k]) + rest;
    }
    assert ks[|ks|..] == [];
    NoMembers([], 0, j, map[]);
  }

  lemma ElemsStep(v: Bytes, idx: nat, len: nat, xs: seq<Json>)
    requires idx <= |v|
    ensures Prepend(xs, DecodeElems(v, idx, 0)) == Ok((xs, idx))
    ensures len > 0 ==>
            match Decode(v, idx) {
              case Ok((x, i)) =>
                Prepend(xs, DecodeElems(v, idx, len)) == Prepend(xs + [x], DecodeElems(v, i, len - 1))
              case Err(e) => Prepend(xs, DecodeElems(v, idx, len)) == Err(e)
            }
  {
    hide Decode;
    assert xs + [] == xs;
    if len > 0 && Decode(v, idx).Ok? {
      var (x, i) := Decode(v, idx).value;
      match DecodeElems(v, i, len - 1)
      case Ok((ys, k)) => assert xs + ([x] + ys) == xs + [x] + ys;
      case Err(_) =>
    }
  }

  lemma ElemsToBreakStep(v: Bytes, idx: nat, xs: seq<Json>)
    requires idx < |v|
    ensures v[idx] == 0xFF ==> Prepend(xs, DecodeElemsToBreak(v, idx)) == Ok((xs, idx + 1))
    ensures v[idx] != 0xFF ==>
            match Decode(v, idx) {
              case Ok((x, i)) =>
                Prepend(xs, DecodeElemsToBreak(v, idx)) == Prepend(xs + [x], DecodeElemsToBreak(v, i))
              case Err(e) => Prepend(xs, DecodeElemsToBreak(v, idx)) == Err(e)
            }
  {
    hide Decode;
    assert xs + [] == xs;
    if v[idx] != 0xFF && Decode(v, idx).Ok? {
      var (x, i) := Decode(v, idx).value;
      match DecodeElemsToBreak(v, i)
      case Ok((ys, k)) => assert xs + ([x] + ys) == xs + [x] + ys;
      case Err(_) =>
    }
  }

  lemma ChunksStep(v: Bytes, idx: nat, xs: Bytes)
    requires idx < |v|
    ensures v[idx] == 0xFF ==> Prepend(xs, DecodeChunks(v, idx)) == Ok((xs, idx + 1))
    ensures v[idx] != 0xFF ==>
            match DecodeText(v, idx) {
              case Ok((x, i)) => Prepend(xs, DecodeChunks(v, idx)) == Prepend(xs + x, DecodeChunks(v, i))
              case Err(e) => Prepend(xs, DecodeChunks(v, idx)) == Err(e)
            }
  {
    hide DecodeText;
    assert xs + [] == xs;
    if v[idx] != 0xFF && DecodeText(v, idx).Ok? {
      var (x, i) := DecodeText(v, idx).value;
      match DecodeChunks(v, i)
      case Ok((ys, k)) => assert xs + (x + ys) == xs + x + ys;
      case Err(_) =>
    }
  }

  /** `from_cbor_internal`: reads at `start` and leaves `idx` after the item. */
  method Parse(v: Bytes, start: nat) returns (r: Result<Json>, idx: nat)
    ensures Agrees(r, idx, Decode(v, start))
    decreases if start <= |v| then |v| - start else 0, 0
  {
    hide DecodeElems;
    hide DecodePairs;
    hide DecodeChunks;
    hide DecodeElemsToBreak;
    hide DecodePairsToBreak;
    hide Argument;
    hide DecodeLeaf;
    idx := start + 1;
    if start >= |v| {
      return Err(OutOfRange), idx;
    }
    var b := v[start];
    if b == 0x7F {
      var s;
      s, idx := ParseChunks(v, idx);
      r := match s case Ok(x) => Ok(String(x)) case Err(e) => Err(e);
    } else if 0x80 <= b <= 0x9B {
      match Argument(v, start, ARRAY) {
        case Err(e) => return Err(e), idx;
        case Ok((len, i)) =>
          var es;
          es, idx := ParseElems(v, i, len);
          r := match es case Ok(x) => Ok(Array(x)) case Err(e) => Err(e);
      }
    } else if b == 0x9F {
      var es;
      es, idx := ParseElemsToBreak(v, idx);
      r := match es case Ok(x) => Ok(Array(x)) case Err(e) => Err(e);
    } else if 0xA0 <= b <= 0xBB {
      match Argument(v, start, MAP) {
        case Err(e) => return Err(e), idx;
        case Ok((len, i)) =>
          var m;
          m, idx := ParsePairs(v, i, len);
          r := match m case Ok(x) => Ok(Object(x)) case Err(e) => Err(e);
      }
    } else if b == 0xBF {
      var m;
      m, idx := ParsePairsToBreak(v, idx);
      r := match m case Ok(x) => Ok(Object(x)) case Err(e) => Err(e);
    } else {
      match DecodeLeaf(v, start) {
        case Ok((x, i)) => return Ok(x), i;
        case Err(e) => return Err(e), idx;
      }
    }
  }

  method ParseText(v: Bytes, start: nat) returns (r: Result<Bytes>, idx: nat)
    ensures Agrees(r, idx, DecodeText(v, start))
    decreases if start <= |v| then |v| - start else 0, 1
  {
    hide Decode;
    var j;
    j, idx := Parse(v, start);
    match j {
      case Err(e) => r := Err(e);
      case Ok(x) => r := if x.String? then Ok(x.s) else Err(DomainError);
    }
  }

  method ParseChunks(v: Bytes, start: nat) returns (r: Result<Bytes>, idx: nat)
    requires start <= |v|
    ensures Agrees(r, idx, DecodeChunks(v, start))
    decreases |v| - start, 2
  {
    hide DecodeText;
    var result: Bytes := [];
    idx := start;
    PrependNothing(DecodeChunks(v, start));
    while idx < |v| && v[idx] != 0xFF
      invariant start <= idx <= |v|
      invariant DecodeChunks(v, start) == Prepend(result, DecodeChunks(v, idx))
      decreases |v| - idx
    {
      ChunksStep(v, idx, result);
      var s, next := ParseText(v, idx);
      match s {
        case Err(e) => return Err(e), next;
        case Ok(x) => result := result + x;
      }
      idx := next;
    }
    if idx == |v| {
      return Err(OutOfRange), idx;
    }
    ChunksStep(v, idx, result);
    return Ok(result), idx + 1;
  }

  method ParseElems(v: Bytes, start: nat, len: nat) returns (r: Result<seq<Json>>, idx: nat)
    requires start <= |v|
    ensures Agrees(r, idx, DecodeElems(v, start, len))
    decreases |v| - start, 2
  {
    hide Decode;
    hide DecodeElems;
    var result: seq<Json> := [];
    idx := start;
    PrependNothing(DecodeElems(v, start, len));
    for n := 0 to len
      invariant start <= idx <= |v|
      invariant DecodeElems(v, start, len) == Prepend(result, DecodeElems(v, idx, len - n))
    {
      ElemsStep(v, idx, len - n, result);
      var x, next := Parse(v, idx);
      match x {
        case Err(e) => return Err(e), next;
        case Ok(y) => result := result + [y];
      }
      idx := next;
    }
    ElemsStep(v, idx, 0, result);
    return Ok(result), idx;
  }

  method ParseElemsToBreak(v: Bytes, start: nat) returns (r: Result<seq<Json>>, idx: nat)
    requires start <= |v|
    ensures Agrees(r, idx, DecodeElemsToBreak(v, start))
    decreases |v| - start, 2
  {
    hide Decode;
    var result: seq<Json> := [];
    idx := start;
    PrependNothing(DecodeElemsToBreak(v, start));
    while idx < |v| && v[idx] != 0xFF
      invariant start <= idx <= |v|
      invariant DecodeElemsToBreak(v, start) == Prepend(result, DecodeElemsToBreak(v, idx))
      decreases |v| - idx
    {
      ElemsToBreakStep(v, idx, result);
      var x, next := Parse(v, idx);
      match x {
        case Err(e) => return Err(e), next;
        case Ok(y) => result := result + [y];
      }
      idx := next;
    }
    if idx == |v| {
      return Err(OutOfRange), idx;
    }
    ElemsToBreakStep(v, idx, result);
    return Ok(result), idx + 1;
  }

  method ParsePairs(v: Bytes, start: nat, len: nat) returns (r: Result<map<Bytes, Json>>, idx: nat)
    requires start <= |v|
    ensures Agrees(r, idx, DecodePairs(v, start, len, map[]))
    decreases |v| - start, 2
  {
    hide Decode;
    hide DecodeText;
    var result: map<Bytes, Json> := map[];
    idx := start;
    for n := 0 to len
      invariant start <= idx <= |v|
      invariant DecodePairs(v, start, len, map[]) == DecodePairs(v, idx, len - n, result)
    {
      var key, mid := ParseText(v, idx);
      if key.Err? {
        return Err(key.error), mid;
      }
      var x, next := Parse(v, mid);
      if x.Err? {
        return Err(x.error), next;
      }
      result := result[key.value := x.value];
      idx := next;
    }
    return Ok(result), idx;
  }

  method ParsePairsToBreak(v: Bytes, start: nat) returns (r: Result<map<Bytes, Json>>, idx: nat)
    requires start <= |v|
    ensures Agrees(r, idx, DecodePairsToBreak(v, start, map[]))
    decreases |v| - start, 2
  {
    hide Decode;
    hide DecodeText;
    var result: map<Bytes, Json> := map[];
    idx := start;
    while idx < |v| && v[idx] != 0xFF
      invariant start <= idx <= |v|
      invariant DecodePairsToBreak(v, start, map[]) == DecodePairsToBreak(v, idx, result)
      decreases |v| - idx
    {
      var key, mid := ParseText(v, idx);
      if key.Err? {
        return Err(key.error), mid;
      }
      var x, next := Parse(v, mid);
      if x.Err? {
        return Err(x.error), next;
      }
      result := result[key.value := x.value];
      idx := next;
    }
    if idx == |v| {
      return Err(OutOfRange), idx;
    }
    return Ok(result), idx + 1;
  }
}
