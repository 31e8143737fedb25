/**
  MessagePack (json.hpp `to_msgpack_internal` and `from_msgpack_internal`): the
  encoder, the decoder, and their round trip.
 */
module MsgPack {
  import opened JsonValue
  import opened Binary

  // ---------- encoder ----------

  function UintHead(u: uint64): (r: Bytes)
    ensures r != []
  {
    if u < 128 then [u]
    else if u <= 0xFF then [0xCC] + BigEndian(1, u)
    else if u <= 0xFFFF then [0xCD] + BigEndian(2, u)
    else if u <= 0xFFFF_FFFF then [0xCE] + BigEndian(4, u)
    else [0xCF] + BigEndian(8, u)
  }

  /** Negative numbers are written in two's complement. */
  function NegativeHead(i: int64): (r: Bytes)
    requires i < 0
    ensures r != []
  {
    if i >= -32 then [i + 0x100]
    else if i >= -0x80 then [0xD0] + BigEndian(1, i + 0x100)
    else if i >= -0x8000 then [0xD1] + BigEndian(2, i + 0x1_0000)
    else if i >= -0x8000_0000 then [0xD2] + BigEndian(4, i + 0x1_0000_0000)
    else [0xD3] + BigEndian(8, i + 0x1_0000_0000_0000_0000)
  }

  /** No head at all is written for a length of 2^32 or more. */
  function TextHead(n: nat): Bytes {
    if n <= 31 then [0xA0 + n]
    else if n <= 0xFF then [0xD9] + BigEndian(1, n)
    else if n <= 0xFFFF then [0xDA] + BigEndian(2, n)
    else if n <= 0xFFFF_FFFF then [0xDB] + BigEndian(4, n)
    else []
  }

  function ArrayHead(n: nat): Bytes {
    if n <= 15 then [0x90 + n]
    else if n <= 0xFFFF then [0xDC] + BigEndian(2, n)
    else if n <= 0xFFFF_FFFF then [0xDD] + BigEndian(4, n)
    else []
  }

  function MapHead(n: nat): Bytes {
    if n <= 15 then [0x80 + n]
    else if n <= 0xFFFF then [0xDE] + BigEndian(2, n)
    else if n <= 0xFFFF_FFFF then [0xDF] + BigEndian(4, n)
    else []
  }

  function Encode(j: Json): Bytes
    decreases j, 1, 0
  {
    match j
    case Null => [0xC0]
    case Bool(b) => [if b then 0xC3 else 0xC2]
    case Int(i) => if i >= 0 then UintHead(i) else NegativeHead(i)
    case Uint(u) => UintHead(u)
    case Float(bits) => [0xCB] + BigEndian(8, bits)
    case String(s) => TextHead(|s|) + s
    case Array(es) => ArrayHead(|es|) + EncodeElems(j, 0)
    case Object(m) => MapHead(|m|) + EncodeMembers(j, SortedKeys(m.Keys))
  }

  function EncodeElems(j: Json, i: nat): Bytes
    requires j.Array? && i <= |j.elems|
    decreases j, 0, |j.elems| - i
  {
    if i == |j.elems| then [] else Encode(j.elems[i]) + EncodeElems(j, i + 1)
  }

  function EncodeMembers(j: Json, ks: seq<Bytes>): Bytes
    requires j.Object? && forall k :: k in ks ==> k in j.members
    decreases j, 0, |ks|
  {
    if ks == [] then []
    else TextHead(|ks[0]|) + ks[0] + Encode(j.members[ks[0]]) + EncodeMembers(j, ks[1..])
  }

  // ---------- decoder ----------

  predicate IsText(b: byte) { 0xA0 <= b <= 0xBF || 0xD9 <= b <= 0xDB }
  predicate IsArray(b: byte) { 0x90 <= b <= 0x9F || 0xDC <= b <= 0xDD }
  predicate IsMap(b: byte) { 0x80 <= b <= 0x8F || 0xDE <= b <= 0xDF }

  /** The length in the `w` bytes after the head. */
  function WideLength(v: Bytes, idx: nat, w: nat): (r: Read<nat>)
    ensures r.Ok? ==> idx < r.value.1 <= |v| && r.value.0 < Pow256(w)
  {
    var n :- Fetch(v, idx, w);
    Ok((n, idx + 1 + w))
  }

  function TextLength(v: Bytes, idx: nat): (r: Read<nat>)
    requires idx < |v| && IsText(v[idx])
    ensures r.Ok? ==> idx < r.value.1 <= |v| && r.value.0 < 0x1_0000_0000
  {
    PowValues();
    if v[idx] <= 0xBF then Ok((v[idx] - 0xA0, idx + 1))
    else WideLength(v, idx, if v[idx] == 0xD9 then 1 else if v[idx] == 0xDA then 2 else 4)
  }

  function ArrayLength(v: Bytes, idx: nat): (r: Read<nat>)
    requires idx < |v| && IsArray(v[idx])
    ensures r.Ok? ==> idx < r.value.1 <= |v| && r.value.0 < 0x1_0000_0000
  {
    PowValues();
    if v[idx] <= 0x9F then Ok((v[idx] - 0x90, idx + 1))
    else WideLength(v, idx, if v[idx] == 0xDC then 2 else 4)
  }

  function MapLength(v: Bytes, idx: nat): (r: Read<nat>)
    requires idx < |v| && IsMap(v[idx])
    ensures r.Ok? ==> idx < r.value.1 <= |v| && r.value.0 < 0x1_0000_0000
  {
    PowValues();
    if v[idx] <= 0x8F then Ok((v[idx] - 0x80, idx + 1))
    else WideLength(v, idx, if v[idx] == 0xDE then 2 else 4)
  }

  function Decode(v: Bytes, idx: nat): (r: Read<Json>)
    ensures r.Ok? ==> idx < r.value.1 <= |v|
    decreases if idx <= |v| then |v| - idx else 0, 0, 0
  {
    if idx >= |v| then Err(OutOfRange)
    else if IsMap(v[idx]) then
      var (n, i) :- MapLength(v, idx);
      var (m, k) :- DecodePairs(v, i, n, map[]);
      Ok((Object(m), k))
    else if IsArray(v[idx]) then
      var (n, i) :- ArrayLength(v, idx);
      var (es, k) :- DecodeElems(v, i, n);
      Ok((Array(es), k))
    else DecodeLeaf(v, idx)
  }

  function DecodeLeaf(v: Bytes, idx: nat): (r: Read<Json>)
    requires idx < |v|
    ensures r.Ok? ==> idx < r.value.1 <= |v|
  {
    var b := v[idx];
    if b <= 0x7F then Ok((Uint(b), idx + 1))
    else if IsText(b) then
      var (n, i) :- TextLength(v, idx);
      var (s, k) :- Text(v, i, n);
      Ok((String(s), k))
    else if b >= 0xE0 then Ok((Int(b as int - 0x100), idx + 1))
    else if b == 0xC0 then Ok((Null, idx + 1))
    else if b == 0xC2 then Ok((Bool(false), idx + 1))
    else if b == 0xC3 then Ok((Bool(true), idx + 1))
    else if b == 0xCA then
      var single :- Fetch(v, idx, 4);
      Ok((Float(SingleToDouble(single)), idx + 5))
    else DecodeNumber(v, idx)
  }

  /** The numbers that follow their head byte. */
  function DecodeNumber(v: Bytes, idx: nat): (r: Read<Json>)
    requires idx < |v|
    ensures r.Ok? ==> idx < r.value.1 <= |v|
  {
    PowValues();
    var b := v[idx];
    if b == 0xCB then
      var bits :- Fetch(v, idx, 8);
      Ok((Float(bits), idx + 9))
    else if b == 0xCC then
      var n :- Fetch(v, idx, 1);
      Ok((Uint(n), idx + 2))
    else if b == 0xCD then
      var n :- Fetch(v, idx, 2);
      Ok((Uint(n), idx + 3))
    else if b == 0xCE then
      var n :- Fetch(v, idx, 4);
      Ok((Uint(n), idx + 5))
    else if b == 0xCF then
      var n :- Fetch(v, idx, 8);
      Ok((Uint(n), idx + 9))
    else if b == 0xD0 then
      var n :- Fetch(v, idx, 1);
      Ok((Int(if n < 0x80 then n else n - 0x100), idx + 2))
    else if b == 0xD1 then
      var n :- Fetch(v, idx, 2);
      Ok((Int(if n < 0x8000 then n else n - 0x1_0000), idx + 3))
    else if b == 0xD2 then
      var n :- Fetch(v, idx, 4);
      Ok((Int(if n < 0x8000_0000 then n else n - 0x1_0000_0000), idx + 5))
    else if b == 0xD3 then
      var n :- Fetch(v, idx, 8);
      Ok((Int(AsSigned(n)), idx + 9))
    else Err(InvalidArgument)
  }

  function DecodeText(v: Bytes, idx: nat): (r: Read<Bytes>)
    ensures r.Ok? ==> idx < r.value.1 <= |v|
    decreases if idx <= |v| then |v| - idx else 0, 1, 0
  {
    var (j, i) :- Decode(v, idx);
    if j.String? then Ok((j.s, i)) else Err(DomainError)
  }

  function DecodeElems(v: Bytes, idx: nat, len: nat): (r: Read<seq<Json>>)
    requires idx <= |v|
    ensures r.Ok? ==> idx <= r.value.1 <= |v| && |r.value.0| == len
    decreases |v| - idx, 2, len
  {
    if len == 0 then Ok(([], idx)) else
      var (x, i) :- Decode(v, idx);
      var (xs, k) :- DecodeElems(v, i, len - 1);
      Ok(([x] + xs, k))
  }

  function DecodePairs(v: Bytes, idx: nat, len: nat, m: map<Bytes, Json>): (r: Read<map<Bytes, Json>>)
    requires idx <= |v|
    ensures r.Ok? ==> idx <= r.value.1 <= |v|
    decreases |v| - idx, 2, len
  {
    if len == 0 then Ok((m, idx)) else
      var (key, i) :- DecodeText(v, idx);
      var (x, k) :- Decode(v, i);
      DecodePairs(v, k, len - 1, m[key := x])
  }

  // ---------- round trip ----------

  /** Every string, key, array and object has fewer than 2^32 parts. */
  predicate Sized32(j: Json) {
    match j
    case String(s) => |s| < 0x1_0000_0000
    case Array(es) => |es| < 0x1_0000_0000 && forall i :: 0 <= i < |es| ==> Sized32(es[i])
    case Object(m) => |m| < 0x1_0000_0000 && forall k :: k in m ==> |k| < 0x1_0000_0000 && Sized32(m[k])
    case _ => true
  }

  lemma SizedParts(j: Json)
    requires Sized32(j)
    ensures j.Array? ==> |j.elems| < 0x1_0000_0000 && forall i :: 0 <= i < |j.elems| ==> Sized32(j.elems[i])
    ensures j.Object? ==> |j.members| < 0x1_0000_0000
    ensures j.Object? ==> forall k :: k in j.members ==> |k| < 0x1_0000_0000 && Sized32(j.members[k])
  {
  }

  /** The head byte `h` followed by `n` in `w` bytes. */
  lemma WideHeld(v: Bytes, idx: nat, h: byte, w: nat, n: nat)
    requires HoldsAt(v, idx, [h] + BigEndian(w, n)) && n < Pow256(w)
    ensures idx < |v| && v[idx] == h && Fetch(v, idx, w) == Ok(n)
  {
    hide *;
    HoldsFirst(v, idx, [h] + BigEndian(w, n));
    HoldsConcat(v, idx, [h], BigEndian(w, n));
    FetchHeld(v, idx, w, n);
  }

  lemma TextHeadHeld(v: Bytes, idx: nat, n: nat)
    requires n < 0x1_0000_0000 && HoldsAt(v, idx, TextHead(n))
    ensures idx < |v| && IsText(v[idx]) && TextLength(v, idx) == Ok((n, idx + |TextHead(n)|))
  {
    hide HoldsAt;
    hide BigEndian;
    hide Fetch;
    PowValues();
    if n <= 31 {
      HoldsFirst(v, idx, TextHead(n));
    } else {
      var w := if n <= 0xFF then 1 else if n <= 0xFFFF then 2 else 4;
      WideHeld(v, idx, TextHead(n)[0], w, n);
    }
  }

  lemma ArrayHeadHeld(v: Bytes, idx: nat, n: nat)
    requires n < 0x1_0000_0000 && HoldsAt(v, idx, ArrayHead(n))
    ensures idx < |v| && IsArray(v[idx]) && ArrayLength(v, idx) == Ok((n, idx + |ArrayHead(n)|))
  {
    hide HoldsAt;
    hide BigEndian;
    hide Fetch;
    PowValues();
    if n <= 15 {
      HoldsFirst(v, idx, ArrayHead(n));
    } else {
      WideHeld(v, idx, ArrayHead(n)[0], if n <= 0xFFFF then 2 else 4, n);
    }
  }

  lemma MapHeadHeld(v: Bytes, idx: nat, n: nat)
    requires n < 0x1_0000_0000 && HoldsAt(v, idx, MapHead(n))
    ensures idx < |v| && IsMap(v[idx]) && MapLength(v, idx) == Ok((n, idx + |MapHead(n)|))
  {
    hide HoldsAt;
    hide BigEndian;
    hide Fetch;
    PowValues();
    if n <= 15 {
      HoldsFirst(v, idx, MapHead(n));
    } else {
      WideHeld(v, idx, MapHead(n)[0], if n <= 0xFFFF then 2 else 4, n);
    }
  }

  lemma HeldText(v: Bytes, idx: nat, s: Bytes)
    requires |s| < 0x1_0000_0000 && HoldsAt(v, idx, TextHead(|s|) + s)
    ensures idx < |v| && DecodeLeaf(v, idx) == Ok((String(s), idx + |TextHead(|s|)| + |s|))
    ensures Decode(v, idx) == DecodeLeaf(v, idx)
    ensures DecodeText(v, idx) == Ok((s, idx + |TextHead(|s|)| + |s|))
  {
    hide TextHead;
    hide TextLength;
    hide DecodeElems;
    hide DecodePairs;
    HoldsConcat(v, idx, TextHead(|s|), s);
    TextHeadHeld(v, idx, |s|);
  }

  lemma UintHeld(v: Bytes, idx: nat, u: uint64)
    requires HoldsAt(v, idx, UintHead(u))
    ensures idx < |v| && !IsMap(v[idx]) && !IsArray(v[idx])
    ensures DecodeLeaf(v, idx) == Ok((Uint(u), idx + |UintHead(u)|))
  {
    hide HoldsAt;
    hide BigEndian;
    hide Fetch;
    PowValues();
    if u < 128 {
      HoldsFirst(v, idx, UintHead(u));
    } else {
      var w := if u <= 0xFF then 1 else if u <= 0xFFFF then 2 else if u <= 0xFFFF_FFFF then 4 else 8;
      WideHeld(v, idx, UintHead(u)[0], w, u);
    }
  }

  lemma NegativeHeld(v: Bytes, idx: nat, i: int64)
    requires i < 0 && HoldsAt(v, idx, NegativeHead(i))
    ensures idx < |v| && !IsMap(v[idx]) && !IsArray(v[idx])
    ensures DecodeLeaf(v, idx) == Ok((Int(i), idx + |NegativeHead(i)|))
  {
    hide HoldsAt;
    hide BigEndian;
    hide Fetch;
    PowValues();
    if i >= -32 {
      HoldsFirst(v, idx, NegativeHead(i));
    } else if i >= -0x80 {
      WideHeld(v, idx, 0xD0, 1, i + 0x100);
    } else if i >= -0x8000 {
      WideHeld(v, idx, 0xD1, 2, i + 0x1_0000);
    } else if i >= -0x8000_0000 {
      WideHeld(v, idx, 0xD2, 4, i + 0x1_0000_0000);
    } else {
      WideHeld(v, idx, 0xD3, 8, i + 0x1_0000_0000_0000_0000);
    }
  }

  /** Round trip in context. */
  lemma {:induction false} DecodeEncode(v: Bytes, idx: nat, j: Json)
    requires Sized32(j) && HoldsAt(v, idx, Encode(j))
    ensures Decode(v, idx) == Ok((Canonical(j), idx + |Encode(j)|))
    decreases j, 2, 0
  {
    match j
    case Array(es) => DecodeEncodeArray(v, idx, j);
    case Object(m) => DecodeEncodeObject(v, idx, j);
    case _ => DecodeEncodeScalar(v, idx, j);
  }

  lemma DecodeEncodeScalar(v: Bytes, idx: nat, j: Json)
    requires !j.Array? && !j.Object? && Sized32(j) && HoldsAt(v, idx, Encode(j))
    ensures Decode(v, idx) == Ok((Canonical(j), idx + |Encode(j)|))
  {
    hide TextHead;
    hide UintHead;
    hide NegativeHead;
    hide TextLength;
    hide HoldsAt;
    hide BigEndian;
    hide Fetch;
    hide DecodeElems;
    hide DecodePairs;
    match j
    case Int(i) =>
      if i >= 0 {
        UintHeld(v, idx, i);
      } else {
        NegativeHeld(v, idx, i);
      }
    case Uint(u) => UintHeld(v, idx, u);
    case Float(bits) =>
      PowValues();
      WideHeld(v, idx, 0xCB, 8, bits);
    case String(s) => HeldText(v, idx, s);
    case _ => HoldsFirst(v, idx, Encode(j));
  }

  lemma {:induction false} DecodeEncodeArray(v: Bytes, idx: nat, j: Json)
    requires j.Array? && Sized32(j) && HoldsAt(v, idx, Encode(j))
    ensures Decode(v, idx) == Ok((Canonical(j), idx + |Encode(j)|))
    decreases j, 1, 0
  {
    hide ArrayHead;
    hide ArrayLength;
    hide HoldsAt;
    hide DecodeElems;
    hide DecodePairs;
    hide EncodeElems;
    hide Canonical;
    var h := ArrayHead(|j.elems|);
    HoldsConcat(v, idx, h, EncodeElems(j, 0));
    ArrayHeadHeld(v, idx, |j.elems|);
    DecodeEncodeElems(v, idx + |h|, j, 0);
    CanonicalArray(j);
  }

  lemma {:induction false} DecodeEncodeElems(v: Bytes, idx: nat, j: Json, i: nat)
    requires j.Array? && Sized32(j) && i <= |j.elems| && HoldsAt(v, idx, EncodeElems(j, i)) && idx <= |v|
    ensures DecodeElems(v, idx, |j.elems| - i) == Ok((CanonicalFrom(j.elems, i), idx + |EncodeElems(j, i)|))
    decreases j, 0, |j.elems| - i
  {
    hide Encode;
    hide Decode;
    hide Canonical;
    hide HoldsAt;
    if i < |j.elems| {
      var e := Encode(j.elems[i]);
      HoldsConcat(v, idx, e, EncodeElems(j, i + 1));
      DecodeEncode(v, idx, j.elems[i]);
      DecodeEncodeElems(v, idx + |e|, j, i + 1);
    }
  }

  lemma DecodeMap(v: Bytes, idx: nat, n: nat, i: nat, m: map<Bytes, Json>, k: nat)
    requires idx < |v| && IsMap(v[idx]) && i <= |v|
    requires MapLength(v, idx) == Ok((n, i)) && DecodePairs(v, i, n, map[]) == Ok((m, k))
    ensures Decode(v, idx) == Ok((Object(m), k))
  {
    hide MapLength;
    hide DecodePairs;
  }

  lemma EncodeObject(j: Json)
    requires j.Object?
    ensures |SortedKeys(j.members.Keys)| == |j.members|
    ensures Encode(j) == MapHead(|j.members|) + EncodeMembers(j, SortedKeys(j.members.Keys))
  {
    hide EncodeMembers;
    hide MapHead;
    hide SortedKeys;
    assert |j.members.Keys| == |j.members|;
  }

  lemma {:induction false} DecodeEncodeObject(v: Bytes, idx: nat, j: Json)
    requires j.Object? && Sized32(j) && HoldsAt(v, idx, Encode(j))
    ensures Decode(v, idx) == Ok((Canonical(j), idx + |Encode(j)|))
    decreases j, 1, 0
  {
    hide *;
    SizedParts(j);
    EncodeObject(j);
    CanonicalObject(j);
    DecodeEncodePairs(v, idx, j, SortedKeys(j.members.Keys), |j.members|);
  }

  lemma {:induction false} DecodeEncodePairs(v: Bytes, idx: nat, j: Json, ks: seq<Bytes>, n: nat)
    requires j.Object? && Sized32(j) && n == |ks| < 0x1_0000_0000 && forall k :: k in ks ==> k in j.members
    requires HoldsAt(v, idx, MapHead(n) + EncodeMembers(j, ks))
    ensures Decode(v, idx) ==
            Ok((Object(CanonicalMembers(j, ks, map[])), idx + |MapHead(n) + EncodeMembers(j, ks)|))
    decreases j, 0, |ks| + 1
  {
    hide *;
    var h, body := MapHead(n), EncodeMembers(j, ks);
    HoldsConcat(v, idx, h, body);
    MapHeadHeld(v, idx, n);
    HoldsBounds(v, idx + |h|, body);
    DecodeEncodeMembers(v, idx + |h|, j, ks, map[]);
    DecodeMap(v, idx, n, idx + |h|, CanonicalMembers(j, ks, map[]), idx + |h| + |body|);
  }

  lemma EncodeMembersStep(j: Json, ks: seq<Bytes>)
    requires j.Object? && ks != [] && forall k :: k in ks ==> k in j.members
    ensures EncodeMembers(j, ks) ==
            (TextHead(|ks[0]|) + ks[0]) + Encode(j.members[ks[0]]) + EncodeMembers(j, ks[1..])
  {
    hide TextHead;
    hide Encode;
  }

  lemma DecodePairsStep(v: Bytes, idx: nat, len: nat, m: map<Bytes, Json>, key: Bytes, i: nat, x: Json, k: nat)
    requires idx <= |v| && len > 0 && DecodeText(v, idx) == Ok((key, i)) && Decode(v, i) == Ok((x, k))
    ensures k <= |v| && DecodePairs(v, idx, len, m) == DecodePairs(v, k, len - 1, m[key := x])
  {
    hide Decode;
    hide DecodeText;
  }

  lemma NoMembers(v: Bytes, idx: nat, j: Json, m: map<Bytes, Json>)
    requires j.Object? && idx <= |v|
    ensures EncodeMembers(j, []) == [] && CanonicalMembers(j, [], m) == m
    ensures DecodePairs(v, idx, 0, m) == Ok((m, idx))
  {
  }

  lemma {:induction false} DecodeEncodeMembers(v: Bytes, idx: nat, j: Json, ks: seq<Bytes>, m: map<Bytes, Json>)
    requires j.Object? && Sized32(j) && forall k :: k in ks ==> k in j.members
    requires HoldsAt(v, idx, EncodeMembers(j, ks)) && idx <= |v|
    ensures DecodePairs(v, idx, |ks|, m) == Ok((CanonicalMembers(j, ks, m), idx + |EncodeMembers(j, ks)|))
    decreases j, 0, |ks|
  {
    hide *;
    if ks == [] {
      NoMembers(v, idx, j, m);
    } else {
      EncodeMembersStep(j, ks);
      SizedParts(j);
      var k := ks[0];
      var text, e, rest := TextHead(|k|) + k, Encode(j.members[k]), EncodeMembers(j, ks[1..]);
      HoldsConcat(v, idx, text + e, rest);
      HoldsConcat(v, idx, text, e);
      HeldText(v, idx, k);
      DecodeEncode(v, idx + |text|, j.members[k]);
      var x := Canonical(j.members[k]);
      DecodePairsStep(v, idx, |ks|, m, k, idx + |text|, x, idx + |text| + |e|);
      DecodeEncodeMembers(v, idx + |text| + |e|, j, ks[1..], m[k := x]);
      CanonicalMembersStep(j, ks, m);
    }
  }

  // ---------- every decoded value is small ----------

  lemma LeafSized(v: Bytes, idx: nat)
    requires idx < |v| && DecodeLeaf(v, idx).Ok?
    ensures Sized32(DecodeLeaf(v, idx).value.0)
  {
    hide Fetch;
    hide WideLength;
  }

  lemma {:induction false} DecodedSized(v: Bytes, idx: nat)
    requires Decode(v, idx).Ok?
    ensures Sized32(Decode(v, idx).value.0)
    decreases if idx <= |v| then |v| - idx else 0, 0, 0
  {
    hide DecodeLeaf;
    hide DecodeElems;
    hide DecodePairs;
    hide MapLength;
    hide ArrayLength;
    if IsMap(v[idx]) {
      var (n, i) := MapLength(v, idx).value;
      PairsSized(v, i, n, map[]);
    } else if IsArray(v[idx]) {
      var (n, i) := ArrayLength(v, idx).value;
      ElemsSized(v, i, n);
    } else {
      LeafSized(v, idx);
    }
  }

  lemma {:induction false} ElemsSized(v: Bytes, idx: nat, len: nat)
    requires idx <= |v| && DecodeElems(v, idx, len).Ok?
    ensures var es := DecodeElems(v, idx, len).value.0;
            forall i :: 0 <= i < |es| ==> Sized32(es[i])
    decreases |v| - idx, 2, len
  {
    hide Decode;
    hide Sized32;
    if len > 0 {
      DecodedSized(v, idx);
      ElemsSized(v, Decode(v, idx).value.1, len - 1);
    }
  }

  /** The keys and values gathered so far, at most `n` of them. */
  predicate SmallMap(m: map<Bytes, Json>, n: nat) {
    |m| <= n && forall k :: k in m ==> |k| < 0x1_0000_0000 && Sized32(m[k])
  }

  lemma SmallMapAdd(m: map<Bytes, Json>, n: nat, key: Bytes, x: Json)
    requires SmallMap(m, n) && |key| < 0x1_0000_0000 && Sized32(x)
    ensures SmallMap(m[key := x], n + 1)
  {
    hide Sized32;
    UpdateSize(m, key, x);
  }

  lemma UpdateSize<K, V>(m: map<K, V>, key: K, x: V)
    ensures |m[key := x]| <= |m| + 1
  {
    var u := m[key := x];
    if key in m {
      assert u.Keys == m.Keys;
    } else {
      assert u.Keys == m.Keys + {key};
    }
    assert |u| == |u.Keys| && |m| == |m.Keys|;
  }

  lemma {:induction false} MorePairsSized(v: Bytes, idx: nat, len: nat, m: map<Bytes, Json>, n: nat)
    requires idx <= |v| && DecodePairs(v, idx, len, m).Ok? && SmallMap(m, n)
    ensures SmallMap(DecodePairs(v, idx, len, m).value.0, n + len)
    decreases |v| - idx, 2, len
  {
    hide Decode;
    hide DecodeText;
    hide SmallMap;
    if len > 0 {
      TextSized(v, idx);
      var (key, i) := DecodeText(v, idx).value;
      DecodedSized(v, i);
      var (x, k) := Decode(v, i).value;
      SmallMapAdd(m, n, key, x);
      MorePairsSized(v, k, len - 1, m[key := x], n + 1);
    }
  }

  lemma {:induction false} TextSized(v: Bytes, idx: nat)
    requires DecodeText(v, idx).Ok?
    ensures |DecodeText(v, idx).value.0| < 0x1_0000_0000
    decreases if idx <= |v| then |v| - idx else 0, 1, 0
  {
    hide Decode;
    DecodedSized(v, idx);
  }

  lemma {:induction false} PairsSized(v: Bytes, idx: nat, len: nat, m: map<Bytes, Json>)
    requires idx <= |v| && DecodePairs(v, idx, len, m).Ok? && m == map[]
    ensures SmallMap(DecodePairs(v, idx, len, m).value.0, len)
    decreases |v| - idx, 3, len
  {
    hide DecodePairs;
    MorePairsSized(v, idx, len, m, 0);
  }

  lemma {:induction false} CanonicalSized(j: Json)
    ensures Sized32(Canonical(j)) <==> Sized32(j)
  {
    match j
    case Array(x) =>
      forall i | 0 <= i < |x| ensures Sized32(Canonical(j).elems[i]) <==> Sized32(x[i]) {
        CanonicalSized(x[i]);
      }
    case Object(x) =>
      var y := Canonical(j).members;
      assert y.Keys == x.Keys;
      assert |y| == |y.Keys| && |x| == |x.Keys|;
      forall k | k in x ensures Sized32(y[k]) <==> Sized32(x[k]) {
        CanonicalSized(x[k]);
      }
    case _ =>
  }

  /**
    `from_msgpack(to_msgpack(j))`, followed by anything, gives `j` back and stops
    at its end exactly when no length in `j` reaches 2^32.
   */
  lemma RoundTrip(j: Json, trailing: Bytes)
    ensures Decode(Encode(j) + trailing, 0) == Ok((Canonical(j), |Encode(j)|)) <==> Sized32(j)
  {
    hide Encode;
    hide Decode;
    hide Canonical;
    hide Sized32;
    var v := Encode(j) + trailing;
    assert v[0..|Encode(j)|] == Encode(j);
    CanonicalSized(j);
    if Sized32(j) {
      DecodeEncode(v, 0, j);
    }
    if Decode(v, 0).Ok? {
      DecodedSized(v, 0);
    }
  }

  // ---------- every successful read is stable and self-delimiting ----------

  lemma LeafExtends(v: Bytes, w: Bytes, idx: nat)
    requires idx < |v| && DecodeLeaf(v, idx).Ok?
    ensures DecodeLeaf(v + w, idx) == DecodeLeaf(v, idx)
  {
    hide Fetch;
    hide SingleToDouble;
    assert (v + w)[idx] == v[idx];
    FetchExtends(v, w, idx);
    if IsText(v[idx]) {
      var (n, i) := TextLength(v, idx).value;
      assert (v + w)[i..i + n] == v[i..i + n];
    }
  }

  lemma LengthsExtend(v: Bytes, w: Bytes, idx: nat)
    requires idx < |v|
    ensures (v + w)[idx] == v[idx]
    ensures IsArray(v[idx]) && ArrayLength(v, idx).Ok? ==> ArrayLength(v + w, idx) == ArrayLength(v, idx)
    ensures IsMap(v[idx]) && MapLength(v, idx).Ok? ==> MapLength(v + w, idx) == MapLength(v, idx)
  {
    hide Fetch;
    FetchExtends(v, w, idx);
  }

  /** Appending bytes never changes a successful read. */
  lemma {:induction false} DecodeExtends(v: Bytes, w: Bytes, idx: nat)
    requires Decode(v, idx).Ok?
    ensures Decode(v + w, idx) == Decode(v, idx)
    decreases if idx <= |v| then |v| - idx else 0, 0, 0
  {
    hide MapLength;
    hide ArrayLength;
    hide DecodeLeaf;
    hide DecodeElems;
    hide DecodePairs;
    LengthsExtend(v, w, idx);
    if IsMap(v[idx]) {
      var (n, i) := MapLength(v, idx).value;
      PairsExtend(v, w, i, n, map[]);
    } else if IsArray(v[idx]) {
      var (n, i) := ArrayLength(v, idx).value;
      ElemsExtend(v, w, i, n);
    } else {
      LeafExtends(v, w, idx);
    }
  }

  lemma {:induction false} TextExtends(v: Bytes, w: Bytes, idx: nat)
    requires DecodeText(v, idx).Ok?
    ensures DecodeText(v + w, idx) == DecodeText(v, idx)
    decreases if idx <= |v| then |v| - idx else 0, 1, 0
  {
    hide Decode;
    DecodeExtends(v, w, idx);
  }

  lemma {:induction false} ElemsExtend(v: Bytes, w: Bytes, idx: nat, len: nat)
    requires idx <= |v| && DecodeElems(v, idx, len).Ok?
    ensures DecodeElems(v + w, idx, len) == DecodeElems(v, idx, len)
    decreases |v| - idx, 2, len
  {
    hide Decode;
    if len > 0 {
      DecodeExtends(v, w, idx);
      ElemsExtend(v, w, Decode(v, idx).value.1, len - 1);
    }
  }

  lemma {:induction false} PairsExtend(v: Bytes, w: Bytes, idx: nat, len: nat, m: map<Bytes, Json>)
    requires idx <= |v| && DecodePairs(v, idx, len, m).Ok?
    ensures DecodePairs(v + w, idx, len, m) == DecodePairs(v, idx, len, m)
    decreases |v| - idx, 2, len
  {
    hide Decode;
    hide DecodeText;
    if len > 0 {
      TextExtends(v, w, idx);
      var (key, i) := DecodeText(v, idx).value;
      DecodeExtends(v, w, i);
      var (x, k) := Decode(v, i).value;
      PairsExtend(v, w, k, len - 1, m[key := x]);
    }
  }

  /** No strict prefix of an encoding decodes. */
  lemma PrefixFree(j: Json, n: nat)
    requires Sized32(j) && n < |Encode(j)|
    ensures Decode(Encode(j)[..n], 0).Err?
  {
    hide Encode;
    hide Decode;
    hide Canonical;
    var e := Encode(j);
    var p := e[..n];
    assert p + e[n..] == e == e[0..|e|];
    DecodeEncode(e, 0, j);
    if Decode(p, 0).Ok? {
      DecodeExtends(p, e[n..], 0);
      assert false;
    }
  }

  // ---------- the recursive procedures ----------

  /** `to_msgpack_internal`: appends to the vector it is given. */
  method Append(j: Json, v: Bytes) returns (r: Bytes)
    ensures r == v + Encode(j)
    decreases j
  {
    hide UintHead;
    hide NegativeHead;
    hide TextHead;
    hide ArrayHead;
    hide MapHead;
    match j {
      case Null => r := v + [0xC0];
      case Bool(b) => r := v + [if b then 0xC3 else 0xC2];
      case Int(i) =>
        if i >= 0 {
          r := v + UintHead(i);
        } else {
          r := v + NegativeHead(i);
        }
      case Uint(u) => r := v + UintHead(u);
      case Float(bits) =>
        r := v + [0xCB];
        r := r + BigEndian(8, bits);
        assert r == v + ([0xCB] + BigEndian(8, bits));
      case String(s) =>
        r := v + TextHead(|s|);
        r := r + s;
      case Array(es) => r := AppendArray(j, v);
      case Object(m) => r := AppendObject(j, v);
    }
  }

  method AppendArray(j: Json, v: Bytes) returns (r: Bytes)
    requires j.Array?
    ensures r == v + (ArrayHead(|j.elems|) + EncodeElems(j, 0))
    decreases j, 0
  {
    hide ArrayHead;
    hide Encode;
    r := v + ArrayHead(|j.elems|);
    ghost var start := r;
    for n := 0 to |j.elems|
      invariant start + EncodeElems(j, 0) == r + EncodeElems(j, n)
    {
      ghost var before := r;
      r := Append(j.elems[n], r);
      assert before + EncodeElems(j, n) == r + EncodeElems(j, n + 1);
    }
    assert r == start + EncodeElems(j, 0);
  }

  method AppendObject(j: Json, v: Bytes) returns (r: Bytes)
    requires j.Object?
    ensures r == v + (MapHead(|j.members|) + EncodeMembers(j, SortedKeys(j.members.Keys)))
    decreases j, 0
  {
    hide *;
    var h := MapHead(|j.members|);
    var ks := SortedKeys(j.members.Keys);
    r := AppendMembers(j, ks, v + h);
    assert v + h + EncodeMembers(j, ks) == v + (h + EncodeMembers(j, ks));
  }

  method AppendMembers(j: Json, ks: seq<Bytes>, v: Bytes) returns (r: Bytes)
    requires j.Object? && forall k :: k in ks ==> k in j.members
    ensures r == v + EncodeMembers(j, ks)
    decreases j, 0, 0
  {
    hide *;
    r := v;
    assert ks[0..] == ks;
    for n := 0 to |ks|
      invariant v + EncodeMembers(j, ks) == r + EncodeMembers(j, ks[n..])
    {
      var k := ks[n];
      EncodeMembersStep(j, ks[n..]);
      assert ks[n..][0] == k && ks[n..][1..] == ks[n + 1..];
      ghost var text, rest := TextHead(|k|) + k, EncodeMembers(j, ks[n + 1..]);
      ghost var before := r;
      r := r + (TextHead(|k|) + k);
      r := Append(j.members[k], r);
      assert before + (text + Encode(j.members[k]) + rest) == before + text + Encode(j.members[k]) + rest;
    }
    assert ks[|ks|..] == [];
    NoMembers([], 0, j, map[]);
  }

  lemma ElemsStep(v: Bytes, idx: nat, len: nat, xs: seq<Json>)
    requires idx <= |v|
    ensures Prepend(xs, DecodeElems(v, idx, 0)) == Ok((xs, idx))
    ensures len > 0 ==>
            match Decode(v, idx) {
              case Ok((x, i)) =>
                Prepend(xs, DecodeElems(v, idx, len)) == Prepend(xs + [x], DecodeElems(v, i, len - 1))
              case Err(e) => Prepend(xs, DecodeElems(v, idx, len)) == Err(e)
            }
  {
    hide Decode;
    assert xs + [] == xs;
    if len > 0 && Decode(v, idx).Ok? {
      var (x, i) := Decode(v, idx).value;
      match DecodeElems(v, i, len - 1)
      case Ok((ys, k)) => assert xs + ([x] + ys) == xs + [x] + ys;
      case Err(_) =>
    }
  }

  /** `from_msgpack_internal`: reads at `start` and leaves `idx` after the item. */
  method Parse(v: Bytes, start: nat) returns (r: Result<Json>, idx: nat)
    ensures Agrees(r, idx, Decode(v, start))
    decreases if start <= |v| then |v| - start else 0, 0
  {
    hide DecodeElems;
    hide DecodePairs;
    hide MapLength;
    hide ArrayLength;
    hide DecodeLeaf;
    idx := start + 1;
    if start >= |v| {
      return Err(OutOfRange), idx;
    }
    if IsMap(v[start]) {
      match MapLength(v, start) {
        case Err(e) => return Err(e), idx;
        case Ok((len, i)) =>
          var m;
          m, idx := ParsePairs(v, i, len);
          r := match m case Ok(x) => Ok(Object(x)) case Err(e) => Err(e);
      }
    } else if IsArray(v[start]) {
      match ArrayLength(v, start) {
        case Err(e) => return Err(e), idx;
        case Ok((len, i)) =>
          var es;
          es, idx := ParseElems(v, i, len);
          r := match es case Ok(x) => Ok(Array(x)) case Err(e) => Err(e);
      }
    } else {
      match DecodeLeaf(v, start) {
        case Ok((x, i)) => return Ok(x), i;
        case Err(e) => return Err(e), idx;
      }
    }
  }

  method ParseElems(v: Bytes, start: nat, len: nat) returns (r: Result<seq<Json>>, idx: nat)
    requires start <= |v|
    ensures Agrees(r, idx, DecodeElems(v, start, len))
    decreases |v| - start, 2
  {
    hide Decode;
    hide DecodeElems;
    var result: seq<Json> := [];
    idx := start;
    PrependNothing(DecodeElems(v, start, len));
    for n := 0 to len
      invariant start <= idx <= |v|
      invariant DecodeElems(v, start, len) == Prepend(result, DecodeElems(v, idx, len - n))
    {
      ElemsStep(v, idx, len - n, result);
      var x, next := Parse(v, idx);
      match x {
        case Err(e) => return Err(e), next;
        case Ok(y) => result := result + [y];
      }
      idx := next;
    }
    ElemsStep(v, idx, 0, result);
    return Ok(result), idx;
  }

  method ParsePairs(v: Bytes, start: nat, len: nat) returns (r: Result<map<Bytes, Json>>, idx: nat)
    requires start <= |v|
    ensures Agrees(r, idx, DecodePairs(v, start, len, map[]))
    decreases |v| - start, 2
  {
    hide Decode;
    var result: map<Bytes, Json> := map[];
    idx := start;
    for n := 0 to len
      invariant start <= idx <= |v|
      invariant DecodePairs(v, start, len, map[]) == DecodePairs(v, idx, len - n, result)
    {
      var key, mid := Parse(v, idx);
      if key.Err? {
        return Err(key.error), mid;
      }
      if !key.value.String? {
        return Err(DomainError), mid;
      }
      var x, next := Parse(v, mid);
      if x.Err? {
        return Err(x.error), next;
      }
      result := result[key.value.s := x.value];
      idx := next;
    }
    return Ok(result), idx;
  }
}
