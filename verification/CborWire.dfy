/**
  The byte strings the CBOR decoder reads (sections 2.1 to 2.3 of RFC 7049), as a
  syntax of items with every head width and the indefinite lengths, and what each
  item means. The decoder accepts exactly these.
 */
module CborWire {
  import opened JsonValue
  import opened Binary
  import opened Cbor

  /** How the argument of a head is written: in the head byte, or in 1, 2, 4 or 8 bytes after it. */
  datatype Width = Tiny | One | Two | Four | Eight

  function Size(w: Width): nat {
    match w
    case Tiny => 0
    case One => 1
    case Two => 2
    case Four => 4
    case Eight => 8
  }

  predicate Holds(w: Width, n: nat) {
    if w == Tiny then n < 24 else n < Pow256(Size(w))
  }

  /** Major type in the high three bits; 24 to 27 announce 1, 2, 4 and 8 bytes. */
  function Start(major: nat, w: Width, n: nat): (r: Bytes)
    requires major < 6 && Holds(w, n)
    ensures |r| == 1 + Size(w) && major * 32 <= r[0] <= major * 32 + 27
  {
    match w
    case Tiny => [major * 32 + n]
    case One => [major * 32 + 24] + BigEndian(1, n)
    case Two => [major * 32 + 25] + BigEndian(2, n)
    case Four => [major * 32 + 26] + BigEndian(4, n)
    case Eight => [major * 32 + 27] + BigEndian(8, n)
  }

  datatype Pair = Pair(key: Item, value: Item)

  datatype Item =
    | Unsigned(w: Width, n: nat)
    | Negative(w: Width, n: nat)
    | Plain(w: Width, s: Bytes)
    | Chunks(chunks: seq<Item>)
    | List(w: Width, items: seq<Item>)
    | OpenList(items: seq<Item>)
    | Dict(w: Width, pairs: seq<Pair>)
    | OpenDict(pairs: seq<Pair>)
    | No | Yes | Nil
    | Half(bits: nat) | Single(bits: nat) | Double(bits: nat)

  predicate IsText(x: Item) {
    x.Plain? || x.Chunks?
  }

  predicate Legal(x: Item) {
    match x
    case Unsigned(w, n) => Holds(w, n)
    case Negative(w, n) => Holds(w, n)
    case Plain(w, s) => Holds(w, |s|)
    case Chunks(cs) => forall i :: 0 <= i < |cs| ==> IsText(cs[i]) && Legal(cs[i])
    case List(w, xs) => Holds(w, |xs|) && forall i :: 0 <= i < |xs| ==> Legal(xs[i])
    case OpenList(xs) => forall i :: 0 <= i < |xs| ==> Legal(xs[i])
    case Dict(w, ps) => Holds(w, |ps|) && forall i :: 0 <= i < |ps| ==> LegalPair(ps[i])
    case OpenDict(ps) => forall i :: 0 <= i < |ps| ==> LegalPair(ps[i])
    case Half(b) => b < 0x1_0000
    case Single(b) => b < 0x1_0000_0000
    case Double(b) => b < 0x1_0000_0000_0000_0000
    case _ => true
  }

  predicate LegalPair(p: Pair) {
    IsText(p.key) && Legal(p.key) && Legal(p.value)
  }

  predicate LegalAll(xs: seq<Item>) {
    forall i :: 0 <= i < |xs| ==> Legal(xs[i])
  }

  predicate LegalPairs(ps: seq<Pair>) {
    forall i :: 0 <= i < |ps| ==> LegalPair(ps[i])
  }

  predicate AllText(xs: seq<Item>) {
    forall i :: 0 <= i < |xs| ==> IsText(xs[i])
  }

  // ---------- the bytes ----------

  function Wire(x: Item): Bytes
    requires Legal(x)
    decreases x, 1, 0
  {
    match x
    case Unsigned(w, n) => Start(0, w, n)
    case Negative(w, n) => Start(1, w, n)
    case Plain(w, s) => Start(3, w, |s|) + s
    case Chunks(cs) => [0x7F] + WireAll(cs) + [0xFF]
    case List(w, xs) => Start(4, w, |xs|) + WireAll(xs)
    case OpenList(xs) => [0x9F] + WireAll(xs) + [0xFF]
    case Dict(w, ps) => Start(5, w, |ps|) + WirePairs(ps)
    case OpenDict(ps) => [0xBF] + WirePairs(ps) + [0xFF]
    case No => [0xF4]
    case Yes => [0xF5]
    case Nil => [0xF6]
    case Half(b) => [0xF9] + BigEndian(2, b)
    case Single(b) => [0xFA] + BigEndian(4, b)
    case Double(b) => [0xFB] + BigEndian(8, b)
  }

  function WireAll(xs: seq<Item>): Bytes
    requires LegalAll(xs)
    decreases xs, 0, |xs|
  {
    if xs == [] then [] else Wire(xs[0]) + WireAll(xs[1..])
  }

  function WirePairs(ps: seq<Pair>): Bytes
    requires LegalPairs(ps)
    decreases ps, 0, |ps|
  {
    if ps == [] then [] else WirePair(ps[0]) + WirePairs(ps[1..])
  }

  function WirePair(p: Pair): Bytes
    requires LegalPair(p)
    decreases p, 1, 0
  {
    Wire(p.key) + Wire(p.value)
  }

  // ---------- the meaning ----------

  /** The text of a text item: chunks are joined. */
  function TextOf(x: Item): Bytes
    requires IsText(x) && Legal(x)
    decreases x, 1, 0
  {
    match x
    case Plain(_, s) => s
    case Chunks(cs) => Joined(cs)
  }

  function Joined(xs: seq<Item>): Bytes
    requires AllText(xs) && LegalAll(xs)
    decreases xs, 0, |xs|
  {
    if xs == [] then [] else TextOf(xs[0]) + Joined(xs[1..])
  }

  /** -1 - n in 64 bits. */
  function MinusOneLess(n: nat): int64
    requires n < 0x1_0000_0000_0000_0000
  {
    if n < 0x8000_0000_0000_0000 then -1 - n else 0x1_0000_0000_0000_0000 - 1 - n
  }

  lemma HeldRange(w: Width, n: nat)
    requires Holds(w, n)
    ensures n < 0x1_0000_0000_0000_0000
  {
    PowValues();
  }

  function Meaning(x: Item): Json
    requires Legal(x)
    decreases x, 1, 0
  {
    match x
    case Unsigned(w, n) => HeldRange(w, n); Uint(n)
    case Negative(w, n) => HeldRange(w, n); Int(MinusOneLess(n))
    case Plain(_, s) => String(s)
    case Chunks(cs) => String(Joined(cs))
    case List(_, xs) => Array(Meanings(xs))
    case OpenList(xs) => Array(Meanings(xs))
    case Dict(_, ps) => Object(Members(map[], ps))
    case OpenDict(ps) => Object(Members(map[], ps))
    case No => Bool(false)
    case Yes => Bool(true)
    case Nil => Null
    case Half(b) => Float(HalfToDouble(b))
    case Single(b) => Float(SingleToDouble(b))
    case Double(b) => Float(b)
  }

  function Meanings(xs: seq<Item>): seq<Json>
    requires LegalAll(xs)
    decreases xs, 0, |xs|
  {
    if xs == [] then [] else [Meaning(xs[0])] + Meanings(xs[1..])
  }

  /** The pairs, one after the other, set members of `m`. */
  function Members(m: map<Bytes, Json>, ps: seq<Pair>): map<Bytes, Json>
    requires LegalPairs(ps)
    decreases ps, 0, |ps|
  {
    if ps == [] then m else Members(m[PairKey(ps[0]) := PairValue(ps[0])], ps[1..])
  }

  function PairKey(p: Pair): Bytes
    requires LegalPair(p)
    decreases p, 1, 0
  {
    TextOf(p.key)
  }

  function PairValue(p: Pair): Json
    requires LegalPair(p)
    decreases p, 1, 0
  {
    Meaning(p.value)
  }

  lemma {:induction false} KeyNotSet(m: map<Bytes, Json>, ps: seq<Pair>, k: Bytes)
    requires LegalPairs(ps) && forall n :: 0 <= n < |ps| ==> PairKey(ps[n]) != k
    ensures k in Members(m, ps) <==> k in m
    ensures k in m ==> Members(m, ps)[k] == m[k]
    decreases |ps|
  {
    hide PairKey;
    hide PairValue;
    hide LegalPair;
    if ps != [] {
      KeyNotSet(m[PairKey(ps[0]) := PairValue(ps[0])], ps[1..], k);
    }
  }

  /** A repeated key has the value of its last pair. */
  lemma {:induction false} LastPairWins(m: map<Bytes, Json>, ps: seq<Pair>, i: nat)
    requires LegalPairs(ps) && i < |ps|
    requires forall n :: i < n < |ps| ==> PairKey(ps[n]) != PairKey(ps[i])
    ensures PairKey(ps[i]) in Members(m, ps) && Members(m, ps)[PairKey(ps[i])] == PairValue(ps[i])
    decreases |ps|
  {
    hide PairKey;
    hide PairValue;
    hide LegalPair;
    var next := m[PairKey(ps[0]) := PairValue(ps[0])];
    if i == 0 {
      KeyNotSet(next, ps[1..], PairKey(ps[0]));
    } else {
      LastPairWins(next, ps[1..], i - 1);
    }
  }

  // ---------- reading what is written ----------

  lemma StartRead(v: Bytes, i: nat, major: nat, w: Width, n: nat)
    requires major < 6 && Holds(w, n) && HoldsAt(v, i, Start(major, w, n))
    ensures i < |v| && major * 32 <= v[i] <= major * 32 + 27
    ensures n < 0x1_0000_0000_0000_0000
    ensures Argument(v, i, major * 32) == Ok((n, i + 1 + Size(w)))
  {
    hide HoldsAt;
    hide BigEndian;
    hide Fetch;
    hide ValueOf;
    var h := Start(major, w, n);
    HoldsFirst(v, i, h);
    HeldRange(w, n);
    PowValues();
    if w != Tiny {
      assert h == [h[0]] + BigEndian(Size(w), n);
      HoldsConcat(v, i, [h[0]], BigEndian(Size(w), n));
      FetchHeld(v, i, Size(w), n);
    }
  }

  lemma FirstByte(x: Item)
    requires Legal(x)
    ensures Wire(x) != [] && Wire(x)[0] != 0xFF
    ensures IsText(x) ==> 0x60 <= Wire(x)[0] <= 0x7F
  {
    hide WireAll;
    hide WirePairs;
    hide BigEndian;
  }

  /** Wherever a vector holds the bytes of an item, the decoder reads its meaning and stops at its end. */
  lemma {:induction false} DecodeWire(v: Bytes, i: nat, x: Item)
    requires Legal(x) && HoldsAt(v, i, Wire(x))
    ensures Decode(v, i) == Ok((Meaning(x), i + |Wire(x)|))
    decreases x, 2, 0
  {
    hide *;
    match x
    case Chunks(cs) => DecodeWireChunks(v, i, x);
    case List(_, _) => DecodeWireList(v, i, x);
    case OpenList(_) => DecodeWireOpenList(v, i, x);
    case Dict(_, _) => DecodeWireDict(v, i, x);
    case OpenDict(_) => DecodeWireOpenDict(v, i, x);
    case Plain(_, _) => DecodeWirePlain(v, i, x);
    case Half(_) => DecodeWireFloat(v, i, x);
    case Single(_) => DecodeWireFloat(v, i, x);
    case Double(_) => DecodeWireFloat(v, i, x);
    case _ => DecodeWireLeaf(v, i, x);
  }

  lemma DecodeWireLeaf(v: Bytes, i: nat, x: Item)
    requires Legal(x) && (x.Unsigned? || x.Negative? || x.No? || x.Yes? || x.Nil?) && HoldsAt(v, i, Wire(x))
    ensures Decode(v, i) == Ok((Meaning(x), i + |Wire(x)|))
  {
    hide HoldsAt;
    hide Argument;
    hide BigEndian;
    hide DecodeElems;
    hide DecodePairs;
    hide DecodeElemsToBreak;
    hide DecodePairsToBreak;
    hide DecodeChunks;
    HoldsFirst(v, i, Wire(x));
    match x
    case Unsigned(w, n) => StartRead(v, i, 0, w, n);
    case Negative(w, n) => StartRead(v, i, 1, w, n);
    case _ =>
  }

  lemma DecodeWirePlain(v: Bytes, i: nat, x: Item)
    requires Legal(x) && x.Plain? && HoldsAt(v, i, Wire(x))
    ensures Decode(v, i) == Ok((Meaning(x), i + |Wire(x)|))
  {
    hide HoldsAt;
    hide Argument;
    hide Start;
    hide DecodeElems;
    hide DecodePairs;
    var h := Start(3, x.w, |x.s|);
    HoldsConcat(v, i, h, x.s);
    StartRead(v, i, 3, x.w, |x.s|);
    HoldsSlice(v, i + |h|, x.s);
  }

  lemma DecodeWireFloat(v: Bytes, i: nat, x: Item)
    requires Legal(x) && (x.Half? || x.Single? || x.Double?) && HoldsAt(v, i, Wire(x))
    ensures Decode(v, i) == Ok((Meaning(x), i + |Wire(x)|))
  {
    hide HoldsAt;
    hide Argument;
    hide BigEndian;
    hide Fetch;
    hide HalfToDouble;
    hide SingleToDouble;
    PowValues();
    var h: byte, w := if x.Half? then 0xF9 else if x.Single? then 0xFA else 0xFB, if x.Half? then 2 else if x.Single? then 4 else 8;
    HoldsConcat(v, i, [h], BigEndian(w, x.bits));
    HoldsFirst(v, i, [h]);
    FetchHeld(v, i, w, x.bits);
  }

  // ---------- sequences of items ----------

  lemma AllStep(xs: seq<Item>)
    requires LegalAll(xs) && xs != []
    ensures Legal(xs[0]) && LegalAll(xs[1..])
    ensures WireAll(xs) == Wire(xs[0]) + WireAll(xs[1..]) && Meanings(xs) == [Meaning(xs[0])] + Meanings(xs[1..])
    ensures AllText(xs) ==> IsText(xs[0]) && AllText(xs[1..]) && Joined(xs) == TextOf(xs[0]) + Joined(xs[1..])
  {
    hide Legal;
    hide IsText;
  }

  lemma AllEnd()
    ensures LegalAll([]) && WireAll([]) == [] && Meanings([]) == [] && AllText([]) && Joined([]) == []
  {
  }

  lemma {:induction false} DecodeWireAll(v: Bytes, i: nat, xs: seq<Item>)
    requires LegalAll(xs) && HoldsAt(v, i, WireAll(xs))
    ensures i + |WireAll(xs)| <= |v|
    ensures DecodeElems(v, i, |xs|) == Ok((Meanings(xs), i + |WireAll(xs)|))
    decreases xs, 1, |xs|
  {
    hide *;
    HoldsBounds(v, i, WireAll(xs));
    if xs == [] {
      AllEnd();
      ElemsNone(v, i);
    } else {
      AllStep(xs);
      HoldsConcat(v, i, Wire(xs[0]), WireAll(xs[1..]));
      DecodeWire(v, i, xs[0]);
      DecodeWireAll(v, i + |Wire(xs[0])|, xs[1..]);
      ElemsOne(v, i, |xs|);
    }
  }

  lemma ElemsNone(v: Bytes, i: nat)
    requires i <= |v|
    ensures DecodeElems(v, i, 0) == Ok(([], i))
  {
  }

  lemma ElemsOne(v: Bytes, i: nat, n: nat)
    requires i <= |v| && n > 0 && Decode(v, i).Ok? && DecodeElems(v, Decode(v, i).value.1, n - 1).Ok?
    ensures var (x, k) := Decode(v, i).value;
            var (xs, e) := DecodeElems(v, k, n - 1).value;
            DecodeElems(v, i, n) == Ok(([x] + xs, e))
  {
    hide Decode;
  }

  lemma {:induction false} DecodeWireAllToBreak(v: Bytes, i: nat, xs: seq<Item>)
    requires LegalAll(xs) && HoldsAt(v, i, WireAll(xs) + [0xFF])
    ensures i + |WireAll(xs)| + 1 <= |v|
    ensures DecodeElemsToBreak(v, i) == Ok((Meanings(xs), i + |WireAll(xs)| + 1))
    decreases xs, 1, |xs|
  {
    hide *;
    HoldsBounds(v, i, WireAll(xs) + [0xFF]);
    if xs == [] {
      AllEnd();
      assert WireAll(xs) + [0xFF] == [0xFF];
      HoldsFirst(v, i, [0xFF]);
      BreakNow(v, i, map[]);
    } else {
      AllStep(xs);
      var rest := WireAll(xs[1..]) + [0xFF];
      assert WireAll(xs) + [0xFF] == Wire(xs[0]) + rest;
      HoldsConcat(v, i, Wire(xs[0]), rest);
      FirstByte(xs[0]);
      HoldsFirst(v, i, Wire(xs[0]));
      DecodeWire(v, i, xs[0]);
      DecodeWireAllToBreak(v, i + |Wire(xs[0])|, xs[1..]);
      ElemToBreak(v, i);
    }
  }

  lemma BreakNow(v: Bytes, i: nat, m: map<Bytes, Json>)
    requires i < |v| && v[i] == 0xFF
    ensures DecodeElemsToBreak(v, i) == Ok(([], i + 1)) && DecodeChunks(v, i) == Ok(([], i + 1))
    ensures DecodePairsToBreak(v, i, m) == Ok((m, i + 1))
  {
  }

  lemma ElemToBreak(v: Bytes, i: nat)
    requires i < |v| && v[i] != 0xFF && Decode(v, i).Ok? && DecodeElemsToBreak(v, Decode(v, i).value.1).Ok?
    ensures var (x, k) := Decode(v, i).value;
            var (xs, e) := DecodeElemsToBreak(v, k).value;
            DecodeElemsToBreak(v, i) == Ok(([x] + xs, e))
  {
    hide Decode;
  }

  lemma TextMeaning(x: Item)
    requires Legal(x) && IsText(x)
    ensures Meaning(x) == String(TextOf(x))
  {
    hide Joined;
  }

  lemma TextRead(v: Bytes, i: nat, s: Bytes, k: nat)
    requires Decode(v, i) == Ok((String(s), k))
    ensures DecodeText(v, i) == Ok((s, k))
  {
    hide Decode;
  }

  lemma {:induction false} DecodeWireJoined(v: Bytes, i: nat, xs: seq<Item>)
    requires LegalAll(xs) && AllText(xs) && HoldsAt(v, i, WireAll(xs) + [0xFF])
    ensures i + |WireAll(xs)| + 1 <= |v|
    ensures DecodeChunks(v, i) == Ok((Joined(xs), i + |WireAll(xs)| + 1))
    decreases xs, 1, |xs|
  {
    hide *;
    HoldsBounds(v, i, WireAll(xs) + [0xFF]);
    if xs == [] {
      AllEnd();
      assert WireAll(xs) + [0xFF] == [0xFF];
      HoldsFirst(v, i, [0xFF]);
      BreakNow(v, i, map[]);
    } else {
      AllStep(xs);
      var rest := WireAll(xs[1..]) + [0xFF];
      assert WireAll(xs) + [0xFF] == Wire(xs[0]) + rest;
      HoldsConcat(v, i, Wire(xs[0]), rest);
      FirstByte(xs[0]);
      HoldsFirst(v, i, Wire(xs[0]));
      DecodeWire(v, i, xs[0]);
      TextMeaning(xs[0]);
      TextRead(v, i, TextOf(xs[0]), i + |Wire(xs[0])|);
      DecodeWireJoined(v, i + |Wire(xs[0])|, xs[1..]);
      ChunkRead(v, i);
    }
  }

  lemma ChunkRead(v: Bytes, i: nat)
    requires i < |v| && v[i] != 0xFF && DecodeText(v, i).Ok? && DecodeChunks(v, DecodeText(v, i).value.1).Ok?
    ensures var (s, k) := DecodeText(v, i).value;
            var (rest, e) := DecodeChunks(v, k).value;
            DecodeChunks(v, i) == Ok((s + rest, e))
  {
    hide DecodeText;
  }

  // ---------- sequences of pairs ----------

  lemma PairsStep(m: map<Bytes, Json>, ps: seq<Pair>)
    requires LegalPairs(ps) && ps != []
    ensures LegalPair(ps[0]) && LegalPairs(ps[1..])
    ensures WirePairs(ps) == WirePair(ps[0]) + WirePairs(ps[1..])
    ensures Members(m, ps) == Members(m[PairKey(ps[0]) := PairValue(ps[0])], ps[1..])
  {
    hide LegalPair;
    hide WirePair;
    hide PairKey;
    hide PairValue;
  }

  lemma PairsEnd(m: map<Bytes, Json>)
    ensures LegalPairs([]) && WirePairs([]) == [] && Members(m, []) == m
  {
  }

  /** One pair: the key, then the value. */
  lemma {:induction false} DecodeWirePair(v: Bytes, i: nat, p: Pair)
    requires LegalPair(p) && HoldsAt(v, i, WirePair(p))
    ensures i < |v| && v[i] != 0xFF && i + |WirePair(p)| <= |v|
    ensures DecodeText(v, i).Ok? && DecodeText(v, i).value.0 == PairKey(p)
    ensures Decode(v, DecodeText(v, i).value.1) == Ok((PairValue(p), i + |WirePair(p)|))
    decreases p, 3, 0
  {
    hide *;
    PairParts(p);
    HoldsBounds(v, i, WirePair(p));
    HoldsConcat(v, i, Wire(p.key), Wire(p.value));
    FirstByte(p.key);
    HoldsFirst(v, i, Wire(p.key));
    DecodeWire(v, i, p.key);
    TextMeaning(p.key);
    TextRead(v, i, TextOf(p.key), i + |Wire(p.key)|);
    DecodeWire(v, i + |Wire(p.key)|, p.value);
  }

  lemma PairParts(p: Pair)
    requires LegalPair(p)
    ensures IsText(p.key) && Legal(p.key) && Legal(p.value)
    ensures WirePair(p) == Wire(p.key) + Wire(p.value) && PairKey(p) == TextOf(p.key) && PairValue(p) == Meaning(p.value)
  {
    hide Legal;
    hide IsText;
    hide Wire;
    hide TextOf;
    hide Meaning;
  }

  lemma {:induction false} DecodeWirePairs(v: Bytes, i: nat, ps: seq<Pair>, m: map<Bytes, Json>)
    requires LegalPairs(ps) && HoldsAt(v, i, WirePairs(ps))
    ensures i + |WirePairs(ps)| <= |v|
    ensures DecodePairs(v, i, |ps|, m) == Ok((Members(m, ps), i + |WirePairs(ps)|))
    decreases ps, 2, |ps|
  {
    hide *;
    HoldsBounds(v, i, WirePairs(ps));
    if ps == [] {
      PairsEnd(m);
      PairsNone(v, i, m);
    } else {
      PairsStep(m, ps);
      HoldsConcat(v, i, WirePair(ps[0]), WirePairs(ps[1..]));
      DecodeWirePair(v, i, ps[0]);
      DecodeWirePairs(v, i + |WirePair(ps[0])|, ps[1..], m[PairKey(ps[0]) := PairValue(ps[0])]);
      PairsOne(v, i, |ps|, m);
    }
  }

  lemma PairsNone(v: Bytes, i: nat, m: map<Bytes, Json>)
    requires i <= |v|
    ensures DecodePairs(v, i, 0, m) == Ok((m, i))
  {
  }

  lemma PairsOne(v: Bytes, i: nat, n: nat, m: map<Bytes, Json>)
    requires i <= |v| && n > 0 && DecodeText(v, i).Ok? && Decode(v, DecodeText(v, i).value.1).Ok?
    ensures var (key, k) := DecodeText(v, i).value;
            var (x, e) := Decode(v, k).value;
            DecodePairs(v, i, n, m) == DecodePairs(v, e, n - 1, m[key := x])
            && (i < |v| && v[i] != 0xFF ==> DecodePairsToBreak(v, i, m) == DecodePairsToBreak(v, e, m[key := x]))
  {
    hide Decode;
    hide DecodeText;
  }

  lemma {:induction false} DecodeWirePairsToBreak(v: Bytes, i: nat, ps: seq<Pair>, m: map<Bytes, Json>)
    requires LegalPairs(ps) && HoldsAt(v, i, WirePairs(ps) + [0xFF])
    ensures i + |WirePairs(ps)| + 1 <= |v|
    ensures DecodePairsToBreak(v, i, m) == Ok((Members(m, ps), i + |WirePairs(ps)| + 1))
    decreases ps, 2, |ps|
  {
    hide *;
    HoldsBounds(v, i, WirePairs(ps) + [0xFF]);
    if ps == [] {
      PairsEnd(m);
      assert WirePairs(ps) + [0xFF] == [0xFF];
      HoldsFirst(v, i, [0xFF]);
      BreakNow(v, i, m);
    } else {
      PairsStep(m, ps);
      var rest := WirePairs(ps[1..]) + [0xFF];
      assert WirePairs(ps) + [0xFF] == WirePair(ps[0]) + rest;
      HoldsConcat(v, i, WirePair(ps[0]), rest);
      DecodeWirePair(v, i, ps[0]);
      DecodeWirePairsToBreak(v, i + |WirePair(ps[0])|, ps[1..], m[PairKey(ps[0]) := PairValue(ps[0])]);
      PairsOne(v, i, 1, m);
    }
  }

  // ---------- containers ----------

  lemma {:induction false} DecodeWireList(v: Bytes, i: nat, x: Item)
    requires Legal(x) && x.List? && HoldsAt(v, i, Wire(x))
    ensures Decode(v, i) == Ok((Meaning(x), i + |Wire(x)|))
    decreases x, 1, 0
  {
    hide HoldsAt;
    hide Argument;
    hide Start;
    hide DecodeElems;
    hide DecodePairs;
    hide WireAll;
    hide Meanings;
    var h := Start(4, x.w, |x.items|);
    HoldsConcat(v, i, h, WireAll(x.items));
    StartRead(v, i, 4, x.w, |x.items|);
    DecodeWireAll(v, i + |h|, x.items);
  }

  lemma {:induction false} DecodeWireDict(v: Bytes, i: nat, x: Item)
    requires Legal(x) && x.Dict? && HoldsAt(v, i, Wire(x))
    ensures Decode(v, i) == Ok((Meaning(x), i + |Wire(x)|))
    decreases x, 1, 0
  {
    hide HoldsAt;
    hide Argument;
    hide Start;
    hide DecodeElems;
    hide DecodePairs;
    hide WirePairs;
    hide Members;
    var h := Start(5, x.w, |x.pairs|);
    HoldsConcat(v, i, h, WirePairs(x.pairs));
    StartRead(v, i, 5, x.w, |x.pairs|);
    DecodeWirePairs(v, i + |h|, x.pairs, map[]);
  }

  lemma {:induction false} DecodeWireOpenList(v: Bytes, i: nat, x: Item)
    requires Legal(x) && x.OpenList? && HoldsAt(v, i, Wire(x))
    ensures Decode(v, i) == Ok((Meaning(x), i + |Wire(x)|))
    decreases x, 1, 0
  {
    hide HoldsAt;
    hide DecodeElemsToBreak;
    hide WireAll;
    hide Meanings;
    var inner := WireAll(x.items) + [0xFF];
    assert Wire(x) == [0x9F] + inner;
    HoldsConcat(v, i, [0x9F], inner);
    HoldsFirst(v, i, [0x9F]);
    DecodeWireAllToBreak(v, i + 1, x.items);
  }

  lemma {:induction false} DecodeWireOpenDict(v: Bytes, i: nat, x: Item)
    requires Legal(x) && x.OpenDict? && HoldsAt(v, i, Wire(x))
    ensures Decode(v, i) == Ok((Meaning(x), i + |Wire(x)|))
    decreases x, 1, 0
  {
    hide HoldsAt;
    hide DecodePairsToBreak;
    hide WirePairs;
    hide Members;
    var inner := WirePairs(x.pairs) + [0xFF];
    assert Wire(x) == [0xBF] + inner;
    HoldsConcat(v, i, [0xBF], inner);
    HoldsFirst(v, i, [0xBF]);
    DecodeWirePairsToBreak(v, i + 1, x.pairs, map[]);
  }

  lemma {:induction false} DecodeWireChunks(v: Bytes, i: nat, x: Item)
    requires Legal(x) && x.Chunks? && HoldsAt(v, i, Wire(x))
    ensures Decode(v, i) == Ok((Meaning(x), i + |Wire(x)|))
    decreases x, 1, 0
  {
    hide HoldsAt;
    hide DecodeChunks;
    hide WireAll;
    hide Joined;
    var inner := WireAll(x.chunks) + [0xFF];
    assert Wire(x) == [0x7F] + inner;
    HoldsConcat(v, i, [0x7F], inner);
    HoldsFirst(v, i, [0x7F]);
    DecodeWireJoined(v, i + 1, x.chunks);
  }

  // ---------- whatever is read was written ----------

  lemma StartWritten(v: Bytes, i: nat, major: nat) returns (w: Width)
    requires major < 6 && i < |v| && major * 32 <= v[i] <= major * 32 + 27 && Argument(v, i, major * 32).Ok?
    ensures var (n, k) := Argument(v, i, major * 32).value;
            Holds(w, n) && HoldsAt(v, i, Start(major, w, n)) && k == i + 1 + Size(w)
  {
    hide HoldsAt;
    hide BigEndian;
    hide Fetch;
    var b := v[i] - major * 32;
    if b <= 0x17 {
      w := Tiny;
      OneByte(v, i);
    } else {
      w := if b == 0x18 then One else if b == 0x19 then Two else if b == 0x1A then Four else Eight;
      PowValues();
      FetchedHeld(v, i, Size(w));
      var n := Fetch(v, i, Size(w)).value;
      HeldByte(v, i, BigEndian(Size(w), n));
    }
  }

  /** The item that a successful read has read. */
  lemma {:induction false} ItemRead(v: Bytes, i: nat) returns (x: Item)
    requires Decode(v, i).Ok?
    ensures Legal(x) && HoldsAt(v, i, Wire(x)) && Decode(v, i) == Ok((Meaning(x), i + |Wire(x)|))
    decreases if i <= |v| then |v| - i else 0, 1, 0
  {
    hide *;
    InsideText(v, i);
    if v[i] == 0x7F {
      x := ChunksItem(v, i);
    } else if 0x80 <= v[i] <= 0x9B {
      x := ListItem(v, i);
    } else if v[i] == 0x9F {
      x := OpenListItem(v, i);
    } else if 0xA0 <= v[i] <= 0xBB {
      x := DictItem(v, i);
    } else if v[i] == 0xBF {
      x := OpenDictItem(v, i);
    } else {
      x := LeafItem(v, i);
    }
  }

  lemma InsideText(v: Bytes, i: nat)
    requires Decode(v, i).Ok?
    ensures i < |v|
  {
  }

  lemma LeafItem(v: Bytes, i: nat) returns (x: Item)
    requires i < |v| && Decode(v, i).Ok?
    requires v[i] != 0x7F && !(0x80 <= v[i] <= 0x9B) && v[i] != 0x9F && !(0xA0 <= v[i] <= 0xBB) && v[i] != 0xBF
    ensures Legal(x) && HoldsAt(v, i, Wire(x)) && Decode(v, i) == Ok((Meaning(x), i + |Wire(x)|))
  {
    hide HoldsAt;
    hide Argument;
    hide BigEndian;
    hide DecodeFloat;
    hide Start;
    var b := v[i];
    OneByte(v, i);
    if b <= 0x1B {
      var w := StartWritten(v, i, 0);
      x := Unsigned(w, Argument(v, i, 0).value.0);
    } else if 0x20 <= b <= 0x3B {
      var w := StartWritten(v, i, 1);
      x := Negative(w, Argument(v, i, 32).value.0);
    } else if 0x60 <= b <= 0x7B {
      var w := StartWritten(v, i, 3);
      var (n, k) := Argument(v, i, 96).value;
      TextWritten(v, k, n);
      x := Plain(w, v[k..k + n]);
      HoldsConcat(v, i, Start(3, w, n), x.s);
    } else if b == 0xF4 {
      x := No;
    } else if b == 0xF5 {
      x := Yes;
    } else if b == 0xF6 {
      x := Nil;
    } else {
      x := FloatItem(v, i);
    }
  }

  lemma TextWritten(v: Bytes, k: nat, n: nat)
    requires k <= |v| && Binary.Text(v, k, n).Ok?
    ensures k + n <= |v| && Binary.Text(v, k, n) == Ok((v[k..k + n], k + n)) && HoldsAt(v, k, v[k..k + n])
  {
  }

  lemma FloatItem(v: Bytes, i: nat) returns (x: Item)
    requires i < |v| && DecodeFloat(v, i).Ok?
    ensures Legal(x) && HoldsAt(v, i, Wire(x)) && DecodeFloat(v, i) == Ok((Meaning(x), i + |Wire(x)|))
  {
    hide HoldsAt;
    hide BigEndian;
    hide Fetch;
    hide HalfToDouble;
    hide SingleToDouble;
    PowValues();
    var w := if v[i] == 0xF9 then 2 else if v[i] == 0xFA then 4 else 8;
    FetchedHeld(v, i, w);
    var n := Fetch(v, i, w).value;
    HeldByte(v, i, BigEndian(w, n));
    x := if w == 2 then Half(n) else if w == 4 then Single(n) else Double(n);
  }

  lemma {:induction false} ItemsRead(v: Bytes, i: nat, n: nat) returns (xs: seq<Item>)
    requires i <= |v| && DecodeElems(v, i, n).Ok?
    ensures LegalAll(xs) && |xs| == n && HoldsAt(v, i, WireAll(xs))
    ensures DecodeElems(v, i, n) == Ok((Meanings(xs), i + |WireAll(xs)|))
    decreases |v| - i, 2, n
  {
    hide *;
    if n == 0 {
      xs := [];
      AllEnd();
      NothingHeld(v, i);
      ElemsNone(v, i);
    } else {
      ElemsSplit(v, i, n);
      var k := Decode(v, i).value.1;
      var x := ItemRead(v, i);
      var rest := ItemsRead(v, k, n - 1);
      xs := [x] + rest;
      AllCons(x, rest);
      HoldsConcat(v, i, Wire(x), WireAll(rest));
      ElemsOne(v, i, n);
    }
  }

  lemma ElemsSplit(v: Bytes, i: nat, n: nat)
    requires i <= |v| && n > 0 && DecodeElems(v, i, n).Ok?
    ensures Decode(v, i).Ok? && i < Decode(v, i).value.1 <= |v| && DecodeElems(v, Decode(v, i).value.1, n - 1).Ok?
  {
    hide Decode;
  }

  lemma AllCons(x: Item, xs: seq<Item>)
    requires Legal(x) && LegalAll(xs)
    ensures LegalAll([x] + xs) && WireAll([x] + xs) == Wire(x) + WireAll(xs)
    ensures Meanings([x] + xs) == [Meaning(x)] + Meanings(xs)
    ensures IsText(x) && AllText(xs) ==> AllText([x] + xs) && Joined([x] + xs) == TextOf(x) + Joined(xs)
  {
    hide Legal;
    hide IsText;
    hide Wire;
    hide Meaning;
    hide TextOf;
    assert ([x] + xs)[1..] == xs;
  }

  lemma {:induction false} ItemsReadToBreak(v: Bytes, i: nat) returns (xs: seq<Item>)
    requires i <= |v| && DecodeElemsToBreak(v, i).Ok?
    ensures LegalAll(xs) && HoldsAt(v, i, WireAll(xs) + [0xFF])
    ensures DecodeElemsToBreak(v, i) == Ok((Meanings(xs), i + |WireAll(xs)| + 1))
    decreases |v| - i, 2, 0
  {
    hide *;
    ElemsBreakSplit(v, i);
    if v[i] == 0xFF {
      xs := [];
      AllEnd();
      OneByte(v, i);
      assert WireAll(xs) + [0xFF] == [0xFF];
      BreakNow(v, i, map[]);
    } else {
      var k := Decode(v, i).value.1;
      var x := ItemRead(v, i);
      var rest := ItemsReadToBreak(v, k);
      xs := [x] + rest;
      AllCons(x, rest);
      HoldsConcat(v, i, Wire(x), WireAll(rest) + [0xFF]);
      assert WireAll(xs) + [0xFF] == Wire(x) + (WireAll(rest) + [0xFF]);
      ElemToBreak(v, i);
    }
  }

  lemma ElemsBreakSplit(v: Bytes, i: nat)
    requires i <= |v| && DecodeElemsToBreak(v, i).Ok?
    ensures i < |v|
    ensures v[i] != 0xFF ==> Decode(v, i).Ok? && i < Decode(v, i).value.1 <= |v| && DecodeElemsToBreak(v, Decode(v, i).value.1).Ok?
  {
    hide Decode;
  }

  lemma {:induction false} ChunksReadToBreak(v: Bytes, i: nat) returns (xs: seq<Item>)
    requires i <= |v| && DecodeChunks(v, i).Ok?
    ensures LegalAll(xs) && AllText(xs) && HoldsAt(v, i, WireAll(xs) + [0xFF])
    ensures DecodeChunks(v, i) == Ok((Joined(xs), i + |WireAll(xs)| + 1))
    decreases |v| - i, 3, 0
  {
    hide *;
    ChunksSplit(v, i);
    if v[i] == 0xFF {
      xs := [];
      AllEnd();
      OneByte(v, i);
      assert WireAll(xs) + [0xFF] == [0xFF];
      BreakNow(v, i, map[]);
    } else {
      var x := TextItemRead(v, i);
      var rest := ChunksReadToBreak(v, i + |Wire(x)|);
      xs := [x] + rest;
      AllCons(x, rest);
      HoldsConcat(v, i, Wire(x), WireAll(rest) + [0xFF]);
      assert WireAll(xs) + [0xFF] == Wire(x) + (WireAll(rest) + [0xFF]);
      ChunkRead(v, i);
    }
  }

  lemma ChunksSplit(v: Bytes, i: nat)
    requires i <= |v| && DecodeChunks(v, i).Ok?
    ensures i < |v|
    ensures v[i] != 0xFF ==>
              DecodeText(v, i).Ok? && i < DecodeText(v, i).value.1 <= |v| && DecodeChunks(v, DecodeText(v, i).value.1).Ok?
  {
    hide DecodeText;
  }

  lemma {:induction false} TextItemRead(v: Bytes, i: nat) returns (x: Item)
    requires DecodeText(v, i).Ok?
    ensures Legal(x) && IsText(x) && HoldsAt(v, i, Wire(x)) && DecodeText(v, i) == Ok((TextOf(x), i + |Wire(x)|))
    decreases if i <= |v| then |v| - i else 0, 2, 0
  {
    hide *;
    TextSplit(v, i);
    x := ItemRead(v, i);
    StringItem(x);
    TextMeaning(x);
    TextRead(v, i, TextOf(x), i + |Wire(x)|);
  }

  lemma TextSplit(v: Bytes, i: nat)
    requires DecodeText(v, i).Ok?
    ensures Decode(v, i).Ok? && Decode(v, i).value.0.String?
  {
    hide Decode;
  }

  lemma StringItem(x: Item)
    requires Legal(x) && Meaning(x).String?
    ensures IsText(x)
  {
  }

  lemma PairsCons(p: Pair, ps: seq<Pair>, m: map<Bytes, Json>)
    requires LegalPair(p) && LegalPairs(ps)
    ensures LegalPairs([p] + ps) && WirePairs([p] + ps) == WirePair(p) + WirePairs(ps)
    ensures Members(m, [p] + ps) == Members(m[PairKey(p) := PairValue(p)], ps)
  {
    hide LegalPair;
    hide WirePair;
    hide PairKey;
    hide PairValue;
    assert ([p] + ps)[1..] == ps;
  }

  lemma {:induction false} PairRead(v: Bytes, i: nat) returns (p: Pair)
    requires i <= |v| && DecodeText(v, i).Ok? && Decode(v, DecodeText(v, i).value.1).Ok?
    ensures LegalPair(p) && HoldsAt(v, i, WirePair(p)) && DecodeText(v, i).value.0 == PairKey(p)
    ensures Decode(v, DecodeText(v, i).value.1) == Ok((PairValue(p), i + |WirePair(p)|))
    ensures i < i + |WirePair(p)| <= |v|
    decreases |v| - i, 3, 0
  {
    hide *;
    TextMoves(v, i);
    var key := TextItemRead(v, i);
    var value := ItemRead(v, i + |Wire(key)|);
    p := Pair(key, value);
    PairMade(p);
    PairParts(p);
    HoldsConcat(v, i, Wire(key), Wire(value));
    HoldsBounds(v, i, WirePair(p));
  }

  lemma TextMoves(v: Bytes, i: nat)
    requires DecodeText(v, i).Ok?
    ensures i < DecodeText(v, i).value.1 <= |v|
  {
    hide Decode;
  }

  lemma PairMade(p: Pair)
    requires IsText(p.key) && Legal(p.key) && Legal(p.value)
    ensures LegalPair(p)
  {
  }

  lemma {:induction false} PairsRead(v: Bytes, i: nat, n: nat, m: map<Bytes, Json>) returns (ps: seq<Pair>)
    requires i <= |v| && DecodePairs(v, i, n, m).Ok?
    ensures LegalPairs(ps) && |ps| == n && HoldsAt(v, i, WirePairs(ps))
    ensures DecodePairs(v, i, n, m) == Ok((Members(m, ps), i + |WirePairs(ps)|))
    decreases |v| - i, 4, n
  {
    hide *;
    if n == 0 {
      ps := [];
      PairsEnd(m);
      NothingHeld(v, i);
      PairsNone(v, i, m);
    } else {
      PairsSplit(v, i, n, m);
      var p := PairRead(v, i);
      PairsOne(v, i, n, m);
      var e := i + |WirePair(p)|;
      var rest := PairsRead(v, e, n - 1, m[PairKey(p) := PairValue(p)]);
      ps := [p] + rest;
      PairsCons(p, rest, m);
      HoldsConcat(v, i, WirePair(p), WirePairs(rest));
    }
  }

  lemma PairsSplit(v: Bytes, i: nat, n: nat, m: map<Bytes, Json>)
    requires i <= |v| && n > 0 && DecodePairs(v, i, n, m).Ok?
    ensures DecodeText(v, i).Ok? && Decode(v, DecodeText(v, i).value.1).Ok?
  {
    hide Decode;
    hide DecodeText;
  }

  lemma {:induction false} PairsReadToBreak(v: Bytes, i: nat, m: map<Bytes, Json>) returns (ps: seq<Pair>)
    requires i <= |v| && DecodePairsToBreak(v, i, m).Ok?
    ensures LegalPairs(ps) && HoldsAt(v, i, WirePairs(ps) + [0xFF])
    ensures DecodePairsToBreak(v, i, m) == Ok((Members(m, ps), i + |WirePairs(ps)| + 1))
    decreases |v| - i, 4, 0
  {
    hide *;
    PairsBreakSplit(v, i, m);
    if v[i] == 0xFF {
      ps := [];
      PairsEnd(m);
      OneByte(v, i);
      assert WirePairs(ps) + [0xFF] == [0xFF];
      BreakNow(v, i, m);
    } else {
      var p := PairRead(v, i);
      PairsOne(v, i, 1, m);
      var e := i + |WirePair(p)|;
      var rest := PairsReadToBreak(v, e, m[PairKey(p) := PairValue(p)]);
      ps := [p] + rest;
      PairsCons(p, rest, m);
      HoldsConcat(v, i, WirePair(p), WirePairs(rest) + [0xFF]);
      assert WirePairs(ps) + [0xFF] == WirePair(p) + (WirePairs(rest) + [0xFF]);
    }
  }

  lemma PairsBreakSplit(v: Bytes, i: nat, m: map<Bytes, Json>)
    requires i <= |v| && DecodePairsToBreak(v, i, m).Ok?
    ensures i < |v|
    ensures v[i] != 0xFF ==> DecodeText(v, i).Ok? && Decode(v, DecodeText(v, i).value.1).Ok?
  {
    hide Decode;
    hide DecodeText;
  }

  lemma {:induction false} ListItem(v: Bytes, i: nat) returns (x: Item)
    requires i < |v| && 0x80 <= v[i] <= 0x9B && Decode(v, i).Ok?
    ensures Legal(x) && HoldsAt(v, i, Wire(x)) && Decode(v, i) == Ok((Meaning(x), i + |Wire(x)|))
    decreases |v| - i, 0, 0
  {
    hide HoldsAt;
    hide Argument;
    hide Start;
    hide DecodeElems;
    hide WireAll;
    hide Meanings;
    var w := StartWritten(v, i, 4);
    var (n, k) := Argument(v, i, 128).value;
    var xs := ItemsRead(v, k, n);
    x := List(w, xs);
    HoldsConcat(v, i, Start(4, w, n), WireAll(xs));
  }

  lemma {:induction false} DictItem(v: Bytes, i: nat) returns (x: Item)
    requires i < |v| && 0xA0 <= v[i] <= 0xBB && Decode(v, i).Ok?
    ensures Legal(x) && HoldsAt(v, i, Wire(x)) && Decode(v, i) == Ok((Meaning(x), i + |Wire(x)|))
    decreases |v| - i, 0, 0
  {
    hide HoldsAt;
    hide Argument;
    hide Start;
    hide DecodePairs;
    hide WirePairs;
    hide Members;
    var w := StartWritten(v, i, 5);
    var (n, k) := Argument(v, i, 160).value;
    var ps := PairsRead(v, k, n, map[]);
    x := Dict(w, ps);
    HoldsConcat(v, i, Start(5, w, n), WirePairs(ps));
  }

  lemma {:induction false} OpenListItem(v: Bytes, i: nat) returns (x: Item)
    requires i < |v| && v[i] == 0x9F && Decode(v, i).Ok?
    ensures Legal(x) && HoldsAt(v, i, Wire(x)) && Decode(v, i) == Ok((Meaning(x), i + |Wire(x)|))
    decreases |v| - i, 0, 0
  {
    hide *;
    OpenListDecode(v, i);
    var xs := ItemsReadToBreak(v, i + 1);
    x := OpenList(xs);
    OpenListParts(xs);
    HeldByte(v, i, WireAll(xs) + [0xFF]);
  }

  lemma OpenListDecode(v: Bytes, i: nat)
    requires i < |v| && v[i] == 0x9F && Decode(v, i).Ok?
    ensures DecodeElemsToBreak(v, i + 1).Ok?
    ensures var (xs, k) := DecodeElemsToBreak(v, i + 1).value; Decode(v, i) == Ok((Array(xs), k))
  {
    hide DecodeElemsToBreak;
    hide DecodeLeaf;
  }

  lemma OpenListParts(xs: seq<Item>)
    requires LegalAll(xs)
    ensures Legal(OpenList(xs)) && Wire(OpenList(xs)) == [0x9F] + (WireAll(xs) + [0xFF])
    ensures Meaning(OpenList(xs)) == Array(Meanings(xs))
  {
    hide WireAll;
    hide Meanings;
  }

  lemma {:induction false} OpenDictItem(v: Bytes, i: nat) returns (x: Item)
    requires i < |v| && v[i] == 0xBF && Decode(v, i).Ok?
    ensures Legal(x) && HoldsAt(v, i, Wire(x)) && Decode(v, i) == Ok((Meaning(x), i + |Wire(x)|))
    decreases |v| - i, 0, 0
  {
    hide *;
    OpenDictDecode(v, i);
    var ps := PairsReadToBreak(v, i + 1, map[]);
    x := OpenDict(ps);
    OpenDictParts(ps);
    HeldByte(v, i, WirePairs(ps) + [0xFF]);
  }

  lemma OpenDictDecode(v: Bytes, i: nat)
    requires i < |v| && v[i] == 0xBF && Decode(v, i).Ok?
    ensures DecodePairsToBreak(v, i + 1, map[]).Ok?
    ensures var (m, k) := DecodePairsToBreak(v, i + 1, map[]).value; Decode(v, i) == Ok((Object(m), k))
  {
    hide DecodePairsToBreak;
    hide DecodeLeaf;
  }

  lemma OpenDictParts(ps: seq<Pair>)
    requires LegalPairs(ps)
    ensures Legal(OpenDict(ps)) && Wire(OpenDict(ps)) == [0xBF] + (WirePairs(ps) + [0xFF])
    ensures Meaning(OpenDict(ps)) == Object(Members(map[], ps))
  {
    hide LegalPair;
    hide WirePairs;
    hide Members;
  }

  lemma {:induction false} ChunksItem(v: Bytes, i: nat) returns (x: Item)
    requires i < |v| && v[i] == 0x7F && Decode(v, i).Ok?
    ensures Legal(x) && HoldsAt(v, i, Wire(x)) && Decode(v, i) == Ok((Meaning(x), i + |Wire(x)|))
    decreases |v| - i, 0, 0
  {
    hide *;
    ChunksDecode(v, i);
    var xs := ChunksReadToBreak(v, i + 1);
    x := Chunks(xs);
    ChunksParts(xs);
    HeldByte(v, i, WireAll(xs) + [0xFF]);
  }

  lemma ChunksDecode(v: Bytes, i: nat)
    requires i < |v| && v[i] == 0x7F && Decode(v, i).Ok?
    ensures DecodeChunks(v, i + 1).Ok?
    ensures var (s, k) := DecodeChunks(v, i + 1).value; Decode(v, i) == Ok((String(s), k))
  {
    hide DecodeChunks;
    hide DecodeLeaf;
  }

  lemma ChunksParts(xs: seq<Item>)
    requires LegalAll(xs) && AllText(xs)
    ensures Legal(Chunks(xs)) && Wire(Chunks(xs)) == [0x7F] + (WireAll(xs) + [0xFF])
    ensures Meaning(Chunks(xs)) == String(Joined(xs))
  {
    hide WireAll;
    hide Joined;
  }

  /** Initial bytes that begin no item. */
  predicate Unsupported(b: byte) {
    || 0x1C <= b <= 0x1F || 0x3C <= b <= 0x5F || 0x7C <= b <= 0x7E || 0x9C <= b <= 0x9E || 0xBC <= b <= 0xBE
    || 0xC0 <= b <= 0xF3 || 0xF7 <= b <= 0xF8 || 0xFC <= b
  }

  /** They are refused as invalid, and nothing else begins with them. */
  lemma UnsupportedByte(v: Bytes, i: nat)
    requires i < |v|
    ensures Unsupported(v[i]) ==> Decode(v, i) == Err(InvalidArgument)
    ensures !Unsupported(v[i]) ==> exists x :: Legal(x) && Wire(x)[..1] == [v[i]]
  {
    if !Unsupported(v[i]) {
      var x := Starting(v[i]);
    }
  }

  lemma StartByte(b: byte) returns (w: Width, n: nat)
    requires b < 0xC0 && b % 32 <= 27
    ensures Holds(w, n) && Start(b / 32, w, n) != [] && Start(b / 32, w, n)[0] == b
  {
    hide BigEndian;
    hide Pow256;
    PowValues();
    var k := b % 32;
    assert b == b / 32 * 32 + k;
    w := if k < 24 then Tiny else if k == 24 then One else if k == 25 then Two else if k == 26 then Four else Eight;
    n := if k < 24 then k else 0;
  }

  lemma Front(h: Bytes, rest: Bytes, b: byte)
    requires h != [] && h[0] == b
    ensures (h + rest)[..1] == [b]
  {
  }

  /** An item with a head that begins with `b`. */
  lemma Headed(b: byte) returns (x: Item)
    requires b < 0xC0 && b % 32 <= 27 && b / 32 != 2
    ensures Legal(x) && Wire(x)[..1] == [b]
  {
    hide Start;
    hide Holds;
    var w, n := StartByte(b);
    var h, major := Start(b / 32, w, n), b / 32;
    if major == 0 {
      x := Unsigned(w, n);
      Front(h, [], b);
      assert h + [] == h;
    } else if major == 1 {
      x := Negative(w, n);
      Front(h, [], b);
      assert h + [] == h;
    } else if major == 3 {
      x := Plain(w, seq(n, _ => 0));
      Front(h, x.s, b);
    } else if major == 4 {
      x := List(w, seq(n, _ => Nil));
      Front(h, WireAll(x.items), b);
    } else {
      x := Dict(w, seq(n, _ => Pair(Plain(Tiny, []), Nil)));
      TinyText();
      Front(h, WirePairs(x.pairs), b);
    }
  }

  lemma TinyText()
    ensures LegalPair(Pair(Plain(Tiny, []), Nil))
  {
  }

  /** An item that begins with a supported byte. */
  lemma Starting(b: byte) returns (x: Item)
    requires !Unsupported(b)
    ensures Legal(x) && Wire(x)[..1] == [b]
  {
    if b == 0x7F {
      x := Chunks([]);
    } else if b == 0x9F {
      x := OpenList([]);
    } else if b == 0xBF {
      x := OpenDict([]);
    } else if b < 0xC0 {
      x := Headed(b);
    } else {
      x := if b == 0xF4 then No else if b == 0xF5 then Yes else if b == 0xF6 then Nil
           else if b == 0xF9 then Half(0) else if b == 0xFA then Single(0) else Double(0);
      Zeros();
    }
  }

  lemma Zeros()
    ensures Wire(Half(0))[..1] == [0xF9] && Wire(Single(0))[..1] == [0xFA] && Wire(Double(0))[..1] == [0xFB]
  {
    hide BigEndian;
  }

  ghost predicate Spells(v: Bytes, i: nat, j: Json, k: nat) {
    exists x :: Legal(x) && HoldsAt(v, i, Wire(x)) && j == Meaning(x) && k == i + |Wire(x)|
  }

  /** The decoder reads a value exactly where an item with that meaning is written. */
  lemma DecodeIsWire(v: Bytes, i: nat, j: Json, k: nat)
    ensures Decode(v, i) == Ok((j, k)) <==> Spells(v, i, j, k)
  {
    hide Decode;
    hide Legal;
    hide Wire;
    hide Meaning;
    hide HoldsAt;
    if Decode(v, i) == Ok((j, k)) {
      var x := ItemRead(v, i);
    }
    if Spells(v, i, j, k) {
      var x :| Legal(x) && HoldsAt(v, i, Wire(x)) && j == Meaning(x) && k == i + |Wire(x)|;
      DecodeWire(v, i, x);
    }
  }
}
