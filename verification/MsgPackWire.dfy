/**
  The byte strings the MessagePack decoder reads (its format specification's
  table of first bytes), as a syntax of items with every head, and what each item
  means. The decoder accepts exactly these.
 */
module MsgPackWire {
  import opened JsonValue
  import opened Binary
  import opened MsgPack

  /** How a length or number is written: in the head byte, or in 1, 2, 4 or 8 bytes after it. */
  datatype Width = Tiny | One | Two | Four | Eight

  function Size(w: Width): nat {
    match w
    case Tiny => 0
    case One => 1
    case Two => 2
    case Four => 4
    case Eight => 8
  }

  /** The bytes after the head byte. */
  predicate Holds(w: Width, n: nat) {
    w != Tiny && n < Pow256(Size(w))
  }

  datatype Pair = Pair(key: Item, value: Item)

  datatype Item =
    | Small(n: nat)
    | SmallNegative(n: nat)
    | Unsigned(w: Width, n: nat)
    | Signed(w: Width, n: nat)
    | Plain(w: Width, s: Bytes)
    | List(w: Width, items: seq<Item>)
    | Dict(w: Width, pairs: seq<Pair>)
    | No | Yes | Nil
    | Single(bits: nat) | Double(bits: nat)

  predicate TextFits(w: Width, n: nat) {
    if w == Tiny then n < 32 else w != Eight && Holds(w, n)
  }

  predicate ListFits(w: Width, n: nat) {
    if w == Tiny then n < 16 else w != One && w != Eight && Holds(w, n)
  }

  predicate Legal(x: Item) {
    match x
    case Small(n) => n < 128
    case SmallNegative(n) => 1 <= n <= 32
    case Unsigned(w, n) => Holds(w, n)
    case Signed(w, n) => Holds(w, n)
    case Plain(w, s) => TextFits(w, |s|)
    case List(w, xs) => ListFits(w, |xs|) && forall i :: 0 <= i < |xs| ==> Legal(xs[i])
    case Dict(w, ps) => ListFits(w, |ps|) && forall i :: 0 <= i < |ps| ==> LegalPair(ps[i])
    case Single(b) => b < 0x1_0000_0000
    case Double(b) => b < 0x1_0000_0000_0000_0000
    case _ => true
  }

  predicate LegalPair(p: Pair) {
    p.key.Plain? && Legal(p.key) && Legal(p.value)
  }

  predicate LegalAll(xs: seq<Item>) {
    forall i :: 0 <= i < |xs| ==> Legal(xs[i])
  }

  predicate LegalPairs(ps: seq<Pair>) {
    forall i :: 0 <= i < |ps| ==> LegalPair(ps[i])
  }

  // ---------- the bytes ----------

  function TextStart(w: Width, n: nat): (r: Bytes)
    requires TextFits(w, n)
    ensures |r| == 1 + Size(w)
  {
    match w
    case Tiny => [0xA0 + n]
    case One => [0xD9] + BigEndian(1, n)
    case Two => [0xDA] + BigEndian(2, n)
    case Four => [0xDB] + BigEndian(4, n)
  }

  function ListStart(w: Width, n: nat): (r: Bytes)
    requires ListFits(w, n)
    ensures |r| == 1 + Size(w)
  {
    match w
    case Tiny => [0x90 + n]
    case Two => [0xDC] + BigEndian(2, n)
    case Four => [0xDD] + BigEndian(4, n)
  }

  function DictStart(w: Width, n: nat): (r: Bytes)
    requires ListFits(w, n)
    ensures |r| == 1 + Size(w)
  {
    match w
    case Tiny => [0x80 + n]
    case Two => [0xDE] + BigEndian(2, n)
    case Four => [0xDF] + BigEndian(4, n)
  }

  /** 0xCC to 0xCF without a sign, 0xD0 to 0xD3 with one. */
  function NumberStart(signed: bool, w: Width, n: nat): (r: Bytes)
    requires Holds(w, n)
    ensures |r| == 1 + Size(w)
  {
    match w
    case One => [if signed then 0xD0 else 0xCC] + BigEndian(1, n)
    case Two => [if signed then 0xD1 else 0xCD] + BigEndian(2, n)
    case Four => [if signed then 0xD2 else 0xCE] + BigEndian(4, n)
    case Eight => [if signed then 0xD3 else 0xCF] + BigEndian(8, n)
  }

  function Wire(x: Item): Bytes
    requires Legal(x)
    decreases x, 1, 0
  {
    match x
    case Small(n) => [n]
    case SmallNegative(n) => [0x100 - n]
    case Unsigned(w, n) => NumberStart(false, w, n)
    case Signed(w, n) => NumberStart(true, w, n)
    case Plain(w, s) => TextStart(w, |s|) + s
    case List(w, xs) => ListStart(w, |xs|) + WireAll(xs)
    case Dict(w, ps) => DictStart(w, |ps|) + WirePairs(ps)
    case Nil => [0xC0]
    case No => [0xC2]
    case Yes => [0xC3]
    case Single(b) => [0xCA] + BigEndian(4, b)
    case Double(b) => [0xCB] + BigEndian(8, b)
  }

  function WireAll(xs: seq<Item>): Bytes
    requires LegalAll(xs)
    decreases xs, 0, |xs|
  {
    if xs == [] then [] else Wire(xs[0]) + WireAll(xs[1..])
  }

  function WirePairs(ps: seq<Pair>): Bytes
    requires LegalPairs(ps)
    decreases ps, 0, |ps|
  {
    if ps == [] then [] else WirePair(ps[0]) + WirePairs(ps[1..])
  }

  function WirePair(p: Pair): Bytes
    requires LegalPair(p)
    decreases p, 1, 0
  {
    Wire(p.key) + Wire(p.value)
  }

  // ---------- the meaning ----------

  /** The number of `w` bytes read in two's complement. */
  function TwosComplement(w: Width, n: nat): int
    requires Holds(w, n)
  {
    if 2 * n < Pow256(Size(w)) then n else n - Pow256(Size(w))
  }

  /** It is the one number of that range with those low bytes. */
  lemma TwosComplementIs(w: Width, n: nat, i: int)
    requires Holds(w, n)
    ensures i == TwosComplement(w, n) <==>
              0 - Pow256(Size(w)) <= 2 * i < Pow256(Size(w)) && (i == n || i == n - Pow256(Size(w)))
  {
  }

  lemma NumberRange(w: Width, n: nat)
    requires Holds(w, n)
    ensures n < 0x1_0000_0000_0000_0000
    ensures -0x8000_0000_0000_0000 <= TwosComplement(w, n) < 0x8000_0000_0000_0000
  {
    PowValues();
  }

  function Meaning(x: Item): Json
    requires Legal(x)
    decreases x, 1, 0
  {
    match x
    case Small(n) => Uint(n)
    case SmallNegative(n) => Int(0 - n)
    case Unsigned(w, n) => NumberRange(w, n); Uint(n)
    case Signed(w, n) => NumberRange(w, n); Int(TwosComplement(w, n))
    case Plain(_, s) => String(s)
    case List(_, xs) => Array(Meanings(xs))
    case Dict(_, ps) => Object(Members(map[], ps))
    case Nil => Null
    case No => Bool(false)
    case Yes => Bool(true)
    case Single(b) => Float(SingleToDouble(b))
    case Double(b) => Float(b)
  }

  function Meanings(xs: seq<Item>): seq<Json>
    requires LegalAll(xs)
    decreases xs, 0, |xs|
  {
    if xs == [] then [] else [Meaning(xs[0])] + Meanings(xs[1..])
  }

  /** The pairs, one after the other, set members of `m`. */
  function Members(m: map<Bytes, Json>, ps: seq<Pair>): map<Bytes, Json>
    requires LegalPairs(ps)
    decreases ps, 0, |ps|
  {
    if ps == [] then m else Members(m[PairKey(ps[0]) := PairValue(ps[0])], ps[1..])
  }

  function PairKey(p: Pair): Bytes
    requires LegalPair(p)
    decreases p, 1, 0
  {
    p.key.s
  }

  function PairValue(p: Pair): Json
    requires LegalPair(p)
    decreases p, 1, 0
  {
    Meaning(p.value)
  }

  lemma {:induction false} KeyNotSet(m: map<Bytes, Json>, ps: seq<Pair>, k: Bytes)
    requires LegalPairs(ps) && forall n :: 0 <= n < |ps| ==> PairKey(ps[n]) != k
    ensures k in Members(m, ps) <==> k in m
    ensures k in m ==> Members(m, ps)[k] == m[k]
    decreases |ps|
  {
    hide PairKey;
    hide PairValue;
    hide LegalPair;
    if ps != [] {
      KeyNotSet(m[PairKey(ps[0]) := PairValue(ps[0])], ps[1..], k);
    }
  }

  /** A repeated key has the value of its last pair. */
  lemma {:induction false} LastPairWins(m: map<Bytes, Json>, ps: seq<Pair>, i: nat)
    requires LegalPairs(ps) && i < |ps|
    requires forall n :: i < n < |ps| ==> PairKey(ps[n]) != PairKey(ps[i])
    ensures PairKey(ps[i]) in Members(m, ps) && Members(m, ps)[PairKey(ps[i])] == PairValue(ps[i])
    decreases |ps|
  {
    hide PairKey;
    hide PairValue;
    hide LegalPair;
    var next := m[PairKey(ps[0]) := PairValue(ps[0])];
    if i == 0 {
      KeyNotSet(next, ps[1..], PairKey(ps[0]));
    } else {
      LastPairWins(next, ps[1..], i - 1);
    }
  }

  // ---------- reading what is written ----------

  lemma TextStartRead(v: Bytes, i: nat, w: Width, n: nat)
    requires TextFits(w, n) && HoldsAt(v, i, TextStart(w, n))
    ensures i < |v| && IsText(v[i]) && TextLength(v, i) == Ok((n, i + 1 + Size(w)))
  {
    hide HoldsAt;
    hide BigEndian;
    hide Fetch;
    HoldsFirst(v, i, TextStart(w, n));
    if w != Tiny {
      WideHeld(v, i, TextStart(w, n)[0], Size(w), n);
    }
  }

  lemma ListStartRead(v: Bytes, i: nat, w: Width, n: nat)
    requires ListFits(w, n) && HoldsAt(v, i, ListStart(w, n))
    ensures i < |v| && IsArray(v[i]) && ArrayLength(v, i) == Ok((n, i + 1 + Size(w)))
  {
    hide HoldsAt;
    hide BigEndian;
    hide Fetch;
    HoldsFirst(v, i, ListStart(w, n));
    if w != Tiny {
      WideHeld(v, i, ListStart(w, n)[0], Size(w), n);
    }
  }

  lemma DictStartRead(v: Bytes, i: nat, w: Width, n: nat)
    requires ListFits(w, n) && HoldsAt(v, i, DictStart(w, n))
    ensures i < |v| && IsMap(v[i]) && MapLength(v, i) == Ok((n, i + 1 + Size(w)))
  {
    hide HoldsAt;
    hide BigEndian;
    hide Fetch;
    HoldsFirst(v, i, DictStart(w, n));
    if w != Tiny {
      WideHeld(v, i, DictStart(w, n)[0], Size(w), n);
    }
  }

  /** Each head 0xD0 to 0xD3 reads the two's-complement value of its bytes. */
  lemma NumberRead(v: Bytes, i: nat, signed: bool, w: Width, n: nat)
    requires Holds(w, n) && HoldsAt(v, i, NumberStart(signed, w, n))
    ensures n < 0x1_0000_0000_0000_0000
    ensures -0x8000_0000_0000_0000 <= TwosComplement(w, n) < 0x8000_0000_0000_0000
    ensures Decode(v, i) == Ok((if signed then Int(TwosComplement(w, n)) else Uint(n), i + 1 + Size(w)))
  {
    hide HoldsAt;
    hide BigEndian;
    hide Fetch;
    hide DecodeElems;
    hide DecodePairs;
    PowValues();
    NumberRange(w, n);
    WideHeld(v, i, NumberStart(signed, w, n)[0], Size(w), n);
  }

  lemma FirstByte(x: Item)
    requires Legal(x)
    ensures Wire(x) != []
  {
    hide WireAll;
    hide WirePairs;
    hide BigEndian;
  }

  /** Wherever a vector holds the bytes of an item, the decoder reads its meaning and stops at its end. */
  lemma {:induction false} DecodeWire(v: Bytes, i: nat, x: Item)
    requires Legal(x) && HoldsAt(v, i, Wire(x))
    ensures Decode(v, i) == Ok((Meaning(x), i + |Wire(x)|))
    decreases x, 2, 0
  {
    hide *;
    match x
    case List(_, _) => DecodeWireList(v, i, x);
    case Dict(_, _) => DecodeWireDict(v, i, x);
    case Plain(_, _) => DecodeWirePlain(v, i, x);
    case Single(_) => DecodeWireFloat(v, i, x);
    case Double(_) => DecodeWireFloat(v, i, x);
    case _ => DecodeWireLeaf(v, i, x);
  }

  lemma DecodeWireLeaf(v: Bytes, i: nat, x: Item)
    requires Legal(x) && !x.List? && !x.Dict? && !x.Plain? && !x.Single? && !x.Double? && HoldsAt(v, i, Wire(x))
    ensures Decode(v, i) == Ok((Meaning(x), i + |Wire(x)|))
  {
    hide HoldsAt;
    hide BigEndian;
    hide DecodeElems;
    hide DecodePairs;
    hide DecodeNumber;
    hide NumberStart;
    hide TwosComplement;
    if x.Unsigned? || x.Signed? {
      NumberRead(v, i, x.Signed?, x.w, x.n);
    } else {
      HoldsFirst(v, i, Wire(x));
    }
  }

  lemma DecodeWirePlain(v: Bytes, i: nat, x: Item)
    requires Legal(x) && x.Plain? && HoldsAt(v, i, Wire(x))
    ensures Decode(v, i) == Ok((Meaning(x), i + |Wire(x)|))
    ensures DecodeText(v, i) == Ok((x.s, i + |Wire(x)|))
  {
    hide HoldsAt;
    hide TextLength;
    hide TextStart;
    hide DecodeElems;
    hide DecodePairs;
    var h := TextStart(x.w, |x.s|);
    HoldsConcat(v, i, h, x.s);
    TextStartRead(v, i, x.w, |x.s|);
    HoldsSlice(v, i + |h|, x.s);
  }

  lemma DecodeWireFloat(v: Bytes, i: nat, x: Item)
    requires Legal(x) && (x.Single? || x.Double?) && HoldsAt(v, i, Wire(x))
    ensures Decode(v, i) == Ok((Meaning(x), i + |Wire(x)|))
  {
    hide HoldsAt;
    hide BigEndian;
    hide Fetch;
    hide SingleToDouble;
    hide DecodeElems;
    hide DecodePairs;
    PowValues();
    WideHeld(v, i, if x.Single? then 0xCA else 0xCB, if x.Single? then 4 else 8, x.bits);
  }

  // ---------- sequences of items ----------

  lemma AllStep(xs: seq<Item>)
    requires LegalAll(xs) && xs != []
    ensures Legal(xs[0]) && LegalAll(xs[1..])
    ensures WireAll(xs) == Wire(xs[0]) + WireAll(xs[1..]) && Meanings(xs) == [Meaning(xs[0])] + Meanings(xs[1..])
  {
    hide Legal;
  }

  lemma AllEnd()
    ensures LegalAll([]) && WireAll([]) == [] && Meanings([]) == []
  {
  }

  lemma {:induction false} DecodeWireAll(v: Bytes, i: nat, xs: seq<Item>)
    requires LegalAll(xs) && HoldsAt(v, i, WireAll(xs))
    ensures i + |WireAll(xs)| <= |v|
    ensures DecodeElems(v, i, |xs|) == Ok((Meanings(xs), i + |WireAll(xs)|))
    decreases xs, 1, |xs|
  {
    hide *;
    HoldsBounds(v, i, WireAll(xs));
    if xs == [] {
      AllEnd();
      ElemsNone(v, i);
    } else {
      AllStep(xs);
      HoldsConcat(v, i, Wire(xs[0]), WireAll(xs[1..]));
      DecodeWire(v, i, xs[0]);
      DecodeWireAll(v, i + |Wire(xs[0])|, xs[1..]);
      ElemsOne(v, i, |xs|);
    }
  }

  lemma ElemsNone(v: Bytes, i: nat)
    requires i <= |v|
    ensures DecodeElems(v, i, 0) == Ok(([], i))
  {
  }

  lemma ElemsOne(v: Bytes, i: nat, n: nat)
    requires i <= |v| && n > 0 && Decode(v, i).Ok? && DecodeElems(v, Decode(v, i).value.1, n - 1).Ok?
    ensures var (x, k) := Decode(v, i).value;
            var (xs, e) := DecodeElems(v, k, n - 1).value;
            DecodeElems(v, i, n) == Ok(([x] + xs, e))
  {
    hide Decode;
  }

  // ---------- sequences of pairs ----------

  lemma PairsStep(m: map<Bytes, Json>, ps: seq<Pair>)
    requires LegalPairs(ps) && ps != []
    ensures LegalPair(ps[0]) && LegalPairs(ps[1..])
    ensures WirePairs(ps) == WirePair(ps[0]) + WirePairs(ps[1..])
    ensures Members(m, ps) == Members(m[PairKey(ps[0]) := PairValue(ps[0])], ps[1..])
  {
    hide LegalPair;
    hide WirePair;
    hide PairKey;
    hide PairValue;
  }

  lemma PairsEnd(m: map<Bytes, Json>)
    ensures LegalPairs([]) && WirePairs([]) == [] && Members(m, []) == m
  {
  }

  /** One pair: the key, then the value. */
  lemma {:induction false} DecodeWirePair(v: Bytes, i: nat, p: Pair)
    requires LegalPair(p) && HoldsAt(v, i, WirePair(p))
    ensures i + |WirePair(p)| <= |v|
    ensures DecodeText(v, i).Ok? && DecodeText(v, i).value.0 == PairKey(p)
    ensures Decode(v, DecodeText(v, i).value.1) == Ok((PairValue(p), i + |WirePair(p)|))
    decreases p, 3, 0
  {
    hide *;
    PairParts(p);
    HoldsBounds(v, i, WirePair(p));
    HoldsConcat(v, i, Wire(p.key), Wire(p.value));
    DecodeWirePlain(v, i, p.key);
    DecodeWire(v, i + |Wire(p.key)|, p.value);
  }

  lemma PairParts(p: Pair)
    requires LegalPair(p)
    ensures p.key.Plain? && Legal(p.key) && Legal(p.value)
    ensures WirePair(p) == Wire(p.key) + Wire(p.value) && PairKey(p) == p.key.s && PairValue(p) == Meaning(p.value)
  {
    hide Legal;
    hide Wire;
    hide Meaning;
  }

  lemma {:induction false} DecodeWirePairs(v: Bytes, i: nat, ps: seq<Pair>, m: map<Bytes, Json>)
    requires LegalPairs(ps) && HoldsAt(v, i, WirePairs(ps))
    ensures i + |WirePairs(ps)| <= |v|
    ensures DecodePairs(v, i, |ps|, m) == Ok((Members(m, ps), i + |WirePairs(ps)|))
    decreases ps, 2, |ps|
  {
    hide *;
    HoldsBounds(v, i, WirePairs(ps));
    if ps == [] {
      PairsEnd(m);
      PairsNone(v, i, m);
    } else {
      PairsStep(m, ps);
      HoldsConcat(v, i, WirePair(ps[0]), WirePairs(ps[1..]));
      DecodeWirePair(v, i, ps[0]);
      DecodeWirePairs(v, i + |WirePair(ps[0])|, ps[1..], m[PairKey(ps[0]) := PairValue(ps[0])]);
      PairsOne(v, i, |ps|, m);
    }
  }

  lemma PairsNone(v: Bytes, i: nat, m: map<Bytes, Json>)
    requires i <= |v|
    ensures DecodePairs(v, i, 0, m) == Ok((m, i))
  {
  }

  lemma PairsOne(v: Bytes, i: nat, n: nat, m: map<Bytes, Json>)
    requires i <= |v| && n > 0 && DecodeText(v, i).Ok? && Decode(v, DecodeText(v, i).value.1).Ok?
    ensures var (key, k) := DecodeText(v, i).value;
            var (x, e) := Decode(v, k).value;
            DecodePairs(v, i, n, m) == DecodePairs(v, e, n - 1, m[key := x])
  {
    hide Decode;
    hide DecodeText;
  }

  // ---------- containers ----------

  lemma {:induction false} DecodeWireList(v: Bytes, i: nat, x: Item)
    requires Legal(x) && x.List? && HoldsAt(v, i, Wire(x))
    ensures Decode(v, i) == Ok((Meaning(x), i + |Wire(x)|))
    decreases x, 1, 0
  {
    hide HoldsAt;
    hide ArrayLength;
    hide ListStart;
    hide DecodeElems;
    hide DecodePairs;
    hide WireAll;
    hide Meanings;
    var h := ListStart(x.w, |x.items|);
    HoldsConcat(v, i, h, WireAll(x.items));
    ListStartRead(v, i, x.w, |x.items|);
    DecodeWireAll(v, i + |h|, x.items);
  }

  lemma {:induction false} DecodeWireDict(v: Bytes, i: nat, x: Item)
    requires Legal(x) && x.Dict? && HoldsAt(v, i, Wire(x))
    ensures Decode(v, i) == Ok((Meaning(x), i + |Wire(x)|))
    decreases x, 1, 0
  {
    hide HoldsAt;
    hide MapLength;
    hide DictStart;
    hide DecodeElems;
    hide DecodePairs;
    hide WirePairs;
    hide Members;
    var h := DictStart(x.w, |x.pairs|);
    HoldsConcat(v, i, h, WirePairs(x.pairs));
    DictStartRead(v, i, x.w, |x.pairs|);
    DecodeWirePairs(v, i + |h|, x.pairs, map[]);
  }

  // ---------- whatever is read was written ----------

  lemma TextStartWritten(v: Bytes, i: nat) returns (w: Width)
    requires i < |v| && IsText(v[i]) && TextLength(v, i).Ok?
    ensures var (n, k) := TextLength(v, i).value;
            TextFits(w, n) && HoldsAt(v, i, TextStart(w, n)) && k == i + 1 + Size(w)
  {
    hide HoldsAt;
    hide BigEndian;
    hide Fetch;
    OneByte(v, i);
    w := if v[i] <= 0xBF then Tiny else if v[i] == 0xD9 then One else if v[i] == 0xDA then Two else Four;
    if w != Tiny {
      FetchedHeld(v, i, Size(w));
      HeldByte(v, i, BigEndian(Size(w), Fetch(v, i, Size(w)).value));
    }
  }

  lemma ListStartWritten(v: Bytes, i: nat) returns (w: Width)
    requires i < |v| && IsArray(v[i]) && ArrayLength(v, i).Ok?
    ensures var (n, k) := ArrayLength(v, i).value;
            ListFits(w, n) && HoldsAt(v, i, ListStart(w, n)) && k == i + 1 + Size(w)
  {
    hide HoldsAt;
    hide BigEndian;
    hide Fetch;
    OneByte(v, i);
    w := if v[i] <= 0x9F then Tiny else if v[i] == 0xDC then Two else Four;
    if w != Tiny {
      FetchedHeld(v, i, Size(w));
      HeldByte(v, i, BigEndian(Size(w), Fetch(v, i, Size(w)).value));
    }
  }

  lemma DictStartWritten(v: Bytes, i: nat) returns (w: Width)
    requires i < |v| && IsMap(v[i]) && MapLength(v, i).Ok?
    ensures var (n, k) := MapLength(v, i).value;
            ListFits(w, n) && HoldsAt(v, i, DictStart(w, n)) && k == i + 1 + Size(w)
  {
    hide HoldsAt;
    hide BigEndian;
    hide Fetch;
    OneByte(v, i);
    w := if v[i] <= 0x8F then Tiny else if v[i] == 0xDE then Two else Four;
    if w != Tiny {
      FetchedHeld(v, i, Size(w));
      HeldByte(v, i, BigEndian(Size(w), Fetch(v, i, Size(w)).value));
    }
  }

  /** The item that a successful read has read. */
  lemma {:induction false} ItemRead(v: Bytes, i: nat) returns (x: Item)
    requires Decode(v, i).Ok?
    ensures Legal(x) && HoldsAt(v, i, Wire(x)) && Decode(v, i) == Ok((Meaning(x), i + |Wire(x)|))
    decreases if i <= |v| then |v| - i else 0, 1, 0
  {
    hide DecodeLeaf;
    hide HoldsAt;
    hide Wire;
    hide Legal;
    hide Meaning;
    hide DecodeElems;
    hide DecodePairs;
    hide ArrayLength;
    hide MapLength;
    if IsMap(v[i]) {
      x := DictItem(v, i);
    } else if IsArray(v[i]) {
      x := ListItem(v, i);
    } else {
      x := LeafItem(v, i);
    }
  }

  lemma LeafItem(v: Bytes, i: nat) returns (x: Item)
    requires i < |v| && DecodeLeaf(v, i).Ok? && !IsMap(v[i]) && !IsArray(v[i])
    ensures Legal(x) && !x.List? && !x.Dict?
    ensures HoldsAt(v, i, Wire(x)) && DecodeLeaf(v, i) == Ok((Meaning(x), i + |Wire(x)|))
  {
    hide HoldsAt;
    hide TextLength;
    hide BigEndian;
    hide DecodeNumber;
    hide TextStart;
    hide Fetch;
    hide SingleToDouble;
    hide TwosComplement;
    var b := v[i];
    OneByte(v, i);
    if b <= 0x7F {
      x := Small(b);
    } else if IsText(b) {
      var w := TextStartWritten(v, i);
      var (n, k) := TextLength(v, i).value;
      TextWritten(v, k, n);
      x := Plain(w, v[k..k + n]);
      HoldsConcat(v, i, TextStart(w, n), x.s);
    } else if b >= 0xE0 {
      x := SmallNegative(0x100 - b as int);
    } else if b == 0xC0 {
      x := Nil;
    } else if b == 0xC2 {
      x := No;
    } else if b == 0xC3 {
      x := Yes;
    } else if b == 0xCA {
      PowValues();
      FetchedHeld(v, i, 4);
      HeldByte(v, i, BigEndian(4, Fetch(v, i, 4).value));
      x := Single(Fetch(v, i, 4).value);
    } else {
      x := NumberItem(v, i);
    }
  }

  lemma TextWritten(v: Bytes, k: nat, n: nat)
    requires k <= |v| && Binary.Text(v, k, n).Ok?
    ensures k + n <= |v| && Binary.Text(v, k, n) == Ok((v[k..k + n], k + n)) && HoldsAt(v, k, v[k..k + n])
  {
  }

  lemma NumberItem(v: Bytes, i: nat) returns (x: Item)
    requires i < |v| && DecodeNumber(v, i).Ok?
    ensures Legal(x) && !x.List? && !x.Dict?
    ensures HoldsAt(v, i, Wire(x)) && DecodeNumber(v, i) == Ok((Meaning(x), i + |Wire(x)|))
  {
    hide HoldsAt;
    hide BigEndian;
    hide Fetch;
    PowValues();
    var b := v[i];
    var w := if b == 0xCC || b == 0xD0 then One else if b == 0xCD || b == 0xD1 then Two
             else if b == 0xCE || b == 0xD2 then Four else Eight;
    FetchedHeld(v, i, Size(w));
    var n := Fetch(v, i, Size(w)).value;
    HeldByte(v, i, BigEndian(Size(w), n));
    x := if b == 0xCB then Double(n) else if b <= 0xCF then Unsigned(w, n) else Signed(w, n);
  }

  lemma {:induction false} ItemsRead(v: Bytes, i: nat, n: nat) returns (xs: seq<Item>)
    requires i <= |v| && DecodeElems(v, i, n).Ok?
    ensures LegalAll(xs) && |xs| == n && HoldsAt(v, i, WireAll(xs))
    ensures DecodeElems(v, i, n) == Ok((Meanings(xs), i + |WireAll(xs)|))
    decreases |v| - i, 2, n
  {
    hide *;
    if n == 0 {
      xs := [];
      AllEnd();
      NothingHeld(v, i);
      ElemsNone(v, i);
    } else {
      ElemsSplit(v, i, n);
      var k := Decode(v, i).value.1;
      var x := ItemRead(v, i);
      var rest := ItemsRead(v, k, n - 1);
      xs := [x] + rest;
      AllCons(x, rest);
      HoldsConcat(v, i, Wire(x), WireAll(rest));
      ElemsOne(v, i, n);
    }
  }

  lemma ElemsSplit(v: Bytes, i: nat, n: nat)
    requires i <= |v| && n > 0 && DecodeElems(v, i, n).Ok?
    ensures Decode(v, i).Ok? && i < Decode(v, i).value.1 <= |v| && DecodeElems(v, Decode(v, i).value.1, n - 1).Ok?
  {
    hide Decode;
  }

  lemma AllCons(x: Item, xs: seq<Item>)
    requires Legal(x) && LegalAll(xs)
    ensures LegalAll([x] + xs) && WireAll([x] + xs) == Wire(x) + WireAll(xs)
    ensures Meanings([x] + xs) == [Meaning(x)] + Meanings(xs)
  {
    hide Legal;
    hide Wire;
    hide Meaning;
    assert ([x] + xs)[1..] == xs;
  }

  lemma {:induction false} TextItemRead(v: Bytes, i: nat) returns (x: Item)
    requires DecodeText(v, i).Ok?
    ensures Legal(x) && x.Plain? && HoldsAt(v, i, Wire(x)) && DecodeText(v, i) == Ok((x.s, i + |Wire(x)|))
    decreases if i <= |v| then |v| - i else 0, 2, 0
  {
    hide *;
    TextSplit(v, i);
    x := ItemRead(v, i);
    StringItem(x);
    DecodeWirePlain(v, i, x);
  }

  lemma TextSplit(v: Bytes, i: nat)
    requires DecodeText(v, i).Ok?
    ensures Decode(v, i).Ok? && Decode(v, i).value.0.String?
  {
    hide Decode;
  }

  lemma StringItem(x: Item)
    requires Legal(x) && Meaning(x).String?
    ensures x.Plain?
  {
  }

  lemma PairsCons(p: Pair, ps: seq<Pair>, m: map<Bytes, Json>)
    requires LegalPair(p) && LegalPairs(ps)
    ensures LegalPairs([p] + ps) && WirePairs([p] + ps) == WirePair(p) + WirePairs(ps)
    ensures Members(m, [p] + ps) == Members(m[PairKey(p) := PairValue(p)], ps)
  {
    hide LegalPair;
    hide WirePair;
    hide PairKey;
    hide PairValue;
    assert ([p] + ps)[1..] == ps;
  }

  lemma {:induction false} PairRead(v: Bytes, i: nat) returns (p: Pair)
    requires i <= |v| && DecodeText(v, i).Ok? && Decode(v, DecodeText(v, i).value.1).Ok?
    ensures LegalPair(p) && HoldsAt(v, i, WirePair(p)) && DecodeText(v, i).value.0 == PairKey(p)
    ensures Decode(v, DecodeText(v, i).value.1) == Ok((PairValue(p), i + |WirePair(p)|))
    ensures i < i + |WirePair(p)| <= |v|
    decreases |v| - i, 3, 0
  {
    hide *;
    TextMoves(v, i);
    var key := TextItemRead(v, i);
    var value := ItemRead(v, i + |Wire(key)|);
    p := Pair(key, value);
    PairMade(p);
    PairParts(p);
    HoldsConcat(v, i, Wire(key), Wire(value));
    HoldsBounds(v, i, WirePair(p));
  }

  lemma TextMoves(v: Bytes, i: nat)
    requires DecodeText(v, i).Ok?
    ensures i < DecodeText(v, i).value.1 <= |v|
  {
    hide Decode;
  }

  lemma PairMade(p: Pair)
    requires p.key.Plain? && Legal(p.key) && Legal(p.value)
    ensures LegalPair(p)
  {
  }

  lemma {:induction false} PairsRead(v: Bytes, i: nat, n: nat, m: map<Bytes, Json>) returns (ps: seq<Pair>)
    requires i <= |v| && DecodePairs(v, i, n, m).Ok?
    ensures LegalPairs(ps) && |ps| == n && HoldsAt(v, i, WirePairs(ps))
    ensures DecodePairs(v, i, n, m) == Ok((Members(m, ps), i + |WirePairs(ps)|))
    decreases |v| - i, 4, n
  {
    hide *;
    if n == 0 {
      ps := [];
      PairsEnd(m);
      NothingHeld(v, i);
      PairsNone(v, i, m);
    } else {
      PairsSplit(v, i, n, m);
      var p := PairRead(v, i);
      PairsOne(v, i, n, m);
      var e := i + |WirePair(p)|;
      var rest := PairsRead(v, e, n - 1, m[PairKey(p) := PairValue(p)]);
      ps := [p] + rest;
      PairsCons(p, rest, m);
      HoldsConcat(v, i, WirePair(p), WirePairs(rest));
    }
  }

  lemma PairsSplit(v: Bytes, i: nat, n: nat, m: map<Bytes, Json>)
    requires i <= |v| && n > 0 && DecodePairs(v, i, n, m).Ok?
    ensures DecodeText(v, i).Ok? && Decode(v, DecodeText(v, i).value.1).Ok?
  {
    hide Decode;
    hide DecodeText;
  }

  lemma {:induction false} ListItem(v: Bytes, i: nat) returns (x: Item)
    requires i < |v| && IsArray(v[i]) && Decode(v, i).Ok?
    ensures Legal(x) && HoldsAt(v, i, Wire(x)) && Decode(v, i) == Ok((Meaning(x), i + |Wire(x)|))
    decreases |v| - i, 0, 0
  {
    hide HoldsAt;
    hide ArrayLength;
    hide ListStart;
    hide DecodeElems;
    hide DecodePairs;
    hide WireAll;
    hide Meanings;
    var w := ListStartWritten(v, i);
    var (n, k) := ArrayLength(v, i).value;
    var xs := ItemsRead(v, k, n);
    x := List(w, xs);
    HoldsConcat(v, i, ListStart(w, n), WireAll(xs));
  }

  lemma {:induction false} DictItem(v: Bytes, i: nat) returns (x: Item)
    requires i < |v| && IsMap(v[i]) && Decode(v, i).Ok?
    ensures Legal(x) && HoldsAt(v, i, Wire(x)) && Decode(v, i) == Ok((Meaning(x), i + |Wire(x)|))
    decreases |v| - i, 0, 0
  {
    hide HoldsAt;
    hide MapLength;
    hide DictStart;
    hide DecodeElems;
    hide DecodePairs;
    hide WirePairs;
    hide Members;
    var w := DictStartWritten(v, i);
    var (n, k) := MapLength(v, i).value;
    var ps := PairsRead(v, k, n, map[]);
    x := Dict(w, ps);
    HoldsConcat(v, i, DictStart(w, n), WirePairs(ps));
  }

  /** First bytes that begin no item: unused, binary and extension formats. */
  predicate Unsupported(b: byte) {
    b == 0xC1 || 0xC4 <= b <= 0xC9 || 0xD4 <= b <= 0xD8
  }

  /** They are refused as invalid, and nothing else begins with them. */
  lemma UnsupportedByte(v: Bytes, i: nat)
    requires i < |v|
    ensures Unsupported(v[i]) ==> Decode(v, i) == Err(InvalidArgument)
    ensures !Unsupported(v[i]) ==> exists x :: Legal(x) && Wire(x)[..1] == [v[i]]
  {
    if !Unsupported(v[i]) {
      var x := Starting(v[i]);
    }
  }

  /** An item that begins with a supported byte. */
  lemma Starting(b: byte) returns (x: Item)
    requires !Unsupported(b)
    ensures Legal(x) && Wire(x)[..1] == [b]
  {
    PowValues();
    if b < 0x80 {
      x := Small(b);
    } else if b < 0x90 {
      x := Dict(Tiny, seq(b - 0x80, _ => Pair(Plain(Tiny, []), Nil)));
    } else if b < 0xA0 {
      x := List(Tiny, seq(b - 0x90, _ => Nil));
    } else if b < 0xC0 {
      x := Plain(Tiny, seq(b - 0xA0, _ => 0));
    } else if b >= 0xE0 {
      x := SmallNegative(0x100 - b as int);
    } else {
      x := HeadItem(b);
    }
  }

  lemma HeadItem(b: byte) returns (x: Item)
    requires 0xC0 <= b < 0xE0 && !Unsupported(b)
    ensures Legal(x) && Wire(x)[..1] == [b]
  {
    PowValues();
    var w := if b == 0xCC || b == 0xD0 || b == 0xD9 then One
             else if b == 0xCD || b == 0xD1 || b == 0xDA || b == 0xDC || b == 0xDE then Two
             else if b == 0xCF || b == 0xD3 then Eight else Four;
    x := if b == 0xC0 then Nil else if b == 0xC2 then No else if b == 0xC3 then Yes
         else if b == 0xCA then Single(0) else if b == 0xCB then Double(0)
         else if b <= 0xCF then Unsigned(w, 0) else if b <= 0xD3 then Signed(w, 0)
         else if b <= 0xDB then Plain(w, []) else if b <= 0xDD then List(w, []) else Dict(w, []);
  }

  ghost predicate Spells(v: Bytes, i: nat, j: Json, k: nat) {
    exists x :: Legal(x) && HoldsAt(v, i, Wire(x)) && j == Meaning(x) && k == i + |Wire(x)|
  }

  /** The decoder reads a value exactly where an item with that meaning is written. */
  lemma DecodeIsWire(v: Bytes, i: nat, j: Json, k: nat)
    ensures Decode(v, i) == Ok((j, k)) <==> Spells(v, i, j, k)
  {
    hide Decode;
    hide Legal;
    hide Wire;
    hide Meaning;
    hide HoldsAt;
    if Decode(v, i) == Ok((j, k)) {
      var x := ItemRead(v, i);
    }
    if Spells(v, i, j, k) {
      var x :| Legal(x) && HoldsAt(v, i, Wire(x)) && j == Meaning(x) && k == i + |Wire(x)|;
      DecodeWire(v, i, x);
    }
  }
}
