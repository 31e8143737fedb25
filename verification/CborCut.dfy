/**
  Truncated CBOR: a vector that ends inside an item is refused as out of range,
  wherever it was cut.
 */
module CborCut {
  import opened JsonValue
  import opened Binary
  import opened Cbor
  import opened CborWire

  lemma CutStart(v: Bytes, i: nat, major: nat, w: Width, n: nat)
    requires major < 6 && Holds(w, n) && CutAt(v, i, Start(major, w, n)) && i < |v|
    ensures major * 32 <= v[i] <= major * 32 + 27
    ensures Argument(v, i, major * 32) == Err(OutOfRange)
  {
    hide CutAt;
    hide BigEndian;
    CutFirst(v, i, Start(major, w, n));
    CutBound(v, i, Start(major, w, n));
  }

  lemma EmptyRead(v: Bytes, i: nat)
    requires i >= |v|
    ensures Decode(v, i) == Err(OutOfRange) && DecodeText(v, i) == Err(OutOfRange)
  {
  }

  /** A vector that ends inside an item is refused as out of range. */
  lemma {:induction false} ItemCut(v: Bytes, i: nat, x: Item)
    requires Legal(x) && CutAt(v, i, Wire(x))
    ensures Decode(v, i) == Err(OutOfRange)
    decreases x, 2, 0
  {
    hide *;
    CutBound(v, i, Wire(x));
    if i == |v| {
      EmptyRead(v, i);
    } else {
      match x
      case Chunks(_) => ChunksCut(v, i, x);
      case List(_, _) => ListCut(v, i, x);
      case OpenList(_) => OpenListCut(v, i, x);
      case Dict(_, _) => DictCut(v, i, x);
      case OpenDict(_) => OpenDictCut(v, i, x);
      case _ => LeafCut(v, i, x);
    }
  }

  lemma LeafCut(v: Bytes, i: nat, x: Item)
    requires Legal(x) && CutAt(v, i, Wire(x)) && i < |v|
    requires !x.Chunks? && !x.List? && !x.OpenList? && !x.Dict? && !x.OpenDict?
    ensures Decode(v, i) == Err(OutOfRange)
  {
    hide CutAt;
    hide Argument;
    hide BigEndian;
    hide DecodeElems;
    hide DecodePairs;
    hide DecodeElemsToBreak;
    hide DecodePairsToBreak;
    hide DecodeChunks;
    hide Start;
    CutFirst(v, i, Wire(x));
    CutBound(v, i, Wire(x));
    if x.Unsigned? {
      CutStart(v, i, 0, x.w, x.n);
    } else if x.Negative? {
      CutStart(v, i, 1, x.w, x.n);
    } else if x.Plain? {
      PlainCut(v, i, x);
    } else {
      FloatCut(v, i, x);
    }
  }

  lemma PlainCut(v: Bytes, i: nat, x: Item)
    requires Legal(x) && x.Plain? && CutAt(v, i, Wire(x)) && i < |v|
    ensures Decode(v, i) == Err(OutOfRange)
  {
    hide CutAt;
    hide HoldsAt;
    hide Argument;
    hide Start;
    hide DecodeElems;
    hide DecodePairs;
    var h := Start(3, x.w, |x.s|);
    CutConcat(v, i, h, x.s);
    if CutAt(v, i, h) {
      CutStart(v, i, 3, x.w, |x.s|);
    } else {
      StartRead(v, i, 3, x.w, |x.s|);
      CutBound(v, i + |h|, x.s);
    }
  }

  lemma FloatCut(v: Bytes, i: nat, x: Item)
    requires Legal(x) && CutAt(v, i, Wire(x)) && i < |v| && (x.Half? || x.Single? || x.Double? || x.No? || x.Yes? || x.Nil?)
    ensures Decode(v, i) == Err(OutOfRange)
  {
    hide CutAt;
    hide BigEndian;
    hide DecodeElems;
    hide DecodePairs;
    CutFirst(v, i, Wire(x));
    CutBound(v, i, Wire(x));
  }

  // ---------- sequences ----------

  lemma ElemsErr(v: Bytes, i: nat, n: nat)
    requires i <= |v| && n > 0
    ensures Decode(v, i).Err? ==> DecodeElems(v, i, n) == Err(Decode(v, i).error)
    ensures Decode(v, i).Ok? && DecodeElems(v, Decode(v, i).value.1, n - 1).Err? ==>
              DecodeElems(v, i, n) == Err(DecodeElems(v, Decode(v, i).value.1, n - 1).error)
  {
    hide Decode;
  }

  lemma {:induction false} AllCut(v: Bytes, i: nat, xs: seq<Item>)
    requires LegalAll(xs) && CutAt(v, i, WireAll(xs))
    ensures i <= |v| && DecodeElems(v, i, |xs|) == Err(OutOfRange)
    decreases xs, 1, |xs|
  {
    hide *;
    CutBound(v, i, WireAll(xs));
    if xs == [] {
      AllEnd();
      assert false;
    } else {
      AllStep(xs);
      CutConcat(v, i, Wire(xs[0]), WireAll(xs[1..]));
      if CutAt(v, i, Wire(xs[0])) {
        ItemCut(v, i, xs[0]);
      } else {
        DecodeWire(v, i, xs[0]);
        AllCut(v, i + |Wire(xs[0])|, xs[1..]);
      }
      ElemsErr(v, i, |xs|);
    }
  }

  lemma EndedToBreak(v: Bytes, m: map<Bytes, Json>)
    ensures DecodeElemsToBreak(v, |v|) == Err(OutOfRange) && DecodeChunks(v, |v|) == Err(OutOfRange)
    ensures DecodePairsToBreak(v, |v|, m) == Err(OutOfRange)
  {
  }

  lemma ToBreakErr(v: Bytes, i: nat)
    requires i < |v| && v[i] != 0xFF
    ensures Decode(v, i).Err? ==> DecodeElemsToBreak(v, i) == Err(Decode(v, i).error)
    ensures Decode(v, i).Ok? && DecodeElemsToBreak(v, Decode(v, i).value.1).Err? ==>
              DecodeElemsToBreak(v, i) == Err(DecodeElemsToBreak(v, Decode(v, i).value.1).error)
  {
    hide Decode;
  }

  lemma BreakCut(v: Bytes, i: nat)
    requires CutAt(v, i, [0xFF])
    ensures i == |v|
  {
  }

  lemma {:induction false} AllToBreakCut(v: Bytes, i: nat, xs: seq<Item>)
    requires LegalAll(xs) && CutAt(v, i, WireAll(xs) + [0xFF])
    ensures i <= |v| && DecodeElemsToBreak(v, i) == Err(OutOfRange)
    decreases xs, 1, |xs|
  {
    hide *;
    CutBound(v, i, WireAll(xs) + [0xFF]);
    EndedToBreak(v, map[]);
    if xs == [] {
      AllEnd();
      assert WireAll(xs) + [0xFF] == [0xFF];
      BreakCut(v, i);
    } else if i < |v| {
      AllStep(xs);
      var rest := WireAll(xs[1..]) + [0xFF];
      assert WireAll(xs) + [0xFF] == Wire(xs[0]) + rest;
      FirstByte(xs[0]);
      CutFirst(v, i, Wire(xs[0]) + rest);
      CutConcat(v, i, Wire(xs[0]), rest);
      if CutAt(v, i, Wire(xs[0])) {
        ItemCut(v, i, xs[0]);
      } else {
        DecodeWire(v, i, xs[0]);
        AllToBreakCut(v, i + |Wire(xs[0])|, xs[1..]);
      }
      ToBreakErr(v, i);
    }
  }

  lemma TextErr(v: Bytes, i: nat)
    requires Decode(v, i).Err?
    ensures DecodeText(v, i) == Err(Decode(v, i).error)
  {
    hide Decode;
  }

  lemma ChunksErr(v: Bytes, i: nat)
    requires i < |v| && v[i] != 0xFF
    ensures DecodeText(v, i).Err? ==> DecodeChunks(v, i) == Err(DecodeText(v, i).error)
    ensures DecodeText(v, i).Ok? && DecodeChunks(v, DecodeText(v, i).value.1).Err? ==>
              DecodeChunks(v, i) == Err(DecodeChunks(v, DecodeText(v, i).value.1).error)
  {
    hide DecodeText;
  }

  lemma {:induction false} JoinedCut(v: Bytes, i: nat, xs: seq<Item>)
    requires LegalAll(xs) && AllText(xs) && CutAt(v, i, WireAll(xs) + [0xFF])
    ensures i <= |v| && DecodeChunks(v, i) == Err(OutOfRange)
    decreases xs, 1, |xs|
  {
    hide *;
    CutBound(v, i, WireAll(xs) + [0xFF]);
    EndedToBreak(v, map[]);
    if xs == [] {
      AllEnd();
      assert WireAll(xs) + [0xFF] == [0xFF];
      BreakCut(v, i);
    } else if i < |v| {
      AllStep(xs);
      var rest := WireAll(xs[1..]) + [0xFF];
      assert WireAll(xs) + [0xFF] == Wire(xs[0]) + rest;
      FirstByte(xs[0]);
      CutFirst(v, i, Wire(xs[0]) + rest);
      CutConcat(v, i, Wire(xs[0]), rest);
      if CutAt(v, i, Wire(xs[0])) {
        ItemCut(v, i, xs[0]);
        TextErr(v, i);
      } else {
        DecodeWire(v, i, xs[0]);
        TextMeaning(xs[0]);
        TextRead(v, i, TextOf(xs[0]), i + |Wire(xs[0])|);
        JoinedCut(v, i + |Wire(xs[0])|, xs[1..]);
      }
      ChunksErr(v, i);
    }
  }

  lemma PairsErr(v: Bytes, i: nat, n: nat, m: map<Bytes, Json>)
    requires i <= |v| && n > 0
    ensures DecodeText(v, i).Err? ==> DecodePairs(v, i, n, m) == Err(DecodeText(v, i).error)
    ensures DecodeText(v, i).Ok? && Decode(v, DecodeText(v, i).value.1).Err? ==>
              DecodePairs(v, i, n, m) == Err(Decode(v, DecodeText(v, i).value.1).error)
    ensures i < |v| && v[i] != 0xFF && DecodeText(v, i).Err? ==> DecodePairsToBreak(v, i, m) == Err(DecodeText(v, i).error)
    ensures i < |v| && v[i] != 0xFF && DecodeText(v, i).Ok? && Decode(v, DecodeText(v, i).value.1).Err? ==>
              DecodePairsToBreak(v, i, m) == Err(Decode(v, DecodeText(v, i).value.1).error)
  {
    hide Decode;
    hide DecodeText;
  }

  /** A pair is cut in its key or in its value. */
  lemma {:induction false} PairCut(v: Bytes, i: nat, p: Pair)
    requires LegalPair(p) && CutAt(v, i, WirePair(p))
    ensures DecodeText(v, i) == Err(OutOfRange)
         || (DecodeText(v, i).Ok? && Decode(v, DecodeText(v, i).value.1) == Err(OutOfRange))
    decreases p, 3, 0
  {
    hide *;
    PairParts(p);
    CutConcat(v, i, Wire(p.key), Wire(p.value));
    if CutAt(v, i, Wire(p.key)) {
      ItemCut(v, i, p.key);
      TextErr(v, i);
    } else {
      DecodeWire(v, i, p.key);
      TextMeaning(p.key);
      TextRead(v, i, TextOf(p.key), i + |Wire(p.key)|);
      ItemCut(v, i + |Wire(p.key)|, p.value);
    }
  }

  lemma {:induction false} PairsCut(v: Bytes, i: nat, ps: seq<Pair>, m: map<Bytes, Json>)
    requires LegalPairs(ps) && CutAt(v, i, WirePairs(ps))
    ensures i <= |v| && DecodePairs(v, i, |ps|, m) == Err(OutOfRange)
    decreases ps, 2, |ps|
  {
    hide *;
    CutBound(v, i, WirePairs(ps));
    if ps == [] {
      PairsEnd(m);
      assert false;
    } else {
      PairsStep(m, ps);
      CutConcat(v, i, WirePair(ps[0]), WirePairs(ps[1..]));
      if CutAt(v, i, WirePair(ps[0])) {
        PairCut(v, i, ps[0]);
        PairsErr(v, i, |ps|, m);
      } else {
        DecodeWirePair(v, i, ps[0]);
        PairsOne(v, i, |ps|, m);
        PairsCut(v, i + |WirePair(ps[0])|, ps[1..], m[PairKey(ps[0]) := PairValue(ps[0])]);
      }
    }
  }

  lemma PairFirst(p: Pair)
    requires LegalPair(p)
    ensures WirePair(p) != [] && WirePair(p)[0] != 0xFF
  {
    hide Wire;
    hide Legal;
    hide IsText;
    FirstByte(p.key);
  }

  lemma {:induction false} PairsToBreakCut(v: Bytes, i: nat, ps: seq<Pair>, m: map<Bytes, Json>)
    requires LegalPairs(ps) && CutAt(v, i, WirePairs(ps) + [0xFF])
    ensures i <= |v| && DecodePairsToBreak(v, i, m) == Err(OutOfRange)
    decreases ps, 2, |ps|
  {
    hide *;
    CutBound(v, i, WirePairs(ps) + [0xFF]);
    EndedToBreak(v, m);
    if ps == [] {
      PairsEnd(m);
      assert WirePairs(ps) + [0xFF] == [0xFF];
      BreakCut(v, i);
    } else if i < |v| {
      PairsStep(m, ps);
      var rest := WirePairs(ps[1..]) + [0xFF];
      assert WirePairs(ps) + [0xFF] == WirePair(ps[0]) + rest;
      PairFirst(ps[0]);
      CutFirst(v, i, WirePair(ps[0]) + rest);
      CutConcat(v, i, WirePair(ps[0]), rest);
      if CutAt(v, i, WirePair(ps[0])) {
        PairCut(v, i, ps[0]);
        PairsErr(v, i, 1, m);
      } else {
        DecodeWirePair(v, i, ps[0]);
        PairsOne(v, i, 1, m);
        PairsToBreakCut(v, i + |WirePair(ps[0])|, ps[1..], m[PairKey(ps[0]) := PairValue(ps[0])]);
      }
    }
  }

  // ---------- containers ----------

  lemma {:induction false} ListCut(v: Bytes, i: nat, x: Item)
    requires Legal(x) && x.List? && CutAt(v, i, Wire(x)) && i < |v|
    ensures Decode(v, i) == Err(OutOfRange)
    decreases x, 1, 0
  {
    hide CutAt;
    hide HoldsAt;
    hide Argument;
    hide Start;
    hide DecodeElems;
    hide DecodePairs;
    hide WireAll;
    var h := Start(4, x.w, |x.items|);
    CutConcat(v, i, h, WireAll(x.items));
    if CutAt(v, i, h) {
      CutStart(v, i, 4, x.w, |x.items|);
    } else {
      StartRead(v, i, 4, x.w, |x.items|);
      AllCut(v, i + |h|, x.items);
    }
  }

  lemma {:induction false} DictCut(v: Bytes, i: nat, x: Item)
    requires Legal(x) && x.Dict? && CutAt(v, i, Wire(x)) && i < |v|
    ensures Decode(v, i) == Err(OutOfRange)
    decreases x, 1, 0
  {
    hide CutAt;
    hide HoldsAt;
    hide Argument;
    hide Start;
    hide DecodeElems;
    hide DecodePairs;
    hide WirePairs;
    var h := Start(5, x.w, |x.pairs|);
    CutConcat(v, i, h, WirePairs(x.pairs));
    if CutAt(v, i, h) {
      CutStart(v, i, 5, x.w, |x.pairs|);
    } else {
      StartRead(v, i, 5, x.w, |x.pairs|);
      PairsCut(v, i + |h|, x.pairs, map[]);
    }
  }

  lemma OneCut(v: Bytes, i: nat, c: byte, rest: Bytes)
    requires CutAt(v, i, [c] + rest) && i < |v|
    ensures v[i] == c && CutAt(v, i + 1, rest)
  {
    hide CutAt;
    CutFirst(v, i, [c] + rest);
    CutConcat(v, i, [c], rest);
    if CutAt(v, i, [c]) {
      CutBound(v, i, [c]);
    }
  }

  lemma {:induction false} OpenListCut(v: Bytes, i: nat, x: Item)
    requires Legal(x) && x.OpenList? && CutAt(v, i, Wire(x)) && i < |v|
    ensures Decode(v, i) == Err(OutOfRange)
    decreases x, 1, 0
  {
    hide CutAt;
    hide DecodeElemsToBreak;
    hide WireAll;
    var inner := WireAll(x.items) + [0xFF];
    assert Wire(x) == [0x9F] + inner;
    OneCut(v, i, 0x9F, inner);
    AllToBreakCut(v, i + 1, x.items);
  }

  lemma {:induction false} OpenDictCut(v: Bytes, i: nat, x: Item)
    requires Legal(x) && x.OpenDict? && CutAt(v, i, Wire(x)) && i < |v|
    ensures Decode(v, i) == Err(OutOfRange)
    decreases x, 1, 0
  {
    hide CutAt;
    hide DecodePairsToBreak;
    hide WirePairs;
    var inner := WirePairs(x.pairs) + [0xFF];
    assert Wire(x) == [0xBF] + inner;
    OneCut(v, i, 0xBF, inner);
    PairsToBreakCut(v, i + 1, x.pairs, map[]);
  }

  lemma {:induction false} ChunksCut(v: Bytes, i: nat, x: Item)
    requires Legal(x) && x.Chunks? && CutAt(v, i, Wire(x)) && i < |v|
    ensures Decode(v, i) == Err(OutOfRange)
    decreases x, 1, 0
  {
    hide CutAt;
    hide DecodeChunks;
    hide WireAll;
    var inner := WireAll(x.chunks) + [0xFF];
    assert Wire(x) == [0x7F] + inner;
    OneCut(v, i, 0x7F, inner);
    JoinedCut(v, i + 1, x.chunks);
  }
}
