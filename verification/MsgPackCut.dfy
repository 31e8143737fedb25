/**
  Truncated MessagePack: a vector that ends inside an item is refused as out of
  range, wherever it was cut.
 */
module MsgPackCut {
  import opened JsonValue
  import opened Binary
  import opened MsgPack
  import opened MsgPackWire

  lemma CutTextStart(v: Bytes, i: nat, w: Width, n: nat)
    requires TextFits(w, n) && CutAt(v, i, TextStart(w, n)) && i < |v|
    ensures IsText(v[i]) && TextLength(v, i) == Err(OutOfRange)
  {
    hide CutAt;
    hide BigEndian;
    CutFirst(v, i, TextStart(w, n));
    CutBound(v, i, TextStart(w, n));
  }

  lemma CutListStart(v: Bytes, i: nat, w: Width, n: nat)
    requires ListFits(w, n) && CutAt(v, i, ListStart(w, n)) && i < |v|
    ensures IsArray(v[i]) && ArrayLength(v, i) == Err(OutOfRange)
  {
    hide CutAt;
    hide BigEndian;
    CutFirst(v, i, ListStart(w, n));
    CutBound(v, i, ListStart(w, n));
  }

  lemma CutDictStart(v: Bytes, i: nat, w: Width, n: nat)
    requires ListFits(w, n) && CutAt(v, i, DictStart(w, n)) && i < |v|
    ensures IsMap(v[i]) && MapLength(v, i) == Err(OutOfRange)
  {
    hide CutAt;
    hide BigEndian;
    CutFirst(v, i, DictStart(w, n));
    CutBound(v, i, DictStart(w, n));
  }

  lemma EmptyRead(v: Bytes, i: nat)
    requires i >= |v|
    ensures Decode(v, i) == Err(OutOfRange) && DecodeText(v, i) == Err(OutOfRange)
  {
  }

  /** A vector that ends inside an item is refused as out of range. */
  lemma {:induction false} ItemCut(v: Bytes, i: nat, x: Item)
    requires Legal(x) && CutAt(v, i, Wire(x))
    ensures Decode(v, i) == Err(OutOfRange)
    decreases x, 2, 0
  {
    hide *;
    CutBound(v, i, Wire(x));
    if i == |v| {
      EmptyRead(v, i);
    } else {
      match x
      case List(_, _) => ListCut(v, i, x);
      case Dict(_, _) => DictCut(v, i, x);
      case Plain(_, _) => PlainCut(v, i, x);
      case _ => LeafCut(v, i, x);
    }
  }

  lemma LeafCut(v: Bytes, i: nat, x: Item)
    requires Legal(x) && CutAt(v, i, Wire(x)) && i < |v| && !x.Plain? && !x.List? && !x.Dict?
    ensures Decode(v, i) == Err(OutOfRange)
  {
    hide CutAt;
    hide BigEndian;
    hide DecodeElems;
    hide DecodePairs;
    CutFirst(v, i, Wire(x));
    CutBound(v, i, Wire(x));
  }

  lemma PlainCut(v: Bytes, i: nat, x: Item)
    requires Legal(x) && x.Plain? && CutAt(v, i, Wire(x)) && i < |v|
    ensures Decode(v, i) == Err(OutOfRange)
  {
    hide CutAt;
    hide HoldsAt;
    hide TextLength;
    hide TextStart;
    hide DecodeElems;
    hide DecodePairs;
    var h := TextStart(x.w, |x.s|);
    CutConcat(v, i, h, x.s);
    if CutAt(v, i, h) {
      CutTextStart(v, i, x.w, |x.s|);
    } else {
      TextStartRead(v, i, x.w, |x.s|);
      CutBound(v, i + |h|, x.s);
    }
  }

  // ---------- sequences ----------

  lemma ElemsErr(v: Bytes, i: nat, n: nat)
    requires i <= |v| && n > 0
    ensures Decode(v, i).Err? ==> DecodeElems(v, i, n) == Err(Decode(v, i).error)
    ensures Decode(v, i).Ok? && DecodeElems(v, Decode(v, i).value.1, n - 1).Err? ==>
              DecodeElems(v, i, n) == Err(DecodeElems(v, Decode(v, i).value.1, n - 1).error)
  {
    hide Decode;
  }

  lemma {:induction false} AllCut(v: Bytes, i: nat, xs: seq<Item>)
    requires LegalAll(xs) && CutAt(v, i, WireAll(xs))
    ensures i <= |v| && DecodeElems(v, i, |xs|) == Err(OutOfRange)
    decreases xs, 1, |xs|
  {
    hide *;
    CutBound(v, i, WireAll(xs));
    if xs == [] {
      AllEnd();
      assert false;
    } else {
      AllStep(xs);
      CutConcat(v, i, Wire(xs[0]), WireAll(xs[1..]));
      if CutAt(v, i, Wire(xs[0])) {
        ItemCut(v, i, xs[0]);
      } else {
        DecodeWire(v, i, xs[0]);
        AllCut(v, i + |Wire(xs[0])|, xs[1..]);
      }
      ElemsErr(v, i, |xs|);
    }
  }

  lemma TextErr(v: Bytes, i: nat)
    requires Decode(v, i).Err?
    ensures DecodeText(v, i) == Err(Decode(v, i).error)
  {
    hide Decode;
  }

  lemma PairsErr(v: Bytes, i: nat, n: nat, m: map<Bytes, Json>)
    requires i <= |v| && n > 0
    ensures DecodeText(v, i).Err? ==> DecodePairs(v, i, n, m) == Err(DecodeText(v, i).error)
    ensures DecodeText(v, i).Ok? && Decode(v, DecodeText(v, i).value.1).Err? ==>
              DecodePairs(v, i, n, m) == Err(Decode(v, DecodeText(v, i).value.1).error)
  {
    hide Decode;
    hide DecodeText;
  }

  /** A pair is cut in its key or in its value. */
  lemma {:induction false} PairCut(v: Bytes, i: nat, p: Pair)
    requires LegalPair(p) && CutAt(v, i, WirePair(p))
    ensures DecodeText(v, i) == Err(OutOfRange)
         || (DecodeText(v, i).Ok? && Decode(v, DecodeText(v, i).value.1) == Err(OutOfRange))
    decreases p, 3, 0
  {
    hide *;
    PairParts(p);
    CutConcat(v, i, Wire(p.key), Wire(p.value));
    if CutAt(v, i, Wire(p.key)) {
      ItemCut(v, i, p.key);
      TextErr(v, i);
    } else {
      DecodeWirePlain(v, i, p.key);
      ItemCut(v, i + |Wire(p.key)|, p.value);
    }
  }

  lemma {:induction false} PairsCut(v: Bytes, i: nat, ps: seq<Pair>, m: map<Bytes, Json>)
    requires LegalPairs(ps) && CutAt(v, i, WirePairs(ps))
    ensures i <= |v| && DecodePairs(v, i, |ps|, m) == Err(OutOfRange)
    decreases ps, 2, |ps|
  {
    hide *;
    CutBound(v, i, WirePairs(ps));
    if ps == [] {
      PairsEnd(m);
      assert false;
    } else {
      PairsStep(m, ps);
      CutConcat(v, i, WirePair(ps[0]), WirePairs(ps[1..]));
      if CutAt(v, i, WirePair(ps[0])) {
        PairCut(v, i, ps[0]);
        PairsErr(v, i, |ps|, m);
      } else {
        DecodeWirePair(v, i, ps[0]);
        PairsOne(v, i, |ps|, m);
        PairsCut(v, i + |WirePair(ps[0])|, ps[1..], m[PairKey(ps[0]) := PairValue(ps[0])]);
      }
    }
  }

  // ---------- containers ----------

  lemma {:induction false} ListCut(v: Bytes, i: nat, x: Item)
    requires Legal(x) && x.List? && CutAt(v, i, Wire(x)) && i < |v|
    ensures Decode(v, i) == Err(OutOfRange)
    decreases x, 1, 0
  {
    hide CutAt;
    hide HoldsAt;
    hide ArrayLength;
    hide ListStart;
    hide DecodeElems;
    hide DecodePairs;
    hide WireAll;
    var h := ListStart(x.w, |x.items|);
    CutConcat(v, i, h, WireAll(x.items));
    if CutAt(v, i, h) {
      CutListStart(v, i, x.w, |x.items|);
    } else {
      ListStartRead(v, i, x.w, |x.items|);
      AllCut(v, i + |h|, x.items);
    }
  }

  lemma {:induction false} DictCut(v: Bytes, i: nat, x: Item)
    requires Legal(x) && x.Dict? && CutAt(v, i, Wire(x)) && i < |v|
    ensures Decode(v, i) == Err(OutOfRange)
    decreases x, 1, 0
  {
    hide CutAt;
    hide HoldsAt;
    hide MapLength;
    hide DictStart;
    hide DecodeElems;
    hide DecodePairs;
    hide WirePairs;
    var h := DictStart(x.w, |x.pairs|);
    CutConcat(v, i, h, WirePairs(x.pairs));
    if CutAt(v, i, h) {
      CutDictStart(v, i, x.w, |x.pairs|);
    } else {
      DictStartRead(v, i, x.w, |x.pairs|);
      PairsCut(v, i + |h|, x.pairs, map[]);
    }
  }
}
