/**
  The item the MessagePack encoder writes for a value: the shortest head for
  every number and length.
 */
module MsgPackShortest {
  import opened JsonValue
  import opened Binary
  import opened MsgPack
  import opened MsgPackWire

  function Shortest(n: nat): Width {
    if n < 0x100 then One else if n < 0x1_0000 then Two else if n < 0x1_0000_0000 then Four else Eight
  }

  function TextWidth(n: nat): Width {
    if n < 32 then Tiny else Shortest(n)
  }

  function ListWidth(n: nat): Width {
    if n < 16 then Tiny else if n < 0x1_0000 then Two else Four
  }

  /** No narrower head holds the number. */
  lemma ShortestHolds(n: nat, w: Width)
    ensures Holds(w, n) ==> Size(Shortest(n)) <= Size(w)
    ensures TextFits(w, n) ==> Size(TextWidth(n)) <= Size(w)
    ensures ListFits(w, n) ==> Size(ListWidth(n)) <= Size(w)
  {
    PowValues();
  }

  /** The narrowest two's complement: i fits `w` bytes. */
  predicate SignedFits(w: Width, i: int) {
    w != Tiny && 0 - Pow256(Size(w)) <= 2 * i < Pow256(Size(w))
  }

  function SignedWidth(i: int): Width {
    if i >= -0x80 then One else if i >= -0x8000 then Two else if i >= -0x8000_0000 then Four else Eight
  }

  lemma SignedShortest(i: int64, w: Width)
    requires i < -32
    ensures SignedFits(SignedWidth(i), i)
    ensures SignedFits(w, i) ==> Size(SignedWidth(i)) <= Size(w)
  {
    PowValues();
  }

  function NumberItem(i: int): Item
    requires -0x8000_0000_0000_0000 <= i < 0x1_0000_0000_0000_0000
  {
    if 0 <= i < 128 then Small(i)
    else if i >= 128 then Unsigned(Shortest(i), i)
    else if i >= -32 then SmallNegative(0 - i)
    else
      PowValues();
      Signed(SignedWidth(i), i + Pow256(Size(SignedWidth(i))))
  }

  lemma NaturalIsWire(u: uint64)
    ensures Legal(NumberItem(u)) && Wire(NumberItem(u)) == UintHead(u) && Meaning(NumberItem(u)) == Uint(u)
  {
    hide BigEndian;
    PowValues();
  }

  lemma NegativeIsWire(i: int64)
    requires i < 0
    ensures Legal(NumberItem(i)) && Wire(NumberItem(i)) == NegativeHead(i) && Meaning(NumberItem(i)) == Int(i)
  {
    hide BigEndian;
    PowValues();
  }

  lemma StartsAreHeads(n: nat)
    requires n < 0x1_0000_0000
    ensures TextFits(TextWidth(n), n) && TextStart(TextWidth(n), n) == TextHead(n)
    ensures ListFits(ListWidth(n), n) && ListStart(ListWidth(n), n) == ArrayHead(n)
    ensures DictStart(ListWidth(n), n) == MapHead(n)
  {
    hide BigEndian;
    PowValues();
  }

  function ItemOf(j: Json): Item
    requires Sized32(j)
    decreases j, 1, 0
  {
    match j
    case Null => Nil
    case Bool(b) => if b then Yes else No
    case Int(i) => NumberItem(i)
    case Uint(u) => NumberItem(u)
    case Float(bits) => Double(bits)
    case String(s) => Plain(TextWidth(|s|), s)
    case Array(es) => List(ListWidth(|es|), ItemsOf(j, 0))
    case Object(m) => Dict(ListWidth(|m|), PairsOf(j, SortedKeys(m.Keys)))
  }

  function ItemsOf(j: Json, i: nat): (xs: seq<Item>)
    requires j.Array? && Sized32(j) && i <= |j.elems|
    ensures |xs| == |j.elems| - i
    decreases j, 0, |j.elems| - i
  {
    if i == |j.elems| then [] else [ItemOf(j.elems[i])] + ItemsOf(j, i + 1)
  }

  function PairsOf(j: Json, ks: seq<Bytes>): (ps: seq<Pair>)
    requires j.Object? && Sized32(j) && forall k :: k in ks ==> k in j.members
    ensures |ps| == |ks|
    decreases j, 0, |ks|
  {
    if ks == [] then []
    else [Pair(Plain(TextWidth(|ks[0]|), ks[0]), ItemOf(j.members[ks[0]]))] + PairsOf(j, ks[1..])
  }

  /** The encoder writes the shortest item with the value's meaning. */
  lemma {:induction false} EncodeIsWire(j: Json)
    requires Sized32(j)
    ensures Legal(ItemOf(j)) && Wire(ItemOf(j)) == Encode(j) && Meaning(ItemOf(j)) == Canonical(j)
    decreases j, 1, 0
  {
    hide *;
    if j.Array? {
      EncodeArrayIsWire(j);
    } else if j.Object? {
      EncodeObjectIsWire(j);
    } else {
      EncodeLeafIsWire(j);
    }
  }

  lemma EncodeLeafIsWire(j: Json)
    requires Sized32(j) && !j.Array? && !j.Object?
    ensures Legal(ItemOf(j)) && Wire(ItemOf(j)) == Encode(j) && Meaning(ItemOf(j)) == Canonical(j)
  {
    hide UintHead;
    hide NegativeHead;
    hide NumberItem;
    hide TextStart;
    hide TextHead;
    hide BigEndian;
    match j
    case Int(i) =>
      if i >= 0 { NaturalIsWire(i); } else { NegativeIsWire(i); }
    case Uint(u) => NaturalIsWire(u);
    case String(s) => StartsAreHeads(|s|);
    case _ =>
  }

  lemma {:induction false} EncodeElemsIsWire(j: Json, i: nat)
    requires j.Array? && Sized32(j) && i <= |j.elems|
    ensures LegalAll(ItemsOf(j, i)) && WireAll(ItemsOf(j, i)) == EncodeElems(j, i)
    ensures Meanings(ItemsOf(j, i)) == CanonicalFrom(j.elems, i)
    decreases j, 0, |j.elems| - i
  {
    hide *;
    ElemsUnfold(j, i);
    if i == |j.elems| {
      AllEnd();
    } else {
      SizedElem(j, i);
      EncodeIsWire(j.elems[i]);
      EncodeElemsIsWire(j, i + 1);
      AllCons(ItemOf(j.elems[i]), ItemsOf(j, i + 1));
    }
  }

  lemma SizedElem(j: Json, i: nat)
    requires j.Array? && Sized32(j) && i < |j.elems|
    ensures Sized32(j.elems[i])
  {
  }

  lemma ElemsUnfold(j: Json, i: nat)
    requires j.Array? && Sized32(j) && i <= |j.elems|
    ensures ItemsOf(j, i) == if i == |j.elems| then [] else [ItemOf(j.elems[i])] + ItemsOf(j, i + 1)
    ensures EncodeElems(j, i) == if i == |j.elems| then [] else Encode(j.elems[i]) + EncodeElems(j, i + 1)
    ensures CanonicalFrom(j.elems, i) ==
            if i == |j.elems| then [] else [Canonical(j.elems[i])] + CanonicalFrom(j.elems, i + 1)
  {
    hide ItemOf;
    hide Encode;
    hide Canonical;
  }

  lemma {:induction false} EncodeArrayIsWire(j: Json)
    requires j.Array? && Sized32(j)
    ensures Legal(ItemOf(j)) && Wire(ItemOf(j)) == Encode(j) && Meaning(ItemOf(j)) == Canonical(j)
    decreases j, 0, |j.elems| + 1
  {
    hide ArrayHead;
    hide ListStart;
    hide ListFits;
    hide Canonical;
    hide CanonicalFrom;
    hide ItemsOf;
    hide EncodeElems;
    hide WireAll;
    hide Meanings;
    EncodeElemsIsWire(j, 0);
    StartsAreHeads(|j.elems|);
    CanonicalArray(j);
  }

  lemma {:induction false} EncodeMembersIsWire(j: Json, ks: seq<Bytes>, m: map<Bytes, Json>)
    requires j.Object? && Sized32(j) && forall k :: k in ks ==> k in j.members
    ensures LegalPairs(PairsOf(j, ks)) && WirePairs(PairsOf(j, ks)) == EncodeMembers(j, ks)
    ensures Members(m, PairsOf(j, ks)) == CanonicalMembers(j, ks, m)
    decreases j, 0, |ks|
  {
    hide *;
    MembersUnfold(j, ks);
    if ks == [] {
      PairsEnd(m);
      NoCanonical(j, m);
    } else {
      var k := ks[0];
      SizedMember(j, k);
      var key, x := Plain(TextWidth(|k|), k), ItemOf(j.members[k]);
      EncodeIsWire(j.members[k]);
      KeyIsWire(k);
      PairMade(Pair(key, x));
      PairParts(Pair(key, x));
      var rest := PairsOf(j, ks[1..]);
      EncodeMembersIsWire(j, ks[1..], m[k := Canonical(j.members[k])]);
      PairsCons(Pair(key, x), rest, m);
      CanonicalMembersStep(j, ks, m);
      Regroup(TextHead(|k|), k, Encode(j.members[k]), EncodeMembers(j, ks[1..]));
    }
  }

  lemma Regroup(a: Bytes, b: Bytes, c: Bytes, d: Bytes)
    ensures (a + b) + c + d == a + b + c + d
    ensures ((a + b) + c) + d == a + b + c + d
  {
  }

  lemma NoCanonical(j: Json, m: map<Bytes, Json>)
    requires j.Object?
    ensures CanonicalMembers(j, [], m) == m
  {
  }

  lemma SizedMember(j: Json, k: Bytes)
    requires j.Object? && Sized32(j) && k in j.members
    ensures |k| < 0x1_0000_0000 && Sized32(j.members[k])
  {
  }

  lemma KeyIsWire(k: Bytes)
    requires |k| < 0x1_0000_0000
    ensures var x := Plain(TextWidth(|k|), k);
            x.Plain? && Legal(x) && Wire(x) == TextHead(|k|) + k
  {
    hide TextHead;
    hide TextStart;
    hide TextFits;
    StartsAreHeads(|k|);
  }

  lemma MembersUnfold(j: Json, ks: seq<Bytes>)
    requires j.Object? && Sized32(j) && forall k :: k in ks ==> k in j.members
    ensures PairsOf(j, ks) ==
            if ks == [] then []
            else [Pair(Plain(TextWidth(|ks[0]|), ks[0]), ItemOf(j.members[ks[0]]))] + PairsOf(j, ks[1..])
    ensures ks != [] ==> |ks[0]| < 0x1_0000_0000
    ensures EncodeMembers(j, ks) ==
            if ks == [] then []
            else TextHead(|ks[0]|) + ks[0] + Encode(j.members[ks[0]]) + EncodeMembers(j, ks[1..])
  {
    hide ItemOf;
    hide Encode;
    hide TextHead;
    hide TextWidth;
    if ks != [] {
      SizedMember(j, ks[0]);
    }
  }

  lemma {:induction false} EncodeObjectIsWire(j: Json)
    requires j.Object? && Sized32(j)
    ensures Legal(ItemOf(j)) && Wire(ItemOf(j)) == Encode(j) && Meaning(ItemOf(j)) == Canonical(j)
    decreases j, 0, |j.members| + 1
  {
    hide MapHead;
    hide DictStart;
    hide ListFits;
    hide Canonical;
    hide CanonicalMembers;
    hide PairsOf;
    hide EncodeMembers;
    hide WirePairs;
    hide Members;
    hide Ascending;
    hide Legal;
    hide Wire;
    hide Meaning;
    var ks := SortedKeys(j.members.Keys);
    EncodeMembersIsWire(j, ks, map[]);
    StartsAreHeads(|j.members|);
    CanonicalObject(j);
    DictWire(ListWidth(|j.members|), PairsOf(j, ks));
  }

  lemma DictWire(w: Width, ps: seq<Pair>)
    requires ListFits(w, |ps|) && LegalPairs(ps)
    ensures Legal(Dict(w, ps)) && Wire(Dict(w, ps)) == DictStart(w, |ps|) + WirePairs(ps)
    ensures Meaning(Dict(w, ps)) == Object(Members(map[], ps))
  {
    hide DictStart;
    hide ListFits;
    hide WirePairs;
    hide Members;
    hide LegalPair;
  }
}
