/**
  The item the CBOR encoder writes for a value: definite lengths and the shortest
  heads (section 3.9 of RFC 7049). Its elements and members may as well be
  written with an indefinite length.
 */
module CborShortest {
  import opened JsonValue
  import opened Binary
  import opened Cbor
  import opened CborWire

  function Shortest(n: nat): Width {
    if n < 24 then Tiny else if n < 0x100 then One else if n < 0x1_0000 then Two
    else if n < 0x1_0000_0000 then Four else Eight
  }

  /** No narrower head holds the number. */
  lemma ShortestHolds(n: nat, w: Width)
    ensures n < 0x1_0000_0000_0000_0000 ==> Holds(Shortest(n), n)
    ensures Holds(w, n) ==> Size(Shortest(n)) <= Size(w)
  {
    PowValues();
  }

  lemma ShortestStart(major: nat, n: uint64)
    requires major < 6
    ensures Holds(Shortest(n), n) && Start(major, Shortest(n), n) == Head(major * 32, n)
  {
    hide BigEndian;
    PowValues();
  }

  function ItemOf(j: Json): Item
    requires Sized(j)
    decreases j, 1, 0
  {
    match j
    case Null => Nil
    case Bool(b) => if b then Yes else No
    case Int(i) => if i >= 0 then Unsigned(Shortest(i), i) else Negative(Shortest(-1 - i), -1 - i)
    case Uint(u) => Unsigned(Shortest(u), u)
    case Float(bits) => Double(bits)
    case String(s) => Plain(Shortest(|s|), s)
    case Array(es) => List(Shortest(|es|), ItemsOf(j, 0))
    case Object(m) => Dict(Shortest(|m|), PairsOf(j, SortedKeys(m.Keys)))
  }

  function ItemsOf(j: Json, i: nat): (xs: seq<Item>)
    requires j.Array? && Sized(j) && i <= |j.elems|
    ensures |xs| == |j.elems| - i
    decreases j, 0, |j.elems| - i
  {
    if i == |j.elems| then [] else [ItemOf(j.elems[i])] + ItemsOf(j, i + 1)
  }

  function PairsOf(j: Json, ks: seq<Bytes>): (ps: seq<Pair>)
    requires j.Object? && Sized(j) && forall k :: k in ks ==> k in j.members
    ensures |ps| == |ks|
    decreases j, 0, |ks|
  {
    if ks == [] then []
    else [Pair(Plain(Shortest(|ks[0]|), ks[0]), ItemOf(j.members[ks[0]]))] + PairsOf(j, ks[1..])
  }

  /** The encoder writes the shortest item with the value's meaning. */
  lemma {:induction false} EncodeIsWire(j: Json)
    requires Sized(j)
    ensures Legal(ItemOf(j)) && Wire(ItemOf(j)) == Encode(j) && Meaning(ItemOf(j)) == Canonical(j)
    decreases j, 1, 0
  {
    hide *;
    if j.Array? {
      EncodeArrayIsWire(j);
    } else if j.Object? {
      EncodeObjectIsWire(j);
    } else {
      EncodeLeafIsWire(j);
    }
  }

  lemma EncodeLeafIsWire(j: Json)
    requires Sized(j) && !j.Array? && !j.Object?
    ensures Legal(ItemOf(j)) && Wire(ItemOf(j)) == Encode(j) && Meaning(ItemOf(j)) == Canonical(j)
  {
    hide Head;
    hide Start;
    hide BigEndian;
    hide Holds;
    match j
    case Int(i) =>
      if i >= 0 { ShortestStart(0, i); } else { ShortestStart(1, -1 - i); }
    case Uint(u) => ShortestStart(0, u);
    case String(s) => ShortestStart(3, |s|);
    case _ =>
  }

  lemma {:induction false} EncodeElemsIsWire(j: Json, i: nat)
    requires j.Array? && Sized(j) && i <= |j.elems|
    ensures LegalAll(ItemsOf(j, i)) && WireAll(ItemsOf(j, i)) == EncodeElems(j, i)
    ensures Meanings(ItemsOf(j, i)) == CanonicalFrom(j.elems, i)
    decreases j, 0, |j.elems| - i
  {
    hide *;
    ElemsUnfold(j, i);
    if i == |j.elems| {
      AllEnd();
    } else {
      SizedElem(j, i);
      EncodeIsWire(j.elems[i]);
      EncodeElemsIsWire(j, i + 1);
      AllCons(ItemOf(j.elems[i]), ItemsOf(j, i + 1));
    }
  }

  lemma SizedElem(j: Json, i: nat)
    requires j.Array? && Sized(j) && i < |j.elems|
    ensures Sized(j.elems[i])
  {
  }

  lemma ElemsUnfold(j: Json, i: nat)
    requires j.Array? && Sized(j) && i <= |j.elems|
    ensures ItemsOf(j, i) == if i == |j.elems| then [] else [ItemOf(j.elems[i])] + ItemsOf(j, i + 1)
    ensures EncodeElems(j, i) == if i == |j.elems| then [] else Encode(j.elems[i]) + EncodeElems(j, i + 1)
    ensures CanonicalFrom(j.elems, i) ==
            if i == |j.elems| then [] else [Canonical(j.elems[i])] + CanonicalFrom(j.elems, i + 1)
  {
    hide ItemOf;
    hide Encode;
    hide Canonical;
  }

  lemma {:induction false} EncodeArrayIsWire(j: Json)
    requires j.Array? && Sized(j)
    ensures Legal(ItemOf(j)) && Wire(ItemOf(j)) == Encode(j) && Meaning(ItemOf(j)) == Canonical(j)
    decreases j, 0, |j.elems| + 1
  {
    hide Head;
    hide Start;
    hide Holds;
    hide Canonical;
    hide CanonicalFrom;
    hide ItemsOf;
    hide EncodeElems;
    hide WireAll;
    hide Meanings;
    EncodeElemsIsWire(j, 0);
    ShortestStart(4, |j.elems|);
    CanonicalArray(j);
  }

  lemma {:induction false} EncodeMembersIsWire(j: Json, ks: seq<Bytes>, m: map<Bytes, Json>)
    requires j.Object? && Sized(j) && forall k :: k in ks ==> k in j.members
    ensures LegalPairs(PairsOf(j, ks)) && WirePairs(PairsOf(j, ks)) == EncodeMembers(j, ks)
    ensures Members(m, PairsOf(j, ks)) == CanonicalMembers(j, ks, m)
    decreases j, 0, |ks|
  {
    hide *;
    MembersUnfold(j, ks);
    if ks == [] {
      PairsEnd(m);
      NoCanonical(j, m);
    } else {
      var k := ks[0];
      BaseBounds();
      SizedMember(j, k);
      var key, x := Plain(Shortest(|k|), k), ItemOf(j.members[k]);
      EncodeIsWire(j.members[k]);
      KeyIsWire(k);
      PairMade(Pair(key, x));
      PairParts(Pair(key, x));
      var rest := PairsOf(j, ks[1..]);
      EncodeMembersIsWire(j, ks[1..], m[k := Canonical(j.members[k])]);
      PairsCons(Pair(key, x), rest, m);
      CanonicalMembersStep(j, ks, m);
      Regroup(Head(TEXT, |k|), k, Encode(j.members[k]), EncodeMembers(j, ks[1..]));
    }
  }

  lemma Regroup(a: Bytes, b: Bytes, c: Bytes, d: Bytes)
    ensures (a + b) + c + d == a + b + c + d
    ensures ((a + b) + c) + d == a + b + c + d
  {
  }

  lemma NoCanonical(j: Json, m: map<Bytes, Json>)
    requires j.Object?
    ensures CanonicalMembers(j, [], m) == m
  {
  }

  lemma SizedMember(j: Json, k: Bytes)
    requires j.Object? && Sized(j) && k in j.members
    ensures |k| < 0x1_0000_0000_0000_0000 && Sized(j.members[k])
  {
  }

  lemma KeyIsWire(k: Bytes)
    requires |k| < 0x1_0000_0000_0000_0000
    ensures var x := Plain(Shortest(|k|), k);
            IsText(x) && Legal(x) && TextOf(x) == k && Wire(x) == Head(TEXT, |k|) + k
  {
    hide Head;
    hide Start;
    hide Holds;
    ShortestStart(3, |k|);
  }

  lemma MembersUnfold(j: Json, ks: seq<Bytes>)
    requires j.Object? && Sized(j) && forall k :: k in ks ==> k in j.members
    ensures PairsOf(j, ks) ==
            if ks == [] then []
            else [Pair(Plain(Shortest(|ks[0]|), ks[0]), ItemOf(j.members[ks[0]]))] + PairsOf(j, ks[1..])
    ensures ks != [] ==> |ks[0]| < 0x1_0000_0000_0000_0000
    ensures EncodeMembers(j, ks) ==
            if ks == [] then []
            else Head(TEXT, |ks[0]|) + ks[0] + Encode(j.members[ks[0]]) + EncodeMembers(j, ks[1..])
  {
    hide ItemOf;
    hide Encode;
    hide Head;
    hide Shortest;
    if ks != [] {
      SizedMember(j, ks[0]);
    }
  }

  lemma {:induction false} EncodeObjectIsWire(j: Json)
    requires j.Object? && Sized(j)
    ensures Legal(ItemOf(j)) && Wire(ItemOf(j)) == Encode(j) && Meaning(ItemOf(j)) == Canonical(j)
    decreases j, 0, |j.members| + 1
  {
    hide *;
    var ks := SortedKeys(j.members.Keys);
    SortedMembers(j);
    ObjectUnfold(j);
    EncodeMembersIsWire(j, ks, map[]);
    ShortestStart(5, |j.members|);
    CanonicalObject(j);
    DictParts(Shortest(|j.members|), PairsOf(j, ks));
  }

  lemma ObjectUnfold(j: Json)
    requires j.Object? && Sized(j) && forall k :: k in SortedKeys(j.members.Keys) ==> k in j.members
    ensures |j.members| < 0x1_0000_0000_0000_0000 && |SortedKeys(j.members.Keys)| == |j.members|
    ensures ItemOf(j) == Dict(Shortest(|j.members|), PairsOf(j, SortedKeys(j.members.Keys)))
    ensures Encode(j) == Head(5 * 32, |j.members|) + EncodeMembers(j, SortedKeys(j.members.Keys))
  {
    hide Head;
    hide PairsOf;
    hide EncodeMembers;
    hide Ascending;
  }

  lemma DictParts(w: Width, ps: seq<Pair>)
    requires Holds(w, |ps|) && LegalPairs(ps)
    ensures Legal(Dict(w, ps)) && Wire(Dict(w, ps)) == Start(5, w, |ps|) + WirePairs(ps)
    ensures Meaning(Dict(w, ps)) == Object(Members(map[], ps))
  {
    hide Start;
    hide Holds;
    hide WirePairs;
    hide Members;
    hide LegalPair;
  }

  // ---------- indefinite lengths ----------

  /** An array's elements between 0x9F and a break read as the array. */
  lemma OpenArray(v: Bytes, i: nat, j: Json)
    requires j.Array? && Sized(j) && HoldsAt(v, i, [0x9F] + EncodeElems(j, 0) + [0xFF])
    ensures Decode(v, i) == Ok((Canonical(j), i + |EncodeElems(j, 0)| + 2))
  {
    hide Decode;
    hide HoldsAt;
    hide Canonical;
    hide CanonicalFrom;
    hide ItemsOf;
    hide EncodeElems;
    hide WireAll;
    hide Meanings;
    EncodeElemsIsWire(j, 0);
    CanonicalArray(j);
    DecodeWire(v, i, OpenList(ItemsOf(j, 0)));
  }

  /** An object's members between 0xBF and a break read as the object. */
  lemma OpenObject(v: Bytes, i: nat, j: Json)
    requires j.Object? && Sized(j)
    requires HoldsAt(v, i, [0xBF] + EncodeMembers(j, SortedKeys(j.members.Keys)) + [0xFF])
    ensures Decode(v, i) == Ok((Canonical(j), i + |EncodeMembers(j, SortedKeys(j.members.Keys))| + 2))
  {
    hide *;
    var ks := SortedKeys(j.members.Keys);
    SortedMembers(j);
    EncodeMembersIsWire(j, ks, map[]);
    CanonicalObject(j);
    var ps := PairsOf(j, ks);
    OpenDictParts(ps);
    RegroupOpen(EncodeMembers(j, ks));
    DecodeWire(v, i, OpenDict(ps));
  }

  lemma SortedMembers(j: Json)
    requires j.Object?
    ensures forall k :: k in SortedKeys(j.members.Keys) ==> k in j.members
  {
  }

  lemma RegroupOpen(b: Bytes)
    ensures [0xBF] + b + [0xFF] == [0xBF] + (b + [0xFF]) && |[0xBF] + b + [0xFF]| == |b| + 2
  {
  }

  function Concat(ss: seq<Bytes>): Bytes {
    if ss == [] then [] else ss[0] + Concat(ss[1..])
  }

  function EncodeTexts(ss: seq<Bytes>): Bytes
    requires forall n :: 0 <= n < |ss| ==> |ss[n]| < 0x1_0000_0000_0000_0000
  {
    if ss == [] then [] else Head(TEXT, |ss[0]|) + ss[0] + EncodeTexts(ss[1..])
  }

  function TextItems(ss: seq<Bytes>): seq<Item> {
    if ss == [] then [] else [Plain(Shortest(|ss[0]|), ss[0])] + TextItems(ss[1..])
  }

  lemma {:induction false} TextItemsAre(ss: seq<Bytes>)
    requires forall n :: 0 <= n < |ss| ==> |ss[n]| < 0x1_0000_0000_0000_0000
    ensures LegalAll(TextItems(ss)) && AllText(TextItems(ss))
    ensures WireAll(TextItems(ss)) == EncodeTexts(ss) && Joined(TextItems(ss)) == Concat(ss)
    decreases |ss|
  {
    hide Head;
    hide Legal;
    hide IsText;
    hide Wire;
    hide TextOf;
    hide WireAll;
    hide Joined;
    if ss == [] {
      AllEnd();
    } else {
      KeyIsWire(ss[0]);
      TextItemsAre(ss[1..]);
      AllCons(Plain(Shortest(|ss[0]|), ss[0]), TextItems(ss[1..]));
    }
  }

  /** Text items between 0x7F and a break read as their concatenation. */
  lemma OpenText(v: Bytes, i: nat, ss: seq<Bytes>)
    requires forall n :: 0 <= n < |ss| ==> |ss[n]| < 0x1_0000_0000_0000_0000
    requires HoldsAt(v, i, [0x7F] + EncodeTexts(ss) + [0xFF])
    ensures Decode(v, i) == Ok((String(Concat(ss)), i + |EncodeTexts(ss)| + 2))
  {
    hide Decode;
    hide HoldsAt;
    hide EncodeTexts;
    hide TextItems;
    hide WireAll;
    hide Joined;
    hide Concat;
    TextItemsAre(ss);
    DecodeWire(v, i, Chunks(TextItems(ss)));
  }
}
