/**
  When rebuilding a flattened value gives the value back. `Entries(j)` lists the
  leaves of `j` in the order in which `unflatten` replays them: children are
  visited in the byte order of their escaped token, followed by "/" when the
  child is itself a container. Replaying that list restores `j` exactly when `j`
  is `Rebuildable`.
 */
module JsonFlattenLaw {
  import opened JsonValue
  import opened JsonPointer
  import opened JsonPatch
  import opened JsonFlatten

  datatype Option<+T> = None | Some(value: T)

  datatype Entry = Entry(path: seq<Bytes>, value: Json)

  // ---------- children of a container ----------

  function Tokens(j: Json): set<Bytes> {
    match j
    case Array(es) => set i | 0 <= i < |es| :: Decimal(i)
    case Object(m) => m.Keys
    case _ => {}
  }

  lemma TokenIndex(j: Json, t: Bytes)
    requires j.Array? && t in Tokens(j)
    ensures 0 <= DigitsValue(t) < |j.elems| && t == Decimal(DigitsValue(t))
  {
    hide Decimal;
    hide DigitsValue;
    var i :| 0 <= i < |j.elems| && t == Decimal(i);
    DecimalValue(i);
  }

  function Kid(j: Json, t: Bytes): (c: Json)
    requires t in Tokens(j)
    ensures c < j
  {
    match j
    case Array(es) => TokenIndex(j, t); es[DigitsValue(t)]
    case Object(m) => m[t]
  }

  /** Where a child's entries stand among its siblings' entries. */
  function Mark(t: Bytes, c: Json): Bytes {
    Escape(t) + (if IsLeaf(c) then [] else [SLASH])
  }

  function Marks(j: Json): set<Bytes> {
    set t | t in Tokens(j) :: Mark(t, Kid(j, t))
  }

  function TokenOf(mark: Bytes): Bytes {
    Unescape(if mark != [] && mark[|mark| - 1] == SLASH then mark[..|mark| - 1] else mark)
  }

  lemma TokenOfMark(t: Bytes, c: Json)
    ensures TokenOf(Mark(t, c)) == t
  {
    hide Escape;
    hide Unescape;
    hide IsLeaf;
    UnescapeEscape(t);
    var m := Mark(t, c);
    assert IsLeaf(c) ==> m == Escape(t);
    assert !IsLeaf(c) ==> m[..|m| - 1] == Escape(t);
  }

  /** The children's tokens in replay order. */
  function Order(j: Json): seq<Bytes> {
    var ms := SortedKeys(Marks(j));
    seq(|ms|, i requires 0 <= i < |ms| => TokenOf(ms[i]))
  }

  /** `ts` lists different children of `j`, their marks ascending. */
  predicate InOrder(j: Json, ts: seq<Bytes>) {
    && (forall t :: t in ts ==> t in Tokens(j))
    && (forall a, b :: 0 <= a < b < |ts| ==> ts[a] != ts[b] && Less(Mark(ts[a], Kid(j, ts[a])), Mark(ts[b], Kid(j, ts[b]))))
  }

  lemma OrderAt(j: Json, n: nat)
    requires n < |Order(j)|
    ensures |Order(j)| == |SortedKeys(Marks(j))| && Order(j)[n] in Tokens(j)
    ensures SortedKeys(Marks(j))[n] == Mark(Order(j)[n], Kid(j, Order(j)[n]))
  {
    hide Mark;
    hide TokenOf;
    hide Tokens;
    hide Kid;
    hide Ascending;
    var ms := SortedKeys(Marks(j));
    assert ms[n] in ms;
    var t :| t in Tokens(j) && ms[n] == Mark(t, Kid(j, t));
    TokenOfMark(t, Kid(j, t));
  }

  lemma OrderHas(j: Json, t: Bytes)
    requires t in Tokens(j)
    ensures t in Order(j)
  {
    hide Mark;
    hide TokenOf;
    hide Tokens;
    hide Kid;
    hide Ascending;
    var ms := SortedKeys(Marks(j));
    var m := Mark(t, Kid(j, t));
    assert m in Marks(j);
    var n :| 0 <= n < |ms| && ms[n] == m;
    TokenOfMark(t, Kid(j, t));
    assert Order(j)[n] == t;
  }

  lemma OrderIs(j: Json)
    ensures InOrder(j, Order(j))
    ensures forall t :: t in Tokens(j) <==> t in Order(j)
  {
    hide Mark;
    hide Less;
    hide TokenOf;
    hide Tokens;
    hide Kid;
    hide Order;
    hide SortedKeys;
    hide Marks;
    var ms, ts := SortedKeys(Marks(j)), Order(j);
    forall n | 0 <= n < |ts| ensures ts[n] in Tokens(j) {
      OrderAt(j, n);
    }
    forall a, b | 0 <= a < b < |ts|
      ensures ts[a] != ts[b] && Less(Mark(ts[a], Kid(j, ts[a])), Mark(ts[b], Kid(j, ts[b])))
    {
      OrderAt(j, a);
      OrderAt(j, b);
      AscendingDistinct(ms, a, b);
    }
    forall t | t in Tokens(j) ensures t in ts {
      OrderHas(j, t);
    }
  }

  lemma InOrderTokens(j: Json, ts: seq<Bytes>)
    requires InOrder(j, ts)
    ensures forall t :: t in ts ==> t in Tokens(j)
  {
  }

  lemma InOrderTail(j: Json, ts: seq<Bytes>)
    requires InOrder(j, ts) && ts != []
    ensures ts[0] in Tokens(j) && InOrder(j, ts[1..]) && ts[0] !in ts[1..]
    ensures forall t :: t in ts <==> t == ts[0] || t in ts[1..]
    ensures forall t :: t in ts[1..] ==> t in Tokens(j) && Less(Mark(ts[0], Kid(j, ts[0])), Mark(t, Kid(j, t)))
  {
    hide Mark;
    hide Less;
    hide Tokens;
    hide Kid;
    assert ts == [ts[0]] + ts[1..];
    assert ts[0] in ts;
    forall t | t in ts[1..]
      ensures t in Tokens(j) && t != ts[0] && Less(Mark(ts[0], Kid(j, ts[0])), Mark(t, Kid(j, t)))
    {
      var n :| 0 <= n < |ts[1..]| && ts[1..][n] == t;
      assert ts[n + 1] == t;
    }
  }

  // ---------- entries ----------

  function Under(t: Bytes, es: seq<Entry>): (r: seq<Entry>)
    ensures |r| == |es|
  {
    seq(|es|, i requires 0 <= i < |es| => Entry([t] + es[i].path, es[i].value))
  }

  function Entries(j: Json): seq<Entry>
    decreases j, 1, 0
  {
    if IsLeaf(j) then [Entry([], LeafValue(j))] else
      OrderIs(j);
      Blocks(j, Order(j))
  }

  function Blocks(j: Json, ts: seq<Bytes>): seq<Entry>
    requires forall t :: t in ts ==> t in Tokens(j)
    decreases j, 0, |ts|
  {
    if ts == [] then [] else Under(ts[0], Entries(Kid(j, ts[0]))) + Blocks(j, ts[1..])
  }

  lemma BlocksStep(j: Json, ts: seq<Bytes>)
    requires InOrder(j, ts) && ts != []
    ensures ts[0] in Tokens(j) && InOrder(j, ts[1..])
    ensures (forall t :: t in ts ==> t in Tokens(j)) && forall t :: t in ts[1..] ==> t in Tokens(j)
    ensures Blocks(j, ts) == Under(ts[0], Entries(Kid(j, ts[0]))) + Blocks(j, ts[1..])
  {
    hide Under;
    hide Entries;
    hide Kid;
    hide Tokens;
    hide Mark;
    InOrderTail(j, ts);
  }

  lemma EntriesOf(j: Json)
    ensures IsLeaf(j) ==> Entries(j) == [Entry([], LeafValue(j))]
    ensures !IsLeaf(j) ==> InOrder(j, Order(j)) && Order(j) != [] && Entries(j) == Blocks(j, Order(j))
  {
    hide Order;
    hide Blocks;
    hide InOrder;
    OrderIs(j);
    if !IsLeaf(j) {
      SomeToken(j);
    }
  }

  lemma SomeToken(j: Json)
    requires !IsLeaf(j)
    ensures Tokens(j) != {}
  {
    match j
    case Array(es) => assert Decimal(0) in Tokens(j);
    case Object(m) => assert m.Keys == {} ==> m == map[];
  }

  /** The value of the entry with this path, if there is one. */
  function LeafOf(j: Json, path: seq<Bytes>): Option<Json>
    decreases |path|
  {
    if path == [] then (if IsLeaf(j) then Some(LeafValue(j)) else None)
    else if IsLeaf(j) || path[0] !in Tokens(j) then None
    else LeafOf(Kid(j, path[0]), path[1..])
  }

  /** `Entries` lists leaves only. */
  lemma {:induction false} EntryIsLeaf(j: Json, n: nat)
    requires n < |Entries(j)|
    ensures LeafOf(j, Entries(j)[n].path) == Some(Entries(j)[n].value)
    decreases j, 1, 0
  {
    hide Entries;
    hide Blocks;
    hide Order;
    hide InOrder;
    hide Tokens;
    hide Kid;
    EntriesOf(j);
    if !IsLeaf(j) {
      BlockIsLeaf(j, Order(j), n);
    }
  }

  lemma {:induction false} BlockIsLeaf(j: Json, ts: seq<Bytes>, n: nat)
    requires !IsLeaf(j) && InOrder(j, ts) && n < |Blocks(j, ts)|
    ensures var e := Blocks(j, ts)[n];
            e.path != [] && e.path[0] in ts && e.path[0] in Tokens(j)
            && LeafOf(Kid(j, e.path[0]), e.path[1..]) == Some(e.value)
            && LeafOf(j, e.path) == Some(e.value)
    decreases j, 0, |ts|
  {
    hide Entries;
    hide InOrder;
    hide Tokens;
    hide Kid;
    hide IsLeaf;
    if ts != [] {
      BlocksStep(j, ts);
      InOrderTail(j, ts);
      var first := Entries(Kid(j, ts[0]));
      if n < |first| {
        EntryIsLeaf(Kid(j, ts[0]), n);
        var e := Blocks(j, ts)[n];
        assert e.path[1..] == first[n].path;
      } else {
        BlockIsLeaf(j, ts[1..], n - |first|);
      }
    }
  }

  /** `Entries` lists every leaf. */
  lemma {:induction false} LeafIsEntry(j: Json, path: seq<Bytes>)
    requires LeafOf(j, path).Some?
    ensures Entry(path, LeafOf(j, path).value) in Entries(j)
    decreases |path|, 0
  {
    hide Entries;
    hide Blocks;
    hide Order;
    hide InOrder;
    hide Tokens;
    hide Kid;
    EntriesOf(j);
    OrderIs(j);
    if path != [] {
      LeafIsEntry(Kid(j, path[0]), path[1..]);
      LeafInBlocks(j, Order(j), path);
    }
  }

  lemma {:induction false} LeafInBlocks(j: Json, ts: seq<Bytes>, path: seq<Bytes>)
    requires InOrder(j, ts) && path != [] && path[0] in ts && path[0] in Tokens(j)
    requires LeafOf(Kid(j, path[0]), path[1..]).Some?
    requires Entry(path[1..], LeafOf(Kid(j, path[0]), path[1..]).value) in Entries(Kid(j, path[0]))
    ensures Entry(path, LeafOf(Kid(j, path[0]), path[1..]).value) in Blocks(j, ts)
    decreases |ts|
  {
    hide Entries;
    hide InOrder;
    hide Tokens;
    hide Kid;
    hide LeafOf;
    BlocksStep(j, ts);
    InOrderTail(j, ts);
    var v := LeafOf(Kid(j, path[0]), path[1..]).value;
    if path[0] == ts[0] {
      var first := Entries(Kid(j, ts[0]));
      var n :| 0 <= n < |first| && first[n] == Entry(path[1..], v);
      assert [path[0]] + path[1..] == path;
      assert Under(ts[0], first)[n] == Entry(path, v);
    } else {
      LeafInBlocks(j, ts[1..], path);
    }
  }

  // ---------- the pointer strings ascend ----------

  lemma {:induction false} LessPrefix(p: Bytes, a: Bytes, b: Bytes)
    requires Less(a, b)
    ensures Less(p + a, p + b)
  {
    if p == [] {
      assert p + a == a && p + b == b;
    } else {
      LessPrefix(p[1..], a, b);
      assert (p + a)[1..] == p[1..] + a && (p + b)[1..] == p[1..] + b;
    }
  }

  lemma {:induction false} LessExtend(a: Bytes, b: Bytes, x: Bytes, y: Bytes)
    requires Less(a, b) && (a <= b ==> x == [])
    ensures Less(a + x, b + y)
  {
    if a == [] {
      assert a + x == [];
    } else if a[0] == b[0] {
      assert (a + x)[1..] == a[1..] + x && (b + y)[1..] == b[1..] + y;
      assert a[1..] <= b[1..] ==> a <= b by {
        assert a == [a[0]] + a[1..] && b == [b[0]] + b[1..];
      }
      LessExtend(a[1..], b[1..], x, y);
    }
  }

  /** The text of an entry below a child starts with the child's mark. */
  lemma EntryText(t: Bytes, c: Json, x: seq<Bytes>) returns (rest: Bytes)
    requires LeafOf(c, x).Some?
    ensures ToString([t] + x) == [SLASH] + Mark(t, c) + rest
    ensures IsLeaf(c) ==> rest == []
  {
    hide Escape;
    hide Kid;
    hide Tokens;
    hide IsLeaf;
    ToStringFront([t] + x);
    assert ([t] + x)[1..] == x;
    if IsLeaf(c) {
      rest := [];
    } else {
      ToStringFront(x);
      rest := Escape(x[0]) + ToString(x[1..]);
      assert Escape(t) + ([SLASH] + Escape(x[0]) + ToString(x[1..])) == Escape(t) + [SLASH] + rest;
    }
  }

  lemma SlashEnds(x: Bytes, y: Bytes, b: Bytes)
    requires SLASH !in y && (b == y || b == y + [SLASH]) && x + [SLASH] <= b
    ensures x + [SLASH] == b
  {
    assert b[|x|] == (x + [SLASH])[|x|] == SLASH;
  }

  /** A container's mark is no prefix of a sibling's mark. */
  lemma MarkPrefix(t: Bytes, c: Json, u: Bytes, d: Json)
    requires Mark(t, c) <= Mark(u, d) && Mark(t, c) != Mark(u, d)
    ensures IsLeaf(c)
  {
    hide Escape;
    hide IsLeaf;
    UnescapeEscape(u);
    assert Escape(u) + [] == Escape(u);
    if !IsLeaf(c) {
      SlashEnds(Escape(t), Escape(u), Mark(u, d));
    }
  }

  lemma CrossLess(j: Json, t: Bytes, u: Bytes, x: seq<Bytes>, y: seq<Bytes>)
    requires t in Tokens(j) && u in Tokens(j) && Less(Mark(t, Kid(j, t)), Mark(u, Kid(j, u)))
    requires LeafOf(Kid(j, t), x).Some? && LeafOf(Kid(j, u), y).Some?
    ensures Less(ToString([t] + x), ToString([u] + y))
  {
    hide *;
    var c, d := Kid(j, t), Kid(j, u);
    var a, b := Mark(t, c), Mark(u, d);
    var p := EntryText(t, c, x);
    var q := EntryText(u, d, y);
    if a <= b {
      LessIrreflexive(a);
      MarkPrefix(t, c, u, d);
    }
    LessExtend(a, b, p, q);
    LessPrefix([SLASH], a + p, b + q);
    assert [SLASH] + a + p == [SLASH] + (a + p);
    assert [SLASH] + b + q == [SLASH] + (b + q);
  }

  function Texts(es: seq<Entry>): (r: seq<Bytes>)
    ensures |r| == |es|
  {
    seq(|es|, i requires 0 <= i < |es| => ToString(es[i].path))
  }

  lemma {:induction false} EntriesAscend(j: Json, a: nat, b: nat)
    requires a < b < |Entries(j)|
    ensures Less(ToString(Entries(j)[a].path), ToString(Entries(j)[b].path))
    decreases j, 1, 0
  {
    hide *;
    EntriesOf(j);
    if !IsLeaf(j) {
      BlocksAscend(j, Order(j), a, b);
    }
  }

  lemma {:induction false} BlocksAscend(j: Json, ts: seq<Bytes>, a: nat, b: nat)
    requires !IsLeaf(j) && InOrder(j, ts) && a < b < |Blocks(j, ts)|
    ensures Less(ToString(Blocks(j, ts)[a].path), ToString(Blocks(j, ts)[b].path))
    decreases j, 0, |ts|
  {
    hide *;
    if ts == [] {
      NoBlocks(j);
    } else {
      BlocksStep(j, ts);
      InOrderTail(j, ts);
      var t := ts[0];
      var first, rest := Entries(Kid(j, t)), Blocks(j, ts[1..]);
      if b < |first| {
        EntriesAscend(Kid(j, t), a, b);
        UnderAt(t, first, a);
        UnderAt(t, first, b);
        UnderLess(t, first[a].path, first[b].path);
      } else if a < |first| {
        EntryIsLeaf(Kid(j, t), a);
        BlockIsLeaf(j, ts[1..], b - |first|);
        UnderAt(t, first, a);
        var e := rest[b - |first|];
        CrossLess(j, t, e.path[0], first[a].path, e.path[1..]);
        assert [e.path[0]] + e.path[1..] == e.path;
      } else {
        BlocksAscend(j, ts[1..], a - |first|, b - |first|);
      }
    }
  }

  lemma NoBlocks(j: Json)
    ensures Blocks(j, []) == []
  {
  }

  lemma UnderAt(t: Bytes, es: seq<Entry>, n: nat)
    requires n < |es|
    ensures Under(t, es)[n] == Entry([t] + es[n].path, es[n].value)
  {
  }

  lemma UnderLess(t: Bytes, x: seq<Bytes>, y: seq<Bytes>)
    requires Less(ToString(x), ToString(y))
    ensures Less(ToString([t] + x), ToString([t] + y))
  {
    hide *;
    ToStringFront([t] + x);
    ToStringFront([t] + y);
    assert ([t] + x)[1..] == x && ([t] + y)[1..] == y;
    LessPrefix([SLASH] + Escape(t), ToString(x), ToString(y));
  }

  // ---------- the flattened object ----------

  function Lookup(m: map<Bytes, Json>, k: Bytes): Option<Json> {
    if k in m then Some(m[k]) else None
  }

  /** The leaf of `j` that `q` names when `j` sits at `p`. */
  function LeafBelow(j: Json, p: seq<Bytes>, q: seq<Bytes>): Option<Json> {
    if p <= q then LeafOf(j, q[|p|..]) else None
  }

  function Either(a: Option<Json>, b: Option<Json>): Option<Json> {
    if a.Some? then a else b
  }

  lemma ToStringInjective(p: seq<Bytes>, q: seq<Bytes>)
    requires ToString(p) == ToString(q)
    ensures p == q
  {
    hide *;
    SplitToString(p);
    SplitToString(q);
  }

  /** What `flatten` stores: exactly the leaves, each under its pointer string. */
  lemma {:induction false} FlattenLookup(p: seq<Bytes>, j: Json, acc: map<Bytes, Json>, q: seq<Bytes>)
    ensures Lookup(FlattenInto(ToString(p), j, acc), ToString(q)) ==
            Either(LeafBelow(j, p, q), Lookup(acc, ToString(q)))
    decreases j, 1, 0
  {
    hide FlattenElems;
    hide FlattenMembers;
    hide ToString;
    hide SortedKeys;
    hide Tokens;
    hide Kid;
    if IsLeaf(j) {
      assert p <= q && q[|p|..] == [] ==> p == q;
      assert p == q ==> q[|p|..] == [];
      if ToString(p) == ToString(q) {
        ToStringInjective(p, q);
      }
    } else if j.Array? {
      ElemsLookup(p, j, 0, acc, q);
      if p < q && q[|p|] in Tokens(j) {
        TokenIndex(j, q[|p|]);
      }
      LeafBelowKid(j, p, q);
    } else {
      var ks := SortedKeys(j.members.Keys);
      MembersLookup(p, j, ks, acc, q);
      ObjectTokens(j);
      LeafBelowKid(j, p, q);
    }
  }

  lemma ObjectTokens(j: Json)
    requires j.Object?
    ensures Tokens(j) == j.members.Keys
    ensures forall k :: k in j.members ==> Kid(j, k) == j.members[k]
  {
  }

  lemma LeafBelowKid(j: Json, p: seq<Bytes>, q: seq<Bytes>)
    requires !IsLeaf(j)
    ensures LeafBelow(j, p, q) ==
            if p < q && q[|p|] in Tokens(j) then LeafOf(Kid(j, q[|p|]), q[|p| + 1..]) else None
  {
    hide Tokens;
    hide Kid;
    hide IsLeaf;
    if p < q {
      assert q[|p|..][0] == q[|p|] && q[|p|..][1..] == q[|p| + 1..];
    } else if p <= q {
      assert q[|p|..] == [];
    }
  }

  lemma {:induction false} ElemsLookup(p: seq<Bytes>, j: Json, i: nat, acc: map<Bytes, Json>, q: seq<Bytes>)
    requires j.Array? && i <= |j.elems|
    ensures Lookup(FlattenElems(ToString(p), j, i, acc), ToString(q)) ==
            Either(if p < q && q[|p|] in Tokens(j) && DigitsValue(q[|p|]) >= i
                   then LeafOf(Kid(j, q[|p|]), q[|p| + 1..]) else None,
                   Lookup(acc, ToString(q)))
    decreases j, 0, |j.elems| - i
  {
    hide FlattenInto;
    hide ToString;
    hide Tokens;
    hide Kid;
    hide LeafOf;
    hide Decimal;
    hide DigitsValue;
    if p < q && q[|p|] in Tokens(j) {
      TokenIndex(j, q[|p|]);
    }
    if i < |j.elems| {
      var d := Decimal(i);
      IndexPathTokens(p, i);
      ArrayKid(j, i);
      var acc' := FlattenInto(IndexPath(ToString(p), i), j.elems[i], acc);
      FlattenLookup(p + [d], j.elems[i], acc, q);
      PrefixStep(p, d, q);
      ElemsLookup(p, j, i + 1, acc', q);
    }
  }

  lemma ArrayKid(j: Json, i: nat)
    requires j.Array? && i < |j.elems|
    ensures Decimal(i) in Tokens(j) && Kid(j, Decimal(i)) == j.elems[i] && DigitsValue(Decimal(i)) == i
  {
    DecimalValue(i);
  }

  lemma PrefixStep(p: seq<Bytes>, d: Bytes, q: seq<Bytes>)
    ensures p + [d] <= q <==> p < q && q[|p|] == d
  {
    if p < q && q[|p|] == d {
      assert q[..|p| + 1] == p + [d];
    }
    if p + [d] <= q {
      assert (p + [d])[|p|] == q[|p|];
      assert p == (p + [d])[..|p|] == q[..|p|];
    }
  }

  lemma {:induction false} MembersLookup(p: seq<Bytes>, j: Json, ks: seq<Bytes>, acc: map<Bytes, Json>, q: seq<Bytes>)
    requires j.Object? && (forall k :: k in ks ==> k in j.members) && Ascending(ks)
    ensures Lookup(FlattenMembers(ToString(p), j, ks, acc), ToString(q)) ==
            Either(if p < q && q[|p|] in ks then LeafOf(j.members[q[|p|]], q[|p| + 1..]) else None,
                   Lookup(acc, ToString(q)))
    decreases j, 0, |ks|
  {
    hide FlattenInto;
    hide ToString;
    hide LeafOf;
    hide Less;
    if ks != [] {
      var k := ks[0];
      KeyPathTokens(p, k);
      AscendingHead(ks);
      var acc' := FlattenInto(KeyPath(ToString(p), k), j.members[k], acc);
      FlattenLookup(p + [k], j.members[k], acc, q);
      PrefixStep(p, k, q);
      MembersLookup(p, j, ks[1..], acc', q);
    }
  }

  lemma AscendingHead(ks: seq<Bytes>)
    requires Ascending(ks) && ks != []
    ensures Ascending(ks[1..]) && ks[0] !in ks[1..]
    ensures forall k :: k in ks <==> k == ks[0] || k in ks[1..]
  {
    hide Less;
    assert ks == [ks[0]] + ks[1..];
    forall n | 0 <= n < |ks[1..]| ensures ks[1..][n] != ks[0] {
      AscendingDistinct(ks, 0, n + 1);
    }
  }

  /** Every key `flatten` adds is a pointer string. */
  lemma {:induction false} FlattenKeys(p: seq<Bytes>, j: Json, acc: map<Bytes, Json>, s: Bytes)
    requires s in FlattenInto(ToString(p), j, acc) && s !in acc
    ensures Split(s).Ok?
    decreases j, 1, 0
  {
    hide FlattenElems;
    hide FlattenMembers;
    hide ToString;
    hide Split;
    if IsLeaf(j) {
      SplitToString(p);
    } else if j.Array? {
      ElemsKeys(p, j, 0, acc, s);
    } else {
      MembersKeys(p, j, SortedKeys(j.members.Keys), acc, s);
    }
  }

  lemma {:induction false} ElemsKeys(p: seq<Bytes>, j: Json, i: nat, acc: map<Bytes, Json>, s: Bytes)
    requires j.Array? && i <= |j.elems| && s in FlattenElems(ToString(p), j, i, acc) && s !in acc
    ensures Split(s).Ok?
    decreases j, 0, |j.elems| - i
  {
    hide FlattenInto;
    hide ToString;
    hide Split;
    if i < |j.elems| {
      IndexPathTokens(p, i);
      var acc' := FlattenInto(IndexPath(ToString(p), i), j.elems[i], acc);
      if s in acc' {
        FlattenKeys(p + [Decimal(i)], j.elems[i], acc, s);
      } else {
        ElemsKeys(p, j, i + 1, acc', s);
      }
    }
  }

  lemma {:induction false} MembersKeys(p: seq<Bytes>, j: Json, ks: seq<Bytes>, acc: map<Bytes, Json>, s: Bytes)
    requires j.Object? && (forall k :: k in ks ==> k in j.members)
    requires s in FlattenMembers(ToString(p), j, ks, acc) && s !in acc
    ensures Split(s).Ok?
    decreases j, 0, |ks|
  {
    hide FlattenInto;
    hide ToString;
    hide Split;
    if ks != [] {
      KeyPathTokens(p, ks[0]);
      var acc' := FlattenInto(KeyPath(ToString(p), ks[0]), j.members[ks[0]], acc);
      if s in acc' {
        FlattenKeys(p + [ks[0]], j.members[ks[0]], acc, s);
      } else {
        MembersKeys(p, j, ks[1..], acc', s);
      }
    }
  }
}
