/**
  Replaying the entries of a value, and the exact condition under which
  `unflatten(flatten(j))` is `j`.
 */
module JsonRebuild {
  import opened JsonValue
  import opened JsonPointer
  import opened JsonPatch
  import opened JsonFlatten
  import opened JsonFlattenLaw

  function Replay(doc: Json, es: seq<Entry>): Result<Json>
    decreases |es|
  {
    if es == [] then Ok(doc) else
      var next :- CreateAt(doc, es[0].path, es[0].value);
      Replay(next, es[1..])
  }

  // ---------- unflatten replays the entries ----------

  lemma {:induction false} AscendingUnique(a: seq<Bytes>, b: seq<Bytes>)
    requires Ascending(a) && Ascending(b) && forall k :: k in a <==> k in b
    ensures a == b
  {
    hide Less;
    if a == [] {
      HeadIn(b);
    } else {
      HeadIn(a);
      AscendingHead(a);
      AscendingHead(b);
      FirstIsLeast(a, b[0]);
      FirstIsLeast(b, a[0]);
      if a[0] != b[0] {
        LessTransitive(a[0], b[0], a[0]);
        LessIrreflexive(a[0]);
      }
      AscendingUnique(a[1..], b[1..]);
      assert a == [a[0]] + a[1..] && b == [b[0]] + b[1..];
    }
  }

  lemma HeadIn(a: seq<Bytes>)
    ensures a != [] ==> a[0] in a
  {
  }

  lemma FirstIsLeast(a: seq<Bytes>, k: Bytes)
    requires Ascending(a) && k in a
    ensures k == a[0] || Less(a[0], k)
  {
    hide Less;
    var n :| 0 <= n < |a| && a[n] == k;
  }

  /** The flattened object's keys, in replay order, are the texts of the entries. */
  lemma ReplayOrder(j: Json)
    ensures SortedKeys(FlattenInto([], j, map[]).Keys) == Texts(Entries(j))
  {
    hide *;
    var flat := FlattenInto([], j, map[]);
    var ks, ts := SortedKeys(flat.Keys), Texts(Entries(j));
    TextsAscend(j);
    forall s ensures s in ks <==> s in ts {
      SameTexts(j, s);
    }
    AscendingUnique(ks, ts);
  }

  lemma TextsAscend(j: Json)
    ensures Ascending(Texts(Entries(j)))
  {
    hide Entries;
    hide ToString;
    hide Less;
    var es := Entries(j);
    forall a, b | 0 <= a < b < |es| ensures Less(Texts(es)[a], Texts(es)[b]) {
      EntriesAscend(j, a, b);
    }
  }

  lemma SameTexts(j: Json, s: Bytes)
    ensures s in FlattenInto([], j, map[]) <==> s in Texts(Entries(j))
  {
    hide Entries;
    hide ToString;
    hide FlattenInto;
    hide LeafOf;
    hide Split;
    var flat, es := FlattenInto([], j, map[]), Entries(j);
    EmptyText();
    if s in flat {
      FlattenKeys([], j, map[], s);
      ToStringSplit(s);
      var q := Split(s).value;
      FlattenLookup([], j, map[], q);
      assert q[0..] == q;
      LeafIsEntry(j, q);
      var n :| 0 <= n < |es| && es[n] == Entry(q, LeafOf(j, q).value);
      assert Texts(es)[n] == s;
    }
    if s in Texts(es) {
      var n :| 0 <= n < |es| && Texts(es)[n] == s;
      EntryIsLeaf(j, n);
      FlattenLookup([], j, map[], es[n].path);
      assert es[n].path[0..] == es[n].path;
    }
  }

  lemma EmptyText()
    ensures ToString([]) == []
  {
  }

  lemma EntryStored(j: Json, n: nat)
    requires n < |Entries(j)|
    ensures var e, flat := Entries(j)[n], FlattenInto([], j, map[]);
            ToString(e.path) in flat && flat[ToString(e.path)] == e.value && IsPrimitive(e.value)
  {
    hide Entries;
    hide ToString;
    hide FlattenInto;
    hide LeafOf;
    var e := Entries(j)[n];
    EmptyText();
    EntryIsLeaf(j, n);
    FlattenLookup([], j, map[], e.path);
    assert e.path[0..] == e.path;
    LeafPrimitive(j, e.path);
  }

  lemma {:induction false} LeafPrimitive(j: Json, path: seq<Bytes>)
    requires LeafOf(j, path).Some?
    ensures IsPrimitive(LeafOf(j, path).value)
    decreases |path|
  {
    hide Kid;
    hide Tokens;
    if path != [] {
      LeafPrimitive(Kid(j, path[0]), path[1..]);
    }
  }

  lemma {:induction false} UnflattenReplays(j: Json, n: nat, doc: Json)
    requires n <= |Entries(j)|
    requires forall k :: k in Texts(Entries(j)) ==> k in FlattenInto([], j, map[])
    ensures UnflattenKeys(FlattenInto([], j, map[]), Texts(Entries(j))[n..], doc) == Replay(doc, Entries(j)[n..])
    decreases |Entries(j)| - n
  {
    hide Entries;
    hide ToString;
    hide FlattenInto;
    hide UnflattenKeys;
    hide CreateAt;
    hide Split;
    var flat, es := FlattenInto([], j, map[]), Entries(j);
    UnflattenStep(flat, Texts(es), n, doc);
    if n < |es| {
      EntryStored(j, n);
      SplitToString(es[n].path);
      assert es[n..][0] == es[n] && es[n..][1..] == es[n + 1..];
      var next := CreateAt(doc, es[n].path, es[n].value);
      if next.Ok? {
        UnflattenReplays(j, n + 1, next.value);
      }
    }
  }

  lemma UnflattenFlatten(j: Json)
    ensures Unflatten(Flatten(j)) == Replay(Null, Entries(j))
  {
    hide FlattenInto;
    hide UnflattenKeys;
    hide Entries;
    hide Replay;
    hide Texts;
    hide SortedKeys;
    var flat, es := FlattenInto([], j, map[]), Entries(j);
    ReplayOrder(j);
    assert forall k :: k in Texts(es) ==> k in flat by {
      assert forall k :: k in SortedKeys(flat.Keys) ==> k in flat.Keys;
    }
    UnflattenReplays(j, 0, Null);
    assert Texts(es)[0..] == Texts(es) && es[0..] == es;
  }

  // ---------- replaying below one child ----------

  lemma {:induction false} ReplayConcat(doc: Json, a: seq<Entry>, b: seq<Entry>)
    ensures Replay(doc, a + b) == (if Replay(doc, a).Ok? then Replay(Replay(doc, a).value, b) else Replay(doc, a))
    decreases |a|
  {
    hide CreateAt;
    if a == [] {
      assert a + b == b;
    } else {
      assert (a + b)[1..] == a[1..] + b;
      var next := CreateAt(doc, a[0].path, a[0].value);
      if next.Ok? {
        ReplayConcat(next.value, a[1..], b);
      }
    }
  }

  lemma UnderStep(t: Bytes, es: seq<Entry>)
    requires es != []
    ensures Under(t, es) != [] && Under(t, es)[0] == Entry([t] + es[0].path, es[0].value)
    ensures Under(t, es)[1..] == Under(t, es[1..])
  {
  }

  lemma {:induction false} ReplayUnderObject(m: map<Bytes, Json>, t: Bytes, es: seq<Entry>)
    requires es != []
    ensures var r := Replay(if t in m then m[t] else Null, es);
            Replay(Object(m), Under(t, es)) == if r.Ok? then Ok(Object(m[t := r.value])) else r
    decreases |es|
  {
    hide Under;
    UnderStep(t, es);
    var path := es[0].path;
    assert ([t] + path)[0] == t && ([t] + path)[1..] == path;
    var c := CreateAt(if t in m then m[t] else Null, path, es[0].value);
    if c.Ok? {
      var m' := m[t := c.value];
      if |es| == 1 {
        assert es[1..] == [] && Under(t, es[1..]) == [];
      } else {
        ReplayUnderObject(m', t, es[1..]);
        var r := Replay(c.value, es[1..]);
        assert r.Ok? ==> m'[t := r.value] == m[t := r.value];
      }
    }
  }

  lemma {:induction false} ReplayUnderArray(a: seq<Json>, t: Bytes, i: nat, es: seq<Entry>)
    requires es != [] && Stoi(t) == Ok(i)
    ensures var full := Padded(a, i + 1);
            var r := Replay(full[i], es);
            Replay(Array(a), Under(t, es)) == if r.Ok? then Ok(Array(full[i := r.value])) else r
    decreases |es|
  {
    hide Under;
    hide Stoi;
    UnderStep(t, es);
    var path := es[0].path;
    assert ([t] + path)[0] == t && ([t] + path)[1..] == path;
    var full := Padded(a, i + 1);
    var c := CreateAt(full[i], path, es[0].value);
    if c.Ok? {
      var a' := full[i := c.value];
      if |es| == 1 {
        assert es[1..] == [] && Under(t, es[1..]) == [];
      } else {
        ReplayUnderArray(a', t, i, es[1..]);
        assert Padded(a', i + 1) == a';
        var r := Replay(c.value, es[1..]);
        assert r.Ok? ==> a'[i := r.value] == full[i := r.value];
      }
    }
  }

  /** The first token decides what a null turns into. */
  function Start(t: Bytes): Json {
    if t == ZERO_TOKEN then Array([]) else Object(map[])
  }

  lemma ReplayStart(t: Bytes, es: seq<Entry>, rest: seq<Entry>)
    requires es != []
    ensures Replay(Null, Under(t, es) + rest) == Replay(Start(t), Under(t, es) + rest)
  {
    hide Under;
    UnderStep(t, es);
    var path, v := es[0].path, es[0].value;
    assert ([t] + path)[0] == t && ([t] + path)[1..] == path;
    var all := Under(t, es) + rest;
    assert all[0] == Entry([t] + path, v);
    if t == ZERO_TOKEN {
      assert ZERO_TOKEN == Decimal(0);
      StoiDecimal(0);
      var c := CreateAt(Null, path, v);
      assert Padded([], 1) == [Null];
      assert c.Ok? ==> [Null][0 := c.value] == [c.value];
    }
  }

  /** An array on the way never turns into anything else. */
  lemma {:induction false} ArrayStays(a: seq<Json>, es: seq<Entry>)
    requires forall n :: 0 <= n < |es| ==> es[n].path != []
    ensures Replay(Array(a), es).Ok? ==> Replay(Array(a), es).value.Array?
    decreases |es|
  {
    hide Stoi;
    if es != [] {
      var next := CreateAt(Array(a), es[0].path, es[0].value);
      if next.Ok? {
        ArrayStays(next.value.elems, es[1..]);
      }
    }
  }

  // ---------- objects ----------

  /** What replaying a value's entries from null gives. */
  function Rebuilt(j: Json): Result<Json> {
    Replay(Null, Entries(j))
  }

  lemma EntriesNonempty(j: Json)
    ensures Entries(j) != []
    decreases j
  {
    hide Entries;
    hide Order;
    hide Blocks;
    hide Tokens;
    hide Kid;
    hide InOrder;
    EntriesOf(j);
    if !IsLeaf(j) {
      BlocksStep(j, Order(j));
      EntriesNonempty(Kid(j, Order(j)[0]));
    }
  }

  lemma ObjectBlock(j: Json, ts: seq<Bytes>, m: map<Bytes, Json>)
    requires InOrder(j, ts) && ts != [] && ts[0] !in m
    ensures ts[0] in Tokens(j) && InOrder(j, ts[1..])
    ensures var r := Rebuilt(Kid(j, ts[0]));
            Replay(Object(m), Blocks(j, ts)) ==
            if r.Ok? then Replay(Object(m[ts[0] := r.value]), Blocks(j, ts[1..])) else r
  {
    hide Entries;
    hide Blocks;
    hide Under;
    hide Replay;
    hide InOrder;
    hide Tokens;
    hide Kid;
    BlocksStep(j, ts);
    var es := Entries(Kid(j, ts[0]));
    EntriesNonempty(Kid(j, ts[0]));
    ReplayConcat(Object(m), Under(ts[0], es), Blocks(j, ts[1..]));
    ReplayUnderObject(m, ts[0], es);
  }

  function WithKids(j: Json, ts: seq<Bytes>, m: map<Bytes, Json>): map<Bytes, Json>
    requires forall t :: t in ts ==> t in Tokens(j)
  {
    m + map t | t in ts :: Kid(j, t)
  }

  /** If every child is restored, so are all members. */
  lemma {:induction false} ObjectForward(j: Json, ts: seq<Bytes>, m: map<Bytes, Json>)
    requires InOrder(j, ts) && forall t :: t in ts ==> t !in m && Rebuilt(Kid(j, t)) == Ok(Kid(j, t))
    ensures Replay(Object(m), Blocks(j, ts)) == Ok(Object(WithKids(j, ts, m)))
    decreases |ts|
  {
    hide *;
    InOrderTokens(j, ts);
    if ts == [] {
      NoBlocks(j);
      ReplayNone(Object(m));
      NoKids(j, m);
    } else {
      InOrderTail(j, ts);
      ObjectBlock(j, ts, m);
      var m' := m[ts[0] := Kid(j, ts[0])];
      ObjectForward(j, ts[1..], m');
      WithKidsStep(j, ts, m);
    }
  }

  lemma NoKids(j: Json, m: map<Bytes, Json>)
    ensures WithKids(j, [], m) == m
  {
  }

  lemma WithKidsAt(j: Json, ts: seq<Bytes>, m: map<Bytes, Json>)
    requires forall t :: t in ts ==> t in Tokens(j)
    ensures forall t :: t in WithKids(j, ts, m) <==> t in m || t in ts
    ensures forall t :: t in WithKids(j, ts, m) ==> WithKids(j, ts, m)[t] == if t in ts then Kid(j, t) else m[t]
  {
    hide Tokens;
    hide Kid;
  }

  lemma WithKidsStep(j: Json, ts: seq<Bytes>, m: map<Bytes, Json>)
    requires InOrder(j, ts) && ts != []
    ensures (forall t :: t in ts ==> t in Tokens(j)) && forall t :: t in ts[1..] ==> t in Tokens(j)
    ensures WithKids(j, ts[1..], m[ts[0] := Kid(j, ts[0])]) == WithKids(j, ts, m)
  {
    hide Tokens;
    hide Kid;
    hide InOrder;
    hide WithKids;
    InOrderTokens(j, ts);
    InOrderTail(j, ts);
    WithKidsAt(j, ts, m);
    WithKidsAt(j, ts[1..], m[ts[0] := Kid(j, ts[0])]);
    assert forall t :: t in ts <==> t == ts[0] || t in ts[1..];
  }

  lemma {:induction false} ObjectKeeps(j: Json, ts: seq<Bytes>, m: map<Bytes, Json>, u: Bytes)
    requires InOrder(j, ts) && (forall t :: t in ts ==> t !in m) && u in m
    requires Replay(Object(m), Blocks(j, ts)).Ok?
    ensures var d := Replay(Object(m), Blocks(j, ts)).value;
            d.Object? && u in d.members && d.members[u] == m[u]
    decreases |ts|
  {
    hide *;
    if ts == [] {
      NoBlocks(j);
      ReplayNone(Object(m));
    } else {
      InOrderTail(j, ts);
      ObjectBlock(j, ts, m);
      ObjectKeeps(j, ts[1..], m[ts[0] := Rebuilt(Kid(j, ts[0])).value], u);
    }
  }

  lemma ReplayNone(doc: Json)
    ensures Replay(doc, []) == Ok(doc)
  {
  }

  /** A member of the result is the rebuilt child. */
  lemma {:induction false} ObjectBackward(j: Json, ts: seq<Bytes>, m: map<Bytes, Json>, u: Bytes)
    requires InOrder(j, ts) && (forall t :: t in ts ==> t !in m) && u in ts && u in Tokens(j)
    requires Replay(Object(m), Blocks(j, ts)).Ok?
    ensures var d := Replay(Object(m), Blocks(j, ts)).value;
            d.Object? && u in d.members && Rebuilt(Kid(j, u)) == Ok(d.members[u])
    decreases |ts|
  {
    hide *;
    InOrderTail(j, ts);
    ObjectBlock(j, ts, m);
    var m' := m[ts[0] := Rebuilt(Kid(j, ts[0])).value];
    if u == ts[0] {
      ObjectKeeps(j, ts[1..], m', u);
    } else {
      ObjectBackward(j, ts[1..], m', u);
    }
  }

  // ---------- arrays ----------

  /** Position `i` has not been filled yet. */
  predicate Vacant(a: seq<Json>, i: nat) {
    i >= |a| || a[i] == Null
  }

  lemma ArrayBlock(j: Json, ts: seq<Bytes>, a: seq<Json>, i: nat)
    requires j.Array? && |j.elems| <= 0x8000_0000 && InOrder(j, ts) && ts != []
    requires ts[0] == Decimal(i) && Vacant(a, i) && i < |j.elems|
    ensures Decimal(i) in Tokens(j) && Kid(j, Decimal(i)) == j.elems[i] && InOrder(j, ts[1..])
    ensures var r := Rebuilt(j.elems[i]);
            Replay(Array(a), Blocks(j, ts)) ==
            if r.Ok? then Replay(Array(Padded(a, i + 1)[i := r.value]), Blocks(j, ts[1..])) else r
  {
    hide Entries;
    hide Blocks;
    hide Under;
    hide Replay;
    hide InOrder;
    hide Tokens;
    hide Kid;
    hide Stoi;
    hide Decimal;
    BlocksStep(j, ts);
    ArrayKid(j, i);
    StoiDecimal(i);
    var es := Entries(j.elems[i]);
    EntriesNonempty(j.elems[i]);
    ReplayConcat(Array(a), Under(ts[0], es), Blocks(j, ts[1..]));
    ReplayUnderArray(a, ts[0], i, es);
    assert Padded(a, i + 1)[i] == Null;
  }

  /** Elements whose token is not among `ts` are in place; the others are vacant. */
  predicate Partly(j: Json, ts: seq<Bytes>, a: seq<Json>)
    requires j.Array?
  {
    |a| <= |j.elems| &&
    forall i :: 0 <= i < |j.elems| ==>
      if Decimal(i) in ts then Vacant(a, i) else i < |a| && a[i] == j.elems[i]
  }

  lemma PartlyStep(j: Json, ts: seq<Bytes>, a: seq<Json>, i: nat)
    requires j.Array? && i < |j.elems| && InOrder(j, ts) && ts != [] && ts[0] == Decimal(i) && Partly(j, ts, a)
    ensures Partly(j, ts[1..], Padded(a, i + 1)[i := j.elems[i]])
  {
    hide Decimal;
    hide Mark;
    hide Less;
    hide Tokens;
    hide Kid;
    InOrderTail(j, ts);
    var b := Padded(a, i + 1)[i := j.elems[i]];
    forall n | 0 <= n < |j.elems|
      ensures if Decimal(n) in ts[1..] then Vacant(b, n) else n < |b| && b[n] == j.elems[n]
    {
      if Decimal(n) == Decimal(i) {
        DecimalInjective(n, i);
      }
      assert n < |a| && n != i ==> b[n] == a[n];
    }
  }

  /** If every element is restored, so is the array. */
  lemma {:induction false} ArrayForward(j: Json, ts: seq<Bytes>, a: seq<Json>)
    requires j.Array? && |j.elems| <= 0x8000_0000 && InOrder(j, ts) && Partly(j, ts, a)
    requires forall i :: 0 <= i < |j.elems| ==> Rebuilt(j.elems[i]) == Ok(j.elems[i])
    ensures Replay(Array(a), Blocks(j, ts)) == Ok(j)
    decreases |ts|
  {
    hide Rebuilt;
    hide Blocks;
    hide Replay;
    hide Decimal;
    hide DigitsValue;
    hide Padded;
    hide Mark;
    hide Less;
    if ts == [] {
      NoBlocks(j);
      ReplayNone(Array(a));
      forall i | 0 <= i < |j.elems| ensures i < |a| && a[i] == j.elems[i] {
        assert Decimal(i) !in ts;
      }
      assert Decimal(|a|) !in ts;
      assert a == j.elems;
    } else {
      assert ts[0] in ts;
      TokenIndex(j, ts[0]);
      var i := DigitsValue(ts[0]);
      ArrayBlock(j, ts, a, i);
      PartlyStep(j, ts, a, i);
      ArrayForward(j, ts[1..], Padded(a, i + 1)[i := j.elems[i]]);
    }
  }

  predicate AllVacant(j: Json, ts: seq<Bytes>, a: seq<Json>)
    requires j.Array?
  {
    forall i :: 0 <= i < |j.elems| && Decimal(i) in ts ==> Vacant(a, i)
  }

  lemma VacantStep(j: Json, ts: seq<Bytes>, a: seq<Json>, i: nat, v: Json)
    requires j.Array? && i < |j.elems| && InOrder(j, ts) && ts != [] && ts[0] == Decimal(i) && AllVacant(j, ts, a)
    ensures AllVacant(j, ts[1..], Padded(a, i + 1)[i := v])
  {
    hide Decimal;
    hide Mark;
    hide Less;
    hide Tokens;
    hide Kid;
    InOrderTail(j, ts);
    var b := Padded(a, i + 1)[i := v];
    forall n | 0 <= n < |j.elems| && Decimal(n) in ts[1..] ensures Vacant(b, n) {
      assert n < |a| && n != i ==> b[n] == a[n];
    }
  }

  lemma {:induction false} ArrayKeeps(j: Json, ts: seq<Bytes>, a: seq<Json>, n: nat)
    requires j.Array? && |j.elems| <= 0x8000_0000 && InOrder(j, ts) && AllVacant(j, ts, a)
    requires n < |a| && n < |j.elems| && Decimal(n) !in ts && Replay(Array(a), Blocks(j, ts)).Ok?
    ensures var d := Replay(Array(a), Blocks(j, ts)).value;
            d.Array? && n < |d.elems| && d.elems[n] == a[n]
    decreases |ts|
  {
    hide Rebuilt;
    hide Blocks;
    hide Replay;
    hide Decimal;
    hide DigitsValue;
    hide Mark;
    hide Less;
    if ts == [] {
      NoBlocks(j);
      ReplayNone(Array(a));
    } else {
      assert ts[0] in ts;
      TokenIndex(j, ts[0]);
      var i := DigitsValue(ts[0]);
      ArrayBlock(j, ts, a, i);
      var v := Rebuilt(j.elems[i]).value;
      VacantStep(j, ts, a, i, v);
      var b := Padded(a, i + 1)[i := v];
      assert b[n] == a[n];
      ArrayKeeps(j, ts[1..], b, n);
    }
  }

  /** An element of the result is the rebuilt element. */
  lemma {:induction false} ArrayBackward(j: Json, ts: seq<Bytes>, a: seq<Json>, n: nat)
    requires j.Array? && |j.elems| <= 0x8000_0000 && InOrder(j, ts) && AllVacant(j, ts, a)
    requires n < |j.elems| && Decimal(n) in ts && Replay(Array(a), Blocks(j, ts)).Ok?
    ensures var d := Replay(Array(a), Blocks(j, ts)).value;
            d.Array? && n < |d.elems| && Rebuilt(j.elems[n]) == Ok(d.elems[n])
    decreases |ts|
  {
    hide Rebuilt;
    hide Blocks;
    hide Replay;
    hide Decimal;
    hide DigitsValue;
    hide Mark;
    hide Less;
    assert ts[0] in ts;
    TokenIndex(j, ts[0]);
    InOrderTail(j, ts);
    var i := DigitsValue(ts[0]);
    ArrayBlock(j, ts, a, i);
    var v := Rebuilt(j.elems[i]).value;
    VacantStep(j, ts, a, i, v);
    var b := Padded(a, i + 1)[i := v];
    if Decimal(n) == ts[0] {
      DecimalInjective(n, i);
      ArrayKeeps(j, ts[1..], b, n);
    } else {
      ArrayBackward(j, ts[1..], b, n);
    }
  }

  // ---------- the exact condition ----------

  /** The key "0" is the first one replayed. */
  predicate ZeroFirst(m: map<Bytes, Json>) {
    ZERO_TOKEN in m &&
    forall k :: k in m ==> k == ZERO_TOKEN || Less(Mark(ZERO_TOKEN, m[ZERO_TOKEN]), Mark(k, m[k]))
  }

  /** No empty container, and no object that is rebuilt starting with the key "0". */
  predicate Rebuildable(j: Json) {
    match j
    case Array(es) => es != [] && forall i :: 0 <= i < |es| ==> Rebuildable(es[i])
    case Object(m) => m != map[] && !ZeroFirst(m) && forall k :: k in m ==> Rebuildable(m[k])
    case _ => true
  }

  lemma OrderFirst(j: Json, t: Bytes)
    requires t in Tokens(j) && forall u :: u in Tokens(j) ==> u == t || Less(Mark(t, Kid(j, t)), Mark(u, Kid(j, u)))
    ensures Order(j) != [] && Order(j)[0] == t
  {
    hide Mark;
    hide Less;
    hide Tokens;
    hide Kid;
    hide Order;
    OrderIs(j);
    var ts := Order(j);
    if ts[0] != t {
      var n :| 0 <= n < |ts| && ts[n] == t;
      LessTransitive(Mark(ts[0], Kid(j, ts[0])), Mark(t, Kid(j, t)), Mark(ts[0], Kid(j, ts[0])));
      LessIrreflexive(Mark(ts[0], Kid(j, ts[0])));
    }
  }

  lemma ZeroFirstIs(j: Json)
    requires j.Object? && !IsLeaf(j)
    ensures Order(j) != [] && (Order(j)[0] == ZERO_TOKEN <==> ZeroFirst(j.members))
  {
    hide Mark;
    hide Less;
    hide Order;
    ObjectTokens(j);
    EntriesOf(j);
    OrderIs(j);
    if ZeroFirst(j.members) {
      OrderFirst(j, ZERO_TOKEN);
    }
    if Order(j)[0] == ZERO_TOKEN {
      var ts := Order(j);
      assert ts[0] in ts;
      forall k | k in j.members
        ensures k == ZERO_TOKEN || Less(Mark(ZERO_TOKEN, j.members[ZERO_TOKEN]), Mark(k, j.members[k]))
      {
        var n :| 0 <= n < |ts| && ts[n] == k;
      }
    }
  }

  /** An array always starts with its element 0. */
  lemma ArrayFirst(j: Json)
    requires j.Array? && j.elems != []
    ensures Order(j) != [] && Order(j)[0] == ZERO_TOKEN
  {
    hide Order;
    hide Escape;
    assert Decimal(0) == ZERO_TOKEN;
    ArrayKid(j, 0);
    forall u | u in Tokens(j) && u != ZERO_TOKEN
      ensures Less(Mark(ZERO_TOKEN, Kid(j, ZERO_TOKEN)), Mark(u, Kid(j, u)))
    {
      TokenIndex(j, u);
      EscapeDigits(u);
      EscapeDigits(ZERO_TOKEN);
    }
    OrderFirst(j, ZERO_TOKEN);
  }

  lemma {:induction false} RebuildObject(j: Json)
    requires j.Object? && !IsLeaf(j) && Indexable(j)
    ensures Rebuilt(j) == Ok(j) <==> Rebuildable(j)
    decreases j, 0
  {
    hide *;
    ObjectTokens(j);
    IndexableParts(j);
    RebuildableMembers(j);
    EntriesOf(j);
    OrderIs(j);
    ZeroFirstIs(j);
    var ts := Order(j);
    RebuiltStart(j);
    if ts[0] == ZERO_TOKEN {
      StartIs(ZERO_TOKEN);
      BlocksBelow(j, ts);
      ArrayStays([], Blocks(j, ts));
    } else {
      StartIs(ts[0]);
      forall k | k in j.members ensures Rebuilt(j.members[k]) == Ok(j.members[k]) <==> Rebuildable(j.members[k]) {
        Rebuild(j.members[k]);
      }
      if forall k :: k in j.members ==> Rebuilt(j.members[k]) == Ok(j.members[k]) {
        ObjectForward(j, ts, map[]);
        AllKids(j);
      }
      if Rebuilt(j) == Ok(j) {
        forall k | k in j.members ensures Rebuilt(j.members[k]) == Ok(j.members[k]) {
          ObjectBackward(j, ts, map[], k);
        }
      }
    }
  }

  lemma AllKids(j: Json)
    requires j.Object?
    ensures (forall t :: t in Order(j) ==> t in Tokens(j)) && WithKids(j, Order(j), map[]) == j.members
  {
    hide Order;
    OrderIs(j);
    assert WithKids(j, Order(j), map[]) == j.members;
  }

  lemma StartIs(t: Bytes)
    ensures t == ZERO_TOKEN ==> Start(t) == Array([])
    ensures t != ZERO_TOKEN ==> Start(t) == Object(map[])
  {
  }

  lemma RebuildableMembers(j: Json)
    requires j.Object? && !IsLeaf(j)
    ensures Rebuildable(j) <==> !ZeroFirst(j.members) && forall k :: k in j.members ==> Rebuildable(j.members[k])
  {
  }

  lemma BlocksBelow(j: Json, ts: seq<Bytes>)
    requires !IsLeaf(j) && InOrder(j, ts)
    ensures forall n :: 0 <= n < |Blocks(j, ts)| ==> Blocks(j, ts)[n].path != []
  {
    hide *;
    InOrderTokens(j, ts);
    forall n | 0 <= n < |Blocks(j, ts)| ensures Blocks(j, ts)[n].path != [] {
      BlockIsLeaf(j, ts, n);
    }
  }

  lemma RebuiltStart(j: Json)
    requires !IsLeaf(j)
    ensures InOrder(j, Order(j)) && Order(j) != []
    ensures Rebuilt(j) == Replay(Start(Order(j)[0]), Blocks(j, Order(j)))
  {
    hide Entries;
    hide Replay;
    hide Order;
    hide Blocks;
    hide Under;
    hide Start;
    hide InOrder;
    hide Tokens;
    hide Kid;
    hide IsLeaf;
    EntriesOf(j);
    var ts := Order(j);
    BlocksStep(j, ts);
    EntriesNonempty(Kid(j, ts[0]));
    ReplayStart(ts[0], Entries(Kid(j, ts[0])), Blocks(j, ts[1..]));
  }

  lemma {:induction false} RebuildArray(j: Json)
    requires j.Array? && !IsLeaf(j) && Indexable(j)
    ensures Rebuilt(j) == Ok(j) <==> Rebuildable(j)
    decreases j, 0
  {
    hide *;
    IndexableParts(j);
    RebuildableElems(j);
    OrderIs(j);
    ArrayFirst(j);
    RebuiltStart(j);
    StartIs(ZERO_TOKEN);
    var ts := Order(j);
    NothingYet(j);
    forall i | 0 <= i < |j.elems| ensures Rebuilt(j.elems[i]) == Ok(j.elems[i]) <==> Rebuildable(j.elems[i]) {
      Rebuild(j.elems[i]);
    }
    if forall i :: 0 <= i < |j.elems| ==> Rebuilt(j.elems[i]) == Ok(j.elems[i]) {
      ArrayForward(j, ts, []);
    }
    if Rebuilt(j) == Ok(j) {
      forall i | 0 <= i < |j.elems| ensures Rebuilt(j.elems[i]) == Ok(j.elems[i]) {
        ArrayKid(j, i);
        ArrayBackward(j, ts, [], i);
      }
    }
  }

  lemma NothingYet(j: Json)
    requires j.Array?
    ensures Partly(j, Order(j), []) && AllVacant(j, Order(j), [])
  {
    hide Order;
    hide Decimal;
    OrderIs(j);
    forall i | 0 <= i < |j.elems| ensures Decimal(i) in Order(j) {
      ArrayKid(j, i);
    }
  }

  lemma RebuildableElems(j: Json)
    requires j.Array? && !IsLeaf(j)
    ensures j.elems != []
    ensures Rebuildable(j) <==> forall i :: 0 <= i < |j.elems| ==> Rebuildable(j.elems[i])
  {
  }

  lemma {:induction false} Rebuild(j: Json)
    requires Indexable(j)
    ensures Rebuilt(j) == Ok(j) <==> Rebuildable(j)
    decreases j, 1
  {
    hide Rebuilt;
    if IsLeaf(j) {
      RebuiltLeaf(j);
    } else if j.Array? {
      RebuildArray(j);
    } else {
      RebuildObject(j);
    }
  }

  lemma RebuiltLeaf(j: Json)
    requires IsLeaf(j)
    ensures Rebuilt(j) == Ok(LeafValue(j))
  {
    hide Blocks;
    hide Order;
    hide Entries;
    EntriesOf(j);
    var es, v := Entries(j), LeafValue(j);
    assert es[1..] == [];
    assert CreateAt(Null, [], v) == Ok(v) && Replay(v, []) == Ok(v);
  }

  /** Whatever place is created, its index was within reach of std::stoi. */
  lemma {:induction false} CreateIndexable(j: Json, ts: seq<Bytes>, v: Json)
    requires Indexable(j) && Indexable(v) && CreateAt(j, ts, v).Ok?
    ensures Indexable(CreateAt(j, ts, v).value)
    decreases |ts|
  {
    if ts != [] {
      match j
      case Null => CreateIndexable(Null, ts[1..], v);
      case Object(m) => CreateIndexable(if ts[0] in m then m[ts[0]] else Null, ts[1..], v);
      case Array(es) =>
        StoiRange(ts[0]);
        var i := Stoi(ts[0]).value;
        var full := Padded(es, i + 1);
        assert |full| <= 0x8000_0000;
        CreateIndexable(full[i], ts[1..], v);
    }
  }

  lemma StoiRange(s: Bytes)
    ensures Stoi(s).Ok? ==> Stoi(s).value < 0x8000_0000
  {
    hide SkipSpaces;
    hide DigitPrefix;
    hide DigitsValue;
  }

  lemma {:induction false} KeysIndexable(flat: map<Bytes, Json>, ks: seq<Bytes>, doc: Json)
    requires (forall k :: k in ks ==> k in flat) && Indexable(doc) && UnflattenKeys(flat, ks, doc).Ok?
    ensures Indexable(UnflattenKeys(flat, ks, doc).value)
    decreases |ks|
  {
    hide CreateAt;
    hide Split;
    if ks != [] {
      var ts := Split(ks[0]).value;
      CreateIndexable(doc, ts, flat[ks[0]]);
      KeysIndexable(flat, ks[1..], CreateAt(doc, ts, flat[ks[0]]).value);
    }
  }

  /** Nothing that `unflatten` returns, from any object at all, holds an array of more than 2^31 elements. */
  lemma UnflattenIndexable(j: Json)
    requires Unflatten(j).Ok?
    ensures Indexable(Unflatten(j).value)
  {
    hide UnflattenKeys;
    hide Ascending;
    KeysIndexable(j.members, SortedKeys(j.members.Keys), Null);
  }

  /**
    `unflatten(flatten(j))` is `j` exactly when `j` holds no empty container, no
    object whose first replayed key is "0", and no array of more than 2^31 elements.
   */
  lemma FlattenRoundTrip(j: Json)
    ensures Unflatten(Flatten(j)) == Ok(j) <==> Rebuildable(j) && Indexable(j)
  {
    hide *;
    if Indexable(j) {
      UnflattenFlatten(j);
      RebuiltIs(j);
      Rebuild(j);
    } else if Unflatten(Flatten(j)) == Ok(j) {
      UnflattenIndexable(Flatten(j));
    }
  }

  lemma RebuiltIs(j: Json)
    ensures Rebuilt(j) == Replay(Null, Entries(j))
  {
  }

  /** The documented note is broader than the code: {"0": true} holds no empty container. */
  lemma ZeroKeyFails()
    ensures var j := Object(map[ZERO_TOKEN := Bool(true)]);
            !Rebuildable(j) && Unflatten(Flatten(j)) != Ok(j)
  {
    hide Flatten;
    hide Unflatten;
    FlattenRoundTrip(Object(map[ZERO_TOKEN := Bool(true)]));
  }
}
