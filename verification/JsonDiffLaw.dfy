/**
  The law of edit scripts. `Merged` is what a script leaves behind; running
  `diff(s, t, path)` in any document that holds `s` at `path` puts `Merged(s, t)`
  there and nothing else changes, and `Merged(s, t)` is `==` to `t` exactly when
  `t` holds no NaN. std::stoi bounds the indices that a script can name.
 */
module JsonDiffLaw {
  import opened JsonValue
  import opened JsonPointer
  import opened JsonPatch
  import opened JsonDiff

  /** The target, except that parts already `==` to it keep the source's representation. */
  function Merged(s: Json, t: Json): Json {
    if JsonEq(s, t) then s
    else if s.Array? && t.Array? then
      Array(seq(|t.elems|, i requires 0 <= i < |t.elems| =>
        if i < |s.elems| then Merged(s.elems[i], t.elems[i]) else t.elems[i]))
    else if s.Object? && t.Object? then
      Object(map k | k in t.members ::
        if k in s.members then Merged(s.members[k], t.members[k]) else t.members[k])
    else t
  }

  lemma {:induction false} MergedEqTarget(s: Json, t: Json)
    ensures JsonEq(Merged(s, t), t) <==> NaNFree(t)
  {
    if JsonEq(s, t) {
      EqNeedsNaNFree(s, t);
    } else if s.Array? && t.Array? {
      var r := Merged(s, t);
      forall i | 0 <= i < |t.elems| ensures JsonEq(r.elems[i], t.elems[i]) <==> NaNFree(t.elems[i]) {
        if i < |s.elems| {
          MergedEqTarget(s.elems[i], t.elems[i]);
        } else {
          EqReflexive(t.elems[i]);
        }
      }
    } else if s.Object? && t.Object? {
      var r := Merged(s, t);
      forall k | k in t.members ensures JsonEq(r.members[k], t.members[k]) <==> NaNFree(t.members[k]) {
        if k in s.members {
          MergedEqTarget(s.members[k], t.members[k]);
        } else {
          EqReflexive(t.members[k]);
        }
      }
    } else {
      EqReflexive(t);
    }
  }

  // ---------- what std::stoi can address ----------

  /** A pair of elements at index `i` that the script can deal with. */
  predicate ElemOk(s: Json, t: Json, i: nat)
    decreases s, 1
  {
    JsonEq(s, t) || (i < 0x8000_0000 && Addressable(s, t))
  }

  /**
    No index of 2^31 or more has to be named: surplus elements end below it, and
    so do the common elements that differ.
   */
  predicate Addressable(s: Json, t: Json)
    decreases s, 0
  {
    if JsonEq(s, t) then true
    else if s.Array? && t.Array? then
      (|s.elems| != |t.elems| ==> |s.elems| <= 0x8000_0000 && |t.elems| <= 0x8000_0000)
      && forall i :: 0 <= i < Min(|s.elems|, |t.elems|) ==> ElemOk(s.elems[i], t.elems[i], i)
    else if s.Object? && t.Object? then
      forall k :: k in s.members && k in t.members ==> Addressable(s.members[k], t.members[k])
    else true
  }

  predicate ElemsOk(s: Json, t: Json)
    requires s.Array? && t.Array?
  {
    forall i :: 0 <= i < Min(|s.elems|, |t.elems|) ==> ElemOk(s.elems[i], t.elems[i], i)
  }

  lemma AddressableParts(s: Json, t: Json)
    requires Addressable(s, t) && !JsonEq(s, t)
    ensures s.Array? && t.Array? ==>
              ElemsOk(s, t) && (|s.elems| != |t.elems| ==> |s.elems| <= 0x8000_0000 && |t.elems| <= 0x8000_0000)
    ensures s.Object? && t.Object? ==>
              forall k :: k in s.members && k in t.members ==> Addressable(s.members[k], t.members[k])
  {
    hide JsonEq;
    hide ElemOk;
  }

  /** Documents without huge arrays are always addressable. */
  lemma {:induction false} IndexableAddressable(s: Json, t: Json)
    requires Indexable(s) && Indexable(t)
    ensures Addressable(s, t)
  {
    hide JsonEq;
    if s.Array? && t.Array? {
      forall i | 0 <= i < Min(|s.elems|, |t.elems|) ensures ElemOk(s.elems[i], t.elems[i], i) {
        IndexableAddressable(s.elems[i], t.elems[i]);
      }
    } else if s.Object? && t.Object? {
      forall k | k in s.members && k in t.members ensures Addressable(s.members[k], t.members[k]) {
        IndexableAddressable(s.members[k], t.members[k]);
      }
    }
  }

  // ---------- single operations ----------

  lemma ApplyReplace(doc: Json, ts: seq<Bytes>, v: Json)
    ensures ApplyOp(doc, ReplaceOp(ToString(ts), v)) == EditAt(doc, ts, Put(v))
  {
    hide Split;
    hide EditAt;
    hide ToString;
    SplitToString(ts);
  }

  lemma ApplyAdd(doc: Json, ts: seq<Bytes>, v: Json)
    ensures ApplyOp(doc, AddOp(ToString(ts), v)) == OperationAdd(doc, ts, v)
  {
    hide Split;
    hide OperationAdd;
    hide ToString;
    SplitToString(ts);
  }

  lemma ApplyRemove(doc: Json, ts: seq<Bytes>)
    ensures ApplyOp(doc, RemoveOp(ToString(ts))) == OperationRemove(doc, ts)
  {
    hide Split;
    hide OperationRemove;
    hide ToString;
    SplitToString(ts);
  }

  /** An edit of the value at a resolvable pointer. */
  lemma EditHere(doc: Json, p: seq<Bytes>, e: Edit)
    requires Resolve(doc, p).Ok? && Perform(Resolve(doc, p).value, e).Ok?
    ensures EditAt(doc, p, e) == Ok(PutAt(doc, p, Perform(Resolve(doc, p).value, e).value))
  {
    hide Perform;
    hide PutAt;
    hide Resolve;
    assert p + [] == p;
    EditConcat(doc, p, [], e);
  }

  lemma AddHere(doc: Json, p: seq<Bytes>, last: Bytes, v: Json)
    requires Resolve(doc, p).Ok? && Perform(Resolve(doc, p).value, AddChild(last, v)).Ok?
    ensures ApplyOp(doc, AddOp(ToString(p + [last]), v)) ==
            Ok(PutAt(doc, p, Perform(Resolve(doc, p).value, AddChild(last, v)).value))
  {
    hide Perform;
    hide PutAt;
    hide ApplyOp;
    hide EditAt;
    hide EditUnchecked;
    hide ToString;
    var ts := p + [last];
    ApplyAdd(doc, ts, v);
    assert ts[..|ts| - 1] == p;
    if p != [] {
      assert [ts[0]] + p[1..] == p;
      assert Resolve(doc, [ts[0]]).Ok?;
    }
    UncheckedIsChecked(doc, p, AddChild(last, v));
    EditHere(doc, p, AddChild(last, v));
  }

  lemma RemoveHere(doc: Json, p: seq<Bytes>, last: Bytes)
    requires Resolve(doc, p).Ok? && Perform(Resolve(doc, p).value, RemoveChild(last)).Ok?
    ensures ApplyOp(doc, RemoveOp(ToString(p + [last]))) ==
            Ok(PutAt(doc, p, Perform(Resolve(doc, p).value, RemoveChild(last)).value))
  {
    hide Perform;
    hide PutAt;
    hide ApplyOp;
    hide EditAt;
    hide ToString;
    hide Resolve;
    var ts := p + [last];
    ApplyRemove(doc, ts);
    assert ts[..|ts| - 1] == p;
    EditHere(doc, p, RemoveChild(last));
  }

  lemma RunOne(doc: Json, op: Json, rest: seq<Json>)
    requires ApplyOp(doc, op).Ok?
    ensures RunOps(doc, [op] + rest) == RunOps(ApplyOp(doc, op).value, rest)
  {
    hide ApplyOp;
    assert ([op] + rest)[1..] == rest;
  }

  // ---------- arrays: surplus elements ----------

  /** Removals in descending order keep the remaining indices stable. */
  lemma {:induction false} RunRemoves(doc: Json, p: seq<Bytes>, es: seq<Json>, lo: nat)
    requires Resolve(doc, p) == Ok(Array(es)) && lo <= |es| && (lo < |es| ==> |es| <= 0x8000_0000)
    ensures RunOps(doc, RemoveOps(ToString(p), lo, |es|)) == Ok(PutAt(doc, p, Array(es[..lo])))
    decreases |es|
  {
    hide ApplyOp;
    hide ToString;
    hide IndexPath;
    hide Resolve;
    hide PutAt;
    hide RemoveOp;
    hide EditAt;
    hide Stoi;
    if lo == |es| {
      assert es[..lo] == es;
      PutSame(doc, p);
    } else {
      var i := |es| - 1;
      StoiDecimal(i);
      IndexPathTokens(p, i);
      var less := es[..i];
      assert es[..i] + es[i + 1..] == less;
      RemoveHere(doc, p, Decimal(i));
      var next := PutAt(doc, p, Array(less));
      RunOne(doc, RemoveOp(IndexPath(ToString(p), i)), RemoveOps(ToString(p), lo, i));
      RunRemoves(next, p, less, lo);
      PutPut(doc, p, Array(less), Array(less[..lo]));
      assert less[..lo] == es[..lo];
    }
  }

  /** Additions in ascending order append the target's surplus. */
  lemma {:induction false} RunAdds(doc: Json, p: seq<Bytes>, es: seq<Json>, ts: seq<Json>, lo: nat)
    requires Resolve(doc, p) == Ok(Array(es)) && |es| == lo <= |ts| && (lo < |ts| ==> |ts| <= 0x8000_0000)
    ensures RunOps(doc, AddOps(ToString(p), ts, lo)) == Ok(PutAt(doc, p, Array(es + ts[lo..])))
    decreases |ts| - lo
  {
    hide ApplyOp;
    hide ToString;
    hide IndexPath;
    hide Resolve;
    hide PutAt;
    hide AddOp;
    hide EditAt;
    hide Stoi;
    if lo == |ts| {
      assert es + ts[lo..] == es;
      PutSame(doc, p);
    } else {
      StoiDecimal(lo);
      IndexPathTokens(p, lo);
      var more := es + [ts[lo]];
      assert Decimal(lo)[0] != DASH[0];
      assert es[..lo] + [ts[lo]] + es[lo..] == more;
      AddHere(doc, p, Decimal(lo), ts[lo]);
      var next := PutAt(doc, p, Array(more));
      RunOne(doc, AddOp(IndexPath(ToString(p), lo), ts[lo]), AddOps(ToString(p), ts, lo + 1));
      RunAdds(next, p, more, ts, lo + 1);
      PutPut(doc, p, Array(more), Array(more + ts[lo + 1..]));
      assert more + ts[lo + 1..] == es + ts[lo..];
    }
  }

  // ---------- the first passes ----------

  /** The source array once its first `i` elements have been merged. */
  function Progress(s: seq<Json>, t: seq<Json>, i: nat): (r: seq<Json>)
    requires i <= Min(|s|, |t|)
    ensures |r| == |s|
  {
    seq(|s|, j requires 0 <= j < |s| => if j < i then Merged(s[j], t[j]) else s[j])
  }

  lemma ProgressStep(doc: Json, p: seq<Bytes>, s: seq<Json>, t: seq<Json>, i: nat)
    requires i < Min(|s|, |t|) && i < 0x8000_0000
    requires Resolve(doc, p) == Ok(Array(Progress(s, t, i)))
    ensures Resolve(doc, p + [Decimal(i)]) == Ok(s[i])
    ensures PutAt(doc, p + [Decimal(i)], Merged(s[i], t[i])) == PutAt(doc, p, Array(Progress(s, t, i + 1)))
  {
    hide Merged;
    hide Stoi;
    hide EditAt;
    var here := Array(Progress(s, t, i));
    var d := Decimal(i);
    StoiDecimal(i);
    assert d[0] != DASH[0];
    ChildPut(here, d, Merged(s[i], t[i]));
    ResolveConcat(doc, p, [d]);
    EditConcat(doc, p, [d], Put(Merged(s[i], t[i])));
    assert here.elems[i := Merged(s[i], t[i])] == Progress(s, t, i + 1);
  }

  lemma ChildPut(j: Json, token: Bytes, v: Json)
    requires Child(j, token).Ok?
    ensures Resolve(j, [token]) == Child(j, token)
    ensures EditAt(j, [token], Put(v)) == Ok(WithChild(j, token, v))
  {
    hide Child;
    hide WithChild;
    var c := Child(j, token).value;
    assert [token][1..] == [];
    assert Resolve(c, []) == Ok(c);
    assert EditAt(c, [], Put(v)) == Ok(v);
  }

  lemma {:induction false} RunElems(doc: Json, p: seq<Bytes>, s: Json, t: Json, i: nat)
    requires s.Array? && t.Array? && ElemsOk(s, t)
    requires i <= Min(|s.elems|, |t.elems|)
    requires Resolve(doc, p) == Ok(Array(Progress(s.elems, t.elems, i)))
    ensures var n := Min(|s.elems|, |t.elems|);
            RunOps(doc, DiffElems(s, t, ToString(p), i)) ==
            Ok(PutAt(doc, p, Array(Progress(s.elems, t.elems, n))))
    decreases s, 0, |s.elems| - i
  {
    hide *;
    var n := Min(|s.elems|, |t.elems|);
    DiffElemsUnfold(s, t, ToString(p), i);
    if i == n {
      RunNothing(doc);
      PutSame(doc, p);
    } else {
      ElemCases(s, t, i);
      if JsonEq(s.elems[i], t.elems[i]) {
        SameElem(s.elems, t.elems, i, IndexPath(ToString(p), i));
        assert [] + DiffElems(s, t, ToString(p), i + 1) == DiffElems(s, t, ToString(p), i + 1);
        RunElems(doc, p, s, t, i + 1);
      } else {
        ElemRuns(doc, p, s, t, i);
        var here := PutAt(doc, p, Array(Progress(s.elems, t.elems, i + 1)));
        RunElems(here, p, s, t, i + 1);
        PutPut(doc, p, Array(Progress(s.elems, t.elems, i + 1)), Array(Progress(s.elems, t.elems, n)));
      }
    }
  }

  /** One differing element: its part of the script replaces it. */
  lemma {:induction false} ElemRuns(doc: Json, p: seq<Bytes>, s: Json, t: Json, i: nat)
    requires s.Array? && t.Array? && i < Min(|s.elems|, |t.elems|)
    requires i < 0x8000_0000 && Addressable(s.elems[i], t.elems[i])
    requires Resolve(doc, p) == Ok(Array(Progress(s.elems, t.elems, i)))
    ensures var next := PutAt(doc, p, Array(Progress(s.elems, t.elems, i + 1)));
            RunOps(doc, DiffElems(s, t, ToString(p), i)) == RunOps(next, DiffElems(s, t, ToString(p), i + 1))
    decreases s, 0, 0
  {
    hide *;
    DiffElemsUnfold(s, t, ToString(p), i);
    ProgressStep(doc, p, s.elems, t.elems, i);
    IndexPathTokens(p, i);
    DiffRuns(doc, p + [Decimal(i)], s.elems[i], t.elems[i]);
    RunOpsConcat(doc, Diff(s.elems[i], t.elems[i], IndexPath(ToString(p), i)),
                 DiffElems(s, t, ToString(p), i + 1));
  }

  lemma ElemCases(s: Json, t: Json, i: nat)
    requires s.Array? && t.Array? && ElemsOk(s, t) && i < Min(|s.elems|, |t.elems|)
    ensures JsonEq(s.elems[i], t.elems[i]) || (i < 0x8000_0000 && Addressable(s.elems[i], t.elems[i]))
  {
    hide JsonEq;
    hide Addressable;
    assert ElemOk(s.elems[i], t.elems[i], i);
  }

  /** An equal element needs no operation and stays as it is. */
  lemma SameElem(s: seq<Json>, t: seq<Json>, i: nat, path: Bytes)
    requires i < Min(|s|, |t|) && JsonEq(s[i], t[i])
    ensures Diff(s[i], t[i], path) == [] && Progress(s, t, i + 1) == Progress(s, t, i)
  {
    hide JsonEq;
  }

  lemma DiffElemsUnfold(s: Json, t: Json, path: Bytes, i: nat)
    requires s.Array? && t.Array? && i <= Min(|s.elems|, |t.elems|)
    ensures Min(|s.elems|, |t.elems|) <= |s.elems|
    ensures Min(|s.elems|, |t.elems|) <= |t.elems|
    ensures DiffElems(s, t, path, i) ==
            if i == Min(|s.elems|, |t.elems|) then []
            else Diff(s.elems[i], t.elems[i], IndexPath(path, i)) + DiffElems(s, t, path, i + 1)
  {
  }

  lemma RunNothing(doc: Json)
    ensures RunOps(doc, []) == Ok(doc)
  {
  }

  /** The members after the keys `ks` have been visited, starting from `m`. */
  function AfterKeys(s: Json, t: Json, ks: seq<Bytes>, m: map<Bytes, Json>): map<Bytes, Json>
    requires s.Object? && t.Object? && forall k :: k in ks ==> k in s.members
    decreases |ks|
  {
    if ks == [] then m else
      var k := ks[0];
      AfterKeys(s, t, ks[1..], if k in t.members then m[k := Merged(s.members[k], t.members[k])] else m - {k})
  }

  lemma {:induction false} AfterKeysMeaning(s: Json, t: Json, ks: seq<Bytes>, m: map<Bytes, Json>)
    requires s.Object? && t.Object? && (forall k :: k in ks ==> k in s.members) && Ascending(ks)
    requires forall k :: k in ks ==> k in m
    ensures var r := AfterKeys(s, t, ks, m);
            && (forall k :: k in r <==> k in m && !(k in ks && k !in t.members))
            && (forall k :: k in r ==>
                  r[k] == if k in ks then Merged(s.members[k], t.members[k]) else m[k])
    decreases |ks|
  {
    hide Merged;
    hide Less;
    if ks != [] {
      var k := ks[0];
      forall x | x in ks[1..] ensures x != k {
        var n :| 0 <= n < |ks[1..]| && ks[1..][n] == x;
        AscendingDistinct(ks, 0, n + 1);
      }
      AfterKeysMeaning(s, t, ks[1..], if k in t.members then m[k := Merged(s.members[k], t.members[k])] else m - {k});
      assert forall x :: x in ks <==> x == k || x in ks[1..];
    }
  }

  /** The members after the target's new keys among `ks` have been added to `m`. */
  function WithNew(s: Json, t: Json, ks: seq<Bytes>, m: map<Bytes, Json>): map<Bytes, Json>
    requires s.Object? && t.Object? && forall k :: k in ks ==> k in t.members
    decreases |ks|
  {
    if ks == [] then m
    else WithNew(s, t, ks[1..], if ks[0] in s.members then m else m[ks[0] := t.members[ks[0]]])
  }

  lemma {:induction false} WithNewMeaning(s: Json, t: Json, ks: seq<Bytes>, m: map<Bytes, Json>)
    requires s.Object? && t.Object? && forall k :: k in ks ==> k in t.members
    ensures var r := WithNew(s, t, ks, m);
            && (forall k :: k in r <==> k in m || (k in ks && k !in s.members))
            && (forall k :: k in r ==>
                  r[k] == if k in ks && k !in s.members then t.members[k] else m[k])
    decreases |ks|
  {
    if ks != [] {
      var k := ks[0];
      WithNewMeaning(s, t, ks[1..], if k in s.members then m else m[k := t.members[k]]);
      assert forall x :: x in ks <==> x == k || x in ks[1..];
    }
  }

  lemma MemberStep(doc: Json, p: seq<Bytes>, m: map<Bytes, Json>, k: Bytes, v: Json)
    requires Resolve(doc, p) == Ok(Object(m)) && k in m
    ensures Resolve(doc, p + [k]) == Ok(m[k])
    ensures PutAt(doc, p + [k], v) == PutAt(doc, p, Object(m[k := v]))
  {
    hide EditAt;
    ChildPut(Object(m), k, v);
    ResolveConcat(doc, p, [k]);
    EditConcat(doc, p, [k], Put(v));
  }

  lemma {:induction false} RunMembers(doc: Json, p: seq<Bytes>, s: Json, t: Json, ks: seq<Bytes>, m: map<Bytes, Json>)
    requires s.Object? && t.Object? && forall k :: k in ks ==> k in s.members
    requires (forall k :: k in ks && k in t.members ==> Addressable(s.members[k], t.members[k])) && Ascending(ks)
    requires forall k :: k in ks ==> k in m && m[k] == s.members[k]
    requires Resolve(doc, p) == Ok(Object(m))
    ensures RunOps(doc, DiffMembers(s, t, ToString(p), ks)) == Ok(PutAt(doc, p, Object(AfterKeys(s, t, ks, m))))
    decreases s, 0, |ks|
  {
    hide *;
    DiffMembersUnfold(s, t, ToString(p), ks, m);
    if ks == [] {
      RunNothing(doc);
      PutSame(doc, p);
    } else {
      var k := ks[0];
      KeyPathTokens(p, k);
      AscendingTail(ks);
      var m' := if k in t.members then m[k := Merged(s.members[k], t.members[k])] else m - {k};
      var rest := DiffMembers(s, t, ToString(p), ks[1..]);
      var next := PutAt(doc, p, Object(m'));
      if k in t.members {
        MemberStep(doc, p, m, k, Merged(s.members[k], t.members[k]));
        DiffRuns(doc, p + [k], s.members[k], t.members[k]);
        RunOpsConcat(doc, Diff(s.members[k], t.members[k], KeyPath(ToString(p), k)), rest);
      } else {
        RemoveMember(m, k);
        RemoveHere(doc, p, k);
        RunOne(doc, RemoveOp(KeyPath(ToString(p), k)), rest);
      }
      RunMembers(next, p, s, t, ks[1..], m');
      PutPut(doc, p, Object(m'), Object(AfterKeys(s, t, ks[1..], m')));
    }
  }

  lemma RemoveMember(m: map<Bytes, Json>, k: Bytes)
    requires k in m
    ensures Perform(Object(m), RemoveChild(k)) == Ok(Object(m - {k}))
  {
  }

  lemma AddMember(m: map<Bytes, Json>, k: Bytes, v: Json)
    ensures Perform(Object(m), AddChild(k, v)) == Ok(Object(m[k := v]))
  {
  }

  lemma AscendingTail(ks: seq<Bytes>)
    requires Ascending(ks) && ks != []
    ensures Ascending(ks[1..]) && ks[0] !in ks[1..]
    ensures forall k :: k in ks[1..] ==> k in ks
  {
    hide Less;
    forall n | 0 <= n < |ks[1..]| ensures ks[1..][n] != ks[0] {
      AscendingDistinct(ks, 0, n + 1);
    }
  }

  lemma DiffMembersUnfold(s: Json, t: Json, path: Bytes, ks: seq<Bytes>, m: map<Bytes, Json>)
    requires s.Object? && t.Object? && forall k :: k in ks ==> k in s.members
    ensures DiffMembers(s, t, path, ks) ==
            if ks == [] then [] else
              (if ks[0] in t.members then Diff(s.members[ks[0]], t.members[ks[0]], KeyPath(path, ks[0]))
               else [RemoveOp(KeyPath(path, ks[0]))]) + DiffMembers(s, t, path, ks[1..])
    ensures AfterKeys(s, t, ks, m) ==
            if ks == [] then m else
              AfterKeys(s, t, ks[1..], if ks[0] in t.members
                                       then m[ks[0] := Merged(s.members[ks[0]], t.members[ks[0]])]
                                       else m - {ks[0]})
  {
    hide Diff;
    hide Merged;
    hide KeyPath;
    hide RemoveOp;
  }

  lemma {:induction false} RunNewMembers(doc: Json, p: seq<Bytes>, s: Json, t: Json, ks: seq<Bytes>, m: map<Bytes, Json>)
    requires s.Object? && t.Object? && forall k :: k in ks ==> k in t.members
    requires Resolve(doc, p) == Ok(Object(m))
    ensures RunOps(doc, AddMembers(s, t, ToString(p), ks)) == Ok(PutAt(doc, p, Object(WithNew(s, t, ks, m))))
    decreases |ks|
  {
    hide *;
    AddMembersUnfold(s, t, ToString(p), ks, m);
    if ks == [] {
      RunNothing(doc);
      PutSame(doc, p);
    } else {
      var k := ks[0];
      var rest := AddMembers(s, t, ToString(p), ks[1..]);
      if k in s.members {
        RunNewMembers(doc, p, s, t, ks[1..], m);
        assert [] + rest == rest;
      } else {
        var m' := m[k := t.members[k]];
        var next := PutAt(doc, p, Object(m'));
        KeyPathTokens(p, k);
        AddMember(m, k, t.members[k]);
        AddHere(doc, p, k, t.members[k]);
        RunOne(doc, AddOp(KeyPath(ToString(p), k), t.members[k]), rest);
        RunNewMembers(next, p, s, t, ks[1..], m');
        PutPut(doc, p, Object(m'), Object(WithNew(s, t, ks[1..], m')));
      }
    }
  }

  lemma AddMembersUnfold(s: Json, t: Json, path: Bytes, ks: seq<Bytes>, m: map<Bytes, Json>)
    requires s.Object? && t.Object? && forall k :: k in ks ==> k in t.members
    ensures AddMembers(s, t, path, ks) ==
            if ks == [] then [] else
              (if ks[0] in s.members then [] else [AddOp(KeyPath(path, ks[0]), t.members[ks[0]])])
              + AddMembers(s, t, path, ks[1..])
    ensures WithNew(s, t, ks, m) ==
            if ks == [] then m else
              WithNew(s, t, ks[1..], if ks[0] in s.members then m else m[ks[0] := t.members[ks[0]]])
  {
    hide KeyPath;
    hide AddOp;
  }

  // ---------- the theorem ----------

  lemma ArrayMerged(s: Json, t: Json)
    requires s.Array? && t.Array? && !JsonEq(s, t)
    ensures var n := Min(|s.elems|, |t.elems|);
            Merged(s, t) == Array(Progress(s.elems, t.elems, n)[..n] + t.elems[n..])
  {
    var n := Min(|s.elems|, |t.elems|);
    var r := Progress(s.elems, t.elems, n)[..n] + t.elems[n..];
    assert Merged(s, t).elems == r;
  }

  lemma MergedMembers(s: Json, t: Json)
    requires s.Object? && t.Object? && !JsonEq(s, t)
    ensures Merged(s, t).Object? && Merged(s, t).members.Keys == t.members.Keys
    ensures forall k :: k in t.members ==>
              Merged(s, t).members[k] ==
              if k in s.members then Merged(s.members[k], t.members[k]) else t.members[k]
  {
    hide JsonEq;
  }

  lemma ObjectMerged(s: Json, t: Json)
    requires s.Object? && t.Object? && !JsonEq(s, t)
    ensures var ks, us := SortedKeys(s.members.Keys), SortedKeys(t.members.Keys);
            Merged(s, t) == Object(WithNew(s, t, us, AfterKeys(s, t, ks, s.members)))
  {
    hide *;
    var ks, us := SortedKeys(s.members.Keys), SortedKeys(t.members.Keys);
    AfterKeysMeaning(s, t, ks, s.members);
    var mid := AfterKeys(s, t, ks, s.members);
    WithNewMeaning(s, t, us, mid);
    MergedMembers(s, t);
    var r, m := WithNew(s, t, us, mid), Merged(s, t).members;
    assert r.Keys == m.Keys;
    assert forall k :: k in r ==> r[k] == m[k];
    assert r == m;
  }

  lemma {:induction false} RunArrayDiff(doc: Json, p: seq<Bytes>, s: Json, t: Json)
    requires s.Array? && t.Array? && !JsonEq(s, t) && Addressable(s, t)
    requires Resolve(doc, p) == Ok(s)
    ensures RunOps(doc, Diff(s, t, ToString(p))) == Ok(PutAt(doc, p, Merged(s, t)))
    decreases s, 1
  {
    hide *;
    var n := Min(|s.elems|, |t.elems|);
    var path := ToString(p);
    var mid := Progress(s.elems, t.elems, n);
    DiffArrayUnfold(s, t, path);
    var first, removes, adds := DiffElems(s, t, path, 0), RemoveOps(path, n, |s.elems|), AddOps(path, t.elems, n);
    ProgressStart(s.elems, t.elems);
    AddressableParts(s, t);
    RunElems(doc, p, s, t, 0);
    var d1 := PutAt(doc, p, Array(mid));
    RunRemoves(d1, p, mid, n);
    var d2 := PutAt(d1, p, Array(mid[..n]));
    RunAdds(d2, p, mid[..n], t.elems, n);
    ArrayMerged(s, t);
    PutPut(doc, p, Array(mid), Array(mid[..n]));
    PutPut(doc, p, Array(mid[..n]), Merged(s, t));
    RunOpsConcat(doc, first, removes);
    RunOpsConcat(doc, first + removes, adds);
  }

  lemma ProgressStart(s: seq<Json>, t: seq<Json>)
    ensures Progress(s, t, 0) == s
  {
  }

  lemma DiffArrayUnfold(s: Json, t: Json, path: Bytes)
    requires s.Array? && t.Array? && !JsonEq(s, t)
    ensures var n := Min(|s.elems|, |t.elems|);
            n <= |s.elems| && n <= |t.elems| && (n == |s.elems| || n == |t.elems|) &&
            Diff(s, t, path) == DiffElems(s, t, path, 0) + RemoveOps(path, n, |s.elems|) + AddOps(path, t.elems, n)
  {
    hide JsonEq;
  }

  lemma {:induction false} RunObjectDiff(doc: Json, p: seq<Bytes>, s: Json, t: Json)
    requires s.Object? && t.Object? && !JsonEq(s, t) && Addressable(s, t)
    requires Resolve(doc, p) == Ok(s)
    ensures RunOps(doc, Diff(s, t, ToString(p))) == Ok(PutAt(doc, p, Merged(s, t)))
    decreases s, 1
  {
    hide *;
    var ks, us := SortedKeys(s.members.Keys), SortedKeys(t.members.Keys);
    var path := ToString(p);
    var mid := AfterKeys(s, t, ks, s.members);
    DiffObjectUnfold(s, t, path);
    AddressableParts(s, t);
    RunMembers(doc, p, s, t, ks, s.members);
    var d1 := PutAt(doc, p, Object(mid));
    RunNewMembers(d1, p, s, t, us, mid);
    ObjectMerged(s, t);
    PutPut(doc, p, Object(mid), Merged(s, t));
    RunOpsConcat(doc, DiffMembers(s, t, path, ks), AddMembers(s, t, path, us));
  }

  lemma DiffObjectUnfold(s: Json, t: Json, path: Bytes)
    requires s.Object? && t.Object? && !JsonEq(s, t)
    ensures Diff(s, t, path) == DiffMembers(s, t, path, SortedKeys(s.members.Keys))
                                + AddMembers(s, t, path, SortedKeys(t.members.Keys))
  {
    hide JsonEq;
  }

  /**
    Locality: in any document holding `s` at `p`, the script of `diff(s, t, p)`
    runs without failure and its whole effect is to put `Merged(s, t)` there.
   */
  lemma {:induction false} DiffRuns(doc: Json, p: seq<Bytes>, s: Json, t: Json)
    requires Addressable(s, t)
    requires Resolve(doc, p) == Ok(s)
    ensures RunOps(doc, Diff(s, t, ToString(p))) == Ok(PutAt(doc, p, Merged(s, t)))
    decreases s, 2
  {
    hide JsonEq;
    hide RunOps;
    hide ApplyOp;
    hide ToString;
    hide Resolve;
    hide PutAt;
    hide Addressable;
    if JsonEq(s, t) {
      RunNothing(doc);
      PutSame(doc, p);
    } else if s.Array? && t.Array? {
      RunArrayDiff(doc, p, s, t);
    } else if s.Object? && t.Object? {
      RunObjectDiff(doc, p, s, t);
    } else {
      var r := PutAt(doc, p, t);
      ApplyReplace(doc, p, t);
      assert [ReplaceOp(ToString(p), t)] + [] == [ReplaceOp(ToString(p), t)];
      RunOne(doc, ReplaceOp(ToString(p), t), []);
      RunNothing(r);
    }
  }

  // ---------- where the operations point ----------

  /** The operation's path is `p` followed by the tokens `q`; only a replacement may be at `p` itself. */
  predicate PointsTo(op: Json, p: seq<Bytes>, q: seq<Bytes>) {
    && op.Object? && PATH in op.members && op.members[PATH] == String(ToString(p + q))
    && OP in op.members
    && (op.members[OP] == String(REPLACE)
        || (q != [] && (op.members[OP] == String(ADD) || op.members[OP] == String(REMOVE))))
  }

  ghost predicate Below(op: Json, p: seq<Bytes>) {
    exists q :: PointsTo(op, p, q)
  }

  ghost predicate AllBelow(ops: seq<Json>, p: seq<Bytes>) {
    forall i :: 0 <= i < |ops| ==> Below(ops[i], p)
  }

  lemma OpBelow(p: seq<Bytes>, q: seq<Bytes>, v: Json)
    ensures Below(ReplaceOp(ToString(p + q), v), p)
    ensures q != [] ==> Below(AddOp(ToString(p + q), v), p) && Below(RemoveOp(ToString(p + q)), p)
  {
    hide ToString;
    assert PointsTo(ReplaceOp(ToString(p + q), v), p, q);
    if q != [] {
      assert PointsTo(AddOp(ToString(p + q), v), p, q);
      assert PointsTo(RemoveOp(ToString(p + q)), p, q);
    }
  }

  lemma BelowChild(ops: seq<Json>, p: seq<Bytes>, token: Bytes)
    requires AllBelow(ops, p + [token])
    ensures AllBelow(ops, p)
  {
    hide ToString;
    forall i | 0 <= i < |ops| ensures Below(ops[i], p) {
      var q :| PointsTo(ops[i], p + [token], q);
      assert p + [token] + q == p + ([token] + q);
      assert PointsTo(ops[i], p, [token] + q);
    }
  }

  lemma {:induction false} RemovesBelow(p: seq<Bytes>, lo: nat, hi: nat)
    requires lo <= hi
    ensures AllBelow(RemoveOps(ToString(p), lo, hi), p)
    decreases hi
  {
    hide Below;
    hide IndexPath;
    hide RemoveOp;
    if lo < hi {
      RemovesBelow(p, lo, hi - 1);
      IndexPathTokens(p, hi - 1);
      OpBelow(p, [Decimal(hi - 1)], Null);
    }
  }

  lemma {:induction false} AddsBelow(p: seq<Bytes>, es: seq<Json>, lo: nat)
    requires lo <= |es|
    ensures AllBelow(AddOps(ToString(p), es, lo), p)
    decreases |es| - lo
  {
    hide Below;
    hide IndexPath;
    hide AddOp;
    if lo < |es| {
      AddsBelow(p, es, lo + 1);
      IndexPathTokens(p, lo);
      OpBelow(p, [Decimal(lo)], es[lo]);
    }
  }

  lemma {:induction false} ElemsBelow(p: seq<Bytes>, s: Json, t: Json, i: nat)
    requires s.Array? && t.Array? && i <= Min(|s.elems|, |t.elems|)
    ensures AllBelow(DiffElems(s, t, ToString(p), i), p)
    decreases s, 0, |s.elems| - i
  {
    hide Below;
    hide IndexPath;
    hide Diff;
    if i < Min(|s.elems|, |t.elems|) {
      IndexPathTokens(p, i);
      DiffBelow(p + [Decimal(i)], s.elems[i], t.elems[i]);
      BelowChild(Diff(s.elems[i], t.elems[i], IndexPath(ToString(p), i)), p, Decimal(i));
      ElemsBelow(p, s, t, i + 1);
    }
  }

  lemma {:induction false} MembersBelow(p: seq<Bytes>, s: Json, t: Json, ks: seq<Bytes>)
    requires s.Object? && t.Object? && forall k :: k in ks ==> k in s.members
    ensures AllBelow(DiffMembers(s, t, ToString(p), ks), p)
    decreases s, 0, |ks|
  {
    hide Below;
    hide KeyPath;
    hide Diff;
    hide RemoveOp;
    if ks != [] {
      var k := ks[0];
      KeyPathTokens(p, k);
      if k in t.members {
        DiffBelow(p + [k], s.members[k], t.members[k]);
        BelowChild(Diff(s.members[k], t.members[k], KeyPath(ToString(p), k)), p, k);
      } else {
        OpBelow(p, [k], Null);
      }
      MembersBelow(p, s, t, ks[1..]);
    }
  }

  lemma {:induction false} NewMembersBelow(p: seq<Bytes>, s: Json, t: Json, ks: seq<Bytes>)
    requires s.Object? && t.Object? && forall k :: k in ks ==> k in t.members
    ensures AllBelow(AddMembers(s, t, ToString(p), ks), p)
    decreases |ks|
  {
    hide Below;
    hide KeyPath;
    hide AddOp;
    if ks != [] {
      KeyPathTokens(p, ks[0]);
      OpBelow(p, [ks[0]], t.members[ks[0]]);
      NewMembersBelow(p, s, t, ks[1..]);
    }
  }

  /** Every operation of `diff(s, t, p)` points at or below `p`. */
  lemma {:induction false} DiffBelow(p: seq<Bytes>, s: Json, t: Json)
    ensures AllBelow(Diff(s, t, ToString(p)), p)
    decreases s, 1
  {
    hide Below;
    hide ReplaceOp;
    hide JsonEq;
    hide DiffElems;
    hide RemoveOps;
    hide AddOps;
    hide DiffMembers;
    hide AddMembers;
    hide ToString;
    hide SortedKeys;
    if JsonEq(s, t) {
    } else if s.Array? && t.Array? {
      var n := Min(|s.elems|, |t.elems|);
      ElemsBelow(p, s, t, 0);
      RemovesBelow(p, n, |s.elems|);
      AddsBelow(p, t.elems, n);
    } else if s.Object? && t.Object? {
      MembersBelow(p, s, t, SortedKeys(s.members.Keys));
      NewMembersBelow(p, s, t, SortedKeys(t.members.Keys));
    } else {
      assert p + [] == p;
      OpBelow(p, [], t);
    }
  }
}
