/**
  Exactly when a script runs: patching with a diff fails only where the script
  has to name an array index that std::stoi rejects. With `JsonDiffLaw` this
  gives the documented law of `diff` and `patch` for every pair of values.
 */
module JsonDiffExact {
  import opened JsonValue
  import opened JsonPointer
  import opened JsonPatch
  import opened JsonDiff
  import opened JsonDiffLaw

  lemma {:induction false} RunOpsFail(doc: Json, xs: seq<Json>, ys: seq<Json>)
    requires RunOps(doc, xs).Err?
    ensures RunOps(doc, xs + ys).Err?
    decreases |xs|
  {
    hide ApplyOp;
    assert (xs + ys)[0] == xs[0] && (xs + ys)[1..] == xs[1..] + ys;
    if ApplyOp(doc, xs[0]).Ok? {
      RunOpsFail(ApplyOp(doc, xs[0]).value, xs[1..], ys);
    }
  }

  lemma FirstFails(doc: Json, op: Json, rest: seq<Json>)
    requires ApplyOp(doc, op).Err?
    ensures RunOps(doc, [op] + rest).Err?
  {
    hide ApplyOp;
  }

  lemma SecondFails(doc: Json, xs: seq<Json>, ys: seq<Json>)
    requires RunOps(doc, xs).Ok? && RunOps(RunOps(doc, xs).value, ys).Err?
    ensures RunOps(doc, xs + ys).Err?
  {
    hide RunOps;
    RunOpsConcat(doc, xs, ys);
  }

  // ---------- indices out of reach ----------

  lemma HugeIndex(i: nat)
    requires i >= 0x8000_0000
    ensures Stoi(Decimal(i)) == Err(OutOfRange) && CheckedIndex(Decimal(i)).Err?
    ensures forall es :: UncheckedIndex(es, Decimal(i)).Err?
  {
    hide Stoi;
    StoiDecimal(i);
    assert Decimal(i)[0] != DASH[0];
  }

  lemma EditBlocked(doc: Json, p: seq<Bytes>, i: nat, us: seq<Bytes>, e: Edit)
    requires Resolve(doc, p).Ok? && Resolve(doc, p).value.Array? && i >= 0x8000_0000
    ensures EditAt(doc, p + [Decimal(i)] + us, e).Err?
  {
    hide Resolve;
    hide Perform;
    hide PutAt;
    hide Decimal;
    hide CheckedIndex;
    HugeIndex(i);
    assert p + [Decimal(i)] + us == p + ([Decimal(i)] + us);
    EditConcat(doc, p, [Decimal(i)] + us, e);
  }

  lemma {:induction false} UncheckedBlocked(doc: Json, p: seq<Bytes>, i: nat, us: seq<Bytes>, e: Edit)
    requires Resolve(doc, p).Ok? && Resolve(doc, p).value.Array? && i >= 0x8000_0000
    ensures EditUnchecked(doc, p + ([Decimal(i)] + us), e).Err?
    decreases |p|
  {
    hide Perform;
    hide Decimal;
    var ts := p + ([Decimal(i)] + us);
    if p == [] {
      HugeIndex(i);
      assert ts == [Decimal(i)] + us;
    } else {
      assert ts[0] == p[0] && ts[1..] == p[1..] + ([Decimal(i)] + us);
      UncheckedBlocked(Child(doc, p[0]).value, p[1..], i, us, e);
    }
  }

  /** No operation at or below an index out of reach can be applied. */
  lemma ApplyBlocked(doc: Json, p: seq<Bytes>, i: nat, op: Json)
    requires Resolve(doc, p).Ok? && Resolve(doc, p).value.Array? && i >= 0x8000_0000
    requires Below(op, p + [Decimal(i)])
    ensures ApplyOp(doc, op).Err?
  {
    hide Resolve;
    hide EditAt;
    hide EditUnchecked;
    hide Split;
    hide ToString;
    hide Decimal;
    var b := p + [Decimal(i)];
    var q :| PointsTo(op, b, q);
    var ptr := b + q;
    SplitToString(ptr);
    if op.members[OP] == String(REPLACE) {
      if VALUE in op.members {
        EditBlocked(doc, p, i, q, Put(op.members[VALUE]));
      }
    } else {
      var q', last := q[..|q| - 1], q[|q| - 1];
      assert ptr[..|ptr| - 1] == b + q' && b + q' == p + ([Decimal(i)] + q');
      EditBlocked(doc, p, i, q', RemoveChild(last));
      if VALUE in op.members {
        UncheckedBlocked(doc, p, i, q', AddChild(last, op.members[VALUE]));
      }
    }
  }

  lemma {:induction false} DiffNonempty(s: Json, t: Json, path: Bytes)
    requires !JsonEq(s, t)
    ensures Diff(s, t, path) != []
    decreases s, 2
  {
    hide *;
    if s.Array? && t.Array? {
      DiffArrayUnfold(s, t, path);
      ArrayNonempty(s, t, path);
    } else if s.Object? && t.Object? {
      DiffObjectUnfold(s, t, path);
      ObjectNonempty(s, t, path);
    } else {
      OtherDiff(s, t, path);
    }
  }

  lemma EqualDiff(s: Json, t: Json, path: Bytes)
    requires JsonEq(s, t)
    ensures Diff(s, t, path) == []
  {
    hide JsonEq;
  }

  lemma OtherDiff(s: Json, t: Json, path: Bytes)
    requires !JsonEq(s, t) && !(s.Array? && t.Array?) && !(s.Object? && t.Object?)
    ensures Diff(s, t, path) == [ReplaceOp(path, t)]
  {
    hide JsonEq;
    hide ReplaceOp;
  }

  lemma {:induction false} ArrayNonempty(s: Json, t: Json, path: Bytes)
    requires s.Array? && t.Array? && !JsonEq(s, t)
    ensures var n := Min(|s.elems|, |t.elems|);
            n <= |s.elems| && n <= |t.elems| &&
            (DiffElems(s, t, path, 0) != [] || RemoveOps(path, n, |s.elems|) != [] || AddOps(path, t.elems, n) != [])
    decreases s, 1
  {
    hide DiffElems;
    hide RemoveOps;
    hide AddOps;
    if |s.elems| == |t.elems| {
      var i :| 0 <= i < |s.elems| && !JsonEq(s.elems[i], t.elems[i]);
      ElemsNonempty(s, t, path, 0, i);
    } else {
      SurplusNonempty(s, t, path);
    }
  }

  lemma {:induction false} ObjectNonempty(s: Json, t: Json, path: Bytes)
    requires s.Object? && t.Object? && !JsonEq(s, t)
    ensures DiffMembers(s, t, path, SortedKeys(s.members.Keys)) != []
         || AddMembers(s, t, path, SortedKeys(t.members.Keys)) != []
    decreases s, 1
  {
    hide DiffMembers;
    hide AddMembers;
    hide Ascending;
    if k :| k in s.members && (k !in t.members || !JsonEq(s.members[k], t.members[k])) {
      MembersNonempty(s, t, path, SortedKeys(s.members.Keys), k);
    } else {
      var k :| k in t.members && k !in s.members;
      NewMembersNonempty(s, t, path, SortedKeys(t.members.Keys), k);
    }
  }

  lemma SurplusNonempty(s: Json, t: Json, path: Bytes)
    requires s.Array? && t.Array? && |s.elems| != |t.elems|
    ensures var n := Min(|s.elems|, |t.elems|);
            RemoveOps(path, n, |s.elems|) != [] || AddOps(path, t.elems, n) != []
  {
    hide RemoveOp;
    hide AddOp;
    hide IndexPath;
  }

  lemma {:induction false} ElemsNonempty(s: Json, t: Json, path: Bytes, from: nat, i: nat)
    requires s.Array? && t.Array? && from <= i < Min(|s.elems|, |t.elems|) && !JsonEq(s.elems[i], t.elems[i])
    ensures DiffElems(s, t, path, from) != []
    decreases s, 0, i - from
  {
    hide JsonEq;
    hide IndexPath;
    hide Diff;
    if from == i {
      DiffNonempty(s.elems[i], t.elems[i], IndexPath(path, i));
    } else {
      ElemsNonempty(s, t, path, from + 1, i);
    }
  }

  lemma {:induction false} MembersNonempty(s: Json, t: Json, path: Bytes, ks: seq<Bytes>, k: Bytes)
    requires s.Object? && t.Object? && (forall x :: x in ks ==> x in s.members) && k in ks
    requires k !in t.members || !JsonEq(s.members[k], t.members[k])
    ensures DiffMembers(s, t, path, ks) != []
    decreases s, 0, |ks|
  {
    hide JsonEq;
    hide KeyPath;
    hide Diff;
    hide RemoveOp;
    if ks[0] != k {
      MembersNonempty(s, t, path, ks[1..], k);
    } else if k in t.members {
      DiffNonempty(s.members[k], t.members[k], KeyPath(path, k));
    }
  }

  lemma {:induction false} NewMembersNonempty(s: Json, t: Json, path: Bytes, ks: seq<Bytes>, k: Bytes)
    requires s.Object? && t.Object? && (forall x :: x in ks ==> x in t.members) && k in ks && k !in s.members
    ensures AddMembers(s, t, path, ks) != []
    decreases |ks|
  {
    hide KeyPath;
    hide AddOp;
    if ks[0] != k {
      NewMembersNonempty(s, t, path, ks[1..], k);
    }
  }

  lemma BlockedDiff(doc: Json, p: seq<Bytes>, i: nat, s: Json, t: Json)
    requires Resolve(doc, p).Ok? && Resolve(doc, p).value.Array? && i >= 0x8000_0000 && !JsonEq(s, t)
    ensures RunOps(doc, Diff(s, t, ToString(p + [Decimal(i)]))).Err?
  {
    hide *;
    var b := p + [Decimal(i)];
    var ops := Diff(s, t, ToString(b));
    DiffNonempty(s, t, ToString(b));
    DiffBelow(b, s, t);
    FirstBelow(ops, b);
    ApplyBlocked(doc, p, i, ops[0]);
    FirstFails(doc, ops[0], ops[1..]);
    assert ops == [ops[0]] + ops[1..];
  }

  lemma FirstBelow(ops: seq<Json>, b: seq<Bytes>)
    requires ops != [] && AllBelow(ops, b)
    ensures Below(ops[0], b)
  {
    hide Below;
  }

  // ---------- surplus elements ----------

  lemma RemovesFail(doc: Json, p: seq<Bytes>, es: seq<Json>, lo: nat)
    requires Resolve(doc, p) == Ok(Array(es)) && lo < |es| && |es| > 0x8000_0000
    ensures RunOps(doc, RemoveOps(ToString(p), lo, |es|)).Err?
  {
    hide ApplyOp;
    hide ToString;
    hide IndexPath;
    hide Resolve;
    hide RemoveOp;
    hide PutAt;
    hide Decimal;
    var i := |es| - 1;
    HugeIndex(i);
    IndexPathTokens(p, i);
    var ts := p + [Decimal(i)];
    ApplyRemove(doc, ts);
    assert ts[..|ts| - 1] == p && p + [] == p;
    EditConcat(doc, p, [], RemoveChild(Decimal(i)));
  }

  lemma AddFails(doc: Json, p: seq<Bytes>, es: seq<Json>, i: nat, v: Json)
    requires Resolve(doc, p) == Ok(Array(es)) && i >= 0x8000_0000
    ensures ApplyOp(doc, AddOp(IndexPath(ToString(p), i), v)).Err?
  {
    hide ApplyOp;
    hide ToString;
    hide IndexPath;
    hide AddOp;
    hide PutAt;
    hide Decimal;
    hide EditUnchecked;
    hide Resolve;
    HugeIndex(i);
    DigitsNoDash(i);
    IndexPathTokens(p, i);
    var ts := p + [Decimal(i)];
    ApplyAdd(doc, ts, v);
    assert ts[..|ts| - 1] == p && p + [] == p;
    UncheckedIsChecked(doc, p, AddChild(Decimal(i), v));
    EditConcat(doc, p, [], AddChild(Decimal(i), v));
  }

  lemma DigitsNoDash(i: nat)
    ensures Decimal(i) != DASH
  {
    assert Decimal(i)[0] != DASH[0];
  }

  lemma {:induction false} AddsFail(doc: Json, p: seq<Bytes>, es: seq<Json>, ts: seq<Json>, lo: nat)
    requires Resolve(doc, p) == Ok(Array(es)) && |es| == lo < |ts| && |ts| > 0x8000_0000
    ensures RunOps(doc, AddOps(ToString(p), ts, lo)).Err?
    decreases |ts| - lo
  {
    hide ApplyOp;
    hide ToString;
    hide IndexPath;
    hide Resolve;
    hide PutAt;
    hide AddOp;
    var op, rest := AddOp(IndexPath(ToString(p), lo), ts[lo]), AddOps(ToString(p), ts, lo + 1);
    assert AddOps(ToString(p), ts, lo) == [op] + rest;
    if lo >= 0x8000_0000 {
      AddFails(doc, p, es, lo, ts[lo]);
      FirstFails(doc, op, rest);
    } else {
      var more := es + [ts[lo]];
      AddOne(doc, p, es, lo, ts[lo]);
      RunOne(doc, op, rest);
      AddsFail(PutAt(doc, p, Array(more)), p, more, ts, lo + 1);
    }
  }

  lemma AddOne(doc: Json, p: seq<Bytes>, es: seq<Json>, lo: nat, v: Json)
    requires Resolve(doc, p) == Ok(Array(es)) && |es| == lo < 0x8000_0000
    ensures ApplyOp(doc, AddOp(IndexPath(ToString(p), lo), v)) == Ok(PutAt(doc, p, Array(es + [v])))
  {
    hide ApplyOp;
    hide ToString;
    hide IndexPath;
    hide Resolve;
    hide PutAt;
    hide AddOp;
    hide Stoi;
    hide Decimal;
    StoiDecimal(lo);
    DigitsNoDash(lo);
    IndexPathTokens(p, lo);
    assert es[..lo] + [v] + es[lo..] == es + [v];
    AddHere(doc, p, Decimal(lo), v);
  }

  // ---------- the converse ----------

  lemma {:induction false} ElemsFail(doc: Json, p: seq<Bytes>, s: Json, t: Json, i: nat, bad: nat)
    requires s.Array? && t.Array? && i <= bad < Min(|s.elems|, |t.elems|)
    requires !ElemOk(s.elems[bad], t.elems[bad], bad)
    requires Resolve(doc, p) == Ok(Array(Progress(s.elems, t.elems, i)))
    ensures RunOps(doc, DiffElems(s, t, ToString(p), i)).Err?
    decreases s, 0, bad - i
  {
    hide *;
    DiffElemsUnfold(s, t, ToString(p), i);
    var d := Diff(s.elems[i], t.elems[i], IndexPath(ToString(p), i));
    var rest := DiffElems(s, t, ToString(p), i + 1);
    OkCases(s.elems[i], t.elems[i], i);
    if !ElemOk(s.elems[i], t.elems[i], i) {
      IndexPathTokens(p, i);
      if i < 0x8000_0000 {
        ProgressStep(doc, p, s.elems, t.elems, i);
        DiffFails(doc, p + [Decimal(i)], s.elems[i], t.elems[i]);
      } else {
        BlockedDiff(doc, p, i, s.elems[i], t.elems[i]);
      }
      RunOpsFail(doc, d, rest);
    } else if JsonEq(s.elems[i], t.elems[i]) {
      SameElem(s.elems, t.elems, i, IndexPath(ToString(p), i));
      assert [] + rest == rest;
      ElemsFail(doc, p, s, t, i + 1, bad);
    } else {
      ElemRuns(doc, p, s, t, i);
      ElemsFail(PutAt(doc, p, Array(Progress(s.elems, t.elems, i + 1))), p, s, t, i + 1, bad);
    }
  }

  lemma OkCases(s: Json, t: Json, i: nat)
    ensures ElemOk(s, t, i) <==> JsonEq(s, t) || (i < 0x8000_0000 && Addressable(s, t))
  {
  }

  lemma {:induction false} ArrayFails(doc: Json, p: seq<Bytes>, s: Json, t: Json)
    requires s.Array? && t.Array? && !Addressable(s, t) && Resolve(doc, p) == Ok(s)
    ensures RunOps(doc, Diff(s, t, ToString(p))).Err?
    decreases s, 1
  {
    hide *;
    var n := Min(|s.elems|, |t.elems|);
    var path := ToString(p);
    NotAddressable(s, t);
    DiffArrayUnfold(s, t, path);
    ProgressStart(s.elems, t.elems);
    var first, removes, adds := DiffElems(s, t, path, 0), RemoveOps(path, n, |s.elems|), AddOps(path, t.elems, n);
    if !ElemsOk(s, t) {
      var bad := BadElem(s, t);
      ElemsFail(doc, p, s, t, 0, bad);
      RunOpsFail(doc, first, removes);
      RunOpsFail(doc, first + removes, adds);
    } else {
      RunElems(doc, p, s, t, 0);
      var mid := Progress(s.elems, t.elems, n);
      var d1 := PutAt(doc, p, Array(mid));
      if |s.elems| > |t.elems| {
        RemovesFail(d1, p, mid, n);
        SecondFails(doc, first, removes);
        RunOpsFail(doc, first + removes, adds);
      } else {
        NoRemoves(path, n);
        assert first + removes == first;
        AddsFail(d1, p, mid, t.elems, n);
        SecondFails(doc, first, adds);
      }
    }
  }

  lemma NoRemoves(path: Bytes, n: nat)
    ensures RemoveOps(path, n, n) == []
  {
  }

  lemma NotAddressable(s: Json, t: Json)
    requires !Addressable(s, t)
    ensures !JsonEq(s, t) && ((s.Array? && t.Array?) || (s.Object? && t.Object?))
    ensures s.Array? && ElemsOk(s, t) ==> |s.elems| != |t.elems| && (|s.elems| > 0x8000_0000 || |t.elems| > 0x8000_0000)
    ensures s.Object? ==> exists k :: k in s.members && k in t.members && !Addressable(s.members[k], t.members[k])
  {
    hide JsonEq;
    hide ElemOk;
  }

  lemma BadElem(s: Json, t: Json) returns (bad: nat)
    requires s.Array? && t.Array? && !ElemsOk(s, t)
    ensures bad < Min(|s.elems|, |t.elems|) && bad < |s.elems| && bad < |t.elems|
    ensures !ElemOk(s.elems[bad], t.elems[bad], bad)
  {
    hide ElemOk;
    bad :| 0 <= bad < Min(|s.elems|, |t.elems|) && !ElemOk(s.elems[bad], t.elems[bad], bad);
  }

  lemma {:induction false} MembersFail(doc: Json, p: seq<Bytes>, s: Json, t: Json, ks: seq<Bytes>, m: map<Bytes, Json>, bad: Bytes)
    requires s.Object? && t.Object? && (forall k :: k in ks ==> k in s.members) && Ascending(ks)
    requires bad in ks && bad in t.members && !Addressable(s.members[bad], t.members[bad])
    requires forall k :: k in ks ==> k in m && m[k] == s.members[k]
    requires Resolve(doc, p) == Ok(Object(m))
    ensures RunOps(doc, DiffMembers(s, t, ToString(p), ks)).Err?
    decreases s, 0, |ks|
  {
    hide *;
    DiffMembersUnfold(s, t, ToString(p), ks, m);
    var k := ks[0];
    KeyPathTokens(p, k);
    AscendingTail(ks);
    var rest := DiffMembers(s, t, ToString(p), ks[1..]);
    if k in t.members {
      MemberStep(doc, p, m, k, Merged(s.members[k], t.members[k]));
      var d := Diff(s.members[k], t.members[k], KeyPath(ToString(p), k));
      if !Addressable(s.members[k], t.members[k]) {
        DiffFails(doc, p + [k], s.members[k], t.members[k]);
        RunOpsFail(doc, d, rest);
      } else {
        var m' := m[k := Merged(s.members[k], t.members[k])];
        DiffRuns(doc, p + [k], s.members[k], t.members[k]);
        MembersFail(PutAt(doc, p, Object(m')), p, s, t, ks[1..], m', bad);
        SecondFails(doc, d, rest);
      }
    } else {
      var m' := m - {k};
      RemoveMember(m, k);
      RemoveHere(doc, p, k);
      RunOne(doc, RemoveOp(KeyPath(ToString(p), k)), rest);
      MembersFail(PutAt(doc, p, Object(m')), p, s, t, ks[1..], m', bad);
    }
  }

  lemma {:induction false} ObjectFails(doc: Json, p: seq<Bytes>, s: Json, t: Json)
    requires s.Object? && t.Object? && !Addressable(s, t) && Resolve(doc, p) == Ok(s)
    ensures RunOps(doc, Diff(s, t, ToString(p))).Err?
    decreases s, 1
  {
    hide *;
    NotAddressable(s, t);
    var bad :| bad in s.members && bad in t.members && !Addressable(s.members[bad], t.members[bad]);
    var path, ks := ToString(p), SortedKeys(s.members.Keys);
    DiffObjectUnfold(s, t, path);
    MembersFail(doc, p, s, t, ks, s.members, bad);
    RunOpsFail(doc, DiffMembers(s, t, path, ks), AddMembers(s, t, path, SortedKeys(t.members.Keys)));
  }

  /** A script that must name an index out of reach fails. */
  lemma {:induction false} DiffFails(doc: Json, p: seq<Bytes>, s: Json, t: Json)
    requires !Addressable(s, t) && Resolve(doc, p) == Ok(s)
    ensures RunOps(doc, Diff(s, t, ToString(p))).Err?
    decreases s, 2
  {
    hide *;
    NotAddressable(s, t);
    if s.Array? {
      ArrayFails(doc, p, s, t);
    } else {
      ObjectFails(doc, p, s, t);
    }
  }

  // ---------- the theorem ----------

  /**
    The documented invariant, for every source and target: patching with the diff
    succeeds exactly when every index is within reach, and the result is `==` to
    the target exactly when moreover the target holds no NaN.
   */
  lemma PatchDiff(source: Json, target: Json)
    ensures var r := Patch(source, Array(Diff(source, target, [])));
            && (r.Ok? <==> Addressable(source, target))
            && (r.Ok? ==> (JsonEq(r.value, target) <==> NaNFree(target)))
  {
    hide RunOps;
    hide Diff;
    hide JsonEq;
    hide Merged;
    hide Addressable;
    assert ToString([]) == [];
    if Addressable(source, target) {
      DiffRuns(source, [], source, target);
      MergedEqTarget(source, target);
    } else {
      DiffFails(source, [], source, target);
    }
  }

  /** The same law in context: the value at `p` becomes `==` to `t`, every diverging location is untouched. */
  lemma DiffIsLocal(doc: Json, p: seq<Bytes>, s: Json, t: Json, elsewhere: seq<Bytes>)
    requires Resolve(doc, p) == Ok(s) && Diverge(doc, p, elsewhere)
    ensures var r := Patch(doc, Array(Diff(s, t, ToString(p))));
            && (r.Ok? <==> Addressable(s, t))
            && (r.Ok? ==>
                  && Resolve(r.value, p).Ok?
                  && (JsonEq(Resolve(r.value, p).value, t) <==> NaNFree(t))
                  && Resolve(r.value, elsewhere) == Resolve(doc, elsewhere))
  {
    hide RunOps;
    hide Diff;
    hide JsonEq;
    hide Merged;
    hide Resolve;
    hide PutAt;
    hide Diverge;
    hide ToString;
    hide Addressable;
    if Addressable(s, t) {
      DiffRuns(doc, p, s, t);
      MergedEqTarget(s, t);
      PutElsewhere(doc, p, Merged(s, t), elsewhere);
    } else {
      DiffFails(doc, p, s, t);
    }
  }

  /** One element too many: an array of 2^31 + 1 nulls cannot be patched to the empty array. */
  lemma HugeArrayFails()
    ensures var source := Array(seq(0x8000_0001, _ => Null));
            Patch(source, Array(Diff(source, Array([]), []))).Err?
  {
    hide Patch;
    hide Diff;
    var source := Array(seq(0x8000_0001, _ => Null));
    PatchDiff(source, Array([]));
  }
}
