/**
  Why each operation of a diff is there: it replaces a value by the target's where
  the two differ and are not containers of one kind, or removes or adds an element
  or member that one of two such containers lacks.
 */
module JsonDiffOps {
  import opened JsonValue
  import opened JsonPointer
  import opened JsonPatch
  import opened JsonDiff
  import opened JsonDiffLaw
  import opened JsonDiffExact

  /** Walking `s` and `t` together along `q` leads to `x` and `y`. */
  ghost predicate Meets(s: Json, t: Json, q: seq<Bytes>, x: Json, y: Json)
    decreases |q|
  {
    if q == [] then x == s && y == t
    else if s.Array? && t.Array? then
      exists i: nat :: i < |s.elems| && i < |t.elems| && q[0] == Decimal(i) && Meets(s.elems[i], t.elems[i], q[1..], x, y)
    else s.Object? && t.Object? && q[0] in s.members && q[0] in t.members
         && Meets(s.members[q[0]], t.members[q[0]], q[1..], x, y)
  }

  /** An operation at `b` that the difference of `x` and `y` itself calls for. */
  ghost predicate CalledFor(op: Json, b: seq<Bytes>, x: Json, y: Json) {
    || (op == ReplaceOp(ToString(b), y) && !JsonEq(x, y) && !(x.Array? && y.Array?) && !(x.Object? && y.Object?))
    || (x.Array? && y.Array? && exists i: nat ::
          (|y.elems| <= i < |x.elems| && op == RemoveOp(ToString(b + [Decimal(i)])))
          || (|x.elems| <= i < |y.elems| && op == AddOp(ToString(b + [Decimal(i)]), y.elems[i])))
    || (x.Object? && y.Object? && exists k ::
          (k in x.members && k !in y.members && op == RemoveOp(ToString(b + [k])))
          || (k !in x.members && k in y.members && op == AddOp(ToString(b + [k]), y.members[k])))
  }

  ghost predicate Justified(op: Json, p: seq<Bytes>, s: Json, t: Json) {
    exists q, x, y :: Meets(s, t, q, x, y) && CalledFor(op, p + q, x, y)
  }

  ghost predicate AllJustified(ops: seq<Json>, p: seq<Bytes>, s: Json, t: Json) {
    forall n :: 0 <= n < |ops| ==> Justified(ops[n], p, s, t)
  }

  lemma Here(op: Json, p: seq<Bytes>, s: Json, t: Json)
    requires CalledFor(op, p, s, t)
    ensures Justified(op, p, s, t)
  {
    hide CalledFor;
    hide Meets;
    assert p + [] == p;
    MeetsHere(s, t);
  }

  lemma MeetsHere(s: Json, t: Json)
    ensures Meets(s, t, [], s, t)
  {
  }

  lemma FromElement(ops: seq<Json>, p: seq<Bytes>, s: Json, t: Json, i: nat)
    requires s.Array? && t.Array? && i < |s.elems| && i < |t.elems|
    requires AllJustified(ops, p + [Decimal(i)], s.elems[i], t.elems[i])
    ensures AllJustified(ops, p, s, t)
  {
    hide CalledFor;
    hide Decimal;
    forall n | 0 <= n < |ops| ensures Justified(ops[n], p, s, t) {
      var q, x, y :| Meets(s.elems[i], t.elems[i], q, x, y) && CalledFor(ops[n], p + [Decimal(i)] + q, x, y);
      var more := [Decimal(i)] + q;
      assert more[1..] == q && p + more == p + [Decimal(i)] + q;
      assert Meets(s, t, more, x, y);
    }
  }

  lemma FromMember(ops: seq<Json>, p: seq<Bytes>, s: Json, t: Json, k: Bytes)
    requires s.Object? && t.Object? && k in s.members && k in t.members
    requires AllJustified(ops, p + [k], s.members[k], t.members[k])
    ensures AllJustified(ops, p, s, t)
  {
    hide CalledFor;
    forall n | 0 <= n < |ops| ensures Justified(ops[n], p, s, t) {
      var q, x, y :| Meets(s.members[k], t.members[k], q, x, y) && CalledFor(ops[n], p + [k] + q, x, y);
      var more := [k] + q;
      assert more[1..] == q && p + more == p + [k] + q;
      assert Meets(s, t, more, x, y);
    }
  }

  lemma Joined(a: seq<Json>, b: seq<Json>, p: seq<Bytes>, s: Json, t: Json)
    requires AllJustified(a, p, s, t) && AllJustified(b, p, s, t)
    ensures AllJustified(a + b, p, s, t)
  {
    hide Justified;
  }

  lemma NoneNeeded(p: seq<Bytes>, s: Json, t: Json)
    ensures AllJustified([], p, s, t)
  {
  }

  lemma OneNeeded(op: Json, p: seq<Bytes>, s: Json, t: Json)
    requires CalledFor(op, p, s, t)
    ensures AllJustified([op], p, s, t)
  {
    hide CalledFor;
    hide Justified;
    Here(op, p, s, t);
  }

  lemma {:induction false} RemovesJustified(p: seq<Bytes>, s: Json, t: Json, lo: nat, hi: nat)
    requires s.Array? && t.Array? && |t.elems| <= lo <= hi <= |s.elems|
    ensures AllJustified(RemoveOps(ToString(p), lo, hi), p, s, t)
    decreases hi
  {
    hide Justified;
    hide ToString;
    hide IndexPath;
    hide RemoveOp;
    hide Decimal;
    hide AllJustified;
    if lo == hi {
      NoneNeeded(p, s, t);
    } else {
      IndexPathTokens(p, hi - 1);
      var op := RemoveOp(IndexPath(ToString(p), hi - 1));
      OneNeeded(op, p, s, t);
      RemovesJustified(p, s, t, lo, hi - 1);
      Joined([op], RemoveOps(ToString(p), lo, hi - 1), p, s, t);
    }
  }

  lemma {:induction false} AddsJustified(p: seq<Bytes>, s: Json, t: Json, lo: nat)
    requires s.Array? && t.Array? && |s.elems| <= lo <= |t.elems|
    ensures AllJustified(AddOps(ToString(p), t.elems, lo), p, s, t)
    decreases |t.elems| - lo
  {
    hide Justified;
    hide ToString;
    hide IndexPath;
    hide AddOp;
    hide Decimal;
    hide AllJustified;
    if lo == |t.elems| {
      NoneNeeded(p, s, t);
    } else {
      IndexPathTokens(p, lo);
      var op := AddOp(IndexPath(ToString(p), lo), t.elems[lo]);
      OneNeeded(op, p, s, t);
      AddsJustified(p, s, t, lo + 1);
      Joined([op], AddOps(ToString(p), t.elems, lo + 1), p, s, t);
    }
  }

  lemma {:induction false} ElemsJustified(p: seq<Bytes>, s: Json, t: Json, i: nat)
    requires s.Array? && t.Array? && i <= Min(|s.elems|, |t.elems|)
    ensures AllJustified(DiffElems(s, t, ToString(p), i), p, s, t)
    decreases s, 0, |s.elems| - i
  {
    hide *;
    DiffElemsUnfold(s, t, ToString(p), i);
    if i == Min(|s.elems|, |t.elems|) {
      NoneNeeded(p, s, t);
    } else {
      IndexPathTokens(p, i);
      DiffJustified(p + [Decimal(i)], s.elems[i], t.elems[i]);
      FromElement(Diff(s.elems[i], t.elems[i], IndexPath(ToString(p), i)), p, s, t, i);
      ElemsJustified(p, s, t, i + 1);
      Joined(Diff(s.elems[i], t.elems[i], IndexPath(ToString(p), i)), DiffElems(s, t, ToString(p), i + 1), p, s, t);
    }
  }

  lemma RemovalOfKey(p: seq<Bytes>, s: Json, t: Json, k: Bytes)
    requires s.Object? && t.Object? && k in s.members && k !in t.members
    ensures CalledFor(RemoveOp(ToString(p + [k])), p, s, t)
  {
    hide ToString;
    hide RemoveOp;
  }

  lemma AdditionOfKey(p: seq<Bytes>, s: Json, t: Json, k: Bytes)
    requires s.Object? && t.Object? && k !in s.members && k in t.members
    ensures CalledFor(AddOp(ToString(p + [k]), t.members[k]), p, s, t)
  {
    hide ToString;
    hide AddOp;
  }

  lemma {:induction false} MembersJustified(p: seq<Bytes>, s: Json, t: Json, ks: seq<Bytes>)
    requires s.Object? && t.Object? && forall k :: k in ks ==> k in s.members
    ensures AllJustified(DiffMembers(s, t, ToString(p), ks), p, s, t)
    decreases s, 0, |ks|
  {
    hide *;
    DiffMembersUnfold(s, t, ToString(p), ks, s.members);
    if ks == [] {
      NoneNeeded(p, s, t);
    } else {
      var k := ks[0];
      KeyPathTokens(p, k);
      var rest := DiffMembers(s, t, ToString(p), ks[1..]);
      MembersJustified(p, s, t, ks[1..]);
      if k in t.members {
        DiffJustified(p + [k], s.members[k], t.members[k]);
        FromMember(Diff(s.members[k], t.members[k], KeyPath(ToString(p), k)), p, s, t, k);
        Joined(Diff(s.members[k], t.members[k], KeyPath(ToString(p), k)), rest, p, s, t);
      } else {
        RemovalOfKey(p, s, t, k);
        OneNeeded(RemoveOp(KeyPath(ToString(p), k)), p, s, t);
        Joined([RemoveOp(KeyPath(ToString(p), k))], rest, p, s, t);
      }
    }
  }

  lemma {:induction false} NewMembersJustified(p: seq<Bytes>, s: Json, t: Json, ks: seq<Bytes>)
    requires s.Object? && t.Object? && forall k :: k in ks ==> k in t.members
    ensures AllJustified(AddMembers(s, t, ToString(p), ks), p, s, t)
    decreases |ks|
  {
    hide *;
    AddMembersUnfold(s, t, ToString(p), ks, s.members);
    if ks == [] {
      NoneNeeded(p, s, t);
    } else {
      var k := ks[0];
      KeyPathTokens(p, k);
      var rest := AddMembers(s, t, ToString(p), ks[1..]);
      NewMembersJustified(p, s, t, ks[1..]);
      if k in s.members {
        assert [] + rest == rest;
      } else {
        AdditionOfKey(p, s, t, k);
        OneNeeded(AddOp(KeyPath(ToString(p), k), t.members[k]), p, s, t);
        Joined([AddOp(KeyPath(ToString(p), k), t.members[k])], rest, p, s, t);
      }
    }
  }

  lemma ReplacementOf(p: seq<Bytes>, s: Json, t: Json)
    requires !JsonEq(s, t) && !(s.Array? && t.Array?) && !(s.Object? && t.Object?)
    ensures CalledFor(ReplaceOp(ToString(p), t), p, s, t)
  {
    hide ToString;
    hide ReplaceOp;
    hide JsonEq;
  }

  lemma SmallerOf(a: nat, b: nat)
    ensures Min(a, b) <= a && Min(a, b) <= b && (Min(a, b) == a || Min(a, b) == b)
  {
  }

  /** Every operation of `diff(s, t, p)` is called for by a difference between `s` and `t`. */
  lemma {:induction false} DiffJustified(p: seq<Bytes>, s: Json, t: Json)
    ensures AllJustified(Diff(s, t, ToString(p)), p, s, t)
    decreases s, 1
  {
    hide *;
    var path := ToString(p);
    if JsonEq(s, t) {
      EqualDiff(s, t, path);
      NoneNeeded(p, s, t);
    } else if s.Array? && t.Array? {
      var n := Min(|s.elems|, |t.elems|);
      SmallerOf(|s.elems|, |t.elems|);
      DiffArrayUnfold(s, t, path);
      ElemsJustified(p, s, t, 0);
      SurplusJustified(p, s, t);
      Joined(DiffElems(s, t, path, 0), RemoveOps(path, n, |s.elems|), p, s, t);
      Joined(DiffElems(s, t, path, 0) + RemoveOps(path, n, |s.elems|), AddOps(path, t.elems, n), p, s, t);
    } else if s.Object? && t.Object? {
      var ks, us := SortedKeys(s.members.Keys), SortedKeys(t.members.Keys);
      DiffObjectUnfold(s, t, path);
      MembersJustified(p, s, t, ks);
      NewMembersJustified(p, s, t, us);
      Joined(DiffMembers(s, t, path, ks), AddMembers(s, t, path, us), p, s, t);
    } else {
      OtherDiff(s, t, path);
      ReplacementOf(p, s, t);
      OneNeeded(ReplaceOp(path, t), p, s, t);
    }
  }

  lemma SurplusJustified(p: seq<Bytes>, s: Json, t: Json)
    requires s.Array? && t.Array?
    ensures var n := Min(|s.elems|, |t.elems|);
            && n <= |s.elems| && n <= |t.elems|
            && AllJustified(RemoveOps(ToString(p), n, |s.elems|), p, s, t)
            && AllJustified(AddOps(ToString(p), t.elems, n), p, s, t)
  {
    hide AllJustified;
    hide ToString;
    var n := Min(|s.elems|, |t.elems|);
    NoneNeeded(p, s, t);
    if n == |t.elems| {
      RemovesJustified(p, s, t, n, |s.elems|);
    }
    if n == |s.elems| {
      AddsJustified(p, s, t, n);
    }
  }
}
