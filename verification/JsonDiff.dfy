/**
  The edit script that turns one value into another (json.hpp `diff`), and the
  law it is documented with: `source.patch(diff(source, target)) == target`.
 */
module JsonDiff {
  import opened JsonValue
  import opened JsonPointer
  import opened JsonPatch

  // ---------- the operations `diff` emits ----------

  function ReplaceOp(path: Bytes, v: Json): Json {
    Object(map[OP := String(REPLACE), PATH := String(path), VALUE := v])
  }

  function AddOp(path: Bytes, v: Json): Json {
    Object(map[OP := String(ADD), PATH := String(path), VALUE := v])
  }

  function RemoveOp(path: Bytes): Json {
    Object(map[OP := String(REMOVE), PATH := String(path)])
  }

  // ---------- diff ----------

  predicate SameType(s: Json, t: Json) {
    match (s, t)
    case (Null, Null) => true
    case (Bool(_), Bool(_)) => true
    case (Int(_), Int(_)) => true
    case (Uint(_), Uint(_)) => true
    case (Float(_), Float(_)) => true
    case (String(_), String(_)) => true
    case (Array(_), Array(_)) => true
    case (Object(_), Object(_)) => true
    case (_, _) => false
  }

  function Min(a: nat, b: nat): nat { if a <= b then a else b }

  function Diff(s: Json, t: Json, path: Bytes): seq<Json>
    decreases s, 1, 0
  {
    if JsonEq(s, t) then []
    else if s.Array? && t.Array? then
      var n := Min(|s.elems|, |t.elems|);
      DiffElems(s, t, path, 0) + RemoveOps(path, n, |s.elems|) + AddOps(path, t.elems, n)
    else if s.Object? && t.Object? then
      DiffMembers(s, t, path, SortedKeys(s.members.Keys))
      + AddMembers(s, t, path, SortedKeys(t.members.Keys))
    else [ReplaceOp(path, t)]
  }

  /** First pass over two arrays: the common indices from `i` on. */
  function DiffElems(s: Json, t: Json, path: Bytes, i: nat): seq<Json>
    requires s.Array? && t.Array? && i <= Min(|s.elems|, |t.elems|)
    decreases s, 0, |s.elems| - i
  {
    if i == Min(|s.elems|, |t.elems|) then []
    else Diff(s.elems[i], t.elems[i], IndexPath(path, i)) + DiffElems(s, t, path, i + 1)
  }

  /** Surplus source elements are removed from the highest index down. */
  function RemoveOps(path: Bytes, lo: nat, hi: nat): seq<Json>
    requires lo <= hi
    decreases hi
  {
    if lo == hi then [] else [RemoveOp(IndexPath(path, hi - 1))] + RemoveOps(path, lo, hi - 1)
  }

  /** Surplus target elements are added from the lowest index up. */
  function AddOps(path: Bytes, es: seq<Json>, lo: nat): seq<Json>
    requires lo <= |es|
    decreases |es| - lo
  {
    if lo == |es| then [] else [AddOp(IndexPath(path, lo), es[lo])] + AddOps(path, es, lo + 1)
  }

  /** First pass over two objects: the source's keys. */
  function DiffMembers(s: Json, t: Json, path: Bytes, ks: seq<Bytes>): seq<Json>
    requires s.Object? && t.Object? && forall k :: k in ks ==> k in s.members
    decreases s, 0, |ks|
  {
    if ks == [] then [] else
      var k := ks[0];
      (if k in t.members then Diff(s.members[k], t.members[k], KeyPath(path, k))
       else [RemoveOp(KeyPath(path, k))]) + DiffMembers(s, t, path, ks[1..])
  }

  /** Second pass over two objects: the target's new keys. */
  function AddMembers(s: Json, t: Json, path: Bytes, ks: seq<Bytes>): seq<Json>
    requires s.Object? && t.Object? && forall k :: k in ks ==> k in t.members
    decreases |ks|
  {
    if ks == [] then []
    else (if ks[0] in s.members then [] else [AddOp(KeyPath(path, ks[0]), t.members[ks[0]])])
         + AddMembers(s, t, path, ks[1..])
  }

  // ---------- the loops of diff ----------

  lemma {:induction false} RemoveOpsSnoc(path: Bytes, lo: nat, hi: nat)
    requires lo <= hi
    ensures RemoveOps(path, lo, hi + 1) == [RemoveOp(IndexPath(path, hi))] + RemoveOps(path, lo, hi)
  {
  }

  lemma {:induction false} DiffElemsSplit(s: Json, t: Json, path: Bytes, i: nat, done: seq<Json>)
    requires s.Array? && t.Array? && i < Min(|s.elems|, |t.elems|)
    ensures done + DiffElems(s, t, path, i) ==
            done + Diff(s.elems[i], t.elems[i], IndexPath(path, i)) + DiffElems(s, t, path, i + 1)
  {
    hide Diff;
    hide IndexPath;
  }

  lemma AddOpsSplit(path: Bytes, es: seq<Json>, lo: nat, done: seq<Json>)
    requires lo < |es|
    ensures done + AddOps(path, es, lo) ==
            done + [AddOp(IndexPath(path, lo), es[lo])] + AddOps(path, es, lo + 1)
  {
    hide IndexPath;
    hide AddOp;
  }

  method DiffLoop(s: Json, t: Json, path: Bytes) returns (result: seq<Json>)
    ensures result == Diff(s, t, path)
    decreases s, 1
  {
    hide IndexPath;
    hide KeyPath;
    result := [];
    if JsonEq(s, t) {
      return;
    }
    if !SameType(s, t) {
      result := result + [ReplaceOp(path, t)];
      return;
    }
    match s {
      case Array(_) => result := DiffArrayLoop(s, t, path);
      case Object(_) => result := DiffObjectLoop(s, t, path);
      case _ => result := result + [ReplaceOp(path, t)];
    }
  }

  method DiffArrayLoop(s: Json, t: Json, path: Bytes) returns (result: seq<Json>)
    requires s.Array? && t.Array?
    ensures var n := Min(|s.elems|, |t.elems|);
            result == DiffElems(s, t, path, 0) + RemoveOps(path, n, |s.elems|) + AddOps(path, t.elems, n)
    decreases s, 0
  {
    hide IndexPath;
    hide JsonEq;
    hide Diff;
    hide DiffElems;
    hide RemoveOps;
    hide AddOps;
    result := [];
    var i := 0;
    ghost var n := Min(|s.elems|, |t.elems|);
    ghost var first := DiffElems(s, t, path, 0);
    while i < |s.elems| && i < |t.elems|
      invariant i <= n
      invariant result + DiffElems(s, t, path, i) == first
    {
      var temp := DiffLoop(s.elems[i], t.elems[i], IndexPath(path, i));
      DiffElemsSplit(s, t, path, i, result);
      result := result + temp;
      i := i + 1;
    }
    PassesEnd(s, t, path);
    assert result == first;
    var endIndex := |result|;
    ghost var removed: seq<Json> := [];
    while i < |s.elems|
      invariant n <= i && (i <= |s.elems| || i == n)
      invariant endIndex == |first| && removed == RemoveOps(path, n, i) && result == first + removed
    {
      RemoveOpsSnoc(path, n, i);
      result := result[..endIndex] + [RemoveOp(IndexPath(path, i))] + result[endIndex..];
      removed := [RemoveOp(IndexPath(path, i))] + removed;
      i := i + 1;
    }
    assert i == |s.elems|;
    ghost var both := result;
    ghost var added := AddOps(path, t.elems, n);
    assert i < |t.elems| ==> i == n;
    while i < |t.elems|
      invariant n <= i <= |t.elems| || (n == |t.elems| && i >= n)
      invariant both + added == result + if i <= |t.elems| then AddOps(path, t.elems, i) else []
    {
      AddOpsSplit(path, t.elems, i, result);
      result := result + [AddOp(IndexPath(path, i), t.elems[i])];
      i := i + 1;
    }
  }

  lemma PassesEnd(s: Json, t: Json, path: Bytes)
    requires s.Array? && t.Array?
    ensures var n := Min(|s.elems|, |t.elems|);
            DiffElems(s, t, path, n) == [] == RemoveOps(path, n, n) && AddOps(path, t.elems, |t.elems|) == []
  {
  }

  lemma DiffMembersSplit(s: Json, t: Json, path: Bytes, ks: seq<Bytes>, n: nat, done: seq<Json>)
    requires s.Object? && t.Object? && (forall k :: k in ks ==> k in s.members) && n < |ks|
    ensures var k := ks[n];
            var step := if k in t.members then Diff(s.members[k], t.members[k], KeyPath(path, k))
                        else [RemoveOp(KeyPath(path, k))];
            done + DiffMembers(s, t, path, ks[n..]) == (done + step) + DiffMembers(s, t, path, ks[n + 1..])
  {
    hide Diff;
    hide KeyPath;
    hide RemoveOp;
    assert ks[n..][0] == ks[n] && ks[n..][1..] == ks[n + 1..];
  }

  lemma AddMembersSplit(s: Json, t: Json, path: Bytes, ks: seq<Bytes>, n: nat, done: seq<Json>)
    requires s.Object? && t.Object? && (forall k :: k in ks ==> k in t.members) && n < |ks|
    ensures var k := ks[n];
            var step := if k in s.members then [] else [AddOp(KeyPath(path, k), t.members[k])];
            done + AddMembers(s, t, path, ks[n..]) == (done + step) + AddMembers(s, t, path, ks[n + 1..])
  {
    hide KeyPath;
    hide AddOp;
    assert ks[n..][0] == ks[n] && ks[n..][1..] == ks[n + 1..];
  }

  method DiffObjectLoop(s: Json, t: Json, path: Bytes) returns (result: seq<Json>)
    requires s.Object? && t.Object?
    ensures result == DiffMembers(s, t, path, SortedKeys(s.members.Keys))
                      + AddMembers(s, t, path, SortedKeys(t.members.Keys))
    decreases s, 0
  {
    hide *;
    result := [];
    var ks := SortedKeys(s.members.Keys);
    ghost var first := DiffMembers(s, t, path, ks);
    assert ks[0..] == ks;
    for n := 0 to |ks|
      invariant first == result + DiffMembers(s, t, path, ks[n..])
    {
      var k := ks[n];
      DiffMembersSplit(s, t, path, ks, n, result);
      if k in t.members {
        var temp := DiffLoop(s.members[k], t.members[k], KeyPath(path, k));
        result := result + temp;
      } else {
        result := result + [RemoveOp(KeyPath(path, k))];
      }
    }
    MembersEnd(s, t, path);
    assert ks[|ks|..] == [];
    assert result == first;
    var us := SortedKeys(t.members.Keys);
    ghost var second := AddMembers(s, t, path, us);
    assert us[0..] == us;
    for n := 0 to |us|
      invariant first + second == result + AddMembers(s, t, path, us[n..])
    {
      var k := us[n];
      AddMembersSplit(s, t, path, us, n, result);
      assert result + [] == result;
      if k !in s.members {
        result := result + [AddOp(KeyPath(path, k), t.members[k])];
      }
    }
    assert us[|us|..] == [];
  }

  lemma MembersEnd(s: Json, t: Json, path: Bytes)
    requires s.Object? && t.Object?
    ensures DiffMembers(s, t, path, []) == [] == AddMembers(s, t, path, [])
  {
  }
}
