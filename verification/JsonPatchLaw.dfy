/**
  What each operation of a script does to a document (section 4 of RFC 6902),
  said through what pointers resolve to before and after it.
 */
module JsonPatchLaw {
  import opened JsonValue
  import opened JsonPointer
  import opened JsonPatch
  import opened JsonDiff
  import opened JsonDiffLaw

  function MoveOp(from: Bytes, path: Bytes): Json {
    Object(map[OP := String(MOVE), FROM := String(from), PATH := String(path)])
  }

  function CopyOp(from: Bytes, path: Bytes): Json {
    Object(map[OP := String(COPY), FROM := String(from), PATH := String(path)])
  }

  function TestOp(path: Bytes, v: Json): Json {
    Object(map[OP := String(TEST), PATH := String(path), VALUE := v])
  }

  // ---------- add and remove in arrays ----------

  /** `fs` is `es` with `v` put in at `i`: one longer, the others in their order. */
  ghost predicate IsInsertion(fs: seq<Json>, es: seq<Json>, i: nat, v: Json) {
    && i <= |es| && |fs| == |es| + 1 && fs[i] == v
    && (forall k :: 0 <= k < i ==> fs[k] == es[k])
    && (forall k :: i <= k < |es| ==> fs[k + 1] == es[k])
  }

  lemma PerformInsert(es: seq<Json>, i: nat, v: Json)
    requires i <= |es| && i < 0x8000_0000
    ensures var r := Perform(Array(es), AddChild(Decimal(i), v));
            r.Ok? && r.value.Array? && IsInsertion(r.value.elems, es, i, v)
  {
    hide Stoi;
    hide Decimal;
    StoiDecimal(i);
    NoDash(i);
  }

  lemma NoDash(i: nat)
    ensures Decimal(i) != DASH
  {
    assert Decimal(i)[0] != DASH[0];
  }

  lemma PerformErase(es: seq<Json>, i: nat)
    requires i < |es| && i < 0x8000_0000
    ensures var r := Perform(Array(es), RemoveChild(Decimal(i)));
            r.Ok? && r.value.Array? && IsInsertion(es, r.value.elems, i, es[i])
  {
    hide Stoi;
    hide Decimal;
    StoiDecimal(i);
  }

  lemma InsertionUnique(fs: seq<Json>, gs: seq<Json>, es: seq<Json>, i: nat, v: Json)
    requires IsInsertion(fs, es, i, v) && IsInsertion(gs, es, i, v)
    ensures fs == gs
  {
    forall k | 0 <= k < |fs| ensures fs[k] == gs[k] {
      if k > i {
        assert fs[(k - 1) + 1] == es[k - 1] && gs[(k - 1) + 1] == es[k - 1];
      }
    }
  }

  lemma ErasureUnique(fs: seq<Json>, es: seq<Json>, gs: seq<Json>, i: nat, v: Json)
    requires IsInsertion(fs, es, i, v) && IsInsertion(fs, gs, i, v)
    ensures es == gs
  {
    forall k | 0 <= k < |es| ensures es[k] == gs[k] {
      if k >= i {
        assert fs[k + 1] == es[k] && fs[k + 1] == gs[k];
      }
    }
  }

  /** `add` at an index of an array puts the value in there; all else is as before. */
  lemma AddInArray(doc: Json, p: seq<Bytes>, es: seq<Json>, i: nat, v: Json) returns (fs: seq<Json>)
    requires Resolve(doc, p) == Ok(Array(es)) && i <= |es| && i < 0x8000_0000
    ensures IsInsertion(fs, es, i, v)
    ensures ApplyOp(doc, AddOp(ToString(p + [Decimal(i)]), v)) == Ok(PutAt(doc, p, Array(fs)))
  {
    hide *;
    PerformInsert(es, i, v);
    fs := Perform(Array(es), AddChild(Decimal(i), v)).value.elems;
    AddHere(doc, p, Decimal(i), v);
  }

  /** `remove` at an index of an array takes that element out; all else is as before. */
  lemma RemoveInArray(doc: Json, p: seq<Bytes>, fs: seq<Json>, i: nat) returns (es: seq<Json>)
    requires Resolve(doc, p) == Ok(Array(fs)) && i < |fs| && i < 0x8000_0000
    ensures IsInsertion(fs, es, i, fs[i])
    ensures ApplyOp(doc, RemoveOp(ToString(p + [Decimal(i)]))) == Ok(PutAt(doc, p, Array(es)))
  {
    hide *;
    PerformErase(fs, i);
    es := Perform(Array(fs), RemoveChild(Decimal(i))).value.elems;
    RemoveHere(doc, p, Decimal(i));
  }

  lemma ElementAt(doc: Json, p: seq<Bytes>, es: seq<Json>, i: nat)
    requires Resolve(doc, p) == Ok(Array(es)) && i < |es| && i < 0x8000_0000
    ensures Resolve(doc, p + [Decimal(i)]) == Ok(es[i])
  {
    hide Stoi;
    hide Decimal;
    StoiDecimal(i);
    NoDash(i);
    DecimalShape(i);
    ResolveConcat(doc, p, [Decimal(i)]);
    assert [Decimal(i)][1..] == [];
    assert Resolve(es[i], []) == Ok(es[i]);
  }

  lemma DecimalShape(i: nat)
    ensures !(|Decimal(i)| > 1 && Decimal(i)[0] == ZERO)
  {
  }

  /** After `add` the pointer leads to the value. */
  lemma AddedIsThere(doc: Json, p: seq<Bytes>, es: seq<Json>, i: nat, v: Json)
    requires Resolve(doc, p) == Ok(Array(es)) && i <= |es| && i < 0x8000_0000
    ensures var r := ApplyOp(doc, AddOp(ToString(p + [Decimal(i)]), v));
            r.Ok? && Resolve(r.value, p + [Decimal(i)]) == Ok(v)
  {
    hide *;
    var fs := AddInArray(doc, p, es, i, v);
    InsertedThere(fs, es, i, v);
    ElementAt(PutAt(doc, p, Array(fs)), p, fs, i);
  }

  lemma InsertedThere(fs: seq<Json>, es: seq<Json>, i: nat, v: Json)
    requires IsInsertion(fs, es, i, v)
    ensures i < |fs| && fs[i] == v
  {
  }

  lemma RunTwo(doc: Json, a: Json, b: Json)
    ensures RunOps(doc, [a, b]) ==
            if ApplyOp(doc, a).Err? then Err(ApplyOp(doc, a).error) else ApplyOp(ApplyOp(doc, a).value, b)
  {
    hide ApplyOp;
    assert [a, b][1..] == [b];
    if ApplyOp(doc, a).Ok? {
      RunSingle(ApplyOp(doc, a).value, b);
    }
  }

  lemma RunSingle(doc: Json, op: Json)
    ensures RunOps(doc, [op]) == ApplyOp(doc, op)
  {
    hide ApplyOp;
    if ApplyOp(doc, op).Ok? {
      RunNothing(ApplyOp(doc, op).value);
      assert [op][1..] == [];
    }
  }

  /** `add` then `remove` at the same index gives the document back. */
  lemma AddRemove(doc: Json, p: seq<Bytes>, es: seq<Json>, i: nat, v: Json)
    requires Resolve(doc, p) == Ok(Array(es)) && i <= |es| && i < 0x8000_0000
    ensures var ptr := ToString(p + [Decimal(i)]);
            RunOps(doc, [AddOp(ptr, v), RemoveOp(ptr)]) == Ok(doc)
  {
    hide *;
    var fs := AddInArray(doc, p, es, i, v);
    var mid := PutAt(doc, p, Array(fs));
    InsertedThere(fs, es, i, v);
    var gs := RemoveInArray(mid, p, fs, i);
    ErasureUnique(fs, es, gs, i, v);
    RunTwo(doc, AddOp(ToString(p + [Decimal(i)]), v), RemoveOp(ToString(p + [Decimal(i)])));
    PutPut(doc, p, Array(fs), Array(es));
    PutSame(doc, p);
  }

  /** `remove` then `add` of what was there gives the document back. */
  lemma RemoveAdd(doc: Json, p: seq<Bytes>, fs: seq<Json>, i: nat)
    requires Resolve(doc, p) == Ok(Array(fs)) && i < |fs| && i < 0x8000_0000
    ensures var ptr := ToString(p + [Decimal(i)]);
            RunOps(doc, [RemoveOp(ptr), AddOp(ptr, fs[i])]) == Ok(doc)
  {
    hide *;
    var es := RemoveInArray(doc, p, fs, i);
    var mid := PutAt(doc, p, Array(es));
    InsertionIn(fs, es, i, fs[i]);
    var gs := AddInArray(mid, p, es, i, fs[i]);
    InsertionUnique(fs, gs, es, i, fs[i]);
    RunTwo(doc, RemoveOp(ToString(p + [Decimal(i)])), AddOp(ToString(p + [Decimal(i)]), fs[i]));
    PutPut(doc, p, Array(es), Array(fs));
    PutSame(doc, p);
  }

  lemma InsertionIn(fs: seq<Json>, es: seq<Json>, i: nat, v: Json)
    requires IsInsertion(fs, es, i, v)
    ensures i <= |es|
  {
  }

  /** `add` at "-" appends. */
  lemma AddAtEnd(doc: Json, p: seq<Bytes>, es: seq<Json>, v: Json)
    requires Resolve(doc, p) == Ok(Array(es))
    ensures ApplyOp(doc, AddOp(ToString(p + [DASH]), v)) == Ok(PutAt(doc, p, Array(es + [v])))
  {
    hide ToString;
    hide Resolve;
    hide PutAt;
    hide AddOp;
    hide ApplyOp;
    AddHere(doc, p, DASH, v);
  }

  /** Beyond the end of an array neither operation works. */
  lemma IndexBeyond(doc: Json, p: seq<Bytes>, es: seq<Json>, i: nat, v: Json)
    requires Resolve(doc, p) == Ok(Array(es))
    ensures i > |es| ==> ApplyOp(doc, AddOp(ToString(p + [Decimal(i)]), v)) == Err(OutOfRange)
    ensures i >= |es| ==> ApplyOp(doc, RemoveOp(ToString(p + [Decimal(i)]))) == Err(OutOfRange)
  {
    hide ApplyOp;
    hide ToString;
    hide AddOp;
    hide RemoveOp;
    hide PutAt;
    hide Decimal;
    hide Stoi;
    hide EditUnchecked;
    var ts := p + [Decimal(i)];
    NoDash(i);
    StoiDecimal(i);
    ApplyAdd(doc, ts, v);
    ApplyRemove(doc, ts);
    assert ts[..|ts| - 1] == p && p + [] == p;
    if p != [] {
      assert [ts[0]] + p[1..] == p;
      assert Resolve(doc, [ts[0]]).Ok?;
    }
    UncheckedIsChecked(doc, p, AddChild(Decimal(i), v));
    EditConcat(doc, p, [], AddChild(Decimal(i), v));
    EditConcat(doc, p, [], RemoveChild(Decimal(i)));
  }

  // ---------- add and remove in objects ----------

  /** `add` and `remove` of a member set and delete that member only. */
  lemma MemberOps(doc: Json, p: seq<Bytes>, m: map<Bytes, Json>, k: Bytes, v: Json)
    requires Resolve(doc, p) == Ok(Object(m))
    ensures ApplyOp(doc, AddOp(ToString(p + [k]), v)) == Ok(PutAt(doc, p, Object(m[k := v])))
    ensures k in m ==> ApplyOp(doc, RemoveOp(ToString(p + [k]))) == Ok(PutAt(doc, p, Object(m - {k})))
    ensures k !in m ==> RunOps(doc, [AddOp(ToString(p + [k]), v), RemoveOp(ToString(p + [k]))]) == Ok(doc)
  {
    hide *;
    AddMember(m, k, v);
    AddHere(doc, p, k, v);
    if k in m {
      RemoveMember(m, k);
      RemoveHere(doc, p, k);
    } else {
      var m' := m[k := v];
      var mid := PutAt(doc, p, Object(m'));
      RemoveMember(m', k);
      RemoveHere(mid, p, k);
      RunTwo(doc, AddOp(ToString(p + [k]), v), RemoveOp(ToString(p + [k])));
      assert m' - {k} == m;
      PutPut(doc, p, Object(m'), Object(m));
      PutSame(doc, p);
    }
  }

  // ---------- replace ----------

  lemma EditFails(j: Json, ts: seq<Bytes>, e: Edit)
    requires Resolve(j, ts).Err?
    ensures EditAt(j, ts, e) == Err(Resolve(j, ts).error)
    decreases |ts|
  {
    hide Perform;
    hide Child;
    if ts != [] && Child(j, ts[0]).Ok? {
      EditFails(Child(j, ts[0]).value, ts[1..], e);
    }
  }

  /** `replace` works exactly where the pointer resolves, and changes that value only. */
  lemma ReplaceLaw(doc: Json, ptr: seq<Bytes>, v: Json)
    ensures ApplyOp(doc, ReplaceOp(ToString(ptr), v)) ==
            if Resolve(doc, ptr).Ok? then Ok(PutAt(doc, ptr, v)) else Err(Resolve(doc, ptr).error)
  {
    hide *;
    ApplyReplace(doc, ptr, v);
    if Resolve(doc, ptr).Ok? {
      var _ := PutAt(doc, ptr, v);
    } else {
      EditFails(doc, ptr, Put(v));
    }
  }

  // ---------- unchecked access ----------

  /** No token is "-", which names the place behind the last element. */
  predicate Dashless(ts: seq<Bytes>) {
    forall k :: 0 <= k < |ts| ==> ts[k] != DASH
  }

  /** Unchecked access creates the way to the place, and the edit happens there. */
  lemma {:induction false} UncheckedThere(j: Json, ts: seq<Bytes>, e: Edit)
    requires Dashless(ts) && EditUnchecked(j, ts, e).Ok?
    ensures var r := EditUnchecked(j, ts, e).value;
            Resolve(r, ts).Ok? && exists x :: Perform(x, e) == Resolve(r, ts)
    decreases |ts|
  {
    hide Perform;
    hide Stoi;
    if ts == [] {
      assert Resolve(EditUnchecked(j, ts, e).value, ts) == Perform(j, e);
    } else {
      assert Dashless(ts[1..]);
      match Opened(j, ts[0])
      case Object(m) => UncheckedThere(if ts[0] in m then m[ts[0]] else Null, ts[1..], e);
      case Array(es) =>
        var i := UncheckedIndex(es, ts[0]).value;
        UncheckedThere(Padded(es, i + 1)[i], ts[1..], e);
      case _ =>
    }
  }

  /** The two pointers name different children of some container on the way of `us`. */
  predicate Forks(j: Json, ts: seq<Bytes>, us: seq<Bytes>)
    requires Resolve(j, us).Ok?
    decreases |us|
  {
    ts != [] && us != [] &&
    (!SameChild(j, ts[0], us[0]) || Forks(Child(j, us[0]).value, ts[1..], us[1..]))
  }

  /** Unchecked access changes nothing that another pointer leads to. */
  lemma {:induction false} UncheckedElsewhere(j: Json, ts: seq<Bytes>, e: Edit, us: seq<Bytes>)
    requires EditUnchecked(j, ts, e).Ok? && Resolve(j, us).Ok? && Forks(j, ts, us)
    ensures Resolve(EditUnchecked(j, ts, e).value, us) == Resolve(j, us)
    decreases |ts|
  {
    hide Perform;
    hide Stoi;
    match j
    case Object(m) =>
      if ts[0] == us[0] {
        UncheckedElsewhere(m[ts[0]], ts[1..], e, us[1..]);
      }
    case Array(es) =>
      var i := UncheckedIndex(es, ts[0]).value;
      if i == CheckedIndex(us[0]).value && SameChild(j, ts[0], us[0]) {
        UncheckedElsewhere(es[i], ts[1..], e, us[1..]);
      }
    case _ =>
  }

  // ---------- add, in general ----------

  /** A token that names no existing element of an array. */
  predicate NoIndex(token: Bytes) {
    token == DASH || (|token| > 1 && token[0] == ZERO)
  }

  lemma AddChildThere(x: Json, last: Bytes, v: Json)
    requires Perform(x, AddChild(last, v)).Ok?
    ensures var r := Perform(x, AddChild(last, v)).value;
            Resolve(r, [last]) == Ok(v) <==> !(r.Array? && NoIndex(last))
  {
    hide Stoi;
    var r := Perform(x, AddChild(last, v)).value;
    assert [last][1..] == [];
    assert Resolve(v, []) == Ok(v);
  }

  /** Wherever `add` succeeds, the value is at the pointer, unless its last token names no element of an array. */
  lemma AddLeaves(doc: Json, p: seq<Bytes>, last: Bytes, v: Json)
    requires Dashless(p) && OperationAdd(doc, p + [last], v).Ok?
    ensures var r := OperationAdd(doc, p + [last], v).value;
            && Resolve(r, p).Ok?
            && (Resolve(r, p + [last]) == Ok(v) <==> !(Resolve(r, p).value.Array? && NoIndex(last)))
  {
    hide Resolve;
    hide Perform;
    hide EditUnchecked;
    hide NoIndex;
    hide Dashless;
    var ts := p + [last];
    assert ts[..|ts| - 1] == p;
    var r := OperationAdd(doc, ts, v).value;
    UncheckedThere(doc, p, AddChild(last, v));
    var x :| Perform(x, AddChild(last, v)) == Resolve(r, p);
    AddChildThere(x, last, v);
    ResolveConcat(r, p, [last]);
  }

  lemma AddAtRoot(doc: Json, v: Json)
    ensures OperationAdd(doc, [], v) == Ok(v)
  {
  }

  // ---------- move ----------

  /** `move` is `remove` at the one pointer, then `add` of what was there at the other. */
  lemma MoveLaw(doc: Json, from: seq<Bytes>, path: seq<Bytes>)
    ensures ApplyOp(doc, MoveOp(ToString(from), ToString(path))) ==
            if Resolve(doc, from).Err? then Err(Resolve(doc, from).error)
            else RunOps(doc, [RemoveOp(ToString(from)), AddOp(ToString(path), Resolve(doc, from).value)])
  {
    hide Resolve;
    hide OperationRemove;
    hide OperationAdd;
    hide RunOps;
    hide ToString;
    hide Split;
    SplitToString(from);
    SplitToString(path);
    if Resolve(doc, from).Ok? {
      var v := Resolve(doc, from).value;
      RunTwo(doc, RemoveOp(ToString(from)), AddOp(ToString(path), v));
      ApplyRemove(doc, from);
      if OperationRemove(doc, from).Ok? {
        ApplyAdd(OperationRemove(doc, from).value, path, v);
      }
    }
  }

  /** `move` leaves the value at its target. */
  lemma MoveLeaves(doc: Json, from: seq<Bytes>, p: seq<Bytes>, last: Bytes)
    requires Dashless(p) && ApplyOp(doc, MoveOp(ToString(from), ToString(p + [last]))).Ok?
    ensures var r := ApplyOp(doc, MoveOp(ToString(from), ToString(p + [last]))).value;
            && Resolve(doc, from).Ok? && Resolve(r, p).Ok?
            && (Resolve(r, p + [last]) == Resolve(doc, from) <==> !(Resolve(r, p).value.Array? && NoIndex(last)))
  {
    hide *;
    var path := p + [last];
    MoveLaw(doc, from, path);
    var v := Resolve(doc, from).value;
    RunTwo(doc, RemoveOp(ToString(from)), AddOp(ToString(path), v));
    var mid := ApplyOp(doc, RemoveOp(ToString(from))).value;
    ApplyAdd(mid, path, v);
    AddLeaves(mid, p, last, v);
  }

  // ---------- copy ----------

  lemma ApplyCopy(doc: Json, from: seq<Bytes>, path: seq<Bytes>)
    ensures ApplyOp(doc, CopyOp(ToString(from), ToString(path))) ==
            if Resolve(doc, from).Err? then Err(Resolve(doc, from).error)
            else EditUnchecked(doc, path, Put(Resolve(doc, from).value))
  {
    hide Resolve;
    hide EditUnchecked;
    hide ToString;
    hide Split;
    SplitToString(from);
    SplitToString(path);
  }

  /** `copy` leaves the value at its target, and every pointer that forks from the target as it was. */
  lemma CopyLeaves(doc: Json, from: seq<Bytes>, path: seq<Bytes>, us: seq<Bytes>)
    requires Dashless(path) && ApplyOp(doc, CopyOp(ToString(from), ToString(path))).Ok?
    ensures var r := ApplyOp(doc, CopyOp(ToString(from), ToString(path))).value;
            && Resolve(doc, from).Ok? && Resolve(r, path) == Resolve(doc, from)
            && (Resolve(doc, us).Ok? && Forks(doc, path, us) ==> Resolve(r, us) == Resolve(doc, us))
  {
    hide Resolve;
    hide EditUnchecked;
    hide ToString;
    hide ApplyOp;
    hide Forks;
    ApplyCopy(doc, from, path);
    var v := Resolve(doc, from).value;
    UncheckedThere(doc, path, Put(v));
    if Resolve(doc, us).Ok? && Forks(doc, path, us) {
      UncheckedElsewhere(doc, path, Put(v), us);
    }
  }

  /** In particular the original stays, unless the target lies on its way or below it. */
  lemma CopyKeepsOriginal(doc: Json, from: seq<Bytes>, path: seq<Bytes>)
    requires Dashless(path) && ApplyOp(doc, CopyOp(ToString(from), ToString(path))).Ok?
    requires Resolve(doc, from).Ok? && Forks(doc, path, from)
    ensures var r := ApplyOp(doc, CopyOp(ToString(from), ToString(path))).value;
            Resolve(r, from) == Resolve(doc, from) == Resolve(r, path)
  {
    hide *;
    CopyLeaves(doc, from, path, from);
  }

  /** Onto a pointer that resolves, `copy` always succeeds and changes that value only. */
  lemma CopyOnto(doc: Json, from: seq<Bytes>, path: seq<Bytes>)
    requires Resolve(doc, from).Ok? && Resolve(doc, path).Ok?
    ensures ApplyOp(doc, CopyOp(ToString(from), ToString(path))) ==
            Ok(PutAt(doc, path, Resolve(doc, from).value))
  {
    hide *;
    ApplyCopy(doc, from, path);
    UncheckedIsChecked(doc, path, Put(Resolve(doc, from).value));
    var _ := PutAt(doc, path, Resolve(doc, from).value);
  }

  // ---------- test ----------

  /** `test` succeeds exactly when the pointer resolves to an equal value, and changes nothing. */
  lemma TestLaw(doc: Json, ptr: seq<Bytes>, v: Json)
    ensures var r := ApplyOp(doc, TestOp(ToString(ptr), v));
            && (r.Ok? <==> Resolve(doc, ptr).Ok? && JsonEq(Resolve(doc, ptr).value, v))
            && (r.Ok? ==> r.value == doc)
  {
    hide Resolve;
    hide JsonEq;
    hide ToString;
    hide Split;
    SplitToString(ptr);
  }

  // ---------- operations that are none ----------

  predicate Named(op: Bytes) {
    op == ADD || op == REMOVE || op == REPLACE || op == MOVE || op == COPY || op == TEST
  }

  predicate HasText(val: Json, name: Bytes)
    requires val.Object?
  {
    name in val.members && val.members[name].String?
  }

  /** An operation needs an operation name, a path, and what the name calls for. */
  predicate Complete(val: Json) {
    && val.Object? && HasText(val, OP) && HasText(val, PATH) && Named(val.members[OP].s)
    && (val.members[OP].s == ADD || val.members[OP].s == REPLACE || val.members[OP].s == TEST ==> VALUE in val.members)
    && (val.members[OP].s == MOVE || val.members[OP].s == COPY ==> HasText(val, FROM))
  }

  lemma Incomplete(doc: Json, val: Json)
    requires !Complete(val)
    ensures ApplyOp(doc, val).Err?
    ensures !(val.Object? && HasText(val, PATH) && Split(val.members[PATH].s).Err?) ==>
              ApplyOp(doc, val) == Err(InvalidArgument)
  {
    hide Resolve;
    hide Split;
    hide OperationAdd;
    hide OperationRemove;
    hide OperationTest;
    hide EditAt;
    hide EditUnchecked;
  }
}
