/**
  Which values the library's `==` equates: those of the same shape, keys, strings
  and booleans whose numbers agree. Without floats these are exactly the values
  that differ at most in how their integers are stored; with it, what patching
  with a diff produces is said without `==`.
 */
module JsonEquality {
  import opened JsonValue
  import opened JsonPointer
  import opened JsonPatch
  import opened JsonDiff
  import opened JsonDiffLaw
  import opened JsonDiffExact
  import opened JsonPatchLaw
  import opened Binary
  import opened Doubles

  predicate IsNumber(j: Json) {
    j.Int? || j.Uint? || j.Float?
  }

  /**
    Numbers of one kind are the same number; a signed and an unsigned integer
    agree in their 64 bits; a double is the one nearest to the integer.
   */
  ghost predicate SameNumber(a: Json, b: Json)
    requires IsNumber(a) && IsNumber(b)
  {
    match (a, b)
    case (Int(x), Int(y)) => x == y
    case (Uint(x), Uint(y)) => x == y
    case (Int(x), Uint(y)) => (y - x) % 0x1_0000_0000_0000_0000 == 0
    case (Uint(x), Int(y)) => (x - y) % 0x1_0000_0000_0000_0000 == 0
    case (Float(x), Float(y)) => (Finite(x) && Finite(y) && Value(x) == Value(y)) || (x == y && x % SIGN64 == TOP)
    case (Float(x), Int(y)) => Nearest(x, y)
    case (Float(x), Uint(y)) => Nearest(x, y)
    case (Int(x), Float(y)) => Nearest(y, x)
    case (Uint(x), Float(y)) => Nearest(y, x)
  }

  /** Same shape, keys, strings and booleans, and the same numbers. */
  ghost predicate Same(a: Json, b: Json) {
    if IsNumber(a) && IsNumber(b) then SameNumber(a, b)
    else if a.Array? && b.Array? then
      |a.elems| == |b.elems| && forall i :: 0 <= i < |a.elems| ==> Same(a.elems[i], b.elems[i])
    else if a.Object? && b.Object? then
      (forall k :: k in a.members <==> k in b.members)
      && forall k :: k in a.members && k in b.members ==> Same(a.members[k], b.members[k])
    else (a.Null? || a.Bool? || a.String?) && a == b
  }

  lemma SameBits(u: uint64, i: int64)
    ensures AsSigned(u) == i <==> (u - i) % 0x1_0000_0000_0000_0000 == 0
  {
  }

  lemma NumbersEqual(a: Json, b: Json)
    requires IsNumber(a) && IsNumber(b)
    ensures JsonEq(a, b) <==> SameNumber(a, b)
  {
    hide Nearest;
    hide Value;
    hide DoubleOf;
    hide FloatEq;
    match (a, b)
    case (Int(x), Uint(y)) => SameBits(y, x);
    case (Uint(x), Int(y)) => SameBits(x, y);
    case (Float(x), Float(y)) => FloatEqMeaning(x, y);
    case (Float(x), Int(y)) => FloatEqInteger(x, y);
    case (Float(x), Uint(y)) => FloatEqInteger(x, y);
    case (Int(x), Float(y)) => FloatEqInteger(y, x);
    case (Uint(x), Float(y)) => FloatEqInteger(y, x);
    case (_, _) =>
  }

  /** `==` holds exactly between values that are the same in this sense. */
  lemma {:induction false} EqualIsSame(a: Json, b: Json)
    ensures JsonEq(a, b) <==> Same(a, b)
  {
    hide SameNumber;
    hide DoubleOf;
    hide FloatEq;
    hide AsSigned;
    if IsNumber(a) && IsNumber(b) {
      NumbersEqual(a, b);
    } else if a.Array? && b.Array? && |a.elems| == |b.elems| {
      forall i | 0 <= i < |a.elems| ensures JsonEq(a.elems[i], b.elems[i]) <==> Same(a.elems[i], b.elems[i]) {
        EqualIsSame(a.elems[i], b.elems[i]);
      }
    } else if a.Object? && b.Object? && a.members.Keys == b.members.Keys {
      forall k | k in a.members ensures JsonEq(a.members[k], b.members[k]) <==> Same(a.members[k], b.members[k]) {
        EqualIsSame(a.members[k], b.members[k]);
      }
    } else if a.Object? && b.Object? {
      KeysDiffer(a, b);
    }
  }

  lemma KeysDiffer(a: Json, b: Json)
    requires a.Object? && b.Object? && a.members.Keys != b.members.Keys
    ensures !(forall k :: k in a.members <==> k in b.members)
  {
  }

  // ---------- values without floats ----------

  /** The value with every integer replaced by its 64 bits. */
  function LowBits(j: Json): Json {
    match j
    case Int(i) => Uint(i % 0x1_0000_0000_0000_0000)
    case Array(es) => Array(seq(|es|, i requires 0 <= i < |es| => LowBits(es[i])))
    case Object(m) => Object(map k | k in m :: LowBits(m[k]))
    case _ => j
  }

  lemma BitsOf(u: uint64, i: int64)
    ensures (u - i) % 0x1_0000_0000_0000_0000 == 0 <==> u == i % 0x1_0000_0000_0000_0000
  {
  }

  lemma IntsBits(x: int64, y: int64)
    ensures x == y <==> x % 0x1_0000_0000_0000_0000 == y % 0x1_0000_0000_0000_0000
  {
  }

  lemma NumberBits(a: Json, b: Json)
    requires IsNumber(a) && IsNumber(b) && !a.Float? && !b.Float?
    ensures SameNumber(a, b) <==> LowBits(a) == LowBits(b)
  {
    match (a, b)
    case (Int(x), Int(y)) => IntsBits(x, y);
    case (Int(x), Uint(y)) => BitsOf(y, x);
    case (Uint(x), Int(y)) => BitsOf(x, y);
    case (_, _) =>
  }

  lemma ArrayBits(a: Json, b: Json)
    requires a.Array? && b.Array?
    ensures LowBits(a) == LowBits(b) <==>
              |a.elems| == |b.elems| && forall i :: 0 <= i < |a.elems| ==> LowBits(a.elems[i]) == LowBits(b.elems[i])
  {
    hide LowBits;
    ArrayBitsAt(a);
    ArrayBitsAt(b);
    var x, y := LowBits(a).elems, LowBits(b).elems;
    if x == y {
      forall i | 0 <= i < |a.elems| ensures LowBits(a.elems[i]) == LowBits(b.elems[i]) {
        assert x[i] == y[i];
      }
    }
    if |a.elems| == |b.elems| && forall i :: 0 <= i < |a.elems| ==> LowBits(a.elems[i]) == LowBits(b.elems[i]) {
      assert forall i :: 0 <= i < |x| ==> x[i] == y[i];
    }
  }

  lemma ArrayBitsAt(a: Json)
    requires a.Array?
    ensures LowBits(a).Array? && |LowBits(a).elems| == |a.elems|
    ensures forall i :: 0 <= i < |a.elems| ==> LowBits(a).elems[i] == LowBits(a.elems[i])
  {
  }

  lemma ObjectBits(a: Json, b: Json)
    requires a.Object? && b.Object?
    ensures LowBits(a) == LowBits(b) <==>
              a.members.Keys == b.members.Keys
              && forall k :: k in a.members && k in b.members ==> LowBits(a.members[k]) == LowBits(b.members[k])
  {
    hide LowBits;
    ObjectBitsAt(a);
    ObjectBitsAt(b);
    var x, y := LowBits(a).members, LowBits(b).members;
    if x == y {
      forall k | k in a.members && k in b.members ensures LowBits(a.members[k]) == LowBits(b.members[k]) {
        assert x[k] == y[k];
      }
    }
    if a.members.Keys == b.members.Keys
       && forall k :: k in a.members && k in b.members ==> LowBits(a.members[k]) == LowBits(b.members[k])
    {
      assert x.Keys == y.Keys && forall k :: k in x ==> x[k] == y[k];
      assert x == y;
    }
  }

  lemma ObjectBitsAt(a: Json)
    requires a.Object?
    ensures LowBits(a).Object? && LowBits(a).members.Keys == a.members.Keys
    ensures forall k :: k in a.members ==> LowBits(a).members[k] == LowBits(a.members[k])
  {
  }

  /** Without floats, `==` is equality of content up to the 64 bits of integers. */
  lemma {:induction false} EqualIsLowBits(a: Json, b: Json)
    requires FloatFree(a) && FloatFree(b)
    ensures JsonEq(a, b) <==> LowBits(a) == LowBits(b)
  {
    hide DoubleOf;
    hide FloatEq;
    hide AsSigned;
    hide SameNumber;
    if IsNumber(a) && IsNumber(b) {
      NumbersEqual(a, b);
      NumberBits(a, b);
    } else if a.Array? && b.Array? {
      ArrayBits(a, b);
      if |a.elems| == |b.elems| {
        forall i | 0 <= i < |a.elems|
          ensures JsonEq(a.elems[i], b.elems[i]) <==> LowBits(a.elems[i]) == LowBits(b.elems[i])
        {
          EqualIsLowBits(a.elems[i], b.elems[i]);
        }
      }
    } else if a.Object? && b.Object? {
      ObjectBits(a, b);
      if a.members.Keys == b.members.Keys {
        forall k | k in a.members
          ensures JsonEq(a.members[k], b.members[k]) <==> LowBits(a.members[k]) == LowBits(b.members[k])
        {
          EqualIsLowBits(a.members[k], b.members[k]);
        }
      }
    } else {
      LowBitsKind(a, b);
    }
  }

  /** Values of different kinds, or neither numbers nor containers. */
  lemma LowBitsKind(a: Json, b: Json)
    requires !(IsNumber(a) && IsNumber(b)) && !(a.Array? && b.Array?) && !(a.Object? && b.Object?)
    ensures JsonEq(a, b) <==> LowBits(a) == LowBits(b)
  {
  }

  /** No floats, signed integers negative, unsigned ones below 2^63: every integer is stored in one way. */
  predicate OneWay(j: Json) {
    match j
    case Float(_) => false
    case Int(i) => i < 0
    case Uint(u) => u < 0x8000_0000_0000_0000
    case Array(es) => forall i :: 0 <= i < |es| ==> OneWay(es[i])
    case Object(m) => forall k :: k in m ==> OneWay(m[k])
    case _ => true
  }

  lemma {:induction false} OneWayBits(a: Json, b: Json)
    requires OneWay(a) && OneWay(b)
    ensures LowBits(a) == LowBits(b) <==> a == b
  {
    if a.Array? && b.Array? {
      ArrayBits(a, b);
      if LowBits(a) == LowBits(b) {
        forall i | 0 <= i < |a.elems| ensures a.elems[i] == b.elems[i] {
          OneWayBits(a.elems[i], b.elems[i]);
        }
      }
    } else if a.Object? && b.Object? {
      ObjectBits(a, b);
      if LowBits(a) == LowBits(b) {
        forall k | k in a.members ensures k in b.members && a.members[k] == b.members[k] {
          OneWayBits(a.members[k], b.members[k]);
        }
        assert a.members == b.members;
      }
    }
  }

  lemma {:induction false} OneWayFloatFree(j: Json)
    requires OneWay(j)
    ensures FloatFree(j)
  {
    match j
    case Array(es) =>
      forall i | 0 <= i < |es| ensures FloatFree(es[i]) { OneWayFloatFree(es[i]); }
    case Object(m) =>
      forall k | k in m ensures FloatFree(m[k]) { OneWayFloatFree(m[k]); }
    case _ =>
  }

  /** Where every integer is stored in one way, `==` is equality. */
  lemma EqualIsEqual(a: Json, b: Json)
    requires OneWay(a) && OneWay(b)
    ensures JsonEq(a, b) <==> a == b
  {
    hide *;
    OneWayFloatFree(a);
    OneWayFloatFree(b);
    EqualIsLowBits(a, b);
    OneWayBits(a, b);
  }

  /** Beyond 2^63 an unsigned integer equals a negative one, even between canonical values. */
  lemma WrappedEqual(i: int64)
    requires i < 0
    ensures var u := i + 0x1_0000_0000_0000_0000;
            && JsonEq(Uint(u), Int(i)) && Uint(u) != Int(i)
            && Canonical(Uint(u)) == Uint(u) && Canonical(Int(i)) == Int(i)
  {
  }

  // ---------- patching with a diff ----------

  /** The patched value is the same as the target, or the target holds a NaN. */
  lemma PatchDiffSame(source: Json, target: Json)
    requires Addressable(source, target)
    ensures var r := Patch(source, Array(Diff(source, target, [])));
            r.Ok? && (Same(r.value, target) <==> NaNFree(target))
  {
    hide *;
    PatchDiff(source, target);
    EqualIsSame(Patch(source, Array(Diff(source, target, []))).value, target);
  }

  lemma {:induction false} MergedOneWay(s: Json, t: Json)
    requires OneWay(s) && OneWay(t)
    ensures OneWay(Merged(s, t)) && Merged(s, t) == t
  {
    hide JsonEq;
    if JsonEq(s, t) {
      EqualIsEqual(s, t);
    } else if s.Array? && t.Array? {
      var r := Merged(s, t);
      forall i | 0 <= i < |t.elems| ensures r.elems[i] == t.elems[i] {
        if i < |s.elems| {
          MergedOneWay(s.elems[i], t.elems[i]);
        }
      }
      assert r.elems == t.elems;
    } else if s.Object? && t.Object? {
      var r := Merged(s, t);
      forall k | k in t.members ensures r.members[k] == t.members[k] {
        if k in s.members {
          MergedOneWay(s.members[k], t.members[k]);
        }
      }
      assert r.members == t.members;
    }
  }

  /** For documents without floats, each integer stored in one way, the patched value is the target itself. */
  lemma PatchDiffExactly(source: Json, target: Json)
    requires OneWay(source) && OneWay(target) && Addressable(source, target)
    ensures Patch(source, Array(Diff(source, target, []))) == Ok(target)
  {
    hide *;
    RootText();
    DiffRuns(source, [], source, target);
    MergedOneWay(source, target);
    PatchRoot(source, Diff(source, target, []), target);
  }

  lemma RootText()
    ensures ToString([]) == [] && forall j :: Resolve(j, []) == Ok(j)
  {
  }

  lemma PatchRoot(doc: Json, ops: seq<Json>, v: Json)
    requires RunOps(doc, ops) == Ok(PutAt(doc, [], v))
    ensures Patch(doc, Array(ops)) == Ok(v)
  {
    hide RunOps;
  }

  lemma {:induction false} MergedFloatFree(s: Json, t: Json)
    requires FloatFree(s) && FloatFree(t)
    ensures LowBits(Merged(s, t)) == LowBits(t)
  {
    hide JsonEq;
    if JsonEq(s, t) {
      EqualIsLowBits(s, t);
    } else if s.Array? && t.Array? {
      var r := Merged(s, t);
      ArrayBits(r, t);
      forall i | 0 <= i < |t.elems| ensures LowBits(r.elems[i]) == LowBits(t.elems[i]) {
        if i < |s.elems| {
          MergedFloatFree(s.elems[i], t.elems[i]);
        }
      }
    } else if s.Object? && t.Object? {
      var r := Merged(s, t);
      ObjectBits(r, t);
      forall k | k in t.members ensures LowBits(r.members[k]) == LowBits(t.members[k]) {
        if k in s.members {
          MergedFloatFree(s.members[k], t.members[k]);
        }
      }
    }
  }

  /** For all documents without floats, the patched value has the content of the target. */
  lemma PatchDiffContent(source: Json, target: Json)
    requires FloatFree(source) && FloatFree(target) && Addressable(source, target)
    ensures var r := Patch(source, Array(Diff(source, target, [])));
            r.Ok? && LowBits(r.value) == LowBits(target)
  {
    hide *;
    RootText();
    DiffRuns(source, [], source, target);
    MergedFloatFree(source, target);
    PatchRoot(source, Diff(source, target, []), Merged(source, target));
  }

  /** The diff is empty exactly between values that are the same. */
  lemma DiffEmpty(s: Json, t: Json, path: Bytes)
    ensures Diff(s, t, path) == [] <==> Same(s, t)
  {
    hide *;
    EqualIsSame(s, t);
    if JsonEq(s, t) {
      EqualDiff(s, t, path);
    } else {
      DiffNonempty(s, t, path);
    }
  }

  /** `test` succeeds exactly when the pointer resolves to a value of the same content, and changes nothing. */
  lemma TestSame(doc: Json, ptr: seq<Bytes>, v: Json)
    ensures var r := ApplyOp(doc, TestOp(ToString(ptr), v));
            && (r.Ok? <==> Resolve(doc, ptr).Ok? && Same(Resolve(doc, ptr).value, v))
            && (r.Ok? ==> r.value == doc)
  {
    hide *;
    TestLaw(doc, ptr, v);
    if Resolve(doc, ptr).Ok? {
      EqualIsSame(Resolve(doc, ptr).value, v);
    }
  }
}
