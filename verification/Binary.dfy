/**
  Multi-byte numbers inside a byte vector (json.hpp `add_to_vector`,
  `get_from_vector`, `check_length`), and the conversions of the shorter IEEE
  formats that the decoders accept.
 */
module Binary {
  import opened JsonValue

  function Pow256(w: nat): (r: nat)
    ensures r > 0
  {
    if w == 0 then 1 else 256 * Pow256(w - 1)
  }

  /** The low `w` bytes of `n`, most significant first. */
  function BigEndian(w: nat, n: nat): (r: Bytes)
    ensures |r| == w
  {
    if w == 0 then [] else BigEndian(w - 1, n / 256) + [n % 256]
  }

  function ValueOf(s: Bytes): (n: nat)
    ensures n < Pow256(|s|)
  {
    if s == [] then 0 else 256 * ValueOf(s[..|s| - 1]) + s[|s| - 1]
  }

  lemma {:induction false} ValueOfBigEndian(w: nat, n: nat)
    requires n < Pow256(w)
    ensures ValueOf(BigEndian(w, n)) == n
  {
    if w > 0 {
      ValueOfBigEndian(w - 1, n / 256);
      assert BigEndian(w, n)[..w - 1] == BigEndian(w - 1, n / 256);
    }
  }

  /** Every byte string is the big-endian form of its value. */
  lemma {:induction false} BigEndianValueOf(s: Bytes)
    ensures BigEndian(|s|, ValueOf(s)) == s
  {
    if s != [] {
      BigEndianValueOf(s[..|s| - 1]);
      assert s == s[..|s| - 1] + [s[|s| - 1]];
    }
  }

  lemma PowValues()
    ensures Pow256(1) == 0x100
    ensures Pow256(2) == 0x1_0000
    ensures Pow256(4) == 0x1_0000_0000
    ensures Pow256(8) == 0x1_0000_0000_0000_0000
  {
    assert Pow256(0) == 1;
    assert Pow256(1) == 0x100;
    assert Pow256(2) == 0x1_0000;
    assert Pow256(3) == 0x100_0000;
    assert Pow256(4) == 0x1_0000_0000;
    assert Pow256(5) == 0x100_0000_0000;
    assert Pow256(6) == 0x1_0000_0000_0000;
    assert Pow256(7) == 0x100_0000_0000_0000;
  }

  /** `v` holds `s` from index `i` on. */
  predicate HoldsAt(v: Bytes, i: nat, s: Bytes) {
    i + |s| <= |v| && v[i..i + |s|] == s
  }

  lemma HoldsConcat(v: Bytes, i: nat, s: Bytes, t: Bytes)
    ensures HoldsAt(v, i, s + t) <==> HoldsAt(v, i, s) && HoldsAt(v, i + |s|, t)
  {
    if i + |s| + |t| <= |v| {
      var w := v[i..i + |s + t|];
      assert w == v[i..i + |s|] + v[i + |s|..i + |s| + |t|];
      assert w[..|s|] == v[i..i + |s|] && w[|s|..] == v[i + |s|..i + |s| + |t|];
      assert (s + t)[..|s|] == s && (s + t)[|s|..] == t;
    }
  }

  lemma HoldsBounds(v: Bytes, i: nat, s: Bytes)
    requires HoldsAt(v, i, s)
    ensures i + |s| <= |v|
  {
  }

  lemma HoldsFirst(v: Bytes, i: nat, s: Bytes)
    requires HoldsAt(v, i, s) && s != []
    ensures i < |v| && v[i] == s[0]
  {
    assert v[i..i + |s|][0] == v[i];
  }

  lemma HoldsTail(v: Bytes, i: nat, s: Bytes)
    requires HoldsAt(v, i, s) && s != []
    ensures HoldsAt(v, i + 1, s[1..]) && v[i] == s[0]
  {
    assert s == [s[0]] + s[1..];
    HoldsConcat(v, i, [s[0]], s[1..]);
    HoldsFirst(v, i, s);
  }

  lemma HoldsSlice(v: Bytes, i: nat, s: Bytes)
    requires HoldsAt(v, i, s)
    ensures i + |s| <= |v| && v[i..i + |s|] == s
  {
  }

  lemma OneByte(v: Bytes, i: nat)
    requires i < |v|
    ensures HoldsAt(v, i, [v[i]])
  {
    assert v[i..i + 1] == [v[i]];
  }

  lemma NothingHeld(v: Bytes, i: nat)
    requires i <= |v|
    ensures HoldsAt(v, i, [])
  {
  }

  lemma HeldByte(v: Bytes, i: nat, rest: Bytes)
    requires i < |v| && HoldsAt(v, i + 1, rest)
    ensures HoldsAt(v, i, [v[i]] + rest)
  {
    assert v[i..i + 1] == [v[i]];
    HoldsConcat(v, i, [v[i]], rest);
  }

  /** From index `i` on, the vector holds the beginning of `s` only. */
  predicate CutAt(v: Bytes, i: nat, s: Bytes) {
    i <= |v| < i + |s| && v[i..] == s[..|v| - i]
  }

  /** The cut falls into the first part, or the first part is whole and the cut falls into the second. */
  lemma CutConcat(v: Bytes, i: nat, s: Bytes, t: Bytes)
    requires CutAt(v, i, s + t)
    ensures CutAt(v, i, s) || (HoldsAt(v, i, s) && CutAt(v, i + |s|, t))
  {
    var n := |v| - i;
    if n < |s| {
      assert (s + t)[..n] == s[..n];
    } else {
      assert v[i..i + |s|] == v[i..][..|s|] == (s + t)[..n][..|s|] == s;
      assert v[i + |s|..] == v[i..][|s|..] == (s + t)[..n][|s|..] == t[..n - |s|];
    }
  }

  lemma CutFirst(v: Bytes, i: nat, s: Bytes)
    requires CutAt(v, i, s) && i < |v|
    ensures s != [] && v[i] == s[0]
  {
    assert v[i] == v[i..][0] == s[..|v| - i][0];
  }

  lemma CutBound(v: Bytes, i: nat, s: Bytes)
    requires CutAt(v, i, s)
    ensures i <= |v| < i + |s|
  {
  }

  /** The number in the `w` bytes after index `i`; fails when they are not all there. */
  function Fetch(v: Bytes, i: nat, w: nat): Result<nat> {
    if i + w + 1 > |v| then Err(OutOfRange) else Ok(ValueOf(v[i + 1..i + 1 + w]))
  }

  lemma FetchHeld(v: Bytes, i: nat, w: nat, n: nat)
    requires HoldsAt(v, i + 1, BigEndian(w, n)) && n < Pow256(w)
    ensures Fetch(v, i, w) == Ok(n)
  {
    ValueOfBigEndian(w, n);
  }

  /** What was fetched is written there. */
  lemma FetchedHeld(v: Bytes, i: nat, w: nat)
    requires Fetch(v, i, w).Ok?
    ensures var n := Fetch(v, i, w).value;
            n < Pow256(w) && i + 1 + w <= |v| && HoldsAt(v, i + 1, BigEndian(w, n))
  {
    hide BigEndian;
    hide ValueOf;
    hide Pow256;
    var s := v[i + 1..i + 1 + w];
    assert |s| == w;
    BigEndianValueOf(s);
  }

  lemma FetchExtends(v: Bytes, w: Bytes, i: nat)
    ensures forall n: nat :: Fetch(v, i, n).Ok? ==> Fetch(v + w, i, n) == Fetch(v, i, n)
  {
    hide ValueOf;
    forall n: nat | Fetch(v, i, n).Ok? ensures Fetch(v + w, i, n) == Fetch(v, i, n) {
      assert (v + w)[i + 1..i + 1 + n] == v[i + 1..i + 1 + n];
    }
  }

  // ---------- half and single precision ----------

  const TWO52: nat := 0x10_0000_0000_0000
  const SIGN64: nat := 0x8000_0000_0000_0000

  /** The pattern without sign of a half-precision number. */
  function WidenHalf(exponent: nat, mantissa: nat): int {
    if exponent == 31 then (if mantissa == 0 then 0x7FF * TWO52 else 0x7FF8_0000_0000_0000)
    else if exponent > 0 then (exponent + 1008) * TWO52 + mantissa * 0x400_0000_0000
    else if mantissa == 0 then 0
    else DoubleOf(mantissa) - 24 * TWO52
  }

  /** The double with the value of a half-precision pattern. */
  function HalfToDouble(half: nat): uint64 {
    (half / 0x8000 * SIGN64 + WidenHalf(half / 0x400 % 0x20, half % 0x400)) % 0x1_0000_0000_0000_0000
  }

  /** The pattern without sign of a single-precision number; a NaN becomes quiet. */
  function WidenSingle(exponent: nat, mantissa: nat): int {
    if exponent == 255 then
      0x7FF * TWO52 + (if 0 < mantissa < 0x40_0000 then mantissa + 0x40_0000 else mantissa) * 0x2000_0000
    else if exponent > 0 then (exponent + 896) * TWO52 + mantissa * 0x2000_0000
    else if mantissa == 0 then 0
    else DoubleOf(mantissa) - 149 * TWO52
  }

  /** The double with the value of a single-precision pattern. */
  function SingleToDouble(single: nat): uint64 {
    (single / 0x8000_0000 * SIGN64 + WidenSingle(single / 0x80_0000 % 0x100, single % 0x80_0000)) % 0x1_0000_0000_0000_0000
  }

  // ---------- reads ----------

  type Read<T> = Result<(T, nat)>

  function Text(v: Bytes, idx: nat, len: nat): (r: Read<Bytes>)
    requires idx <= |v|
    ensures r.Ok? ==> idx <= r.value.1 <= |v|
  {
    if idx + len > |v| then Err(OutOfRange) else Ok((v[idx..idx + len], idx + len))
  }

  /** A procedure's result and final index agree with a specified read. */
  predicate Agrees<T(==)>(r: Result<T>, idx: nat, spec: Read<T>) {
    match spec
    case Ok((x, i)) => r == Ok(x) && idx == i
    case Err(e) => r == Err(e)
  }

  /** A read continued after `xs` has been collected. */
  function Prepend<T>(xs: seq<T>, r: Read<seq<T>>): Read<seq<T>> {
    match r
    case Ok((ys, i)) => Ok((xs + ys, i))
    case Err(e) => Err(e)
  }

  lemma PrependNothing<T>(r: Read<seq<T>>)
    ensures Prepend([], r) == r
  {
    match r
    case Ok((ys, _)) => assert [] + ys == ys;
    case Err(_) =>
  }

  // ---------- canonical values ----------

  /** What a round trip gives back: non-negative signed integers become unsigned. */
  function Canonical(j: Json): Json {
    match j
    case Int(i) => if i >= 0 then Uint(i) else j
    case Array(es) => Array(seq(|es|, i requires 0 <= i < |es| => Canonical(es[i])))
    case Object(m) => Object(map k | k in m :: Canonical(m[k]))
    case _ => j
  }

  /** The canonical form is `==` to the value exactly when no NaN occurs in it. */
  lemma {:induction false} CanonicalEq(j: Json)
    ensures JsonEq(Canonical(j), j) <==> NaNFree(j)
  {
    match j
    case Array(x) =>
      forall i | 0 <= i < |x| ensures JsonEq(Canonical(j).elems[i], x[i]) <==> NaNFree(x[i]) {
        CanonicalEq(x[i]);
      }
    case Object(x) =>
      forall k | k in x ensures JsonEq(Canonical(j).members[k], x[k]) <==> NaNFree(x[k]) {
        CanonicalEq(x[k]);
      }
    case _ =>
  }

  /** The canonical forms of the elements from `i` on. */
  function CanonicalFrom(es: seq<Json>, i: nat): seq<Json>
    requires i <= |es|
    decreases |es| - i
  {
    if i == |es| then [] else [Canonical(es[i])] + CanonicalFrom(es, i + 1)
  }

  lemma {:induction false} CanonicalFromIs(es: seq<Json>, i: nat)
    requires i <= |es|
    ensures CanonicalFrom(es, i) == seq(|es| - i, n requires 0 <= n < |es| - i => Canonical(es[i + n]))
    decreases |es| - i
  {
    hide Canonical;
    if i < |es| {
      CanonicalFromIs(es, i + 1);
      var r := seq(|es| - i, n requires 0 <= n < |es| - i => Canonical(es[i + n]));
      assert r[0] == Canonical(es[i]) && r[1..] == CanonicalFrom(es, i + 1);
    }
  }

  lemma CanonicalArray(j: Json)
    requires j.Array?
    ensures Canonical(j) == Array(CanonicalFrom(j.elems, 0))
  {
    CanonicalFromIs(j.elems, 0);
    assert Canonical(j).elems == CanonicalFrom(j.elems, 0);
  }

  /** `m` extended with the canonical members for the keys `ks`. */
  function CanonicalMembers(j: Json, ks: seq<Bytes>, m: map<Bytes, Json>): map<Bytes, Json>
    requires j.Object? && forall k :: k in ks ==> k in j.members
    decreases |ks|
  {
    if ks == [] then m else CanonicalMembers(j, ks[1..], m[ks[0] := Canonical(j.members[ks[0]])])
  }

  lemma {:induction false} CanonicalMembersIs(j: Json, ks: seq<Bytes>, m: map<Bytes, Json>)
    requires j.Object? && forall k :: k in ks ==> k in j.members
    ensures var r := CanonicalMembers(j, ks, m);
            && (forall k :: k in r <==> k in m || k in ks)
            && (forall k :: k in r ==> r[k] == if k in ks then Canonical(j.members[k]) else m[k])
    decreases |ks|
  {
    hide Canonical;
    if ks != [] {
      CanonicalMembersIs(j, ks[1..], m[ks[0] := Canonical(j.members[ks[0]])]);
      assert forall k :: k in ks <==> k == ks[0] || k in ks[1..];
    }
  }

  lemma CanonicalObject(j: Json)
    requires j.Object?
    ensures Canonical(j) == Object(CanonicalMembers(j, SortedKeys(j.members.Keys), map[]))
  {
    hide CanonicalMembers;
    hide Ascending;
    var ks := SortedKeys(j.members.Keys);
    CanonicalMembersIs(j, ks, map[]);
    assert Canonical(j).members == CanonicalMembers(j, ks, map[]);
  }

  lemma CanonicalMembersStep(j: Json, ks: seq<Bytes>, m: map<Bytes, Json>)
    requires j.Object? && ks != [] && forall k :: k in ks ==> k in j.members
    ensures CanonicalMembers(j, ks, m) == CanonicalMembers(j, ks[1..], m[ks[0] := Canonical(j.members[ks[0]])])
  {
    hide Canonical;
  }
}
