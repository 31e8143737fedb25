/**
  JSON values as the library stores them (json.hpp): byte strings, 64-bit
  signed and unsigned numbers, IEEE doubles kept as their bit pattern, arrays,
  and objects whose members are visited in the byte order of their keys.
 */
module JsonValue {

  type byte = x: int | 0 <= x < 256
  type Bytes = seq<byte>
  type int64 = x: int | -0x8000_0000_0000_0000 <= x < 0x8000_0000_0000_0000
  type uint64 = x: int | 0 <= x < 0x1_0000_0000_0000_0000

  datatype Json =
    | Null
    | Bool(b: bool)
    | Int(i: int64)
    | Uint(u: uint64)
    | Float(bits: uint64)
    | String(s: Bytes)
    | Array(elems: seq<Json>)
    | Object(members: map<Bytes, Json>)

  /** The exception classes the library throws. */
  datatype Error = OutOfRange | DomainError | InvalidArgument | AssertionFailure

  datatype Result<+T> = Ok(value: T) | Err(error: Error) {
    predicate IsFailure() { Err? }
    function PropagateFailure<U>(): Result<U>
      requires Err?
    {
      Err(error)
    }
    function Extract(): T
      requires Ok?
    {
      value
    }
  }

  // ---------- key order: std::less on std::string ----------

  predicate Less(a: Bytes, b: Bytes) {
    if b == [] then false
    else if a == [] then true
    else a[0] < b[0] || (a[0] == b[0] && Less(a[1..], b[1..]))
  }

  lemma LessIrreflexive(a: Bytes)
    ensures !Less(a, a)
  {
  }

  lemma LessTransitive(a: Bytes, b: Bytes, c: Bytes)
    requires Less(a, b) && Less(b, c)
    ensures Less(a, c)
  {
  }

  lemma {:induction false} LessTotal(a: Bytes, b: Bytes)
    ensures a == b || Less(a, b) || Less(b, a)
  {
    if a != [] && b != [] && a[0] == b[0] {
      LessTotal(a[1..], b[1..]);
      if a[1..] == b[1..] {
        assert a == [a[0]] + a[1..] && b == [b[0]] + b[1..];
      }
    }
  }

  predicate IsLeast(k: Bytes, ks: set<Bytes>) {
    k in ks && forall x :: x in ks ==> x == k || Less(k, x)
  }

  lemma LeastExists(ks: set<Bytes>)
    requires ks != {}
    ensures exists k :: IsLeast(k, ks)
  {
    var c :| c in ks;
    var rest := ks - {c};
    if rest == {} {
      assert ks == rest + {c};
      assert IsLeast(c, ks);
    } else {
      LeastExists(rest);
      var m :| IsLeast(m, rest);
      LessTotal(c, m);
      var k := if Less(c, m) then c else m;
      forall x | x in ks ensures x == k || Less(k, x) {
        if x != c && k == c {
          assert x in rest;
          if x != m {
            LessTransitive(c, m, x);
          }
        }
      }
      assert IsLeast(k, ks);
    }
  }

  lemma LeastUnique(ks: set<Bytes>)
    ensures forall k, k' :: IsLeast(k, ks) && IsLeast(k', ks) ==> k == k'
  {
    forall k, k' | IsLeast(k, ks) && IsLeast(k', ks) && k != k'
      ensures false
    {
      LessTransitive(k, k', k);
      LessIrreflexive(k);
    }
  }

  function Least(ks: set<Bytes>): (k: Bytes)
    requires ks != {}
    ensures IsLeast(k, ks)
  {
    LeastExists(ks);
    LeastUnique(ks);
    var k :| IsLeast(k, ks);
    k
  }

  predicate Ascending(ks: seq<Bytes>) {
    forall i, j :: 0 <= i < j < |ks| ==> Less(ks[i], ks[j])
  }

  /** The keys of a std::map in iteration order. */
  function SortedKeys(ks: set<Bytes>): (r: seq<Bytes>)
    ensures Ascending(r)
    ensures forall k :: k in ks <==> k in r
    ensures |r| == |ks|
  {
    if ks == {} then [] else
      var k := Least(ks);
      var r := [k] + SortedKeys(ks - {k});
      assert forall x :: x in ks <==> x == k || x in ks - {k};
      r
  }

  lemma AscendingDistinct(ks: seq<Bytes>, i: nat, j: nat)
    requires Ascending(ks)
    requires i < |ks| && j < |ks| && i != j
    ensures ks[i] != ks[j]
  {
    LessIrreflexive(ks[i]);
  }

  // ---------- operator== ----------

  function Log2(n: nat): nat
    requires n > 0
  {
    if n == 1 then 0 else 1 + Log2(n / 2)
  }

  function Pow2(n: nat): (r: nat)
    ensures r > 0
  {
    if n == 0 then 1 else 2 * Pow2(n - 1)
  }

  /** The bit pattern of a 64-bit integer converted to a double, rounding to nearest even. */
  function DoubleOf(n: int): int {
    if n == 0 then 0 else
      var m := if n < 0 then -n else n;
      var e := Log2(m);
      var sign := if n < 0 then 0x8000_0000_0000_0000 else 0;
      var q := if e <= 52 then m * Pow2(52 - e) else
        var unit := Pow2(e - 52);
        var q := m / unit;
        var twice := 2 * (m % unit);
        if twice > unit || (twice == unit && q % 2 == 1) then q + 1 else q;
      sign + (e + 1023) * 0x10_0000_0000_0000 + (q - 0x10_0000_0000_0000)
  }

  predicate IsNaN(bits: uint64) {
    bits % 0x8000_0000_0000_0000 > 0x7FF0_0000_0000_0000
  }

  predicate IsZero(bits: int) {
    bits == 0 || bits == 0x8000_0000_0000_0000
  }

  /** IEEE equality: NaN differs from everything, the two zeros are equal. */
  predicate FloatEq(x: uint64, y: int) {
    !IsNaN(x) && (x == y || (IsZero(x) && IsZero(y)))
  }

  /** static_cast<int64_t>(uint64_t) */
  function AsSigned(u: uint64): int64 {
    if u < 0x8000_0000_0000_0000 then u else u - 0x1_0000_0000_0000_0000
  }

  /** The library's operator==: numbers of different kinds are compared after a cast. */
  predicate JsonEq(a: Json, b: Json) {
    match (a, b)
    case (Null, Null) => true
    case (Bool(x), Bool(y)) => x == y
    case (Int(x), Int(y)) => x == y
    case (Uint(x), Uint(y)) => x == y
    case (Float(x), Float(y)) => FloatEq(x, y)
    case (String(x), String(y)) => x == y
    case (Array(x), Array(y)) =>
      |x| == |y| && forall i :: 0 <= i < |x| ==> JsonEq(x[i], y[i])
    case (Object(x), Object(y)) =>
      x.Keys == y.Keys && forall k :: k in x ==> JsonEq(x[k], y[k])
    case (Int(x), Float(y)) => FloatEq(y, DoubleOf(x))
    case (Float(x), Int(y)) => FloatEq(x, DoubleOf(y))
    case (Uint(x), Float(y)) => FloatEq(y, DoubleOf(x))
    case (Float(x), Uint(y)) => FloatEq(x, DoubleOf(y))
    case (Uint(x), Int(y)) => AsSigned(x) == y
    case (Int(x), Uint(y)) => x == AsSigned(y)
    case (_, _) => false
  }

  predicate NaNFree(j: Json) {
    match j
    case Float(x) => !IsNaN(x)
    case Array(x) => forall i :: 0 <= i < |x| ==> NaNFree(x[i])
    case Object(x) => forall k :: k in x ==> NaNFree(x[k])
    case _ => true
  }

  predicate FloatFree(j: Json) {
    match j
    case Float(_) => false
    case Array(es) => forall i :: 0 <= i < |es| ==> FloatFree(es[i])
    case Object(m) => forall k :: k in m ==> FloatFree(m[k])
    case _ => true
  }

  /** A value equals itself exactly when no NaN occurs in it. */
  lemma {:induction false} EqReflexive(j: Json)
    ensures JsonEq(j, j) <==> NaNFree(j)
  {
    match j
    case Array(x) =>
      forall i | 0 <= i < |x| ensures JsonEq(x[i], x[i]) <==> NaNFree(x[i]) {
        EqReflexive(x[i]);
      }
    case Object(x) =>
      forall k | k in x ensures JsonEq(x[k], x[k]) <==> NaNFree(x[k]) {
        EqReflexive(x[k]);
      }
    case _ =>
  }

  /** Nothing equals a value that holds a NaN. */
  lemma {:induction false} EqNeedsNaNFree(a: Json, b: Json)
    requires JsonEq(a, b)
    ensures NaNFree(a) && NaNFree(b)
  {
    match (a, b)
    case (Array(x), Array(y)) =>
      forall i | 0 <= i < |x| ensures NaNFree(x[i]) && NaNFree(y[i]) {
        EqNeedsNaNFree(x[i], y[i]);
      }
    case (Object(x), Object(y)) =>
      forall k | k in x ensures NaNFree(x[k]) && NaNFree(y[k]) {
        EqNeedsNaNFree(x[k], y[k]);
      }
    case _ =>
  }
}
