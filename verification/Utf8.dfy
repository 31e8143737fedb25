/**
  UTF-8 (section 3 of RFC 3629): well-formed text is what encoding Unicode scalar
  values gives. The UTF-8 states of the JSON scanner accept exactly that.
 */
module Utf8 {
  import opened JsonValue

  /** A code point that is not a surrogate. */
  predicate Scalar(cp: int) {
    0 <= cp < 0xD800 || 0xE000 <= cp <= 0x10FFFF
  }

  /** One to four bytes for a code point. */
  function Encoded(cp: nat): (r: Bytes)
    ensures 1 <= |r| <= 4
  {
    if cp < 0x80 then [cp]
    else if cp <= 0x7FF then [0xC0 + cp / 64 % 32, 0x80 + cp % 64]
    else if cp <= 0xFFFF then [0xE0 + cp / 64 / 64 % 16, 0x80 + cp / 64 % 64, 0x80 + cp % 64]
    else [0xF0 + cp / 64 / 64 / 64 % 8, 0x80 + cp / 64 / 64 % 64, 0x80 + cp / 64 % 64, 0x80 + cp % 64]
  }

  predicate Scalars(cps: seq<nat>) {
    forall i :: 0 <= i < |cps| ==> Scalar(cps[i])
  }

  function EncodedAll(cps: seq<nat>): Bytes
    requires Scalars(cps)
  {
    if cps == [] then [] else Encoded(cps[0]) + EncodedAll(cps[1..])
  }

  ghost predicate WellFormed(s: Bytes) {
    exists cps: seq<nat> :: Scalars(cps) && s == EncodedAll(cps)
  }

  lemma WellFormedNothing()
    ensures WellFormed([])
  {
    assert EncodedAll([]) == [];
  }

  lemma WellFormedCons(cp: nat, s: Bytes)
    requires Scalar(cp) && WellFormed(s)
    ensures WellFormed(Encoded(cp) + s)
  {
    hide Encoded;
    hide Scalar;
    var cps: seq<nat> :| Scalars(cps) && s == EncodedAll(cps);
    var all := [cp] + cps;
    assert all[1..] == cps;
    assert EncodedAll(all) == Encoded(cp) + s;
  }

  lemma {:induction false} EncodedAllConcat(a: seq<nat>, b: seq<nat>)
    requires Scalars(a) && Scalars(b)
    ensures Scalars(a + b) && EncodedAll(a + b) == EncodedAll(a) + EncodedAll(b)
  {
    hide Encoded;
    hide Scalar;
    if a == [] {
      assert a + b == b;
    } else {
      EncodedAllConcat(a[1..], b);
      assert (a + b)[1..] == a[1..] + b;
    }
  }

  lemma WellFormedConcat(s: Bytes, t: Bytes)
    requires WellFormed(s) && WellFormed(t)
    ensures WellFormed(s + t)
  {
    hide EncodedAll;
    hide Scalars;
    var a: seq<nat> :| Scalars(a) && s == EncodedAll(a);
    var b: seq<nat> :| Scalars(b) && t == EncodedAll(b);
    EncodedAllConcat(a, b);
  }

  lemma WellFormedChar(cp: nat)
    requires Scalar(cp)
    ensures WellFormed(Encoded(cp))
  {
    hide Encoded;
    hide Scalar;
    WellFormedNothing();
    WellFormedCons(cp, []);
    assert Encoded(cp) + [] == Encoded(cp);
  }

  // ---------- the states of the scanner ----------

  /** Start of a character, or what may still follow its first bytes. */
  datatype State = Start | Tail | LeadE0 | Tail2 | LeadED | LeadF0 | Tail3 | LeadF4

  datatype Move = To(state: State) | Reject

  function Within(c: byte, low: int, high: int, next: State): Move {
    if low <= c <= high then To(next) else Reject
  }

  /** One byte of a character outside ASCII. */
  function Step(st: State, c: byte): Move {
    match st
    case Start =>
      if c <= 0xC1 then Reject
      else if c <= 0xDF then To(Tail)
      else if c <= 0xE0 then To(LeadE0)
      else if c <= 0xEF then To(if c == 0xED then LeadED else Tail2)
      else if c <= 0xF0 then To(LeadF0)
      else if c <= 0xF3 then To(Tail3)
      else if c <= 0xF4 then To(LeadF4)
      else Reject
    case Tail => Within(c, 0x80, 0xBF, Start)
    case LeadE0 => Within(c, 0xA0, 0xBF, Tail)
    case Tail2 => Within(c, 0x80, 0xBF, Tail)
    case LeadED => Within(c, 0x80, 0x9F, Tail)
    case LeadF0 => Within(c, 0x90, 0xBF, Tail2)
    case Tail3 => Within(c, 0x80, 0xBF, Tail2)
    case LeadF4 => Within(c, 0x80, 0x8F, Tail2)
  }

  /** The states run over `s`, ASCII bytes being whole characters. */
  predicate Accepts(st: State, s: Bytes)
    decreases |s|
  {
    if s == [] then st == Start
    else if st == Start && s[0] < 0x80 then Accepts(Start, s[1..])
    else match Step(st, s[0])
      case To(next) => Accepts(next, s[1..])
      case Reject => false
  }

  /** The code point that the bytes of a character spell. */
  function Spelled(u: seq<int>): int {
    if |u| == 1 then u[0]
    else if |u| == 2 then (u[0] - 0xC0) * 64 + (u[1] - 0x80)
    else if |u| == 3 then ((u[0] - 0xE0) * 64 + (u[1] - 0x80)) * 64 + (u[2] - 0x80)
    else if |u| == 4 then (((u[0] - 0xF0) * 64 + (u[1] - 0x80)) * 64 + (u[2] - 0x80)) * 64 + (u[3] - 0x80)
    else 0
  }

  lemma Split(x: nat, d: nat)
    requires d < 64
    ensures (x * 64 + d) / 64 == x && (x * 64 + d) % 64 == d
  {
  }

  predicate Trail(c: byte) {
    0x80 <= c <= 0xBF
  }

  /** The byte sequences of section 4 of RFC 3629. */
  predicate Char(u: Bytes) {
    || (|u| == 1 && u[0] < 0x80)
    || (|u| == 2 && 0xC2 <= u[0] <= 0xDF && Trail(u[1]))
    || (|u| == 3 && 0xE0 <= u[0] <= 0xEF && Trail(u[1]) && Trail(u[2])
        && (u[0] == 0xE0 ==> u[1] >= 0xA0) && (u[0] == 0xED ==> u[1] <= 0x9F))
    || (|u| == 4 && 0xF0 <= u[0] <= 0xF4 && Trail(u[1]) && Trail(u[2]) && Trail(u[3])
        && (u[0] == 0xF0 ==> u[1] >= 0x90) && (u[0] == 0xF4 ==> u[1] <= 0x8F))
  }

  lemma SpelledTwo(u: Bytes)
    requires Char(u) && |u| == 2
    ensures Scalar(Spelled(u)) && Encoded(Spelled(u)) == u
  {
    Split(u[0] - 0xC0, u[1] - 0x80);
  }

  lemma SpelledThree(u: Bytes)
    requires Char(u) && |u| == 3
    ensures Scalar(Spelled(u)) && Encoded(Spelled(u)) == u
  {
    var a: int, b: int, c: int := u[0] - 0xE0, u[1] - 0x80, u[2] - 0x80;
    Split(a * 64 + b, c);
    Split(a, b);
  }

  lemma SpelledFour(u: Bytes)
    requires Char(u) && |u| == 4
    ensures Scalar(Spelled(u)) && Encoded(Spelled(u)) == u
  {
    var a: int, b: int, c: int, d: int := u[0] - 0xF0, u[1] - 0x80, u[2] - 0x80, u[3] - 0x80;
    Split((a * 64 + b) * 64 + c, d);
    Split(a * 64 + b, c);
    Split(a, b);
  }

  /** The table lists encodings of scalar values. */
  lemma CharIsEncoded(u: Bytes)
    requires Char(u)
    ensures Scalar(Spelled(u)) && Encoded(Spelled(u)) == u
  {
    if |u| == 2 {
      SpelledTwo(u);
    } else if |u| == 3 {
      SpelledThree(u);
    } else if |u| == 4 {
      SpelledFour(u);
    }
  }

  lemma EncodedTwo(cp: nat)
    requires 0x80 <= cp <= 0x7FF
    ensures Char(Encoded(cp))
  {
  }

  lemma EncodedThree(cp: nat)
    requires 0x7FF < cp <= 0xFFFF && Scalar(cp)
    ensures Char(Encoded(cp))
  {
    var x := cp / 64;
    assert 32 <= x < 1024 && (x < 0x360 || 0x380 <= x);
    assert x == x / 64 * 64 + x % 64;
  }

  lemma EncodedFour(cp: nat)
    requires 0xFFFF < cp && Scalar(cp)
    ensures Char(Encoded(cp))
  {
    var x := cp / 64;
    var y := x / 64;
    assert 0x400 <= x < 0x4400;
    assert 0x10 <= y < 0x110;
    assert y == y / 64 * 64 + y % 64;
  }

  /** Every encoding of a scalar value is in the table. */
  lemma EncodedIsChar(cp: nat)
    requires Scalar(cp)
    ensures Char(Encoded(cp))
  {
    if cp < 0x80 {
    } else if cp <= 0x7FF {
      EncodedTwo(cp);
    } else if cp <= 0xFFFF {
      EncodedThree(cp);
    } else {
      EncodedFour(cp);
    }
  }

  // ---------- the automaton ----------

  /** One byte, read from a position inside a character. */
  lemma OneStep(st: State, c: byte, s: Bytes)
    ensures Accepts(st, [c] + s) ==
            if st == Start && c < 0x80 then Accepts(Start, s)
            else Step(st, c).To? && Accepts(Step(st, c).state, s)
  {
    hide Step;
    var t := [c] + s;
    assert t[0] == c && t[1..] == s;
  }

  lemma CharRunTwo(u: Bytes, s: Bytes)
    requires Char(u) && |u| == 2
    ensures Accepts(Start, u + s) <==> Accepts(Start, s)
  {
    hide Accepts;
    assert u + s == [u[0]] + ([u[1]] + s);
    OneStep(Start, u[0], [u[1]] + s);
    OneStep(Tail, u[1], s);
  }

  lemma CharRunThree(u: Bytes, s: Bytes)
    requires Char(u) && |u| == 3
    ensures Accepts(Start, u + s) <==> Accepts(Start, s)
  {
    hide Accepts;
    assert u + s == [u[0]] + ([u[1]] + ([u[2]] + s));
    OneStep(Start, u[0], [u[1]] + ([u[2]] + s));
    OneStep(Step(Start, u[0]).state, u[1], [u[2]] + s);
    OneStep(Tail, u[2], s);
  }

  lemma CharRunFour(u: Bytes, s: Bytes)
    requires Char(u) && |u| == 4
    ensures Accepts(Start, u + s) <==> Accepts(Start, s)
  {
    hide Accepts;
    assert u + s == [u[0]] + ([u[1]] + ([u[2]] + ([u[3]] + s)));
    OneStep(Start, u[0], [u[1]] + ([u[2]] + ([u[3]] + s)));
    OneStep(Step(Start, u[0]).state, u[1], [u[2]] + ([u[3]] + s));
    OneStep(Tail2, u[2], [u[3]] + s);
    OneStep(Tail, u[3], s);
  }

  /** A character takes the states back to the start. */
  lemma CharRun(u: Bytes, s: Bytes)
    requires Char(u)
    ensures Accepts(Start, u + s) <==> Accepts(Start, s)
  {
    hide Accepts;
    if |u| == 1 {
      assert u == [u[0]];
      OneStep(Start, u[0], s);
    } else if |u| == 2 {
      CharRunTwo(u, s);
    } else if |u| == 3 {
      CharRunThree(u, s);
    } else {
      CharRunFour(u, s);
    }
  }

  /** Length of the character a lead byte announces. */
  function Width(c: byte): nat {
    if c < 0x80 then 1 else if c <= 0xDF then 2 else if c <= 0xEF then 3 else 4
  }

  lemma NextByte(st: State, s: Bytes)
    requires Accepts(st, s) && (st != Start || (s != [] && s[0] >= 0x80))
    ensures s != [] && Step(st, s[0]).To? && Accepts(Step(st, s[0]).state, s[1..])
  {
    hide Step;
  }

  lemma FirstChar(s: Bytes)
    requires s != [] && Accepts(Start, s)
    ensures Width(s[0]) <= |s| && Char(s[..Width(s[0])])
  {
    hide Accepts;
    if s[0] >= 0x80 {
      NextByte(Start, s);
      NextByte(Step(Start, s[0]).state, s[1..]);
      if Width(s[0]) > 2 {
        NextByte(Step(Step(Start, s[0]).state, s[1]).state, s[1..][1..]);
        assert s[1..][1..] == s[2..];
        if Width(s[0]) > 3 {
          NextByte(Tail, s[2..][1..]);
          assert s[2..][1..] == s[3..];
        }
      }
    }
  }

  lemma {:induction false} EncodedAccepted(cps: seq<nat>)
    requires Scalars(cps)
    ensures Accepts(Start, EncodedAll(cps))
    decreases |cps|
  {
    hide Encoded;
    hide Scalar;
    hide Char;
    if cps != [] {
      EncodedIsChar(cps[0]);
      EncodedAccepted(cps[1..]);
      CharRun(Encoded(cps[0]), EncodedAll(cps[1..]));
    }
  }

  lemma {:induction false} AcceptedEncoded(s: Bytes)
    requires Accepts(Start, s)
    ensures WellFormed(s)
    decreases |s|
  {
    hide *;
    if s == [] {
      WellFormedNothing();
    } else {
      FirstChar(s);
      var n := Width(s[0]);
      var u := s[..n];
      assert s == u + s[n..];
      CharIsEncoded(u);
      CharSize(u);
      CharRun(u, s[n..]);
      AcceptedEncoded(s[n..]);
      WellFormedCons(Spelled(u), s[n..]);
    }
  }

  lemma CharSize(u: Bytes)
    requires Char(u)
    ensures |u| > 0 && Spelled(u) >= 0
  {
    CharIsEncoded(u);
  }

  /** The states accept exactly the well-formed texts. */
  lemma AcceptsWellFormed(s: Bytes)
    ensures Accepts(Start, s) <==> WellFormed(s)
  {
    hide Accepts;
    hide EncodedAll;
    hide Scalars;
    if Accepts(Start, s) {
      AcceptedEncoded(s);
    }
    if WellFormed(s) {
      var cps: seq<nat> :| Scalars(cps) && s == EncodedAll(cps);
      EncodedAccepted(cps);
    }
  }
}
