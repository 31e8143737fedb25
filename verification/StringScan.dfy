/**
  The string part of the scanner (json.hpp `lexer::scan`, states 9 and 30 to 42,
  55, 65, 71, 74): which texts it takes for a string token, and what reading
  such a token gives.
 */
module StringScan {
  import opened JsonValue
  import opened Binary
  import opened Utf8
  import opened JsonString

  /** Between characters or inside one, after a backslash, or before `left` more hexadecimal digits. */
  datatype ScanState = Text(inside: State) | Escaped | Digits(left: nat)

  datatype Turn = Go(next: ScanState) | Close | Fail

  function Turned(m: Move): Turn {
    if m.To? then Go(Text(m.state)) else Fail
  }

  /** Bytes that stand for themselves: yybm[c] & 128. */
  predicate Plain(c: byte) {
    0x20 <= c <= 0x7F && c != 34 && c != 92
  }

  function Next(st: ScanState, c: byte): Turn {
    match st
    case Text(Start) =>
      if Plain(c) then Go(Text(Start))
      else if c <= 0x1F then Fail
      else if c == 34 then Close
      else if c == 92 then Go(Escaped)
      else Turned(Step(Start, c))
    case Text(inside) => Turned(Step(inside, c))
    case Escaped =>
      if IsLetter(c) then Go(Text(Start)) else if c == 117 then Go(Digits(4)) else Fail
    case Digits(left) =>
      if !IsHex(c) then Fail else Go(if left <= 1 then Text(Start) else Digits(left - 1))
  }

  datatype Stop = At(quote: nat) | Nowhere

  /** Where the closing quote is, if the bytes from `i` on spell the rest of a string. */
  function Run(v: Bytes, i: nat, st: ScanState): (r: Stop)
    ensures r.At? ==> i <= r.quote < |v| && v[r.quote] == 34
    decreases |v| - i
  {
    if i >= |v| then Nowhere
    else match Next(st, v[i])
      case Go(next) => Run(v, i + 1, next)
      case Close => At(i)
      case Fail => Nowhere
  }

  /** The scanner's cursor loop. */
  method ScanString(v: Bytes, from: nat) returns (r: Stop)
    ensures r == Run(v, from, Text(Start))
  {
    hide Next;
    var cursor, st := from, Text(Start);
    while cursor < |v|
      invariant Run(v, from, Text(Start)) == Run(v, cursor, st)
      decreases |v| - cursor
    {
      match Next(st, v[cursor])
      case Go(next) => cursor, st := cursor + 1, next;
      case Close => return At(cursor);
      case Fail => return Nowhere;
    }
    return Nowhere;
  }

  /** The state after the bytes `u`. */
  function After(st: ScanState, u: Bytes): Turn
    decreases |u|
  {
    if u == [] then Go(st)
    else match Next(st, u[0])
      case Go(next) => After(next, u[1..])
      case t => t
  }

  lemma {:induction false} RunOver(v: Bytes, i: nat, st: ScanState, u: Bytes)
    requires HoldsAt(v, i, u) && After(st, u).Go?
    ensures Run(v, i, st) == Run(v, i + |u|, After(st, u).next)
    decreases |u|
  {
    hide Next;
    hide HoldsAt;
    if u != [] {
      HoldsTail(v, i, u);
      HoldsFirst(v, i, u);
      RunOver(v, i + 1, Next(st, u[0]).next, u[1..]);
    }
  }

  lemma AfterStep(st: ScanState, c: byte, u: Bytes)
    requires Next(st, c).Go?
    ensures After(st, [c] + u) == After(Next(st, c).next, u)
  {
    hide Next;
    assert ([c] + u)[1..] == u;
  }

  // ---------- the language ----------

  /** One character, or one escape. */
  datatype Unit = Raw(cp: nat) | Short(letter: byte) | Code(hex: Bytes)

  predicate IsUnit(u: Unit) {
    match u
    case Raw(cp) => Scalar(cp) && cp >= 0x20 && cp != 34 && cp != 92
    case Short(c) => IsLetter(c)
    case Code(h) => Hex4(h)
  }

  function Render(u: Unit): (r: Bytes)
    ensures r != []
  {
    match u
    case Raw(cp) => Encoded(cp)
    case Short(c) => [92, c]
    case Code(h) => [92, 117] + h
  }

  predicate AllUnits(us: seq<Unit>) {
    forall k :: 0 <= k < |us| ==> IsUnit(us[k])
  }

  function RenderAll(us: seq<Unit>): Bytes {
    if us == [] then [] else Render(us[0]) + RenderAll(us[1..])
  }

  // From units to the automaton.

  lemma AfterTwo(u: Bytes)
    requires Char(u) && |u| == 2
    ensures After(Text(Start), u) == Go(Text(Start))
  {
    hide After;
    assert u == [u[0]] + ([u[1]] + []);
    AfterStep(Text(Start), u[0], [u[1]] + []);
    AfterStep(Text(Tail), u[1], []);
    AfterNothing(Text(Start));
  }

  lemma AfterThree(u: Bytes)
    requires Char(u) && |u| == 3
    ensures After(Text(Start), u) == Go(Text(Start))
  {
    hide After;
    assert u == [u[0]] + ([u[1]] + ([u[2]] + []));
    AfterStep(Text(Start), u[0], [u[1]] + ([u[2]] + []));
    AfterStep(Text(Step(Start, u[0]).state), u[1], [u[2]] + []);
    AfterStep(Text(Tail), u[2], []);
    AfterNothing(Text(Start));
  }

  lemma AfterFour(u: Bytes)
    requires Char(u) && |u| == 4
    ensures After(Text(Start), u) == Go(Text(Start))
  {
    hide After;
    assert u == [u[0]] + ([u[1]] + ([u[2]] + ([u[3]] + [])));
    AfterStep(Text(Start), u[0], [u[1]] + ([u[2]] + ([u[3]] + [])));
    AfterStep(Text(Step(Start, u[0]).state), u[1], [u[2]] + ([u[3]] + []));
    AfterStep(Text(Tail2), u[2], [u[3]] + []);
    AfterStep(Text(Tail), u[3], []);
    AfterNothing(Text(Start));
  }

  lemma AfterNothing(st: ScanState)
    ensures After(st, []) == Go(st)
  {
  }

  lemma AfterRaw(cp: nat)
    requires IsUnit(Raw(cp))
    ensures After(Text(Start), Encoded(cp)) == Go(Text(Start))
  {
    hide After;
    hide Next;
    var u := Encoded(cp);
    EncodedIsChar(cp);
    if cp < 0x80 {
      assert u == [u[0]] + [];
      PlainByte(u[0]);
      AfterStep(Text(Start), u[0], []);
      AfterNothing(Text(Start));
    } else if |u| == 2 {
      AfterTwo(u);
    } else if |u| == 3 {
      AfterThree(u);
    } else {
      AfterFour(u);
    }
  }

  lemma PlainByte(c: byte)
    requires Plain(c)
    ensures Next(Text(Start), c) == Go(Text(Start))
  {
  }

  lemma AfterShort(c: byte)
    requires IsLetter(c)
    ensures After(Text(Start), [92, c]) == Go(Text(Start))
  {
    hide After;
    assert [92, c] == [92] + ([c] + []);
    AfterStep(Text(Start), 92, [c] + []);
    AfterStep(Escaped, c, []);
    AfterNothing(Text(Start));
  }

  lemma AfterCode(h: Bytes)
    requires Hex4(h)
    ensures After(Text(Start), [92, 117] + h) == Go(Text(Start))
  {
    hide After;
    hide IsHex;
    assert [92, 117] + h == [92] + ([117] + ([h[0]] + ([h[1]] + ([h[2]] + ([h[3]] + [])))));
    AfterStep(Text(Start), 92, [117] + ([h[0]] + ([h[1]] + ([h[2]] + ([h[3]] + [])))));
    AfterStep(Escaped, 117, [h[0]] + ([h[1]] + ([h[2]] + ([h[3]] + []))));
    AfterStep(Digits(4), h[0], [h[1]] + ([h[2]] + ([h[3]] + [])));
    AfterStep(Digits(3), h[1], [h[2]] + ([h[3]] + []));
    AfterStep(Digits(2), h[2], [h[3]] + []);
    AfterStep(Digits(1), h[3], []);
    AfterNothing(Text(Start));
  }

  lemma AfterUnit(u: Unit)
    requires IsUnit(u)
    ensures After(Text(Start), Render(u)) == Go(Text(Start))
  {
    hide After;
    match u
    case Raw(cp) => AfterRaw(cp);
    case Short(c) => AfterShort(c);
    case Code(h) => AfterCode(h);
  }

  lemma {:induction false} UnitsRun(v: Bytes, i: nat, us: seq<Unit>)
    requires AllUnits(us) && HoldsAt(v, i, RenderAll(us) + [34])
    ensures Run(v, i, Text(Start)) == At(i + |RenderAll(us)|)
    decreases |us|
  {
    hide IsUnit;
    hide Render;
    hide After;
    hide HoldsAt;
    if us == [] {
      assert RenderAll(us) + [34] == [34];
      HoldsFirst(v, i, [34]);
    } else {
      var u, rest := Render(us[0]), RenderAll(us[1..]);
      assert RenderAll(us) + [34] == u + (rest + [34]);
      HoldsConcat(v, i, u, rest + [34]);
      AfterUnit(us[0]);
      RunOver(v, i, Text(Start), u);
      UnitsRun(v, i + |u|, us[1..]);
    }
  }

  // From the automaton to units.

  lemma RunNext(v: Bytes, i: nat, st: ScanState)
    requires Run(v, i, st).At?
    ensures i < |v| && !Next(st, v[i]).Fail?
    ensures Next(st, v[i]).Go? ==> Run(v, i + 1, Next(st, v[i]).next) == Run(v, i, st) && i < Run(v, i, st).quote
    ensures Next(st, v[i]).Close? ==> Run(v, i, st).quote == i
  {
    hide Next;
  }

  /** The character at `i`, when it is not an ASCII byte. */
  lemma WideChar(v: Bytes, i: nat)
    requires Run(v, i, Text(Start)).At? && v[i] >= 0x80
    ensures var w := Width(v[i]);
            i + w <= Run(v, i, Text(Start)).quote && Char(v[i..i + w])
            && Run(v, i + w, Text(Start)) == Run(v, i, Text(Start))
  {
    hide Run;
    RunNext(v, i, Text(Start));
    var second := Step(Start, v[i]).state;
    RunNext(v, i + 1, Text(second));
    if Width(v[i]) > 2 {
      var third := Step(second, v[i + 1]).state;
      RunNext(v, i + 2, Text(third));
      if Width(v[i]) > 3 {
        RunNext(v, i + 3, Text(Tail));
      }
    }
  }

  lemma EscapeUnit(v: Bytes, i: nat) returns (u: Unit)
    requires Run(v, i, Text(Start)).At? && v[i] == 92
    ensures IsUnit(u) && HoldsAt(v, i, Render(u)) && i + |Render(u)| <= Run(v, i, Text(Start)).quote
    ensures Run(v, i + |Render(u)|, Text(Start)) == Run(v, i, Text(Start))
  {
    hide Run;
    hide IsLetter;
    hide IsHex;
    RunNext(v, i, Text(Start));
    RunNext(v, i + 1, Escaped);
    var c := v[i + 1];
    if IsLetter(c) {
      u := Short(c);
      assert v[i..i + 2] == [92, c];
    } else {
      RunNext(v, i + 2, Digits(4));
      RunNext(v, i + 3, Digits(3));
      RunNext(v, i + 4, Digits(2));
      RunNext(v, i + 5, Digits(1));
      u := Code(v[i + 2..i + 6]);
      assert v[i..i + 6] == [92, 117] + v[i + 2..i + 6];
    }
  }

  lemma FirstUnit(v: Bytes, i: nat) returns (u: Unit)
    requires Run(v, i, Text(Start)).At? && Run(v, i, Text(Start)).quote != i
    ensures IsUnit(u) && HoldsAt(v, i, Render(u)) && i + |Render(u)| <= Run(v, i, Text(Start)).quote
    ensures Run(v, i + |Render(u)|, Text(Start)) == Run(v, i, Text(Start))
  {
    hide Run;
    hide Char;
    hide Encoded;
    hide Width;
    hide Scalar;
    RunNext(v, i, Text(Start));
    if v[i] == 92 {
      u := EscapeUnit(v, i);
    } else if v[i] < 0x80 {
      u := Raw(v[i]);
      AsciiChar(v[i]);
      assert v[i..i + 1] == [v[i]];
    } else {
      WideChar(v, i);
      var w := v[i..i + Width(v[i])];
      CharIsEncoded(w);
      WideScalar(w);
      u := Raw(Spelled(w));
    }
  }

  lemma AsciiChar(c: byte)
    requires c < 0x80
    ensures Encoded(c) == [c] && Scalar(c)
  {
  }

  lemma WideScalar(w: Bytes)
    requires Char(w) && w[0] >= 0x80
    ensures Spelled(w) >= 0x80
  {
  }

  /** What may stand between the quotes. */
  ghost predicate StringText(s: Bytes) {
    exists us :: AllUnits(us) && s == RenderAll(us)
  }

  lemma {:induction false} RunUnits(v: Bytes, i: nat)
    requires Run(v, i, Text(Start)).At?
    ensures StringText(v[i..Run(v, i, Text(Start)).quote])
    decreases |v| - i
  {
    hide IsUnit;
    hide Run;
    hide Render;
    hide HoldsAt;
    var q := Run(v, i, Text(Start)).quote;
    if i == q {
      assert v[i..q] == RenderAll([]);
    } else {
      var u := FirstUnit(v, i);
      var n := i + |Render(u)|;
      HoldsBounds(v, i, Render(u));
      RunUnits(v, n);
      var us :| AllUnits(us) && v[n..q] == RenderAll(us);
      var all := [u] + us;
      assert all[1..] == us;
      HoldsSlice(v, i, Render(u));
      assert v[i..q] == v[i..n] + v[n..q] == RenderAll(all);
    }
  }

  /** The automaton accepts exactly characters and legal escapes up to a quote. */
  lemma StringLanguage(v: Bytes, i: nat, q: nat)
    ensures Run(v, i, Text(Start)) == At(q) <==> i <= q < |v| && v[q] == 34 && StringText(v[i..q])
  {
    hide Run;
    hide RenderAll;
    hide AllUnits;
    if Run(v, i, Text(Start)) == At(q) {
      RunUnits(v, i);
      RunNextBounds(v, i);
    }
    if i <= q < |v| && v[q] == 34 && StringText(v[i..q]) {
      var us :| AllUnits(us) && v[i..q] == RenderAll(us);
      assert v[i..q + 1] == RenderAll(us) + [34];
      UnitsRun(v, i, us);
    }
  }

  lemma RunNextBounds(v: Bytes, i: nat)
    ensures var r := Run(v, i, Text(Start)); r.At? ==> i <= r.quote < |v| && v[r.quote] == 34
  {
  }

  // ---------- what accepted tokens mean ----------

  predicate IsHigh(u: Unit) {
    u.Code? && Hex4(u.hex) && High(CodeOf(u.hex))
  }

  predicate IsLow(u: Unit) {
    u.Code? && Hex4(u.hex) && Low(CodeOf(u.hex))
  }

  /** Every high surrogate is directly followed by a low one, and every low one follows a high one. */
  predicate Paired(us: seq<Unit>) {
    && (forall k :: 0 <= k < |us| && IsHigh(us[k]) ==> k + 1 < |us| && IsLow(us[k + 1]))
    && (forall k :: 0 <= k < |us| && IsLow(us[k]) ==> k > 0 && IsHigh(us[k - 1]))
  }

  lemma {:induction false} LegalUnits(us: seq<Unit>)
    requires AllUnits(us)
    ensures Legal(RenderAll(us))
    decreases |us|
  {
    hide Legal;
    hide Encoded;
    if us == [] {
      LegalNothing();
    } else {
      var t := RenderAll(us[1..]);
      LegalUnits(us[1..]);
      match us[0]
      case Raw(cp) => ReadRaw(cp, t);
      case Short(c) => GetLetter(c, t);
      case Code(h) => GetCode(h, t);
    }
  }

  lemma EncodedClean(cp: nat)
    requires IsUnit(Raw(cp))
    ensures 92 !in Encoded(cp)
  {
  }

  lemma {:induction false} ReadRaws(u: Bytes, t: Bytes)
    requires 92 !in u && Legal(t)
    ensures Legal(u + t) && GetString(u + t) == Prefixed(u, GetString(t))
  {
    hide Legal;
    hide GetString;
    if u == [] {
      assert u + t == t;
      PrefixedNothing(GetString(t));
    } else {
      assert u[0] in u && forall c :: c in u[1..] ==> c in u;
      ReadRaws(u[1..], t);
      assert u + t == [u[0]] + (u[1..] + t);
      assert u == [u[0]] + u[1..];
      GetRaw(u[0], u[1..] + t);
      PrefixedTwice([u[0]], u[1..], GetString(t));
    }
  }

  lemma ReadRaw(cp: nat, t: Bytes)
    requires IsUnit(Raw(cp)) && Legal(t)
    ensures Legal(Encoded(cp) + t) && GetString(Encoded(cp) + t) == Prefixed(Encoded(cp), GetString(t))
  {
    hide *;
    EncodedClean(cp);
    ReadRaws(Encoded(cp), t);
  }

  /** A result that is no error and is well-formed. */
  ghost predicate Fine(r: Result<Bytes>) {
    r.Ok? && WellFormed(r.value)
  }

  ghost predicate FineOrBad(r: Result<Bytes>, good: bool) {
    if good then Fine(r) else r == Err(InvalidArgument)
  }

  lemma FinePrefix(s: Bytes, r: Result<Bytes>, good: bool)
    requires WellFormed(s) && FineOrBad(r, good)
    ensures FineOrBad(Prefixed(s, r), good)
  {
    hide WellFormed;
    if good {
      WellFormedConcat(s, r.value);
    }
  }

  lemma PairedTail(us: seq<Unit>)
    requires us != [] && !IsHigh(us[0]) && !IsLow(us[0])
    ensures Paired(us) <==> Paired(us[1..])
  {
    hide IsHigh;
    hide IsLow;
    var t := us[1..];
    if Paired(us) {
      forall k | 0 <= k < |t| ensures (IsHigh(t[k]) ==> k + 1 < |t| && IsLow(t[k + 1])) && (IsLow(t[k]) ==> k > 0 && IsHigh(t[k - 1])) {
        assert t[k] == us[k + 1];
      }
    }
    if Paired(t) {
      forall k | 0 <= k < |us| ensures (IsHigh(us[k]) ==> k + 1 < |us| && IsLow(us[k + 1])) && (IsLow(us[k]) ==> k > 0 && IsHigh(us[k - 1])) {
        if k > 0 {
          assert us[k] == t[k - 1];
          if IsHigh(us[k]) {
            assert us[k + 1] == t[k];
          }
          if IsLow(us[k]) {
            assert us[k - 1] == t[k - 2];
          }
        }
      }
    }
  }

  lemma PairedPair(us: seq<Unit>)
    requires |us| >= 2 && IsHigh(us[0]) && IsLow(us[1])
    ensures Paired(us) <==> Paired(us[2..])
  {
    HighNotLow(us[0]);
    HighNotLow(us[1]);
    PairedPairCore(us);
  }

  lemma HighNotLow(u: Unit)
    ensures !(IsHigh(u) && IsLow(u))
  {
  }

  lemma PairedPairCore(us: seq<Unit>)
    requires |us| >= 2 && IsHigh(us[0]) && IsLow(us[1]) && !IsHigh(us[1]) && !IsLow(us[0])
    ensures Paired(us) <==> Paired(us[2..])
  {
    hide IsHigh;
    hide IsLow;
    var t := us[2..];
    if Paired(us) {
      forall k | 0 <= k < |t| ensures (IsHigh(t[k]) ==> k + 1 < |t| && IsLow(t[k + 1])) && (IsLow(t[k]) ==> k > 0 && IsHigh(t[k - 1])) {
        assert t[k] == us[k + 2];
      }
    }
    if Paired(t) {
      forall k | 0 <= k < |us| ensures (IsHigh(us[k]) ==> k + 1 < |us| && IsLow(us[k + 1])) && (IsLow(us[k]) ==> k > 0 && IsHigh(us[k - 1])) {
        if k > 1 {
          assert us[k] == t[k - 2];
          if IsHigh(us[k]) {
            assert us[k + 1] == t[k - 1];
          }
          if IsLow(us[k]) {
            assert us[k - 1] == t[k - 3];
          }
        }
      }
    }
  }

  /** Reading units succeeds exactly when the surrogates are paired, and then gives well-formed UTF-8. */
  lemma {:induction false} UnitsRead(us: seq<Unit>)
    requires AllUnits(us)
    ensures Legal(RenderAll(us)) && FineOrBad(GetString(RenderAll(us)), Paired(us))
    decreases |us|
  {
    hide Legal;
    hide GetString;
    hide Paired;
    hide FineOrBad;
    hide Encoded;
    hide CodeOf;
    hide Hex4;
    hide IsLetter;
    LegalUnits(us);
    if us == [] {
      UnitsNothing();
    } else {
      var t := RenderAll(us[1..]);
      LegalUnits(us[1..]);
      match us[0]
      case Raw(cp) =>
        UnitsRead(us[1..]);
        PairedTail(us);
        ReadRaw(cp, t);
        WellFormedChar(cp);
        FinePrefix(Encoded(cp), GetString(t), Paired(us[1..]));
      case Short(c) =>
        UnitsRead(us[1..]);
        PairedTail(us);
        GetLetter(c, t);
        LetterFine(c);
        FinePrefix([Unletter(c)], GetString(t), Paired(us[1..]));
      case Code(h) =>
        GetCode(h, t);
        if |us| >= 2 && IsHigh(us[0]) && IsLow(us[1]) {
          UnitsRead(us[2..]);
        } else if !IsHigh(us[0]) && !IsLow(us[0]) {
          UnitsRead(us[1..]);
        }
        CodeRead(us);
    }
  }

  lemma UnitsNothing()
    ensures FineOrBad(GetString([]), Paired([]))
  {
    WellFormedNothing();
  }

  lemma LetterFine(c: byte)
    requires IsLetter(c)
    ensures WellFormed([Unletter(c)])
  {
    hide WellFormed;
    var d := Unletter(c);
    AsciiChar(d);
    WellFormedChar(d);
  }

  /** The case of a code at the front. */
  lemma CodeRead(us: seq<Unit>)
    requires AllUnits(us) && us != [] && us[0].Code? && Hex4(us[0].hex) && Legal(RenderAll(us[1..]))
    requires |us| >= 2 && IsHigh(us[0]) && IsLow(us[1]) ==>
               Legal(RenderAll(us[2..])) && FineOrBad(GetString(RenderAll(us[2..])), Paired(us[2..]))
    requires !IsHigh(us[0]) && !IsLow(us[0]) ==> FineOrBad(GetString(RenderAll(us[1..])), Paired(us[1..]))
    ensures FineOrBad(FromCode(CodeOf(us[0].hex), RenderAll(us[1..])), Paired(us))
  {
    hide *;
    var cp, t := CodeOf(us[0].hex), RenderAll(us[1..]);
    CodeKind(us[0]);
    if !IsHigh(us[0]) && !IsLow(us[0]) {
      FromPlainCode(cp, t);
      PlainCodeScalar(cp);
      WellFormedChar(cp);
      PairedTail(us);
      FinePrefix(Encoded(cp), GetString(t), Paired(us[1..]));
    } else if IsHigh(us[0]) && |us| >= 2 && IsLow(us[1]) {
      PairRead(us);
    } else {
      Unpaired(us);
      UnpairedRead(us);
    }
  }

  lemma CodeKind(u: Unit)
    requires u.Code? && Hex4(u.hex)
    ensures IsHigh(u) <==> High(CodeOf(u.hex))
    ensures IsLow(u) <==> Low(CodeOf(u.hex))
    ensures CodeOf(u.hex) <= 0xFFFF
  {
  }

  lemma PlainCodeScalar(cp: nat)
    requires cp <= 0xFFFF && !High(cp) && !Low(cp)
    ensures Scalar(cp)
  {
  }

  lemma Unpaired(us: seq<Unit>)
    requires us != [] && (IsLow(us[0]) || (IsHigh(us[0]) && (|us| == 1 || !IsLow(us[1]))))
    ensures !Paired(us)
    ensures forall r :: FineOrBad(r, false) <==> r == Err(InvalidArgument)
  {
    hide IsHigh;
    hide IsLow;
  }

  lemma PairRead(us: seq<Unit>)
    requires AllUnits(us) && |us| >= 2 && IsHigh(us[0]) && IsLow(us[1]) && Legal(RenderAll(us[1..]))
    requires Legal(RenderAll(us[2..])) && FineOrBad(GetString(RenderAll(us[2..])), Paired(us[2..]))
    ensures FineOrBad(FromCode(CodeOf(us[0].hex), RenderAll(us[1..])), Paired(us))
  {
    hide Paired;
    hide Legal;
    hide FineOrBad;
    hide GetString;
    hide Encoded;
    hide CodeOf;
    hide IsHex;
    var h, t := us[1].hex, RenderAll(us[2..]);
    assert us[1..][1..] == us[2..];
    var rest := RenderAll(us[1..]);
    assert rest == [92, 117] + h + t;
    assert rest[2..6] == h && rest[6..] == t && CodeFollows(rest);
    var cp := CodeOf(us[0].hex) * 1024 + CodeOf(h) - 0x35FDC00;
    PairIsScalar(CodeOf(us[0].hex), CodeOf(h));
    WellFormedChar(cp);
    PairedPair(us);
    FinePrefix(Encoded(cp), GetString(t), Paired(us[2..]));
  }

  lemma NoCodeFollows(us: seq<Unit>)
    requires AllUnits(us) && (us != [] ==> !us[0].Code?)
    ensures !CodeFollows(RenderAll(us))
  {
    if us != [] {
      match us[0]
      case Raw(cp) =>
        EncodedClean(cp);
        assert Encoded(cp)[0] != 92;
      case Short(c) =>
    }
  }

  lemma UnpairedRead(us: seq<Unit>)
    requires AllUnits(us) && us != [] && us[0].Code? && Legal(RenderAll(us[1..]))
    requires IsLow(us[0]) || (IsHigh(us[0]) && (|us| == 1 || !IsLow(us[1])))
    ensures FromCode(CodeOf(us[0].hex), RenderAll(us[1..])) == Err(InvalidArgument)
  {
    hide Legal;
    hide GetString;
    hide CodeOf;
    hide IsHex;
    hide Encoded;
    var rest := us[1..];
    if IsHigh(us[0]) {
      if rest != [] && rest[0].Code? {
        var h, t := us[1].hex, RenderAll(rest[1..]);
        assert RenderAll(rest) == [92, 117] + h + t;
        assert RenderAll(rest)[2..6] == h;
      } else {
        NoCodeFollows(rest);
      }
    }
  }

  /** A string token is read, as well-formed UTF-8, unless a surrogate in it is unpaired. */
  lemma AcceptedString(v: Bytes, i: nat)
    requires Run(v, i, Text(Start)).At?
    ensures var s := v[i..Run(v, i, Text(Start)).quote];
            && Legal(s)
            && exists us :: AllUnits(us) && s == RenderAll(us) && FineOrBad(GetString(s), Paired(us))
  {
    hide *;
    RunNextBounds(v, i);
    RunUnits(v, i);
    var us := UnitsOf(v[i..Run(v, i, Text(Start)).quote]);
    UnitsRead(us);
  }

  lemma AcceptedLegal(v: Bytes, i: nat)
    requires Run(v, i, Text(Start)).At?
    ensures Legal(v[i..Run(v, i, Text(Start)).quote])
  {
    hide *;
    RunNextBounds(v, i);
    RunUnits(v, i);
    var us := UnitsOf(v[i..Run(v, i, Text(Start)).quote]);
    LegalUnits(us);
  }

  lemma UnitsOf(s: Bytes) returns (us: seq<Unit>)
    requires StringText(s)
    ensures AllUnits(us) && s == RenderAll(us)
  {
    us :| AllUnits(us) && s == RenderAll(us);
  }

  // ---------- what the printer writes ----------

  lemma AfterEscape(c: byte)
    requires c < 0x80
    ensures After(Text(Start), EscapeByte(c)) == Go(Text(Start))
  {
    hide After;
    hide Next;
    hide Hex;
    hide Letter;
    hide Hex4;
    if HasLetter(c) {
      EscapedLetter(c);
      AfterShort(Letter(c));
    } else if c <= 0x1F {
      EscapedControl(c);
      var h := [48, 48, Hex(c / 16), Hex(c % 16)];
      assert EscapeByte(c) == [92, 117] + h;
      AfterCode(h);
    } else {
      PlainByte(c);
      assert [c] == [c] + [];
      AfterStep(Text(Start), c, []);
      AfterNothing(Text(Start));
    }
  }

  lemma InsideByte(st: State, c: byte)
    requires st != Start || c >= 0x80
    ensures EscapeByte(c) != []
    ensures c < 0x80 ==> Next(Text(st), EscapeByte(c)[0]) == Fail && Step(st, c) == Reject
    ensures c >= 0x80 ==> EscapeByte(c) == [c] && Next(Text(st), c) == Turned(Step(st, c))
    ensures st != Start ==> Next(Text(st), 34) == Fail
  {
  }

  /** The scanner accepts an escaped string exactly when the string is UTF-8, and stops at its end. */
  lemma {:induction false} EscapeRun(v: Bytes, i: nat, st: State, s: Bytes)
    requires HoldsAt(v, i, Escape(s) + [34])
    ensures Run(v, i, Text(st)) == if Accepts(st, s) then At(i + |Escape(s)|) else Nowhere
    decreases |s|
  {
    hide HoldsAt;
    hide EscapeByte;
    hide Next;
    hide Step;
    hide After;
    if s == [] {
      assert Escape(s) + [34] == [34];
      HoldsFirst(v, i, [34]);
      QuoteByte(st);
    } else {
      var e, rest := EscapeByte(s[0]), Escape(s[1..]);
      assert Escape(s) + [34] == e + (rest + [34]);
      HoldsConcat(v, i, e, rest + [34]);
      if st == Start && s[0] < 0x80 {
        AfterEscape(s[0]);
        RunOver(v, i, Text(Start), e);
        EscapeRun(v, i + |e|, Start, s[1..]);
      } else {
        InsideByte(st, s[0]);
        HoldsFirst(v, i, e);
        if s[0] >= 0x80 && Step(st, s[0]).To? {
          EscapeRun(v, i + 1, Step(st, s[0]).state, s[1..]);
        }
      }
    }
  }

  lemma QuoteByte(st: State)
    ensures Next(Text(st), 34) == if st == Start then Close else Fail
  {
  }
}
