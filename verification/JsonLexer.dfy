/**
  The scanner (json.hpp `lexer::scan`): the next token of a text. Past the end
  of the buffer the scanner reads zero bytes, and a zero byte ends the input.
 */
module JsonLexer {
  import opened JsonValue
  import opened Binary
  import opened JsonPointer
  import JsonString
  import opened StringScan
  import Utf8

  datatype Kind =
    | LiteralTrue | LiteralFalse | LiteralNull
    | ValueString | ValueUnsigned | ValueInteger | ValueFloat
    | BeginArray | BeginObject | EndArray | EndObject
    | NameSeparator | ValueSeparator
    | ParseError | EndOfInput

  /** A token occupies the bytes from `start` up to `end`. */
  datatype Token = Token(kind: Kind, start: nat, end: nat)

  function Peek(v: Bytes, i: nat): byte {
    if i < |v| then v[i] else 0
  }

  predicate Blank(c: byte) {
    c == 0x20 || c == 0x09 || c == 0x0A || c == 0x0D
  }

  // ---------- numbers ----------

  /** States 13/43, 15/45, 47, 56, 51, 59, 60 and 48 of the scanner. */
  datatype NumberState = Zero | Whole | Dot | Fraction | Exponent | Sign | ExponentDigits | Junk

  predicate IsExponent(c: byte) {
    c == 69 || c == 101
  }

  /** The cursor is at `i`; `mark` and `kind` say what to accept on backtracking. */
  function Number(v: Bytes, i: nat, st: NumberState, mark: nat, kind: Kind): (Kind, nat)
    decreases if i <= |v| then |v| - i else 0
  {
    var c := Peek(v, i);
    match st
    case Zero =>
      if c == 46 then Number(v, i + 1, Dot, i, kind)
      else if IsDigit(c) then Number(v, i + 1, Junk, i, kind)
      else if IsExponent(c) then Number(v, i + 1, Exponent, i, kind)
      else (kind, i)
    case Whole =>
      if IsDigit(c) then Number(v, i + 1, Whole, i + 1, kind)
      else if c == 46 then Number(v, i + 1, Dot, i, kind)
      else if IsExponent(c) then Number(v, i + 1, Exponent, i, kind)
      else (kind, i)
    case Dot =>
      if IsDigit(c) then Number(v, i + 1, Fraction, i + 1, ValueFloat) else (kind, mark)
    case Fraction =>
      if IsDigit(c) then Number(v, i + 1, Fraction, i + 1, ValueFloat)
      else if IsExponent(c) then Number(v, i + 1, Exponent, i, ValueFloat)
      else (ValueFloat, i)
    case Exponent =>
      if c == 43 || c == 45 then Number(v, i + 1, Sign, mark, kind)
      else if IsDigit(c) then Number(v, i + 1, ExponentDigits, mark, kind)
      else (kind, mark)
    case Sign =>
      if IsDigit(c) then Number(v, i + 1, ExponentDigits, mark, kind) else (kind, mark)
    case ExponentDigits =>
      if IsDigit(c) then Number(v, i + 1, ExponentDigits, mark, kind) else (ValueFloat, i)
    case Junk =>
      if IsDigit(c) then Number(v, i + 1, Junk, mark, kind) else (ParseError, i)
  }

  /** A number token; after a minus sign a digit must come. */
  function NumberToken(v: Bytes, i: nat): Token {
    var minus := Peek(v, i) == 45;
    var d := if minus then i + 1 else i;
    var kind := if minus then ValueInteger else ValueUnsigned;
    if !IsDigit(Peek(v, d)) then Token(ParseError, i, i + 1)
    else
      var st := if Peek(v, d) == 48 then Zero else Whole;
      var (k, end) := Number(v, d + 1, st, d + 1, kind);
      Token(k, i, end)
  }

  // ---------- tokens ----------

  function Literal(v: Bytes, i: nat, word: Bytes, kind: Kind): Token {
    if HoldsAt(v, i, word) then Token(kind, i, i + |word|) else Token(ParseError, i, i + 1)
  }

  function StringToken(v: Bytes, i: nat): Token {
    match Run(v, i + 1, Text(Utf8.Start))
    case At(q) => Token(ValueString, i, q + 1)
    case Nowhere => Token(ParseError, i, i + 1)
  }

  /** The token that starts at `i`, which is no blank. */
  function TokenAt(v: Bytes, i: nat): Token {
    var c := Peek(v, i);
    if c == 0 then Token(EndOfInput, i, i + 1)
    else if c == 34 then StringToken(v, i)
    else if c == 44 then Token(ValueSeparator, i, i + 1)
    else if c == 45 || IsDigit(c) then NumberToken(v, i)
    else if c == 58 then Token(NameSeparator, i, i + 1)
    else if c == 91 then Token(BeginArray, i, i + 1)
    else if c == 93 then Token(EndArray, i, i + 1)
    else if c == 102 then Literal(v, i, [102, 97, 108, 115, 101], LiteralFalse)
    else if c == 110 then Literal(v, i, [110, 117, 108, 108], LiteralNull)
    else if c == 116 then Literal(v, i, [116, 114, 117, 101], LiteralTrue)
    else if c == 123 then Token(BeginObject, i, i + 1)
    else if c == 125 then Token(EndObject, i, i + 1)
    else Token(ParseError, i, i + 1)
  }

  function SkipBlanks(v: Bytes, i: nat): nat
    decreases |v| - i
  {
    if i < |v| && Blank(v[i]) then SkipBlanks(v, i + 1) else i
  }

  function Scan(v: Bytes, i: nat): Token {
    TokenAt(v, SkipBlanks(v, i))
  }

  // ---------- tokens fit the text ----------

  /** Only the end of the input lies past the text, and string tokens are legal. */
  predicate Fits(v: Bytes, t: Token) {
    && t.start < t.end <= |v| + 1
    && (t.kind != EndOfInput ==> t.end <= |v|)
    && (t.kind == ValueString ==> t.start + 2 <= t.end && JsonString.Legal(v[t.start + 1..t.end - 1]))
    && (t.kind == ValueUnsigned ==> AllDigits(v[t.start..t.end]))
    && (t.kind == ValueInteger ==> AllDigits(v[t.start + 1..t.end]))
  }

  /** The digits of an integer token reach to its end. */
  predicate Ends(v: Bytes, from: nat, kind: Kind, r: (Kind, nat)) {
    && from < r.1 <= |v| && (r.0 == kind || r.0 == ValueFloat || r.0 == ParseError)
    && (r.0 == ValueUnsigned || r.0 == ValueInteger ==> AllDigits(v[from..r.1]))
  }

  predicate Marked(v: Bytes, from: nat, mark: nat, kind: Kind) {
    && from < mark <= |v|
    && (kind == ValueFloat || ((kind == ValueUnsigned || kind == ValueInteger) && AllDigits(v[from..mark])))
  }

  lemma MarkedEnds(v: Bytes, from: nat, mark: nat, kind: Kind)
    requires Marked(v, from, mark, kind)
    ensures Ends(v, from, kind, (kind, mark))
  {
  }

  lemma OtherEnds(v: Bytes, from: nat, i: nat, kind: Kind)
    requires from < i <= |v|
    ensures Ends(v, from, kind, (ValueFloat, i)) && Ends(v, from, kind, (ParseError, i))
    ensures Marked(v, from, i, ValueFloat)
    ensures forall r :: Ends(v, from, ValueFloat, r) ==> Ends(v, from, kind, r)
  {
  }

  lemma MarkDigit(v: Bytes, from: nat, i: nat, kind: Kind)
    requires i < |v| && IsDigit(v[i]) && Marked(v, from, i, kind)
    ensures Marked(v, from, i + 1, kind)
  {
    assert v[from..i + 1] == v[from..i] + [v[i]];
  }

  lemma {:induction false} NumberEnds(v: Bytes, from: nat, i: nat, st: NumberState, mark: nat, kind: Kind)
    requires from < i <= |v| && Marked(v, from, mark, kind)
    requires st.Whole? || st.Zero? || st.Fraction? ==> mark == i
    requires st.Fraction? ==> kind == ValueFloat
    ensures Ends(v, from, kind, Number(v, i, st, mark, kind))
    decreases |v| - i
  {
    hide IsExponent;
    hide Ends;
    hide Marked;
    MarkedEnds(v, from, mark, kind);
    OtherEnds(v, from, i, kind);
    var c := Peek(v, i);
    if i < |v| {
      OtherEnds(v, from, i + 1, kind);
      match st
      case Zero =>
        NumberEnds(v, from, i + 1, Dot, i, kind);
        NumberEnds(v, from, i + 1, Junk, i, kind);
        NumberEnds(v, from, i + 1, Exponent, i, kind);
      case Whole =>
        NumberEnds(v, from, i + 1, Dot, i, kind);
        NumberEnds(v, from, i + 1, Exponent, i, kind);
        if IsDigit(c) {
          MarkDigit(v, from, i, kind);
          NumberEnds(v, from, i + 1, Whole, i + 1, kind);
        }
      case Dot => NumberEnds(v, from, i + 1, Fraction, i + 1, ValueFloat);
      case Fraction =>
        NumberEnds(v, from, i + 1, Fraction, i + 1, ValueFloat);
        NumberEnds(v, from, i + 1, Exponent, i, ValueFloat);
      case Exponent =>
        NumberEnds(v, from, i + 1, Sign, mark, kind);
        NumberEnds(v, from, i + 1, ExponentDigits, mark, kind);
      case Sign => NumberEnds(v, from, i + 1, ExponentDigits, mark, kind);
      case ExponentDigits => NumberEnds(v, from, i + 1, ExponentDigits, mark, kind);
      case Junk => NumberEnds(v, from, i + 1, Junk, mark, kind);
    }
  }

  lemma NumberFits(v: Bytes, i: nat)
    requires i < |v| && (v[i] == 45 || IsDigit(v[i]))
    ensures Fits(v, NumberToken(v, i))
  {
    hide Number;
    var minus := v[i] == 45;
    var d := if minus then i + 1 else i;
    if IsDigit(Peek(v, d)) {
      var kind := if minus then ValueInteger else ValueUnsigned;
      var st := if Peek(v, d) == 48 then Zero else Whole;
      assert v[d..d + 1] == [v[d]];
      NumberEnds(v, d, d + 1, st, d + 1, kind);
    }
  }

  lemma StringFits(v: Bytes, i: nat)
    requires i < |v|
    ensures Fits(v, StringToken(v, i))
  {
    hide Run;
    hide JsonString.Legal;
    RunNextBounds(v, i + 1);
    if Run(v, i + 1, Text(Utf8.Start)).At? {
      AcceptedLegal(v, i + 1);
    }
  }

  lemma {:induction false} BlanksSkipped(v: Bytes, i: nat)
    requires i <= |v|
    ensures i <= SkipBlanks(v, i) <= |v|
    ensures !Blank(Peek(v, SkipBlanks(v, i)))
    decreases |v| - i
  {
    if i < |v| && Blank(v[i]) {
      BlanksSkipped(v, i + 1);
    }
  }

  lemma ScanFits(v: Bytes, i: nat)
    requires i <= |v|
    ensures Fits(v, Scan(v, i)) && i <= Scan(v, i).start
  {
    hide SkipBlanks;
    hide NumberToken;
    hide StringToken;
    BlanksSkipped(v, i);
    var k := SkipBlanks(v, i);
    if k < |v| {
      StringFits(v, k);
      if v[k] == 45 || IsDigit(v[k]) {
        NumberFits(v, k);
      }
      NumberStart(v, k);
    }
  }

  lemma NumberStart(v: Bytes, i: nat)
    ensures NumberToken(v, i).start == i && StringToken(v, i).start == i
  {
  }

  // ---------- tokens of printed text ----------

  /** Bytes that end an integer. */
  predicate Ended(c: byte) {
    !IsDigit(c) && c != 46 && !IsExponent(c)
  }

  lemma {:induction false} DigitsRun(v: Bytes, i: nat, ds: Bytes, kind: Kind)
    requires HoldsAt(v, i, ds) && AllDigits(ds) && Ended(Peek(v, i + |ds|))
    ensures Number(v, i, Whole, i, kind) == (kind, i + |ds|)
    decreases |ds|
  {
    hide HoldsAt;
    hide IsExponent;
    if ds != [] {
      HoldsTail(v, i, ds);
      HoldsFirst(v, i, ds);
      DigitsRun(v, i + 1, ds[1..], kind);
    }
  }

  lemma DecimalToken(v: Bytes, i: nat, n: nat)
    requires HoldsAt(v, i, Decimal(n)) && Ended(Peek(v, i + |Decimal(n)|))
    ensures TokenAt(v, i) == Token(ValueUnsigned, i, i + |Decimal(n)|)
  {
    hide HoldsAt;
    hide IsExponent;
    hide Decimal;
    var ds := Decimal(n);
    HoldsTail(v, i, ds);
    HoldsFirst(v, i, ds);
    if ds[0] == 48 {
      assert ds == [48];
    } else {
      DigitsRun(v, i + 1, ds[1..], ValueUnsigned);
    }
  }

  lemma NegativeToken(v: Bytes, i: nat, n: nat)
    requires n > 0 && HoldsAt(v, i, [45] + Decimal(n)) && Ended(Peek(v, i + 1 + |Decimal(n)|))
    ensures TokenAt(v, i) == Token(ValueInteger, i, i + 1 + |Decimal(n)|)
  {
    hide HoldsAt;
    hide IsExponent;
    hide Decimal;
    var ds := Decimal(n);
    HoldsConcat(v, i, [45], ds);
    HoldsFirst(v, i, [45]);
    HoldsTail(v, i + 1, ds);
    HoldsFirst(v, i + 1, ds);
    DigitsRun(v, i + 2, ds[1..], ValueInteger);
  }

  /** Printing the value of digits gives them back, unless they start with a needless zero. */
  lemma {:induction false} DecimalOfDigits(s: Bytes)
    requires s != [] && AllDigits(s) && (|s| > 1 ==> s[0] != 48)
    ensures DigitsValue(s) >= 0 && (|s| > 1 ==> DigitsValue(s) > 0) && Decimal(DigitsValue(s)) == s
  {
    if |s| > 1 {
      var init, last := s[..|s| - 1], s[|s| - 1];
      DecimalOfDigits(init);
      assert s == init + [last];
      if |init| == 1 {
        assert DigitsValue(init) == init[0] - 48;
      }
    } else {
      assert s[..0] == [];
    }
  }

  /** Once the digits have ended, an integer token ends where they did. */
  lemma {:induction false} NumberBack(v: Bytes, i: nat, st: NumberState, mark: nat, kind: Kind)
    requires !st.Whole? && (st.Zero? ==> mark == i)
    ensures var r := Number(v, i, st, mark, kind); r.0 == ValueUnsigned || r.0 == ValueInteger ==> r == (kind, mark)
    decreases if i <= |v| then |v| - i else 0
  {
    hide IsExponent;
    if i < |v| {
      match st
      case Zero =>
        NumberBack(v, i + 1, Dot, i, kind);
        NumberBack(v, i + 1, Junk, i, kind);
        NumberBack(v, i + 1, Exponent, i, kind);
      case Dot => NumberBack(v, i + 1, Fraction, i + 1, ValueFloat);
      case Fraction =>
        NumberBack(v, i + 1, Fraction, i + 1, ValueFloat);
        NumberBack(v, i + 1, Exponent, i, ValueFloat);
      case Exponent =>
        NumberBack(v, i + 1, Sign, mark, kind);
        NumberBack(v, i + 1, ExponentDigits, mark, kind);
      case Sign => NumberBack(v, i + 1, ExponentDigits, mark, kind);
      case ExponentDigits => NumberBack(v, i + 1, ExponentDigits, mark, kind);
      case Junk => NumberBack(v, i + 1, Junk, mark, kind);
    }
  }

  /** An integer token is the decimal form of its value, after a minus sign or not. */
  lemma IntegerTokens(v: Bytes, i: nat)
    requires i < |v| && (v[i] == 45 || IsDigit(v[i]))
    ensures var t := NumberToken(v, i);
            && (t.kind == ValueUnsigned ==> i < t.end <= |v| && exists n: nat :: v[i..t.end] == Decimal(n))
            && (t.kind == ValueInteger ==> i < t.end <= |v| && exists n: nat :: v[i..t.end] == [45] + Decimal(n))
  {
    hide Decimal;
    hide DigitsValue;
    hide Number;
    var t := NumberToken(v, i);
    NumberFits(v, i);
    var d := if v[i] == 45 then i + 1 else i;
    if t.kind == ValueUnsigned || t.kind == ValueInteger {
      TokenKind(v, i);
      var s := v[d..t.end];
      if v[d] == 48 {
        NumberBack(v, d + 1, Zero, d + 1, t.kind);
      }
      DecimalOfDigits(s);
      var n: nat := DigitsValue(s);
      assert s == Decimal(n);
      assert v[i..t.end] == if v[i] == 45 then [45] + Decimal(n) else Decimal(n);
    }
  }

  lemma TokenKind(v: Bytes, i: nat)
    requires i < |v| && (v[i] == 45 || IsDigit(v[i]))
    ensures var t := NumberToken(v, i);
            && (t.kind == ValueUnsigned ==> v[i] != 45)
            && (t.kind == ValueInteger ==> v[i] == 45)
            && (t.kind == ValueUnsigned || t.kind == ValueInteger ==>
                  var d := if v[i] == 45 then i + 1 else i;
                  && d < t.end <= |v| && IsDigit(v[d])
                  && Number(v, d + 1, if v[d] == 48 then Zero else Whole, d + 1, t.kind) == (t.kind, t.end))
  {
    hide Number;
    var d := if v[i] == 45 then i + 1 else i;
    if IsDigit(Peek(v, d)) {
      var kind := if v[i] == 45 then ValueInteger else ValueUnsigned;
      assert v[d..d + 1] == [v[d]];
      NumberEnds(v, d, d + 1, if v[d] == 48 then Zero else Whole, d + 1, kind);
    }
  }

  predicate Blanks(s: Bytes) {
    forall k :: 0 <= k < |s| ==> Blank(s[k])
  }

  lemma {:induction false} ScanBlanks(v: Bytes, i: nat, s: Bytes)
    requires HoldsAt(v, i, s) && Blanks(s)
    ensures Scan(v, i) == Scan(v, i + |s|)
    decreases |s|
  {
    hide HoldsAt;
    hide Blank;
    hide TokenAt;
    if s != [] {
      HoldsTail(v, i, s);
      HoldsFirst(v, i, s);
      ScanBlanks(v, i + 1, s[1..]);
    }
  }

  /** A byte that is no blank begins a token. */
  lemma ScanHere(v: Bytes, i: nat)
    requires !Blank(Peek(v, i))
    ensures Scan(v, i) == TokenAt(v, i)
  {
    hide TokenAt;
  }

  /** A printed string is one token exactly when it is UTF-8. */
  lemma PrintedToken(v: Bytes, i: nat, s: Bytes)
    requires HoldsAt(v, i, [34] + JsonString.Escape(s) + [34])
    ensures var n := |JsonString.Escape(s)|;
            TokenAt(v, i) ==
            if Utf8.WellFormed(s) then Token(ValueString, i, i + n + 2) else Token(ParseError, i, i + 1)
    ensures v[i + 1..i + 1 + |JsonString.Escape(s)|] == JsonString.Escape(s)
  {
    hide HoldsAt;
    hide Run;
    hide JsonString.Escape;
    hide Utf8.Accepts;
    hide Utf8.WellFormed;
    hide NumberToken;
    var e := JsonString.Escape(s);
    assert [34] + e + [34] == [34] + (e + [34]);
    HoldsConcat(v, i, [34], e + [34]);
    HoldsConcat(v, i + 1, e, [34]);
    HoldsFirst(v, i, [34]);
    HoldsSlice(v, i + 1, e);
    EscapeRun(v, i + 1, Utf8.Start, s);
    Utf8.AcceptsWellFormed(s);
  }

  // ---------- the scanning loops ----------

  method ScanBlankRun(v: Bytes, from: nat) returns (i: nat)
    ensures i == SkipBlanks(v, from)
  {
    hide Blank;
    i := from;
    while i < |v| && Blank(v[i])
      invariant SkipBlanks(v, from) == SkipBlanks(v, i)
      decreases |v| - i
    {
      i := i + 1;
    }
  }

  method ScanNumber(v: Bytes, from: nat, first: NumberState, sort: Kind) returns (kind: Kind, end: nat)
    requires from <= |v|
    ensures (kind, end) == Number(v, from, first, from, sort)
  {
    var i, st, mark, k := from, first, from, sort;
    while true
      invariant i <= |v|
      invariant Number(v, from, first, from, sort) == Number(v, i, st, mark, k)
      decreases |v| - i
    {
      var c := Peek(v, i);
      match st {
        case Zero =>
          if c == 46 { st, mark := Dot, i; }
          else if IsDigit(c) { st, mark := Junk, i; }
          else if IsExponent(c) { st, mark := Exponent, i; }
          else { return k, i; }
        case Whole =>
          if IsDigit(c) { mark := i + 1; }
          else if c == 46 { st, mark := Dot, i; }
          else if IsExponent(c) { st, mark := Exponent, i; }
          else { return k, i; }
        case Dot =>
          if IsDigit(c) { st, mark, k := Fraction, i + 1, ValueFloat; }
          else { return k, mark; }
        case Fraction =>
          if IsDigit(c) { mark, k := i + 1, ValueFloat; }
          else if IsExponent(c) { st, mark, k := Exponent, i, ValueFloat; }
          else { return ValueFloat, i; }
        case Exponent =>
          if c == 43 || c == 45 { st := Sign; }
          else if IsDigit(c) { st := ExponentDigits; }
          else { return k, mark; }
        case Sign =>
          if IsDigit(c) { st := ExponentDigits; }
          else { return k, mark; }
        case ExponentDigits =>
          if !IsDigit(c) { return ValueFloat, i; }
        case Junk =>
          if !IsDigit(c) { return ParseError, i; }
      }
      i := i + 1;
    }
  }

  method ScanNumberToken(v: Bytes, i: nat) returns (t: Token)
    requires i < |v| && (v[i] == 45 || IsDigit(v[i]))
    ensures t == NumberToken(v, i)
  {
    hide Number;
    var d, sort := i, ValueUnsigned;
    if v[i] == 45 {
      d, sort := i + 1, ValueInteger;
      if !IsDigit(Peek(v, d)) {
        return Token(ParseError, i, i + 1);
      }
    }
    var kind, end := ScanNumber(v, d + 1, if v[d] == 48 then Zero else Whole, sort);
    t := Token(kind, i, end);
  }

  /** The scanner: blanks are skipped, then the first byte decides. */
  method ScanToken(v: Bytes, from: nat) returns (t: Token)
    requires from <= |v|
    ensures t == Scan(v, from)
  {
    hide NumberToken;
    hide Run;
    hide SkipBlanks;
    BlanksSkipped(v, from);
    var i := ScanBlankRun(v, from);
    var c := Peek(v, i);
    if c == 34 {
      var stop := ScanString(v, i + 1);
      match stop
      case At(q) => return Token(ValueString, i, q + 1);
      case Nowhere => return Token(ParseError, i, i + 1);
    } else if c == 45 || IsDigit(c) {
      t := ScanNumberToken(v, i);
    } else {
      t := TokenAt(v, i);
    }
  }
}
