/**
  What the escapes of a JSON string stand for (section 7 of RFC 7159): the letters
  by table, four hexadecimal digits by their number, two surrogates by the code
  point they are computed from. Reading a token gives the UTF-8 of these.
 */
module StringMeaning {
  import opened JsonValue
  import opened Utf8
  import opened JsonString
  import opened StringScan

  const LOWER: string := "0123456789abcdef"
  const UPPER: string := "0123456789ABCDEF"

  lemma TableSizes()
    ensures |LOWER| == 16 && |UPPER| == 16
  {
  }

  /** `c` is a hexadecimal digit for `d`, in either case. */
  predicate Stands(c: byte, d: nat)
    requires d < 16
  {
    TableSizes();
    c == LOWER[d] as int || c == UPPER[d] as int
  }

  /** The four hexadecimal digits of a number, most significant first. */
  predicate HexOf(h: Bytes, cp: nat)
    requires cp <= 0xFFFF
  {
    && |h| == 4
    && Stands(h[0], cp / 0x1000) && Stands(h[1], cp / 0x100 % 0x10)
    && Stands(h[2], cp / 0x10 % 0x10) && Stands(h[3], cp % 0x10)
  }

  lemma DigitValue(c: byte, d: nat)
    requires d < 16
    ensures Stands(c, d) <==> IsHex(c) && HexValue(c) == d
  {
  }

  lemma Nibbles(cp: nat)
    requires cp <= 0xFFFF
    ensures cp / 0x1000 < 0x10
    ensures ((cp / 0x1000 * 16 + cp / 0x100 % 0x10) * 16 + cp / 0x10 % 0x10) * 16 + cp % 0x10 == cp
  {
    var a, b := cp / 0x10, cp / 0x100;
    assert a / 0x10 == b && b / 0x10 == cp / 0x1000;
  }

  lemma NibblesOf(a: nat, b: nat, c: nat, d: nat)
    requires a < 16 && b < 16 && c < 16 && d < 16
    ensures var cp := ((a * 16 + b) * 16 + c) * 16 + d;
            cp / 0x1000 == a && cp / 0x100 % 0x10 == b && cp / 0x10 % 0x10 == c && cp % 0x10 == d
  {
  }

  /** Four digits have the code `cp` exactly when they are its digits. */
  lemma CodeOfHex(h: Bytes, cp: nat)
    requires cp <= 0xFFFF
    ensures HexOf(h, cp) <==> Hex4(h) && CodeOf(h) == cp
  {
    hide Stands;
    hide IsHex;
    hide HexValue;
    Nibbles(cp);
    if |h| == 4 {
      DigitValue(h[0], cp / 0x1000);
      DigitValue(h[1], cp / 0x100 % 0x10);
      DigitValue(h[2], cp / 0x10 % 0x10);
      DigitValue(h[3], cp % 0x10);
      if Hex4(h) {
        NibblesOf(HexValue(h[0]), HexValue(h[1]), HexValue(h[2]), HexValue(h[3]));
      }
    }
  }

  // ---------- single escapes ----------

  /** `\uXXXX` is the scalar value with these digits. */
  lemma CodeEscape(h: Bytes, cp: nat, t: Bytes)
    requires Scalar(cp) && cp <= 0xFFFF && HexOf(h, cp) && Legal(t)
    ensures Legal([92, 117] + h + t)
    ensures GetString([92, 117] + h + t) == Prefixed(Encoded(cp), GetString(t))
  {
    hide *;
    CodeOfHex(h, cp);
    GetCode(h, t);
    ScalarKind(cp);
    FromPlainCode(cp, t);
  }

  lemma ScalarKind(cp: nat)
    requires Scalar(cp)
    ensures !High(cp) && !Low(cp)
  {
  }

  function HighOf(cp: nat): nat
    requires 0x10000 <= cp <= 0x10FFFF
  {
    0xD800 + (cp - 0x10000) / 0x400
  }

  function LowOf(cp: nat): nat
    requires 0x10000 <= cp <= 0x10FFFF
  {
    0xDC00 + (cp - 0x10000) % 0x400
  }

  lemma SurrogatesOf(cp: nat)
    requires 0x10000 <= cp <= 0x10FFFF
    ensures High(HighOf(cp)) && Low(LowOf(cp)) && HighOf(cp) <= 0xFFFF && LowOf(cp) <= 0xFFFF
    ensures HighOf(cp) * 1024 + LowOf(cp) - 0x35FDC00 == cp
  {
  }

  /** The escapes of two surrogates are the code point above U+FFFF they are computed from. */
  lemma PairEscape(h: Bytes, l: Bytes, cp: nat, t: Bytes)
    requires 0x10000 <= cp <= 0x10FFFF && HighOf(cp) <= 0xFFFF && LowOf(cp) <= 0xFFFF
    requires HexOf(h, HighOf(cp)) && HexOf(l, LowOf(cp)) && Legal(t)
    ensures Legal([92, 117] + h + ([92, 117] + l + t))
    ensures GetString([92, 117] + h + ([92, 117] + l + t)) == Prefixed(Encoded(cp), GetString(t))
  {
    hide *;
    SurrogatesOf(cp);
    CodeOfHex(h, HighOf(cp));
    CodeOfHex(l, LowOf(cp));
    GetCode(l, t);
    var rest := [92, 117] + l + t;
    GetCode(h, rest);
    FromPair(HighOf(cp), l, t);
  }

  lemma FromPair(high: nat, l: Bytes, t: Bytes)
    requires High(high) && Hex4(l) && Low(CodeOf(l)) && Legal(t) && Legal([92, 117] + l + t)
    ensures high * 1024 + CodeOf(l) >= 0x35FDC00
    ensures FromCode(high, [92, 117] + l + t) ==
            Prefixed(Encoded(high * 1024 + CodeOf(l) - 0x35FDC00), GetString(t))
  {
    hide Legal;
    hide GetString;
    hide Encoded;
    hide CodeOf;
    hide IsHex;
    var rest := [92, 117] + l + t;
    assert rest[2..6] == l && rest[6..] == t && CodeFollows(rest);
    PairIsScalar(high, CodeOf(l));
  }

  /** The letters of section 7 of RFC 7159, each with the byte it stands for. */
  const LETTERS: seq<(byte, byte)> :=
    [(0x22, 0x22), (0x5C, 0x5C), (0x2F, 0x2F), (0x62, 0x08), (0x66, 0x0C), (0x6E, 0x0A), (0x72, 0x0D), (0x74, 0x09)]

  lemma LetterTable(c: byte)
    ensures IsLetter(c) <==> exists n :: 0 <= n < 8 && LETTERS[n].0 == c
    ensures forall n :: 0 <= n < 8 && LETTERS[n].0 == c ==> IsLetter(c) && Unletter(c) == LETTERS[n].1
  {
    if IsLetter(c) {
      var n := if c == 0x22 then 0 else if c == 0x5C then 1 else if c == 0x2F then 2 else if c == 0x62 then 3
               else if c == 0x66 then 4 else if c == 0x6E then 5 else if c == 0x72 then 6 else 7;
      assert LETTERS[n].0 == c;
    }
  }

  lemma LetterEscape(n: nat, t: Bytes)
    requires n < 8 && Legal(t)
    ensures Legal([92, LETTERS[n].0] + t)
    ensures GetString([92, LETTERS[n].0] + t) == Prefixed([LETTERS[n].1], GetString(t))
  {
    hide Legal;
    hide GetString;
    LetterTable(LETTERS[n].0);
    GetLetter(LETTERS[n].0, t);
  }

  // ---------- whole tokens ----------

  /** The code points that paired units stand for. */
  function Points(us: seq<Unit>): seq<nat>
    requires AllUnits(us)
    decreases |us|
  {
    if us == [] then [] else
      match us[0]
      case Raw(cp) => [cp] + Points(us[1..])
      case Short(c) => [Unletter(c) as nat] + Points(us[1..])
      case Code(h) =>
        if |us| >= 2 && IsHigh(us[0]) && IsLow(us[1]) then
          [CodeOf(h) * 1024 + CodeOf(us[1].hex) - 0x35FDC00] + Points(us[2..])
        else [CodeOf(h)] + Points(us[1..])
  }

  lemma FirstPoint(cp: nat, cps: seq<nat>)
    requires Scalar(cp) && Scalars(cps)
    ensures Scalars([cp] + cps) && EncodedAll([cp] + cps) == Encoded(cp) + EncodedAll(cps)
  {
    hide Scalar;
    hide Encoded;
    assert ([cp] + cps)[1..] == cps;
  }

  ghost predicate MeansPoints(us: seq<Unit>)
    requires AllUnits(us)
  {
    && Legal(RenderAll(us)) && Scalars(Points(us))
    && GetString(RenderAll(us)) == Ok(EncodedAll(Points(us)))
  }

  lemma PointsNothing()
    ensures MeansPoints([])
  {
    LegalNothing();
  }

  /** A token with paired surrogates reads as the concatenated encodings of its code points. */
  lemma {:induction false} UnitsMean(us: seq<Unit>)
    requires AllUnits(us) && Paired(us)
    ensures MeansPoints(us)
    decreases |us|
  {
    hide *;
    if us == [] {
      PointsNothing();
    } else {
      UnitsParts(us);
      HighPaired(us);
      if IsHigh(us[0]) {
        PairedPair(us);
        UnitsMean(us[2..]);
        PairMeans(us);
      } else {
        PairedTail(us);
        UnitsMean(us[1..]);
        match us[0]
        case Raw(_) => RawMeans(us);
        case Short(_) => ShortMeans(us);
        case Code(_) => CodeMeans(us);
      }
    }
  }

  lemma UnitsParts(us: seq<Unit>)
    requires AllUnits(us) && us != []
    ensures AllUnits(us[1..]) && IsUnit(us[0]) && (|us| >= 2 ==> AllUnits(us[2..]))
    ensures !us[0].Code? ==> !IsHigh(us[0]) && !IsLow(us[0])
  {
    hide IsUnit;
    hide CodeOf;
    hide Hex4;
  }

  lemma HighPaired(us: seq<Unit>)
    requires us != [] && Paired(us)
    ensures !IsLow(us[0])
    ensures IsHigh(us[0]) ==> |us| >= 2 && IsLow(us[1])
  {
    hide IsHigh;
    hide IsLow;
  }

  lemma PrefixOk(s: Bytes, t: Bytes)
    ensures Prefixed(s, Ok(t)) == Ok(s + t)
  {
  }

  lemma RawMeans(us: seq<Unit>)
    requires AllUnits(us) && us != [] && us[0].Raw? && IsUnit(us[0]) && AllUnits(us[1..]) && MeansPoints(us[1..])
    ensures MeansPoints(us)
  {
    hide Legal;
    hide GetString;
    hide Encoded;
    hide EncodedAll;
    hide Scalars;
    ReadRaw(us[0].cp, RenderAll(us[1..]));
    FirstPoint(us[0].cp, Points(us[1..]));
  }

  lemma ShortMeans(us: seq<Unit>)
    requires AllUnits(us) && us != [] && us[0].Short? && IsUnit(us[0]) && AllUnits(us[1..]) && MeansPoints(us[1..])
    ensures MeansPoints(us)
  {
    hide Legal;
    hide GetString;
    hide Encoded;
    hide EncodedAll;
    hide Scalars;
    hide IsLetter;
    hide Unletter;
    GetLetter(us[0].letter, RenderAll(us[1..]));
    LetterAscii(us[0].letter);
    FirstPoint(Unletter(us[0].letter), Points(us[1..]));
  }

  lemma LetterAscii(c: byte)
    requires IsLetter(c)
    ensures Scalar(Unletter(c)) && Encoded(Unletter(c)) == [Unletter(c)]
  {
    AsciiChar(Unletter(c));
  }

  lemma CodeMeans(us: seq<Unit>)
    requires AllUnits(us) && us != [] && us[0].Code? && !IsHigh(us[0]) && !IsLow(us[0])
    requires AllUnits(us[1..]) && MeansPoints(us[1..])
    ensures MeansPoints(us)
  {
    hide Legal;
    hide GetString;
    hide Encoded;
    hide EncodedAll;
    hide Scalars;
    hide CodeOf;
    hide IsHex;
    hide FromCode;
    var cp := CodeOf(us[0].hex);
    CodeKind(us[0]);
    GetCode(us[0].hex, RenderAll(us[1..]));
    FromPlainCode(cp, RenderAll(us[1..]));
    PlainCodeScalar(cp);
    FirstPoint(cp, Points(us[1..]));
  }

  lemma PairMeans(us: seq<Unit>)
    requires AllUnits(us) && |us| >= 2 && IsHigh(us[0]) && IsLow(us[1]) && AllUnits(us[2..]) && MeansPoints(us[2..])
    ensures MeansPoints(us)
  {
    hide Legal;
    hide GetString;
    hide Encoded;
    hide EncodedAll;
    hide Scalars;
    hide CodeOf;
    hide IsHex;
    hide FromCode;
    var h, l, t := us[0].hex, us[1].hex, RenderAll(us[2..]);
    assert us[1..][1..] == us[2..];
    assert RenderAll(us[1..]) == [92, 117] + l + t;
    GetCode(l, t);
    GetCode(h, [92, 117] + l + t);
    FromPair(CodeOf(h), l, t);
    PairIsScalar(CodeOf(h), CodeOf(l));
    FirstPoint(CodeOf(h) * 1024 + CodeOf(l) - 0x35FDC00, Points(us[2..]));
  }

  /** An accepted token is read as its code points, or rejected for an unpaired surrogate. */
  lemma TokenMeans(v: Bytes, i: nat) returns (us: seq<Unit>)
    requires Run(v, i, Text(Start)).At?
    ensures AllUnits(us) && v[i..Run(v, i, Text(Start)).quote] == RenderAll(us) && Legal(RenderAll(us))
    ensures Paired(us) ==> Scalars(Points(us)) && GetString(RenderAll(us)) == Ok(EncodedAll(Points(us)))
    ensures !Paired(us) ==> GetString(RenderAll(us)) == Err(InvalidArgument)
  {
    hide *;
    RunNextBounds(v, i);
    RunUnits(v, i);
    us := UnitsOf(v[i..Run(v, i, Text(Start)).quote]);
    UnitsRead(us);
    if Paired(us) {
      UnitsMean(us);
      MeansIs(us);
    } else {
      Rejected(GetString(RenderAll(us)));
    }
  }

  lemma MeansIs(us: seq<Unit>)
    requires AllUnits(us) && MeansPoints(us)
    ensures Scalars(Points(us)) && Legal(RenderAll(us)) && GetString(RenderAll(us)) == Ok(EncodedAll(Points(us)))
  {
  }

  lemma Rejected(r: Result<Bytes>)
    requires FineOrBad(r, false)
    ensures r == Err(InvalidArgument)
  {
  }

  // ---------- the printer ----------

  /** Control characters are written with the digits of their number, in lower case. */
  lemma PrintedDigits(d: nat)
    requires d < 16
    ensures |LOWER| == 16 && Hex(d) == LOWER[d] as int
  {
  }

  /**
    What the printer writes for a byte: a letter escape for those of the table
    but the slash, lower-case digits for the other control characters, and every
    other byte as it is.
   */
  lemma PrintedByte(c: byte)
    ensures forall n :: 0 <= n < 8 && n != 2 && LETTERS[n].1 == c ==> EscapeByte(c) == [92, LETTERS[n].0]
    ensures c < 0x20 && (forall n :: 0 <= n < 8 ==> LETTERS[n].1 != c) ==>
              |LOWER| == 16 && EscapeByte(c) == [92, 117, 48, 48, LOWER[c / 16] as int, LOWER[c % 16] as int]
    ensures c >= 0x20 && c != 0x22 && c != 0x5C ==> EscapeByte(c) == [c]
  {
    if c < 0x20 {
      PrintedDigits(c / 16);
      PrintedDigits(c % 16);
    }
    if HasLetter(c) {
      var n := if c == 0x22 then 0 else if c == 0x5C then 1 else if c == 0x08 then 3 else if c == 0x0C then 4
               else if c == 0x0A then 5 else if c == 0x0D then 6 else 7;
      assert LETTERS[n].1 == c;
    }
  }
}
