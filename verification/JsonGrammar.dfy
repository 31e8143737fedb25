/**
  The texts the parser accepts (sections 2 to 7 of RFC 7159), as a syntax with
  blanks, numbers and strings written out, and the value each text stands for.
 */
module JsonGrammar {
  import opened JsonValue
  import opened Binary
  import opened JsonPointer
  import JsonString
  import opened StringScan
  import opened StringMeaning
  import Utf8
  import opened JsonLexer
  import opened JsonText
  import JsonTextLaw

  // ---------- characters ----------

  const WHITE: string := " \t\n\r"
  const POWERS: string := "eE"
  const DIGITS: string := "0123456789"

  /** Blanks, exponent letters and digits are those of RFC 7159. */
  lemma CharacterTables(c: byte)
    ensures Blank(c) <==> exists n :: 0 <= n < |WHITE| && WHITE[n] as int == c
    ensures IsExponent(c) <==> exists n :: 0 <= n < |POWERS| && POWERS[n] as int == c
    ensures IsDigit(c) <==> exists n :: 0 <= n < |DIGITS| && DIGITS[n] as int == c
  {
    WhiteTable(c);
    DigitTable(c);
    if IsExponent(c) {
      assert POWERS[if c == 101 then 0 else 1] as int == c;
    }
  }

  lemma WhiteTable(c: byte)
    ensures Blank(c) <==> exists n :: 0 <= n < |WHITE| && WHITE[n] as int == c
  {
    if Blank(c) {
      assert WHITE[if c == 0x20 then 0 else if c == 0x09 then 1 else if c == 0x0A then 2 else 3] as int == c;
    }
  }

  lemma DigitTable(c: byte)
    ensures IsDigit(c) <==> exists n :: 0 <= n < |DIGITS| && DIGITS[n] as int == c
  {
    if IsDigit(c) {
      assert DIGITS[c - 48] as int == c;
    }
  }

  // ---------- the syntax ----------

  datatype Power = NoPower | Power(letter: byte, sign: Bytes, digits: Bytes)

  /** An optional minus, a whole number, digits after a point if any, and a power of ten if any. */
  datatype Numeral = Numeral(minus: bool, whole: nat, fraction: Bytes, power: Power)

  datatype Syntax =
    | Word(j: Json)
    | Text(units: seq<Unit>)
    | Num(numeral: Numeral)
    | List(inner: Bytes, items: seq<Item>)
    | Dict(inner: Bytes, members: seq<Member>)

  /** A value with the blanks around it. */
  datatype Item = Item(before: Bytes, syntax: Syntax, after: Bytes)

  /** Blanks, a key, blanks, and after the colon a value with the blanks around it. */
  datatype Member = Member(before: Bytes, key: seq<Unit>, colon: Bytes, item: Item)

  predicate LegalPower(p: Power) {
    p.Power? ==>
      IsExponent(p.letter) && (p.sign == [] || p.sign == [43] || p.sign == [45]) && p.digits != [] && AllDigits(p.digits)
  }

  predicate LegalNumeral(n: Numeral) {
    AllDigits(n.fraction) && LegalPower(n.power)
  }

  predicate LegalText(us: seq<Unit>) {
    AllUnits(us) && Paired(us)
  }

  predicate Legal(s: Syntax) {
    match s
    case Word(j) => j.Null? || j.Bool?
    case Text(us) => LegalText(us)
    case Num(n) => LegalNumeral(n)
    case List(inner, items) => Blanks(inner) && forall k :: 0 <= k < |items| ==> LegalItem(items[k])
    case Dict(inner, members) => Blanks(inner) && forall k :: 0 <= k < |members| ==> LegalMember(members[k])
  }

  predicate LegalItem(x: Item) {
    Blanks(x.before) && Legal(x.syntax) && Blanks(x.after)
  }

  predicate LegalMember(x: Member) {
    Blanks(x.before) && LegalText(x.key) && Blanks(x.colon) && LegalItem(x.item)
  }

  predicate LegalItems(xs: seq<Item>) {
    forall k :: 0 <= k < |xs| ==> LegalItem(xs[k])
  }

  predicate LegalMembers(xs: seq<Member>) {
    forall k :: 0 <= k < |xs| ==> LegalMember(xs[k])
  }

  // ---------- the text ----------

  function PowerText(p: Power): Bytes {
    if p.NoPower? then [] else [p.letter] + (p.sign + p.digits)
  }

  function FractionText(f: Bytes): Bytes {
    if f == [] then [] else [46] + f
  }

  function NumeralText(n: Numeral): Bytes {
    (if n.minus then [45] else []) + (Decimal(n.whole) + (FractionText(n.fraction) + PowerText(n.power)))
  }

  function QuotedText(us: seq<Unit>): Bytes {
    [34] + (RenderAll(us) + [34])
  }

  function WordText(j: Json): Bytes {
    if j == Bool(true) then [116, 114, 117, 101]
    else if j == Bool(false) then [102, 97, 108, 115, 101]
    else [110, 117, 108, 108]
  }

  function Show(s: Syntax): Bytes
    decreases s, 1, 0
  {
    match s
    case Word(j) => WordText(j)
    case Text(us) => QuotedText(us)
    case Num(n) => NumeralText(n)
    case List(inner, items) => [91] + ((if items == [] then inner else ShowItems(items)) + [93])
    case Dict(inner, members) => [123] + ((if members == [] then inner else ShowMembers(members)) + [125])
  }

  function ShowItem(x: Item): Bytes
    decreases x, 1, 0
  {
    x.before + (Show(x.syntax) + x.after)
  }

  function ShowItems(xs: seq<Item>): Bytes
    decreases xs, 0, |xs|
  {
    if xs == [] then [] else ShowItem(xs[0]) + (if |xs| == 1 then [] else [44] + ShowItems(xs[1..]))
  }

  function ShowMember(x: Member): Bytes
    decreases x, 1, 0
  {
    x.before + (QuotedText(x.key) + (x.colon + ([58] + ShowItem(x.item))))
  }

  function ShowMembers(xs: seq<Member>): Bytes
    decreases xs, 0, |xs|
  {
    if xs == [] then [] else ShowMember(xs[0]) + (if |xs| == 1 then [] else [44] + ShowMembers(xs[1..]))
  }

  // ---------- the value ----------

  /** Whole numbers within 64 bits are integers; other numerals are what the conversion to double says. */
  function NumeralValue(n: Numeral, fl: Floats): Json {
    if n.fraction != [] || n.power != NoPower then fl.read(NumeralText(n))
    else if !n.minus && n.whole < 0x1_0000_0000_0000_0000 then Uint(n.whole)
    else if n.minus && n.whole <= 0x8000_0000_0000_0000 then Int(0 - n.whole)
    else fl.read(NumeralText(n))
  }

  lemma PointsScalar(us: seq<Unit>)
    requires LegalText(us)
    ensures AllUnits(us) && Utf8.Scalars(Points(us))
  {
    hide *;
    LegalTextIs(us);
    UnitsMean(us);
    MeansIs(us);
  }

  lemma LegalTextIs(us: seq<Unit>)
    requires LegalText(us)
    ensures AllUnits(us) && Paired(us)
  {
  }

  /** The UTF-8 of the code points. */
  function TextValue(us: seq<Unit>): Bytes
    requires LegalText(us)
  {
    PointsScalar(us);
    Utf8.EncodedAll(Points(us))
  }

  function Meaning(s: Syntax, fl: Floats): Json
    requires Legal(s)
    decreases s, 1, 0
  {
    match s
    case Word(j) => j
    case Text(us) => String(TextValue(us))
    case Num(n) => NumeralValue(n, fl)
    case List(_, items) => Array(Meanings(items, fl))
    case Dict(_, members) => Object(Members(map[], members, fl))
  }

  function ItemMeaning(x: Item, fl: Floats): Json
    requires LegalItem(x)
    decreases x, 1, 0
  {
    Meaning(x.syntax, fl)
  }

  function Meanings(xs: seq<Item>, fl: Floats): seq<Json>
    requires LegalItems(xs)
    decreases xs, 0, |xs|
  {
    if xs == [] then [] else [ItemMeaning(xs[0], fl)] + Meanings(xs[1..], fl)
  }

  function MemberKey(x: Member): Bytes
    requires LegalMember(x)
  {
    TextValue(x.key)
  }

  function MemberMeaning(x: Member, fl: Floats): Json
    requires LegalMember(x)
    decreases x, 1, 0
  {
    ItemMeaning(x.item, fl)
  }

  /** The members, one after the other, are set in `m`. */
  function Members(m: map<Bytes, Json>, xs: seq<Member>, fl: Floats): map<Bytes, Json>
    requires LegalMembers(xs)
    decreases xs, 0, |xs|
  {
    if xs == [] then m else Members(m[MemberKey(xs[0]) := MemberMeaning(xs[0], fl)], xs[1..], fl)
  }

  lemma {:induction false} KeyNotSet(m: map<Bytes, Json>, xs: seq<Member>, fl: Floats, k: Bytes)
    requires LegalMembers(xs) && forall n :: 0 <= n < |xs| ==> MemberKey(xs[n]) != k
    ensures k in Members(m, xs, fl) <==> k in m
    ensures k in m ==> Members(m, xs, fl)[k] == m[k]
    decreases |xs|
  {
    hide MemberKey;
    hide MemberMeaning;
    hide LegalMember;
    if xs != [] {
      KeyNotSet(m[MemberKey(xs[0]) := MemberMeaning(xs[0], fl)], xs[1..], fl, k);
    }
  }

  /** A repeated key keeps its last value. */
  lemma {:induction false} LastMemberWins(m: map<Bytes, Json>, xs: seq<Member>, fl: Floats, i: nat)
    requires LegalMembers(xs) && i < |xs|
    requires forall n :: i < n < |xs| ==> MemberKey(xs[n]) != MemberKey(xs[i])
    ensures MemberKey(xs[i]) in Members(m, xs, fl) && Members(m, xs, fl)[MemberKey(xs[i])] == MemberMeaning(xs[i], fl)
    decreases |xs|
  {
    hide MemberKey;
    hide MemberMeaning;
    hide LegalMember;
    var next := m[MemberKey(xs[0]) := MemberMeaning(xs[0], fl)];
    if i == 0 {
      KeyNotSet(next, xs[1..], fl, MemberKey(xs[0]));
    } else {
      LastMemberWins(next, xs[1..], fl, i - 1);
    }
  }

  // ---------- strings ----------

  /** A quoted text is one token that reads as its code points. */
  lemma TextToken(v: Bytes, i: nat, us: seq<Unit>)
    requires LegalText(us) && HoldsAt(v, i, QuotedText(us))
    ensures i + |QuotedText(us)| <= |v|
    ensures Scan(v, i) == Token(ValueString, i, i + |QuotedText(us)|)
    ensures Fits(v, Scan(v, i)) && GetText(v, Scan(v, i)) == Ok(TextValue(us))
  {
    hide HoldsAt;
    hide Run;
    hide RenderAll;
    hide Points;
    hide NumberToken;
    hide SkipBlanks;
    hide Scan;
    hide JsonString.GetString;
    hide JsonString.Legal;
    hide Utf8.EncodedAll;
    hide Utf8.Scalars;
    hide AllUnits;
    hide Paired;
    var e := RenderAll(us);
    HoldsBounds(v, i, QuotedText(us));
    HoldsConcat(v, i, [34], e + [34]);
    HoldsConcat(v, i + 1, e, [34]);
    HoldsFirst(v, i, [34]);
    HoldsSlice(v, i + 1, e);
    UnitsRun(v, i + 1, us);
    ScanHere(v, i);
    ScanFits(v, i);
    UnitsMean(us);
    MeansIs(us);
  }

  // ---------- numbers ----------

  lemma {:induction false} WholeRun(v: Bytes, i: nat, ds: Bytes, kind: Kind)
    requires HoldsAt(v, i, ds) && AllDigits(ds)
    ensures Number(v, i, Whole, i, kind) == Number(v, i + |ds|, Whole, i + |ds|, kind)
    decreases |ds|
  {
    hide HoldsAt;
    hide IsExponent;
    if ds != [] {
      HoldsTail(v, i, ds);
      HoldsFirst(v, i, ds);
      WholeRun(v, i + 1, ds[1..], kind);
    }
  }

  lemma {:induction false} FractionRun(v: Bytes, i: nat, ds: Bytes)
    requires HoldsAt(v, i, ds) && AllDigits(ds)
    ensures Number(v, i, Fraction, i, ValueFloat) == Number(v, i + |ds|, Fraction, i + |ds|, ValueFloat)
    decreases |ds|
  {
    hide HoldsAt;
    hide IsExponent;
    if ds != [] {
      HoldsTail(v, i, ds);
      HoldsFirst(v, i, ds);
      FractionRun(v, i + 1, ds[1..]);
    }
  }

  lemma {:induction false} PowerRun(v: Bytes, i: nat, ds: Bytes, mark: nat, kind: Kind)
    requires HoldsAt(v, i, ds) && AllDigits(ds) && !IsDigit(Peek(v, i + |ds|))
    ensures Number(v, i, ExponentDigits, mark, kind) == (ValueFloat, i + |ds|)
    decreases |ds|
  {
    hide HoldsAt;
    hide IsExponent;
    if ds != [] {
      HoldsTail(v, i, ds);
      HoldsFirst(v, i, ds);
      PowerRun(v, i + 1, ds[1..], mark, kind);
    }
  }

  /** After the letter of a power: an optional sign and digits. */
  lemma PowerRead(v: Bytes, i: nat, p: Power, mark: nat, kind: Kind)
    requires p.Power? && LegalPower(p) && HoldsAt(v, i, p.sign + p.digits) && Ended(Peek(v, i + |p.sign + p.digits|))
    ensures Number(v, i, Exponent, mark, kind) == (ValueFloat, i + |p.sign + p.digits|)
  {
    hide HoldsAt;
    hide IsExponent;
    HoldsConcat(v, i, p.sign, p.digits);
    var d := i + |p.sign|;
    HoldsTail(v, d, p.digits);
    HoldsFirst(v, d, p.digits);
    PowerRun(v, d + 1, p.digits[1..], mark, kind);
    if p.sign != [] {
      HoldsFirst(v, i, p.sign);
    }
  }

  /** What follows the digits of the whole part, or of the fraction. */
  lemma TailRead(v: Bytes, i: nat, p: Power, kind: Kind, st: NumberState)
    requires LegalPower(p) && HoldsAt(v, i, PowerText(p)) && Ended(Peek(v, i + |PowerText(p)|))
    requires st == Zero || st == Whole || (st == Fraction && kind == ValueFloat)
    ensures Number(v, i, st, i, kind) == if p.NoPower? then (kind, i) else (ValueFloat, i + |PowerText(p)|)
  {
    hide HoldsAt;
    if p.Power? {
      HoldsConcat(v, i, [p.letter], p.sign + p.digits);
      HoldsFirst(v, i, [p.letter]);
      PowerRead(v, i + 1, p, i, kind);
    }
  }

  /** The fraction and the power, after the whole part. */
  lemma RestRead(v: Bytes, i: nat, n: Numeral, kind: Kind, st: NumberState)
    requires LegalNumeral(n) && (st == Zero || st == Whole)
    requires var rest := FractionText(n.fraction) + PowerText(n.power);
             HoldsAt(v, i, rest) && Ended(Peek(v, i + |rest|))
    ensures var rest := FractionText(n.fraction) + PowerText(n.power);
            Number(v, i, st, i, kind) ==
            if n.fraction == [] && n.power == NoPower then (kind, i) else (ValueFloat, i + |rest|)
  {
    hide HoldsAt;
    hide IsExponent;
    hide PowerText;
    var f := n.fraction;
    HoldsConcat(v, i, FractionText(f), PowerText(n.power));
    if f == [] {
      TailRead(v, i, n.power, kind, st);
      PowerNone(n.power);
    } else {
      HoldsConcat(v, i, [46], f);
      HoldsFirst(v, i, [46]);
      HoldsTail(v, i + 1, f);
      HoldsFirst(v, i + 1, f);
      FractionRun(v, i + 2, f[1..]);
      TailRead(v, i + 1 + |f|, n.power, ValueFloat, Fraction);
      PowerNone(n.power);
    }
  }

  lemma PowerNone(p: Power)
    ensures p.NoPower? ==> PowerText(p) == []
  {
  }

  /** A numeral is one token, as far as it reaches, if nothing that continues it follows. */
  lemma NumeralToken(v: Bytes, i: nat, n: Numeral)
    requires LegalNumeral(n) && HoldsAt(v, i, NumeralText(n)) && Ended(Peek(v, i + |NumeralText(n)|))
    ensures i + |NumeralText(n)| <= |v| && (v[i] == 45 || IsDigit(v[i]))
    ensures NumberToken(v, i) == Token(
              if n.fraction != [] || n.power != NoPower then ValueFloat else if n.minus then ValueInteger else ValueUnsigned,
              i, i + |NumeralText(n)|)
  {
    hide HoldsAt;
    hide IsExponent;
    hide Decimal;
    hide Number;
    hide FractionText;
    hide PowerText;
    hide LegalNumeral;
    var sign := if n.minus then [45] else [];
    var ds, rest := Decimal(n.whole), FractionText(n.fraction) + PowerText(n.power);
    HoldsBounds(v, i, NumeralText(n));
    HoldsConcat(v, i, sign, ds + rest);
    var d := i + |sign|;
    HoldsConcat(v, d, ds, rest);
    HoldsTail(v, d, ds);
    HoldsFirst(v, d, ds);
    if n.minus {
      HoldsFirst(v, i, sign);
    }
    var kind := if n.minus then ValueInteger else ValueUnsigned;
    if n.fraction == [] && n.power == NoPower {
      WholeText(n);
    }
    if ds[0] == 48 {
      assert |ds| == 1;
      RestRead(v, d + 1, n, kind, Zero);
    } else {
      WholeRun(v, d + 1, ds[1..], kind);
      RestRead(v, d + |ds|, n, kind, Whole);
    }
  }

  /** The value of a numeral's token is the numeral's value. */
  lemma NumeralRead(v: Bytes, i: nat, n: Numeral, fl: Floats)
    requires LegalNumeral(n) && HoldsAt(v, i, NumeralText(n)) && Ended(Peek(v, i + |NumeralText(n)|))
    ensures var e := i + |NumeralText(n)|;
            && e <= |v| && Scan(v, i).start == i && Scan(v, i).end == e && Fits(v, Scan(v, i))
            && (Scan(v, i).kind == ValueUnsigned || Scan(v, i).kind == ValueInteger || Scan(v, i).kind == ValueFloat)
            && GetNumber(v[i..e], Scan(v, i).kind, fl) == NumeralValue(n, fl)
  {
    hide HoldsAt;
    hide Decimal;
    hide DigitsValue;
    hide FractionText;
    hide PowerText;
    hide NumberToken;
    hide LegalNumeral;
    hide SkipBlanks;
    hide Scan;
    NumeralToken(v, i, n);
    ScanHere(v, i);
    ScanFits(v, i);
    HoldsSlice(v, i, NumeralText(n));
    if n.fraction == [] && n.power == NoPower {
      WholeText(n);
      DecimalValue(n.whole);
    }
  }

  lemma WholeText(n: Numeral)
    requires n.fraction == [] && n.power == NoPower
    ensures FractionText(n.fraction) + PowerText(n.power) == []
    ensures NumeralText(n) == if n.minus then [45] + Decimal(n.whole) else Decimal(n.whole)
    ensures n.minus ==> NumeralText(n)[1..] == Decimal(n.whole)
  {
    hide Decimal;
  }

  // ---------- one step of the parser ----------

  /** The value whose text starts at `i` is `x`, and the next token is the one after `e`. */
  ghost predicate Yields(v: Bytes, i: nat, x: Json, e: nat, fl: Floats) {
    i <= |v| && e <= |v| && Fits(v, Scan(v, i)) && ParseValue(v, Scan(v, i), fl) == Ok((x, Scan(v, e)))
  }

  lemma ElemsLast(v: Bytes, i: nat, q: nat, x: Json, done: seq<Json>, e: nat, fl: Floats)
    requires Yields(v, i, x, q, fl) && e < |v| && Scan(v, q) == Token(EndArray, e, e + 1)
    ensures ParseElems(v, Scan(v, i), done, fl) == Ok((Array(done + [x]), Scan(v, e + 1)))
  {
    hide Scan;
    hide ParseValue;
    hide Fits;
    ScanFits(v, q);
  }

  lemma ElemsMore(v: Bytes, i: nat, q: nat, x: Json, done: seq<Json>, e: nat, fl: Floats)
    requires Yields(v, i, x, q, fl) && e < |v| && Scan(v, q) == Token(ValueSeparator, e, e + 1)
    ensures Fits(v, Scan(v, e + 1))
    ensures ParseElems(v, Scan(v, i), done, fl) == ParseElems(v, Scan(v, e + 1), done + [x], fl)
  {
    hide Scan;
    hide ParseValue;
    hide Fits;
    ScanFits(v, q);
    ScanFits(v, e + 1);
  }

  /** A key at `i`, its colon, and the value from `w` on. */
  ghost predicate KeyYields(v: Bytes, i: nat, key: Bytes, w: nat) {
    i <= |v| && w <= |v| && Fits(v, Scan(v, i)) && KeyAndColon(v, Scan(v, i)) == Ok((key, Scan(v, w)))
  }

  lemma MembersLast(v: Bytes, i: nat, key: Bytes, w: nat, q: nat, x: Json, m: map<Bytes, Json>, e: nat, fl: Floats)
    requires KeyYields(v, i, key, w) && Yields(v, w, x, q, fl) && e < |v| && Scan(v, q) == Token(EndObject, e, e + 1)
    ensures ParseMembers(v, Scan(v, i), m, fl) == Ok((Object(m[key := x]), Scan(v, e + 1)))
  {
    hide Scan;
    hide ParseValue;
    hide KeyAndColon;
    hide Fits;
    ScanFits(v, q);
  }

  lemma MembersMore(v: Bytes, i: nat, key: Bytes, w: nat, q: nat, x: Json, m: map<Bytes, Json>, e: nat, fl: Floats)
    requires KeyYields(v, i, key, w) && Yields(v, w, x, q, fl) && e < |v| && Scan(v, q) == Token(ValueSeparator, e, e + 1)
    ensures Fits(v, Scan(v, e + 1))
    ensures ParseMembers(v, Scan(v, i), m, fl) == ParseMembers(v, Scan(v, e + 1), m[key := x], fl)
  {
    hide Scan;
    hide ParseValue;
    hide KeyAndColon;
    hide Fits;
    ScanFits(v, q);
    ScanFits(v, e + 1);
  }

  lemma KeyStep(v: Bytes, i: nat, key: Bytes, c: nat, w: nat)
    requires i <= |v| && Fits(v, Scan(v, i)) && Scan(v, i).kind == ValueString && GetText(v, Scan(v, i)) == Ok(key)
    requires c < w <= |v| && Scan(v, Scan(v, i).end) == Token(NameSeparator, c, c + 1) && Scan(v, c + 1) == Scan(v, w)
    ensures KeyYields(v, i, key, w)
  {
    hide Scan;
    hide GetText;
    hide JsonString.Legal;
    ScanFits(v, Scan(v, i).end);
  }

  lemma SameYields(v: Bytes, i: nat, p: nat, x: Json, e: nat, fl: Floats)
    requires i <= p && Scan(v, i) == Scan(v, p) && Yields(v, p, x, e, fl)
    ensures Yields(v, i, x, e, fl)
  {
    hide Scan;
    hide ParseValue;
    hide Fits;
  }

  lemma SameKey(v: Bytes, i: nat, p: nat, key: Bytes, w: nat)
    requires i <= p && Scan(v, i) == Scan(v, p) && KeyYields(v, p, key, w)
    ensures KeyYields(v, i, key, w)
  {
    hide Scan;
    hide KeyAndColon;
    hide Fits;
  }

  predicate Mark(c: byte, kind: Kind) {
    || (c == 91 && kind == BeginArray) || (c == 93 && kind == EndArray) || (c == 123 && kind == BeginObject)
    || (c == 125 && kind == EndObject) || (c == 44 && kind == ValueSeparator) || (c == 58 && kind == NameSeparator)
  }

  /** Blanks and then a punctuation byte. */
  lemma MarkAfter(v: Bytes, q: nat, blanks: Bytes, c: byte, kind: Kind, rest: Bytes)
    requires HoldsAt(v, q, blanks + ([c] + rest)) && Blanks(blanks) && Mark(c, kind)
    ensures var e := q + |blanks|;
            && e < |v| && Scan(v, q) == Token(kind, e, e + 1) && Ended(Peek(v, q)) && HoldsAt(v, e + 1, rest)
  {
    hide Scan;
    hide HoldsAt;
    hide Ended;
    hide Blank;
    HoldsConcat(v, q, blanks, [c] + rest);
    var e := q + |blanks|;
    HoldsConcat(v, e, [c], rest);
    HoldsFirst(v, e, [c]);
    ScanBlanks(v, q, blanks);
    JsonTextLaw.ScanByte(v, e, c, kind);
    if blanks != [] {
      HoldsFirst(v, q, blanks);
      assert Blank(blanks[0]);
      JsonTextLaw.BlankEnds(blanks[0]);
    }
  }

  // ---------- every text of the syntax is accepted ----------

  lemma WordYields(v: Bytes, i: nat, s: Syntax, fl: Floats)
    requires Legal(s) && s.Word? && HoldsAt(v, i, Show(s))
    ensures Yields(v, i, Meaning(s, fl), i + |Show(s)|, fl)
  {
    hide Scan;
    hide StringToken;
    hide NumberToken;
    HoldsFirst(v, i, Show(s));
    ScanHere(v, i);
    ScanFits(v, i);
  }

  lemma TextYields(v: Bytes, i: nat, us: seq<Unit>, fl: Floats)
    requires LegalText(us) && HoldsAt(v, i, QuotedText(us))
    ensures Yields(v, i, String(TextValue(us)), i + |QuotedText(us)|, fl)
  {
    hide Scan;
    hide TextValue;
    hide QuotedText;
    hide GetText;
    hide JsonString.Legal;
    TextToken(v, i, us);
  }

  lemma NumYields(v: Bytes, i: nat, n: Numeral, fl: Floats)
    requires LegalNumeral(n) && HoldsAt(v, i, NumeralText(n)) && Ended(Peek(v, i + |NumeralText(n)|))
    ensures Yields(v, i, NumeralValue(n, fl), i + |NumeralText(n)|, fl)
  {
    hide Scan;
    hide NumeralText;
    hide NumeralValue;
    hide GetNumber;
    hide JsonString.Legal;
    NumeralRead(v, i, n, fl);
  }

  lemma ShowOpens(s: Syntax)
    requires Legal(s)
    ensures Show(s) != [] && JsonTextLaw.Opens(Show(s)[0])
  {
    hide ShowItems;
    hide ShowMembers;
    hide RenderAll;
    hide Decimal;
    hide FractionText;
    hide PowerText;
  }

  /** Wherever a text of the syntax stands, the parser reads its value. */
  lemma {:induction false} SyntaxYields(v: Bytes, i: nat, s: Syntax, fl: Floats)
    requires Legal(s) && HoldsAt(v, i, Show(s)) && Ended(Peek(v, i + |Show(s)|))
    ensures Yields(v, i, Meaning(s, fl), i + |Show(s)|, fl)
    decreases s, 2, 0
  {
    hide *;
    match s
    case Word(_) => WordYields(v, i, s, fl);
    case Text(us) => LeafForms(s, fl); TextYields(v, i, us, fl);
    case Num(n) => LeafForms(s, fl); NumYields(v, i, n, fl);
    case List(_, _) => ListYields(v, i, s, fl);
    case Dict(_, _) => DictYields(v, i, s, fl);
  }

  lemma LeafForms(s: Syntax, fl: Floats)
    requires Legal(s)
    ensures s.Text? ==> LegalText(s.units) && Show(s) == QuotedText(s.units) && Meaning(s, fl) == String(TextValue(s.units))
    ensures s.Num? ==> LegalNumeral(s.numeral) && Show(s) == NumeralText(s.numeral)
                       && Meaning(s, fl) == NumeralValue(s.numeral, fl)
  {
    hide LegalText;
    hide LegalNumeral;
    hide QuotedText;
    hide NumeralText;
    hide TextValue;
    hide NumeralValue;
  }

  lemma ItemParts(x: Item, fl: Floats)
    requires LegalItem(x)
    ensures Blanks(x.before) && Legal(x.syntax) && Blanks(x.after)
    ensures ShowItem(x) == x.before + (Show(x.syntax) + x.after) && ItemMeaning(x, fl) == Meaning(x.syntax, fl)
  {
    hide Blanks;
    hide Legal;
    hide Show;
    hide Meaning;
  }

  /** A value between blanks, up to a punctuation byte. */
  lemma {:induction false} ItemYields(v: Bytes, i: nat, x: Item, c: byte, kind: Kind, rest: Bytes, fl: Floats) returns (q: nat)
    requires LegalItem(x) && Mark(c, kind) && HoldsAt(v, i, ShowItem(x) + ([c] + rest))
    ensures Yields(v, i, ItemMeaning(x, fl), q, fl)
    ensures var e := i + |ShowItem(x)|; e < |v| && Scan(v, q) == Token(kind, e, e + 1) && HoldsAt(v, e + 1, rest)
    ensures var k := Scan(v, i).kind; k != EndArray && k != EndObject && k != ValueSeparator
    decreases x, 2, 0
  {
    hide *;
    ItemParts(x, fl);
    var t := Show(x.syntax);
    Regroup(x.before, t, x.after, [c] + rest);
    HoldsConcat(v, i, x.before, t + (x.after + ([c] + rest)));
    var p := i + |x.before|;
    HoldsConcat(v, p, t, x.after + ([c] + rest));
    q := p + |t|;
    MarkAfter(v, q, x.after, c, kind, rest);
    SyntaxYields(v, p, x.syntax, fl);
    ScanBlanks(v, i, x.before);
    SameYields(v, i, p, ItemMeaning(x, fl), q, fl);
    ShowOpens(x.syntax);
    HoldsFirst(v, p, t);
    JsonTextLaw.OpensToken(v, p);
  }

  lemma Regroup(a: Bytes, b: Bytes, c: Bytes, d: Bytes)
    ensures (a + (b + c)) + d == a + (b + (c + d))
  {
  }

  lemma ItemsStep(xs: seq<Item>, fl: Floats)
    requires LegalItems(xs) && xs != []
    ensures LegalItem(xs[0]) && LegalItems(xs[1..])
    ensures ShowItems(xs) == ShowItem(xs[0]) + (if |xs| == 1 then [] else [44] + ShowItems(xs[1..]))
    ensures Meanings(xs, fl) == [ItemMeaning(xs[0], fl)] + Meanings(xs[1..], fl)
    ensures |xs| == 1 ==> Meanings(xs, fl) == [ItemMeaning(xs[0], fl)]
  {
    hide LegalItem;
    hide ShowItem;
    hide ItemMeaning;
  }

  lemma {:induction false} ItemsYield(v: Bytes, i: nat, xs: seq<Item>, done: seq<Json>, fl: Floats)
    requires LegalItems(xs) && xs != [] && HoldsAt(v, i, ShowItems(xs) + [93])
    ensures i <= |v| && Fits(v, Scan(v, i)) && Scan(v, i).kind != EndArray && Scan(v, i).kind != ValueSeparator
    ensures var e := i + |ShowItems(xs)|;
            e < |v| && ParseElems(v, Scan(v, i), done, fl) == Ok((Array(done + Meanings(xs, fl)), Scan(v, e + 1)))
    decreases xs, 1, |xs|
  {
    hide *;
    ItemsStep(xs, fl);
    HoldsBounds(v, i, ShowItems(xs) + [93]);
    ScanFits(v, i);
    var x := ItemMeaning(xs[0], fl);
    var e := i + |ShowItem(xs[0])|;
    if |xs| == 1 {
      assert ShowItems(xs) + [93] == ShowItem(xs[0]) + ([93] + []);
      AreMarks();
      var q := ItemYields(v, i, xs[0], 93, EndArray, [], fl);
      ElemsLast(v, i, q, x, done, e, fl);
    } else {
      var more := ShowItems(xs[1..]) + [93];
      assert ShowItems(xs) + [93] == ShowItem(xs[0]) + ([44] + more);
      AreMarks();
      var q := ItemYields(v, i, xs[0], 44, ValueSeparator, more, fl);
      ElemsMore(v, i, q, x, done, e, fl);
      ItemsYield(v, e + 1, xs[1..], done + [x], fl);
      assert done + [x] + Meanings(xs[1..], fl) == done + Meanings(xs, fl);
    }
  }

  lemma AreMarks()
    ensures Mark(91, BeginArray) && Mark(93, EndArray) && Mark(123, BeginObject) && Mark(125, EndObject)
    ensures Mark(44, ValueSeparator) && Mark(58, NameSeparator)
  {
  }

  lemma ListParts(s: Syntax, fl: Floats)
    requires Legal(s) && s.List?
    ensures Blanks(s.inner) && LegalItems(s.items) && Meaning(s, fl) == Array(Meanings(s.items, fl))
    ensures Show(s) == [] + ([91] + (if s.items == [] then s.inner + ([93] + []) else ShowItems(s.items) + [93]))
    ensures s.items == [] ==> Meanings(s.items, fl) == []
  {
    hide ShowItems;
    hide LegalItem;
    hide Blanks;
  }

  lemma {:induction false} ListYields(v: Bytes, i: nat, s: Syntax, fl: Floats)
    requires Legal(s) && s.List? && HoldsAt(v, i, Show(s))
    ensures Yields(v, i, Meaning(s, fl), i + |Show(s)|, fl)
    decreases s, 1, 0
  {
    hide *;
    ListParts(s, fl);
    AreMarks();
    NoBlanks();
    if s.items == [] {
      MarkAfter(v, i, [], 91, BeginArray, s.inner + ([93] + []));
      MarkAfter(v, i + 1, s.inner, 93, EndArray, []);
      EmptyList(v, i, i + 1 + |s.inner|, fl);
    } else {
      MarkAfter(v, i, [], 91, BeginArray, ShowItems(s.items) + [93]);
      ItemsYield(v, i + 1, s.items, [], fl);
      OpenList(v, i, fl);
      var e := i + 1 + |ShowItems(s.items)|;
      assert [] + Meanings(s.items, fl) == Meanings(s.items, fl);
      YieldsFrom(v, i, Meaning(s, fl), e + 1, fl);
    }
  }

  lemma NoBlanks()
    ensures Blanks([])
  {
  }

  lemma EmptyList(v: Bytes, i: nat, e: nat, fl: Floats)
    requires i < |v| && e < |v| && Scan(v, i) == Token(BeginArray, i, i + 1) && Scan(v, i + 1) == Token(EndArray, e, e + 1)
    ensures Yields(v, i, Array([]), e + 1, fl)
  {
    hide Scan;
    hide ParseElems;
    hide JsonString.Legal;
    ScanFits(v, i);
  }

  lemma OpenList(v: Bytes, i: nat, fl: Floats)
    requires i < |v| && Scan(v, i) == Token(BeginArray, i, i + 1)
    requires Scan(v, i + 1).kind != EndArray && Scan(v, i + 1).kind != ValueSeparator
    ensures Fits(v, Scan(v, i)) && Fits(v, Scan(v, i + 1))
    ensures ParseValue(v, Scan(v, i), fl) == ParseElems(v, Scan(v, i + 1), [], fl)
  {
    hide Scan;
    hide ParseElems;
    hide JsonString.Legal;
    ScanFits(v, i);
    ScanFits(v, i + 1);
  }

  lemma YieldsFrom(v: Bytes, i: nat, x: Json, e: nat, fl: Floats)
    requires i <= |v| && e <= |v| && Fits(v, Scan(v, i)) && ParseValue(v, Scan(v, i), fl) == Ok((x, Scan(v, e)))
    ensures Yields(v, i, x, e, fl)
  {
  }

  lemma MemberParts(x: Member, fl: Floats)
    requires LegalMember(x)
    ensures Blanks(x.before) && LegalText(x.key) && Blanks(x.colon) && LegalItem(x.item)
    ensures ShowMember(x) == x.before + (QuotedText(x.key) + (x.colon + ([58] + ShowItem(x.item))))
    ensures MemberKey(x) == TextValue(x.key) && MemberMeaning(x, fl) == ItemMeaning(x.item, fl)
  {
    hide Blanks;
    hide LegalText;
    hide LegalItem;
    hide ShowItem;
    hide QuotedText;
    hide TextValue;
    hide ItemMeaning;
  }

  lemma RegroupMember(a: Bytes, b: Bytes, c: Bytes, d: Bytes, rest: Bytes)
    ensures (a + (b + (c + ([58] + d)))) + rest == a + (b + (c + ([58] + (d + rest))))
  {
  }

  /** A member, up to a punctuation byte. */
  lemma {:induction false} MemberYields(v: Bytes, i: nat, x: Member, c: byte, kind: Kind, rest: Bytes, fl: Floats)
    returns (w: nat, q: nat)
    requires LegalMember(x) && Mark(c, kind) && HoldsAt(v, i, ShowMember(x) + ([c] + rest))
    ensures KeyYields(v, i, MemberKey(x), w) && Yields(v, w, MemberMeaning(x, fl), q, fl)
    ensures var e := i + |ShowMember(x)|; e < |v| && Scan(v, q) == Token(kind, e, e + 1) && HoldsAt(v, e + 1, rest)
    ensures Scan(v, i).kind == ValueString
    decreases x, 2, 0
  {
    hide *;
    MemberParts(x, fl);
    var t := QuotedText(x.key);
    var value := ShowItem(x.item) + ([c] + rest);
    RegroupMember(x.before, t, x.colon, ShowItem(x.item), [c] + rest);
    HoldsConcat(v, i, x.before, t + (x.colon + ([58] + value)));
    var p := i + |x.before|;
    HoldsConcat(v, p, t, x.colon + ([58] + value));
    AreMarks();
    MarkAfter(v, p + |t|, x.colon, 58, NameSeparator, value);
    w := p + |t| + |x.colon| + 1;
    q := ItemYields(v, w, x.item, c, kind, rest, fl);
    TextToken(v, p, x.key);
    ScanBlanks(v, i, x.before);
    YieldsBounds(v, w, ItemMeaning(x.item, fl), q, fl);
    KeyStep(v, p, MemberKey(x), p + |t| + |x.colon|, w);
    SameKey(v, i, p, MemberKey(x), w);
  }

  lemma YieldsBounds(v: Bytes, i: nat, x: Json, e: nat, fl: Floats)
    requires Yields(v, i, x, e, fl)
    ensures i <= |v| && e <= |v|
  {
    hide Scan;
    hide ParseValue;
    hide Fits;
  }

  lemma MembersStep(xs: seq<Member>, m: map<Bytes, Json>, fl: Floats)
    requires LegalMembers(xs) && xs != []
    ensures LegalMember(xs[0]) && LegalMembers(xs[1..])
    ensures ShowMembers(xs) == ShowMember(xs[0]) + (if |xs| == 1 then [] else [44] + ShowMembers(xs[1..]))
    ensures Members(m, xs, fl) == Members(m[MemberKey(xs[0]) := MemberMeaning(xs[0], fl)], xs[1..], fl)
    ensures |xs| == 1 ==> Members(m, xs, fl) == m[MemberKey(xs[0]) := MemberMeaning(xs[0], fl)]
  {
    hide LegalMember;
    hide ShowMember;
    hide MemberKey;
    hide MemberMeaning;
  }

  lemma {:induction false} MembersYield(v: Bytes, i: nat, xs: seq<Member>, m: map<Bytes, Json>, fl: Floats)
    requires LegalMembers(xs) && xs != [] && HoldsAt(v, i, ShowMembers(xs) + [125])
    ensures i <= |v| && Fits(v, Scan(v, i)) && Scan(v, i).kind == ValueString
    ensures var e := i + |ShowMembers(xs)|;
            e < |v| && ParseMembers(v, Scan(v, i), m, fl) == Ok((Object(Members(m, xs, fl)), Scan(v, e + 1)))
    decreases xs, 1, |xs|
  {
    hide *;
    MembersStep(xs, m, fl);
    HoldsBounds(v, i, ShowMembers(xs) + [125]);
    ScanFits(v, i);
    AreMarks();
    var key, x := MemberKey(xs[0]), MemberMeaning(xs[0], fl);
    var e := i + |ShowMember(xs[0])|;
    if |xs| == 1 {
      assert ShowMembers(xs) + [125] == ShowMember(xs[0]) + ([125] + []);
      var w, q := MemberYields(v, i, xs[0], 125, EndObject, [], fl);
      MembersLast(v, i, key, w, q, x, m, e, fl);
    } else {
      var more := ShowMembers(xs[1..]) + [125];
      assert ShowMembers(xs) + [125] == ShowMember(xs[0]) + ([44] + more);
      var w, q := MemberYields(v, i, xs[0], 44, ValueSeparator, more, fl);
      MembersMore(v, i, key, w, q, x, m, e, fl);
      MembersYield(v, e + 1, xs[1..], m[key := x], fl);
    }
  }

  lemma DictParts(s: Syntax, fl: Floats)
    requires Legal(s) && s.Dict?
    ensures Blanks(s.inner) && LegalMembers(s.members) && Meaning(s, fl) == Object(Members(map[], s.members, fl))
    ensures Show(s) == [] + ([123] + (if s.members == [] then s.inner + ([125] + []) else ShowMembers(s.members) + [125]))
    ensures s.members == [] ==> Members(map[], s.members, fl) == map[]
  {
    hide ShowMembers;
    hide LegalMember;
    hide Blanks;
  }

  lemma {:induction false} DictYields(v: Bytes, i: nat, s: Syntax, fl: Floats)
    requires Legal(s) && s.Dict? && HoldsAt(v, i, Show(s))
    ensures Yields(v, i, Meaning(s, fl), i + |Show(s)|, fl)
    decreases s, 1, 0
  {
    hide *;
    DictParts(s, fl);
    AreMarks();
    NoBlanks();
    if s.members == [] {
      MarkAfter(v, i, [], 123, BeginObject, s.inner + ([125] + []));
      MarkAfter(v, i + 1, s.inner, 125, EndObject, []);
      EmptyDict(v, i, i + 1 + |s.inner|, fl);
    } else {
      MarkAfter(v, i, [], 123, BeginObject, ShowMembers(s.members) + [125]);
      MembersYield(v, i + 1, s.members, map[], fl);
      OpenDict(v, i, fl);
      YieldsFrom(v, i, Meaning(s, fl), i + 1 + |ShowMembers(s.members)| + 1, fl);
    }
  }

  lemma EmptyDict(v: Bytes, i: nat, e: nat, fl: Floats)
    requires i < |v| && e < |v| && Scan(v, i) == Token(BeginObject, i, i + 1) && Scan(v, i + 1) == Token(EndObject, e, e + 1)
    ensures Yields(v, i, Object(map[]), e + 1, fl)
  {
    hide Scan;
    hide ParseMembers;
    hide JsonString.Legal;
    ScanFits(v, i);
  }

  lemma OpenDict(v: Bytes, i: nat, fl: Floats)
    requires i < |v| && Scan(v, i) == Token(BeginObject, i, i + 1)
    requires Scan(v, i + 1).kind != EndObject && Scan(v, i + 1).kind != ValueSeparator
    ensures Fits(v, Scan(v, i)) && Fits(v, Scan(v, i + 1))
    ensures ParseValue(v, Scan(v, i), fl) == ParseMembers(v, Scan(v, i + 1), map[], fl)
  {
    hide Scan;
    hide ParseMembers;
    hide JsonString.Legal;
    ScanFits(v, i);
    ScanFits(v, i + 1);
  }

  // ---------- every accepted text is in the syntax: tokens ----------

  lemma {:induction false} BlankRun(v: Bytes, i: nat)
    requires i <= |v|
    ensures i <= SkipBlanks(v, i) <= |v| && Blanks(v[i..SkipBlanks(v, i)])
    decreases |v| - i
  {
    if i < |v| && Blank(v[i]) {
      BlankRun(v, i + 1);
      var k := SkipBlanks(v, i);
      assert v[i..k] == [v[i]] + v[i + 1..k];
    }
  }

  lemma TokenStart(v: Bytes, p: nat)
    ensures TokenAt(v, p).start == p
  {
    hide Number;
    hide Run;
  }

  /** The blanks before the next token, and the token after them. */
  lemma Before(v: Bytes, i: nat) returns (b: Bytes)
    requires i <= |v|
    ensures Blanks(b) && HoldsAt(v, i, b) && i + |b| <= |v|
    ensures Scan(v, i) == TokenAt(v, i + |b|) && Scan(v, i).start == i + |b|
  {
    hide TokenAt;
    hide Blanks;
    BlankRun(v, i);
    b := v[i..SkipBlanks(v, i)];
    TokenStart(v, i + |b|);
  }

  lemma KindByte(v: Bytes, p: nat)
    requires p <= |v|
    ensures var t := TokenAt(v, p);
            && (t.kind == EndOfInput ==> p == |v| || v[p] == 0)
            && (forall c :: Mark(c, t.kind) ==> p < |v| && v[p] == c && t.end == p + 1)
  {
    hide Number;
    hide Run;
    if p < |v| && (v[p] == 45 || IsDigit(v[p])) {
      JsonTextLaw.NumberKinds(v, p);
    }
  }

  lemma MarkRead(v: Bytes, i: nat, c: byte) returns (b: Bytes)
    requires i <= |v| && Mark(c, Scan(v, i).kind)
    ensures Blanks(b) && HoldsAt(v, i, b + [c])
    ensures var e := i + |b|; e < |v| && Scan(v, i) == Token(Scan(v, i).kind, e, e + 1)
  {
    hide Scan;
    hide TokenAt;
    hide HoldsAt;
    hide Blanks;
    b := Before(v, i);
    KindByte(v, i + |b|);
    OneByte(v, i + |b|);
    HoldsConcat(v, i, b, [c]);
  }

  lemma WordRead(v: Bytes, p: nat)
    requires p <= |v|
    ensures var t := TokenAt(v, p);
            && (t.kind == LiteralTrue ==> HoldsAt(v, p, WordText(Bool(true))) && t.end == p + 4)
            && (t.kind == LiteralFalse ==> HoldsAt(v, p, WordText(Bool(false))) && t.end == p + 5)
            && (t.kind == LiteralNull ==> HoldsAt(v, p, WordText(Null)) && t.end == p + 4)
  {
    hide Number;
    hide Run;
    hide HoldsAt;
    if p < |v| && (v[p] == 45 || IsDigit(v[p])) {
      JsonTextLaw.NumberKinds(v, p);
    }
  }

  /** The units of a string token that is read without error. */
  lemma UnitsRead(v: Bytes, i: nat) returns (b: Bytes, us: seq<Unit>)
    requires i <= |v| && Fits(v, Scan(v, i)) && Scan(v, i).kind == ValueString && GetText(v, Scan(v, i)).Ok?
    ensures Blanks(b) && LegalText(us) && HoldsAt(v, i, b + QuotedText(us))
    ensures GetText(v, Scan(v, i)) == Ok(TextValue(us)) && Scan(v, i).end == i + |b| + |QuotedText(us)|
  {
    hide Scan;
    hide TokenAt;
    hide HoldsAt;
    hide Blanks;
    hide Run;
    hide RenderAll;
    hide Points;
    hide AllUnits;
    hide Paired;
    hide JsonString.GetString;
    hide JsonString.Legal;
    hide Utf8.EncodedAll;
    hide Utf8.Scalars;
    b := Before(v, i);
    var p := i + |b|;
    JsonTextLaw.StringTokenAt(v, p);
    us := TokenMeans(v, p + 1);
    var q := Run(v, p + 1, ScanState.Text(Utf8.Start)).quote;
    RunNextBounds(v, p + 1);
    QuotedHeld(v, p, q, RenderAll(us));
    HoldsConcat(v, i, b, QuotedText(us));
  }

  lemma QuotedHeld(v: Bytes, p: nat, q: nat, body: Bytes)
    requires p < q < |v| && v[q] == 34 && v[p + 1..q] == body && TokenAt(v, p).kind == ValueString
    ensures HoldsAt(v, p, [34] + (body + [34])) && |[34] + (body + [34])| == q + 1 - p
  {
    StringByte(v, p);
    assert v[p..q + 1] == [v[p]] + (v[p + 1..q] + [v[q]]);
  }

  lemma StringByte(v: Bytes, p: nat)
    requires p <= |v| && TokenAt(v, p).kind == ValueString
    ensures p < |v| && v[p] == 34
  {
    hide Number;
    hide Run;
    if p < |v| && (v[p] == 45 || IsDigit(v[p])) {
      JsonTextLaw.NumberKinds(v, p);
    }
  }

  // ---------- every accepted text is in the syntax: numerals ----------

  lemma {:induction false} TakeDigits(v: Bytes, i: nat) returns (ds: Bytes)
    requires i <= |v|
    ensures HoldsAt(v, i, ds) && AllDigits(ds) && !IsDigit(Peek(v, i + |ds|))
    ensures i < |v| && IsDigit(v[i]) ==> ds != []
    decreases |v| - i
  {
    hide HoldsAt;
    if i < |v| && IsDigit(v[i]) {
      var rest := TakeDigits(v, i + 1);
      ds := [v[i]] + rest;
      OneByte(v, i);
      HoldsConcat(v, i, [v[i]], rest);
    } else {
      ds := [];
      NothingHeld(v, i);
    }
  }

  lemma PowerHeld(v: Bytes, i: nat, sign: Bytes, ds: Bytes)
    requires 0 < i <= |v| && HoldsAt(v, i, sign) && HoldsAt(v, i + |sign|, ds)
    ensures HoldsAt(v, i - 1, [v[i - 1]] + (sign + ds))
  {
    hide HoldsAt;
    HoldsConcat(v, i, sign, ds);
    OneByte(v, i - 1);
    HoldsConcat(v, i - 1, [v[i - 1]], sign + ds);
  }

  /** The digits of a power, after its sign if any. */
  lemma PowerDigits(v: Bytes, i: nat, mark: nat, kind: Kind, signed: bool) returns (ds: Bytes)
    requires i <= |v| && signed == (Peek(v, i) == 43 || Peek(v, i) == 45)
    requires IsDigit(Peek(v, if signed then i + 1 else i))
    ensures var d := if signed then i + 1 else i;
            && ds != [] && AllDigits(ds) && HoldsAt(v, d, ds)
            && Number(v, i, Exponent, mark, kind) == (ValueFloat, d + |ds|)
  {
    hide HoldsAt;
    hide IsExponent;
    hide AllDigits;
    var d := if signed then i + 1 else i;
    ds := TakeDigits(v, d);
    DigitsTail(ds);
    HoldsTail(v, d, ds);
    PowerRun(v, d + 1, ds[1..], mark, kind);
  }

  /** What an exponent letter is followed by, if the token does not stop before it. */
  lemma PowerTaken(v: Bytes, i: nat, mark: nat, kind: Kind) returns (p: Power)
    requires 0 < i <= |v| && IsExponent(v[i - 1]) && kind != ParseError
    ensures LegalPower(p)
    ensures p.NoPower? ==> Number(v, i, Exponent, mark, kind) == (kind, mark)
    ensures p.Power? ==>
              && Number(v, i, Exponent, mark, kind) == (ValueFloat, i - 1 + |PowerText(p)|)
              && HoldsAt(v, i - 1, PowerText(p))
  {
    hide HoldsAt;
    hide IsExponent;
    hide AllDigits;
    var c := Peek(v, i);
    var signed := c == 43 || c == 45;
    if IsDigit(Peek(v, if signed then i + 1 else i)) {
      var ds := PowerDigits(v, i, mark, kind, signed);
      var sign := if signed then [c] else [];
      p := Power(v[i - 1], sign, ds);
      if signed {
        OneByte(v, i);
      } else {
        NothingHeld(v, i);
      }
      PowerHeld(v, i, sign, ds);
    } else {
      p := NoPower;
    }
  }

  lemma DigitsTail(ds: Bytes)
    requires ds != [] && AllDigits(ds)
    ensures AllDigits(ds[1..])
  {
  }

  /** The power, if any, after the last digit of the whole part or of the fraction. */
  lemma TailTaken(v: Bytes, i: nat, kind: Kind, st: NumberState) returns (p: Power)
    requires i <= |v| && (st == Zero || st == Whole || (st == Fraction && kind == ValueFloat)) && kind != ParseError
    requires !IsDigit(Peek(v, i)) && (Peek(v, i) != 46 || st == Fraction)
    ensures LegalPower(p) && HoldsAt(v, i, PowerText(p))
    ensures Number(v, i, st, i, kind) == if p.NoPower? then (kind, i) else (ValueFloat, i + |PowerText(p)|)
  {
    hide HoldsAt;
    hide IsExponent;
    hide LegalPower;
    NothingHeld(v, i);
    if IsExponent(Peek(v, i)) && i < |v| {
      p := PowerTaken(v, i + 1, i, kind);
    } else {
      p := NoPower;
      NoPowerLegal();
      NoExponentZero();
    }
    PowerNone(p);
  }

  lemma NoPowerLegal()
    ensures LegalPower(NoPower)
  {
  }

  lemma NoExponentZero()
    ensures !IsExponent(0)
  {
  }

  /** The fraction after a point, and the power after it. */
  lemma FractionTaken(v: Bytes, i: nat, kind: Kind, st: NumberState) returns (f: Bytes, p: Power)
    requires i < |v| && v[i] == 46 && IsDigit(Peek(v, i + 1)) && (st == Zero || st == Whole)
    ensures f != [] && AllDigits(f) && LegalPower(p) && HoldsAt(v, i, FractionText(f) + PowerText(p))
    ensures Number(v, i, st, i, kind) == (ValueFloat, i + |FractionText(f) + PowerText(p)|)
  {
    hide HoldsAt;
    hide IsExponent;
    hide LegalPower;
    hide PowerText;
    hide AllDigits;
    f := TakeDigits(v, i + 1);
    DigitsTail(f);
    HoldsTail(v, i + 1, f);
    FractionRun(v, i + 2, f[1..]);
    HoldsBounds(v, i + 1, f);
    var k := i + 1 + |f|;
    p := TailTaken(v, k, ValueFloat, Fraction);
    OneByte(v, i);
    HoldsConcat(v, i, [46], f);
    HoldsConcat(v, i, FractionText(f), PowerText(p));
    PowerNone(p);
  }

  /** The fraction and the power after the whole part. */
  lemma RestTaken(v: Bytes, i: nat, kind: Kind, st: NumberState) returns (f: Bytes, p: Power)
    requires i <= |v| && (st == Zero || st == Whole) && (kind == ValueUnsigned || kind == ValueInteger) && !IsDigit(Peek(v, i))
    ensures AllDigits(f) && LegalPower(p) && HoldsAt(v, i, FractionText(f) + PowerText(p))
    ensures Number(v, i, st, i, kind) ==
            if f == [] && p == NoPower then (kind, i) else (ValueFloat, i + |FractionText(f) + PowerText(p)|)
  {
    hide HoldsAt;
    hide IsExponent;
    hide LegalPower;
    hide PowerText;
    NothingHeld(v, i);
    NoPowerLegal();
    PowerNone(NoPower);
    f, p := [], NoPower;
    assert FractionText([]) + PowerText(NoPower) == [];
    if Peek(v, i) == 46 {
      NotExponentDot();
      if IsDigit(Peek(v, i + 1)) {
        f, p := FractionTaken(v, i, kind, st);
      }
    } else {
      p := TailTaken(v, i, kind, st);
      assert FractionText([]) + PowerText(p) == PowerText(p);
    }
  }

  lemma NotExponentDot()
    ensures !IsExponent(46)
  {
  }

  /** A number token, said through the state after its first digit. */
  lemma TokenFrom(v: Bytes, i: nat)
    requires i < |v| && (v[i] == 45 || IsDigit(v[i]))
    ensures var d := if v[i] == 45 then i + 1 else i;
            var kind := if v[i] == 45 then ValueInteger else ValueUnsigned;
            if !IsDigit(Peek(v, d)) then NumberToken(v, i).kind == ParseError
            else
              && d < |v|
              && var r := Number(v, d + 1, if v[d] == 48 then Zero else Whole, d + 1, kind);
                 NumberToken(v, i) == Token(r.0, i, r.1)
  {
    hide Number;
  }

  lemma NumeralHeld(v: Bytes, i: nat, minus: bool, ds: Bytes, rest: Bytes)
    requires i < |v| && minus == (v[i] == 45)
    requires var d := if minus then i + 1 else i; HoldsAt(v, d, ds) && HoldsAt(v, d + |ds|, rest)
    ensures HoldsAt(v, i, (if minus then [45] else []) + (ds + rest))
  {
    hide HoldsAt;
    var d := if minus then i + 1 else i;
    HoldsConcat(v, d, ds, rest);
    if minus {
      OneByte(v, i);
      HoldsConcat(v, i, [45], ds + rest);
    } else {
      assert [] + (ds + rest) == ds + rest;
    }
  }

  /** The numeral of a number token. */
  lemma NumeralTaken(v: Bytes, i: nat) returns (n: Numeral)
    requires i < |v| && (v[i] == 45 || IsDigit(v[i])) && NumberToken(v, i).kind != ParseError
    ensures LegalNumeral(n) && HoldsAt(v, i, NumeralText(n))
    ensures NumberToken(v, i) == Token(
              if n.fraction != [] || n.power != NoPower then ValueFloat else if n.minus then ValueInteger else ValueUnsigned,
              i, i + |NumeralText(n)|)
  {
    hide HoldsAt;
    hide IsExponent;
    hide Number;
    hide NumberToken;
    hide FractionText;
    hide PowerText;
    hide LegalPower;
    hide Decimal;
    hide DigitsValue;
    hide AllDigits;
    TokenFrom(v, i);
    var minus := v[i] == 45;
    var kind := if minus then ValueInteger else ValueUnsigned;
    var d := if minus then i + 1 else i;
    var ds := WholeTaken(v, d, kind);
    DecimalOfDigits(ds);
    var k := d + |ds|;
    HoldsBounds(v, d, ds);
    var f, p := RestTaken(v, k, kind, if v[d] == 48 then Zero else Whole);
    n := Numeral(minus, DigitsValue(ds), f, p);
    var rest := FractionText(f) + PowerText(p);
    NumeralHeld(v, i, minus, ds, rest);
    assert |NumeralText(n)| == (if minus then 1 else 0) + |ds| + |rest|;
    if f == [] && p == NoPower {
      WholeText(n);
    }
  }

  /** The digits of the whole part: a zero alone, or digits that start with another digit. */
  lemma WholeTaken(v: Bytes, d: nat, kind: Kind) returns (ds: Bytes)
    requires d < |v| && IsDigit(v[d]) && (kind == ValueUnsigned || kind == ValueInteger)
    requires Number(v, d + 1, if v[d] == 48 then Zero else Whole, d + 1, kind).0 != ParseError
    ensures ds != [] && AllDigits(ds) && (|ds| > 1 ==> ds[0] != 48) && HoldsAt(v, d, ds) && !IsDigit(Peek(v, d + |ds|))
    ensures var k := d + |ds|; var st := if v[d] == 48 then Zero else Whole;
            Number(v, d + 1, st, d + 1, kind) == Number(v, k, st, k, kind)
  {
    hide HoldsAt;
    hide IsExponent;
    OneByte(v, d);
    if v[d] == 48 {
      ds := [48];
      if IsDigit(Peek(v, d + 1)) {
        JunkFails(v, d + 2, d + 1, kind);
      }
    } else {
      ds := TakeDigits(v, d);
      HoldsTail(v, d, ds);
      WholeRun(v, d + 1, ds[1..], kind);
    }
  }

  lemma {:induction false} JunkFails(v: Bytes, i: nat, mark: nat, kind: Kind)
    ensures Number(v, i, Junk, mark, kind).0 == ParseError
    decreases if i <= |v| then |v| - i else 0
  {
    if IsDigit(Peek(v, i)) {
      JunkFails(v, i + 1, mark, kind);
    }
  }

  lemma NumberByte(v: Bytes, p: nat)
    requires p <= |v|
    requires var k := TokenAt(v, p).kind; k == ValueUnsigned || k == ValueInteger || k == ValueFloat
    ensures p < |v| && (v[p] == 45 || IsDigit(v[p])) && TokenAt(v, p) == NumberToken(v, p)
  {
    hide Number;
    hide Run;
  }

  lemma ValueOfNumeral(n: Numeral, fl: Floats)
    requires LegalNumeral(n)
    ensures var kind := if n.fraction != [] || n.power != NoPower then ValueFloat else if n.minus then ValueInteger else ValueUnsigned;
            (kind == ValueInteger ==> NumeralText(n) != []) && GetNumber(NumeralText(n), kind, fl) == NumeralValue(n, fl)
  {
    hide Decimal;
    hide DigitsValue;
    hide FractionText;
    hide PowerText;
    hide LegalNumeral;
    if n.fraction == [] && n.power == NoPower {
      WholeText(n);
      DecimalValue(n.whole);
    }
  }

  // ---------- every accepted text is in the syntax: values ----------

  ghost predicate Spelled(v: Bytes, i: nat, b: Bytes, s: Syntax, x: Json, t: Token, fl: Floats) {
    && Blanks(b) && Legal(s) && HoldsAt(v, i, b + Show(s)) && x == Meaning(s, fl)
    && i + |b| + |Show(s)| <= |v| && t == Scan(v, i + |b| + |Show(s)|)
  }

  lemma LeafSpelled(v: Bytes, i: nat, b: Bytes, s: Syntax, e: nat, fl: Floats)
    requires Blanks(b) && Legal(s) && HoldsAt(v, i, b + Show(s)) && e == i + |b| + |Show(s)|
    ensures Spelled(v, i, b, s, Meaning(s, fl), Scan(v, e), fl)
  {
    hide Scan;
    hide Show;
    hide Meaning;
    hide Legal;
    hide HoldsAt;
    HoldsBounds(v, i, b + Show(s));
  }

  lemma WordSpelled(v: Bytes, i: nat, fl: Floats) returns (b: Bytes, s: Syntax)
    requires i <= |v| && Fits(v, Scan(v, i))
    requires var k := Scan(v, i).kind; k == LiteralNull || k == LiteralTrue || k == LiteralFalse
    ensures var r := ParseValue(v, Scan(v, i), fl); r.Ok? && Spelled(v, i, b, s, r.value.0, r.value.1, fl)
  {
    hide Scan;
    hide TokenAt;
    hide HoldsAt;
    hide Blanks;
    hide JsonString.Legal;
    b := Before(v, i);
    var p := i + |b|;
    WordRead(v, p);
    var k := Scan(v, i).kind;
    s := Word(if k == LiteralNull then Null else Bool(k == LiteralTrue));
    HoldsConcat(v, i, b, Show(s));
    LeafSpelled(v, i, b, s, Scan(v, i).end, fl);
  }

  lemma TextSpelled(v: Bytes, i: nat, fl: Floats) returns (b: Bytes, s: Syntax)
    requires i <= |v| && Fits(v, Scan(v, i)) && Scan(v, i).kind == ValueString && ParseValue(v, Scan(v, i), fl).Ok?
    ensures var r := ParseValue(v, Scan(v, i), fl); r.Ok? && Spelled(v, i, b, s, r.value.0, r.value.1, fl)
  {
    hide Scan;
    hide HoldsAt;
    hide Blanks;
    hide LegalText;
    hide QuotedText;
    hide TextValue;
    hide GetText;
    hide JsonString.Legal;
    var us;
    b, us := UnitsRead(v, i);
    s := Syntax.Text(us);
    LeafSpelled(v, i, b, s, Scan(v, i).end, fl);
  }

  lemma NumSpelled(v: Bytes, i: nat, fl: Floats) returns (b: Bytes, s: Syntax)
    requires i <= |v| && Fits(v, Scan(v, i))
    requires var k := Scan(v, i).kind; k == ValueUnsigned || k == ValueInteger || k == ValueFloat
    ensures var r := ParseValue(v, Scan(v, i), fl); r.Ok? && Spelled(v, i, b, s, r.value.0, r.value.1, fl)
  {
    hide Scan;
    hide TokenAt;
    hide NumberToken;
    hide HoldsAt;
    hide Blanks;
    hide LegalNumeral;
    hide NumeralText;
    hide NumeralValue;
    hide GetNumber;
    hide JsonString.Legal;
    b := Before(v, i);
    var p := i + |b|;
    NumberByte(v, p);
    var n := NumeralTaken(v, p);
    s := Num(n);
    HoldsSlice(v, p, NumeralText(n));
    ValueOfNumeral(n, fl);
    HoldsConcat(v, i, b, NumeralText(n));
    LeafSpelled(v, i, b, s, Scan(v, i).end, fl);
  }

  /** The syntax of whatever value the parser reads. */
  lemma {:induction false} SyntaxRead(v: Bytes, i: nat, fl: Floats) returns (b: Bytes, s: Syntax)
    requires i <= |v| && Fits(v, Scan(v, i)) && ParseValue(v, Scan(v, i), fl).Ok?
    ensures var r := ParseValue(v, Scan(v, i), fl); r.Ok? && Spelled(v, i, b, s, r.value.0, r.value.1, fl)
    decreases |v| + 1 - Scan(v, i).end, 1
  {
    hide *;
    KindsRead(v, i, fl);
    var k := Scan(v, i).kind;
    if k == BeginArray {
      b, s := ListRead(v, i, fl);
    } else if k == BeginObject {
      b, s := DictRead(v, i, fl);
    } else if k == ValueString {
      b, s := TextSpelled(v, i, fl);
    } else if k == LiteralNull || k == LiteralTrue || k == LiteralFalse {
      b, s := WordSpelled(v, i, fl);
    } else {
      b, s := NumSpelled(v, i, fl);
    }
  }

  lemma KindsRead(v: Bytes, i: nat, fl: Floats)
    requires i <= |v| && Fits(v, Scan(v, i)) && ParseValue(v, Scan(v, i), fl).Ok?
    ensures var k := Scan(v, i).kind;
            || k == BeginArray || k == BeginObject || k == ValueString || k == LiteralNull || k == LiteralTrue
            || k == LiteralFalse || k == ValueUnsigned || k == ValueInteger || k == ValueFloat
    ensures Scan(v, i).end <= |v|
  {
    hide Scan;
    hide JsonString.Legal;
  }

  lemma SpelledParts(v: Bytes, i: nat, b: Bytes, s: Syntax, x: Json, t: Token, fl: Floats)
    requires Spelled(v, i, b, s, x, t, fl)
    ensures Blanks(b) && Legal(s) && HoldsAt(v, i, b + Show(s)) && x == Meaning(s, fl)
    ensures i + |b| + |Show(s)| <= |v| && t == Scan(v, i + |b| + |Show(s)|)
  {
    hide Scan;
    hide Show;
    hide Meaning;
    hide Legal;
    hide HoldsAt;
  }

  lemma ItemMade(b: Bytes, s: Syntax, a: Bytes, fl: Floats)
    requires Blanks(b) && Legal(s) && Blanks(a)
    ensures var x := Item(b, s, a);
            LegalItem(x) && ItemMeaning(x, fl) == Meaning(s, fl) && ShowItem(x) == b + (Show(s) + a)
  {
    hide Blanks;
    hide Legal;
    hide Show;
    hide Meaning;
  }

  /** The item whose value starts at `i`, up to the punctuation that follows it. */
  lemma {:induction false} ItemRead(v: Bytes, i: nat, c: byte, fl: Floats) returns (x: Item, q: nat)
    requires i <= |v| && Fits(v, Scan(v, i)) && ParseValue(v, Scan(v, i), fl).Ok?
    requires Mark(c, ParseValue(v, Scan(v, i), fl).value.1.kind)
    ensures LegalItem(x) && HoldsAt(v, i, ShowItem(x) + [c]) && Yields(v, i, ItemMeaning(x, fl), q, fl)
    ensures var e := i + |ShowItem(x)|; e < |v| && Scan(v, q) == Token(Scan(v, q).kind, e, e + 1)
    ensures ParseValue(v, Scan(v, i), fl) == Ok((ItemMeaning(x, fl), Scan(v, q)))
    decreases |v| + 1 - Scan(v, i).end, 2
  {
    hide *;
    var b, s := SyntaxRead(v, i, fl);
    var r := ParseValue(v, Scan(v, i), fl);
    SpelledParts(v, i, b, s, r.value.0, r.value.1, fl);
    q := i + |b| + |Show(s)|;
    var a := MarkRead(v, q, c);
    x := Item(b, s, a);
    ItemMade(b, s, a, fl);
    HoldsConcat(v, i, b + Show(s), a + [c]);
    RegroupTail(b, Show(s), a, [c]);
    YieldsFrom(v, i, ItemMeaning(x, fl), q, fl);
  }

  lemma RegroupTail(b: Bytes, s: Bytes, a: Bytes, c: Bytes)
    ensures (b + s) + (a + c) == (b + (s + a)) + c
  {
  }

  lemma ItemsCons(x: Item, xs: seq<Item>, fl: Floats)
    requires LegalItem(x) && LegalItems(xs)
    ensures LegalItems([x] + xs) && Meanings([x] + xs, fl) == [ItemMeaning(x, fl)] + Meanings(xs, fl)
    ensures ShowItems([x] + xs) == ShowItem(x) + (if xs == [] then [] else [44] + ShowItems(xs))
  {
    hide LegalItem;
    hide ShowItem;
    hide ItemMeaning;
    assert ([x] + xs)[1..] == xs;
  }

  lemma NoItems(fl: Floats)
    ensures LegalItems([]) && Meanings([], fl) == []
  {
  }

  lemma ElemsSplit(v: Bytes, i: nat, done: seq<Json>, fl: Floats)
    requires i <= |v| && Fits(v, Scan(v, i)) && ParseElems(v, Scan(v, i), done, fl).Ok?
    ensures ParseValue(v, Scan(v, i), fl).Ok?
    ensures var n := ParseValue(v, Scan(v, i), fl).value.1;
            n.end > Scan(v, i).end && (n.kind == ValueSeparator || n.kind == EndArray)
  {
    hide Scan;
    hide ParseValue;
  }

  lemma {:induction false} ItemsRead(v: Bytes, i: nat, done: seq<Json>, fl: Floats) returns (xs: seq<Item>)
    requires i <= |v| && Fits(v, Scan(v, i)) && ParseElems(v, Scan(v, i), done, fl).Ok?
    ensures xs != [] && LegalItems(xs) && HoldsAt(v, i, ShowItems(xs) + [93])
    ensures var e := i + |ShowItems(xs)| + 1;
            e <= |v| && ParseElems(v, Scan(v, i), done, fl) == Ok((Array(done + Meanings(xs, fl)), Scan(v, e)))
    decreases |v| + 1 - Scan(v, i).end, 3
  {
    hide *;
    AreMarks();
    ElemsSplit(v, i, done, fl);
    NoItems(fl);
    if ParseValue(v, Scan(v, i), fl).value.1.kind == EndArray {
      var x, q := ItemRead(v, i, 93, fl);
      var e := i + |ShowItem(x)|;
      xs := [x] + [];
      ItemsCons(x, [], fl);
      assert ShowItem(x) + [] == ShowItem(x);
      assert Meanings(xs, fl) == [ItemMeaning(x, fl)];
      ElemsLast(v, i, q, ItemMeaning(x, fl), done, e, fl);
    } else {
      var x, q := ItemRead(v, i, 44, fl);
      var e := i + |ShowItem(x)|;
      ElemsMore(v, i, q, ItemMeaning(x, fl), done, e, fl);
      ScanForward(v, e + 1);
      var rest := ItemsRead(v, e + 1, done + [ItemMeaning(x, fl)], fl);
      xs := [x] + rest;
      ItemsCons(x, rest, fl);
      HoldsConcat(v, i, ShowItem(x), [44]);
      HoldsConcat(v, i, ShowItem(x) + [44], ShowItems(rest) + [93]);
      assert ShowItems(xs) + [93] == (ShowItem(x) + [44]) + (ShowItems(rest) + [93]);
      assert done + [ItemMeaning(x, fl)] + Meanings(rest, fl) == done + Meanings(xs, fl);
    }
  }

  lemma ScanForward(v: Bytes, i: nat)
    requires i <= |v|
    ensures Scan(v, i).end > i
  {
    hide Scan;
    ScanFits(v, i);
  }

  lemma ListCases(v: Bytes, i: nat, fl: Floats)
    requires i <= |v| && Fits(v, Scan(v, i)) && Scan(v, i).kind == BeginArray && ParseValue(v, Scan(v, i), fl).Ok?
    ensures var e := Scan(v, i).end;
            && e <= |v| && Fits(v, Scan(v, e)) && Scan(v, e).end > e
            && (Scan(v, e).kind == EndArray ==>
                  Scan(v, e).end <= |v| && ParseValue(v, Scan(v, i), fl) == Ok((Array([]), Scan(v, Scan(v, e).end))))
            && (Scan(v, e).kind != EndArray ==> ParseValue(v, Scan(v, i), fl) == ParseElems(v, Scan(v, e), [], fl))
  {
    hide Scan;
    hide ParseElems;
    hide JsonString.Legal;
    ScanFits(v, Scan(v, i).end);
  }

  lemma ListMade(inner: Bytes, xs: seq<Item>, fl: Floats)
    requires Blanks(inner) && LegalItems(xs)
    ensures var s := List(inner, xs);
            && Legal(s) && Meaning(s, fl) == Array(Meanings(xs, fl))
            && Show(s) == [91] + ((if xs == [] then inner else ShowItems(xs)) + [93])
  {
    hide LegalItem;
    hide ShowItems;
    hide Blanks;
  }

  lemma {:induction false} ListRead(v: Bytes, i: nat, fl: Floats) returns (b: Bytes, s: Syntax)
    requires i <= |v| && Fits(v, Scan(v, i)) && Scan(v, i).kind == BeginArray && ParseValue(v, Scan(v, i), fl).Ok?
    ensures var r := ParseValue(v, Scan(v, i), fl); r.Ok? && Spelled(v, i, b, s, r.value.0, r.value.1, fl)
    decreases |v| + 1 - Scan(v, i).end, 0
  {
    hide *;
    AreMarks();
    NoBlanks();
    NoItems(fl);
    ListCases(v, i, fl);
    b := MarkRead(v, i, 91);
    var e := Scan(v, i).end;
    if Scan(v, e).kind == EndArray {
      var inner := MarkRead(v, e, 93);
      s := List(inner, []);
      ListMade(inner, [], fl);
      HoldsConcat(v, i, b + [91], inner + [93]);
      RegroupOpen(b, [91], inner + [93]);
      LeafSpelled(v, i, b, s, Scan(v, e).end, fl);
    } else {
      var xs := ItemsRead(v, e, [], fl);
      s := List([], xs);
      ListMade([], xs, fl);
      HoldsConcat(v, i, b + [91], ShowItems(xs) + [93]);
      RegroupOpen(b, [91], ShowItems(xs) + [93]);
      assert [] + Meanings(xs, fl) == Meanings(xs, fl);
      LeafSpelled(v, i, b, s, e + |ShowItems(xs)| + 1, fl);
    }
  }

  lemma RegroupOpen(b: Bytes, o: Bytes, rest: Bytes)
    ensures (b + o) + rest == b + (o + rest)
  {
  }

  // ---------- members ----------

  lemma KeySplit(v: Bytes, i: nat)
    requires i <= |v| && Fits(v, Scan(v, i)) && KeyAndColon(v, Scan(v, i)).Ok?
    ensures Scan(v, i).kind == ValueString && Scan(v, i).end <= |v| && GetText(v, Scan(v, i)).Ok?
    ensures var c := Scan(v, Scan(v, i).end);
            && c.kind == NameSeparator && c.end <= |v| && Fits(v, Scan(v, c.end)) && Scan(v, c.end).end > Scan(v, i).end
            && KeyAndColon(v, Scan(v, i)) == Ok((GetText(v, Scan(v, i)).value, Scan(v, c.end)))
  {
    hide Scan;
    hide GetText;
    hide JsonString.Legal;
    ScanFits(v, Scan(v, i).end);
    ScanFits(v, Scan(v, Scan(v, i).end).end);
  }

  lemma MemberMade(b: Bytes, us: seq<Unit>, colon: Bytes, x: Item, fl: Floats)
    requires Blanks(b) && LegalText(us) && Blanks(colon) && LegalItem(x)
    ensures var m := Member(b, us, colon, x);
            && LegalMember(m) && MemberKey(m) == TextValue(us) && MemberMeaning(m, fl) == ItemMeaning(x, fl)
            && ShowMember(m) == b + (QuotedText(us) + (colon + ([58] + ShowItem(x))))
  {
    hide Blanks;
    hide LegalText;
    hide LegalItem;
    hide ShowItem;
    hide QuotedText;
    hide TextValue;
    hide ItemMeaning;
  }

  lemma RegroupKey(b: Bytes, t: Bytes, colon: Bytes, c: Bytes, x: Bytes, tail: Bytes)
    ensures (b + t) + ((colon + c) + (x + tail)) == (b + (t + (colon + (c + x)))) + tail
  {
  }

  /** The member that starts at `i`, up to the punctuation that follows it. */
  lemma {:induction false} MemberRead(v: Bytes, i: nat, c: byte, fl: Floats) returns (m: Member, w: nat, q: nat)
    requires i <= |v| && Fits(v, Scan(v, i)) && KeyAndColon(v, Scan(v, i)).Ok?
    requires var w := KeyAndColon(v, Scan(v, i)).value.1;
             ParseValue(v, w, fl).Ok? && Mark(c, ParseValue(v, w, fl).value.1.kind)
    ensures LegalMember(m) && HoldsAt(v, i, ShowMember(m) + [c])
    ensures KeyYields(v, i, MemberKey(m), w) && Yields(v, w, MemberMeaning(m, fl), q, fl)
    ensures var e := i + |ShowMember(m)|; e < |v| && Scan(v, q) == Token(Scan(v, q).kind, e, e + 1)
    ensures KeyAndColon(v, Scan(v, i)).value.1 == Scan(v, w)
    ensures ParseValue(v, Scan(v, w), fl).value.1 == Scan(v, q)
    decreases |v| + 1 - Scan(v, i).end, 2
  {
    hide *;
    AreMarks();
    KeySplit(v, i);
    var b, us := UnitsRead(v, i);
    var k := Scan(v, i).end;
    var colon := MarkRead(v, k, 58);
    w := Scan(v, k).end;
    var x;
    x, q := ItemRead(v, w, c, fl);
    m := Member(b, us, colon, x);
    MemberMade(b, us, colon, x, fl);
    HoldsConcat(v, k, colon + [58], ShowItem(x) + [c]);
    HoldsConcat(v, i, b + QuotedText(us), (colon + [58]) + (ShowItem(x) + [c]));
    RegroupKey(b, QuotedText(us), colon, [58], ShowItem(x), [c]);
    KeyFrom(v, i, MemberKey(m), w);
  }

  lemma KeyFrom(v: Bytes, i: nat, key: Bytes, w: nat)
    requires i <= |v| && w <= |v| && Fits(v, Scan(v, i)) && KeyAndColon(v, Scan(v, i)) == Ok((key, Scan(v, w)))
    ensures KeyYields(v, i, key, w)
  {
  }

  lemma MembersCons(x: Member, xs: seq<Member>, m: map<Bytes, Json>, fl: Floats)
    requires LegalMember(x) && LegalMembers(xs)
    ensures LegalMembers([x] + xs) && Members(m, [x] + xs, fl) == Members(m[MemberKey(x) := MemberMeaning(x, fl)], xs, fl)
    ensures ShowMembers([x] + xs) == ShowMember(x) + (if xs == [] then [] else [44] + ShowMembers(xs))
  {
    hide LegalMember;
    hide ShowMember;
    hide MemberKey;
    hide MemberMeaning;
    assert ([x] + xs)[1..] == xs;
  }

  lemma NoMembers(m: map<Bytes, Json>, fl: Floats)
    ensures LegalMembers([]) && Members(m, [], fl) == m
  {
  }

  lemma MembersSplit(v: Bytes, i: nat, m: map<Bytes, Json>, fl: Floats)
    requires i <= |v| && Fits(v, Scan(v, i)) && ParseMembers(v, Scan(v, i), m, fl).Ok?
    ensures KeyAndColon(v, Scan(v, i)).Ok?
    ensures var w := KeyAndColon(v, Scan(v, i)).value.1;
            && w.end > Scan(v, i).end && ParseValue(v, w, fl).Ok?
            && ParseValue(v, w, fl).value.1.end > w.end
            && (ParseValue(v, w, fl).value.1.kind == ValueSeparator || ParseValue(v, w, fl).value.1.kind == EndObject)
  {
    hide Scan;
    hide KeyAndColon;
    hide ParseValue;
  }

  lemma {:induction false} MembersRead(v: Bytes, i: nat, m: map<Bytes, Json>, fl: Floats) returns (xs: seq<Member>)
    requires i <= |v| && Fits(v, Scan(v, i)) && ParseMembers(v, Scan(v, i), m, fl).Ok?
    ensures xs != [] && LegalMembers(xs) && HoldsAt(v, i, ShowMembers(xs) + [125])
    ensures var e := i + |ShowMembers(xs)| + 1;
            e <= |v| && ParseMembers(v, Scan(v, i), m, fl) == Ok((Object(Members(m, xs, fl)), Scan(v, e)))
    decreases |v| + 1 - Scan(v, i).end, 3
  {
    hide *;
    AreMarks();
    MembersSplit(v, i, m, fl);
    var n := ParseValue(v, KeyAndColon(v, Scan(v, i)).value.1, fl).value.1;
    if n.kind == EndObject {
      var x, w, q := MemberRead(v, i, 125, fl);
      var e := i + |ShowMember(x)|;
      xs := [x] + [];
      NoMembers(m[MemberKey(x) := MemberMeaning(x, fl)], fl);
      MembersCons(x, [], m, fl);
      assert ShowMember(x) + [] == ShowMember(x);
      MembersLast(v, i, MemberKey(x), w, q, MemberMeaning(x, fl), m, e, fl);
    } else {
      var x, w, q := MemberRead(v, i, 44, fl);
      var e := i + |ShowMember(x)|;
      var next := m[MemberKey(x) := MemberMeaning(x, fl)];
      MembersMore(v, i, MemberKey(x), w, q, MemberMeaning(x, fl), m, e, fl);
      ScanForward(v, e + 1);
      var rest := MembersRead(v, e + 1, next, fl);
      xs := [x] + rest;
      MembersCons(x, rest, m, fl);
      HoldsConcat(v, i, ShowMember(x), [44]);
      HoldsConcat(v, i, ShowMember(x) + [44], ShowMembers(rest) + [125]);
      assert ShowMembers(xs) + [125] == (ShowMember(x) + [44]) + (ShowMembers(rest) + [125]);
    }
  }

  lemma DictCases(v: Bytes, i: nat, fl: Floats)
    requires i <= |v| && Fits(v, Scan(v, i)) && Scan(v, i).kind == BeginObject && ParseValue(v, Scan(v, i), fl).Ok?
    ensures var e := Scan(v, i).end;
            && e <= |v| && Fits(v, Scan(v, e)) && Scan(v, e).end > e
            && (Scan(v, e).kind == EndObject ==>
                  Scan(v, e).end <= |v| && ParseValue(v, Scan(v, i), fl) == Ok((Object(map[]), Scan(v, Scan(v, e).end))))
            && (Scan(v, e).kind != EndObject ==> ParseValue(v, Scan(v, i), fl) == ParseMembers(v, Scan(v, e), map[], fl))
  {
    hide Scan;
    hide ParseMembers;
    hide JsonString.Legal;
    ScanFits(v, Scan(v, i).end);
  }

  lemma DictMade(inner: Bytes, xs: seq<Member>, fl: Floats)
    requires Blanks(inner) && LegalMembers(xs)
    ensures var s := Dict(inner, xs);
            && Legal(s) && Meaning(s, fl) == Object(Members(map[], xs, fl))
            && Show(s) == [123] + ((if xs == [] then inner else ShowMembers(xs)) + [125])
  {
    hide LegalMember;
    hide ShowMembers;
    hide Blanks;
  }

  lemma {:induction false} DictRead(v: Bytes, i: nat, fl: Floats) returns (b: Bytes, s: Syntax)
    requires i <= |v| && Fits(v, Scan(v, i)) && Scan(v, i).kind == BeginObject && ParseValue(v, Scan(v, i), fl).Ok?
    ensures var r := ParseValue(v, Scan(v, i), fl); r.Ok? && Spelled(v, i, b, s, r.value.0, r.value.1, fl)
    decreases |v| + 1 - Scan(v, i).end, 0
  {
    hide *;
    AreMarks();
    NoBlanks();
    NoMembers(map[], fl);
    DictCases(v, i, fl);
    b := MarkRead(v, i, 123);
    var e := Scan(v, i).end;
    if Scan(v, e).kind == EndObject {
      var inner := MarkRead(v, e, 125);
      s := Dict(inner, []);
      DictMade(inner, [], fl);
      HoldsConcat(v, i, b + [123], inner + [125]);
      RegroupOpen(b, [123], inner + [125]);
      LeafSpelled(v, i, b, s, Scan(v, e).end, fl);
    } else {
      var xs := MembersRead(v, e, map[], fl);
      s := Dict([], xs);
      DictMade([], xs, fl);
      HoldsConcat(v, i, b + [123], ShowMembers(xs) + [125]);
      RegroupOpen(b, [123], ShowMembers(xs) + [125]);
      LeafSpelled(v, i, b, s, e + |ShowMembers(xs)| + 1, fl);
    }
  }

  // ---------- whole texts ----------

  /** A text is a value between blanks; a zero byte after it ends the input. */
  ghost predicate Document(v: Bytes, x: Item) {
    v == ShowItem(x) || (exists tail: Bytes :: v == ShowItem(x) + ([0] + tail))
  }

  ghost predicate Accepted(v: Bytes, j: Json, fl: Floats) {
    exists x :: LegalItem(x) && Document(v, x) && j == ItemMeaning(x, fl)
  }

  lemma DocumentHolds(v: Bytes, x: Item)
    requires Document(v, x)
    ensures HoldsAt(v, 0, ShowItem(x)) && |ShowItem(x)| <= |v|
    ensures |ShowItem(x)| < |v| ==> v[|ShowItem(x)|] == 0
  {
    hide ShowItem;
  }

  lemma HoldsDocument(v: Bytes, x: Item)
    requires HoldsAt(v, 0, ShowItem(x)) && (|ShowItem(x)| < |v| ==> v[|ShowItem(x)|] == 0)
    ensures Document(v, x)
  {
    hide ShowItem;
    var n := |ShowItem(x)|;
    if n < |v| {
      assert v == ShowItem(x) + ([0] + v[n + 1..]);
    } else {
      assert v == ShowItem(x);
    }
  }

  /** The end of the input, after blanks. */
  lemma EndAfter(v: Bytes, q: nat, blanks: Bytes)
    requires HoldsAt(v, q, blanks) && Blanks(blanks) && Peek(v, q + |blanks|) == 0
    ensures q <= |v| && Scan(v, q).kind == EndOfInput && Ended(Peek(v, q))
  {
    hide Scan;
    hide HoldsAt;
    hide Blank;
    HoldsBounds(v, q, blanks);
    ScanBlanks(v, q, blanks);
    EndHere(v, q + |blanks|);
    if blanks != [] {
      HoldsFirst(v, q, blanks);
      assert Blank(blanks[0]);
      JsonTextLaw.BlankEnds(blanks[0]);
    }
  }

  lemma EndHere(v: Bytes, e: nat)
    requires Peek(v, e) == 0
    ensures Scan(v, e).kind == EndOfInput && Ended(0)
  {
    hide Scan;
    ScanHere(v, e);
  }

  lemma ParseParts(v: Bytes, fl: Floats)
    ensures Fits(v, Scan(v, 0))
    ensures var r := ParseValue(v, Scan(v, 0), fl);
            Parse(v, fl) ==
            if r.Err? then Err(r.error)
            else if r.value.1.kind == EndOfInput then Ok(r.value.0) else Err(InvalidArgument)
  {
    hide Scan;
    hide ParseValue;
    ScanFits(v, 0);
  }

  /** Every text of the syntax parses to its value. */
  lemma DocumentParses(v: Bytes, x: Item, fl: Floats)
    requires LegalItem(x) && Document(v, x)
    ensures Parse(v, fl) == Ok(ItemMeaning(x, fl))
  {
    hide *;
    DocumentHolds(v, x);
    ItemParts(x, fl);
    var t := Show(x.syntax);
    HoldsConcat(v, 0, x.before, t + x.after);
    var p := |x.before|;
    HoldsConcat(v, p, t, x.after);
    PeekEnd(v, |ShowItem(x)|);
    EndAfter(v, p + |t|, x.after);
    SyntaxYields(v, p, x.syntax, fl);
    ScanBlanks(v, 0, x.before);
    SameYields(v, 0, p, ItemMeaning(x, fl), p + |t|, fl);
    ParseParts(v, fl);
    YieldsIs(v, 0, ItemMeaning(x, fl), p + |t|, fl);
  }

  lemma PeekEnd(v: Bytes, n: nat)
    ensures (n < |v| ==> v[n] == 0) <==> Peek(v, n) == 0
  {
  }

  lemma YieldsIs(v: Bytes, i: nat, x: Json, e: nat, fl: Floats)
    requires Yields(v, i, x, e, fl)
    ensures i <= |v| && Fits(v, Scan(v, i)) && ParseValue(v, Scan(v, i), fl) == Ok((x, Scan(v, e)))
  {
  }

  /** Every text that parses is in the syntax. */
  lemma ParsesDocument(v: Bytes, fl: Floats) returns (x: Item)
    requires Parse(v, fl).Ok?
    ensures LegalItem(x) && Document(v, x) && Parse(v, fl) == Ok(ItemMeaning(x, fl))
  {
    hide *;
    ParseParts(v, fl);
    var r := ParseValue(v, Scan(v, 0), fl);
    var b, s := SyntaxRead(v, 0, fl);
    SpelledParts(v, 0, b, s, r.value.0, r.value.1, fl);
    var q := |b| + |Show(s)|;
    var a := Before(v, q);
    EndByte(v, q + |a|);
    x := Item(b, s, a);
    ItemMade(b, s, a, fl);
    HoldsConcat(v, 0, b + Show(s), a);
    RegroupOpen(b, Show(s), a);
    HoldsDocument(v, x);
  }

  lemma EndByte(v: Bytes, p: nat)
    requires p <= |v| && TokenAt(v, p).kind == EndOfInput
    ensures p < |v| ==> v[p] == 0
  {
    hide TokenAt;
    KindByte(v, p);
  }

  /** The parser accepts exactly the texts of the syntax, and gives each its value. */
  lemma ParseIsSyntax(v: Bytes, j: Json, fl: Floats)
    ensures Parse(v, fl) == Ok(j) <==> Accepted(v, j, fl)
  {
    hide Parse;
    hide LegalItem;
    hide Document;
    hide ItemMeaning;
    if Parse(v, fl) == Ok(j) {
      var x := ParsesDocument(v, fl);
    }
    if Accepted(v, j, fl) {
      var x :| LegalItem(x) && Document(v, x) && j == ItemMeaning(x, fl);
      DocumentParses(v, x, fl);
    }
  }
}
