/**
  Parsing what was printed: for values without floats it succeeds exactly when
  every string and key is UTF-8, and then gives back the value.
 */
module JsonTextLaw {
  import opened JsonValue
  import opened Binary
  import opened JsonPointer
  import JsonString
  import opened StringScan
  import Utf8
  import opened JsonLexer
  import opened JsonText

  /** Every string and every key is well-formed UTF-8. */
  ghost predicate Utf8Only(j: Json) {
    match j
    case String(s) => Utf8.WellFormed(s)
    case Array(es) => forall i :: 0 <= i < |es| ==> Utf8Only(es[i])
    case Object(m) => forall k :: k in m ==> Utf8.WellFormed(k) && Utf8Only(m[k])
    case _ => true
  }

  /** The value at `i` is read as `j`, up to `end`. */
  ghost predicate Reads(v: Bytes, i: nat, j: Json, end: nat, fl: Floats)
    requires i <= |v|
  {
    ScanFits(v, i);
    ParseValue(v, Scan(v, i), fl) ==
    if Utf8Only(j) then Ok((Canonical(j), Scan(v, end))) else Err(InvalidArgument)
  }

  // ---------- scalars ----------

  lemma ReadsLiteral(v: Bytes, i: nat, j: Json, st: Style, level: nat)
    requires (j.Null? || j.Bool?) && HoldsAt(v, i, Dump(j, st, level))
    ensures i + |Dump(j, st, level)| <= |v| && Reads(v, i, j, i + |Dump(j, st, level)|, st.floats)
  {
    hide Scan;
    hide StringToken;
    hide NumberToken;
    HoldsFirst(v, i, Dump(j, st, level));
    ScanHere(v, i);
    ScanFits(v, i);
  }

  lemma ReadsString(v: Bytes, i: nat, s: Bytes, fl: Floats)
    requires HoldsAt(v, i, Quoted(s))
    ensures i + |Quoted(s)| <= |v| && Reads(v, i, String(s), i + |Quoted(s)|, fl)
  {
    hide Scan;
    hide TokenAt;
    hide HoldsAt;
    hide Utf8.WellFormed;
    hide JsonString.Escape;
    hide JsonString.GetString;
    hide JsonString.Legal;
    HoldsFirst(v, i, Quoted(s));
    HoldsBounds(v, i, Quoted(s));
    ScanHere(v, i);
    ScanFits(v, i);
    PrintedToken(v, i, s);
    JsonString.GetStringEscape(s);
  }

  lemma ReadsNatural(v: Bytes, i: nat, n: uint64, fl: Floats)
    requires HoldsAt(v, i, Decimal(n)) && Ended(Peek(v, i + |Decimal(n)|))
    ensures i + |Decimal(n)| <= |v| && Reads(v, i, Uint(n), i + |Decimal(n)|, fl)
  {
    hide Scan;
    hide TokenAt;
    hide HoldsAt;
    hide Decimal;
    hide DigitsValue;
    hide JsonString.Legal;
    var s := Decimal(n);
    HoldsFirst(v, i, s);
    HoldsSlice(v, i, s);
    ScanHere(v, i);
    ScanFits(v, i);
    DecimalToken(v, i, n);
    DecimalValue(n);
  }

  lemma ReadsNegative(v: Bytes, i: nat, n: int, fl: Floats)
    requires -0x8000_0000_0000_0000 <= n < 0 && HoldsAt(v, i, [45] + Decimal(-n)) && Ended(Peek(v, i + 1 + |Decimal(-n)|))
    ensures i + 1 + |Decimal(-n)| <= |v| && Reads(v, i, Int(n), i + 1 + |Decimal(-n)|, fl)
  {
    hide Scan;
    hide TokenAt;
    hide HoldsAt;
    hide Decimal;
    hide DigitsValue;
    hide JsonString.Legal;
    var s := [45] + Decimal(-n);
    HoldsFirst(v, i, s);
    HoldsSlice(v, i, s);
    ScanHere(v, i);
    ScanFits(v, i);
    NegativeToken(v, i, -n);
    DecimalValue(-n);
    assert s[1..] == Decimal(-n);
  }

  // ---------- punctuation ----------

  lemma ScanByte(v: Bytes, i: nat, c: byte, kind: Kind)
    requires i < |v| && v[i] == c
    requires (c == 91 && kind == BeginArray) || (c == 93 && kind == EndArray) || (c == 123 && kind == BeginObject)
          || (c == 125 && kind == EndObject) || (c == 44 && kind == ValueSeparator) || (c == 58 && kind == NameSeparator)
    ensures Scan(v, i) == Token(kind, i, i + 1)
    ensures Ended(c)
  {
    hide SkipBlanks;
    hide Scan;
    ScanHere(v, i);
  }

  /** What follows the last element or member. */
  lemma ScanClosing(v: Bytes, i: nat, st: Style, level: nat, c: byte, kind: Kind)
    requires HoldsAt(v, i, Closing(st, level) + [c])
    requires (c == 93 && kind == EndArray) || (c == 125 && kind == EndObject)
    ensures var e := i + |Closing(st, level)|; e < |v| && Scan(v, i) == Token(kind, e, e + 1)
    ensures Ended(Peek(v, i))
  {
    hide HoldsAt;
    hide Scan;
    hide Closing;
    hide Blank;
    var s := Closing(st, level);
    HoldsConcat(v, i, s, [c]);
    HoldsFirst(v, i + |s|, [c]);
    HoldsFirst(v, i, s + [c]);
    ScanBlanks(v, i, s);
    ScanByte(v, i + |s|, c, kind);
    if s != [] {
      assert Blank(s[0]);
      BlankEnds(s[0]);
    }
  }

  lemma BlankEnds(c: byte)
    requires Blank(c)
    ensures Ended(c)
  {
  }

  /** A printed value begins with a byte that no closing bracket or comma begins with. */
  predicate Opens(c: byte) {
    c == 34 || c == 45 || IsDigit(c) || c == 91 || c == 102 || c == 110 || c == 116 || c == 123
  }

  lemma OpensToken(v: Bytes, i: nat)
    requires i < |v| && Opens(v[i])
    ensures Scan(v, i) == TokenAt(v, i)
    ensures var k := Scan(v, i).kind; k != EndArray && k != EndObject && k != ValueSeparator
  {
    hide SkipBlanks;
    hide Scan;
    hide Number;
    hide Run;
    ScanHere(v, i);
    if v[i] == 45 || IsDigit(v[i]) {
      NumberKinds(v, i);
    }
  }

  lemma NumberKinds(v: Bytes, i: nat)
    requires i < |v| && (v[i] == 45 || IsDigit(v[i]))
    ensures var k := NumberToken(v, i).kind;
            k == ValueUnsigned || k == ValueInteger || k == ValueFloat || k == ParseError
  {
    hide Number;
    var d := if v[i] == 45 then i + 1 else i;
    if IsDigit(Peek(v, d)) {
      var kind := if v[i] == 45 then ValueInteger else ValueUnsigned;
      assert v[d..d + 1] == [v[d]];
      NumberEnds(v, d, d + 1, if v[d] == 48 then Zero else Whole, d + 1, kind);
    }
  }

  lemma DumpOpens(j: Json, st: Style, level: nat)
    requires !j.Float?
    ensures Dump(j, st, level) != [] && Opens(Dump(j, st, level)[0])
  {
    hide Decimal;
    hide DumpElems;
    hide DumpMembers;
    hide JsonString.Escape;
  }

  lemma ReadsScalar(v: Bytes, i: nat, j: Json, st: Style, level: nat)
    requires FloatFree(j) && !j.Array? && !j.Object?
    requires HoldsAt(v, i, Dump(j, st, level)) && Ended(Peek(v, i + |Dump(j, st, level)|))
    ensures i + |Dump(j, st, level)| <= |v| && Reads(v, i, j, i + |Dump(j, st, level)|, st.floats)
  {
    hide Reads;
    hide HoldsAt;
    hide Decimal;
    hide Quoted;
    hide Ended;
    match j
    case Null => ReadsLiteral(v, i, j, st, level);
    case Bool(_) => ReadsLiteral(v, i, j, st, level);
    case String(s) => ReadsString(v, i, s, st.floats);
    case Uint(u) => ReadsNatural(v, i, u, st.floats);
    case Int(n) =>
      if n < 0 {
        ReadsNegative(v, i, n, st.floats);
      } else {
        ReadsNatural(v, i, n, st.floats);
        SameReads(v, i, n, i + |Decimal(n)|, st.floats);
      }
  }

  lemma SameReads(v: Bytes, i: nat, n: int64, end: nat, fl: Floats)
    requires i <= |v| && 0 <= n && Reads(v, i, Uint(n), end, fl)
    ensures Reads(v, i, Int(n), end, fl)
  {
    hide ParseValue;
    hide Scan;
  }

  // ---------- arrays ----------

  ghost predicate Utf8From(es: seq<Json>, k: nat)
    requires k <= |es|
  {
    forall i :: k <= i < |es| ==> Utf8Only(es[i])
  }

  lemma Utf8Step(es: seq<Json>, k: nat)
    requires k < |es|
    ensures Utf8From(es, k) <==> Utf8Only(es[k]) && Utf8From(es, k + 1)
  {
    hide Utf8Only;
  }

  /** The elements from `k` on are read after `done`, up to the bracket at `e`. */
  ghost predicate ReadsElems(v: Bytes, i: nat, es: seq<Json>, k: nat, done: seq<Json>, e: nat, fl: Floats)
    requires i <= |v| && k <= |es|
  {
    ScanFits(v, i);
    ParseElems(v, Scan(v, i), done, fl) ==
    if Utf8From(es, k) then Ok((Array(done + CanonicalFrom(es, k)), Scan(v, e + 1))) else Err(InvalidArgument)
  }

  lemma ReadsLast(v: Bytes, i: nat, q: nat, es: seq<Json>, done: seq<Json>, e: nat, fl: Floats)
    requires i <= |v| && q <= |v| && es != [] && Reads(v, i, es[|es| - 1], q, fl)
    requires e < |v| && Scan(v, q) == Token(EndArray, e, e + 1)
    ensures ReadsElems(v, i, es, |es| - 1, done, e, fl)
  {
    hide Scan;
    hide ParseValue;
    hide Canonical;
    hide Fits;
    hide Utf8Only;
    var k := |es| - 1;
    ScanFits(v, i);
    ScanFits(v, q);
    Utf8Step(es, k);
    assert CanonicalFrom(es, k) == [Canonical(es[k])];
  }

  lemma ReadsMore(v: Bytes, i: nat, q: nat, p: nat, es: seq<Json>, k: nat, done: seq<Json>, e: nat, fl: Floats)
    requires i <= |v| && q < p <= |v| && k + 1 < |es| && Reads(v, i, es[k], q, fl)
    requires Scan(v, q) == Token(ValueSeparator, q, q + 1) && Scan(v, q + 1) == Scan(v, p)
    requires ReadsElems(v, p, es, k + 1, done + [Canonical(es[k])], e, fl)
    ensures ReadsElems(v, i, es, k, done, e, fl)
  {
    hide Scan;
    hide ParseValue;
    hide Canonical;
    hide Fits;
    hide Utf8Only;
    ScanFits(v, i);
    ScanFits(v, q);
    ScanFits(v, p);
    Utf8Step(es, k);
    Push(done, Canonical(es[k]), CanonicalFrom(es, k + 1));
  }

  lemma Push(done: seq<Json>, x: Json, rest: seq<Json>)
    ensures (done + [x]) + rest == done + ([x] + rest)
  {
  }

  lemma ElemsText(j: Json, k: nat, st: Style, level: nat)
    requires j.Array? && k < |j.elems|
    ensures DumpElems(j, k, st, level) == Spaces(level) + (Dump(j.elems[k], st, level) +
            if k + 1 == |j.elems| then [] else [44] + (Newline(st) + DumpElems(j, k + 1, st, level)))
  {
    hide Dump;
    hide Spaces;
    hide Newline;
  }

  lemma ElemsOpen(j: Json, k: nat, st: Style, level: nat)
    requires j.Array? && k < |j.elems| && FloatFree(j)
    ensures var d := DumpElems(j, k, st, level); |d| > level && Opens(d[level]) && d[..level] == Spaces(level)
  {
    hide Dump;
    hide Opens;
    ElemsText(j, k, st, level);
    DumpOpens(j.elems[k], st, level);
  }

  lemma {:induction false} ParseDump(v: Bytes, i: nat, j: Json, st: Style, level: nat)
    requires FloatFree(j)
    requires HoldsAt(v, i, Dump(j, st, level)) && Ended(Peek(v, i + |Dump(j, st, level)|))
    ensures i + |Dump(j, st, level)| <= |v| && Reads(v, i, j, i + |Dump(j, st, level)|, st.floats)
    decreases j, 1, 0
  {
    hide *;
    if j.Array? {
      ParseArray(v, i, j, st, level);
    } else if j.Object? {
      ParseObject(v, i, j, st, level);
    } else {
      ReadsScalar(v, i, j, st, level);
    }
  }

  lemma {:induction false} ParseDumpElems(v: Bytes, i: nat, j: Json, k: nat, st: Style, level: nat, done: seq<Json>, e: nat)
    requires j.Array? && FloatFree(j) && k < |j.elems|
    requires HoldsAt(v, i, DumpElems(j, k, st, level))
    requires var end := i + |DumpElems(j, k, st, level)|;
             Ended(Peek(v, end)) && e < |v| && Scan(v, end) == Token(EndArray, e, e + 1)
    ensures i <= |v| && ReadsElems(v, i, j.elems, k, done, e, st.floats)
    decreases j, 0, |j.elems| - k
  {
    hide *;
    var x := j.elems[k];
    var d := Dump(x, st, level);
    ElemsText(j, k, st, level);
    ElementFree(j, k);
    var p := i + level;
    var q := p + |d|;
    SpacesSize(level);
    if k + 1 == |j.elems| {
      assert DumpElems(j, k, st, level) == Spaces(level) + d;
      HoldsConcat(v, i, Spaces(level), d);
      ScanBlanks(v, i, Spaces(level));
      ParseDump(v, p, x, st, level);
      SameScan(v, i, p, x, q, st.floats);
      ReadsLast(v, i, q, j.elems, done, e, st.floats);
    } else {
      var rest := DumpElems(j, k + 1, st, level);
      HoldsConcat(v, i, Spaces(level), d + ([44] + (Newline(st) + rest)));
      ScanBlanks(v, i, Spaces(level));
      HoldsConcat(v, p, d, [44] + (Newline(st) + rest));
      Comma(v, q, st, rest);
      ParseDump(v, p, x, st, level);
      SameScan(v, i, p, x, q, st.floats);
      var r := q + 1 + |Newline(st)|;
      assert i + |DumpElems(j, k, st, level)| == r + |rest|;
      ParseDumpElems(v, r, j, k + 1, st, level, done + [Canonical(x)], e);
      ReadsMore(v, i, q, r, j.elems, k, done, e, st.floats);
    }
  }

  lemma SpacesSize(level: nat)
    ensures |Spaces(level)| == level && Blanks(Spaces(level))
  {
  }

  lemma ElementFree(j: Json, k: nat)
    requires j.Array? && FloatFree(j) && k < |j.elems|
    ensures FloatFree(j.elems[k])
  {
  }

  lemma SameScan(v: Bytes, i: nat, p: nat, j: Json, q: nat, fl: Floats)
    requires i <= p <= |v| && Scan(v, i) == Scan(v, p) && Reads(v, p, j, q, fl)
    ensures Reads(v, i, j, q, fl)
  {
    hide Scan;
    hide ParseValue;
    hide Utf8Only;
    hide Canonical;
  }

  /** A comma, the line break of the pretty style, then more text. */
  lemma Comma(v: Bytes, q: nat, st: Style, rest: Bytes)
    requires HoldsAt(v, q, [44] + (Newline(st) + rest))
    ensures q < |v| && Ended(Peek(v, q)) && Scan(v, q) == Token(ValueSeparator, q, q + 1)
    ensures HoldsAt(v, q + 1 + |Newline(st)|, rest) && Scan(v, q + 1) == Scan(v, q + 1 + |Newline(st)|)
    ensures q + 1 + |Newline(st)| <= |v|
  {
    hide Scan;
    hide HoldsAt;
    hide Ended;
    HoldsConcat(v, q, [44], Newline(st) + rest);
    HoldsFirst(v, q, [44]);
    HoldsConcat(v, q + 1, Newline(st), rest);
    HoldsBounds(v, q + 1, Newline(st));
    ScanByte(v, q, 44, ValueSeparator);
    ScanBlanks(v, q + 1, Newline(st));
  }

  lemma {:induction false} ParseArray(v: Bytes, i: nat, j: Json, st: Style, level: nat)
    requires j.Array? && FloatFree(j)
    requires HoldsAt(v, i, Dump(j, st, level)) && Ended(Peek(v, i + |Dump(j, st, level)|))
    ensures i + |Dump(j, st, level)| <= |v| && Reads(v, i, j, i + |Dump(j, st, level)|, st.floats)
    decreases j, 0, |j.elems| + 1
  {
    hide *;
    if j.elems == [] {
      EmptyArray(v, i, j, st, level);
    } else {
      var deep := Deeper(st, level);
      var elems := DumpElems(j, 0, st, deep);
      var tail := Closing(st, level) + [93];
      ArrayText(j, st, level);
      HoldsConcat(v, i, [91], Newline(st) + (elems + tail));
      HoldsConcat(v, i + 1, Newline(st), elems + tail);
      var p := i + 1 + |Newline(st)|;
      HoldsConcat(v, p, elems, tail);
      var q := p + |elems|;
      NewlineBlank(st);
      ScanBlanks(v, i + 1, Newline(st));
      ScanClosing(v, q, st, level, 93, EndArray);
      var e := q + |Closing(st, level)|;
      ParseDumpElems(v, p, j, 0, st, deep, [], e);
      HoldsFirst(v, i, [91]);
      ElemsStart(v, p, j, st, deep);
      ArrayReads(v, i, p, j, e, st.floats);
      assert i + |Dump(j, st, level)| == e + 1;
    }
  }

  lemma NewlineBlank(st: Style)
    ensures Blanks(Newline(st))
  {
  }

  lemma EmptyArray(v: Bytes, i: nat, j: Json, st: Style, level: nat)
    requires j == Array([]) && HoldsAt(v, i, Dump(j, st, level))
    ensures i + |Dump(j, st, level)| <= |v| && Reads(v, i, j, i + |Dump(j, st, level)|, st.floats)
  {
    hide Scan;
    hide JsonString.Legal;
    hide HoldsAt;
    HoldsConcat(v, i, [91], [93]);
    assert Dump(j, st, level) == [91] + [93];
    HoldsFirst(v, i, [91]);
    HoldsFirst(v, i + 1, [93]);
    ScanFits(v, i);
    ScanByte(v, i, 91, BeginArray);
    ScanByte(v, i + 1, 93, EndArray);
    assert Canonical(j).elems == [];
  }

  lemma ArrayText(j: Json, st: Style, level: nat)
    requires j.Array? && j.elems != []
    ensures Dump(j, st, level) ==
            [91] + (Newline(st) + (DumpElems(j, 0, st, Deeper(st, level)) + (Closing(st, level) + [93])))
  {
    hide DumpElems;
    hide Newline;
    hide Closing;
    hide Deeper;
  }

  lemma ElemsStart(v: Bytes, p: nat, j: Json, st: Style, level: nat)
    requires j.Array? && j.elems != [] && FloatFree(j) && HoldsAt(v, p, DumpElems(j, 0, st, level))
    ensures p <= |v| && Scan(v, p).kind != EndArray && Scan(v, p).kind != ValueSeparator
  {
    hide DumpElems;
    hide Scan;
    hide Opens;
    hide Spaces;
    var d := DumpElems(j, 0, st, level);
    ElemsOpen(j, 0, st, level);
    assert d == d[..level] + d[level..];
    HoldsConcat(v, p, d[..level], d[level..]);
    SpacesSize(level);
    HoldsFirst(v, p + level, d[level..]);
    ScanBlanks(v, p, Spaces(level));
    OpensToken(v, p + level);
  }

  lemma ArrayReads(v: Bytes, i: nat, p: nat, j: Json, e: nat, fl: Floats)
    requires j.Array? && i < p <= |v| && v[i] == 91 && Scan(v, i + 1) == Scan(v, p)
    requires Scan(v, p).kind != EndArray && Scan(v, p).kind != ValueSeparator
    requires ReadsElems(v, p, j.elems, 0, [], e, fl)
    ensures Reads(v, i, j, e + 1, fl)
  {
    hide Scan;
    hide ParseElems;
    hide Canonical;
    hide CanonicalFrom;
    hide Fits;
    ScanFits(v, i);
    ScanFits(v, p);
    ScanByte(v, i, 91, BeginArray);
    CanonicalArray(j);
    assert [] + CanonicalFrom(j.elems, 0) == CanonicalFrom(j.elems, 0);
  }

  // ---------- objects ----------

  ghost predicate Utf8Members(j: Json, ks: seq<Bytes>)
    requires j.Object? && forall k :: k in ks ==> k in j.members
  {
    forall k :: k in ks ==> Utf8.WellFormed(k) && Utf8Only(j.members[k])
  }

  lemma Utf8MembersStep(j: Json, ks: seq<Bytes>)
    requires j.Object? && ks != [] && forall k :: k in ks ==> k in j.members
    ensures Utf8Members(j, ks) <==>
              Utf8.WellFormed(ks[0]) && Utf8Only(j.members[ks[0]]) && Utf8Members(j, ks[1..])
  {
    hide Utf8Only;
    hide Utf8.WellFormed;
    assert forall k :: k in ks <==> k == ks[0] || k in ks[1..];
  }

  /** The members of the keys `ks` are read into `m`, up to the brace at `e`. */
  ghost predicate ReadsMembers(v: Bytes, i: nat, j: Json, ks: seq<Bytes>, m: map<Bytes, Json>, e: nat, fl: Floats)
    requires i <= |v| && j.Object? && forall k :: k in ks ==> k in j.members
  {
    ScanFits(v, i);
    ParseMembers(v, Scan(v, i), m, fl) ==
    if Utf8Members(j, ks) then Ok((Object(CanonicalMembers(j, ks, m)), Scan(v, e + 1))) else Err(InvalidArgument)
  }

  /** A printed key at `i`, its colon at `c`, and its value from `w` on. */
  ghost predicate KeyAt(v: Bytes, i: nat, key: Bytes, c: nat, w: nat) {
    && i <= |v| && c < w <= |v|
    && Scan(v, i).kind == (if Utf8.WellFormed(key) then ValueString else ParseError)
    && (Utf8.WellFormed(key) ==> Fits(v, Scan(v, i)) && GetText(v, Scan(v, i)) == Ok(key) && Scan(v, i).end == c)
    && Scan(v, c) == Token(NameSeparator, c, c + 1) && Scan(v, c + 1) == Scan(v, w)
  }

  lemma ReadsLastMember(v: Bytes, i: nat, c: nat, w: nat, q: nat, j: Json, ks: seq<Bytes>, m: map<Bytes, Json>, e: nat, fl: Floats)
    requires j.Object? && |ks| == 1 && ks[0] in j.members && KeyAt(v, i, ks[0], c, w)
    requires Reads(v, w, j.members[ks[0]], q, fl) && q <= |v| && e < |v| && Scan(v, q) == Token(EndObject, e, e + 1)
    ensures ReadsMembers(v, i, j, ks, m, e, fl)
  {
    hide Scan;
    hide ParseValue;
    hide Canonical;
    hide Fits;
    hide Utf8Only;
    hide GetText;
    hide Utf8.WellFormed;
    ScanFits(v, i);
    ScanFits(v, w);
    ScanFits(v, c);
    ScanFits(v, q);
    Utf8MembersStep(j, ks);
    CanonicalMembersStep(j, ks, m);
    assert ks[1..] == [];
  }

  lemma ReadsMoreMembers(v: Bytes, i: nat, c: nat, w: nat, q: nat, p: nat, j: Json, ks: seq<Bytes>, m: map<Bytes, Json>,
                         e: nat, fl: Floats)
    requires j.Object? && |ks| > 1 && (forall k :: k in ks ==> k in j.members) && KeyAt(v, i, ks[0], c, w)
    requires Reads(v, w, j.members[ks[0]], q, fl) && q < p <= |v|
    requires Scan(v, q) == Token(ValueSeparator, q, q + 1) && Scan(v, q + 1) == Scan(v, p)
    requires ReadsMembers(v, p, j, ks[1..], m[ks[0] := Canonical(j.members[ks[0]])], e, fl)
    ensures ReadsMembers(v, i, j, ks, m, e, fl)
  {
    hide Scan;
    hide ParseValue;
    hide Canonical;
    hide CanonicalMembers;
    hide Utf8Members;
    hide Fits;
    hide Utf8Only;
    hide GetText;
    hide Utf8.WellFormed;
    ScanFits(v, i);
    ScanFits(v, w);
    ScanFits(v, c);
    ScanFits(v, q);
    ScanFits(v, p);
    Utf8MembersStep(j, ks);
    CanonicalMembersStep(j, ks, m);
  }

  lemma Regroup(a: Bytes, b: Bytes, c: Bytes, d: Bytes, e: Bytes, f: Bytes)
    ensures (a + b + c + d + e) + f == a + (b + (c + (d + (e + f))))
  {
  }

  lemma MembersText(j: Json, ks: seq<Bytes>, st: Style, level: nat)
    requires j.Object? && ks != [] && forall k :: k in ks ==> k in j.members
    ensures DumpMembers(j, ks, st, level) ==
            Spaces(level) + (Quoted(ks[0]) + ([58] + (Gap(st) + (Dump(j.members[ks[0]], st, level) +
            if |ks| == 1 then [] else [44] + (Newline(st) + DumpMembers(j, ks[1..], st, level))))))
  {
    hide *;
    MembersUnfold(j, ks, st, level);
    var rest := if |ks| == 1 then [] else [44] + (Newline(st) + DumpMembers(j, ks[1..], st, level));
    Regroup(Spaces(level), Quoted(ks[0]), [58], Gap(st), Dump(j.members[ks[0]], st, level), rest);
  }

  lemma MembersUnfold(j: Json, ks: seq<Bytes>, st: Style, level: nat)
    requires j.Object? && ks != [] && forall k :: k in ks ==> k in j.members
    ensures DumpMembers(j, ks, st, level) ==
            (Spaces(level) + Quoted(ks[0]) + [58] + Gap(st) + Dump(j.members[ks[0]], st, level)) +
            if |ks| == 1 then [] else [44] + (Newline(st) + DumpMembers(j, ks[1..], st, level))
  {
    hide Dump;
    hide Spaces;
    hide Newline;
    hide Gap;
    hide Quoted;
    var here := Spaces(level) + Quoted(ks[0]) + [58] + Gap(st) + Dump(j.members[ks[0]], st, level);
    if |ks| == 1 {
      assert here + [] == here;
    } else {
      var more := DumpMembers(j, ks[1..], st, level);
      assert [44] + Newline(st) + more == [44] + (Newline(st) + more);
    }
  }

  /** The key of a member and what surrounds it. */
  lemma KeyText(v: Bytes, i: nat, level: nat, key: Bytes, st: Style, rest: Bytes)
    requires HoldsAt(v, i, Spaces(level) + (Quoted(key) + ([58] + (Gap(st) + rest))))
    ensures var c := i + level + |Quoted(key)|;
            var w := c + 1 + |Gap(st)|;
            KeyAt(v, i, key, c, w) && HoldsAt(v, w, rest)
  {
    hide Scan;
    hide HoldsAt;
    hide Spaces;
    hide Gap;
    hide Fits;
    hide Utf8.WellFormed;
    hide JsonString.GetString;
    var p := i + level;
    var c := p + |Quoted(key)|;
    HoldsConcat(v, i, Spaces(level), Quoted(key) + ([58] + (Gap(st) + rest)));
    SpacesSize(level);
    ScanBlanks(v, i, Spaces(level));
    HoldsConcat(v, p, Quoted(key), [58] + (Gap(st) + rest));
    HoldsConcat(v, c, [58], Gap(st) + rest);
    HoldsConcat(v, c + 1, Gap(st), rest);
    HoldsFirst(v, c, [58]);
    HoldsBounds(v, c + 1, Gap(st));
    ScanByte(v, c, 58, NameSeparator);
    ScanBlanks(v, c + 1, Gap(st));
    KeyToken(v, p, key);
  }

  lemma KeyToken(v: Bytes, p: nat, key: Bytes)
    requires HoldsAt(v, p, Quoted(key))
    ensures p <= |v|
    ensures Scan(v, p).kind == (if Utf8.WellFormed(key) then ValueString else ParseError)
    ensures Utf8.WellFormed(key) ==>
              Fits(v, Scan(v, p)) && GetText(v, Scan(v, p)) == Ok(key) && Scan(v, p).end == p + |Quoted(key)|
  {
    hide Scan;
    hide TokenAt;
    hide HoldsAt;
    hide Utf8.WellFormed;
    hide JsonString.Escape;
    hide JsonString.GetString;
    hide JsonString.Legal;
    HoldsFirst(v, p, Quoted(key));
    HoldsBounds(v, p, Quoted(key));
    ScanHere(v, p);
    ScanFits(v, p);
    PrintedToken(v, p, key);
    JsonString.GetStringEscape(key);
  }

  lemma MemberFree(j: Json, k: Bytes)
    requires j.Object? && FloatFree(j) && k in j.members
    ensures FloatFree(j.members[k])
  {
  }

  lemma {:induction false} ParseDumpMembers(v: Bytes, i: nat, j: Json, ks: seq<Bytes>, st: Style, level: nat,
                                            m: map<Bytes, Json>, e: nat)
    requires j.Object? && FloatFree(j) && ks != [] && forall k :: k in ks ==> k in j.members
    requires HoldsAt(v, i, DumpMembers(j, ks, st, level))
    requires var end := i + |DumpMembers(j, ks, st, level)|;
             Ended(Peek(v, end)) && e < |v| && Scan(v, end) == Token(EndObject, e, e + 1)
    ensures i <= |v| && ReadsMembers(v, i, j, ks, m, e, st.floats)
    decreases j, 0, |ks|
  {
    hide *;
    var x := j.members[ks[0]];
    var d := Dump(x, st, level);
    MembersText(j, ks, st, level);
    MemberFree(j, ks[0]);
    SpacesSize(level);
    var c := i + level + |Quoted(ks[0])|;
    var w := c + 1 + |Gap(st)|;
    var q := w + |d|;
    if |ks| == 1 {
      assert d + [] == d;
      KeyText(v, i, level, ks[0], st, d);
      KeyBounds(v, i, ks[0], c, w);
      ParseDump(v, w, x, st, level);
      ReadsLastMember(v, i, c, w, q, j, ks, m, e, st.floats);
    } else {
      var rest := DumpMembers(j, ks[1..], st, level);
      KeyText(v, i, level, ks[0], st, d + ([44] + (Newline(st) + rest)));
      KeyBounds(v, i, ks[0], c, w);
      HoldsConcat(v, w, d, [44] + (Newline(st) + rest));
      Comma(v, q, st, rest);
      ParseDump(v, w, x, st, level);
      var r := q + 1 + |Newline(st)|;
      assert i + |DumpMembers(j, ks, st, level)| == r + |rest|;
      ParseDumpMembers(v, r, j, ks[1..], st, level, m[ks[0] := Canonical(x)], e);
      ReadsMoreMembers(v, i, c, w, q, r, j, ks, m, e, st.floats);
    }
  }

  lemma KeyBounds(v: Bytes, i: nat, key: Bytes, c: nat, w: nat)
    requires KeyAt(v, i, key, c, w)
    ensures i <= |v| && c < w <= |v|
  {
  }

  lemma {:induction false} ParseObject(v: Bytes, i: nat, j: Json, st: Style, level: nat)
    requires j.Object? && FloatFree(j)
    requires HoldsAt(v, i, Dump(j, st, level)) && Ended(Peek(v, i + |Dump(j, st, level)|))
    ensures i + |Dump(j, st, level)| <= |v| && Reads(v, i, j, i + |Dump(j, st, level)|, st.floats)
    decreases j, 0, |j.members| + 1
  {
    hide *;
    if j.members == map[] {
      EmptyObject(v, i, j, st, level);
    } else {
      var ks := SortedKeys(j.members.Keys);
      var deep := Deeper(st, level);
      ObjectKeys(j);
      var members := DumpMembers(j, ks, st, deep);
      var tail := Closing(st, level) + [125];
      ObjectText(j, st, level);
      HoldsConcat(v, i, [123], Newline(st) + (members + tail));
      HoldsConcat(v, i + 1, Newline(st), members + tail);
      var p := i + 1 + |Newline(st)|;
      HoldsConcat(v, p, members, tail);
      var q := p + |members|;
      NewlineBlank(st);
      ScanBlanks(v, i + 1, Newline(st));
      ScanClosing(v, q, st, level, 125, EndObject);
      var e := q + |Closing(st, level)|;
      ParseDumpMembers(v, p, j, ks, st, deep, map[], e);
      HoldsFirst(v, i, [123]);
      MembersStart(v, p, j, ks, st, deep);
      ObjectReads(v, i, p, j, e, st.floats);
      assert i + |Dump(j, st, level)| == e + 1;
    }
  }

  lemma ObjectKeys(j: Json)
    requires j.Object? && j.members != map[]
    ensures var ks := SortedKeys(j.members.Keys);
            ks != [] && |ks| == |j.members| && forall k :: k in ks <==> k in j.members
  {
    var k :| k in j.members;
    assert k in SortedKeys(j.members.Keys);
  }

  lemma EmptyObject(v: Bytes, i: nat, j: Json, st: Style, level: nat)
    requires j == Object(map[]) && HoldsAt(v, i, Dump(j, st, level))
    ensures i + |Dump(j, st, level)| <= |v| && Reads(v, i, j, i + |Dump(j, st, level)|, st.floats)
  {
    hide Scan;
    hide JsonString.Legal;
    hide HoldsAt;
    HoldsConcat(v, i, [123], [125]);
    assert Dump(j, st, level) == [123] + [125];
    HoldsFirst(v, i, [123]);
    HoldsFirst(v, i + 1, [125]);
    ScanFits(v, i);
    ScanByte(v, i, 123, BeginObject);
    ScanByte(v, i + 1, 125, EndObject);
    assert Canonical(j).members == map[];
  }

  lemma ObjectText(j: Json, st: Style, level: nat)
    requires j.Object? && j.members != map[]
    ensures forall k :: k in SortedKeys(j.members.Keys) ==> k in j.members
    ensures Dump(j, st, level) ==
            [123] + (Newline(st) + (DumpMembers(j, SortedKeys(j.members.Keys), st, Deeper(st, level)) +
                                    (Closing(st, level) + [125])))
  {
    hide DumpMembers;
    hide Newline;
    hide Closing;
    hide Deeper;
    hide Ascending;
    hide SortedKeys;
  }

  lemma MembersStart(v: Bytes, p: nat, j: Json, ks: seq<Bytes>, st: Style, level: nat)
    requires j.Object? && ks != [] && (forall k :: k in ks ==> k in j.members)
    requires HoldsAt(v, p, DumpMembers(j, ks, st, level))
    ensures p <= |v| && Scan(v, p).kind != EndObject && Scan(v, p).kind != ValueSeparator
  {
    hide *;
    MembersText(j, ks, st, level);
    var d := Dump(j.members[ks[0]], st, level) +
    if |ks| == 1 then [] else [44] + (Newline(st) + DumpMembers(j, ks[1..], st, level));
    KeyText(v, p, level, ks[0], st, d);
    KeyKind(v, p, ks[0], p + level + |Quoted(ks[0])|, p + level + |Quoted(ks[0])| + 1 + |Gap(st)|);
  }

  lemma KeyKind(v: Bytes, i: nat, key: Bytes, c: nat, w: nat)
    requires KeyAt(v, i, key, c, w)
    ensures i <= |v| && (Scan(v, i).kind == ValueString || Scan(v, i).kind == ParseError)
  {
    hide Scan;
    hide Utf8.WellFormed;
  }

  lemma ObjectReads(v: Bytes, i: nat, p: nat, j: Json, e: nat, fl: Floats)
    requires j.Object? && j.members != map[] && i < p <= |v| && v[i] == 123 && Scan(v, i + 1) == Scan(v, p)
    requires Scan(v, p).kind != EndObject && Scan(v, p).kind != ValueSeparator
    requires forall k :: k in SortedKeys(j.members.Keys) ==> k in j.members
    requires ReadsMembers(v, p, j, SortedKeys(j.members.Keys), map[], e, fl)
    ensures Reads(v, i, j, e + 1, fl)
  {
    hide Scan;
    hide ParseMembers;
    hide Canonical;
    hide CanonicalMembers;
    hide Fits;
    hide Ascending;
    hide Utf8.WellFormed;
    ScanFits(v, i);
    ScanFits(v, p);
    ScanByte(v, i, 123, BeginObject);
    CanonicalObject(j);
  }

  // ---------- whole texts ----------

  /**
    Printing at any indentation and parsing again: it succeeds exactly when every
    string and key is UTF-8, and gives the value with its non-negative integers unsigned.
   */
  lemma ParsePrinted(j: Json, st: Style)
    requires FloatFree(j)
    ensures Parse(Dump(j, st, 0), st.floats) == if Utf8Only(j) then Ok(Canonical(j)) else Err(InvalidArgument)
  {
    hide Scan;
    hide Dump;
    hide ParseValue;
    hide Canonical;
    hide Utf8Only;
    hide Ended;
    hide FloatFree;
    var v := Dump(j, st, 0);
    assert v[0..|v|] == v;
    ScanFits(v, 0);
    EndToken(v);
    ParseDump(v, 0, j, st, 0);
  }

  lemma EndToken(v: Bytes)
    ensures Scan(v, |v|) == Token(EndOfInput, |v|, |v| + 1) && Ended(Peek(v, |v|))
  {
  }

  lemma {:induction false} FloatFreeNaN(j: Json)
    requires FloatFree(j)
    ensures NaNFree(j)
  {
    match j
    case Array(es) =>
      forall i | 0 <= i < |es| ensures NaNFree(es[i]) {
        FloatFreeNaN(es[i]);
      }
    case Object(m) =>
      forall k | k in m ensures NaNFree(m[k]) {
        FloatFreeNaN(m[k]);
      }
    case _ =>
  }

  /** The value that comes back is `==` to the one printed. */
  lemma ParsePrintedEqual(j: Json, st: Style)
    requires FloatFree(j) && Utf8Only(j)
    ensures var r := Parse(Dump(j, st, 0), st.floats); r.Ok? && JsonEq(r.value, j)
  {
    hide *;
    ParsePrinted(j, st);
    CanonicalEq(j);
    FloatFreeNaN(j);
  }

  // ---------- whatever parses ----------

  /** Conversions to a double give a number, or null when it is not finite. */
  ghost predicate Numeric(fl: Floats) {
    forall t :: fl.read(t).Float? || fl.read(t).Null?
  }

  lemma ScannedText(v: Bytes, i: nat)
    requires i <= |v| && Scan(v, i).kind == ValueString
    ensures Fits(v, Scan(v, i))
    ensures var s := GetText(v, Scan(v, i)); s.Ok? ==> Utf8.WellFormed(s.value)
  {
    hide SkipBlanks;
    hide Run;
    hide Utf8.WellFormed;
    hide Paired;
    hide AllUnits;
    hide RenderAll;
    hide JsonString.GetString;
    hide JsonString.Legal;
    hide Fits;
    ScanFits(v, i);
    var k := SkipBlanks(v, i);
    StringTokenAt(v, k);
    AcceptedString(v, k + 1);
  }

  lemma StringTokenAt(v: Bytes, k: nat)
    requires TokenAt(v, k).kind == ValueString
    ensures var r := Run(v, k + 1, Text(Utf8.Start)); r.At? && TokenAt(v, k) == Token(ValueString, k, r.quote + 1)
  {
    hide Run;
    hide Number;
    if k < |v| && (v[k] == 45 || IsDigit(v[k])) {
      NumberKinds(v, k);
    }
  }

  ghost predicate Utf8Result(r: Parsed) {
    r.Ok? ==> Utf8Only(r.value.0)
  }

  ghost predicate Utf8Map(m: map<Bytes, Json>) {
    forall k :: k in m ==> Utf8.WellFormed(k) && Utf8Only(m[k])
  }

  lemma Utf8Number(text: Bytes, kind: Kind, fl: Floats)
    requires Numeric(fl) && (kind == ValueInteger ==> text != [])
    ensures Utf8Only(GetNumber(text, kind, fl))
  {
    hide DigitsValue;
  }

  lemma Utf8Appended(es: seq<Json>, x: Json)
    requires Utf8From(es, 0) && Utf8Only(x)
    ensures Utf8From(es + [x], 0) && Utf8Only(Array(es + [x]))
  {
    hide Utf8.WellFormed;
    forall i | 0 <= i < |es + [x]| ensures Utf8Only((es + [x])[i]) {
    }
  }

  lemma Utf8Added(m: map<Bytes, Json>, k: Bytes, x: Json)
    requires Utf8Map(m) && Utf8.WellFormed(k) && Utf8Only(x)
    ensures Utf8Map(m[k := x]) && Utf8Only(Object(m[k := x]))
  {
    hide Utf8.WellFormed;
    var n := m[k := x];
    forall q | q in n ensures Utf8.WellFormed(q) && Utf8Only(n[q]) {
    }
  }

  lemma {:induction false} ParsedValue(v: Bytes, i: nat, fl: Floats)
    requires i <= |v| && Numeric(fl)
    ensures Fits(v, Scan(v, i)) && Utf8Result(ParseValue(v, Scan(v, i), fl))
    decreases |v| + 1 - Scan(v, i).end, 0
  {
    hide Scan;
    hide ParseElems;
    hide ParseMembers;
    hide Utf8.WellFormed;
    hide Numeric;
    hide GetNumber;
    hide GetText;
    hide JsonString.Legal;
    ScanFits(v, i);
    var t := Scan(v, i);
    match t.kind
    case BeginObject =>
      ScanFits(v, t.end);
      ParsedMembers(v, t.end, map[], fl);
    case BeginArray =>
      ScanFits(v, t.end);
      ParsedElems(v, t.end, [], fl);
    case ValueString => ScannedText(v, i);
    case ValueUnsigned => Utf8Number(v[t.start..t.end], t.kind, fl);
    case ValueInteger => Utf8Number(v[t.start..t.end], t.kind, fl);
    case ValueFloat => Utf8Number(v[t.start..t.end], t.kind, fl);
    case _ =>
  }

  lemma {:induction false} ParsedElems(v: Bytes, i: nat, es: seq<Json>, fl: Floats)
    requires i <= |v| && Numeric(fl) && Utf8From(es, 0)
    ensures Fits(v, Scan(v, i)) && Utf8Result(ParseElems(v, Scan(v, i), es, fl))
    decreases |v| + 1 - Scan(v, i).end, 1
  {
    hide Scan;
    hide ParseValue;
    hide Utf8Only;
    hide Utf8From;
    hide Numeric;
    hide JsonString.Legal;
    ScanFits(v, i);
    ParsedValue(v, i, fl);
    var r := ParseValue(v, Scan(v, i), fl);
    if r.Ok? {
      var (x, n) := r.value;
      Utf8Appended(es, x);
      if n.kind == ValueSeparator {
        ScanFits(v, n.end);
        ParsedElems(v, n.end, es + [x], fl);
      }
    }
  }

  lemma {:induction false} ParsedMembers(v: Bytes, i: nat, m: map<Bytes, Json>, fl: Floats)
    requires i <= |v| && Numeric(fl) && Utf8Map(m)
    ensures Fits(v, Scan(v, i)) && Utf8Result(ParseMembers(v, Scan(v, i), m, fl))
    decreases |v| + 1 - Scan(v, i).end, 1
  {
    hide Scan;
    hide ParseValue;
    hide Utf8Only;
    hide Utf8Map;
    hide Utf8.WellFormed;
    hide Numeric;
    hide GetText;
    hide JsonString.Legal;
    ScanFits(v, i);
    var t := Scan(v, i);
    if KeyAndColon(v, t).Ok? {
      ScannedText(v, i);
      var c := NextToken(v, t);
      ScanFits(v, c.end);
      ParsedValue(v, c.end, fl);
      var r := ParseValue(v, Scan(v, c.end), fl);
      if r.Ok? {
        var (x, n) := r.value;
        var key := GetText(v, t).value;
        Utf8Added(m, key, x);
        if n.kind == ValueSeparator {
          ScanFits(v, n.end);
          ParsedMembers(v, n.end, m[key := x], fl);
        }
      }
    }
  }

  /** Every string and key of a parsed value is UTF-8, whatever the text was. */
  lemma ParsedUtf8(v: Bytes, fl: Floats)
    requires Numeric(fl) && Parse(v, fl).Ok?
    ensures Utf8Only(Parse(v, fl).value)
  {
    hide Scan;
    hide ParseValue;
    hide Utf8Only;
    hide Numeric;
    ParsedValue(v, 0, fl);
  }

  /** What was parsed can be printed and parsed again, and only its integers' signedness may change. */
  lemma Reparse(v: Bytes, st: Style)
    requires Numeric(st.floats) && Parse(v, st.floats).Ok? && FloatFree(Parse(v, st.floats).value)
    ensures Parse(Dump(Parse(v, st.floats).value, st, 0), st.floats) == Ok(Canonical(Parse(v, st.floats).value))
  {
    hide *;
    ParsedUtf8(v, st.floats);
    ParsePrinted(Parse(v, st.floats).value, st);
  }
}
