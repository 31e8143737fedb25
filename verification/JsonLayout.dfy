/**
  Pretty printing: the indented text is the compact text with line breaks and
  spaces put in, as a reformatter would that looks at the brackets, commas and
  colons outside strings only.
 */
module JsonLayout {
  import opened JsonValue
  import opened Binary
  import opened JsonPointer
  import JsonString
  import opened StringScan
  import JsonTextLaw
  import opened JsonLexer
  import opened JsonText

  /** Outside strings, inside one, or after a backslash inside one. */
  datatype Place = Outside | Inside | Escaping

  /** The spaces of a nesting depth: the step for every level, in 32 bits. */
  function Indent(depth: nat, step: nat): Bytes {
    Spaces(Level(depth, step))
  }

  function Level(depth: nat, step: nat): nat {
    (depth * step) % 0x1_0000_0000
  }

  predicate Opening(c: byte) {
    c == 91 || c == 123
  }

  predicate ClosingMark(c: byte) {
    c == 93 || c == 125
  }

  /** The text from `i` on with line breaks and spaces put in. */
  function Reformat(v: Bytes, i: nat, depth: nat, place: Place, step: nat): Bytes
    decreases if i <= |v| then |v| - i else 0
  {
    if i >= |v| then [] else
      var c := v[i];
      match place
      case Inside => [c] + Reformat(v, i + 1, depth, if c == 34 then Outside else if c == 92 then Escaping else Inside, step)
      case Escaping => [c] + Reformat(v, i + 1, depth, Inside, step)
      case Outside =>
        if c == 34 then [c] + Reformat(v, i + 1, depth, Inside, step)
        else if Opening(c) && i + 1 < |v| && v[i + 1] == c as int + 2 then
          [c, v[i + 1]] + Reformat(v, i + 2, depth, Outside, step)
        else if Opening(c) then
          [c, 10] + Indent(depth + 1, step) + Reformat(v, i + 1, depth + 1, Outside, step)
        else if ClosingMark(c) then
          var outer := if depth == 0 then 0 else depth - 1;
          [10] + Indent(outer, step) + [c] + Reformat(v, i + 1, outer, Outside, step)
        else if c == 44 then [44, 10] + Indent(depth, step) + Reformat(v, i + 1, depth, Outside, step)
        else if c == 58 then [58, 32] + Reformat(v, i + 1, depth, Outside, step)
        else [c] + Reformat(v, i + 1, depth, Outside, step)
  }

  // ---------- runs of bytes that stay as they are ----------

  predicate Ordinary(s: Bytes) {
    forall k :: 0 <= k < |s| ==> s[k] != 34 && !Opening(s[k]) && !ClosingMark(s[k]) && s[k] != 44 && s[k] != 58
  }

  lemma {:induction false} OrdinaryRun(v: Bytes, i: nat, s: Bytes, depth: nat, step: nat)
    requires HoldsAt(v, i, s) && Ordinary(s)
    ensures Reformat(v, i, depth, Outside, step) == s + Reformat(v, i + |s|, depth, Outside, step)
    decreases |s|
  {
    hide HoldsAt;
    hide Indent;
    if s != [] {
      HoldsTail(v, i, s);
      HoldsFirst(v, i, s);
      HoldsBounds(v, i, s);
      OrdinaryRun(v, i + 1, s[1..], depth, step);
      assert s == [s[0]] + s[1..];
    } else {
      assert [] + Reformat(v, i, depth, Outside, step) == Reformat(v, i, depth, Outside, step);
    }
  }

  lemma InsideStep(v: Bytes, i: nat, depth: nat, step: nat)
    requires i < |v|
    ensures v[i] != 34 && v[i] != 92 ==>
              Reformat(v, i, depth, Inside, step) == [v[i]] + Reformat(v, i + 1, depth, Inside, step)
    ensures v[i] == 34 ==> Reformat(v, i, depth, Inside, step) == [34] + Reformat(v, i + 1, depth, Outside, step)
    ensures v[i] == 92 && i + 1 < |v| ==>
              Reformat(v, i, depth, Inside, step) == [92, v[i + 1]] + Reformat(v, i + 2, depth, Inside, step)
  {
    if v[i] == 92 && i + 1 < |v| {
      assert Reformat(v, i + 1, depth, Escaping, step) == [v[i + 1]] + Reformat(v, i + 2, depth, Inside, step);
      assert [92] + ([v[i + 1]] + Reformat(v, i + 2, depth, Inside, step))
          == [92, v[i + 1]] + Reformat(v, i + 2, depth, Inside, step);
    }
  }

  predicate Quiet(s: Bytes) {
    forall k :: 0 <= k < |s| ==> s[k] != 34 && s[k] != 92
  }

  lemma {:induction false} QuietRun(v: Bytes, i: nat, s: Bytes, depth: nat, step: nat)
    requires HoldsAt(v, i, s) && Quiet(s)
    ensures Reformat(v, i, depth, Inside, step) == s + Reformat(v, i + |s|, depth, Inside, step)
    decreases |s|
  {
    hide HoldsAt;
    hide Reformat;
    if s != [] {
      HoldsTail(v, i, s);
      HoldsFirst(v, i, s);
      HoldsBounds(v, i, s);
      InsideStep(v, i, depth, step);
      QuietRun(v, i + 1, s[1..], depth, step);
      assert s == [s[0]] + s[1..];
    } else {
      assert [] + Reformat(v, i, depth, Inside, step) == Reformat(v, i, depth, Inside, step);
    }
  }

  /** What the printer writes for a byte: one quiet byte, or a backslash, a byte, and quiet bytes. */
  lemma EscapeShape(c: byte)
    ensures var e := JsonString.EscapeByte(c);
            e != [] && if e[0] == 92 then |e| >= 2 && Quiet(e[2..]) else Quiet(e)
  {
  }

  lemma EscapeByteRun(v: Bytes, i: nat, c: byte, depth: nat, step: nat)
    requires HoldsAt(v, i, JsonString.EscapeByte(c))
    ensures var e := JsonString.EscapeByte(c);
            Reformat(v, i, depth, Inside, step) == e + Reformat(v, i + |e|, depth, Inside, step)
  {
    hide HoldsAt;
    hide Reformat;
    hide JsonString.EscapeByte;
    hide Quiet;
    var e := JsonString.EscapeByte(c);
    EscapeShape(c);
    if e[0] == 92 {
      assert e == [92, e[1]] + e[2..];
      HoldsConcat(v, i, [92, e[1]], e[2..]);
      HoldsFirst(v, i, [92, e[1]]);
      HoldsTail(v, i, [92, e[1]]);
      HoldsFirst(v, i + 1, [92, e[1]][1..]);
      InsideStep(v, i, depth, step);
      QuietRun(v, i + 2, e[2..], depth, step);
      assert [92, e[1]] + (e[2..] + Reformat(v, i + |e|, depth, Inside, step)) == e + Reformat(v, i + |e|, depth, Inside, step);
    } else {
      QuietRun(v, i, e, depth, step);
    }
  }

  lemma {:induction false} EscapeRun(v: Bytes, i: nat, s: Bytes, depth: nat, step: nat)
    requires HoldsAt(v, i, JsonString.Escape(s) + [34])
    ensures var e := JsonString.Escape(s) + [34];
            Reformat(v, i, depth, Inside, step) == e + Reformat(v, i + |e|, depth, Outside, step)
    decreases |s|
  {
    hide HoldsAt;
    hide Reformat;
    hide JsonString.EscapeByte;
    if s == [] {
      assert JsonString.Escape(s) + [34] == [34];
      HoldsFirst(v, i, [34]);
      InsideStep(v, i, depth, step);
    } else {
      var e, rest := JsonString.EscapeByte(s[0]), JsonString.Escape(s[1..]) + [34];
      assert JsonString.Escape(s) + [34] == e + rest;
      HoldsConcat(v, i, e, rest);
      EscapeByteRun(v, i, s[0], depth, step);
      EscapeRun(v, i + |e|, s[1..], depth, step);
      assert e + (rest + Reformat(v, i + |e| + |rest|, depth, Outside, step))
          == (e + rest) + Reformat(v, i + |e| + |rest|, depth, Outside, step);
    }
  }

  lemma QuotedRun(v: Bytes, i: nat, s: Bytes, depth: nat, step: nat)
    requires HoldsAt(v, i, Quoted(s))
    ensures Reformat(v, i, depth, Outside, step) == Quoted(s) + Reformat(v, i + |Quoted(s)|, depth, Outside, step)
  {
    hide HoldsAt;
    hide JsonString.Escape;
    hide Indent;
    var e := JsonString.Escape(s) + [34];
    assert Quoted(s) == [34] + e;
    HoldsConcat(v, i, [34], e);
    HoldsFirst(v, i, [34]);
    EscapeRun(v, i + 1, s, depth, step);
    assert [34] + (e + Reformat(v, i + 1 + |e|, depth, Outside, step)) == ([34] + e) + Reformat(v, i + 1 + |e|, depth, Outside, step);
  }

  // ---------- punctuation ----------

  lemma MarkStep(v: Bytes, i: nat, depth: nat, step: nat)
    requires i < |v|
    ensures Opening(v[i]) && i + 1 < |v| && v[i + 1] != v[i] as int + 2 ==>
              Reformat(v, i, depth, Outside, step) ==
              [v[i], 10] + Indent(depth + 1, step) + Reformat(v, i + 1, depth + 1, Outside, step)
    ensures Opening(v[i]) && i + 1 < |v| && v[i + 1] == v[i] as int + 2 ==>
              Reformat(v, i, depth, Outside, step) == [v[i], v[i + 1]] + Reformat(v, i + 2, depth, Outside, step)
    ensures ClosingMark(v[i]) && depth > 0 ==>
              Reformat(v, i, depth, Outside, step) ==
              [10] + Indent(depth - 1, step) + [v[i]] + Reformat(v, i + 1, depth - 1, Outside, step)
    ensures v[i] == 44 ==>
              Reformat(v, i, depth, Outside, step) == [44, 10] + Indent(depth, step) + Reformat(v, i + 1, depth, Outside, step)
    ensures v[i] == 58 ==>
              Reformat(v, i, depth, Outside, step) == [58, 32] + Reformat(v, i + 1, depth, Outside, step)
  {
    hide Indent;
  }

  // ---------- printed values ----------

  function Compact(fl: Floats): Style {
    Style(false, 0, fl)
  }

  function Pretty(step: nat, fl: Floats): Style {
    Style(true, step, fl)
  }

  lemma Levels(depth: nat, step: nat, fl: Floats)
    ensures Deeper(Pretty(step, fl), Level(depth, step)) == Level(depth + 1, step)
    ensures Deeper(Compact(fl), 0) == 0
  {
    var a := depth * step;
    assert (depth + 1) * step == a + step;
    WrapAdd(a, step);
  }

  lemma WrapAdd(a: nat, b: nat)
    ensures (a % 0x1_0000_0000 + b) % 0x1_0000_0000 == (a + b) % 0x1_0000_0000
  {
  }

  lemma Blankness(step: nat, fl: Floats)
    ensures !Compact(fl).pretty && Newline(Compact(fl)) == [] && Gap(Compact(fl)) == [] && Closing(Compact(fl), 0) == [] && Spaces(0) == []
    ensures Newline(Pretty(step, fl)) == [10] && Gap(Pretty(step, fl)) == [32]
    ensures forall n :: Closing(Pretty(step, fl), n) == [10] + Spaces(n)
  {
  }

  lemma {:induction false} DecimalOrdinary(n: nat)
    ensures Ordinary(Decimal(n))
  {
    hide Decimal;
    var ds := Decimal(n);
    forall k | 0 <= k < |ds| ensures IsDigit(ds[k]) {
    }
  }

  lemma ScalarRun(v: Bytes, i: nat, j: Json, depth: nat, step: nat, fl: Floats)
    requires FloatFree(j) && !j.Array? && !j.Object? && HoldsAt(v, i, Dump(j, Compact(fl), 0))
    ensures Dump(j, Pretty(step, fl), Level(depth, step)) == Dump(j, Compact(fl), 0)
    ensures Reformat(v, i, depth, Outside, step) ==
            Dump(j, Compact(fl), 0) + Reformat(v, i + |Dump(j, Compact(fl), 0)|, depth, Outside, step)
  {
    hide HoldsAt;
    hide Reformat;
    hide Decimal;
    hide Quoted;
    hide Level;
    var d := Dump(j, Compact(fl), 0);
    match j
    case String(s) => QuotedRun(v, i, s, depth, step);
    case Int(n) =>
      DecimalOrdinary(if n < 0 then 0 - n else n);
      OrdinaryRun(v, i, d, depth, step);
    case Uint(n) =>
      DecimalOrdinary(n);
      OrdinaryRun(v, i, d, depth, step);
    case _ => OrdinaryRun(v, i, d, depth, step);
  }

  // ---------- arrays and objects ----------

  lemma Join(a: Bytes, b: Bytes, c: Bytes)
    ensures (a + b) + c == a + (b + c)
  {
  }

  /** The text of a value between two compact pieces, laid out. */
  lemma {:induction false} LayoutOf(v: Bytes, i: nat, j: Json, depth: nat, step: nat, fl: Floats)
    requires FloatFree(j) && HoldsAt(v, i, Dump(j, Compact(fl), 0))
    ensures Reformat(v, i, depth, Outside, step) ==
            Dump(j, Pretty(step, fl), Level(depth, step)) +
            Reformat(v, i + |Dump(j, Compact(fl), 0)|, depth, Outside, step)
    decreases j, 1, 0
  {
    hide *;
    if j.Array? {
      ArrayLayout(v, i, j, depth, step, fl);
    } else if j.Object? {
      ObjectLayout(v, i, j, depth, step, fl);
    } else {
      ScalarRun(v, i, j, depth, step, fl);
    }
  }

  lemma {:induction false} ElemsLayout(v: Bytes, i: nat, j: Json, k: nat, depth: nat, step: nat, fl: Floats)
    requires j.Array? && FloatFree(j) && k < |j.elems| && HoldsAt(v, i, DumpElems(j, k, Compact(fl), 0))
    ensures Indent(depth, step) + Reformat(v, i, depth, Outside, step) ==
            DumpElems(j, k, Pretty(step, fl), Level(depth, step)) +
            Reformat(v, i + |DumpElems(j, k, Compact(fl), 0)|, depth, Outside, step)
    decreases j, 0, |j.elems| - k
  {
    hide *;
    var x, c, p := j.elems[k], Compact(fl), Pretty(step, fl);
    var d, L := Dump(x, c, 0), Level(depth, step);
    Blankness(step, fl);
    IndentIs(depth, step);
    JsonTextLaw.ElemsText(j, k, c, 0);
    JsonTextLaw.ElemsText(j, k, p, L);
    JsonTextLaw.ElementFree(j, k);
    if k + 1 == |j.elems| {
      assert DumpElems(j, k, c, 0) == d;
      assert DumpElems(j, k, p, L) == Spaces(L) + Dump(x, p, L);
      LayoutOf(v, i, x, depth, step, fl);
      Join(Spaces(L), Dump(x, p, L), Reformat(v, i + |d|, depth, Outside, step));
    } else {
      var rest := DumpElems(j, k + 1, c, 0);
      assert DumpElems(j, k, c, 0) == d + ([44] + rest);
      HoldsConcat(v, i, d, [44] + rest);
      LayoutOf(v, i, x, depth, step, fl);
      var q := i + |d|;
      HoldsConcat(v, q, [44], rest);
      HoldsFirst(v, q, [44]);
      MarkStep(v, q, depth, step);
      ElemsLayout(v, q + 1, j, k + 1, depth, step, fl);
      CommaPieces(Spaces(L), Dump(x, p, L), Reformat(v, q + 1, depth, Outside, step),
                  DumpElems(j, k + 1, p, L), Reformat(v, q + 1 + |rest|, depth, Outside, step));
    }
  }

  lemma IndentIs(depth: nat, step: nat)
    ensures Indent(depth, step) == Spaces(Level(depth, step))
  {
  }

  lemma CommaPieces(s: Bytes, d: Bytes, r: Bytes, more: Bytes, e: Bytes)
    requires s + r == more + e
    ensures s + (d + ([44, 10] + s + r)) == (s + (d + ([44] + ([10] + more)))) + e
  {
    assert [44, 10] + s + r == [44, 10] + (s + r) == [44, 10] + more + e;
    assert [44, 10] + more == [44] + ([10] + more);
  }

  /** The brackets around what has been laid out. */
  lemma BracketPieces(o: byte, s: Bytes, r: Bytes, inner: Bytes, t: Bytes, z: byte, e: Bytes)
    requires s + r == inner + ([10] + t + [z] + e)
    ensures [o, 10] + s + r == ([o] + ([10] + (inner + (([10] + t) + [z])))) + e
  {
    assert [o, 10] + s + r == [o, 10] + (s + r);
    assert [o, 10] == [o] + [10];
  }

  lemma {:induction false} ArrayLayout(v: Bytes, i: nat, j: Json, depth: nat, step: nat, fl: Floats)
    requires j.Array? && FloatFree(j) && HoldsAt(v, i, Dump(j, Compact(fl), 0))
    ensures Reformat(v, i, depth, Outside, step) ==
            Dump(j, Pretty(step, fl), Level(depth, step)) +
            Reformat(v, i + |Dump(j, Compact(fl), 0)|, depth, Outside, step)
    decreases j, 0, |j.elems| + 1
  {
    hide *;
    var c, p, L := Compact(fl), Pretty(step, fl), Level(depth, step);
    Blankness(step, fl);
    Levels(depth, step, fl);
    AreOpening();
    if j.elems == [] {
      EmptyTexts(j, c, p, L);
      PairHeld(v, i, 91, 93);
      MarkStep(v, i, depth, step);
    } else {
      JsonTextLaw.ArrayText(j, c, 0);
      JsonTextLaw.ArrayText(j, p, L);
      var elems := DumpElems(j, 0, c, 0);
      assert Dump(j, c, 0) == [91] + (elems + [93]);
      HoldsConcat(v, i, [91], elems + [93]);
      HoldsConcat(v, i + 1, elems, [93]);
      JsonTextLaw.ElemsOpen(j, 0, c, 0);
      HoldsFirst(v, i, [91]);
      HoldsFirst(v, i + 1, elems);
      NoCloser(elems[0]);
      MarkStep(v, i, depth, step);
      ElemsLayout(v, i + 1, j, 0, depth + 1, step, fl);
      var q := i + 1 + |elems|;
      HoldsFirst(v, q, [93]);
      MarkStep(v, q, depth + 1, step);
      IndentIs(depth, step);
      BracketPieces(91, Indent(depth + 1, step), Reformat(v, i + 1, depth + 1, Outside, step),
                    DumpElems(j, 0, p, Level(depth + 1, step)), Spaces(L), 93, Reformat(v, q + 1, depth, Outside, step));
    }
  }

  lemma AreOpening()
    ensures Opening(91) && Opening(123) && ClosingMark(93) && ClosingMark(125)
  {
  }

  lemma NoCloser(c: byte)
    requires JsonTextLaw.Opens(c)
    ensures c != 93 && c != 125
  {
  }

  lemma EmptyTexts(j: Json, c: Style, p: Style, level: nat)
    ensures j == Array([]) ==> Dump(j, c, 0) == [91, 93] && Dump(j, p, level) == [91, 93]
    ensures j == Object(map[]) ==> Dump(j, c, 0) == [123, 125] && Dump(j, p, level) == [123, 125]
  {
  }

  lemma PairHeld(v: Bytes, i: nat, a: byte, b: byte)
    requires HoldsAt(v, i, [a, b])
    ensures i + 1 < |v| && v[i] == a && v[i + 1] == b
  {
    assert v[i..i + 2][0] == a && v[i..i + 2][1] == b;
  }

  lemma ColonPieces(s: Bytes, k: Bytes, d: Bytes, e: Bytes)
    ensures s + (k + ([58, 32] + (d + e))) == (s + (k + ([58] + ([32] + d)))) + e
  {
    assert [58, 32] + (d + e) == [58] + ([32] + d) + e;
  }

  lemma MemberPieces(s: Bytes, k: Bytes, d: Bytes, r: Bytes, more: Bytes, e: Bytes)
    requires s + r == more + e
    ensures s + (k + ([58, 32] + (d + ([44, 10] + s + r)))) == (s + (k + ([58] + ([32] + (d + ([44] + ([10] + more))))))) + e
  {
    assert [44, 10] + s + r == [44, 10] + (s + r) == ([44] + ([10] + more)) + e;
    ColonPieces(s, k, d + ([44] + ([10] + more)), e);
    Join(d, [44] + ([10] + more), e);
  }

  lemma {:induction false} MembersLayout(v: Bytes, i: nat, j: Json, ks: seq<Bytes>, depth: nat, step: nat, fl: Floats)
    requires j.Object? && FloatFree(j) && ks != [] && (forall k :: k in ks ==> k in j.members)
    requires HoldsAt(v, i, DumpMembers(j, ks, Compact(fl), 0))
    ensures Indent(depth, step) + Reformat(v, i, depth, Outside, step) ==
            DumpMembers(j, ks, Pretty(step, fl), Level(depth, step)) +
            Reformat(v, i + |DumpMembers(j, ks, Compact(fl), 0)|, depth, Outside, step)
    decreases j, 0, |ks|
  {
    hide *;
    var x, c, p := j.members[ks[0]], Compact(fl), Pretty(step, fl);
    var d, L, key := Dump(x, c, 0), Level(depth, step), Quoted(ks[0]);
    Blankness(step, fl);
    IndentIs(depth, step);
    JsonTextLaw.MembersText(j, ks, c, 0);
    JsonTextLaw.MembersText(j, ks, p, L);
    JsonTextLaw.MemberFree(j, ks[0]);
    var w := i + |key| + 1;
    var q := w + |d|;
    if |ks| == 1 {
      assert DumpMembers(j, ks, c, 0) == key + ([58] + d);
      KeyLayout(v, i, ks[0], d, depth, step);
      LayoutOf(v, w, x, depth, step, fl);
      assert DumpMembers(j, ks, p, L) == Spaces(L) + (key + ([58] + ([32] + Dump(x, p, L))));
      ColonPieces(Spaces(L), key, Dump(x, p, L), Reformat(v, q, depth, Outside, step));
    } else {
      var rest := DumpMembers(j, ks[1..], c, 0);
      assert DumpMembers(j, ks, c, 0) == key + ([58] + (d + ([44] + rest)));
      KeyLayout(v, i, ks[0], d + ([44] + rest), depth, step);
      HoldsConcat(v, w, d, [44] + rest);
      LayoutOf(v, w, x, depth, step, fl);
      HoldsConcat(v, q, [44], rest);
      HoldsFirst(v, q, [44]);
      MarkStep(v, q, depth, step);
      MembersLayout(v, q + 1, j, ks[1..], depth, step, fl);
      MemberPieces(Spaces(L), key, Dump(x, p, L), Reformat(v, q + 1, depth, Outside, step),
                   DumpMembers(j, ks[1..], p, L), Reformat(v, q + 1 + |rest|, depth, Outside, step));
    }
  }

  lemma KeyLayout(v: Bytes, i: nat, k: Bytes, rest: Bytes, depth: nat, step: nat)
    requires HoldsAt(v, i, Quoted(k) + ([58] + rest))
    ensures var w := i + |Quoted(k)| + 1;
            && HoldsAt(v, w, rest)
            && Reformat(v, i, depth, Outside, step) == Quoted(k) + ([58, 32] + Reformat(v, w, depth, Outside, step))
  {
    hide *;
    HoldsConcat(v, i, Quoted(k), [58] + rest);
    var q := i + |Quoted(k)|;
    HoldsConcat(v, q, [58], rest);
    HoldsFirst(v, q, [58]);
    QuotedRun(v, i, k, depth, step);
    MarkStep(v, q, depth, step);
  }

  lemma {:induction false} ObjectLayout(v: Bytes, i: nat, j: Json, depth: nat, step: nat, fl: Floats)
    requires j.Object? && FloatFree(j) && HoldsAt(v, i, Dump(j, Compact(fl), 0))
    ensures Reformat(v, i, depth, Outside, step) ==
            Dump(j, Pretty(step, fl), Level(depth, step)) +
            Reformat(v, i + |Dump(j, Compact(fl), 0)|, depth, Outside, step)
    decreases j, 0, |j.members| + 1
  {
    hide *;
    var c, p, L := Compact(fl), Pretty(step, fl), Level(depth, step);
    Blankness(step, fl);
    Levels(depth, step, fl);
    AreOpening();
    if j.members == map[] {
      EmptyTexts(j, c, p, L);
      PairHeld(v, i, 123, 125);
      MarkStep(v, i, depth, step);
    } else {
      var ks := SortedKeys(j.members.Keys);
      JsonTextLaw.ObjectKeys(j);
      JsonTextLaw.ObjectText(j, c, 0);
      JsonTextLaw.ObjectText(j, p, L);
      var members := DumpMembers(j, ks, c, 0);
      assert Dump(j, c, 0) == [123] + (members + [125]);
      HoldsConcat(v, i, [123], members + [125]);
      HoldsConcat(v, i + 1, members, [125]);
      MembersOpen(j, ks, c);
      HoldsFirst(v, i, [123]);
      HoldsFirst(v, i + 1, members);
      MarkStep(v, i, depth, step);
      MembersLayout(v, i + 1, j, ks, depth + 1, step, fl);
      var q := i + 1 + |members|;
      HoldsFirst(v, q, [125]);
      MarkStep(v, q, depth + 1, step);
      IndentIs(depth, step);
      BracketPieces(123, Indent(depth + 1, step), Reformat(v, i + 1, depth + 1, Outside, step),
                    DumpMembers(j, ks, p, Level(depth + 1, step)), Spaces(L), 125, Reformat(v, q + 1, depth, Outside, step));
    }
  }

  lemma MembersOpen(j: Json, ks: seq<Bytes>, c: Style)
    requires j.Object? && ks != [] && (forall k :: k in ks ==> k in j.members) && !c.pretty
    ensures var d := DumpMembers(j, ks, c, 0); d != [] && d[0] == 34
  {
    hide Dump;
    hide JsonString.Escape;
    hide DumpMembers;
    JsonTextLaw.MembersText(j, ks, c, 0);
    assert Spaces(0) == [];
  }

  /** The indented text is the compact text reformatted. */
  lemma PrettyIsReformatted(j: Json, step: nat, fl: Floats)
    requires FloatFree(j)
    ensures Dump(j, Pretty(step, fl), 0) == Reformat(Dump(j, Compact(fl), 0), 0, 0, Outside, step)
  {
    hide *;
    var v := Dump(j, Compact(fl), 0);
    WholeHeld(v);
    LayoutOf(v, 0, j, 0, step, fl);
    LevelZero(step);
    ReformatEnd(v, step);
    assert Dump(j, Pretty(step, fl), 0) + [] == Dump(j, Pretty(step, fl), 0);
  }

  lemma WholeHeld(v: Bytes)
    ensures HoldsAt(v, 0, v)
  {
    assert v[0..|v|] == v;
  }

  lemma LevelZero(step: nat)
    ensures Level(0, step) == 0
  {
  }

  lemma ReformatEnd(v: Bytes, step: nat)
    ensures Reformat(v, |v|, 0, Outside, step) == []
  {
  }
}
