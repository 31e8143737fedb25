/**
  The text printer and parser (json.hpp `numtostr`, `dump`, `parse_internal`).
  Conversions between doubles and text are foreign calls: they are parameters.
 */
module JsonText {
  import opened JsonValue
  import opened Binary
  import opened JsonPointer
  import JsonString
  import StringScan
  import Utf8
  import opened JsonLexer

  /** snprintf on a double, and what strtod makes of a number token. */
  datatype Floats = Floats(write: uint64 -> Bytes, read: Bytes -> Json)

  // ---------- printing ----------

  function Spaces(n: nat): (r: Bytes)
    ensures |r| == n && Blanks(r)
  {
    seq(n, _ => 0x20)
  }

  /** An integer in decimal. */
  function IntText(n: int): Bytes {
    if n < 0 then [45] + Decimal(-n) else Decimal(n)
  }

  function Quoted(s: Bytes): Bytes {
    [34] + JsonString.Escape(s) + [34]
  }

  /** Indentation settings: the step is an unsigned int, so levels wrap at 2^32. */
  datatype Style = Style(pretty: bool, step: nat, floats: Floats)

  function Deeper(st: Style, level: nat): nat {
    if st.pretty then (level + st.step) % 0x1_0000_0000 else level
  }

  function Newline(st: Style): (r: Bytes)
    ensures Blanks(r)
  {
    if st.pretty then [0x0A] else []
  }

  /** After a colon. */
  function Gap(st: Style): (r: Bytes)
    ensures Blanks(r)
  {
    if st.pretty then [0x20] else []
  }

  /** Before a closing bracket. */
  function Closing(st: Style, level: nat): (r: Bytes)
    ensures Blanks(r)
  {
    Newline(st) + Spaces(level)
  }

  function Dump(j: Json, st: Style, level: nat): Bytes
    decreases j, 1, 0
  {
    match j
    case Null => [110, 117, 108, 108]
    case Bool(b) => if b then [116, 114, 117, 101] else [102, 97, 108, 115, 101]
    case Int(i) => IntText(i)
    case Uint(u) => IntText(u)
    case Float(bits) => st.floats.write(bits)
    case String(s) => Quoted(s)
    case Array(es) =>
      if es == [] then [91, 93]
      else [91] + Newline(st) + DumpElems(j, 0, st, Deeper(st, level)) + Closing(st, level) + [93]
    case Object(m) =>
      if m == map[] then [123, 125]
      else [123] + Newline(st) + DumpMembers(j, SortedKeys(m.Keys), st, Deeper(st, level)) + Closing(st, level) + [125]
  }

  function DumpElems(j: Json, k: nat, st: Style, level: nat): Bytes
    requires j.Array? && k < |j.elems|
    decreases j, 0, |j.elems| - k
  {
    var here := Spaces(level) + Dump(j.elems[k], st, level);
    if k + 1 == |j.elems| then here else here + ([44] + Newline(st) + DumpElems(j, k + 1, st, level))
  }

  function DumpMembers(j: Json, ks: seq<Bytes>, st: Style, level: nat): Bytes
    requires j.Object? && forall k :: k in ks ==> k in j.members
    decreases j, 0, |ks|
  {
    if ks == [] then [] else
      var here := Spaces(level) + Quoted(ks[0]) + [58] + Gap(st) +
                  Dump(j.members[ks[0]], st, level);
      if |ks| == 1 then here else here + ([44] + Newline(st) + DumpMembers(j, ks[1..], st, level))
  }

  // ---------- parsing ----------

  /** The value of a number token; integers out of range are read as doubles. */
  function GetNumber(text: Bytes, kind: Kind, fl: Floats): Json
    requires kind == ValueInteger ==> text != []
  {
    if kind == ValueUnsigned && 0 <= DigitsValue(text) < 0x1_0000_0000_0000_0000 then Uint(DigitsValue(text))
    else if kind == ValueInteger && -0x8000_0000_0000_0000 <= -DigitsValue(text[1..]) <= 0 then Int(-DigitsValue(text[1..]))
    else fl.read(text)
  }

  function GetText(v: Bytes, t: Token): Result<Bytes>
    requires Fits(v, t) && t.kind == ValueString
  {
    JsonString.GetString(v[t.start + 1..t.end - 1])
  }

  function NextToken(v: Bytes, t: Token): (n: Token)
    requires Fits(v, t) && t.kind != EndOfInput
    ensures Fits(v, n) && n.end > t.end
  {
    ScanFits(v, t.end);
    Scan(v, t.end)
  }

  type Parsed = Result<(Json, Token)>

  predicate Later(v: Bytes, t: Token, r: Parsed) {
    r.Ok? ==> Fits(v, r.value.1) && r.value.1.end > t.end
  }

  /** The value whose first token is `t`, and the token after it. */
  function ParseValue(v: Bytes, t: Token, fl: Floats): (r: Parsed)
    requires Fits(v, t)
    ensures Later(v, t, r)
    decreases |v| + 1 - t.end, 0
  {
    match t.kind
    case BeginObject =>
      var n := NextToken(v, t);
      if n.kind == EndObject then Ok((Object(map[]), NextToken(v, n)))
      else if n.kind == ValueSeparator then Err(InvalidArgument)
      else ParseMembers(v, n, map[], fl)
    case BeginArray =>
      var n := NextToken(v, t);
      if n.kind == EndArray then Ok((Array([]), NextToken(v, n)))
      else if n.kind == ValueSeparator then Err(InvalidArgument)
      else ParseElems(v, n, [], fl)
    case LiteralNull => Ok((Null, NextToken(v, t)))
    case LiteralTrue => Ok((Bool(true), NextToken(v, t)))
    case LiteralFalse => Ok((Bool(false), NextToken(v, t)))
    case ValueString =>
      var s :- GetText(v, t);
      Ok((String(s), NextToken(v, t)))
    case ValueUnsigned => Ok((GetNumber(v[t.start..t.end], t.kind, fl), NextToken(v, t)))
    case ValueInteger => Ok((GetNumber(v[t.start..t.end], t.kind, fl), NextToken(v, t)))
    case ValueFloat => Ok((GetNumber(v[t.start..t.end], t.kind, fl), NextToken(v, t)))
    case _ => Err(InvalidArgument)
  }

  /** The elements from token `t` on, after `es`. */
  function ParseElems(v: Bytes, t: Token, es: seq<Json>, fl: Floats): (r: Parsed)
    requires Fits(v, t)
    ensures Later(v, t, r)
    decreases |v| + 1 - t.end, 1
  {
    var (x, n) :- ParseValue(v, t, fl);
    if n.kind == ValueSeparator then ParseElems(v, NextToken(v, n), es + [x], fl)
    else if n.kind == EndArray then Ok((Array(es + [x]), NextToken(v, n)))
    else Err(InvalidArgument)
  }

  /** The key that is token `t`, and the first token of its value. */
  function KeyAndColon(v: Bytes, t: Token): (r: Result<(Bytes, Token)>)
    requires Fits(v, t)
    ensures r.Ok? ==> Fits(v, r.value.1) && r.value.1.end > t.end
  {
    if t.kind != ValueString then Err(InvalidArgument) else
      var key :- GetText(v, t);
      var colon := NextToken(v, t);
      if colon.kind != NameSeparator then Err(InvalidArgument) else Ok((key, NextToken(v, colon)))
  }

  /** The members from token `t` on, after `m`. */
  function ParseMembers(v: Bytes, t: Token, m: map<Bytes, Json>, fl: Floats): (r: Parsed)
    requires Fits(v, t)
    ensures Later(v, t, r)
    decreases |v| + 1 - t.end, 1
  {
    var (key, w) :- KeyAndColon(v, t);
    var (x, n) :- ParseValue(v, w, fl);
    if n.kind == ValueSeparator then ParseMembers(v, NextToken(v, n), m[key := x], fl)
    else if n.kind == EndObject then Ok((Object(m[key := x]), NextToken(v, n)))
    else Err(InvalidArgument)
  }

  /** A whole text: one value, then the end of the input. */
  function Parse(v: Bytes, fl: Floats): Result<Json> {
    ScanFits(v, 0);
    var (j, n) :- ParseValue(v, Scan(v, 0), fl);
    if n.kind == EndOfInput then Ok(j) else Err(InvalidArgument)
  }

  // ---------- the printing loops ----------

  function Magnitude(x: int): nat {
    if x < 0 then -x else x
  }

  /** Division and remainder that truncate toward zero. */
  function Quotient(x: int): int {
    if x < 0 then -((-x) / 10) else x / 10
  }

  function Remainder(x: int): int {
    if x < 0 then -((-x) % 10) else x % 10
  }

  function Backwards(s: Bytes): (r: Bytes)
    ensures |r| == |s|
  {
    seq(|s|, k requires 0 <= k < |s| => s[|s| - 1 - k])
  }

  function Pow10(n: nat): (r: nat)
    ensures r > 0
  {
    if n == 0 then 1 else 10 * Pow10(n - 1)
  }

  lemma Pow10At20()
    ensures Pow10(20) > 0x1_0000_0000_0000_0000
  {
    assert Pow10(5) == 100_000;
    assert Pow10(10) == 100_000 * Pow10(5);
    assert Pow10(15) == 100_000 * Pow10(10);
    assert Pow10(20) == 100_000 * Pow10(15);
  }

  /** The digits not written yet. */
  function Pending(x: int): Bytes {
    if x == 0 then [] else Decimal(Magnitude(x))
  }

  lemma OneDigit(x: int, left: nat)
    requires x != 0 && Magnitude(x) < Pow10(left)
    ensures left > 0 && Magnitude(Quotient(x)) < Pow10(left - 1)
    ensures Pending(x) == Pending(Quotient(x)) + [48 + Magnitude(Remainder(x))]
    ensures Magnitude(Remainder(x)) < 10
    ensures Quotient(x) != 0 ==> (Quotient(x) < 0 <==> x < 0)
  {
  }

  lemma BackwardsSnoc(s: Bytes, c: byte)
    ensures Backwards(s + [c]) == [c] + Backwards(s)
  {
  }

  /** `done` holds the last digits of `value` backwards, and `x` the others. */
  ghost predicate Written(value: int, x: int, done: Bytes) {
    && |done| <= 20 && Magnitude(x) < Pow10(20 - |done|)
    && Pending(x) + Backwards(done) == Decimal(Magnitude(value))
  }

  lemma WrittenStart(value: int)
    requires -0x8000_0000_0000_0000 <= value < 0x1_0000_0000_0000_0000 && value != 0
    ensures Written(value, value, [])
  {
    hide Decimal;
    hide Pow10;
    Pow10At20();
  }

  lemma WrittenStep(value: int, x: int, done: Bytes)
    requires Written(value, x, done) && x != 0
    ensures |done| < 20 && Magnitude(Remainder(x)) < 10
    ensures Written(value, Quotient(x), done + [48 + Magnitude(Remainder(x))])
  {
    hide Decimal;
    hide Pow10;
    hide Backwards;
    hide Remainder;
    hide Quotient;
    hide Pending;
    hide Magnitude;
    OneDigit(x, 20 - |done|);
    var digit := 48 + Magnitude(Remainder(x));
    BackwardsSnoc(done, digit);
    assert Pending(Quotient(x)) + ([digit] + Backwards(done)) == Pending(x) + Backwards(done);
  }

  lemma WrittenEnd(value: int, done: Bytes)
    requires Written(value, 0, done) && value != 0
    ensures |done| <= 20
    ensures Backwards(if value < 0 then done + [45] else done) == IntText(value)
  {
    hide Decimal;
    hide Pow10;
    hide Backwards;
    BackwardsSnoc(done, 45);
    assert [] + Backwards(done) == Backwards(done);
  }

  /** numtostr on a 64-bit integer: digits from the last to the first, then reversed. */
  method NumToStr(value: int) returns (r: Bytes)
    requires -0x8000_0000_0000_0000 <= value < 0x1_0000_0000_0000_0000
    ensures r == IntText(value)
  {
    hide IntText;
    hide Written;
    hide Backwards;
    hide Remainder;
    hide Quotient;
    hide Magnitude;
    var buf := new byte[64](_ => 0);
    if value == 0 {
      buf[0] := 48;
      ZeroText();
      return buf[..1];
    }
    var x, i := value, 0;
    WrittenStart(value);
    assert buf[..0] == [];
    while x != 0 && i < 63
      invariant 0 <= i <= 20 && Written(value, x, buf[..i])
      decreases 20 - i
    {
      WrittenStep(value, x, buf[..i]);
      var digit := 48 + Magnitude(Remainder(x));
      ghost var done := buf[..i];
      buf[i] := digit;
      assert buf[..i + 1] == done + [digit];
      i, x := i + 1, Quotient(x);
    }
    assert x == 0;
    WrittenEnd(value, buf[..i]);
    if value < 0 {
      ghost var done := buf[..i];
      buf[i] := 45;
      assert buf[..i + 1] == done + [45];
      i := i + 1;
    }
    ghost var written := buf[..i];
    forall k | 0 <= k < i {
      buf[k] := buf[i - 1 - k];
    }
    BackwardsAt(written);
    assert buf[..i] == Backwards(written);
    r := buf[..i];
  }

  lemma BackwardsAt(s: Bytes)
    ensures forall k :: 0 <= k < |s| ==> Backwards(s)[k] == s[|s| - 1 - k]
  {
  }

  lemma ZeroText()
    ensures IntText(0) == [48]
  {
  }

  lemma Wrapped(o: Bytes, open: byte, nl: Bytes, inner: Bytes, closing: Bytes, close: byte)
    ensures (o + [open] + nl) + inner + closing + [close] == o + ([open] + nl + inner + closing + [close])
  {
  }

  method DumpScalarTo(o: Bytes, j: Json, st: Style, level: nat) returns (r: Bytes)
    requires !j.Array? && !j.Object?
    ensures r == o + Dump(j, st, level)
  {
    hide IntText;
    hide JsonString.Escape;
    match j
    case Null => r := o + [110, 117, 108, 108];
    case Bool(b) => r := o + if b then [116, 114, 117, 101] else [102, 97, 108, 115, 101];
    case Int(i) =>
      var t := NumToStr(i);
      r := o + t;
    case Uint(u) =>
      var t := NumToStr(u);
      r := o + t;
    case Float(bits) => r := o + st.floats.write(bits);
    case String(s) =>
      var t := JsonString.EscapeString(s);
      r := o + ([34] + t + [34]);
  }

  /** `dump` appends to the stream `o`. */
  method DumpTo(o: Bytes, j: Json, st: Style, level: nat) returns (r: Bytes)
    ensures r == o + Dump(j, st, level)
    decreases j, 1
  {
    hide DumpElems;
    hide DumpMembers;
    hide Newline;
    hide Closing;
    hide Deeper;
    hide SortedKeys;
    hide Ascending;
    if j.Array? {
      if j.elems == [] {
        return o + [91, 93];
      }
      r := DumpArrayTo(o + [91] + Newline(st), j, st, Deeper(st, level));
      r := r + Closing(st, level) + [93];
      Wrapped(o, 91, Newline(st), DumpElems(j, 0, st, Deeper(st, level)), Closing(st, level), 93);
    } else if j.Object? {
      if j.members == map[] {
        return o + [123, 125];
      }
      r := DumpObjectTo(o + [123] + Newline(st), j, st, Deeper(st, level));
      r := r + Closing(st, level) + [125];
      Wrapped(o, 123, Newline(st), DumpMembers(j, SortedKeys(j.members.Keys), st, Deeper(st, level)),
              Closing(st, level), 125);
    } else {
      r := DumpScalarTo(o, j, st, level);
    }
  }

  /** One more piece printed. */
  lemma Piece(r: Bytes, sep: Bytes, head: Bytes, d: Bytes, rest: Bytes)
    ensures (r + sep + head + d) + rest == r + (sep + (head + d) + rest)
  {
  }

  /** What is still to be printed of the elements. */
  function RestElems(j: Json, k: nat, st: Style, level: nat): Bytes
    requires j.Array? && k <= |j.elems|
  {
    if k == |j.elems| then []
    else (if k == 0 then [] else [44] + Newline(st)) + DumpElems(j, k, st, level)
  }

  lemma RestElemsStep(j: Json, k: nat, st: Style, level: nat)
    requires j.Array? && k < |j.elems|
    ensures RestElems(j, k, st, level) ==
            (if k == 0 then [] else [44] + Newline(st)) +
            (Spaces(level) + Dump(j.elems[k], st, level)) + RestElems(j, k + 1, st, level)
  {
    hide Dump;
    hide Newline;
    hide Spaces;
  }

  method DumpArrayTo(o: Bytes, j: Json, st: Style, level: nat) returns (r: Bytes)
    requires j.Array? && j.elems != []
    ensures r == o + DumpElems(j, 0, st, level)
    decreases j, 0
  {
    hide Dump;
    hide DumpElems;
    hide RestElems;
    hide Newline;
    hide Spaces;
    r := o;
    RestElemsEnds(j, st, level);
    var k := 0;
    while k < |j.elems|
      invariant 0 <= k <= |j.elems|
      invariant r + RestElems(j, k, st, level) == o + DumpElems(j, 0, st, level)
    {
      RestElemsStep(j, k, st, level);
      var sep := if k == 0 then [] else [44] + Newline(st);
      Piece(r, sep, Spaces(level), Dump(j.elems[k], st, level), RestElems(j, k + 1, st, level));
      r := DumpTo(r + sep + Spaces(level), j.elems[k], st, level);
      k := k + 1;
    }
    assert r + [] == r;
  }

  lemma RestElemsEnds(j: Json, st: Style, level: nat)
    requires j.Array? && j.elems != []
    ensures RestElems(j, 0, st, level) == DumpElems(j, 0, st, level)
    ensures RestElems(j, |j.elems|, st, level) == []
  {
    hide DumpElems;
  }

  function RestMembers(j: Json, first: bool, ks: seq<Bytes>, st: Style, level: nat): Bytes
    requires j.Object? && forall k :: k in ks ==> k in j.members
  {
    if ks == [] then []
    else (if first then [] else [44] + Newline(st)) + DumpMembers(j, ks, st, level)
  }

  function MemberHead(k: Bytes, st: Style, level: nat): Bytes {
    Spaces(level) + Quoted(k) + [58] + Gap(st)
  }

  lemma RestMembersStep(j: Json, first: bool, ks: seq<Bytes>, st: Style, level: nat)
    requires j.Object? && ks != [] && forall k :: k in ks ==> k in j.members
    ensures RestMembers(j, first, ks, st, level) ==
            (if first then [] else [44] + Newline(st)) +
            (MemberHead(ks[0], st, level) + Dump(j.members[ks[0]], st, level)) +
            RestMembers(j, false, ks[1..], st, level)
  {
    hide Dump;
    hide Newline;
    hide Spaces;
    hide Quoted;
    hide Gap;
  }

  lemma RestMembersEnds(j: Json, ks: seq<Bytes>, st: Style, level: nat)
    requires j.Object? && forall k :: k in ks ==> k in j.members
    ensures RestMembers(j, true, ks, st, level) == DumpMembers(j, ks, st, level)
    ensures ks == [] ==> RestMembers(j, false, ks, st, level) == []
  {
    hide Dump;
  }

  method DumpObjectTo(o: Bytes, j: Json, st: Style, level: nat) returns (r: Bytes)
    requires j.Object?
    ensures r == o + DumpMembers(j, SortedKeys(j.members.Keys), st, level)
    decreases j, 0
  {
    hide Dump;
    hide DumpMembers;
    hide RestMembers;
    hide MemberHead;
    hide Newline;
    hide Spaces;
    hide Gap;
    hide Ascending;
    hide JsonString.Escape;
    var ks := SortedKeys(j.members.Keys);
    r := o;
    ghost var all := DumpMembers(j, ks, st, level);
    RestMembersEnds(j, ks, st, level);
    var first := true;
    while ks != []
      invariant forall k :: k in ks ==> k in j.members
      invariant r + RestMembers(j, first, ks, st, level) == o + all
      decreases |ks|
    {
      var key := ks[0];
      RestMembersStep(j, first, ks, st, level);
      var sep := if first then [] else [44] + Newline(st);
      var head := HeadOf(key, st, level);
      Piece(r, sep, head, Dump(j.members[key], st, level), RestMembers(j, false, ks[1..], st, level));
      r := DumpTo(r + sep + head, j.members[key], st, level);
      first, ks := false, ks[1..];
    }
    NothingLeft(j, first, ks, st, level);
    assert r + [] == r;
  }

  method HeadOf(key: Bytes, st: Style, level: nat) returns (head: Bytes)
    ensures head == MemberHead(key, st, level)
  {
    hide Spaces;
    hide Gap;
    hide JsonString.Escape;
    var text := JsonString.EscapeString(key);
    head := Spaces(level) + ([34] + text + [34]) + [58] + Gap(st);
  }

  lemma NothingLeft(j: Json, first: bool, ks: seq<Bytes>, st: Style, level: nat)
    requires j.Object? && ks == []
    ensures RestMembers(j, first, ks, st, level) == []
  {
  }

  // ---------- the parser object ----------

  class Parser {
    const text: Bytes
    const floats: Floats
    var lastToken: Kind
    var start: nat
    var cursor: nat

    constructor (text: Bytes, floats: Floats)
      ensures this.text == text && this.floats == floats && cursor == 0
    {
      this.text := text;
      this.floats := floats;
      lastToken := EndOfInput;
      start := 0;
      cursor := 0;
    }

    ghost function Current(): Token
      reads this
    {
      Token(lastToken, start, cursor)
    }

    /** The outcome and the current token are as specified. */
    ghost predicate Did(r: Result<Json>, spec: Parsed)
      reads this
    {
      match spec
      case Ok((j, t)) => r == Ok(j) && Current() == t
      case Err(e) => r == Err(e)
    }

    method GetToken()
      requires cursor <= |text|
      modifies this
      ensures Current() == Scan(text, old(cursor)) && Fits(text, Current()) && cursor > old(cursor)
    {
      hide Scan;
      hide Fits;
      ScanFits(text, cursor);
      TokenMoves(text, cursor);
      var t := ScanToken(text, cursor);
      lastToken, start, cursor := t.kind, t.start, t.end;
    }

    method ParseInternal() returns (r: Result<Json>)
      requires Fits(text, Current())
      modifies this
      ensures Did(r, ParseValue(text, old(Current()), floats))
      ensures r.Ok? ==> Fits(text, Current()) && cursor > old(cursor)
      decreases |text| + 1 - cursor, 1
    {
      hide Scan;
      hide ParseElems;
      hide ParseMembers;
      hide GetNumber;
      hide JsonString.GetString;
      hide JsonString.Legal;
      match lastToken
      case BeginObject =>
        GetToken();
        if lastToken == EndObject {
          GetToken();
          return Ok(Object(map[]));
        }
        if lastToken == ValueSeparator {
          return Err(InvalidArgument);
        }
        r := ParseObject();
      case BeginArray =>
        GetToken();
        if lastToken == EndArray {
          GetToken();
          return Ok(Array([]));
        }
        if lastToken == ValueSeparator {
          return Err(InvalidArgument);
        }
        r := ParseArray();
      case LiteralNull =>
        GetToken();
        r := Ok(Null);
      case LiteralTrue =>
        GetToken();
        r := Ok(Bool(true));
      case LiteralFalse =>
        GetToken();
        r := Ok(Bool(false));
      case ValueString =>
        var s := JsonString.ReadString(text[start + 1..cursor - 1]);
        if s.Err? {
          return Err(s.error);
        }
        GetToken();
        r := Ok(String(s.value));
      case ValueUnsigned => r := ParseNumber();
      case ValueInteger => r := ParseNumber();
      case ValueFloat => r := ParseNumber();
      case _ => r := Err(InvalidArgument);
    }

    method ParseNumber() returns (r: Result<Json>)
      requires Fits(text, Current()) && (lastToken == ValueUnsigned || lastToken == ValueInteger || lastToken == ValueFloat)
      modifies this
      ensures Did(r, ParseValue(text, old(Current()), floats))
      ensures r.Ok? && Fits(text, Current()) && cursor > old(cursor)
    {
      hide Scan;
      hide GetNumber;
      hide JsonString.Legal;
      var x := GetNumber(text[start..cursor], lastToken, floats);
      GetToken();
      r := Ok(x);
    }

    /** The token at which the next element or key starts. */
    ghost function Upcoming(): Token
      requires Fits(text, Current())
      reads this
    {
      if lastToken == ValueSeparator then NextToken(text, Current()) else Current()
    }

    /** The loop over the elements. */
    method ParseArray() returns (r: Result<Json>)
      requires Fits(text, Current()) && lastToken != ValueSeparator
      modifies this
      ensures Did(r, ParseElems(text, old(Current()), [], floats))
      ensures r.Ok? ==> Fits(text, Current()) && cursor > old(cursor)
      decreases |text| + 1 - cursor, 2
    {
      hide Scan;
      hide ParseValue;
      hide JsonString.Legal;
      var es: seq<Json> := [];
      while true
        invariant Fits(text, Current()) && cursor >= old(cursor)
        invariant ParseElems(text, old(Current()), [], floats) == ParseElems(text, Upcoming(), es, floats)
        decreases |text| + 1 - cursor
      {
        if lastToken == ValueSeparator {
          GetToken();
        }
        var x := ParseInternal();
        if x.Err? {
          return x;
        }
        es := es + [x.value];
        if lastToken != ValueSeparator {
          break;
        }
      }
      if lastToken != EndArray {
        return Err(InvalidArgument);
      }
      GetToken();
      r := Ok(Array(es));
    }

    /** Reads the key that is the current token, and the colon after it. */
    method ParseKey() returns (r: Result<Bytes>)
      requires Fits(text, Current())
      modifies this
      ensures match KeyAndColon(text, old(Current()))
              case Ok((key, t)) => r == Ok(key) && Current() == t
              case Err(e) => r == Err(e)
      ensures r.Ok? ==> Fits(text, Current()) && cursor > old(cursor)
    {
      hide Scan;
      hide JsonString.GetString;
      hide JsonString.Legal;
      if lastToken != ValueString {
        return Err(InvalidArgument);
      }
      r := JsonString.ReadString(text[start + 1..cursor - 1]);
      if r.Err? {
        return r;
      }
      GetToken();
      if lastToken != NameSeparator {
        return Err(InvalidArgument);
      }
      GetToken();
    }

    /** The loop over the members. */
    method ParseObject() returns (r: Result<Json>)
      requires Fits(text, Current()) && lastToken != ValueSeparator
      modifies this
      ensures Did(r, ParseMembers(text, old(Current()), map[], floats))
      ensures r.Ok? ==> Fits(text, Current()) && cursor > old(cursor)
      decreases |text| + 1 - cursor, 2
    {
      hide Scan;
      hide ParseValue;
      hide KeyAndColon;
      hide JsonString.Legal;
      var m: map<Bytes, Json> := map[];
      while true
        invariant Fits(text, Current()) && cursor >= old(cursor)
        invariant ParseMembers(text, old(Current()), map[], floats) == ParseMembers(text, Upcoming(), m, floats)
        decreases |text| + 1 - cursor
      {
        if lastToken == ValueSeparator {
          GetToken();
        }
        var key := ParseKey();
        if key.Err? {
          return Err(key.error);
        }
        var x := ParseInternal();
        if x.Err? {
          return x;
        }
        m := m[key.value := x.value];
        if lastToken != ValueSeparator {
          break;
        }
      }
      if lastToken != EndObject {
        return Err(InvalidArgument);
      }
      GetToken();
      r := Ok(Object(m));
    }

    /** A whole text. */
    method ParseText() returns (r: Result<Json>)
      requires cursor == 0
      modifies this
      ensures r == Parse(text, floats)
    {
      hide Scan;
      hide ParseValue;
      hide Fits;
      GetToken();
      r := ParseInternal();
      if r.Ok? && lastToken != EndOfInput {
        r := Err(InvalidArgument);
      }
    }
  }

  lemma TokenMoves(v: Bytes, i: nat)
    requires i <= |v|
    ensures Scan(v, i).end > i
  {
    hide Scan;
    ScanFits(v, i);
  }
}
