/**
  JSON strings (json.hpp `extra_space`, `escape_string`, `to_unicode`,
  `get_string`): what the printer puts between the quotes and what the reader
  takes out again.
 */
module JsonString {
  import opened JsonValue
  import opened Utf8

  const BACKSLASH: byte := 92

  // ---------- escaping ----------

  /** Bytes with a two-byte escape: quote, backslash, \b, \f, \n, \r, \t. */
  predicate HasLetter(c: byte) {
    c == 34 || c == 92 || c == 8 || c == 12 || c == 10 || c == 13 || c == 9
  }

  function Letter(c: byte): byte
    requires HasLetter(c)
  {
    if c == 8 then 98 else if c == 12 then 102 else if c == 10 then 110
    else if c == 13 then 114 else if c == 9 then 116 else c
  }

  function Hex(d: nat): byte
    requires d < 16
  {
    if d < 10 then 48 + d else 87 + d
  }

  function EscapeByte(c: byte): (r: Bytes)
    ensures |r| == 1 + Extra(c)
  {
    if HasLetter(c) then [92, Letter(c)]
    else if c <= 0x1F then [92, 117, 48, 48, Hex(c / 16), Hex(c % 16)]
    else [c]
  }

  /** The escape of each byte, one after the other. */
  function Escape(s: Bytes): Bytes {
    if s == [] then [] else EscapeByte(s[0]) + Escape(s[1..])
  }

  function Extra(c: byte): nat {
    if HasLetter(c) then 1 else if c <= 0x1F then 5 else 0
  }

  function ExtraSpace(s: Bytes): nat {
    if s == [] then 0 else ExtraSpace(s[..|s| - 1]) + Extra(s[|s| - 1])
  }

  lemma {:induction false} EscapeConcat(s: Bytes, t: Bytes)
    ensures Escape(s + t) == Escape(s) + Escape(t)
  {
    hide EscapeByte;
    if s == [] {
      assert s + t == t;
    } else {
      EscapeConcat(s[1..], t);
      assert (s + t)[1..] == s[1..] + t;
    }
  }

  lemma EscapeSnoc(s: Bytes, c: byte)
    ensures Escape(s + [c]) == Escape(s) + EscapeByte(c)
  {
    hide EscapeByte;
    EscapeConcat(s, [c]);
    assert Escape([]) == [];
    assert Escape([c]) == EscapeByte(c);
  }

  /** The buffer is sized exactly. */
  lemma {:induction false} EscapeLength(s: Bytes)
    ensures |Escape(s)| == |s| + ExtraSpace(s)
  {
    hide EscapeByte;
    hide Extra;
    if s != [] {
      var init, last := s[..|s| - 1], s[|s| - 1];
      EscapeLength(init);
      EscapeSnoc(init, last);
      assert s == init + [last];
    }
  }

  lemma {:induction false} NothingToEscape(s: Bytes)
    requires ExtraSpace(s) == 0
    ensures Escape(s) == s
  {
    hide Escape;
    hide Extra;
    hide EscapeByte;
    if s == [] {
      EscapeNothing();
    } else {
      var init, last := s[..|s| - 1], s[|s| - 1];
      NothingToEscape(init);
      EscapeSnoc(init, last);
      PlainEscape(last);
      assert s == init + [last];
    }
  }

  lemma PlainEscape(c: byte)
    requires Extra(c) == 0
    ensures EscapeByte(c) == [c]
  {
    hide HasLetter;
  }

  /** Room for what is still to be escaped. */
  lemma EscapePrefix(s: Bytes, k: nat)
    requires k < |s|
    ensures Escape(s[..k + 1]) == Escape(s[..k]) + EscapeByte(s[k])
    ensures |Escape(s[..k + 1])| <= |Escape(s)|
  {
    hide EscapeByte;
    EscapeSnoc(s[..k], s[k]);
    assert s[..k + 1] == s[..k] + [s[k]];
    EscapeConcat(s[..k + 1], s[k + 1..]);
    assert s == s[..k + 1] + s[k + 1..];
  }

  /** Writes one escape over the backslashes that fill the buffer from `pos` on. */
  method PutEscape(result: array<byte>, pos: nat, c: byte) returns (next: nat)
    requires pos + |EscapeByte(c)| <= result.Length
    requires forall i :: pos <= i < result.Length ==> result[i] == BACKSLASH
    modifies result
    ensures next == pos + |EscapeByte(c)|
    ensures result[pos..next] == EscapeByte(c)
    ensures forall i :: 0 <= i < pos ==> result[i] == old(result[i])
    ensures forall i :: next <= i < result.Length ==> result[i] == BACKSLASH
  {
    if c == BACKSLASH {
      next := pos + 2;
    } else if HasLetter(c) {
      result[pos + 1] := Letter(c);
      next := pos + 2;
    } else if c <= 0x1F {
      result[pos + 1] := 117;
      result[pos + 2] := 48;
      result[pos + 3] := 48;
      result[pos + 4] := Hex(c / 16);
      result[pos + 5] := Hex(c % 16);
      next := pos + 6;
    } else {
      result[pos] := c;
      next := pos + 1;
    }
  }

  /** The final position is the end of the buffer. */
  method EscapeString(s: Bytes) returns (r: Bytes)
    ensures r == Escape(s)
  {
    hide EscapeByte;
    hide HasLetter;
    hide Escape;
    var space := ExtraSpace(s);
    if space == 0 {
      NothingToEscape(s);
      return s;
    }
    EscapeLength(s);
    EscapeNothing();
    var result := new byte[|s| + space](_ => BACKSLASH);
    var pos, k := 0, 0;
    assert s[..0] == [];
    while k < |s|
      invariant 0 <= k <= |s| && pos == |Escape(s[..k])| && pos <= result.Length
      invariant result[..pos] == Escape(s[..k])
      invariant forall i :: pos <= i < result.Length ==> result[i] == BACKSLASH
    {
      EscapePrefix(s, k);
      ghost var was := result[..pos];
      var next := PutEscape(result, pos, s[k]);
      assert result[..pos] == was;
      assert result[..next] == result[..pos] + result[pos..next];
      pos, k := next, k + 1;
    }
    assert s[..|s|] == s;
    assert pos == result.Length;
    r := result[..];
  }

  lemma EscapeNothing()
    ensures Escape([]) == []
  {
  }

  // ---------- Unicode escapes ----------

  predicate High(cp: int) {
    0xD800 <= cp <= 0xDBFF
  }

  predicate Low(cp: int) {
    0xDC00 <= cp <= 0xDFFF
  }

  /** The UTF-8 of a code point, or of a surrogate pair. */
  function ToUnicode(first: nat, second: nat): Result<Bytes> {
    if High(first) && !Low(second) then Err(InvalidArgument) else
      var cp := if High(first) then first * 1024 + second - 0x35FDC00 else first;
      if cp <= 0x10FFFF then Ok(Encoded(cp)) else Err(OutOfRange)
  }

  /** Surrogate pairs are exactly the code points above U+FFFF. */
  lemma PairIsScalar(first: nat, second: nat)
    requires High(first) && Low(second)
    ensures 0x10000 <= first * 1024 + second - 0x35FDC00 <= 0x10FFFF
    ensures ToUnicode(first, second) == Ok(Encoded(first * 1024 + second - 0x35FDC00))
    ensures Scalar(first * 1024 + second - 0x35FDC00)
  {
  }

  predicate IsHex(c: byte) {
    48 <= c <= 57 || 65 <= c <= 70 || 97 <= c <= 102
  }

  function HexValue(c: byte): (d: nat)
    requires IsHex(c)
    ensures d < 16
  {
    if c <= 57 then c - 48 else if c <= 70 then c - 55 else c - 87
  }

  predicate Hex4(h: Bytes) {
    |h| == 4 && IsHex(h[0]) && IsHex(h[1]) && IsHex(h[2]) && IsHex(h[3])
  }

  function CodeOf(h: Bytes): (cp: nat)
    requires Hex4(h)
    ensures cp <= 0xFFFF
  {
    ((HexValue(h[0]) * 16 + HexValue(h[1])) * 16 + HexValue(h[2])) * 16 + HexValue(h[3])
  }

  // ---------- reading ----------

  /** The bytes that may follow a backslash, besides `u`. */
  predicate IsLetter(c: byte) {
    c == 34 || c == 92 || c == 47 || c == 98 || c == 102 || c == 110 || c == 114 || c == 116
  }

  function Unletter(c: byte): byte
    requires IsLetter(c)
  {
    if c == 98 then 8 else if c == 102 then 12 else if c == 110 then 10
    else if c == 114 then 13 else if c == 116 then 9 else c
  }

  /** A backslash, `u` and four hexadecimal digits at the front. */
  predicate StartsCode(s: Bytes) {
    |s| >= 6 && s[0] == 92 && s[1] == 117 && Hex4(s[2..6])
  }

  /** Every backslash begins a complete escape: what the scanner promises the reader. */
  predicate Legal(s: Bytes) {
    if s == [] then true
    else if s[0] != 92 then Legal(s[1..])
    else if |s| >= 2 && IsLetter(s[1]) then Legal(s[2..])
    else StartsCode(s) && Legal(s[6..])
  }

  function Prefixed(s: Bytes, r: Result<Bytes>): Result<Bytes> {
    match r
    case Ok(t) => Ok(s + t)
    case Err(e) => Err(e)
  }

  lemma LegalCode(s: Bytes)
    requires Legal(s) && |s| >= 2 && s[0] == 92 && !IsLetter(s[1])
    ensures StartsCode(s) && Hex4(s[2..6]) && Legal(s[6..])
  {
  }

  lemma LegalUnicode(s: Bytes)
    requires Legal(s) && |s| >= 2 && s[0] == 92 && s[1] == 117
    ensures StartsCode(s) && Hex4(s[2..6]) && Legal(s[6..])
  {
  }

  lemma LegalFirst(s: Bytes)
    requires Legal(s) && s != []
    ensures s[0] != 92 ==> Legal(s[1..])
    ensures s[0] == 92 ==> |s| >= 2 && (IsLetter(s[1]) ==> Legal(s[2..]))
  {
  }

  /** A second code follows: the escape of a low surrogate is looked for here. */
  predicate CodeFollows(s: Bytes) {
    |s| >= 2 && s[0] == 92 && s[1] == 117
  }

  /** The string between the quotes of a token. */
  function GetString(s: Bytes): Result<Bytes>
    requires Legal(s)
    decreases |s|, 0
  {
    if s == [] then Ok([]) else
      LegalFirst(s);
      if s[0] != 92 then Prefixed([s[0]], GetString(s[1..]))
      else if IsLetter(s[1]) then Prefixed([Unletter(s[1])], GetString(s[2..]))
      else
        LegalCode(s);
        FromCode(CodeOf(s[2..6]), s[6..])
  }

  /** The code just read, and the rest of the token. */
  function FromCode(cp: nat, rest: Bytes): Result<Bytes>
    requires Legal(rest)
    decreases |rest|, 2
  {
    if High(cp) then
      if !CodeFollows(rest) then Err(InvalidArgument) else
        LegalUnicode(rest);
        FromUnicode(ToUnicode(cp, CodeOf(rest[2..6])), rest[6..])
    else if Low(cp) then Err(InvalidArgument)
    else FromUnicode(ToUnicode(cp, 0), rest)
  }

  function FromUnicode(r: Result<Bytes>, rest: Bytes): Result<Bytes>
    requires Legal(rest)
    decreases |rest|, 1
  {
    match r
    case Ok(t) => Prefixed(t, GetString(rest))
    case Err(e) => Err(e)
  }

  lemma EscapedLetter(c: byte)
    requires HasLetter(c)
    ensures IsLetter(Letter(c)) && Unletter(Letter(c)) == c
  {
  }

  lemma EscapedControl(c: byte)
    requires c <= 0x1F
    ensures Hex4([48, 48, Hex(c / 16), Hex(c % 16)]) && CodeOf([48, 48, Hex(c / 16), Hex(c % 16)]) == c
  {
  }

  lemma GetRaw(c: byte, t: Bytes)
    requires c != 92 && Legal(t)
    ensures Legal([c] + t) && GetString([c] + t) == Prefixed([c], GetString(t))
  {
    assert ([c] + t)[1..] == t;
  }

  lemma GetLetter(c: byte, t: Bytes)
    requires IsLetter(c) && Legal(t)
    ensures Legal([92, c] + t) && GetString([92, c] + t) == Prefixed([Unletter(c)], GetString(t))
  {
    hide IsLetter;
    hide Unletter;
    var e := [92, c] + t;
    assert e[1] == c && e[2..] == t;
  }

  lemma GetCode(h: Bytes, t: Bytes)
    requires Hex4(h) && Legal(t)
    ensures Legal([92, 117] + h + t) && GetString([92, 117] + h + t) == FromCode(CodeOf(h), t)
  {
    hide IsHex;
    hide CodeOf;
    hide FromCode;
    var e := [92, 117] + h + t;
    assert e[2..6] == h && e[6..] == t && e[1] == 117;
  }

  lemma FromPlainCode(cp: nat, t: Bytes)
    requires cp <= 0xFFFF && !High(cp) && !Low(cp) && Legal(t)
    ensures FromCode(cp, t) == Prefixed(Encoded(cp), GetString(t))
  {
    hide Legal;
    hide Encoded;
    hide GetString;
  }

  /** Reading what was escaped gives every byte string back, whatever its bytes. */
  lemma {:induction false} GetStringEscape(s: Bytes)
    ensures Legal(Escape(s)) && GetString(Escape(s)) == Ok(s)
  {
    hide Letter;
    hide Unletter;
    hide IsLetter;
    hide Hex;
    hide Hex4;
    hide CodeOf;
    hide Legal;
    hide GetString;
    if s == [] {
      LegalNothing();
    } else {
      var c, t := s[0], Escape(s[1..]);
      GetStringEscape(s[1..]);
      assert s == [c] + s[1..];
      if HasLetter(c) {
        EscapedLetter(c);
        GetLetter(Letter(c), t);
      } else if c <= 0x1F {
        EscapedControl(c);
        var h := [48, 48, Hex(c / 16), Hex(c % 16)];
        assert EscapeByte(c) == [92, 117] + h;
        GetCode(h, t);
        FromPlainCode(c, t);
      } else {
        GetRaw(c, t);
      }
    }
  }

  lemma LegalNothing()
    ensures Legal([]) && GetString([]) == Ok([])
  {
  }

  // ---------- the reading loop ----------

  lemma {:induction false} GetRun(s: Bytes, i: nat, e: nat)
    requires i <= e <= |s| && Legal(s[i..]) && 92 !in s[i..e]
    ensures Legal(s[e..]) && GetString(s[i..]) == Prefixed(s[i..e], GetString(s[e..]))
    decreases e - i
  {
    hide GetString;
    hide Legal;
    if i < e {
      assert s[i..e][0] == s[i];
      LegalFirst(s[i..]);
      assert s[i..] == [s[i]] + s[i + 1..] && s[i..][1..] == s[i + 1..];
      assert s[i..e] == [s[i]] + s[i + 1..e];
      GetRaw(s[i], s[i + 1..]);
      GetRun(s, i + 1, e);
      PrefixedTwice([s[i]], s[i + 1..e], GetString(s[e..]));
    } else {
      assert s[i..e] == [];
      PrefixedNothing(GetString(s[i..]));
    }
  }

  /** std::find of the next backslash. */
  method FindBackslash(s: Bytes, i: nat) returns (e: nat)
    requires i <= |s|
    ensures i <= e <= |s| && 92 !in s[i..e] && (e < |s| ==> s[e] == 92)
  {
    e := i;
    while e < |s| && s[e] != 92
      invariant i <= e <= |s| && 92 !in s[i..e]
    {
      e := e + 1;
    }
  }

  method CopyRun(text: Bytes, s: Bytes, i: nat, e: nat) returns (r: Bytes)
    requires i <= e <= |s|
    ensures r == text + s[i..e]
  {
    r := text;
    var k := i;
    while k < e
      invariant i <= k <= e && r == text + s[i..k]
    {
      r := r + [s[k]];
      k := k + 1;
    }
  }

  /** One escape at `i`: what it stands for and where the next byte is. */
  method ReadEscape(s: Bytes, i: nat) returns (r: Result<Bytes>, next: nat)
    requires i < |s| && s[i] == 92 && Legal(s[i..])
    ensures i < next <= |s| && Legal(s[next..])
    ensures GetString(s[i..]) == FromUnicode(r, s[next..])
  {
    hide IsLetter;
    hide Unletter;
    hide Hex4;
    hide CodeOf;
    hide Legal;
    hide ToUnicode;
    var here := s[i..];
    LegalFirst(here);
    if IsLetter(s[i + 1]) {
      next := i + 2;
      assert here[2..] == s[next..];
      return Ok([Unletter(s[i + 1])]), next;
    }
    LegalCode(here);
    assert here[2..6] == s[i + 2..i + 6] && here[6..] == s[i + 6..];
    var cp := CodeOf(s[i + 2..i + 6]);
    next := i + 6;
    if High(cp) {
      if i + 7 >= |s| || s[i + 6] != 92 || s[i + 7] != 117 {
        return Err(InvalidArgument), next;
      }
      LegalUnicode(s[i + 6..]);
      assert s[i + 6..][2..6] == s[i + 8..i + 12] && s[i + 6..][6..] == s[i + 12..];
      next := i + 12;
      r := ToUnicode(cp, CodeOf(s[i + 8..i + 12]));
    } else if Low(cp) {
      r := Err(InvalidArgument);
    } else {
      r := ToUnicode(cp, 0);
    }
  }

  /** The loop of get_string over the bytes between the quotes. */
  method ReadString(s: Bytes) returns (r: Result<Bytes>)
    requires Legal(s)
    ensures r == GetString(s)
  {
    hide GetString;
    hide Legal;
    var result: Bytes := [];
    var i := 0;
    assert s[0..] == s;
    PrefixedNothing(GetString(s));
    while i < |s|
      invariant 0 <= i <= |s| && Legal(s[i..])
      invariant GetString(s) == Prefixed(result, GetString(s[i..]))
    {
      var e := FindBackslash(s, i);
      if e != i {
        GetRun(s, i, e);
        PrefixedTwice(result, s[i..e], GetString(s[e..]));
        result := CopyRun(result, s, i, e);
        i := e;
      } else {
        var t, next := ReadEscape(s, i);
        if t.Err? {
          return Err(t.error);
        }
        PrefixedTwice(result, t.value, GetString(s[next..]));
        result, i := result + t.value, next;
      }
    }
    LegalNothing();
    assert s[i..] == [];
    assert result + [] == result;
    return Ok(result);
  }

  lemma PrefixedNothing(r: Result<Bytes>)
    ensures Prefixed([], r) == r
  {
    match r
    case Ok(t) => assert [] + t == t;
    case Err(_) =>
  }

  lemma PrefixedTwice(s: Bytes, t: Bytes, r: Result<Bytes>)
    ensures Prefixed(s, Prefixed(t, r)) == Prefixed(s + t, r)
  {
    match r
    case Ok(u) => assert s + (t + u) == (s + t) + u;
    case Err(_) =>
  }
}
