/**
  JSON Pointer strings (sections 3 and 4 of RFC 6901; json.hpp `json_pointer`):
  the token splitter, the two-pass escaping, and array indices in decimal.
 */
module JsonPointer {
  import opened JsonValue

  const SLASH: byte := 0x2F
  const TILDE: byte := 0x7E
  const ZERO: byte := 0x30
  const ONE: byte := 0x31

  // ---------- replace_substring ----------

  /** Index of the first occurrence of `f` at or after `from`, or |s| if there is none. */
  function FindSub(s: Bytes, f: Bytes, from: nat): (p: nat)
    requires f != [] && from <= |s|
    ensures from <= p <= |s|
    ensures p < |s| ==> p + |f| <= |s| && s[p..p + |f|] == f
    decreases |s| - from
  {
    if from + |f| > |s| then |s|
    else if s[from..from + |f|] == f then from
    else FindSub(s, f, from + 1)
  }

  /** Every occurrence of `f`, taken leftmost and without overlap, becomes `t`. */
  function ReplaceAll(s: Bytes, f: Bytes, t: Bytes): Bytes
    requires f != []
  {
    if |s| < |f| then s
    else if s[..|f|] == f then t + ReplaceAll(s[|f|..], f, t)
    else [s[0]] + ReplaceAll(s[1..], f, t)
  }

  lemma ReplaceMiss(s: Bytes, f: Bytes, t: Bytes, from: nat)
    requires f != [] && from + |f| <= |s| && s[from..from + |f|] != f
    ensures ReplaceAll(s[from..], f, t) == [s[from]] + ReplaceAll(s[from + 1..], f, t)
  {
    assert s[from..][..|f|] == s[from..from + |f|];
    assert s[from..][1..] == s[from + 1..];
  }

  lemma {:induction false} ReplaceSkips(s: Bytes, f: Bytes, t: Bytes, from: nat)
    requires f != [] && from <= |s|
    ensures var pos := FindSub(s, f, from);
            ReplaceAll(s[from..], f, t) == s[from..pos] + ReplaceAll(s[pos..], f, t)
    decreases |s| - from
  {
    hide ReplaceAll;
    var pos := FindSub(s, f, from);
    if from + |f| > |s| {
      ReplaceShort(s[from..], f, t);
      ReplaceShort([], f, t);
      assert s[pos..] == [] && s[from..pos] == s[from..];
    } else if s[from..from + |f|] == f {
      assert s[from..pos] == [];
    } else {
      ReplaceSkips(s, f, t, from + 1);
      ReplaceMiss(s, f, t, from);
      assert s[from..pos] == [s[from]] + s[from + 1..pos];
      Assoc([s[from]], s[from + 1..pos], ReplaceAll(s[pos..], f, t));
    }
  }

  lemma ReplaceShort(s: Bytes, f: Bytes, t: Bytes)
    requires |s| < |f|
    ensures ReplaceAll(s, f, t) == s
  {
  }

  lemma ReplaceHit(s: Bytes, f: Bytes, t: Bytes, pos: nat)
    requires f != [] && pos + |f| <= |s| && s[pos..pos + |f|] == f
    ensures ReplaceAll(s[pos..], f, t) == t + ReplaceAll(s[pos + |f|..], f, t)
  {
    assert s[pos..][..|f|] == f;
    assert s[pos..][|f|..] == s[pos + |f|..];
  }

  lemma Assoc(a: Bytes, b: Bytes, c: Bytes)
    ensures (a + b) + c == a + (b + c)
  {
  }

  lemma ReplaceStep(s: Bytes, f: Bytes, t: Bytes, done: nat)
    requires f != [] && done <= |s| && FindSub(s, f, done) < |s|
    ensures var pos := FindSub(s, f, done);
            ReplaceAll(s[done..], f, t) == s[done..pos] + t + ReplaceAll(s[pos + |f|..], f, t)
  {
    hide ReplaceAll;
    var pos := FindSub(s, f, done);
    ReplaceSkips(s, f, t, done);
    ReplaceHit(s, f, t, pos);
    Assoc(s[done..pos], t, ReplaceAll(s[pos + |f|..], f, t));
  }

  /** The in-place search-and-replace loop computes `ReplaceAll`. */
  method ReplaceSubstring(s0: Bytes, f: Bytes, t: Bytes) returns (s: Bytes)
    requires f != []
    ensures s == ReplaceAll(s0, f, t)
  {
    hide ReplaceAll;
    hide FindSub;
    s := s0;
    var pos := FindSub(s, f, 0);
    ghost var done: nat := 0;
    assert s[..done] == [] && s[done..] == s;
    while pos < |s|
      invariant done <= |s| && pos == FindSub(s, f, done)
      invariant ReplaceAll(s0, f, t) == s[..done] + ReplaceAll(s[done..], f, t)
      decreases |s| - done
    {
      ReplaceStep(s, f, t, done);
      ghost var before := s;
      s := s[..pos] + t + s[pos + |f|..];
      assert s[pos + |t|..] == before[pos + |f|..];
      assert s[..pos + |t|] == before[..done] + (before[done..pos] + t);
      done := pos + |t|;
      pos := FindSub(s, f, pos + |t|);
    }
    ReplaceSkips(s, f, t, done);
    ReplaceNothing(f, t);
    assert s[pos..] == [] && s[done..pos] + [] == s[done..];
    assert s[..done] + s[done..] == s;
  }

  lemma ReplaceNothing(f: Bytes, t: Bytes)
    requires f != []
    ensures ReplaceAll([], f, t) == []
  {
  }

  // ---------- escape and unescape ----------

  /** Escapes "~" to "~0", then "/" to "~1". */
  function Escape(s: Bytes): Bytes {
    ReplaceAll(ReplaceAll(s, [TILDE], [TILDE, ZERO]), [SLASH], [TILDE, ONE])
  }

  /** Unescapes "~1" to "/", then "~0" to "~". */
  function Unescape(s: Bytes): Bytes {
    ReplaceAll(ReplaceAll(s, [TILDE, ONE], [SLASH]), [TILDE, ZERO], [TILDE])
  }

  method EscapeInPlace(s: Bytes) returns (r: Bytes)
    ensures r == Escape(s)
  {
    r := ReplaceSubstring(s, [TILDE], [TILDE, ZERO]);
    r := ReplaceSubstring(r, [SLASH], [TILDE, ONE]);
  }

  method UnescapeInPlace(s: Bytes) returns (r: Bytes)
    ensures r == Unescape(s)
  {
    r := ReplaceSubstring(s, [TILDE, ONE], [SLASH]);
    r := ReplaceSubstring(r, [TILDE, ZERO], [TILDE]);
  }

  /** One-pass reference definition of escaping. */
  function EscapeEach(s: Bytes): Bytes {
    if s == [] then []
    else (if s[0] == TILDE then [TILDE, ZERO]
          else if s[0] == SLASH then [TILDE, ONE]
          else [s[0]]) + EscapeEach(s[1..])
  }

  /** "~" is always followed by "0" or "1". */
  predicate WellEscaped(s: Bytes) {
    forall i :: 0 <= i < |s| && s[i] == TILDE ==> i + 1 < |s| && (s[i + 1] == ZERO || s[i + 1] == ONE)
  }

  /** One-pass reference definition of unescaping. */
  function UnescapeEach(s: Bytes): Bytes
    requires WellEscaped(s)
  {
    if s == [] then []
    else if s[0] == TILDE then [if s[1] == ZERO then TILDE else SLASH] + UnescapeEach(s[2..])
    else [s[0]] + UnescapeEach(s[1..])
  }

  lemma ReplaceByte(c: byte, s: Bytes, f: byte, t: Bytes)
    ensures ReplaceAll([c] + s, [f], t) == (if c == f then t else [c]) + ReplaceAll(s, [f], t)
  {
    assert ([c] + s)[1..] == s;
    assert ([c] + s)[..1] == [c];
  }

  lemma {:induction false} EscapeIsEach(s: Bytes)
    ensures Escape(s) == EscapeEach(s)
  {
    if s == [] {
      ReplaceNothing([TILDE], [TILDE, ZERO]);
      ReplaceNothing([SLASH], [TILDE, ONE]);
    } else {
      EscapeIsEach(s[1..]);
      EscapeStep(s[0], s[1..]);
      assert s == [s[0]] + s[1..];
    }
  }

  lemma EscapeStep(c: byte, s: Bytes)
    ensures Escape([c] + s) ==
            (if c == TILDE then [TILDE, ZERO] else if c == SLASH then [TILDE, ONE] else [c]) + Escape(s)
  {
    hide ReplaceAll;
    var rest := ReplaceAll(s, [TILDE], [TILDE, ZERO]);
    ReplaceByte(c, s, TILDE, [TILDE, ZERO]);
    if c == TILDE {
      assert [TILDE, ZERO] + rest == [TILDE] + ([ZERO] + rest);
      ReplaceByte(TILDE, [ZERO] + rest, SLASH, [TILDE, ONE]);
      ReplaceByte(ZERO, rest, SLASH, [TILDE, ONE]);
      assert [TILDE] + ([ZERO] + Escape(s)) == [TILDE, ZERO] + Escape(s);
    } else {
      ReplaceByte(c, rest, SLASH, [TILDE, ONE]);
    }
  }

  lemma ReplacePair(c: byte, d: byte, s: Bytes, f: byte, g: byte, t: Bytes)
    ensures ReplaceAll([c, d] + s, [f, g], t) ==
            if c == f && d == g then t + ReplaceAll(s, [f, g], t)
            else [c] + ReplaceAll([d] + s, [f, g], t)
  {
    assert ([c, d] + s)[..2] == [c, d];
    assert ([c, d] + s)[2..] == s;
    assert ([c, d] + s)[1..] == [d] + s;
  }

  lemma ReplaceOther(c: byte, s: Bytes, f: byte, g: byte, t: Bytes)
    requires c != f
    ensures ReplaceAll([c] + s, [f, g], t) == [c] + ReplaceAll(s, [f, g], t)
  {
    var x := [c] + s;
    assert x[1..] == s;
    if |x| >= 2 {
      assert x[..2][0] == c;
    }
  }

  lemma {:induction false} UnescapeIsEach(s: Bytes)
    requires WellEscaped(s)
    ensures Unescape(s) == UnescapeEach(s)
  {
    if s == [] {
    } else if s[0] == TILDE {
      var r := s[2..];
      UnescapeIsEach(r);
      assert s == [s[0], s[1]] + r;
      var once := ReplaceAll(r, [TILDE, ONE], [SLASH]);
      ReplacePair(s[0], s[1], r, TILDE, ONE, [SLASH]);
      if s[1] == ZERO {
        ReplaceOther(ZERO, r, TILDE, ONE, [SLASH]);
        assert [TILDE] + ([ZERO] + once) == [TILDE, ZERO] + once;
        ReplacePair(TILDE, ZERO, once, TILDE, ZERO, [TILDE]);
      } else {
        ReplaceOther(SLASH, once, TILDE, ZERO, [TILDE]);
      }
    } else {
      var r := s[1..];
      UnescapeIsEach(r);
      assert s == [s[0]] + r;
      ReplaceOther(s[0], r, TILDE, ONE, [SLASH]);
      ReplaceOther(s[0], ReplaceAll(r, [TILDE, ONE], [SLASH]), TILDE, ZERO, [TILDE]);
    }
  }

  /** One escaped byte in front of legal text. */
  lemma EscapedFront(c: byte, r: Bytes)
    requires WellEscaped(r) && SLASH !in r
    ensures var e := if c == TILDE then [TILDE, ZERO] else if c == SLASH then [TILDE, ONE] else [c];
            WellEscaped(e + r) && SLASH !in e + r && UnescapeEach(e + r) == [c] + UnescapeEach(r)
  {
    var e := if c == TILDE then [TILDE, ZERO] else if c == SLASH then [TILDE, ONE] else [c];
    var t := e + r;
    assert forall i :: 0 <= i < |r| ==> t[|e| + i] == r[i];
    forall i | 0 <= i < |t| && t[i] == TILDE ensures i + 1 < |t| && (t[i + 1] == ZERO || t[i + 1] == ONE) {
      if i >= |e| {
        assert r[i - |e|] == TILDE;
      }
    }
    assert t[|e|..] == r;
  }

  lemma {:induction false} EscapeEachInverse(s: Bytes)
    ensures WellEscaped(EscapeEach(s)) && SLASH !in EscapeEach(s)
    ensures UnescapeEach(EscapeEach(s)) == s
  {
    hide WellEscaped;
    hide UnescapeEach;
    if s == [] {
      NothingEscaped();
    } else {
      EscapeEachInverse(s[1..]);
      EscapedFront(s[0], EscapeEach(s[1..]));
      assert s == [s[0]] + s[1..];
    }
  }

  lemma NothingEscaped()
    ensures EscapeEach([]) == [] && WellEscaped([]) && UnescapeEach([]) == []
  {
  }

  lemma {:induction false} UnescapeEachInverse(s: Bytes)
    requires WellEscaped(s) && SLASH !in s
    ensures EscapeEach(UnescapeEach(s)) == s
  {
    if s == [] {
    } else if s[0] == TILDE {
      UnescapeEachInverse(s[2..]);
      assert UnescapeEach(s)[1..] == UnescapeEach(s[2..]);
      assert s == [s[0], s[1]] + s[2..];
    } else {
      UnescapeEachInverse(s[1..]);
      assert UnescapeEach(s)[1..] == UnescapeEach(s[1..]);
      assert s == [s[0]] + s[1..];
    }
  }

  /** Escaping yields a legal token text and the two-pass unescape undoes it. */
  lemma UnescapeEscape(s: Bytes)
    ensures WellEscaped(Escape(s)) && SLASH !in Escape(s)
    ensures Unescape(Escape(s)) == s
  {
    EscapeIsEach(s);
    EscapeEachInverse(s);
    UnescapeIsEach(Escape(s));
  }

  /** On every legal token text, escaping undoes the two-pass unescape. */
  lemma EscapeUnescape(s: Bytes)
    requires WellEscaped(s) && SLASH !in s
    ensures Escape(Unescape(s)) == s
  {
    UnescapeIsEach(s);
    UnescapeEachInverse(s);
    EscapeIsEach(Unescape(s));
  }

  // ---------- split and to_string ----------

  function FindByte(s: Bytes, c: byte, from: nat): (p: nat)
    requires from <= |s|
    ensures from <= p <= |s|
    ensures p < |s| ==> s[p] == c
    ensures forall i :: from <= i < p ==> s[i] != c
    decreases |s| - from
  {
    if from == |s| || s[from] == c then from else FindByte(s, c, from + 1)
  }

  /** The tokens of the text that follows a slash. */
  function SplitRest(r: Bytes): Result<seq<Bytes>> {
    var k := FindByte(r, SLASH, 0);
    if !WellEscaped(r[..k]) then Err(DomainError)
    else if k == |r| then Ok([Unescape(r[..k])])
    else
      var rest :- SplitRest(r[k + 1..]);
      Ok([Unescape(r[..k])] + rest)
  }

  function Split(s: Bytes): Result<seq<Bytes>> {
    if s == [] then Ok([])
    else if s[0] != SLASH then Err(DomainError)
    else SplitRest(s[1..])
  }

  function ToString(ts: seq<Bytes>): Bytes {
    if ts == [] then []
    else ToString(ts[..|ts| - 1]) + [SLASH] + Escape(ts[|ts| - 1])
  }

  lemma {:induction false} ToStringFront(ts: seq<Bytes>)
    requires ts != []
    ensures ToString(ts) == [SLASH] + Escape(ts[0]) + ToString(ts[1..])
  {
    hide Escape;
    var init, last := ts[..|ts| - 1], [SLASH] + Escape(ts[|ts| - 1]);
    if init == [] {
      assert ts[1..] == [];
    } else {
      ToStringFront(init);
      var tail := ts[1..];
      assert tail[..|tail| - 1] == init[1..] && tail[|tail| - 1] == ts[|ts| - 1];
      var head, mid := [SLASH] + Escape(ts[0]), ToString(init[1..]);
      assert ToString(ts) == ToString(init) + last by {
        assert ToString(init) + last == ToString(init) + [SLASH] + Escape(ts[|ts| - 1]);
      }
      assert ToString(tail) == mid + last by {
        assert mid + last == mid + [SLASH] + Escape(ts[|ts| - 1]);
      }
      assert (head + mid) + last == head + (mid + last);
    }
  }

  lemma FindByteEnd(a: Bytes, b: Bytes)
    requires SLASH !in a && (b == [] || b[0] == SLASH)
    ensures FindByte(a + b, SLASH, 0) == |a|
  {
    var s := a + b;
    var p := FindByte(s, SLASH, 0);
    assert forall i :: 0 <= i < |a| ==> s[i] == a[i];
    assert b != [] ==> s[|a|] == SLASH;
  }

  /** What the rest of the text contributes to the tokens already read. */
  function Continue(done: seq<Bytes>, rest: Result<seq<Bytes>>): Result<seq<Bytes>> {
    match rest
    case Ok(ts) => Ok(done + ts)
    case Err(e) => Err(e)
  }

  /** One round of the splitter. */
  lemma SplitRestStep(token: Bytes, rest: Bytes)
    requires SLASH !in token
    ensures !WellEscaped(token) ==>
            SplitRest(token) == SplitRest(token + [SLASH] + rest) == Err(DomainError)
    ensures WellEscaped(token) ==> SplitRest(token) == Ok([Unescape(token)])
    ensures WellEscaped(token) ==>
            SplitRest(token + [SLASH] + rest) == Continue([Unescape(token)], SplitRest(rest))
  {
    hide ReplaceAll;
    hide WellEscaped;
    FindByteEnd(token, []);
    assert token + [] == token == token[..|token|];
    var b := [SLASH] + rest;
    FindByteEnd(token, b);
    var s := token + [SLASH] + rest;
    assert s == token + b;
    assert s[..|token|] == token && s[|token| + 1..] == rest;
  }

  lemma {:induction false} SplitRestJoin(token: Bytes, ts: seq<Bytes>)
    ensures SplitRest(Escape(token) + ToString(ts)) == Ok([token] + ts)
    decreases |ts|
  {
    hide ReplaceAll;
    hide SplitRest;
    hide WellEscaped;
    hide Escape;
    hide Unescape;
    UnescapeEscape(token);
    var e := Escape(token);
    if ts == [] {
      SplitRestStep(e, []);
      assert e + ToString(ts) == e;
      assert [token] + ts == [token];
    } else {
      ToStringFront(ts);
      SplitRestJoin(ts[0], ts[1..]);
      var rest := Escape(ts[0]) + ToString(ts[1..]);
      SplitRestStep(e, rest);
      assert e + ToString(ts) == e + [SLASH] + rest;
      assert [ts[0]] + ts[1..] == ts;
    }
  }

  /** Printing a token list and splitting the text gives the list back. */
  lemma SplitToString(ts: seq<Bytes>)
    ensures Split(ToString(ts)) == Ok(ts)
  {
    hide Escape;
    hide SplitRest;
    if ts != [] {
      ToStringFront(ts);
      assert ToString(ts)[1..] == Escape(ts[0]) + ToString(ts[1..]);
      SplitRestJoin(ts[0], ts[1..]);
      assert [ts[0]] + ts[1..] == ts;
    }
  }

  lemma ToStringOne(t: Bytes)
    ensures ToString([t]) == [SLASH] + Escape(t)
  {
    hide Escape;
    assert [t][..0] == [];
  }

  lemma {:induction false} JoinSplitRest(r: Bytes)
    ensures SplitRest(r).Ok? ==> SplitRest(r).value != [] && ToString(SplitRest(r).value) == [SLASH] + r
    ensures SplitRest(r).Ok? <==> WellEscaped(r)
    decreases |r|
  {
    hide ReplaceAll;
    hide WellEscaped;
    hide Escape;
    hide Unescape;
    hide ToString;
    hide SplitRest;
    var k := FindByte(r, SLASH, 0);
    var token := r[..k];
    assert SLASH !in token;
    if WellEscaped(token) {
      EscapeUnescape(token);
    }
    if k == |r| {
      assert token == r;
      SplitRestStep(r, []);
      ToStringOne(Unescape(r));
    } else {
      var rest := r[k + 1..];
      JoinSplitRest(rest);
      assert r == token + [SLASH] + rest;
      WellEscapedParts(token, rest);
      SplitRestStep(token, rest);
      if WellEscaped(token) && SplitRest(rest).Ok? {
        var tail := SplitRest(rest).value;
        var ts := [Unescape(token)] + tail;
        ToStringFront(ts);
        assert ts[1..] == tail;
        assert [SLASH] + token + ([SLASH] + rest) == [SLASH] + r;
      }
    }
  }

  lemma WellEscapedParts(a: Bytes, b: Bytes)
    ensures WellEscaped(a + [SLASH] + b) <==> WellEscaped(a) && WellEscaped(b)
  {
    var s := a + [SLASH] + b;
    if WellEscaped(s) {
      forall i | 0 <= i < |a| && a[i] == TILDE
        ensures i + 1 < |a| && (a[i + 1] == ZERO || a[i + 1] == ONE)
      {
        assert s[i] == TILDE;
        assert s[i + 1] == if i + 1 < |a| then a[i + 1] else SLASH;
      }
      forall i | 0 <= i < |b| && b[i] == TILDE
        ensures i + 1 < |b| && (b[i + 1] == ZERO || b[i + 1] == ONE)
      {
        assert s[|a| + 1 + i] == TILDE;
        assert s[|a| + 1 + i + 1] == b[i + 1];
      }
    }
  }

  /** Splitting succeeds exactly on legal pointer texts, and then printing gives the text back. */
  lemma ToStringSplit(s: Bytes)
    ensures Split(s).Ok? ==> ToString(Split(s).value) == s
    ensures Split(s).Ok? <==> s == [] || (s[0] == SLASH && WellEscaped(s))
  {
    if s != [] && s[0] == SLASH {
      JoinSplitRest(s[1..]);
      assert s == [] + [SLASH] + s[1..];
      WellEscapedParts([], s[1..]);
    }
  }

  /** The check that every "~" of a token is followed by "0" or "1". */
  method CheckEscapes(token: Bytes) returns (ok: bool)
    ensures ok <==> WellEscaped(token)
  {
    var pos := FindByte(token, TILDE, 0);
    while pos < |token|
      invariant pos <= |token| && (pos < |token| ==> token[pos] == TILDE)
      invariant forall i :: 0 <= i < pos && token[i] == TILDE ==>
                i + 1 < |token| && (token[i + 1] == ZERO || token[i + 1] == ONE)
    {
      if pos == |token| - 1 || (token[pos + 1] != ZERO && token[pos + 1] != ONE) {
        return false;
      }
      pos := FindByte(token, TILDE, pos + 1);
    }
    return true;
  }

  lemma SplitStep(s: Bytes, start: nat)
    requires start <= |s|
    ensures var slash := FindByte(s, SLASH, start);
            var token := s[start..slash];
            SplitRest(s[start..]) ==
            if !WellEscaped(token) then Err(DomainError)
            else if slash == |s| then Ok([Unescape(token)])
            else if SplitRest(s[slash + 1..]).Err? then Err(SplitRest(s[slash + 1..]).error)
            else Ok([Unescape(token)] + SplitRest(s[slash + 1..]).value)
  {
    hide Unescape;
    hide WellEscaped;
    var slash := FindByte(s, SLASH, start);
    FindByteShift(s, SLASH, start);
    assert s[start..][..slash - start] == s[start..slash];
    if slash < |s| {
      assert s[start..][slash - start + 1..] == s[slash + 1..];
    }
  }

  lemma ContinueStep(s: Bytes, start: nat, done: seq<Bytes>)
    requires start <= |s|
    ensures var slash := FindByte(s, SLASH, start);
            var token := s[start..slash];
            Continue(done, SplitRest(s[start..])) ==
            if !WellEscaped(token) then Err(DomainError)
            else if slash == |s| then Ok(done + [Unescape(token)])
            else Continue(done + [Unescape(token)], SplitRest(s[slash + 1..]))
  {
    hide Unescape;
    hide WellEscaped;
    hide SplitRest;
    SplitStep(s, start);
    var slash := FindByte(s, SLASH, start);
    if slash < |s| && SplitRest(s[slash + 1..]).Ok? {
      var token, ts := Unescape(s[start..slash]), SplitRest(s[slash + 1..]).value;
      assert done + ([token] + ts) == done + [token] + ts;
    }
  }

  /** The splitter's loop: `slash` and `start` walk over the text. */
  method SplitLoop(s: Bytes) returns (r: Result<seq<Bytes>>)
    ensures r == Split(s)
  {
    hide WellEscaped;
    hide Unescape;
    hide SplitRest;
    hide Continue;
    if s == [] {
      return Ok([]);
    }
    if s[0] != SLASH {
      return Err(DomainError);
    }
    var result: seq<Bytes> := [];
    var start := 1;
    var slash := FindByte(s, SLASH, 1);
    ContinueEmpty(SplitRest(s[1..]));
    while true
      invariant 1 <= start <= |s| && slash == FindByte(s, SLASH, start)
      invariant Split(s) == Continue(result, SplitRest(s[start..]))
      decreases |s| - start
    {
      ContinueStep(s, start, result);
      var token := s[start..slash];
      var ok := CheckEscapes(token);
      if !ok {
        return Err(DomainError);
      }
      token := UnescapeInPlace(token);
      result := result + [token];
      if slash == |s| {
        return Ok(result);
      }
      start := slash + 1;
      slash := FindByte(s, SLASH, start);
    }
  }

  lemma ContinueEmpty(r: Result<seq<Bytes>>)
    ensures Continue([], r) == r
  {
    match r
    case Ok(ts) => assert [] + ts == ts;
    case Err(_) =>
  }

  lemma FindByteShift(s: Bytes, c: byte, from: nat)
    requires from <= |s|
    ensures FindByte(s[from..], c, 0) == FindByte(s, c, from) - from
  {
    var p, q := FindByte(s[from..], c, 0), FindByte(s, c, from);
    assert p < |s| - from ==> s[from + p] == c;
    assert q < |s| ==> s[from..][q - from] == c;
  }

  /** The accumulation over the reference tokens. */
  method ToStringLoop(ts: seq<Bytes>) returns (r: Bytes)
    ensures r == ToString(ts)
  {
    r := [];
    for n := 0 to |ts|
      invariant r == ToString(ts[..n])
    {
      var e := EscapeInPlace(ts[n]);
      assert ts[..n + 1][..n] == ts[..n];
      r := r + [SLASH] + e;
    }
    assert ts[..|ts|] == ts;
  }

  // ---------- array indices ----------

  predicate IsDigit(c: byte) { 0x30 <= c <= 0x39 }

  predicate AllDigits(s: Bytes) { forall i :: 0 <= i < |s| ==> IsDigit(s[i]) }

  /** std::to_string on an array index */
  function Decimal(n: nat): (r: Bytes)
    ensures r != [] && AllDigits(r)
    ensures |r| > 1 ==> r[0] != ZERO
    ensures n > 0 ==> r[0] != ZERO
  {
    if n < 10 then [0x30 + n] else Decimal(n / 10) + [0x30 + n % 10]
  }

  function SkipSpaces(s: Bytes): Bytes {
    if s != [] && (s[0] == 0x20 || 0x09 <= s[0] <= 0x0D) then SkipSpaces(s[1..]) else s
  }

  function DigitPrefix(s: Bytes): Bytes {
    if s != [] && IsDigit(s[0]) then [s[0]] + DigitPrefix(s[1..]) else []
  }

  function DigitsValue(s: Bytes): int {
    if s == [] then 0 else 10 * DigitsValue(s[..|s| - 1]) + (s[|s| - 1] as int - 0x30)
  }

  /** std::stoi: leading blanks and a sign are accepted, trailing text is ignored. */
  function Stoi(s: Bytes): Result<int> {
    var t := SkipSpaces(s);
    var negative := t != [] && t[0] == 0x2D;
    var digits := DigitPrefix(if t != [] && (t[0] == 0x2B || t[0] == 0x2D) then t[1..] else t);
    if digits == [] then Err(InvalidArgument) else
      var v := if negative then -DigitsValue(digits) else DigitsValue(digits);
      if -0x8000_0000 <= v < 0x8000_0000 then Ok(v) else Err(OutOfRange)
  }

  lemma {:induction false} DigitPrefixAll(s: Bytes)
    requires AllDigits(s)
    ensures DigitPrefix(s) == s
  {
    if s != [] {
      DigitPrefixAll(s[1..]);
    }
  }

  lemma {:induction false} DecimalValue(n: nat)
    ensures DigitsValue(Decimal(n)) == n
  {
    if n >= 10 {
      DecimalValue(n / 10);
      assert Decimal(n)[..|Decimal(n)| - 1] == Decimal(n / 10);
    }
  }

  /** A printed index reads back as itself exactly when it fits an int. */
  lemma StoiDecimal(n: nat)
    ensures Stoi(Decimal(n)) == if n < 0x8000_0000 then Ok(n) else Err(OutOfRange)
  {
    DigitPrefixAll(Decimal(n));
    DecimalValue(n);
  }

  predicate AllSpaces(s: Bytes) {
    forall i :: 0 <= i < |s| ==> s[i] == 0x20 || 0x09 <= s[i] <= 0x0D
  }

  lemma {:induction false} SpacesSkipped(b: Bytes, t: Bytes)
    requires AllSpaces(b) && (t != [] ==> !(t[0] == 0x20 || 0x09 <= t[0] <= 0x0D))
    ensures SkipSpaces(b + t) == t
    decreases |b|
  {
    if b == [] {
      assert b + t == t;
    } else {
      SpacesSkipped(b[1..], t);
      assert (b + t)[1..] == b[1..] + t;
    }
  }

  lemma {:induction false} DigitsTaken(ds: Bytes, tail: Bytes)
    requires AllDigits(ds) && (tail != [] ==> !IsDigit(tail[0]))
    ensures DigitPrefix(ds + tail) == ds
    decreases |ds|
  {
    if ds == [] {
      assert ds + tail == tail;
    } else {
      DigitsTaken(ds[1..], tail);
      assert (ds + tail)[1..] == ds[1..] + tail;
      assert ds == [ds[0]] + ds[1..];
    }
  }

  /** Blanks, an optional sign, digits, and any text after them: the number if it fits an int, an error without digits. */
  lemma StoiParts(blanks: Bytes, sign: Bytes, ds: Bytes, tail: Bytes)
    requires AllSpaces(blanks) && (sign == [] || sign == [0x2B] || sign == [0x2D]) && AllDigits(ds)
    requires tail != [] ==> !IsDigit(tail[0])
    requires sign == [] && ds == [] && tail != [] ==>
               !(tail[0] == 0x20 || 0x09 <= tail[0] <= 0x0D || tail[0] == 0x2B || tail[0] == 0x2D)
    ensures Stoi(blanks + (sign + (ds + tail))) ==
            if ds == [] then Err(InvalidArgument) else
              var v := if sign == [0x2D] then -DigitsValue(ds) else DigitsValue(ds);
              if -0x8000_0000 <= v < 0x8000_0000 then Ok(v) else Err(OutOfRange)
  {
    hide DigitsValue;
    hide SkipSpaces;
    hide DigitPrefix;
    var t := sign + (ds + tail);
    SpacesSkipped(blanks, t);
    DigitsTaken(ds, tail);
    if sign == [] {
      assert t == ds + tail;
    } else {
      assert t[1..] == ds + tail;
    }
  }

  lemma DecimalInjective(m: nat, n: nat)
    requires Decimal(m) == Decimal(n)
    ensures m == n
  {
    DecimalValue(m);
    DecimalValue(n);
  }

  /** A printed index needs no escaping. */
  lemma EscapeDigits(s: Bytes)
    requires AllDigits(s)
    ensures Escape(s) == s
  {
    EscapeIsEach(s);
    EscapeEachDigits(s);
  }

  lemma {:induction false} EscapeEachDigits(s: Bytes)
    requires AllDigits(s)
    ensures EscapeEach(s) == s
  {
    if s != [] {
      EscapeEachDigits(s[1..]);
    }
  }

  // ---------- paths of children ----------

  function IndexPath(path: Bytes, i: nat): Bytes {
    path + [SLASH] + Decimal(i)
  }

  function KeyPath(path: Bytes, k: Bytes): Bytes {
    path + [SLASH] + Escape(k)
  }

  lemma IndexPathTokens(p: seq<Bytes>, i: nat)
    ensures IndexPath(ToString(p), i) == ToString(p + [Decimal(i)])
  {
    hide Escape;
    EscapeDigits(Decimal(i));
    var ts := p + [Decimal(i)];
    assert ts[..|ts| - 1] == p;
  }

  lemma KeyPathTokens(p: seq<Bytes>, k: Bytes)
    ensures KeyPath(ToString(p), k) == ToString(p + [k])
  {
    hide Escape;
    var ts := p + [k];
    assert ts[..|ts| - 1] == p;
  }
}
