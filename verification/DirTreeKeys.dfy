/**
  What the tokens of a key are: a list of non-empty tokens without slashes, read
  back from their slash-join. Keys differ in their tokens exactly when the token
  lists they are written from differ.
 */
module DirTreeKeys {
  import opened DirTree
  import opened DirTreeReport
  import opened Router

  predicate IsToken(t: string) {
    t != "" && '/' !in t
  }

  predicate AllTokens(ts: Path) {
    forall i :: 0 <= i < |ts| ==> IsToken(ts[i])
  }

  /** What may follow the last token: nothing, a final slash, or an empty token. */
  predicate Ending(tail: string) {
    tail == "" || (tail[0] == '/' && (|tail| == 1 || tail[1] == '/'))
  }

  lemma {:induction false} SlashEnds(key: string, from: nat, t: string)
    requires from + |t| <= |key| && key[from..from + |t|] == t && '/' !in t
    requires from + |t| == |key| || key[from + |t|] == '/'
    ensures NextSlash(key, from) == from + |t|
    decreases |t|
  {
    if t != "" {
      assert key[from] == t[0] && t[0] in t;
      assert key[from + 1..from + 1 + |t[1..]|] == t[1..];
      SlashEnds(key, from + 1, t[1..]);
    }
  }

  lemma JoinCons(ts: Path)
    requires |ts| > 1
    ensures Join(ts) == ts[0] + ("/" + Join(ts[1..]))
  {
    SlashedAll(ts[1..]);
  }

  lemma JoinOne(ts: Path)
    requires |ts| == 1
    ensures Join(ts) == ts[0]
  {
    assert ts[1..] == [];
  }

  lemma Parts(head: string, t: string, rest: string)
    ensures var key := head + t + rest;
            key[|head|..|head| + |t|] == t && key[|head| + |t|..] == rest
            && (rest != "" ==> key[|head| + |t|] == rest[0])
  {
  }

  lemma OneToken(head: string, t: string, rest: string)
    requires IsToken(t) && (rest == "" || rest[0] == '/')
    ensures TokensFrom(head + t + rest, |head|) == [t] + TokensFrom(head + t + rest, |head| + |t| + 1)
  {
    hide TokensFrom;
    hide IsToken;
    var key := head + t + rest;
    Parts(head, t, rest);
    NextIs(key, |head|, t);
  }

  lemma NextIs(key: string, from: nat, t: string)
    requires IsToken(t) && from + |t| <= |key| && key[from..from + |t|] == t
    requires from + |t| == |key| || key[from + |t|] == '/'
    ensures TokensFrom(key, from) == [t] + TokensFrom(key, from + |t| + 1)
  {
    hide NextToken;
    hide IsToken;
    NextTokenAt(key, from, t);
  }

  lemma NextTokenAt(key: string, from: nat, t: string)
    requires IsToken(t) && from + |t| <= |key| && key[from..from + |t|] == t
    requires from + |t| == |key| || key[from + |t|] == '/'
    ensures NextToken(key, from) == t && t != ""
  {
    hide NextSlash;
    SlashEnds(key, from, t);
  }

  /** The walk over joined tokens yields them, whatever precedes, up to an ending. */
  lemma {:induction false} TokensOfJoin(head: string, ts: Path, tail: string)
    requires ts != [] && AllTokens(ts) && Ending(tail)
    ensures TokensFrom(head + Join(ts) + tail, |head|) == ts
    decreases |ts|
  {
    hide Join;
    hide TokensFrom;
    hide IsToken;
    var t := ts[0];
    if |ts| == 1 {
      JoinOne(ts);
      OneToken(head, t, tail);
      Parts(head, t, tail);
      EndOfTokens(head + t + tail, |head| + |t|, tail);
      assert ts == [t] + [];
    } else {
      JoinCons(ts);
      var rest := "/" + Join(ts[1..]) + tail;
      var next := head + t + "/";
      OneToken(head, t, rest);
      Regroup(head, t, Join(ts[1..]), tail);
      TokensOfJoin(next, ts[1..], tail);
      assert ts == [t] + ts[1..];
    }
  }

  lemma Regroup(head: string, t: string, more: string, tail: string)
    ensures head + (t + ("/" + more)) + tail == head + t + ("/" + more + tail)
    ensures head + t + ("/" + more + tail) == (head + t + "/") + more + tail
    ensures |head + t + "/"| == |head| + |t| + 1
  {
  }

  lemma EndOfTokens(key: string, at: nat, tail: string)
    requires at <= |key| && key[at..] == tail && Ending(tail)
    ensures TokensFrom(key, at + 1) == []
  {
    if |tail| > 1 {
      assert key[at + 1] == tail[1];
    }
  }

  lemma TokensEnd(key: string, from: nat)
    requires from <= |key| && TokensFrom(key, from) == []
    ensures from == |key| || key[from] == '/'
  {
  }

  /** Conversely, a key is its tokens joined and an ending. */
  lemma {:induction false} JoinOfTokens(key: string, from: nat)
    requires from <= |key| && TokensFrom(key, from) != []
    ensures var ts := TokensFrom(key, from);
            AllTokens(ts) && Join(ts) <= key[from..] && Ending(key[from..][|Join(ts)|..])
    decreases |key| - from
  {
    hide NextToken;
    hide Join;
    NextTokenIs(key, from);
    var t := NextToken(key, from);
    var next := from + |t| + 1;
    var rest := TokensFrom(key, next);
    var ts := TokensFrom(key, from);
    assert ts == [t] + rest && ts[1..] == rest;
    if rest == [] {
      JoinOne(ts);
      assert key[from..][|t|..] == key[from + |t|..];
      if from + |t| < |key| && next < |key| {
        TokensEnd(key, next);
      }
    } else {
      TokenInside(key, next);
      JoinOfTokens(key, next);
      JoinCons(ts);
      assert key[from..] == t + ("/" + key[next..]);
      assert key[from..][|Join(ts)|..] == key[next..][|Join(rest)|..];
    }
  }

  ghost predicate Spells(text: string, ts: Path)
    requires ts != []
  {
    exists tail: string :: Ending(tail) && text == Join(ts) + tail
  }

  /** The tokens of a key are exactly the list that the normalized key spells. */
  lemma TokensAre(key: string, ts: Path)
    ensures Tokens(key) == ts <==> ts != [] && AllTokens(ts) && Spells(Normalize(key), ts)
  {
    hide Join;
    hide TokensFrom;
    var full := Normalize(key);
    if Tokens(key) == ts {
      JoinOfTokens(full, 0);
      var tail := full[|Join(ts)|..];
      assert full[0..] == full && full == Join(ts) + tail;
    }
    if ts != [] && AllTokens(ts) && Spells(full, ts) {
      var tail: string :| Ending(tail) && full == Join(ts) + tail;
      TokensOfJoin("", ts, tail);
      assert "" + Join(ts) + tail == full;
    }
  }

  lemma DotCons(ts: Path)
    requires ts != [] && AllTokens(ts)
    ensures AllTokens(["."] + ts) && Join(["."] + ts) == "./" + Join(ts)
  {
    hide Join;
    JoinCons(["."] + ts);
    assert (["."] + ts)[1..] == ts;
    forall i | 0 <= i < |["."] + ts| ensures IsToken((["."] + ts)[i]) {
    }
  }

  lemma JoinStart(ts: Path)
    requires ts != [] && AllTokens(ts)
    ensures Join(ts) != "" && Join(ts)[0] == ts[0][0] && Join(ts)[0] != '/'
  {
    assert ts[0][0] in ts[0];
  }

  lemma WholeKey(ts: Path, key: string)
    requires ts != [] && AllTokens(ts) && key == Join(ts)
    ensures TokensFrom(key, 0) == ts
  {
    hide Join;
    hide TokensFrom;
    TokensOfJoin("", ts, "");
    assert "" + key + "" == key;
  }

  lemma Normalized(key: string)
    requires key != ""
    ensures key[0] != '/' ==> Normalize("/" + key) == "./" + key && Normalize("./" + key) == "./" + key
    ensures Normalize(key) == if key[0] == '.' then key else if key[0] == '/' then "." + key else "./" + key
  {
  }

  /** Keys written with a leading slash, a leading "./", or neither, name the same path below ".". */
  lemma KeyTokens(ts: Path)
    requires ts != [] && AllTokens(ts)
    ensures Tokens("/" + Join(ts)) == ["."] + ts
    ensures Tokens("./" + Join(ts)) == ["."] + ts
    ensures Tokens(Join(ts)) == if ts[0][0] == '.' then ts else ["."] + ts
  {
    hide Join;
    hide TokensFrom;
    hide Normalize;
    JoinStart(ts);
    DotCons(ts);
    Normalized(Join(ts));
    WholeKey(["."] + ts, "./" + Join(ts));
    WholeKey(ts, Join(ts));
  }

  /** Different token lists give keys that name different nodes. */
  lemma KeysDiffer(ts: Path, us: Path)
    requires ts != [] && us != [] && AllTokens(ts) && AllTokens(us)
    ensures Tokens("/" + Join(ts)) == Tokens("/" + Join(us)) <==> ts == us
    ensures Tokens("./" + Join(ts)) == Tokens("/" + Join(us)) <==> ts == us
    ensures ts[0][0] != '.' ==> (Tokens(Join(ts)) == Tokens("/" + Join(us)) <==> ts == us)
  {
    hide Join;
    hide Tokens;
    KeyTokens(ts);
    KeyTokens(us);
    assert (["."] + ts)[1..] == ts && (["."] + us)[1..] == us;
  }

  // ---------- routes ----------

  /** A route just registered under a slash-joined path is found there. */
  lemma RegisteredFound(regs: seq<Route>, r: Route, ts: Path, path: string)
    requires ts != [] && AllTokens(ts) && r.path == "/" + Join(ts)
    requires path == "/" + Join(ts) || path == "./" + Join(ts) || (path == Join(ts) && ts[0][0] != '.')
    ensures Scan(regs + [r], r.verb, path) == Some(r)
  {
    hide Join;
    hide Tokens;
    hide Extended;
    KeyTokens(ts);
  }

  /** It takes nothing away from routes registered under other paths. */
  lemma OthersFound(regs: seq<Route>, r: Route, m: Method, ts: Path, us: Path)
    requires ts != [] && us != [] && AllTokens(ts) && AllTokens(us) && ts != us
    requires r.path == "/" + Join(ts) && Latest(regs, m, Tokens("/" + Join(us))).Some?
    ensures Scan(regs + [r], m, "/" + Join(us)) == Scan(regs, m, "/" + Join(us)) == Latest(regs, m, ["."] + us)
  {
    hide Join;
    hide Tokens;
    hide Extended;
    KeysDiffer(ts, us);
    KeyTokens(us);
    assert (regs + [r])[..|regs|] == regs;
  }
}
