/**
  Which path a drop reports for a node: the normalized key up to its last slash,
  followed by the node's tokens from the key's last token on. That is the node's
  true path exactly when the normalized key is the slash-join of two or more
  tokens.
 */
module DirTreeReport {
  import opened DirTree

  /** The tokens joined by slashes. */
  function Join(ts: Path): string
    requires ts != []
  {
    ts[0] + Slashed(ts[1..])
  }

  /** What the drop of `key` reports for the node at `q`. */
  function Reported(key: string, q: Path): string
    requires |Tokens(key)| <= |q|
  {
    Stem(Normalize(key)) + Slashed(q[|Tokens(key)| - 1..])
  }

  lemma SlashedSnoc(ts: Path, t: string)
    ensures Slashed(ts + [t]) == Slashed(ts) + ("/" + t)
  {
    assert (ts + [t])[..|ts|] == ts;
  }

  lemma NothingSlashed()
    ensures Slashed([]) == ""
  {
  }

  lemma {:induction false} SlashedConcat(a: Path, b: Path)
    ensures Slashed(a + b) == Slashed(a) + Slashed(b)
    decreases |b|
  {
    hide Slashed;
    if b == [] {
      assert a + b == a;
      NothingSlashed();
    } else {
      var c, t := b[..|b| - 1], b[|b| - 1];
      SlashedConcat(a, c);
      SlashedSnoc(a + c, t);
      SlashedSnoc(c, t);
      assert b == c + [t] && a + b == (a + c) + [t];
      Assoc(Slashed(a), Slashed(c), "/" + t);
    }
  }

  lemma JoinSplit(q: Path, k: nat)
    requires 1 <= k <= |q|
    ensures Join(q) == Join(q[..k]) + Slashed(q[k..])
  {
    hide Slashed;
    SlashedConcat(q[1..k], q[k..]);
    assert q[1..] == q[1..k] + q[k..];
    assert q[..k][1..] == q[1..k];
  }

  lemma SlashedOne(t: string)
    ensures Slashed([t]) == "/" + t
  {
    assert [t][..0] == [];
  }

  lemma SlashedAll(q: Path)
    requires q != []
    ensures Slashed(q) == "/" + Join(q)
  {
    hide Slashed;
    SlashedConcat([q[0]], q[1..]);
    SlashedOne(q[0]);
    assert q == [q[0]] + q[1..];
    Assoc("/", q[0], Slashed(q[1..]));
  }

  lemma Assoc(a: string, b: string, c: string)
    ensures (a + b) + c == a + (b + c)
  {
  }

  lemma NextTokenIs(key: string, from: nat)
    requires from <= |key|
    ensures var t := NextToken(key, from);
            key[from..from + |t|] == t && '/' !in t && (from + |t| < |key| ==> key[from + |t|] == '/')
  {
  }

  /** The key is its tokens joined, followed by nothing or by a slash and more. */
  lemma {:induction false} TokensJoin(key: string, from: nat)
    requires from <= |key| && TokensFrom(key, from) != []
    ensures var ts := TokensFrom(key, from);
            Join(ts) <= key[from..]
            && (|Join(ts)| < |key| - from ==> key[from + |Join(ts)|] == '/')
            && forall t :: t in ts ==> '/' !in t
    decreases |key| - from
  {
    hide NextToken;
    NextTokenIs(key, from);
    var t := NextToken(key, from);
    var next := from + |t| + 1;
    var rest := TokensFrom(key, next);
    var ts := [t] + rest;
    assert TokensFrom(key, from) == ts;
    assert ts[1..] == rest;
    if rest == [] {
      assert Join(ts) == t;
    } else {
      TokenInside(key, next);
      TokensJoin(key, next);
      SlashedAll(rest);
      assert Join(ts) == t + "/" + Join(rest);
      assert key[from..] == t + "/" + key[next..] by {
        assert key[from..] == key[from..from + |t|] + [key[from + |t|]] + key[next..];
      }
    }
  }

  lemma TokenInside(key: string, from: nat)
    requires TokensFrom(key, from) != []
    ensures from < |key|
  {
  }

  /**
    The reported path is the true path exactly when the normalized key is the
    slash-join of at least two tokens.
   */
  lemma ReportIsTrue(key: string, q: Path)
    requires Tokens(key) <= q
    ensures Reported(key, q) == Join(q) <==> |Tokens(key)| >= 2 && Normalize(key) == Join(Tokens(key))
  {
    hide Slashed;
    hide TokensFrom;
    hide Stem;
    var full, ts := Normalize(key), Tokens(key);
    var n := |ts|;
    TokensJoin(full, 0);
    assert full[0..] == full;
    if n == 1 {
      SlashedAll(q);
      assert q[0..] == q;
    } else {
      var init, last := ts[..n - 1], ts[n - 1];
      JoinSplit(q, n - 1);
      assert q[..n - 1] == init;
      JoinSplit(ts, n - 1);
      assert ts[n - 1..] == [last];
      SlashedOne(last);
      StemIs(full, Join(init), last);
      Cancel(Stem(full), Join(init), Slashed(q[n - 1..]));
    }
  }

  lemma Cancel(a: string, b: string, c: string)
    ensures a + c == b + c <==> a == b
  {
    if a + c == b + c {
      assert |a| == |b|;
      assert a == (a + c)[..|a|] && b == (b + c)[..|b|];
    }
  }

  lemma StemIs(full: string, head: string, last: string)
    requires head + ("/" + last) <= full && '/' !in last
    requires |head| + 1 + |last| < |full| ==> full[|head| + 1 + |last|] == '/'
    ensures Stem(full) == head <==> full == head + ("/" + last)
  {
    hide LastSlash;
    var k := LastSlash(full);
    var front := head + ("/" + last);
    assert full[|head|] == front[|head|] == '/';
    assert k < |full|;
    assert full[..|head|] == front[..|head|] == head;
    if full == front {
      forall i | |head| < i < |full| ensures full[i] != '/' {
        assert full[i] == last[i - |head| - 1];
      }
    }
    if Stem(full) == head {
      assert k == |head|;
      assert full == full[..|front|];
    }
  }
}
