/**
  Runs of insertions and drops on a directory tree: which paths exist after a
  run, and with which data, read off the list of operations.
 */
module DirTreeRuns {
  import opened DirTree

  datatype Op<D> = Insert(key: string, data: Option<D>) | Drop(key: string)

  /** The contents after a run that starts with the empty tree. */
  function After<D>(ops: seq<Op<D>>): Contents<D> {
    if ops == [] then map[[] := None] else
      var c := After(ops[..|ops| - 1]);
      match ops[|ops| - 1]
      case Insert(key, data) => Inserted(c, Tokens(key), data)
      case Drop(key) => Dropped(c, Tokens(key))
  }

  /** No drop after operation `i` covers `p`. */
  predicate Kept<D>(ops: seq<Op<D>>, p: Path, i: nat) {
    forall j :: i < j < |ops| && ops[j].Drop? ==> !(Tokens(ops[j].key) <= p)
  }

  /** Some insertion at or below `p` has not been dropped since. */
  predicate Present<D>(ops: seq<Op<D>>, p: Path) {
    exists i :: 0 <= i < |ops| && ops[i].Insert? && p <= Tokens(ops[i].key) && Kept(ops, p, i)
  }

  /** The data last inserted at `p` itself, unless dropped since. */
  function DataAt<D>(ops: seq<Op<D>>, p: Path): Option<D> {
    if ops == [] then None else
      match ops[|ops| - 1]
      case Insert(key, data) => if Tokens(key) == p then data else DataAt(ops[..|ops| - 1], p)
      case Drop(key) => if Tokens(key) <= p then None else DataAt(ops[..|ops| - 1], p)
  }

  lemma KeptSnoc<D>(ops: seq<Op<D>>, op: Op<D>, p: Path, i: nat)
    requires i < |ops|
    ensures Kept(ops + [op], p, i) <==> Kept(ops, p, i) && !(op.Drop? && Tokens(op.key) <= p)
  {
    hide Tokens;
    var all := ops + [op];
    if Kept(all, p, i) {
      forall j | i < j < |ops| && ops[j].Drop? ensures !(Tokens(ops[j].key) <= p) {
        assert all[j] == ops[j];
      }
      assert all[|ops|] == op;
    }
  }

  lemma PresentSnoc<D>(ops: seq<Op<D>>, op: Op<D>, p: Path)
    ensures Present(ops + [op], p) <==>
              (match op
               case Insert(key, _) => Present(ops, p) || p <= Tokens(key)
               case Drop(key) => Present(ops, p) && !(Tokens(key) <= p))
  {
    hide Tokens;
    hide Kept;
    var all := ops + [op];
    if Present(ops, p) && !(op.Drop? && Tokens(op.key) <= p) {
      var i :| 0 <= i < |ops| && ops[i].Insert? && p <= Tokens(ops[i].key) && Kept(ops, p, i);
      KeptSnoc(ops, op, p, i);
      assert all[i] == ops[i];
    }
    if op.Insert? && p <= Tokens(op.key) {
      LastKept(all, p);
      assert all[|ops|] == op;
    }
    if Present(all, p) {
      var i :| 0 <= i < |all| && all[i].Insert? && p <= Tokens(all[i].key) && Kept(all, p, i);
      if i < |ops| {
        KeptSnoc(ops, op, p, i);
        assert all[i] == ops[i];
      }
    }
  }

  lemma LastKept<D>(ops: seq<Op<D>>, p: Path)
    requires ops != []
    ensures Kept(ops, p, |ops| - 1)
  {
  }

  /**
    After any run a path exists exactly when it is the root or an insertion at or
    below it has not been dropped since; its data is what was last inserted there.
   */
  lemma {:induction false} RunMeaning<D>(ops: seq<Op<D>>, p: Path)
    ensures p in After(ops) <==> p == [] || Present(ops, p)
    ensures p in After(ops) ==> After(ops)[p] == DataAt(ops, p)
    decreases |ops|
  {
    hide Tokens;
    hide Inserted;
    hide Present;
    if ops == [] {
      NothingPresent<D>(p);
    } else {
      var init, last := ops[..|ops| - 1], ops[|ops| - 1];
      assert ops == init + [last];
      RunMeaning(init, p);
      PresentSnoc(init, last, p);
      var ts := Tokens(last.key);
      if last.Insert? {
        InsertedAt(After(init), ts, last.data, p);
        if ts == p && p == [] {
          TokensNonempty(last.key);
        }
        if p !in After(init) {
          AbsentHasNoData(init, p);
        }
      } else {
        TokensNonempty(last.key);
      }
    }
  }

  lemma NothingPresent<D>(p: Path)
    ensures !Present<D>([], p)
  {
  }

  lemma TokensNonempty(key: string)
    ensures Tokens(key) != []
  {
  }

  lemma {:induction false} AbsentHasNoData<D>(ops: seq<Op<D>>, p: Path)
    requires p !in After(ops)
    ensures DataAt(ops, p) == None
    decreases |ops|
  {
    hide Tokens;
    hide Inserted;
    if ops != [] {
      var init, last := ops[..|ops| - 1], ops[|ops| - 1];
      if last.Insert? {
        InsertedAt(After(init), Tokens(last.key), last.data, p);
        AbsentHasNoData(init, p);
      } else if !(Tokens(last.key) <= p) {
        AbsentHasNoData(init, p);
      }
    }
  }

  /** Every run leaves a prefix-closed tree whose root has no data. */
  lemma RunsArePrefixClosed<D>(ops: seq<Op<D>>, p: Path, q: Path)
    requires q in After(ops) && p <= q
    ensures p in After(ops) && [] in After(ops) && After(ops)[[]] == None
  {
    hide Tokens;
    hide After;
    hide DataAt;
    RunMeaning(ops, p);
    RunMeaning(ops, q);
    RunMeaning(ops, []);
    RootHasNoData(ops);
    if p != [] && q != [] {
      var i :| 0 <= i < |ops| && ops[i].Insert? && q <= Tokens(ops[i].key) && Kept(ops, q, i);
      KeptAbove(ops, p, q, i);
    }
  }

  lemma KeptAbove<D>(ops: seq<Op<D>>, p: Path, q: Path, i: nat)
    requires Kept(ops, q, i) && p <= q
    ensures Kept(ops, p, i)
  {
    hide Tokens;
  }

  lemma {:induction false} RootHasNoData<D>(ops: seq<Op<D>>)
    ensures DataAt(ops, []) == None
    decreases |ops|
  {
    hide Tokens;
    if ops != [] {
      TokensNonempty(ops[|ops| - 1].key);
      RootHasNoData(ops[..|ops| - 1]);
    }
  }

  /** The heap tree goes through the same contents. */
  method Play<D>(ops: seq<Op<D>>) returns (tree: DirTree<D>)
    ensures tree.Valid() && tree.Contents() == After(ops)
  {
    hide Tokens;
    hide Inserted;
    hide Dropped;
    hide WellFormed;
    hide DataOf;
    tree := new DirTree<D>();
    var n := 0;
    AfterNothing<D>();
    assert ops[..0] == [];
    while n < |ops|
      invariant 0 <= n <= |ops| && tree.Valid() && fresh(tree) && fresh(tree.Nodes())
      invariant tree.Contents() == After(ops[..n])
    {
      AfterStep(ops, n);
      match ops[n] {
        case Insert(key, data) => tree.Insert(key, data);
        case Drop(key) => var _, _ := tree.Drop(key);
      }
      n := n + 1;
    }
    assert ops[..n] == ops;
  }

  lemma AfterNothing<D>()
    ensures After<D>([]) == map[[] := None]
  {
  }

  lemma AfterStep<D>(ops: seq<Op<D>>, n: nat)
    requires n < |ops|
    ensures After(ops[..n + 1]) ==
            match ops[n]
            case Insert(key, data) => Inserted(After(ops[..n]), Tokens(key), data)
            case Drop(key) => Dropped(After(ops[..n]), Tokens(key))
  {
    hide Tokens;
    hide Inserted;
    hide Dropped;
    var all := ops[..n + 1];
    assert all[..|all| - 1] == ops[..n];
  }
}
