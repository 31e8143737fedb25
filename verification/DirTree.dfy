/**
  The directory tree (dirtree.cpp): a trie of heap nodes keyed by path tokens.
 */
module DirTree {

  datatype Option<+T> = None | Some(value: T)

  type Path = seq<string>

  // ---------- keys and tokens ----------

  function Normalize(key: string): (r: string)
    ensures r != [] && r[0] == '.'
  {
    if key == [] || (key[0] != '/' && key[0] != '.') then "./" + key
    else if key[0] == '/' then "." + key
    else key
  }

  /** Index of the next slash at or after `from`, or the length. */
  function NextSlash(key: string, from: nat): (p: nat)
    requires from <= |key|
    ensures from <= p <= |key|
    ensures p < |key| ==> key[p] == '/'
    ensures '/' !in key[from..p]
    decreases |key| - from
  {
    if from == |key| || key[from] == '/' then from else NextSlash(key, from + 1)
  }

  function NextToken(key: string, from: nat): (t: string)
    ensures |t| > 0 ==> from + |t| <= |key| && '/' !in t
  {
    if from >= |key| then "" else key[from..NextSlash(key, from)]
  }

  /** The tokens from `from` on; an empty token ends the walk. */
  function TokensFrom(key: string, from: nat): Path
    decreases if from <= |key| then |key| - from else 0
  {
    var t := NextToken(key, from);
    if t == "" then [] else [t] + TokensFrom(key, from + |t| + 1)
  }

  function Tokens(key: string): (ts: Path)
    ensures ts != []
  {
    TokensFrom(Normalize(key), 0)
  }

  // ---------- the abstract tree ----------

  /** A prefix-closed set of paths, each with its data. */
  type Contents<D> = map<Path, Option<D>>

  function Parent(p: Path): Path
    requires p != []
  {
    p[..|p| - 1]
  }

  /** What `insert` makes of the contents: the path and its prefixes exist, the path has the data. */
  function Inserted<D>(c: Contents<D>, ts: Path, data: Option<D>): Contents<D> {
    WithPath(c, ts)[ts := data]
  }

  function Prefixes(ts: Path): set<Path> {
    set n | 0 <= n <= |ts| :: ts[..n]
  }

  function WithPath<D>(c: Contents<D>, ts: Path): Contents<D> {
    map p | p in c.Keys + Prefixes(ts) :: if p in c then c[p] else None
  }

  /** What `search` finds: the exact path, or the "*" beside a last token that alone is missing. */
  function Found<D>(c: Contents<D>, ts: Path, accept: (string, string) -> bool): Option<D>
    requires ts != []
  {
    var last, wild := ts[|ts| - 1], Parent(ts) + ["*"];
    if ts in c then c[ts]
    else if |ts| > 1 && Parent(ts) in c && wild in c && accept("*", last) then c[wild]
    else None
  }

  /** What `drop` leaves: everything but the extensions of the path. */
  function Dropped<D>(c: Contents<D>, ts: Path): Contents<D> {
    map p | p in c && !(ts <= p) :: c[p]
  }

  // ---------- the heap tree ----------

  class Node<D> {
    var key: string
    var children: map<string, Node<D>>
    var data: Option<D>

    constructor (key: string)
      ensures this.key == key && children == map[] && data == None
    {
      this.key := key;
      children := map[];
      data := None;
    }
  }

  /** What one node holds. */
  datatype Cell<D> = Cell(key: string, children: map<string, Node<D>>, data: Option<D>)

  /** Different paths lead to different nodes. */
  ghost predicate Distinct<D>(paths: map<Path, Node<D>>) {
    forall p, q :: p in paths && q in paths && p != q ==> paths[p] != paths[q]
  }

  /** Parents exist, and each node's children are exactly the paths one token longer. */
  ghost predicate Linked<D>(paths: map<Path, Node<D>>, cells: map<Path, Cell<D>>) {
    && cells.Keys == paths.Keys
    && (forall p {:trigger Parent(p)} :: p in paths && p != [] ==> Parent(p) in paths)
    && (forall p, t :: p in paths && t in cells[p].children ==> p + [t] in paths && cells[p].children[t] == paths[p + [t]])
    && (forall p, t :: p in paths && p + [t] in paths ==> t in cells[p].children)
  }

  /** Every node but the root carries its last token as key. */
  ghost predicate Keyed<D>(cells: map<Path, Cell<D>>) {
    forall p :: p in cells && p != [] ==> cells[p].key == p[|p| - 1]
  }

  ghost predicate WellFormed<D>(paths: map<Path, Node<D>>, cells: map<Path, Cell<D>>) {
    && [] in paths && Distinct(paths) && Linked(paths, cells) && Keyed(cells) && cells[[]].data == None
  }

  ghost function DataOf<D>(cells: map<Path, Cell<D>>): Contents<D> {
    map p | p in cells :: cells[p].data
  }

  // ---------- adding a child ----------

  ghost function CellsWith<D>(cells: map<Path, Cell<D>>, p: Path, t: string, child: Node<D>): map<Path, Cell<D>>
    requires p in cells
  {
    cells[p := cells[p].(children := cells[p].children[t := child])][p + [t] := Cell(t, map[], None)]
  }

  lemma NewPath<D>(paths: map<Path, Node<D>>, cells: map<Path, Cell<D>>, p: Path, t: string)
    requires WellFormed(paths, cells) && p in paths && t !in cells[p].children
    ensures p + [t] !in paths
  {
    hide Distinct;
    hide Keyed;
  }

  lemma LinkedAddParents<D>(paths: map<Path, Node<D>>, cells: map<Path, Cell<D>>, p: Path, t: string, child: Node<D>)
    requires Linked(paths, cells) && p in paths
    ensures var paths' := paths[p + [t] := child];
            CellsWith(cells, p, t, child).Keys == paths'.Keys
            && forall r :: r in paths' && r != [] ==> Parent(r) in paths'
  {
    assert Parent(p + [t]) == p;
  }

  lemma LinkedAddDown<D>(paths: map<Path, Node<D>>, cells: map<Path, Cell<D>>, p: Path, t: string, child: Node<D>, r: Path, u: string)
    requires Linked(paths, cells) && p in paths && p + [t] !in paths
    requires r in CellsWith(cells, p, t, child) && u in CellsWith(cells, p, t, child)[r].children
    ensures r + [u] in paths[p + [t] := child]
    ensures CellsWith(cells, p, t, child)[r].children[u] == paths[p + [t] := child][r + [u]]
  {
    AppendInjective(r, u, p, t);
    AppendInjective(p, t, r, u);
  }

  lemma LinkedAddUp<D>(paths: map<Path, Node<D>>, cells: map<Path, Cell<D>>, p: Path, t: string, child: Node<D>, r: Path, u: string)
    requires Linked(paths, cells) && p in paths && p + [t] !in paths
    requires r in paths[p + [t] := child] && r + [u] in paths[p + [t] := child]
    ensures r in CellsWith(cells, p, t, child) && u in CellsWith(cells, p, t, child)[r].children
  {
    AppendInjective(r, u, p, t);
    AppendInjective(p, t, r, u);
    assert Parent(r + [u]) == r;
  }

  lemma LinkedAdd<D>(paths: map<Path, Node<D>>, cells: map<Path, Cell<D>>, p: Path, t: string, child: Node<D>)
    requires Linked(paths, cells) && p in paths && p + [t] !in paths
    ensures Linked(paths[p + [t] := child], CellsWith(cells, p, t, child))
  {
    hide CellsWith;
    var paths', cells' := paths[p + [t] := child], CellsWith(cells, p, t, child);
    LinkedAddParents(paths, cells, p, t, child);
    forall r, u | r in paths' && r + [u] in paths' ensures u in cells'[r].children {
      LinkedAddUp(paths, cells, p, t, child, r, u);
    }
    forall r, u | r in paths' && u in cells'[r].children
      ensures r + [u] in paths' && cells'[r].children[u] == paths'[r + [u]]
    {
      LinkedAddDown(paths, cells, p, t, child, r, u);
    }
  }

  lemma AppendInjective(p: Path, t: string, q: Path, u: string)
    ensures p + [t] == q + [u] ==> p == q && t == u
    ensures p + [t] != p
  {
    assert Parent(p + [t]) == p && Parent(q + [u]) == q;
    assert (p + [t])[|p|] == t && (q + [u])[|q|] == u;
  }

  lemma KeyedAdd<D>(cells: map<Path, Cell<D>>, p: Path, t: string, child: Node<D>)
    requires Keyed(cells) && p in cells && p + [t] !in cells
    ensures Keyed(CellsWith(cells, p, t, child))
  {
    assert p != p + [t];
  }

  lemma DataAdd<D>(cells: map<Path, Cell<D>>, p: Path, t: string, child: Node<D>)
    requires p in cells && p + [t] !in cells
    ensures DataOf(CellsWith(cells, p, t, child)) == DataOf(cells)[p + [t] := None]
    ensures [] in cells ==> [] in CellsWith(cells, p, t, child) && CellsWith(cells, p, t, child)[[]].data == cells[[]].data
  {
    assert p != p + [t] && [] != p + [t];
  }

  lemma DistinctAdd<D>(paths: map<Path, Node<D>>, q: Path, child: Node<D>)
    requires Distinct(paths) && q !in paths && forall r :: r in paths ==> paths[r] != child
    ensures Distinct(paths[q := child])
  {
  }

  lemma WellFormedAdd<D>(paths: map<Path, Node<D>>, cells: map<Path, Cell<D>>, p: Path, t: string, child: Node<D>)
    requires WellFormed(paths, cells) && p in paths && t !in cells[p].children
    requires forall r :: r in paths ==> paths[r] != child
    ensures p in cells && WellFormed(paths[p + [t] := child], CellsWith(cells, p, t, child))
    ensures DataOf(CellsWith(cells, p, t, child)) == DataOf(cells)[p + [t] := None]
  {
    hide Linked;
    hide Distinct;
    hide Keyed;
    hide CellsWith;
    hide DataOf;
    NewPath(paths, cells, p, t);
    LinkedKeys(paths, cells);
    LinkedAdd(paths, cells, p, t, child);
    KeyedAdd(cells, p, t, child);
    DataAdd(cells, p, t, child);
    DistinctAdd(paths, p + [t], child);
    LinkedKeys(paths[p + [t] := child], CellsWith(cells, p, t, child));
  }

  lemma LinkedKeys<D>(paths: map<Path, Node<D>>, cells: map<Path, Cell<D>>)
    requires Linked(paths, cells)
    ensures cells.Keys == paths.Keys
  {
  }

  // ---------- paths ----------

  lemma {:induction false} PrefixClosed<D>(paths: map<Path, Node<D>>, cells: map<Path, Cell<D>>, p: Path, q: Path)
    requires WellFormed(paths, cells) && q in paths && p <= q
    ensures p in paths
    decreases |q|
  {
    hide Distinct;
    hide Keyed;
    if p != q {
      assert p <= Parent(q);
      PrefixClosed(paths, cells, p, Parent(q));
    }
  }

  lemma ChildPath<D>(paths: map<Path, Node<D>>, cells: map<Path, Cell<D>>, p: Path, t: string)
    requires WellFormed(paths, cells) && p in paths
    ensures cells.Keys == paths.Keys
    ensures t in cells[p].children <==> p + [t] in paths
    ensures t in cells[p].children ==> cells[p].children[t] == paths[p + [t]]
  {
    hide Distinct;
    hide Keyed;
  }

  lemma TokensStep(key: string, from: nat, p: Path)
    ensures var t := NextToken(key, from);
            if t == "" then p + TokensFrom(key, from) == p
            else p + TokensFrom(key, from) == (p + [t]) + TokensFrom(key, from + |t| + 1)
  {
    hide NextToken;
  }

  lemma WithPathStep<D>(c: Contents<D>, p: Path, t: string)
    ensures WithPath(c, p + [t]) ==
            if p + [t] in WithPath(c, p) then WithPath(c, p) else WithPath(c, p)[p + [t] := None]
  {
    var q := p + [t];
    assert Prefixes(q) == Prefixes(p) + {q} by {
      forall r ensures r in Prefixes(q) <==> r in Prefixes(p) || r == q {
        if r in Prefixes(q) {
          var n :| 0 <= n <= |q| && r == q[..n];
          assert n <= |p| ==> r == p[..n];
        }
        if r in Prefixes(p) {
          var n :| 0 <= n <= |p| && r == p[..n];
          assert r == q[..n];
        }
        assert q == q[..|q|];
      }
    }
    assert q !in Prefixes(p);
  }

  lemma InsertedAt<D>(c: Contents<D>, ts: Path, data: Option<D>, p: Path)
    ensures p in Inserted(c, ts, data) <==> p in c || p <= ts
    ensures p in Inserted(c, ts, data) ==>
              Inserted(c, ts, data)[p] == if p == ts then data else if p in c then c[p] else None
  {
    if p in Prefixes(ts) {
      var n :| 0 <= n <= |ts| && p == ts[..n];
    }
    if p <= ts {
      assert p == ts[..|p|];
    }
    assert ts == ts[..|ts|];
  }

  lemma WithPathStart<D>(c: Contents<D>)
    requires [] in c
    ensures WithPath(c, []) == c
  {
    var e: Path := [];
    assert e[..0] == e;
    assert Prefixes(e) == {e};
  }

  lemma SameLinks<D>(paths: map<Path, Node<D>>, cells: map<Path, Cell<D>>, cells': map<Path, Cell<D>>)
    requires Linked(paths, cells) && Keyed(cells) && cells'.Keys == cells.Keys
    requires forall p :: p in cells ==> cells'[p].children == cells[p].children && cells'[p].key == cells[p].key
    ensures Linked(paths, cells') && Keyed(cells')
  {
  }

  lemma SetDataKeeps<D>(paths: map<Path, Node<D>>, cells: map<Path, Cell<D>>, p: Path, data: Option<D>)
    requires WellFormed(paths, cells) && p in cells && p != []
    ensures WellFormed(paths, cells[p := cells[p].(data := data)])
    ensures DataOf(cells[p := cells[p].(data := data)]) == DataOf(cells)[p := data]
  {
    hide Distinct;
    hide Linked;
    hide Keyed;
    LinkedKeys(paths, cells);
    SameLinks(paths, cells, cells[p := cells[p].(data := data)]);
  }

  // ---------- dropping ----------

  /** Everything strictly below `p` is forgotten. */
  ghost function Prune<D>(paths: map<Path, Node<D>>, p: Path): map<Path, Node<D>> {
    map q | q in paths && !(p < q) :: paths[q]
  }

  ghost function PruneCells<D>(cells: map<Path, Cell<D>>, p: Path): map<Path, Cell<D>> {
    map q | q in cells && !(p < q) :: if q == p then cells[q].(children := map[]) else cells[q]
  }

  /** `q` lies strictly below a child of `p` whose token is in `done`. */
  predicate BelowDone(q: Path, p: Path, done: set<string>) {
    |q| > |p| + 1 && p < q && q[|p|] in done
  }

  predicate ChildDone(q: Path, p: Path, done: set<string>) {
    |q| == |p| + 1 && p < q && q[|p|] in done
  }

  /** The tree when the children `done` of `p` have been emptied. */
  ghost function Part<D>(paths: map<Path, Node<D>>, p: Path, done: set<string>): map<Path, Node<D>> {
    map q | q in paths && !BelowDone(q, p, done) :: paths[q]
  }

  ghost function PartCells<D>(cells: map<Path, Cell<D>>, p: Path, done: set<string>): map<Path, Cell<D>> {
    map q | q in cells && !BelowDone(q, p, done) ::
      if ChildDone(q, p, done) then cells[q].(children := map[]) else cells[q]
  }

  lemma StepBelow(p: Path, t: string, q: Path)
    ensures p + [t] < q <==> |q| > |p| + 1 && p < q && q[|p|] == t
    ensures p + [t] == q <==> |q| == |p| + 1 && p < q && q[|p|] == t
  {
    if p < q && q[|p|] == t {
      assert q[..|p| + 1] == p + [t];
    }
    if p + [t] <= q {
      assert (p + [t])[|p|] == q[|p|];
      assert p == (p + [t])[..|p|] == q[..|p|];
    }
  }

  lemma PartStart<D>(paths: map<Path, Node<D>>, cells: map<Path, Cell<D>>, p: Path)
    ensures Part(paths, p, {}) == paths && PartCells(cells, p, {}) == cells
  {
  }

  lemma PartStep<D>(paths: map<Path, Node<D>>, p: Path, done: set<string>, t: string)
    ensures Prune(Part(paths, p, done), p + [t]) == Part(paths, p, done + {t})
  {
    forall q ensures p + [t] < q <==> BelowDone(q, p, {t}) {
      StepBelow(p, t, q);
    }
  }

  lemma PartCellsStep<D>(cells: map<Path, Cell<D>>, p: Path, done: set<string>, t: string)
    ensures PruneCells(PartCells(cells, p, done), p + [t]) == PartCells(cells, p, done + {t})
  {
    forall q ensures (p + [t] < q <==> BelowDone(q, p, {t})) && (p + [t] == q <==> ChildDone(q, p, {t})) {
      StepBelow(p, t, q);
    }
  }

  lemma PartEnd<D>(paths: map<Path, Node<D>>, cells: map<Path, Cell<D>>, p: Path, done: set<string>)
    ensures Prune(Part(paths, p, done), p) == Prune(paths, p)
    ensures PruneCells(PartCells(cells, p, done), p) == PruneCells(cells, p)
  {
  }

  lemma PruneParents<D>(paths: map<Path, Node<D>>, cells: map<Path, Cell<D>>, p: Path)
    requires Linked(paths, cells)
    ensures PruneCells(cells, p).Keys == Prune(paths, p).Keys
    ensures forall r :: r in Prune(paths, p) && r != [] ==> Parent(r) in Prune(paths, p)
  {
    forall r | r in Prune(paths, p) && r != [] ensures Parent(r) in Prune(paths, p) {
      assert p < Parent(r) ==> p < r;
    }
  }

  lemma PruneChild(p: Path, r: Path, t: string)
    ensures p < r + [t] ==> p <= r
    ensures p < r ==> p < r + [t]
    ensures r < r + [t]
  {
    if p < r + [t] {
      assert p == (r + [t])[..|p|] == r[..|p|];
    }
  }

  lemma PruneDown<D>(paths: map<Path, Node<D>>, cells: map<Path, Cell<D>>, p: Path, r: Path, t: string)
    requires Linked(paths, cells) && r in PruneCells(cells, p) && t in PruneCells(cells, p)[r].children
    ensures r + [t] in Prune(paths, p)
    ensures PruneCells(cells, p)[r].children[t] == Prune(paths, p)[r + [t]]
  {
    PruneChild(p, r, t);
  }

  lemma PruneUp<D>(paths: map<Path, Node<D>>, cells: map<Path, Cell<D>>, p: Path, r: Path, t: string)
    requires Linked(paths, cells) && r in Prune(paths, p) && r + [t] in Prune(paths, p)
    ensures r in PruneCells(cells, p) && t in PruneCells(cells, p)[r].children
  {
    PruneChild(p, r, t);
  }

  lemma LinkedPrune<D>(paths: map<Path, Node<D>>, cells: map<Path, Cell<D>>, p: Path)
    requires Linked(paths, cells)
    ensures Linked(Prune(paths, p), PruneCells(cells, p))
  {
    hide Prune;
    hide PruneCells;
    var paths', cells' := Prune(paths, p), PruneCells(cells, p);
    PruneParents(paths, cells, p);
    forall r, t | r in paths' && r + [t] in paths' ensures t in cells'[r].children {
      PruneUp(paths, cells, p, r, t);
    }
    forall r, t | r in paths' && t in cells'[r].children
      ensures r + [t] in paths' && cells'[r].children[t] == paths'[r + [t]]
    {
      PruneDown(paths, cells, p, r, t);
    }
  }

  lemma WellFormedPrune<D>(paths: map<Path, Node<D>>, cells: map<Path, Cell<D>>, p: Path)
    requires WellFormed(paths, cells)
    ensures WellFormed(Prune(paths, p), PruneCells(cells, p))
  {
    hide Linked;
    LinkedKeys(paths, cells);
    LinkedPrune(paths, cells, p);
  }

  /** The cells once the emptied child `t` of `p` is unhooked. */
  ghost function CellsWithout<D>(cells: map<Path, Cell<D>>, p: Path, t: string): map<Path, Cell<D>>
    requires p in cells
  {
    cells[p := cells[p].(children := cells[p].children - {t})] - {p + [t]}
  }

  lemma CellsWithoutAt<D>(cells: map<Path, Cell<D>>, p: Path, t: string, r: Path)
    requires p in cells
    ensures r in CellsWithout(cells, p, t) <==> r in cells && r != p + [t]
    ensures r in CellsWithout(cells, p, t) ==>
              CellsWithout(cells, p, t)[r] ==
              if r == p then cells[r].(children := cells[r].children - {t}) else cells[r]
  {
  }

  lemma UnhookUp<D>(paths: map<Path, Node<D>>, cells: map<Path, Cell<D>>, p: Path, t: string, r: Path, u: string)
    requires Linked(paths, cells) && p in cells && r in paths - {p + [t]} && r + [u] in paths - {p + [t]}
    ensures r in CellsWithout(cells, p, t) && u in CellsWithout(cells, p, t)[r].children
  {
    hide CellsWithout;
    CellsWithoutAt(cells, p, t, r);
  }

  lemma UnhookDown<D>(paths: map<Path, Node<D>>, cells: map<Path, Cell<D>>, p: Path, t: string, r: Path, u: string)
    requires Linked(paths, cells) && p in cells
    requires r in CellsWithout(cells, p, t) && u in CellsWithout(cells, p, t)[r].children
    ensures r + [u] in paths - {p + [t]} && CellsWithout(cells, p, t)[r].children[u] == (paths - {p + [t]})[r + [u]]
  {
    hide CellsWithout;
    CellsWithoutAt(cells, p, t, r);
    AppendInjective(r, u, p, t);
  }

  /** A node without children is nobody's parent. */
  lemma NotParent<D>(paths: map<Path, Node<D>>, cells: map<Path, Cell<D>>, q: Path, r: Path)
    requires Linked(paths, cells) && q in paths && cells[q].children == map[] && r in paths && r != []
    ensures Parent(r) in paths && Parent(r) != q
  {
    assert Parent(r) + [r[|r| - 1]] == r;
  }

  lemma UnhookParents<D>(paths: map<Path, Node<D>>, cells: map<Path, Cell<D>>, p: Path, t: string)
    requires Linked(paths, cells) && p in paths && p + [t] in paths && cells[p + [t]].children == map[]
    ensures CellsWithout(cells, p, t).Keys == (paths - {p + [t]}).Keys
    ensures forall r :: r in paths - {p + [t]} && r != [] ==> Parent(r) in paths - {p + [t]}
  {
    hide Linked;
    LinkedKeys(paths, cells);
    assert p != p + [t];
    forall r | r in paths - {p + [t]} && r != [] ensures Parent(r) in paths - {p + [t]} {
      NotParent(paths, cells, p + [t], r);
    }
  }

  lemma LinkedUnhook<D>(paths: map<Path, Node<D>>, cells: map<Path, Cell<D>>, p: Path, t: string)
    requires Linked(paths, cells) && p in paths && p + [t] in paths && cells[p + [t]].children == map[]
    ensures Linked(paths - {p + [t]}, CellsWithout(cells, p, t))
  {
    hide CellsWithout;
    UnhookParents(paths, cells, p, t);
    var paths', cells' := paths - {p + [t]}, CellsWithout(cells, p, t);
    forall r, u | r in paths' && r + [u] in paths' ensures u in cells'[r].children {
      UnhookUp(paths, cells, p, t, r, u);
    }
    forall r, u | r in paths' && u in cells'[r].children
      ensures r + [u] in paths' && cells'[r].children[u] == paths'[r + [u]]
    {
      UnhookDown(paths, cells, p, t, r, u);
    }
  }

  lemma WellFormedUnhook<D>(paths: map<Path, Node<D>>, cells: map<Path, Cell<D>>, p: Path, t: string)
    requires WellFormed(paths, cells) && p in paths && p + [t] in paths && cells[p + [t]].children == map[]
    ensures p in cells && WellFormed(paths - {p + [t]}, CellsWithout(cells, p, t))
    ensures DataOf(CellsWithout(cells, p, t)) == DataOf(cells) - {p + [t]}
  {
    hide Linked;
    LinkedKeys(paths, cells);
    LinkedUnhook(paths, cells, p, t);
    LinkedKeys(paths - {p + [t]}, CellsWithout(cells, p, t));
    assert [] != p + [t];
  }

  // ---------- the callbacks of a drop ----------

  /** "/" before every token */
  function Slashed(ts: Path): string {
    if ts == [] then "" else Slashed(ts[..|ts| - 1]) + "/" + ts[|ts| - 1]
  }

  /** What a callback is given. */
  datatype Event<+D> = Event(path: string, data: Option<D>)

  /** No node is reported before one of its descendants, and none twice. */
  ghost predicate DescendantsFirst(order: seq<Path>) {
    forall i, j :: 0 <= i < j < |order| ==> !(order[i] <= order[j])
  }

  ghost predicate ListsBelow<D>(order: seq<Path>, cells: map<Path, Cell<D>>, p: Path, done: set<string>) {
    forall q :: q in order <==> q in cells && p < q && q[|p|] in done
  }

  ghost predicate Lists<D>(order: seq<Path>, cells: map<Path, Cell<D>>, p: Path) {
    forall q :: q in order <==> q in cells && p <= q
  }

  ghost function EventsOf<D>(order: seq<Path>, cells: map<Path, Cell<D>>, stem: string, base: nat): seq<Event<D>>
    requires forall q :: q in order ==> q in cells && base <= |q|
  {
    seq(|order|, i requires 0 <= i < |order| => Event(stem + Slashed(order[i][base..]), cells[order[i]].data))
  }

  lemma ListsStep<D>(order: seq<Path>, more: seq<Path>, cells: map<Path, Cell<D>>, p: Path, done: set<string>, t: string)
    requires ListsBelow(order, cells, p, done) && t !in done && Lists(more, PartCells(cells, p, done), p + [t])
    requires DescendantsFirst(order) && DescendantsFirst(more)
    ensures ListsBelow(order + more, cells, p, done + {t}) && DescendantsFirst(order + more)
  {
    forall q ensures q in order + more <==> q in cells && p < q && q[|p|] in done + {t} {
      StepBelow(p, t, q);
    }
    forall i, j | 0 <= i < |order| && 0 <= j < |more| ensures !(order[i] <= more[j]) {
      assert order[i] in order && more[j] in more;
      StepBelow(p, t, more[j]);
    }
  }

  lemma ListsEnd<D>(order: seq<Path>, paths: map<Path, Node<D>>, cells: map<Path, Cell<D>>, p: Path)
    requires WellFormed(paths, cells) && p in cells
    requires ListsBelow(order, cells, p, cells[p].children.Keys) && DescendantsFirst(order)
    ensures Lists(order + [p], cells, p) && DescendantsFirst(order + [p])
  {
    hide WellFormed;
    LinkedKeysOf(paths, cells);
    forall q | q in cells && p < q ensures q[|p|] in cells[p].children {
      assert p + [q[|p|]] <= q by {
        assert q[..|p| + 1] == p + [q[|p|]];
      }
      PrefixClosed(paths, cells, p + [q[|p|]], q);
      ChildPath(paths, cells, p, q[|p|]);
    }
    forall q ensures q in order + [p] <==> q in cells && p <= q {
      assert p <= q <==> p < q || p == q;
    }
    forall i | 0 <= i < |order| ensures !(order[i] <= p) {
      assert order[i] in order;
    }
  }

  lemma LinkedKeysOf<D>(paths: map<Path, Node<D>>, cells: map<Path, Cell<D>>)
    requires WellFormed(paths, cells)
    ensures cells.Keys == paths.Keys
  {
  }

  lemma EventsPart<D>(order: seq<Path>, cells: map<Path, Cell<D>>, p: Path, done: set<string>, stem: string, base: nat)
    requires forall q :: q in order ==> q in PartCells(cells, p, done) && base <= |q|
    ensures EventsOf(order, PartCells(cells, p, done), stem, base) == EventsOf(order, cells, stem, base)
  {
    assert forall q :: q in order ==> q in cells;
  }

  lemma EventsConcat<D>(a: seq<Path>, b: seq<Path>, cells: map<Path, Cell<D>>, stem: string, base: nat)
    requires forall q :: q in a + b ==> q in cells && base <= |q|
    ensures (forall q :: q in a ==> q in cells && base <= |q|) && forall q :: q in b ==> q in cells && base <= |q|
    ensures EventsOf(a + b, cells, stem, base) == EventsOf(a, cells, stem, base) + EventsOf(b, cells, stem, base)
  {
    assert forall q :: q in a ==> q in a + b;
    assert forall q :: q in b ==> q in a + b;
  }

  lemma WellFormedRoot<D>(root: Node<D>)
    ensures var cells: map<Path, Cell<D>> := map[[] := Cell("root", map[], None)];
            WellFormed(map[[] := root], cells) && DataOf(cells) == map[[] := None]
  {
  }

  class DirTree<D> {
    const root: Node<D>
    ghost var paths: map<Path, Node<D>>

    ghost function Nodes(): set<Node<D>>
      reads this
    {
      set p | p in paths :: paths[p]
    }

    ghost function Cells(): map<Path, Cell<D>>
      reads this, Nodes()
    {
      map p | p in paths :: Cell(paths[p].key, paths[p].children, paths[p].data)
    }

    ghost predicate Valid()
      reads this, Nodes()
    {
      WellFormed(paths, Cells()) && paths[[]] == root
    }

    ghost function Contents(): Contents<D>
      reads this, Nodes()
    {
      DataOf(Cells())
    }

    constructor ()
      ensures Valid() && fresh(Nodes()) && Contents() == map[[] := None]
    {
      hide WellFormed;
      root := new Node<D>("root");
      new;
      paths := map[[] := root];
      assert Cells() == map[[] := Cell("root", map[], None)];
      WellFormedRoot(root);
    }

    method SetChildren(node: Node<D>, kids: map<string, Node<D>>, ghost p: Path)
      requires Distinct(paths) && p in paths && paths[p] == node
      modifies node
      ensures Cells() == old(Cells())[p := old(Cells()[p]).(children := kids)]
    {
      node.children := kids;
    }

    method SetData(node: Node<D>, data: Option<D>, ghost p: Path)
      requires Distinct(paths) && p in paths && paths[p] == node
      modifies node
      ensures Cells() == old(Cells())[p := old(Cells()[p]).(data := data)]
    {
      node.data := data;
    }

    ghost method Register(q: Path, child: Node<D>)
      modifies this
      ensures paths == old(paths)[q := child]
      ensures Cells() == old(Cells())[q := Cell(child.key, child.children, child.data)]
    {
      paths := paths[q := child];
    }

    /** Hangs `child` under the node at `p`. */
    method Link(node: Node<D>, t: string, child: Node<D>, ghost p: Path)
      requires Distinct(paths) && p in paths && paths[p] == node && p + [t] !in paths
      requires child.key == t && child.children == map[] && child.data == None
      requires forall r :: r in paths ==> paths[r] != child
      modifies this, node
      ensures paths == old(paths)[p + [t] := child] && Cells() == CellsWith(old(Cells()), p, t, child)
    {
      hide Distinct;
      SetChildren(node, node.children[t := child], p);
      Register(p + [t], child);
    }

    /** Adds the missing child `t` of the node at `p`. */
    method AddChild(node: Node<D>, t: string, ghost p: Path) returns (child: Node<D>)
      requires Valid() && p in paths && paths[p] == node && t !in node.children
      modifies this, node
      ensures Valid() && fresh(child)
      ensures paths == old(paths)[p + [t] := child]
      ensures Contents() == old(Contents())[p + [t] := None]
    {
      hide WellFormed;
      hide DataOf;
      hide CellsWith;
      hide Distinct;
      ghost var cells := Cells();
      NewPath(paths, cells, p, t);
      Separate(paths, cells);
      child := new Node<D>(t);
      assert Cells() == cells;
      WellFormedAdd(paths, cells, p, t, child);
      Link(node, t, child, p);
    }

    /** One turn of the insertion loop: the child `t` of the node at `p`, created if missing. */
    method Descend(node: Node<D>, t: string, ghost p: Path) returns (child: Node<D>)
      requires Valid() && p in paths && paths[p] == node
      modifies this, node
      ensures Valid() && fresh(Nodes() - old(Nodes()))
      ensures p + [t] in paths && paths[p + [t]] == child
      ensures Contents() == if p + [t] in old(Contents()) then old(Contents()) else old(Contents())[p + [t] := None]
    {
      hide WellFormed;
      hide DataOf;
      hide Distinct;
      ChildPath(paths, Cells(), p, t);
      DataKeys(Cells());
      if t !in node.children {
        child := AddChild(node, t, p);
        ChildPath(paths, Cells(), p, t);
      } else {
        child := node.children[t];
      }
    }

    /** The insertion loop: walks down the key's tokens and creates what is missing. */
    method Grow(key: string) returns (node: Node<D>)
      requires Valid()
      modifies this, Nodes()
      ensures Valid() && fresh(Nodes() - old(Nodes()))
      ensures Tokens(key) in paths && node == paths[Tokens(key)]
      ensures Contents() == WithPath(old(Contents()), Tokens(key))
    {
      hide WellFormed;
      hide DataOf;
      hide WithPath;
      hide NextToken;
      hide TokensFrom;
      hide Distinct;
      hide Cells;
      var full := Normalize(key);
      node := root;
      var from := 0;
      var token := NextToken(full, 0);
      ghost var p: Path := [];
      StartAtRoot();
      WithPathStart(Contents());
      assert [] + TokensFrom(full, 0) == Tokens(key);
      while token != ""
        invariant Valid() && fresh(Nodes() - old(Nodes()))
        invariant p in paths && paths[p] == node && token == NextToken(full, from)
        invariant p + TokensFrom(full, from) == Tokens(key)
        invariant Contents() == WithPath(old(Contents()), p)
        decreases if from <= |full| then |full| - from else 0
      {
        TokensStep(full, from, p);
        TokenAdvances(full, from);
        WithPathStep(old(Contents()), p, token);
        node := Descend(node, token, p);
        p := p + [token];
        from := from + |token| + 1;
        token := NextToken(full, from);
      }
      TokensStep(full, from, p);
    }

    lemma StartAtRoot()
      requires Valid()
      ensures [] in paths && paths[[]] == root && [] in Contents()
    {
    }

    method Insert(key: string, data: Option<D>)
      requires Valid()
      modifies this, Nodes()
      ensures Valid() && fresh(Nodes() - old(Nodes()))
      ensures Contents() == Inserted(old(Contents()), Tokens(key), data)
    {
      hide WellFormed;
      hide DataOf;
      hide WithPath;
      hide Tokens;
      hide Distinct;
      var node := Grow(key);
      Separate(paths, Cells());
      SetDataKeeps(paths, Cells(), Tokens(key), data);
      SetData(node, data, Tokens(key));
    }

    method Search(key: string, accept: (string, string) -> bool) returns (r: Option<D>)
      requires Valid()
      ensures r == Found(Contents(), Tokens(key), accept)
    {
      hide WellFormed;
      hide DataOf;
      hide NextToken;
      hide TokensFrom;
      hide Distinct;
      var full := Normalize(key);
      var from := 0;
      var found := false;
      var node := root;
      ghost var p: Path := [];
      ghost var cells := Cells();
      ghost var ts := Tokens(key);
      Separate(paths, cells);
      DataKeys(cells);
      assert [] + TokensFrom(full, 0) == ts;
      while true
        invariant Cells() == cells && p in paths && paths[p] == node && found == (p != [])
        invariant p + TokensFrom(full, from) == ts
        decreases if from <= |full| then |full| - from else 0
      {
        TokensStep(full, from, p);
        TokenAdvances(full, from);
        var token := NextToken(full, from);
        if token == "" {
          assert p == ts;
          break;
        }
        from := from + |token| + 1;
        ChildPath(paths, cells, p, token);
        if token !in node.children {
          TokensStep(full, from, p + [token]);
          MissingChild(paths, cells, p, token, ts);
          if NextToken(full, from) != "" {
            LongerThan(p + [token], TokensFrom(full, from), ts);
            return None;
          }
          assert Parent(ts) == p && ts[|ts| - 1] == token;
          ChildPath(paths, cells, p, "*");
          if "*" !in node.children {
            return None;
          }
          var wild := node.children["*"];
          KeyOf(paths, cells, p + ["*"]);
          if !accept(wild.key, token) {
            found := false;
          }
          return if found then wild.data else None;
        }
        node := node.children[token];
        p := p + [token];
        found := true;
      }
      assert Contents()[ts] == cells[p].data == node.data;
      return if found then node.data else None;
    }

    ghost method Forget(p: Path)
      modifies this
      ensures paths == Prune(old(paths), p) && Cells() == Above(old(Cells()), p)
    {
      paths := Prune(paths, p);
    }

    /** Empties the node at `p`. */
    method Clear(node: Node<D>, ghost p: Path)
      requires Valid() && p in paths && paths[p] == node
      modifies this, node
      ensures Valid() && paths == Prune(old(paths), p) && Cells() == PruneCells(old(Cells()), p)
      ensures Nodes() <= old(Nodes())
    {
      hide WellFormed;
      hide Distinct;
      hide Above;
      hide PruneCells;
      ghost var cells := Cells();
      Separate(paths, cells);
      WellFormedPrune(paths, cells, p);
      PrunedRoot(paths, cells, p);
      SetChildren(node, map[], p);
      Forget(p);
      AboveIsPruned(cells, p);
    }

    /**
      Drops everything below the node at `p`, children in any order, and reports
      the nodes. `order` records which node each report is about.
     */
    method DropChildren(node: Node<D>, suffix: string, stem: string, ghost p: Path, ghost base: nat)
      returns (events: seq<Event<D>>, ghost order: seq<Path>)
      requires Valid() && p in paths && paths[p] == node
      requires base < |p| && suffix == Slashed(p[base..|p| - 1])
      modifies this, Nodes()
      ensures Valid() && paths == Prune(old(paths), p) && Cells() == PruneCells(old(Cells()), p)
      ensures Nodes() <= old(Nodes())
      ensures Lists(order, old(Cells()), p) && DescendantsFirst(order)
      ensures forall q :: q in order ==> q in old(Cells()) && base <= |q|
      ensures events == EventsOf(order, old(Cells()), stem, base)
      decreases Below(paths, p)
    {
      hide WellFormed;
      hide Distinct;
      hide Part;
      hide PartCells;
      hide Prune;
      hide PruneCells;
      hide Lists;
      hide ListsBelow;
      hide DescendantsFirst;
      hide EventsOf;
      hide Slashed;
      ghost var paths0, cells0 := paths, Cells();
      PartStart(paths0, cells0, p);
      NothingListed(cells0, p, stem, base);
      KeyOf(paths, cells0, p);
      SlashedStep(p, base);
      var here := suffix + "/" + node.key;
      events, order := [], [];
      var todo := node.children.Keys;
      ghost var done: set<string> := {};
      while todo != {}
        invariant Valid() && Nodes() <= old(Nodes())
        invariant paths == Part(paths0, p, done) && Cells() == PartCells(cells0, p, done)
        invariant p in paths && paths[p] == node && Cells()[p] == cells0[p]
        invariant todo !! done && todo + done == cells0[p].children.Keys
        invariant ListsBelow(order, cells0, p, done) && DescendantsFirst(order)
        invariant forall q :: q in order ==> q in cells0 && base <= |q|
        invariant events == EventsOf(order, cells0, stem, base)
        decreases todo
      {
        var t :| t in todo;
        ChildPath(paths, Cells(), p, t);
        BelowShrinks(paths0, p, done, t);
        KidPath(p, t, base);
        var e, o := DropChildren(node.children[t], here, stem, p + [t], base);
        PartStep(paths0, p, done, t);
        DropStep(cells0, p, done, t, order, o, stem, base);
        events, order := events + e, order + o;
        todo, done := todo - {t}, done + {t};
        PartHere(paths0, cells0, p, done);
      }
      assert done == cells0[p].children.Keys;
      var data := node.data;
      Clear(node, p);
      PartEnd(paths0, cells0, p, done);
      DropEnd(paths0, cells0, p, order, stem, base);
      events, order := events + [Event(stem + here, data)], order + [p];
    }

    /** Removes the emptied child `t` of the node at `p`. */
    method Unhook(parent: Node<D>, t: string, ghost p: Path)
      requires Valid() && p in paths && paths[p] == parent && p + [t] in paths && Cells()[p + [t]].children == map[]
      modifies this, parent
      ensures Valid() && paths == old(paths) - {p + [t]} && Contents() == old(Contents()) - {p + [t]}
    {
      hide WellFormed;
      hide Distinct;
      hide DataOf;
      ghost var cells := Cells();
      Separate(paths, cells);
      WellFormedUnhook(paths, cells, p, t);
      SetChildren(parent, parent.children - {t}, p);
      ghost var mid := Cells();
      paths := paths - {p + [t]};
      assert Cells() == mid - {p + [t]} == CellsWithout(cells, p, t);
    }

    method DropTree(full: string, parent: Node<D>, child: Node<D>, ghost p: Path, ghost t: string)
      returns (events: seq<Event<D>>, ghost order: seq<Path>)
      requires Valid() && p in paths && paths[p] == parent && p + [t] in paths && paths[p + [t]] == child
      modifies this, Nodes()
      ensures Valid() && Nodes() <= old(Nodes()) && Contents() == Dropped(old(Contents()), p + [t])
      ensures Lists(order, old(Cells()), p + [t]) && DescendantsFirst(order)
      ensures forall q :: q in order ==> q in old(Cells()) && |p| <= |q|
      ensures events == EventsOf(order, old(Cells()), Stem(full), |p|)
    {
      hide WellFormed;
      hide Distinct;
      hide DataOf;
      hide Lists;
      hide DescendantsFirst;
      hide EventsOf;
      hide Prune;
      hide PruneCells;
      hide Dropped;
      hide Stem;
      ghost var q, cells := p + [t], Cells();
      KeyOf(paths, cells, q);
      Separate(paths, cells);
      ChildPath(paths, cells, p, t);
      var key := child.key;
      assert q[|p|..|q| - 1] == [];
      events, order := DropChildren(child, "", Stem(full), q, |p|);
      PrunedPair(old(paths), cells, p, t);
      PrunedData(cells, q);
      Unhook(parent, key, p);
    }

    /** The walk of `drop` down to the node of a key and its parent. */
    method Walk(key: string) returns (found: bool, parent: Node<D>, node: Node<D>)
      requires Valid()
      ensures found <==> Tokens(key) in paths
      ensures found ==> Parent(Tokens(key)) in paths
      ensures found ==> node == paths[Tokens(key)] && parent == paths[Parent(Tokens(key))]
    {
      hide WellFormed;
      hide NextToken;
      hide TokensFrom;
      hide Distinct;
      var full := Normalize(key);
      var from := 0;
      node, parent := root, root;
      ghost var p: Path := [];
      ghost var cells := Cells();
      ghost var ts := Tokens(key);
      Separate(paths, cells);
      assert [] + TokensFrom(full, 0) == ts;
      while true
        invariant Cells() == cells && p in paths && paths[p] == node
        invariant p + TokensFrom(full, from) == ts
        invariant p != [] ==> Parent(p) in paths && paths[Parent(p)] == parent
        decreases if from <= |full| then |full| - from else 0
      {
        TokensStep(full, from, p);
        TokenAdvances(full, from);
        var token := NextToken(full, from);
        if token == "" {
          return true, parent, node;
        }
        ChildPath(paths, cells, p, token);
        parent := node;
        if token !in node.children {
          MissingChild(paths, cells, p, token, ts);
          return false, parent, node;
        }
        node := node.children[token];
        assert Parent(p + [token]) == p;
        p := p + [token];
        from := from + |token| + 1;
      }
    }

    method Drop(key: string) returns (events: seq<Event<D>>, ghost order: seq<Path>)
      requires Valid()
      modifies this, Nodes()
      ensures Valid() && Nodes() <= old(Nodes())
      ensures Contents() == Dropped(old(Contents()), Tokens(key))
      ensures if Tokens(key) in old(Contents()) then Lists(order, old(Cells()), Tokens(key)) else order == []
      ensures DescendantsFirst(order)
      ensures forall q :: q in order ==> q in old(Cells()) && |Tokens(key)| - 1 <= |q|
      ensures events == EventsOf(order, old(Cells()), Stem(Normalize(key)), |Tokens(key)| - 1)
    {
      hide WellFormed;
      hide DataOf;
      hide Distinct;
      hide EventsOf;
      hide DescendantsFirst;
      hide Lists;
      hide Stem;
      hide Dropped;
      hide Tokens;
      var found, parent, node := Walk(key);
      ghost var ts := Tokens(key);
      DataKeys(Cells());
      Separate(paths, Cells());
      if found {
        ghost var last := ts[|ts| - 1];
        assert Parent(ts) + [last] == ts;
        events, order := DropTree(Normalize(key), parent, node, Parent(ts), last);
      } else {
        NothingDropped(paths, Cells(), ts, Stem(Normalize(key)), |ts| - 1);
        events, order := [], [];
      }
    }
  }

  /** Index of the last slash, or the length. */
  function LastSlash(s: string): (n: nat)
    ensures n <= |s| && (n < |s| ==> s[n] == '/')
    ensures forall i :: n < i < |s| ==> s[i] != '/'
    ensures n == |s| ==> '/' !in s
  {
    if s == "" then 0
    else if s[|s| - 1] == '/' then |s| - 1
    else
      var n := LastSlash(s[..|s| - 1]);
      if n == |s| - 1 then |s| else n
  }

  /** The part of the normalized key that is put before every reported suffix. */
  function Stem(full: string): string {
    full[..LastSlash(full)]
  }

  lemma PrunedPair<D>(paths: map<Path, Node<D>>, cells: map<Path, Cell<D>>, p: Path, t: string)
    requires cells.Keys == paths.Keys && p in paths && p + [t] in paths
    ensures p in Prune(paths, p + [t]) && Prune(paths, p + [t])[p] == paths[p]
    ensures p + [t] in Prune(paths, p + [t]) && p + [t] in PruneCells(cells, p + [t])
    ensures PruneCells(cells, p + [t])[p + [t]].children == map[]
  {
  }

  lemma PrunedData<D>(cells: map<Path, Cell<D>>, q: Path)
    ensures DataOf(PruneCells(cells, q)) - {q} == Dropped(DataOf(cells), q)
  {
    forall r | r in cells ensures q <= r <==> q < r || q == r {
    }
  }

  /** Dropping an absent path changes and reports nothing. */
  lemma NothingDropped<D>(paths: map<Path, Node<D>>, cells: map<Path, Cell<D>>, ts: Path, stem: string, base: nat)
    requires WellFormed(paths, cells) && ts !in paths
    ensures Dropped(DataOf(cells), ts) == DataOf(cells) && ts !in DataOf(cells)
    ensures DescendantsFirst([]) && EventsOf([], cells, stem, base) == []
  {
    hide WellFormed;
    LinkedKeysOf(paths, cells);
    forall q | q in cells ensures !(ts <= q) {
      if ts <= q {
        PrefixClosed(paths, cells, ts, q);
      }
    }
  }

  /** The reports after one more child has been dropped. */
  lemma DropStep<D>(cells: map<Path, Cell<D>>, p: Path, done: set<string>, t: string, order: seq<Path>, more: seq<Path>,
                    stem: string, base: nat)
    requires ListsBelow(order, cells, p, done) && t !in done && Lists(more, PartCells(cells, p, done), p + [t])
    requires DescendantsFirst(order) && DescendantsFirst(more)
    requires forall q :: q in order ==> q in cells && base <= |q|
    requires forall q :: q in more ==> q in PartCells(cells, p, done) && base <= |q|
    ensures PruneCells(PartCells(cells, p, done), p + [t]) == PartCells(cells, p, done + {t})
    ensures ListsBelow(order + more, cells, p, done + {t}) && DescendantsFirst(order + more)
    ensures forall q :: q in order + more ==> q in cells && base <= |q|
    ensures EventsOf(order + more, cells, stem, base) ==
            EventsOf(order, cells, stem, base) + EventsOf(more, PartCells(cells, p, done), stem, base)
  {
    hide *;
    PartCellsStep(cells, p, done, t);
    ListsStep(order, more, cells, p, done, t);
    EventsPart(more, cells, p, done, stem, base);
    InPart(more, cells, p, done);
    EventsConcat(order, more, cells, stem, base);
  }

  /** The reports once the node itself has been reported. */
  lemma DropEnd<D>(paths: map<Path, Node<D>>, cells: map<Path, Cell<D>>, p: Path, order: seq<Path>, stem: string, base: nat)
    requires WellFormed(paths, cells) && p in cells && base < |p|
    requires ListsBelow(order, cells, p, cells[p].children.Keys) && DescendantsFirst(order)
    requires forall q :: q in order ==> q in cells && base <= |q|
    ensures Lists(order + [p], cells, p) && DescendantsFirst(order + [p])
    ensures forall q :: q in order + [p] ==> q in cells && base <= |q|
    ensures EventsOf(order + [p], cells, stem, base) ==
            EventsOf(order, cells, stem, base) + [Event(stem + Slashed(p[base..]), cells[p].data)]
  {
    hide *;
    ListsEnd(order, paths, cells, p);
    EventsConcat(order, [p], cells, stem, base);
    LastEvent(p, cells, stem, base);
  }

  ghost function Above<D>(cells: map<Path, Cell<D>>, p: Path): map<Path, Cell<D>> {
    map q | q in cells && !(p < q) :: cells[q]
  }

  lemma AboveIsPruned<D>(cells: map<Path, Cell<D>>, p: Path)
    requires p in cells
    ensures Above(cells[p := cells[p].(children := map[])], p) == PruneCells(cells, p)
  {
  }

  lemma NothingListed<D>(cells: map<Path, Cell<D>>, p: Path, stem: string, base: nat)
    ensures ListsBelow([], cells, p, {}) && DescendantsFirst([]) && EventsOf([], cells, stem, base) == []
  {
  }

  lemma SlashedStep(p: Path, base: nat)
    requires base < |p|
    ensures Slashed(p[base..]) == Slashed(p[base..|p| - 1]) + "/" + p[|p| - 1]
  {
    var s := p[base..];
    assert s[..|s| - 1] == p[base..|p| - 1];
  }

  lemma KidPath(p: Path, t: string, base: nat)
    requires base < |p|
    ensures base < |p + [t]| && (p + [t])[base..|p + [t]| - 1] == p[base..]
  {
  }

  lemma BelowShrinks<D>(paths: map<Path, Node<D>>, p: Path, done: set<string>, t: string)
    requires p + [t] in Part(paths, p, done)
    ensures Below(Part(paths, p, done), p + [t]) < Below(paths, p)
  {
    assert p < p + [t];
    assert p + [t] in Below(paths, p);
    forall q | q in Below(Part(paths, p, done), p + [t]) ensures q in Below(paths, p) {
      StepBelow(p, t, q);
    }
  }

  lemma InPart<D>(order: seq<Path>, cells: map<Path, Cell<D>>, p: Path, done: set<string>)
    requires forall q :: q in order ==> q in PartCells(cells, p, done)
    ensures forall q :: q in order ==> q in cells
  {
  }

  lemma PartHere<D>(paths: map<Path, Node<D>>, cells: map<Path, Cell<D>>, p: Path, done: set<string>)
    requires p in paths && p in cells
    ensures p in Part(paths, p, done) && Part(paths, p, done)[p] == paths[p]
    ensures p in PartCells(cells, p, done) && PartCells(cells, p, done)[p] == cells[p]
  {
  }

  lemma LastEvent<D>(p: Path, cells: map<Path, Cell<D>>, stem: string, base: nat)
    requires p in cells && base <= |p|
    ensures EventsOf([p], cells, stem, base) == [Event(stem + Slashed(p[base..]), cells[p].data)]
  {
  }

  ghost function Below<D>(paths: map<Path, Node<D>>, p: Path): set<Path> {
    set q | q in paths && p < q
  }

  lemma PrunedRoot<D>(paths: map<Path, Node<D>>, cells: map<Path, Cell<D>>, p: Path)
    requires WellFormed(paths, cells)
    ensures [] in paths && [] in Prune(paths, p) && Prune(paths, p)[[]] == paths[[]]
  {
  }

  lemma DataKeys<D>(cells: map<Path, Cell<D>>)
    ensures DataOf(cells).Keys == cells.Keys
    ensures forall p :: p in cells ==> DataOf(cells)[p] == cells[p].data
  {
  }

  lemma TokenAdvances(key: string, from: nat)
    ensures var t := NextToken(key, from); t != "" ==> from + |t| <= |key|
  {
  }

  lemma KeyOf<D>(paths: map<Path, Node<D>>, cells: map<Path, Cell<D>>, p: Path)
    requires WellFormed(paths, cells) && p in paths && p != []
    ensures p in cells && cells[p].key == p[|p| - 1]
  {
    hide Distinct;
    LinkedKeys(paths, cells);
  }

  /** Where a child is missing, nothing below it exists. */
  lemma MissingChild<D>(paths: map<Path, Node<D>>, cells: map<Path, Cell<D>>, p: Path, t: string, ts: Path)
    requires WellFormed(paths, cells) && p + [t] !in paths && p + [t] <= ts
    ensures ts !in paths
    ensures |ts| > |p| + 1 ==> Parent(ts) !in paths
  {
    hide WellFormed;
    if ts in paths {
      PrefixClosed(paths, cells, p + [t], ts);
    }
    if |ts| > |p| + 1 && Parent(ts) in paths {
      assert p + [t] <= Parent(ts);
      PrefixClosed(paths, cells, p + [t], Parent(ts));
    }
  }

  lemma LongerThan(p: Path, rest: Path, ts: Path)
    requires p + rest == ts && rest != []
    ensures |ts| > |p|
  {
  }

  lemma Separate<D>(paths: map<Path, Node<D>>, cells: map<Path, Cell<D>>)
    requires WellFormed(paths, cells)
    ensures Distinct(paths) && [] in paths && cells.Keys == paths.Keys
  {
  }
}
