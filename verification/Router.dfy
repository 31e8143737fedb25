/**
  The HTTP router (http-router.cpp): one directory tree per method. Looking a
  route up agrees with a linear scan of the registrations.
 */
module Router {
  import opened DirTree

  type Method = int

  datatype Route = Route(verb: Method, path: string, handler: int)

  // ---------- the linear scan ----------

  /** The latest registration of these tokens. */
  function Latest(regs: seq<Route>, m: Method, ts: Path): Option<Route> {
    if regs == [] then None
    else if regs[|regs| - 1].verb == m && Tokens(regs[|regs| - 1].path) == ts then Some(regs[|regs| - 1])
    else Latest(regs[..|regs| - 1], m, ts)
  }

  /** Some registered route is strictly longer than these tokens. */
  predicate Extended(regs: seq<Route>, m: Method, ts: Path) {
    exists i :: 0 <= i < |regs| && regs[i].verb == m && ts < Tokens(regs[i].path)
  }

  /**
    The latest route with these tokens; else nothing if they are a proper prefix
    of a registered route; else the latest "*" route beside the last token.
   */
  function Scan(regs: seq<Route>, m: Method, path: string): Option<Route> {
    var ts := Tokens(path);
    var exact := Latest(regs, m, ts);
    if exact.Some? then exact
    else if Extended(regs, m, ts) || |ts| == 1 then None
    else Latest(regs, m, Parent(ts) + ["*"])
  }

  // ---------- the tree of a method ----------

  function TreeOf(regs: seq<Route>, m: Method): Contents<Route> {
    if regs == [] then map[[] := None] else
      var c, last := TreeOf(regs[..|regs| - 1], m), regs[|regs| - 1];
      if last.verb == m then Inserted(c, Tokens(last.path), Some(last)) else c
  }

  function SearchCbk(treeToken: string, searchToken: string): bool {
    treeToken == "*"
  }

  lemma ExtendedSnoc(regs: seq<Route>, r: Route, m: Method, p: Path)
    ensures Extended(regs + [r], m, p) <==> Extended(regs, m, p) || (r.verb == m && p < Tokens(r.path))
  {
    hide Tokens;
    var all := regs + [r];
    if Extended(regs, m, p) {
      var i :| 0 <= i < |regs| && regs[i].verb == m && p < Tokens(regs[i].path);
      assert all[i] == regs[i];
    }
    if r.verb == m && p < Tokens(r.path) {
      assert all[|regs|] == r;
    }
  }

  /** A path is in the tree when it is the root, a registered route, or a prefix of one; its data is the latest route. */
  lemma {:induction false} TreeMeaning(regs: seq<Route>, m: Method, p: Path)
    ensures p in TreeOf(regs, m) <==> p == [] || Latest(regs, m, p).Some? || Extended(regs, m, p)
    ensures p in TreeOf(regs, m) ==> TreeOf(regs, m)[p] == Latest(regs, m, p)
    decreases |regs|
  {
    hide Tokens;
    hide Inserted;
    if regs != [] {
      var init, last := regs[..|regs| - 1], regs[|regs| - 1];
      assert regs == init + [last];
      TreeMeaning(init, m, p);
      ExtendedSnoc(init, last, m, p);
      InsertedAt(TreeOf(init, m), Tokens(last.path), Some(last), p);
    }
  }

  lemma {:induction false} RootUnrouted(regs: seq<Route>, m: Method)
    ensures Latest(regs, m, []) == None
    decreases |regs|
  {
    if regs != [] {
      RootUnrouted(regs[..|regs| - 1], m);
    }
  }

  /** A registered route makes its parent a proper prefix. */
  lemma {:induction false} LatestExtends(regs: seq<Route>, m: Method, p: Path, t: string)
    requires Latest(regs, m, p + [t]).Some? || Extended(regs, m, p + [t])
    ensures Extended(regs, m, p)
    decreases |regs|
  {
    hide Tokens;
    assert p < p + [t];
    if Extended(regs, m, p + [t]) {
      var i :| 0 <= i < |regs| && regs[i].verb == m && p + [t] < Tokens(regs[i].path);
      assert p < Tokens(regs[i].path);
    } else {
      var init, last := regs[..|regs| - 1], regs[|regs| - 1];
      assert regs == init + [last];
      ExtendedSnoc(init, last, m, p);
      if last.verb != m || Tokens(last.path) != p + [t] {
        LatestExtends(init, m, p, t);
      }
    }
  }

  /** Searching the tree is scanning the registrations. */
  lemma ScanIsSearch(regs: seq<Route>, m: Method, path: string)
    ensures Found(TreeOf(regs, m), Tokens(path), SearchCbk) == Scan(regs, m, path)
  {
    hide Tokens;
    hide TreeOf;
    hide Extended;
    hide Latest;
    var ts := Tokens(path);
    TreeMeaning(regs, m, ts);
    if |ts| > 1 {
      var up := Parent(ts);
      TreeMeaning(regs, m, up);
      TreeMeaning(regs, m, up + ["*"]);
      if Latest(regs, m, up + ["*"]).Some? || Extended(regs, m, up + ["*"]) {
        LatestExtends(regs, m, up, "*");
      }
    }
  }

  lemma {:induction false} Unregistered(regs: seq<Route>, m: Method, path: string)
    requires forall i :: 0 <= i < |regs| ==> regs[i].verb != m
    ensures Scan(regs, m, path) == None
  {
    hide Tokens;
    LatestNone(regs, m, Tokens(path));
    if |Tokens(path)| > 1 {
      LatestNone(regs, m, Parent(Tokens(path)) + ["*"]);
    }
  }

  lemma {:induction false} LatestNone(regs: seq<Route>, m: Method, ts: Path)
    requires forall i :: 0 <= i < |regs| ==> regs[i].verb != m
    ensures Latest(regs, m, ts) == None
    decreases |regs|
  {
    hide Tokens;
    if regs != [] {
      LatestNone(regs[..|regs| - 1], m, ts);
    }
  }

  /** A registration changes the tree of its own method only. */
  lemma TreeSnoc(regs: seq<Route>, r: Route, m: Method)
    ensures TreeOf(regs + [r], m) ==
            if r.verb == m then Inserted(TreeOf(regs, m), Tokens(r.path), Some(r)) else TreeOf(regs, m)
  {
    hide Tokens;
    hide Inserted;
    var all := regs + [r];
    assert all[..|all| - 1] == regs;
  }

  lemma {:induction false} TreeStart(regs: seq<Route>, m: Method)
    requires forall i :: 0 <= i < |regs| ==> regs[i].verb != m
    ensures TreeOf(regs, m) == map[[] := None]
    decreases |regs|
  {
    hide Tokens;
    hide Inserted;
    if regs != [] {
      TreeStart(regs[..|regs| - 1], m);
    }
  }

  // ---------- the router ----------

  /** A tree none of whose objects changed still is what it was. */
  twostate lemma Untouched(tree: DirTree<Route>)
    requires old(tree.Valid()) && unchanged(tree) && forall x :: x in old(tree.Nodes()) ==> unchanged(x)
    ensures tree.Valid() && tree.Contents() == old(tree.Contents()) && tree.Nodes() == old(tree.Nodes())
  {
    hide WellFormed;
    hide DataOf;
  }

  class Router {
    var routes: map<Method, DirTree<Route>>
    ghost var registered: seq<Route>

    ghost function Trees(): set<DirTree<Route>>
      reads this
    {
      set m | m in routes :: routes[m]
    }

    ghost function Nodes(): set<Node<Route>>
      reads this, Trees()
    {
      set m, x | m in routes && x in routes[m].Nodes() :: x
    }

    /** Trees of different methods share nothing. */
    ghost predicate Apart()
      reads this, Trees()
    {
      forall m, n :: m in routes && n in routes && m != n ==>
        routes[m] != routes[n] && routes[m].Nodes() !! routes[n].Nodes()
    }

    ghost predicate TreeOk(m: Method)
      requires m in routes
      reads this, Trees(), Nodes()
    {
      routes[m].Valid() && routes[m].Contents() == TreeOf(registered, m)
    }

    ghost predicate Valid()
      reads this, Trees(), Nodes()
    {
      && Apart()
      && (forall m :: m in routes ==> TreeOk(m))
      && (forall i :: 0 <= i < |registered| ==> registered[i].verb in routes)
    }

    constructor ()
      ensures Valid() && registered == []
    {
      routes := map[];
      registered := [];
    }

    method GetRoute(m: Method, path: string) returns (r: Option<Route>)
      requires Valid()
      ensures r == Scan(registered, m, path)
    {
      hide Found;
      hide Scan;
      hide Tokens;
      hide TreeOf;
      hide WellFormed;
      hide DataOf;
      if m !in routes {
        Unregistered(registered, m, path);
        return None;
      }
      assert TreeOk(m);
      ScanIsSearch(registered, m, path);
      label before:
      r := routes[m].Search(path, SearchCbk);
      Untouched@before(routes[m]);
    }

    /** A fresh tree for a new method keeps every other tree as it was. */
    twostate lemma OthersKept(m: Method, new tree: DirTree<Route>)
      requires old(Valid()) && m !in old(routes) && routes == old(routes)[m := tree]
      requires registered == old(registered)
      requires forall n :: n in old(routes) ==> unchanged(old(routes[n])) && forall x :: x in old(routes[n].Nodes()) ==> unchanged(x)
      ensures forall n :: n in old(routes) ==> TreeOk(n) && routes[n].Nodes() == old(routes[n].Nodes())
    {
      hide TreeOf;
      hide WellFormed;
      hide DataOf;
      forall n | n in old(routes) ensures TreeOk(n) && routes[n].Nodes() == old(routes[n].Nodes()) {
        assert old(TreeOk(n));
        Untouched(routes[n]);
      }
    }

    twostate lemma Joined(m: Method, new tree: DirTree<Route>)
      requires old(Apart()) && m !in old(routes) && routes == old(routes)[m := tree]
      requires fresh(tree) && fresh(tree.Nodes())
      requires forall n :: n in old(routes) ==> routes[n].Nodes() == old(routes[n].Nodes())
      ensures Apart()
      ensures fresh(Trees() - old(Trees())) && fresh(Nodes() - old(Nodes()))
    {
      hide WellFormed;
      hide DataOf;
      forall x | x in Nodes() ensures x in old(Nodes()) || x in tree.Nodes() {
        var n :| n in routes && x in routes[n].Nodes();
        assert n != m ==> x in old(routes[n].Nodes());
      }
    }

    /** A fresh, empty tree for a method without routes. */
    twostate lemma Opened(m: Method, new tree: DirTree<Route>)
      requires old(Valid()) && m !in old(routes) && routes == old(routes)[m := tree]
      requires registered == old(registered)
      requires forall n :: n in old(routes) ==> unchanged(old(routes[n])) && forall x :: x in old(routes[n].Nodes()) ==> unchanged(x)
      requires fresh(tree) && fresh(tree.Nodes()) && tree.Valid() && tree.Contents() == TreeOf(registered, m)
      ensures Valid() && fresh(Trees() - old(Trees())) && fresh(Nodes() - old(Nodes()))
    {
      hide TreeOf;
      hide WellFormed;
      hide DataOf;
      OthersKept(m, tree);
      Joined(m, tree);
      assert TreeOk(m);
    }

    /** The tree of a method, created on first use. */
    method GetDirTree(m: Method) returns (tree: DirTree<Route>)
      requires Valid()
      modifies this`routes
      ensures Valid() && m in routes && routes[m] == tree
      ensures fresh(Trees() - old(Trees())) && fresh(Nodes() - old(Nodes()))
    {
      hide TreeOf;
      hide WellFormed;
      hide DataOf;
      if m in routes {
        return routes[m];
      }
      tree := new DirTree<Route>();
      TreeStart(registered, m);
      routes := routes[m := tree];
      Opened(m, tree);
    }

    /** The other trees after one tree has been inserted into. */
    twostate lemma OthersStand(route: Route)
      requires old(Valid()) && route.verb in old(routes) && routes == old(routes)
      requires registered == old(registered) + [route]
      requires forall n :: n in old(routes) && n != route.verb ==>
                 unchanged(old(routes[n])) && forall x :: x in old(routes[n].Nodes()) ==> unchanged(x)
      ensures forall n :: n in routes && n != route.verb ==> TreeOk(n) && routes[n].Nodes() == old(routes[n].Nodes())
    {
      hide TreeOf;
      hide WellFormed;
      hide DataOf;
      forall n | n in routes && n != route.verb ensures TreeOk(n) && routes[n].Nodes() == old(routes[n].Nodes()) {
        assert old(TreeOk(n));
        Untouched(routes[n]);
        TreeSnoc(old(registered), route, n);
      }
    }

    twostate lemma StillApart(m: Method)
      requires old(Apart()) && m in old(routes) && routes == old(routes)
      requires fresh(routes[m].Nodes() - old(routes[m].Nodes()))
      requires forall n :: n in routes && n != m ==> routes[n].Nodes() == old(routes[n].Nodes())
      ensures Apart() && fresh(Nodes() - old(Nodes()))
    {
      hide WellFormed;
      hide DataOf;
      forall x | x in Nodes() ensures x in old(Nodes()) || x in routes[m].Nodes() - old(routes[m].Nodes()) {
        var n :| n in routes && x in routes[n].Nodes();
        if n != m || x in old(routes[m].Nodes()) {
          assert x in old(routes[n].Nodes());
        }
      }
    }

    twostate lemma Added(route: Route)
      requires old(Valid()) && route.verb in old(routes) && routes == old(routes)
      requires registered == old(registered) + [route]
      requires forall n :: n in old(routes) && n != route.verb ==>
                 unchanged(old(routes[n])) && forall x :: x in old(routes[n].Nodes()) ==> unchanged(x)
      requires routes[route.verb].Valid() && fresh(routes[route.verb].Nodes() - old(routes[route.verb].Nodes()))
      requires routes[route.verb].Contents() ==
               Inserted(old(routes[route.verb].Contents()), Tokens(route.path), Some(route))
      ensures Valid() && fresh(Nodes() - old(Nodes()))
    {
      hide TreeOf;
      hide WellFormed;
      hide DataOf;
      hide Inserted;
      hide Tokens;
      OthersStand(route);
      StillApart(route.verb);
      assert old(TreeOk(route.verb));
      TreeSnoc(old(registered), route, route.verb);
      assert TreeOk(route.verb);
    }

    /** Puts a route into the tree of its method. */
    method AddTo(tree: DirTree<Route>, route: Route)
      requires Valid() && route.verb in routes && routes[route.verb] == tree
      modifies this`registered, tree, tree.Nodes()
      ensures Valid() && registered == old(registered) + [route]
      ensures Trees() == old(Trees()) && fresh(Nodes() - old(Nodes()))
    {
      hide TreeOf;
      hide WellFormed;
      hide DataOf;
      hide Inserted;
      hide Tokens;
      assert TreeOk(route.verb);
      tree.Insert(route.path, Some(route));
      registered := registered + [route];
      Added(route);
    }

    /** Registers a route; from then on every lookup scans one registration more. */
    method AddRoute(route: Route)
      requires Valid()
      modifies this, Trees(), Nodes()
      ensures Valid() && registered == old(registered) + [route]
      ensures fresh(Trees() - old(Trees())) && fresh(Nodes() - old(Nodes()))
    {
      hide TreeOf;
      hide WellFormed;
      hide DataOf;
      var tree := GetDirTree(route.verb);
      AddTo(tree, route);
    }
  }
}
