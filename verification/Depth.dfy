/**
 * Dependency depth, cycle detection and initialisation order (Processor::object_depth and
 * init_depends in processor.cc) over named objects.
 */
module Depth {
  import opened Common
  import opened Processor

  /** Each object's dependencies, by name; a name that is no key is a missing object. */
  type Deps = map<string, seq<string>>

  ghost predicate Follows(m: Deps, a: string, b: string) {
    a in m && b in m[a]
  }

  /** A walk along dependencies; only its last name may be missing. */
  ghost predicate Walk(m: Deps, w: seq<string>) {
    && w != []
    && forall i :: 0 <= i < |w| - 1 ==> Follows(m, w[i], w[i + 1])
  }

  /** A walk that runs into a missing object or comes back to an earlier one. */
  ghost predicate Bad(m: Deps, w: seq<string>) {
    && Walk(m, w)
    && (w[|w| - 1] !in m || exists i, j :: 0 <= i < j < |w| && w[i] == w[j])
  }

  ghost predicate BadFrom(m: Deps, o: string, w: seq<string>) {
    Bad(m, w) && w[0] == o
  }

  ghost predicate Within(m: Deps, w: seq<string>, d: nat)
    requires w != []
  {
    |w| <= d + 1 && w[|w| - 1] in m
  }

  /** `d` is the length of the longest dependency chain from `o`, and every chain ends at an existing object. */
  ghost predicate DepthIs(m: Deps, o: string, d: nat) {
    && o in m
    && (forall w :: Walk(m, w) && w[0] == o ==> Within(m, w, d))
    && (exists w :: Walk(m, w) && w[0] == o && |w| == d + 1)
  }

  lemma WalkTail(m: Deps, w: seq<string>)
    requires Walk(m, w) && |w| > 1
    ensures Walk(m, w[1..]) && Follows(m, w[0], w[1])
  {
    forall i | 0 <= i < |w[1..]| - 1
      ensures Follows(m, w[1..][i], w[1..][i + 1])
    {
      assert Follows(m, w[i + 1], w[i + 2]);
    }
  }

  lemma WalkCons(m: Deps, o: string, w: seq<string>)
    requires Walk(m, w) && Follows(m, o, w[0])
    ensures Walk(m, [o] + w)
  {
    var v := [o] + w;
    forall i | 0 <= i < |v| - 1
      ensures Follows(m, v[i], v[i + 1])
    {
      if i > 0 {
        assert Follows(m, w[i - 1], w[i]);
      }
    }
  }

  lemma WalkAppend(m: Deps, v: seq<string>, w: seq<string>)
    requires Walk(m, v) && Walk(m, w) && Follows(m, v[|v| - 1], w[0])
    ensures Walk(m, v + w)
  {
    var u := v + w;
    forall i | 0 <= i < |u| - 1
      ensures Follows(m, u[i], u[i + 1])
    {
      if i < |v| - 1 {
        assert Follows(m, v[i], v[i + 1]);
      } else if i >= |v| {
        assert Follows(m, w[i - |v|], w[i - |v| + 1]);
      }
    }
  }

  /** A dependency is strictly less deep: the depth is a rank for the graph. */
  lemma DepthDecreases(m: Deps, a: string, da: nat, b: string, db: nat)
    requires DepthIs(m, a, da) && DepthIs(m, b, db) && b in m[a]
    ensures db < da
  {
    var w :| Walk(m, w) && w[0] == b && |w| == db + 1;
    WalkCons(m, a, w);
    assert Within(m, [a] + w, da);
  }

  /** Around a cycle there are walks of every length. */
  lemma {:induction false} Pump(m: Deps, w: seq<string>, i: nat, j: nat, k: nat) returns (v: seq<string>)
    requires Walk(m, w) && i < j < |w| && w[i] == w[j]
    ensures Walk(m, v) && v[0] == w[0] && v[|v| - 1] == w[i] && |v| >= k
  {
    if k == 0 {
      v := w[..i + 1];
      forall x | 0 <= x < |v| - 1
        ensures Follows(m, v[x], v[x + 1])
      {
        assert Follows(m, w[x], w[x + 1]);
      }
    } else {
      var u := Pump(m, w, i, j, k - 1);
      var loop := w[i + 1..j + 1];
      forall x | 0 <= x < |loop| - 1
        ensures Follows(m, loop[x], loop[x + 1])
      {
        assert Follows(m, w[i + 1 + x], w[i + 2 + x]);
      }
      assert Follows(m, w[i], w[i + 1]);
      WalkAppend(m, u, loop);
      v := u + loop;
    }
  }

  lemma DepthBoundsWalk(m: Deps, o: string, d: nat, v: seq<string>)
    requires DepthIs(m, o, d) && Walk(m, v) && v[0] == o
    ensures |v| <= d + 1 && v[|v| - 1] in m
  {
    assert Within(m, v, d);
  }

  /** An object with a depth has no missing name and no cycle below it. */
  lemma DepthExcludesBad(m: Deps, o: string, d: nat, w: seq<string>)
    requires DepthIs(m, o, d)
    ensures !BadFrom(m, o, w)
  {
    if BadFrom(m, o, w) {
      DepthBoundsWalk(m, o, d, w);
      var i, j :| 0 <= i < j < |w| && w[i] == w[j];
      var v := Pump(m, w, i, j, d + 2);
      DepthBoundsWalk(m, o, d, v);
    }
  }

  ghost predicate Bounded(m: Deps, x: string, d: nat) {
    exists e: nat :: e < d && DepthIs(m, x, e)
  }

  lemma DepthFromDependencies(m: Deps, o: string, d: nat, best: seq<string>)
    requires o in m && Walk(m, best) && best[0] == o && |best| == d + 1
    requires forall k :: 0 <= k < |m[o]| ==> Bounded(m, m[o][k], d)
    ensures DepthIs(m, o, d)
  {
    forall w | Walk(m, w) && w[0] == o
      ensures Within(m, w, d)
    {
      if |w| > 1 {
        WalkTail(m, w);
        var k :| 0 <= k < |m[o]| && m[o][k] == w[1];
        assert Bounded(m, m[o][k], d);
        var e: nat :| e < d && DepthIs(m, m[o][k], e);
        assert Within(m, w[1..], e);
      }
    }
  }

  /** Depths already stored by earlier calls. */
  ghost predicate KnownOk(m: Deps, known: map<string, nat>) {
    forall x {:trigger DepthIs(m, x, known[x])} :: x in known ==> DepthIs(m, x, known[x])
  }

  /** The names not yet on the path: what the recursion uses up. */
  ghost function Unvisited(m: Deps, path: seq<string>): set<string> {
    set x | x in m && x !in path
  }

  /**
   * `object_depth`.  It terminates on every graph; -1 comes with a walk, through `path`, into a
   * missing object or back to itself, and anything else is the longest dependency chain.
   */
  method ObjectDepth(m: Deps, known: map<string, nat>, o: string, path: seq<string>)
    returns (depth: int, ghost bad: seq<string>)
    requires o in m && KnownOk(m, known)
    requires Walk(m, path + [o]) && NoRepeat(path) && (forall x :: x in path ==> x in m)
    ensures depth >= -1
    ensures depth == -1 ==> BadFrom(m, (path + [o])[0], bad)
    ensures depth >= 0 ==> DepthIs(m, o, depth)
    decreases |Unvisited(m, path)|
  {
    bad := [];
    if o in known {
      assert DepthIs(m, o, known[o]);
      return known[o], bad;
    }
    if o in path {
      bad := path + [o];
      ghost var i :| 0 <= i < |path| && path[i] == o;
      assert bad[i] == bad[|path|];
      return -1, bad;
    }
    var here := path + [o];
    assert Unvisited(m, here) == Unvisited(m, path) - {o};
    depth := 0;
    ghost var best := [o];
    for k := 0 to |m[o]|
      invariant depth >= 0 && Walk(m, best) && best[0] == o && |best| == depth + 1
      invariant forall j :: 0 <= j < k ==> Bounded(m, m[o][j], depth)
    {
      var d := m[o][k];
      assert Follows(m, o, d);
      assert Walk(m, here + [d]) by {
        assert Walk(m, [d]);
        WalkAppend(m, here, [d]);
      }
      if d !in m {
        bad := here + [d];
        return -1, bad;
      }
      var dd: int;
      dd, bad := ObjectDepth(m, known, d, here);
      if dd == -1 {
        assert (here + [d])[0] == (path + [o])[0];
        return -1, bad;
      }
      ghost var was := depth;
      if dd + 1 > depth {
        depth := dd + 1;
        ghost var w :| Walk(m, w) && w[0] == d && |w| == dd + 1;
        WalkCons(m, o, w);
        best := [o] + w;
      }
      forall j | 0 <= j < k + 1
        ensures Bounded(m, m[o][j], depth)
      {
        if j < k {
          assert Bounded(m, m[o][j], was);
        }
      }
    }
    DepthFromDependencies(m, o, depth, best);
    return depth, bad;
  }

  /** For a call from outside: -1 exactly when a missing object or a cycle can be reached. */
  method DepthOf(m: Deps, known: map<string, nat>, o: string) returns (depth: int)
    requires o in m && KnownOk(m, known)
    ensures depth == -1 <==> exists w :: BadFrom(m, o, w)
    ensures depth == -1 || (depth >= 0 && DepthIs(m, o, depth))
  {
    assert Walk(m, [] + [o]);
    ghost var bad;
    depth, bad := ObjectDepth(m, known, o, []);
    if depth >= 0 {
      forall w
        ensures !BadFrom(m, o, w)
      {
        DepthExcludesBad(m, o, depth, w);
      }
    }
  }

  /** Neither a cycle nor a missing object can be reached from any object. */
  ghost predicate Sound(m: Deps) {
    forall o, w :: o in m ==> !BadFrom(m, o, w)
  }

  ghost predicate Ranked(m: Deps, depth: map<string, nat>) {
    && depth.Keys == m.Keys
    && KnownOk(m, depth)
  }

  /** Every dependency exists and is strictly less deep. */
  ghost predicate Ranks(m: Deps, depth: map<string, nat>) {
    && depth.Keys == m.Keys
    && forall a, b {:trigger Follows(m, a, b)} :: Follows(m, a, b) ==> b in depth && depth[b] < depth[a]
  }

  /** Depths for all objects leave no room for a cycle or a missing name. */
  lemma RankedIsSound(m: Deps, depth: map<string, nat>)
    requires Ranked(m, depth)
    ensures Sound(m)
  {
    forall o, w | o in m
      ensures !BadFrom(m, o, w)
    {
      assert DepthIs(m, o, depth[o]);
      DepthExcludesBad(m, o, depth[o], w);
    }
  }

  lemma DependencyExists(m: Deps, a: string, d: nat, b: string)
    requires DepthIs(m, a, d) && Follows(m, a, b)
    ensures b in m
  {
    assert Walk(m, [a, b]);
    DepthBoundsWalk(m, a, d, [a, b]);
  }

  lemma RankedRanks(m: Deps, depth: map<string, nat>)
    requires Ranked(m, depth)
    ensures Ranks(m, depth)
  {
    forall a, b | Follows(m, a, b)
      ensures b in depth && depth[b] < depth[a]
    {
      assert DepthIs(m, a, depth[a]);
      DependencyExists(m, a, depth[a], b);
      assert DepthIs(m, b, depth[b]);
      DepthDecreases(m, a, depth[a], b, depth[b]);
    }
  }

  /** Every object stands after all its dependencies. */
  ghost predicate DependenciesFirst(m: Deps, order: seq<string>) {
    forall i, j {:trigger Follows(m, order[i], order[j])} ::
      0 <= i < |order| && 0 <= j < |order| && Follows(m, order[i], order[j]) ==> j < i
  }

  /** What the two sorting loops have put out before pass `d`, name `k`. */
  ghost predicate Placed(names: seq<string>, depth: map<string, nat>, order: seq<string>, d: nat, k: nat)
    requires k <= |names| && forall x :: x in names ==> x in depth
  {
    && NoRepeat(order)
    && (forall i :: 0 <= i < |order| ==> order[i] in names && depth[order[i]] <= d)
    && (forall i, j :: 0 <= i < j < |order| ==>
          order[i] in depth && order[j] in depth && depth[order[i]] <= depth[order[j]])
    && (forall j :: 0 <= j < |names| ==>
          (names[j] in order <==> depth[names[j]] < d || (depth[names[j]] == d && j < k)))
  }

  /** The two loops over depths and names: all names, by depth. */
  method ByDepth(names: seq<string>, depth: map<string, nat>, top: nat) returns (order: seq<string>)
    requires NoRepeat(names) && forall x :: x in names ==> x in depth && depth[x] <= top
    ensures Placed(names, depth, order, top + 1, 0)
  {
    order := [];
    for d := 0 to top + 1
      invariant Placed(names, depth, order, d, 0)
    {
      for k := 0 to |names|
        invariant Placed(names, depth, order, d, k)
      {
        if depth[names[k]] == d {
          order := order + [names[k]];
        }
      }
    }
  }

  lemma ByDepthIsInitOrder(m: Deps, names: seq<string>, depth: map<string, nat>, order: seq<string>, top: nat)
    requires Enumerates(names, m) && Ranks(m, depth)
    requires forall x :: x in depth ==> depth[x] <= top
    requires Placed(names, depth, order, top + 1, 0)
    ensures Enumerates(order, m) && DependenciesFirst(m, order)
  {
    forall x
      ensures x in order <==> x in m
    {
      if x in m {
        var j :| 0 <= j < |names| && names[j] == x;
        assert names[j] in order;
      }
    }
  }

  /** One pass of the loop that stores depths. */
  lemma StoreDepth(m: Deps, known: map<string, nat>, o: string, d: nat)
    requires KnownOk(m, known) && DepthIs(m, o, d)
    ensures KnownOk(m, known[o := d])
  {
    var next := known[o := d];
    forall x | x in next
      ensures DepthIs(m, x, next[x])
    {
      if x != o {
        assert DepthIs(m, x, known[x]);
      }
    }
  }

  /**
   * `init_depends`: it fails exactly when a cycle or a missing object can be reached in the init
   * or in the open graph; otherwise the order holds every object once, after all its init
   * dependencies, and the open depths rank the open graph (a dependency is strictly lower), which
   * is the measure that makes recursion along it end.
   */
  method InitDepends(init: Deps, open: Deps, names: seq<string>)
      returns (ok: bool, order: seq<string>, rank: map<string, nat>)
    requires Enumerates(names, init) && Enumerates(names, open)
    ensures ok <==> Sound(init) && Sound(open)
    ensures ok ==> Enumerates(order, init) && DependenciesFirst(init, order)
    ensures ok ==> Ranks(open, rank)
  {
    order, rank := [], map[];
    var initDepth: map<string, nat> := map[];
    var top: nat := 0;
    for k := 0 to |names|
      invariant KnownOk(init, initDepth) && KnownOk(open, rank)
      invariant forall x :: x in rank <==> x in names[..k]
      invariant forall x :: x in initDepth <==> x in names[..k]
      invariant forall x :: x in initDepth ==> initDepth[x] <= top
    {
      var o := names[k];
      var openDepth := DepthOf(open, rank, o);
      if openDepth == -1 {
        return false, order, rank;
      }
      StoreDepth(open, rank, o, openDepth);
      rank := rank[o := openDepth];
      var d := DepthOf(init, initDepth, o);
      if d == -1 {
        return false, order, rank;
      }
      StoreDepth(init, initDepth, o, d);
      initDepth := initDepth[o := d];
      top := if d > top then d else top;
      assert names[..k + 1] == names[..k] + [o];
    }
    assert names[..|names|] == names;
    RankedIsSound(init, initDepth);
    RankedRanks(init, initDepth);
    RankedIsSound(open, rank);
    RankedRanks(open, rank);
    order := ByDepth(names, initDepth, top);
    ByDepthIsInitOrder(init, names, initDepth, order, top);
    ok := true;
  }

  // ---- The numbered graph the scheduler works on (build_rdepends) ----

  /** `find`: the number of a name. */
  method Find(names: seq<string>, n: string) returns (i: nat)
    ensures i <= |names| && (n in names <==> i < |names|)
    ensures i < |names| ==> names[i] == n
  {
    i := 0;
    while i < |names| && names[i] != n
      invariant i <= |names| && n !in names[..i]
    {
      i := i + 1;
    }
    assert names[..i] + names[i..] == names;
  }

  function WithEdge(g: Graph, o: nat, d: nat): Graph
    requires o < |g.depends| && d < |g.rdepends|
  {
    g.(depends := g.depends[o := g.depends[o] + [d]], rdepends := g.rdepends[d := g.rdepends[d] + [o]])
  }

  lemma AddEdge(g: Graph, o: nat, d: nat)
    requires GraphOk(g) && o < |g.depends| && d < |g.depends| && g.rank[d] < g.rank[o]
    ensures GraphOk(WithEdge(g, o, d))
  {
    var h := WithEdge(g, o, d);
    forall x, k | 0 <= x < |h.depends| && 0 <= k < |h.depends[x]|
      ensures Edge(h, x, h.depends[x][k])
    {
      assert (x == o && k == |g.depends[o]|) || Edge(g, x, g.depends[x][k]);
    }
    forall y, k | 0 <= y < |h.depends| && 0 <= k < |h.rdepends[y]|
      ensures Edge(h, h.rdepends[y][k], y)
    {
      assert (y == d && k == |g.rdepends[d]|) || Edge(g, g.rdepends[y][k], y);
    }
  }

  /** Row `o` of the numbered graph is the first `k` names of that object's list. */
  ghost predicate RowIs(g: Graph, names: seq<string>, list: seq<string>, o: nat, k: nat) {
    && o < |g.depends| && k <= |list| && |g.depends[o]| == k
    && forall j :: 0 <= j < k ==> g.depends[o][j] < |names| && names[g.depends[o][j]] == list[j]
  }

  /** Same objects and ranks, and the same rows except row `i`. */
  ghost predicate SameButRow(g: Graph, h: Graph, i: nat) {
    && h.rank == g.rank && |h.depends| == |g.depends|
    && forall o :: 0 <= o < |g.depends| && o != i ==> h.depends[o] == g.depends[o]
  }

  /** The inner loop of `build_rdepends`: it refuses exactly a list with a repeated name. */
  method AddDependencies(names: seq<string>, list: seq<string>, i: nat, g0: Graph) returns (ok: bool, g: Graph)
    requires GraphOk(g0) && |g0.depends| == |names| && i < |names| && RowIs(g0, names, list, i, 0) && NoRepeat(names)
    requires forall k :: 0 <= k < |list| ==> list[k] in names
    requires forall k, j :: 0 <= k < |list| && 0 <= j < |names| && names[j] == list[k] ==> g0.rank[j] < g0.rank[i]
    ensures ok <==> NoRepeat(list)
    ensures ok ==> GraphOk(g) && SameButRow(g0, g, i) && RowIs(g, names, list, i, |list|)
  {
    g := g0;
    for k := 0 to |list|
      invariant GraphOk(g) && SameButRow(g0, g, i) && RowIs(g, names, list, i, k)
      invariant forall a, b :: 0 <= a < b < k ==> list[a] != list[b]
    {
      var d := Find(names, list[k]);
      if d in g.depends[i] {
        ghost var j :| 0 <= j < k && g.depends[i][j] == d;
        assert list[j] == list[k];
        return false, g;
      }
      forall a | 0 <= a < k
        ensures list[a] != list[k]
      {
        assert g.depends[i][a] in g.depends[i];
      }
      AddEdge(g, i, d);
      g := WithEdge(g, i, d);
    }
    ok := true;
  }

  /** Objects without dependencies, numbered and ranked. */
  method Unlinked(names: seq<string>, rank: map<string, nat>) returns (g: Graph)
    requires forall x :: x in names ==> x in rank
    ensures GraphOk(g) && |g.depends| == |names|
    ensures forall j :: 0 <= j < |names| ==> g.rank[j] == rank[names[j]] && g.depends[j] == []
  {
    var top: nat := 0;
    for i := 0 to |names|
      invariant forall j :: 0 <= j < i ==> rank[names[j]] < top
    {
      if rank[names[i]] >= top {
        top := rank[names[i]] + 1;
      }
    }
    var n := |names|;
    g := Graph(seq(n, _ => []), seq(n, _ => []), seq(n, i requires 0 <= i < n => rank[names[i]]), top);
  }

  /**
   * `build_rdepends` on a graph that passed `init_depends`: it succeeds exactly when no list
   * names an object twice, and the numbered graph then has the same dependencies, their converse
   * and no cycle.
   */
  method BuildRdepends(names: seq<string>, open: Deps, rank: map<string, nat>) returns (ok: bool, g: Graph)
    requires Enumerates(names, open) && Ranks(open, rank)
    ensures ok <==> forall n :: n in open ==> NoRepeat(open[n])
    ensures ok ==> GraphOk(g) && |g.depends| == |names|
    ensures ok ==> forall o: nat :: o < |names| ==> RowIs(g, names, open[names[o]], o, |open[names[o]]|)
  {
    g := Unlinked(names, rank);
    var n := |names|;
    for i := 0 to n
      invariant GraphOk(g) && |g.depends| == n
      invariant forall j :: 0 <= j < n ==> g.rank[j] == rank[names[j]]
      invariant forall o: nat :: i <= o < n ==> g.depends[o] == []
      invariant forall o: nat :: o < i ==> RowIs(g, names, open[names[o]], o, |open[names[o]]|)
      invariant forall j :: 0 <= j < i ==> NoRepeat(open[names[j]])
    {
      var list := open[names[i]];
      forall k | 0 <= k < |list|
        ensures list[k] in names && list[k] in rank && rank[list[k]] < rank[names[i]]
      {
        assert Follows(open, names[i], list[k]);
      }
      ghost var was := g;
      ok, g := AddDependencies(names, list, i, g);
      if !ok {
        return;
      }
      forall o: nat | o < i
        ensures RowIs(g, names, open[names[o]], o, |open[names[o]]|)
      {
        assert RowIs(was, names, open[names[o]], o, |open[names[o]]|);
      }
    }
    ok := true;
    forall x | x in open
      ensures NoRepeat(open[x])
    {
      var j :| 0 <= j < n && names[j] == x;
    }
  }
}
