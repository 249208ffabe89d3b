/**
 * Translation of chains of levels into object dependencies (Chains::_init in chains.cc).
 *
 * The names the translation makes up are a datatype: `chains/<chain>/<level>` is a LevelNode,
 * `chains/<chain>/_end` an EndNode and a user's object an Obj.
 */
module Chains {
  import opened Common

  datatype Node = LevelNode(chain: string, level: string) | EndNode(chain: string) | Obj(name: string)

  /** `depends` is the level's own key: every object of the level is given it. */
  datatype Level = Level(name: string, spawn: seq<string>, join: seq<string>, depends: set<Node>, objects: seq<string>)

  type Chains = map<string, seq<Level>>

  /** A generated object and its dependencies. */
  datatype Item = Item(name: string, depends: set<Node>)

  /**
   * The generated configuration: level and end nodes under their own name (a second one of the
   * same name replaces the first), objects under a running number.
   */
  datatype Config = Config(nodes: map<Node, set<Node>>, items: seq<Item>)

  // ---- Pass one: which level spawns which chain ----

  /** Entry `k` of the spawn list of level `i` of the chain numbered `c`. */
  datatype Site = Site(c: nat, i: nat, k: nat)

  ghost predicate Earlier(x: Site, y: Site) {
    x.c < y.c || (x.c == y.c && (x.i < y.i || (x.i == y.i && x.k < y.k)))
  }

  ghost predicate IsLevel(ch: Chains, names: seq<string>, c: nat, i: nat) {
    c < |names| && names[c] in ch && i < |ch[names[c]]|
  }

  ghost predicate IsSpawn(ch: Chains, names: seq<string>, x: Site) {
    IsLevel(ch, names, x.c, x.i) && x.k < |ch[names[x.c]][x.i].spawn|
  }

  ghost function Target(ch: Chains, names: seq<string>, x: Site): string
    requires IsSpawn(ch, names, x)
  {
    ch[names[x.c]][x.i].spawn[x.k]
  }

  ghost function Spawner(ch: Chains, names: seq<string>, x: Site): Node
    requires IsSpawn(ch, names, x)
  {
    LevelNode(names[x.c], ch[names[x.c]][x.i].name)
  }

  ghost predicate JoinsDefined(ch: Chains, l: Level) {
    forall j :: 0 <= j < |l.join| ==> l.join[j] in ch
  }

  /** Every spawned and joined chain exists. */
  ghost predicate AllDefined(ch: Chains, names: seq<string>) {
    && (forall x {:trigger IsSpawn(ch, names, x)} :: IsSpawn(ch, names, x) ==> Target(ch, names, x) in ch)
    && (forall c: nat, i: nat {:trigger IsLevel(ch, names, c, i)} ::
          IsLevel(ch, names, c, i) ==> JoinsDefined(ch, ch[names[c]][i]))
  }

  /** No chain is spawned in two places. */
  ghost predicate SpawnedOnce(ch: Chains, names: seq<string>) {
    forall x, y {:trigger IsSpawn(ch, names, x), IsSpawn(ch, names, y)} ::
      IsSpawn(ch, names, x) && IsSpawn(ch, names, y) && Target(ch, names, x) == Target(ch, names, y) ==> x == y
  }

  ghost predicate Recorded(ch: Chains, names: seq<string>, spawned: map<string, Node>, x: Site)
    requires IsSpawn(ch, names, x)
  {
    var d := Target(ch, names, x);
    d in ch && d in spawned && spawned[d] == Spawner(ch, names, x)
  }

  ghost predicate SpawnedBefore(ch: Chains, names: seq<string>, d: string, p: Site) {
    exists x {:trigger IsSpawn(ch, names, x)} :: IsSpawn(ch, names, x) && Earlier(x, p) && Target(ch, names, x) == d
  }

  /** `spawned` is right about all sites before `p`, and about nothing else. */
  ghost predicate Linked(ch: Chains, names: seq<string>, spawned: map<string, Node>, p: Site) {
    && (forall x {:trigger IsSpawn(ch, names, x)} ::
          IsSpawn(ch, names, x) && Earlier(x, p) ==> Recorded(ch, names, spawned, x))
    && (forall d {:trigger SpawnedBefore(ch, names, d, p)} :: d in spawned ==> SpawnedBefore(ch, names, d, p))
  }

  ghost predicate OnceBefore(ch: Chains, names: seq<string>, p: Site) {
    forall x, y {:trigger IsSpawn(ch, names, x), IsSpawn(ch, names, y)} ::
      IsSpawn(ch, names, x) && IsSpawn(ch, names, y) && Earlier(x, p) && Earlier(y, p) ==>
        Target(ch, names, x) == Target(ch, names, y) ==> x == y
  }

  ghost predicate JoinsBefore(ch: Chains, names: seq<string>, n: nat, m: nat) {
    forall c: nat, i: nat {:trigger IsLevel(ch, names, c, i)} ::
      IsLevel(ch, names, c, i) && (c < n || (c == n && i < m)) ==> JoinsDefined(ch, ch[names[c]][i])
  }

  /** No site lies between `p` and `q`: what is known before `p` is known before `q`. */
  lemma LinkedOn(ch: Chains, names: seq<string>, spawned: map<string, Node>, p: Site, q: Site)
    requires Linked(ch, names, spawned, p) && OnceBefore(ch, names, p) && Earlier(p, q)
    requires forall x :: IsSpawn(ch, names, x) && Earlier(x, q) ==> Earlier(x, p)
    ensures Linked(ch, names, spawned, q) && OnceBefore(ch, names, q)
  {
    forall d | d in spawned
      ensures SpawnedBefore(ch, names, d, q)
    {
      assert SpawnedBefore(ch, names, d, p);
    }
  }

  /** One spawn entry recorded. */
  lemma LinkOne(ch: Chains, names: seq<string>, spawned: map<string, Node>, p: Site, next: map<string, Node>)
    requires Linked(ch, names, spawned, p) && OnceBefore(ch, names, p) && IsSpawn(ch, names, p)
    requires Target(ch, names, p) in ch && Target(ch, names, p) !in spawned
    requires next == spawned[Target(ch, names, p) := Spawner(ch, names, p)]
    ensures Linked(ch, names, next, Site(p.c, p.i, p.k + 1)) && OnceBefore(ch, names, Site(p.c, p.i, p.k + 1))
  {
    var q := Site(p.c, p.i, p.k + 1);
    forall x | IsSpawn(ch, names, x) && Earlier(x, q)
      ensures Recorded(ch, names, next, x) && (x == p || Target(ch, names, x) != Target(ch, names, p))
    {
      assert x == p || Earlier(x, p);
    }
    forall d | d in next
      ensures SpawnedBefore(ch, names, d, q)
    {
      if d in spawned {
        assert SpawnedBefore(ch, names, d, p);
      }
    }
  }

  /** Pass one fails exactly for an undefined chain or one spawned in two places. */
  method LinkSpawns(ch: Chains, names: seq<string>) returns (ok: bool, spawned: map<string, Node>)
    requires Enumerates(names, ch)
    ensures ok <==> AllDefined(ch, names) && SpawnedOnce(ch, names)
    ensures ok ==> Linked(ch, names, spawned, Site(|names|, 0, 0))
  {
    spawned := map[];
    for c := 0 to |names|
      invariant Linked(ch, names, spawned, Site(c, 0, 0)) && OnceBefore(ch, names, Site(c, 0, 0))
      invariant JoinsBefore(ch, names, c, 0)
    {
      var levels := ch[names[c]];
      for i := 0 to |levels|
        invariant Linked(ch, names, spawned, Site(c, i, 0)) && OnceBefore(ch, names, Site(c, i, 0))
        invariant JoinsBefore(ch, names, c, i)
      {
        var l := levels[i];
        for k := 0 to |l.spawn|
          invariant Linked(ch, names, spawned, Site(c, i, k)) && OnceBefore(ch, names, Site(c, i, k))
        {
          var s := l.spawn[k];
          assert IsSpawn(ch, names, Site(c, i, k));
          if s !in ch {
            return false, spawned;
          }
          if s in spawned {
            assert SpawnedBefore(ch, names, s, Site(c, i, k));
            return false, spawned;
          }
          var next := spawned[s := LevelNode(names[c], l.name)];
          LinkOne(ch, names, spawned, Site(c, i, k), next);
          spawned := next;
        }
        assert IsLevel(ch, names, c, i);
        for k := 0 to |l.join|
          invariant forall j :: 0 <= j < k ==> l.join[j] in ch
        {
          if l.join[k] !in ch {
            return false, spawned;
          }
        }
        LinkedOn(ch, names, spawned, Site(c, i, |l.spawn|), Site(c, i + 1, 0));
      }
      LinkedOn(ch, names, spawned, Site(c, |levels|, 0), Site(c + 1, 0, 0));
    }
    ok := true;
  }

  // ---- Pass two: nodes and objects ----

  /** The objects of a level, or its node when it has none. */
  ghost function Outcome(c: string, l: Level): set<Node> {
    if l.objects == [] then {LevelNode(c, l.name)} else set o | o in l.objects :: Obj(o)
  }

  /** What level `i` of chain `c` waits for inside its chain: the level before it, or who spawned the chain. */
  ghost function Before(ch: Chains, spawned: map<string, Node>, c: string, i: nat): set<Node>
    requires c in ch && i <= |ch[c]|
  {
    if i == 0 then
      if c in spawned then {spawned[c]} else {}
    else Outcome(c, ch[c][i - 1])
  }

  ghost function Ends(join: seq<string>): set<Node> {
    set j | j in join :: EndNode(j)
  }

  ghost function ItemsOf(c: string, l: Level, n: nat): seq<Item>
    requires n <= |l.objects|
  {
    seq(n, k requires 0 <= k < n => Item(l.objects[k], {LevelNode(c, l.name)} + l.depends))
  }

  ghost function WithLevels(ch: Chains, spawned: map<string, Node>, from: Config, c: string, n: nat): Config
    requires c in ch && n <= |ch[c]|
  {
    if n == 0 then from
    else
      var g := WithLevels(ch, spawned, from, c, n - 1);
      var l := ch[c][n - 1];
      Config(g.nodes[LevelNode(c, l.name) := Before(ch, spawned, c, n - 1) + Ends(l.join)],
             g.items + ItemsOf(c, l, |l.objects|))
  }

  ghost function WithChain(ch: Chains, spawned: map<string, Node>, from: Config, c: string): Config
    requires c in ch
  {
    var g := WithLevels(ch, spawned, from, c, |ch[c]|);
    g.(nodes := g.nodes[EndNode(c) := Before(ch, spawned, c, |ch[c]|)])
  }

  ghost function Generated(ch: Chains, spawned: map<string, Node>, names: seq<string>, n: nat): Config
    requires n <= |names| && forall x :: x in names ==> x in ch
  {
    if n == 0 then Config(map[], [])
    else WithChain(ch, spawned, Generated(ch, spawned, names, n - 1), names[n - 1])
  }

  method JoinEnds(depends: set<Node>, join: seq<string>) returns (all: set<Node>)
    ensures all == depends + Ends(join)
  {
    all := depends;
    for j := 0 to |join|
      invariant all == depends + Ends(join[..j])
    {
      all := all + {EndNode(join[j])};
      assert join[..j + 1] == join[..j] + [join[j]];
    }
    assert join[..|join|] == join;
  }

  /** One level: its node, then its objects. */
  method AddLevel(c: string, l: Level, depends: set<Node>, g0: Config) returns (g: Config, out: set<Node>)
    ensures g.nodes == g0.nodes[LevelNode(c, l.name) := depends + Ends(l.join)]
    ensures g.items == g0.items + ItemsOf(c, l, |l.objects|)
    ensures out == Outcome(c, l)
  {
    var node := LevelNode(c, l.name);
    var all := JoinEnds(depends, l.join);
    g := g0.(nodes := g0.nodes[node := all]);
    out := {};
    for k := 0 to |l.objects|
      invariant g.nodes == g0.nodes[node := all]
      invariant g.items == g0.items + ItemsOf(c, l, k)
      invariant out == set o | o in l.objects[..k] :: Obj(o)
    {
      g := g.(items := g.items + [Item(l.objects[k], {node} + l.depends)]);
      out := out + {Obj(l.objects[k])};
      assert ItemsOf(c, l, k + 1) == ItemsOf(c, l, k) + [Item(l.objects[k], {node} + l.depends)];
      assert l.objects[..k + 1] == l.objects[..k] + [l.objects[k]];
    }
    assert l.objects[..|l.objects|] == l.objects;
    if |l.objects| == 0 {
      out := {node};
    }
  }

  /** One chain: its levels, then its end. */
  method AddChain(ch: Chains, spawned: map<string, Node>, c: string, from: Config) returns (g: Config)
    requires c in ch
    ensures g == WithChain(ch, spawned, from, c)
  {
    g := from;
    var depends: set<Node> := {};
    if c in spawned {
      depends := {spawned[c]};
    }
    for i := 0 to |ch[c]|
      invariant g == WithLevels(ch, spawned, from, c, i)
      invariant depends == Before(ch, spawned, c, i)
    {
      g, depends := AddLevel(c, ch[c][i], depends, g);
    }
    g := g.(nodes := g.nodes[EndNode(c) := depends]);
  }

  /** The node that waits for everything before level `i`: the level's, or the end of the chain. */
  ghost function NodeAt(ch: Chains, c: string, i: nat): Node
    requires c in ch && i <= |ch[c]|
  {
    if i < |ch[c]| then LevelNode(c, ch[c][i].name) else EndNode(c)
  }

  ghost function JoinsAt(ch: Chains, c: string, i: nat): set<Node>
    requires c in ch && i <= |ch[c]|
  {
    if i < |ch[c]| then Ends(ch[c][i].join) else {}
  }

  /** The last level of the name that level `i` has. */
  ghost function Last(levels: seq<Level>, i: nat, n: nat): (r: nat)
    requires i < n <= |levels|
    ensures i <= r < n && levels[r].name == levels[i].name
    ensures forall k :: r < k < n ==> levels[k].name != levels[i].name
    decreases n
  {
    if n - 1 > i && levels[n - 1].name != levels[i].name then Last(levels, i, n - 1) else n - 1
  }

  ghost predicate IsLast(levels: seq<Level>, i: nat) {
    i < |levels| ==> Last(levels, i, |levels|) == i
  }

  /** Chain `c` is in the configuration: its surviving nodes and all its objects. */
  ghost predicate Holds(ch: Chains, spawned: map<string, Node>, g: Config, c: string)
    requires c in ch
  {
    && (forall i: nat {:trigger NodeAt(ch, c, i)} :: i <= |ch[c]| && IsLast(ch[c], i) ==>
          NodeAt(ch, c, i) in g.nodes && g.nodes[NodeAt(ch, c, i)] == Before(ch, spawned, c, i) + JoinsAt(ch, c, i))
    && (forall i, k {:trigger ch[c][i].objects[k]} :: 0 <= i < |ch[c]| && 0 <= k < |ch[c][i].objects| ==>
          Item(ch[c][i].objects[k], {LevelNode(c, ch[c][i].name)} + ch[c][i].depends) in g.items)
  }

  /** Every chain of an accepted configuration. */
  ghost predicate Complete(ch: Chains, spawned: map<string, Node>, g: Config) {
    forall c {:trigger c in ch} :: c in ch ==> Holds(ch, spawned, g, c)
  }

  lemma {:induction false} LevelsHold(ch: Chains, spawned: map<string, Node>, from: Config, c: string, n: nat)
    requires c in ch && n <= |ch[c]|
    ensures var g := WithLevels(ch, spawned, from, c, n);
      && (forall i: nat {:trigger NodeAt(ch, c, i)} :: i < n && Last(ch[c], i, n) == i ==>
            NodeAt(ch, c, i) in g.nodes && g.nodes[NodeAt(ch, c, i)] == Before(ch, spawned, c, i) + JoinsAt(ch, c, i))
      && (forall i, k {:trigger ch[c][i].objects[k]} :: 0 <= i < n && 0 <= k < |ch[c][i].objects| ==>
            Item(ch[c][i].objects[k], {LevelNode(c, ch[c][i].name)} + ch[c][i].depends) in g.items)
  {
    if n > 0 {
      LevelsHold(ch, spawned, from, c, n - 1);
      var h := WithLevels(ch, spawned, from, c, n - 1);
      var g := WithLevels(ch, spawned, from, c, n);
      var l := ch[c][n - 1];
      var own := ItemsOf(c, l, |l.objects|);
      assert g.items == h.items + own;
      forall i, k | 0 <= i < n && 0 <= k < |ch[c][i].objects|
        ensures Item(ch[c][i].objects[k], {LevelNode(c, ch[c][i].name)} + ch[c][i].depends) in g.items
      {
        if i == n - 1 {
          assert own[k] in own;
        }
      }
      forall i: nat | i < n && Last(ch[c], i, n) == i
        ensures NodeAt(ch, c, i) in g.nodes
        ensures g.nodes[NodeAt(ch, c, i)] == Before(ch, spawned, c, i) + JoinsAt(ch, c, i)
      {
        if i < n - 1 {
          assert ch[c][n - 1].name != ch[c][i].name;
          assert NodeAt(ch, c, i) != LevelNode(c, l.name);
        }
      }
    }
  }

  lemma ChainHolds(ch: Chains, spawned: map<string, Node>, from: Config, c: string)
    requires c in ch
    ensures Holds(ch, spawned, WithChain(ch, spawned, from, c), c)
  {
    LevelsHold(ch, spawned, from, c, |ch[c]|);
  }

  lemma {:induction false} LevelsKeep(ch: Chains, spawned: map<string, Node>, from: Config, c: string, n: nat)
    requires c in ch && n <= |ch[c]|
    ensures var g := WithLevels(ch, spawned, from, c, n);
      && (forall a :: a in from.nodes && (a.LevelNode? ==> a.chain != c) ==>
            a in g.nodes && g.nodes[a] == from.nodes[a])
      && (forall t :: t in from.items ==> t in g.items)
  {
    if n > 0 {
      LevelsKeep(ch, spawned, from, c, n - 1);
    }
  }

  lemma OthersStay(ch: Chains, spawned: map<string, Node>, from: Config, c: string, d: string)
    requires c in ch && d in ch && c != d && Holds(ch, spawned, from, d)
    ensures Holds(ch, spawned, WithChain(ch, spawned, from, c), d)
  {
    LevelsKeep(ch, spawned, from, c, |ch[c]|);
  }

  lemma {:induction false} GeneratedHolds(ch: Chains, spawned: map<string, Node>, names: seq<string>, n: nat, m: nat)
    requires Enumerates(names, ch) && m < n <= |names|
    ensures Holds(ch, spawned, Generated(ch, spawned, names, n), names[m])
  {
    var from := Generated(ch, spawned, names, n - 1);
    if m < n - 1 {
      GeneratedHolds(ch, spawned, names, n - 1, m);
      OthersStay(ch, spawned, from, names[n - 1], names[m]);
    } else {
      ChainHolds(ch, spawned, from, names[m]);
    }
  }

  lemma GeneratedIsComplete(ch: Chains, spawned: map<string, Node>, names: seq<string>)
    requires Enumerates(names, ch)
    ensures Complete(ch, spawned, Generated(ch, spawned, names, |names|))
  {
    forall c | c in ch
      ensures Holds(ch, spawned, Generated(ch, spawned, names, |names|), c)
    {
      var m :| 0 <= m < |names| && names[m] == c;
      GeneratedHolds(ch, spawned, names, |names|, m);
    }
  }

  /** `_init`: the generated configuration is exactly the one specified. */
  method Init(ch: Chains, names: seq<string>) returns (ok: bool, g: Config, spawned: map<string, Node>)
    requires Enumerates(names, ch)
    ensures ok <==> AllDefined(ch, names) && SpawnedOnce(ch, names)
    ensures ok ==> Linked(ch, names, spawned, Site(|names|, 0, 0))
    ensures ok ==> g == Generated(ch, spawned, names, |names|) && Complete(ch, spawned, g)
  {
    g := Config(map[], []);
    ok, spawned := LinkSpawns(ch, names);
    if !ok {
      return;
    }
    for n := 0 to |names|
      invariant g == Generated(ch, spawned, names, n)
    {
      g := AddChain(ch, spawned, names[n], g);
    }
    GeneratedIsComplete(ch, spawned, names);
  }

  // ---- What the generated graph orders ----

  ghost predicate Edge(g: Config, a: Node, b: Node) {
    || (a in g.nodes && b in g.nodes[a])
    || (exists k :: 0 <= k < |g.items| && Obj(g.items[k].name) == a && b in g.items[k].depends)
  }

  ghost predicate Walk(g: Config, w: seq<Node>) {
    forall i :: 0 <= i < |w| - 1 ==> Edge(g, w[i], w[i + 1])
  }

  ghost predicate WalkFrom(g: Config, w: seq<Node>, a: Node, b: Node) {
    |w| > 1 && Walk(g, w) && w[0] == a && w[|w| - 1] == b
  }

  /** `a` depends on `b`, through any number of others. */
  ghost predicate DependsOn(g: Config, a: Node, b: Node) {
    exists w :: WalkFrom(g, w, a, b)
  }

  lemma Direct(g: Config, a: Node, b: Node)
    requires Edge(g, a, b)
    ensures DependsOn(g, a, b)
  {
    assert WalkFrom(g, [a, b], a, b);
  }

  lemma Through(g: Config, a: Node, b: Node, c: Node)
    requires DependsOn(g, a, b) && DependsOn(g, b, c)
    ensures DependsOn(g, a, c)
  {
    var v :| WalkFrom(g, v, a, b);
    var w :| WalkFrom(g, w, b, c);
    var u := v + w[1..];
    forall i | 0 <= i < |u| - 1
      ensures Edge(g, u[i], u[i + 1])
    {
      if i < |v| - 1 {
        assert Edge(g, v[i], v[i + 1]);
      } else {
        assert u[i] == w[i - |v| + 1];
        assert Edge(g, w[i - |v| + 1], w[i - |v| + 2]);
      }
    }
    assert WalkFrom(g, u, a, c);
  }

  /** `rank` shows the graph has no cycle: what `init_depends` makes sure of. */
  ghost predicate Acyclic(g: Config, rank: Node -> nat) {
    forall a, b {:trigger Edge(g, a, b)} :: Edge(g, a, b) ==> rank(b) < rank(a)
  }

  lemma {:induction false} RankFalls(g: Config, rank: Node -> nat, w: seq<Node>, a: Node, b: Node)
    requires Acyclic(g, rank) && WalkFrom(g, w, a, b)
    ensures rank(b) < rank(a)
  {
    assert Edge(g, w[0], w[1]);
    if |w| > 2 {
      var v := w[1..];
      forall i | 0 <= i < |v| - 1
        ensures Edge(g, v[i], v[i + 1])
      {
        assert Edge(g, w[i + 1], w[i + 2]);
      }
      RankFalls(g, rank, v, w[1], b);
    }
  }

  lemma ObjectOnItsLevel(ch: Chains, spawned: map<string, Node>, g: Config, c: string, i: nat, o: string)
    requires c in ch && Holds(ch, spawned, g, c) && i < |ch[c]| && o in ch[c][i].objects
    ensures Edge(g, Obj(o), LevelNode(c, ch[c][i].name))
  {
    var k :| 0 <= k < |ch[c][i].objects| && ch[c][i].objects[k] == o;
    var t := Item(ch[c][i].objects[k], {LevelNode(c, ch[c][i].name)} + ch[c][i].depends);
    assert t in g.items;
    var x :| 0 <= x < |g.items| && g.items[x] == t;
  }

  /** A surviving node depends on the node of the level before it. */
  lemma NodeOnPrevious(ch: Chains, spawned: map<string, Node>, g: Config, c: string, i: nat)
    requires c in ch && Holds(ch, spawned, g, c) && 0 < i <= |ch[c]| && IsLast(ch[c], i)
    ensures DependsOn(g, NodeAt(ch, c, i), LevelNode(c, ch[c][i - 1].name))
  {
    var node := NodeAt(ch, c, i);
    var l := ch[c][i - 1];
    if l.objects == [] {
      assert Edge(g, node, LevelNode(c, l.name));
      Direct(g, node, LevelNode(c, l.name));
    } else {
      var o := l.objects[0];
      assert Obj(o) in Outcome(c, l);
      assert Edge(g, node, Obj(o));
      Direct(g, node, Obj(o));
      ObjectOnItsLevel(ch, spawned, g, c, i - 1, o);
      Direct(g, Obj(o), LevelNode(c, l.name));
      Through(g, node, Obj(o), LevelNode(c, l.name));
    }
  }

  /**
   * Below the second of two levels of one name nothing gets past the first: the walk down from
   * level `p` never reaches level `i`, although every step of it lowers the rank.
   */
  lemma {:induction false} RepeatedNameIsCycle(ch: Chains, spawned: map<string, Node>, g: Config,
                                               rank: Node -> nat, c: string, i: nat, p: nat)
    requires c in ch && Holds(ch, spawned, g, c) && Acyclic(g, rank)
    requires i < |ch[c]| && Last(ch[c], i, |ch[c]|) != i
    requires p < |ch[c]| && IsLast(ch[c], p)
    ensures p <= i
    decreases rank(NodeAt(ch, c, p))
  {
    if p > i {
      NodeOnPrevious(ch, spawned, g, c, p);
      var q := Last(ch[c], p - 1, |ch[c]|);
      var w :| WalkFrom(g, w, NodeAt(ch, c, p), LevelNode(c, ch[c][p - 1].name));
      RankFalls(g, rank, w, NodeAt(ch, c, p), NodeAt(ch, c, q));
      RepeatedNameIsCycle(ch, spawned, g, rank, c, i, q);
    }
  }

  /** A graph the processor accepts has no chain with two levels of one name. */
  lemma AcceptedNamesAreDistinct(ch: Chains, spawned: map<string, Node>, g: Config, rank: Node -> nat,
                                 c: string, i: nat)
    requires c in ch && Holds(ch, spawned, g, c) && Acyclic(g, rank) && i <= |ch[c]|
    ensures IsLast(ch[c], i)
  {
    if i < |ch[c]| && Last(ch[c], i, |ch[c]|) != i {
      RepeatedNameIsCycle(ch, spawned, g, rank, c, i, Last(ch[c], i, |ch[c]|));
    }
  }

  /** No chain has two levels of one name. */
  ghost predicate DistinctLevels(ch: Chains) {
    forall c, i: nat {:trigger ch[c][i]} :: c in ch && i < |ch[c]| ==> IsLast(ch[c], i)
  }

  /** So an acyclic result comes from distinct names only. */
  lemma AcceptedIsDistinct(ch: Chains, spawned: map<string, Node>, g: Config, rank: Node -> nat)
    requires Complete(ch, spawned, g) && Acyclic(g, rank)
    ensures DistinctLevels(ch)
  {
    forall c, i: nat | c in ch && i < |ch[c]|
      ensures IsLast(ch[c], i)
    {
      AcceptedNamesAreDistinct(ch, spawned, g, rank, c, i);
    }
  }

  /** The node of level `j` (or the end) depends on all nodes and objects of earlier levels. */
  lemma {:induction false} NodeOnEarlier(ch: Chains, spawned: map<string, Node>, g: Config, c: string, i: nat, j: nat)
    requires Complete(ch, spawned, g) && DistinctLevels(ch) && c in ch && i < j <= |ch[c]|
    ensures DependsOn(g, NodeAt(ch, c, j), LevelNode(c, ch[c][i].name))
    ensures forall o :: o in ch[c][i].objects ==> DependsOn(g, NodeAt(ch, c, j), Obj(o))
    decreases j
  {
    assert j < |ch[c]| ==> IsLast(ch[c], j);
    NodeOnPrevious(ch, spawned, g, c, j);
    var node := NodeAt(ch, c, j);
    if i == j - 1 {
      forall o | o in ch[c][i].objects
        ensures DependsOn(g, node, Obj(o))
      {
        assert Obj(o) in Before(ch, spawned, c, j);
        assert Edge(g, node, Obj(o));
        Direct(g, node, Obj(o));
      }
    } else {
      NodeOnEarlier(ch, spawned, g, c, i, j - 1);
      var previous := NodeAt(ch, c, j - 1);
      Through(g, node, previous, LevelNode(c, ch[c][i].name));
      forall o | o in ch[c][i].objects
        ensures DependsOn(g, node, Obj(o))
      {
        Through(g, node, previous, Obj(o));
      }
    }
  }

  /** Every object of a level depends on every object of all earlier levels of its chain. */
  lemma LevelsAreOrdered(ch: Chains, spawned: map<string, Node>, g: Config, c: string, i: nat, p: string,
                         j: nat, o: string)
    requires Complete(ch, spawned, g) && DistinctLevels(ch) && c in ch && i < j < |ch[c]|
    requires p in ch[c][i].objects && o in ch[c][j].objects
    ensures DependsOn(g, Obj(o), Obj(p))
  {
    var node := LevelNode(c, ch[c][j].name);
    ObjectOnItsLevel(ch, spawned, g, c, j, o);
    Direct(g, Obj(o), node);
    NodeOnEarlier(ch, spawned, g, c, i, j);
    Through(g, Obj(o), node, Obj(p));
  }

  /** A level that joins a chain, and every object of that level, depends on every object of the chain. */
  lemma JoinWaitsForAll(ch: Chains, spawned: map<string, Node>, g: Config, c: string, j: nat, d: string,
                        i: nat, p: string)
    requires Complete(ch, spawned, g) && DistinctLevels(ch) && c in ch && d in ch
    requires j < |ch[c]| && d in ch[c][j].join && i < |ch[d]| && p in ch[d][i].objects
    ensures DependsOn(g, LevelNode(c, ch[c][j].name), Obj(p))
    ensures forall o :: o in ch[c][j].objects ==> DependsOn(g, Obj(o), Obj(p))
  {
    assert j < |ch[c]| ==> IsLast(ch[c], j);
    var node := NodeAt(ch, c, j);
    assert EndNode(d) in JoinsAt(ch, c, j);
    assert Edge(g, node, EndNode(d));
    Direct(g, node, EndNode(d));
    NodeOnEarlier(ch, spawned, g, d, i, |ch[d]|);
    Through(g, node, EndNode(d), Obj(p));
    forall o | o in ch[c][j].objects
      ensures DependsOn(g, Obj(o), Obj(p))
    {
      ObjectOnItsLevel(ch, spawned, g, c, j, o);
      Direct(g, Obj(o), node);
      Through(g, Obj(o), node, Obj(p));
    }
  }

  /** Every level of a spawned chain, and every object of it, depends on the level that spawned it. */
  lemma SpawnedAfterSpawner(ch: Chains, spawned: map<string, Node>, g: Config, d: string, i: nat)
    requires Complete(ch, spawned, g) && DistinctLevels(ch) && d in ch && d in spawned && i <= |ch[d]|
    ensures DependsOn(g, NodeAt(ch, d, i), spawned[d])
    ensures i < |ch[d]| ==> forall o :: o in ch[d][i].objects ==> DependsOn(g, Obj(o), spawned[d])
  {
    var node := NodeAt(ch, d, i);
    var first := NodeAt(ch, d, 0);
    assert 0 < |ch[d]| ==> IsLast(ch[d], 0);
    assert Edge(g, first, spawned[d]);
    Direct(g, first, spawned[d]);
    if i > 0 {
      NodeOnEarlier(ch, spawned, g, d, 0, i);
      Through(g, node, first, spawned[d]);
    }
    if i < |ch[d]| {
      forall o | o in ch[d][i].objects
        ensures DependsOn(g, Obj(o), spawned[d])
      {
        ObjectOnItsLevel(ch, spawned, g, d, i, o);
        Direct(g, Obj(o), node);
        Through(g, Obj(o), node, spawned[d]);
      }
    }
  }

  /** Where an accepted input says that a level spawns a chain, `spawned` has that level. */
  lemma SpawnIsRecorded(ch: Chains, names: seq<string>, spawned: map<string, Node>, c: nat, i: nat, d: string)
    requires Linked(ch, names, spawned, Site(|names|, 0, 0))
    requires IsLevel(ch, names, c, i) && d in ch[names[c]][i].spawn
    ensures d in ch && d in spawned && spawned[d] == LevelNode(names[c], ch[names[c]][i].name)
  {
    var k: nat :| k < |ch[names[c]][i].spawn| && ch[names[c]][i].spawn[k] == d;
    assert IsSpawn(ch, names, Site(c, i, k));
  }

  // ---- Two levels of one name lose the order ----

  /** One chain: level "a" with object "x", then two levels "l" with objects "y" and "z". */
  function Doubled(): Chains {
    map["c" := [Level("a", [], [], {}, ["x"]), Level("l", [], [], {}, ["y"]), Level("l", [], [], {}, ["z"])]]
  }

  ghost predicate StaysWith(g: Config, ns: set<Node>) {
    forall a, b {:trigger Edge(g, a, b)} :: a in ns && Edge(g, a, b) ==> b in ns
  }

  lemma {:induction false} WalkStaysWith(g: Config, ns: set<Node>, w: seq<Node>, i: nat)
    requires StaysWith(g, ns) && Walk(g, w) && i < |w| && w[0] in ns
    ensures w[i] in ns
  {
    if i > 0 {
      WalkStaysWith(g, ns, w, i - 1);
      assert Edge(g, w[i - 1], w[i]);
    }
  }

  lemma OneItem(c: string, l: Level, o: string)
    requires l.objects == [o] && l.depends == {} && l.join == []
    ensures ItemsOf(c, l, |l.objects|) == [Item(o, {LevelNode(c, l.name)})]
    ensures Outcome(c, l) == {Obj(o)} && Ends(l.join) == {}
  {
    assert {LevelNode(c, l.name)} + l.depends == {LevelNode(c, l.name)};
  }

  /** Of the nodes of the two levels "l" the second is left, and it waits for "y" alone. */
  lemma DoubledConfig()
    ensures var g := Generated(Doubled(), map[], ["c"], 1); var l := LevelNode("c", "l");
      && l in g.nodes && g.nodes[l] == {Obj("y")}
      && g.items == [Item("x", {LevelNode("c", "a")}), Item("y", {l}), Item("z", {l})]
      && forall n :: n in g.nodes ==> !n.Obj?
  {
    var ch, none, l := Doubled(), Config(map[], []), LevelNode("c", "l");
    var levels := ch["c"];
    OneItem("c", levels[0], "x");
    OneItem("c", levels[1], "y");
    OneItem("c", levels[2], "z");
    var g1 := WithLevels(ch, map[], none, "c", 1);
    assert WithLevels(ch, map[], none, "c", 0) == none;
    assert g1.items == [Item("x", {LevelNode("c", "a")})];
    var g2 := WithLevels(ch, map[], none, "c", 2);
    assert g2.items == [Item("x", {LevelNode("c", "a")}), Item("y", {l})];
    var g3 := WithLevels(ch, map[], none, "c", 3);
    assert g3.items == g2.items + [Item("z", {l})];
    assert g3.nodes[l] == {Obj("y")};
    assert Generated(ch, map[], ["c"], 0) == none;
  }

  /** The object of the third level does not depend on the one of the first. */
  lemma DoubledLosesOrder()
    ensures !DistinctLevels(Doubled())
    ensures !DependsOn(Generated(Doubled(), map[], ["c"], 1), Obj("z"), Obj("x"))
  {
    var g, l := Generated(Doubled(), map[], ["c"], 1), LevelNode("c", "l");
    DoubledConfig();
    var ns := {Obj("z"), l, Obj("y")};
    assert StaysWith(g, ns);
    forall w
      ensures !WalkFrom(g, w, Obj("z"), Obj("x"))
    {
      if WalkFrom(g, w, Obj("z"), Obj("x")) {
        WalkStaysWith(g, ns, w, |w| - 1);
      }
    }
    var levels := Doubled()["c"];
    assert levels[1].name == levels[2].name;
    assert Last(levels, 1, 3) == 2;
    assert !IsLast(Doubled()["c"], 1);
  }
}
