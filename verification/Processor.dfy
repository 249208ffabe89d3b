/**
 * The dependency scheduler of the processor (processor.cc, deps.h): objects are opened when all
 * they depend on is Active and closed when nothing that depends on them is open any more, driven
 * by state reports that arrive in any order.
 *
 * An object is its index.  The reopen timers are left open: which objects still have to wait is a
 * parameter of the methods that ask.
 */
module Processor {
  datatype ChannelState = Closed | Opening | Active | Closing | Error

  /** `depends` and its converse `rdepends`; `rank` is a witness that the graph has no cycle. */
  datatype Graph = Graph(depends: seq<seq<nat>>, rdepends: seq<seq<nat>>, rank: seq<nat>, height: nat)

  /** Object `o` depends on object `d`. */
  ghost predicate Edge(g: Graph, o: nat, d: nat)
    requires |g.rdepends| == |g.depends| == |g.rank|
  {
    && o < |g.depends| && d < |g.depends|
    && d in g.depends[o] && o in g.rdepends[d] && g.rank[d] < g.rank[o]
  }

  ghost predicate GraphOk(g: Graph) {
    && |g.rdepends| == |g.depends| == |g.rank|
    && (forall o, k :: 0 <= o < |g.depends| && 0 <= k < |g.depends[o]| ==> Edge(g, o, g.depends[o][k]))
    && (forall d, k :: 0 <= d < |g.depends| && 0 <= k < |g.rdepends[d]| ==> Edge(g, g.rdepends[d][k], d))
    && (forall o :: 0 <= o < |g.depends| ==> g.rank[o] < g.height)
  }

  /** The flags of all objects at one moment. */
  datatype Flags = Flags(
    state: seq<ChannelState>,
    decay: seq<bool>,
    opening: seq<bool>,
    closing: seq<bool>,
    subtreeClosed: seq<bool>)

  ghost predicate Sized(g: Graph, f: Flags) {
    |f.state| == |f.decay| == |f.opening| == |f.closing| == |f.subtreeClosed| == |g.depends|
  }

  ghost predicate DependentsClosed(g: Graph, sub: seq<bool>, o: nat)
    requires |g.rdepends| == |g.depends| == |g.rank| == |sub| && o < |sub|
  {
    forall r: nat :: r < |sub| && Edge(g, r, o) ==> sub[r]
  }

  /** `ready_open`: all direct dependencies Active and none decayed. */
  ghost predicate DepsReady(g: Graph, f: Flags, o: nat)
    requires |g.rdepends| == |g.depends| == |g.rank| && Sized(g, f) && o < |g.depends|
  {
    forall d: nat :: d < |g.depends| && Edge(g, o, d) ==> f.state[d] == Active && !f.decay[d]
  }

  /** Nothing going on: neither open, nor being opened. */
  predicate Quiet(f: Flags, o: nat)
    requires o < |f.state| && o < |f.opening|
  {
    (f.state[o] == Closed || f.state[o] == Closing) && !f.opening[o]
  }

  /** ... up to the objects in `e`, which are being worked on. */
  ghost predicate UpwardExcept(g: Graph, sub: seq<bool>, e: set<nat>)
    requires |g.rdepends| == |g.depends| == |g.rank| == |sub|
  {
    forall o: nat, d: nat :: o < |sub| && d < |sub| && Edge(g, o, d) && sub[d] ==> sub[o] || o in e
  }

  /** `subtree_closed` goes up: it holds of an object only if it holds of all that depend on it. */
  ghost predicate Upward(g: Graph, sub: seq<bool>)
    requires |g.rdepends| == |g.depends| == |g.rank| == |sub|
  {
    UpwardExcept(g, sub, {})
  }

  ghost predicate MarkedAreQuiet(f: Flags)
    requires |f.state| == |f.opening| == |f.subtreeClosed|
  {
    forall o :: 0 <= o < |f.state| && f.subtreeClosed[o] ==> Quiet(f, o)
  }

  ghost predicate Idle(g: Graph, f: Flags, o: nat)
    requires |g.rdepends| == |g.depends| == |g.rank| && Sized(g, f) && o < |g.depends|
  {
    f.state[o] == Closed && !f.opening[o] && DependentsClosed(g, f.subtreeClosed, o)
  }

  /** A closed object with nothing open above it is marked; up to the objects in `p`, still to be looked at. */
  ghost predicate ClosedAreMarked(g: Graph, f: Flags, p: set<nat>)
    requires |g.rdepends| == |g.depends| == |g.rank| && Sized(g, f)
  {
    forall o: nat :: o < |g.depends| && o !in p && Idle(g, f, o) ==> f.subtreeClosed[o]
  }

  // ----- what the marks mean for everything above an object

  /** A chain of dependents upward from `c[0]`. */
  ghost predicate ChainUp(g: Graph, c: seq<nat>)
    requires |g.rdepends| == |g.depends| == |g.rank|
  {
    && c != []
    && (forall i :: 0 <= i < |c| ==> c[i] < |g.depends|)
    && (forall i :: 0 <= i < |c| - 1 ==> Edge(g, c[i + 1], c[i]))
  }

  /** `subtree_closed` of an object: it and all its transitive dependents are Closed or Closing, and not opening. */
  lemma {:induction false} MarkMeansQuietAbove(g: Graph, f: Flags, c: seq<nat>)
    requires GraphOk(g) && Sized(g, f) && Upward(g, f.subtreeClosed) && MarkedAreQuiet(f)
    requires ChainUp(g, c) && f.subtreeClosed[c[0]]
    ensures Quiet(f, c[|c| - 1]) && f.subtreeClosed[c[|c| - 1]]
    decreases |c|
  {
    if |c| > 1 {
      assert Edge(g, c[1], c[0]);
      assert ChainUp(g, c[1..]) by {
        forall i | 0 <= i < |c[1..]| - 1
          ensures Edge(g, c[1..][i + 1], c[1..][i])
        {
          assert Edge(g, c[i + 2], c[i + 1]);
        }
      }
      MarkMeansQuietAbove(g, f, c[1..]);
    }
  }

  // ----- reachability

  /** Everything `o` transitively depends on, itself included. */
  ghost function Down(g: Graph, o: nat): set<nat>
    requires GraphOk(g) && o < |g.depends|
    decreases g.rank[o], |g.depends[o]| + 1
  {
    {o} + DownFirst(g, o, |g.depends[o]|)
  }

  /** The same through the first `k` dependencies only. */
  ghost function DownFirst(g: Graph, o: nat, k: nat): set<nat>
    requires GraphOk(g) && o < |g.depends| && k <= |g.depends[o]|
    decreases g.rank[o], k
  {
    if k == 0 then {} else assert Edge(g, o, g.depends[o][k - 1]); DownFirst(g, o, k - 1) + Down(g, g.depends[o][k - 1])
  }

  lemma {:induction false} DownStep(g: Graph, o: nat, k: nat)
    requires GraphOk(g) && o < |g.depends| && k <= |g.depends[o]|
    ensures forall j :: 0 <= j < k ==> g.depends[o][j] in DownFirst(g, o, k)
    decreases k
  {
    if k > 0 {
      DownStep(g, o, k - 1);
      assert Edge(g, o, g.depends[o][k - 1]);
      assert g.depends[o][k - 1] in Down(g, g.depends[o][k - 1]);
    }
  }

  /** Everything that transitively depends on `o`, itself included. */
  ghost function Up(g: Graph, o: nat): set<nat>
    requires GraphOk(g) && o < |g.depends|
    decreases g.height - g.rank[o], |g.rdepends[o]| + 1
  {
    {o} + UpFirst(g, o, |g.rdepends[o]|)
  }

  ghost function UpFirst(g: Graph, o: nat, k: nat): set<nat>
    requires GraphOk(g) && o < |g.depends| && k <= |g.rdepends[o]|
    decreases g.height - g.rank[o], k
  {
    if k == 0 then {} else assert Edge(g, g.rdepends[o][k - 1], o); UpFirst(g, o, k - 1) + Up(g, g.rdepends[o][k - 1])
  }

  /** A marked object has only marked ones above it. */
  lemma {:induction false} MarkedAbove(g: Graph, sub: seq<bool>, o: nat)
    requires GraphOk(g) && |sub| == |g.depends| && o < |sub| && sub[o] && Upward(g, sub)
    ensures forall x :: x in Up(g, o) ==> x < |sub| && sub[x]
    decreases g.height - g.rank[o], |g.rdepends[o]| + 1
  {
    MarkedAboveFirst(g, sub, o, |g.rdepends[o]|);
  }

  lemma {:induction false} MarkedAboveFirst(g: Graph, sub: seq<bool>, o: nat, k: nat)
    requires GraphOk(g) && |sub| == |g.depends| && o < |sub| && sub[o] && Upward(g, sub) && k <= |g.rdepends[o]|
    ensures forall x :: x in UpFirst(g, o, k) ==> x < |sub| && sub[x]
    decreases g.height - g.rank[o], k
  {
    if k > 0 {
      assert Edge(g, g.rdepends[o][k - 1], o);
      MarkedAboveFirst(g, sub, o, k - 1);
      MarkedAbove(g, sub, g.rdepends[o][k - 1]);
    }
  }

  /** An unmarked object has nothing marked below it. */
  lemma {:induction false} UnmarkedBelow(g: Graph, sub: seq<bool>, e: set<nat>, o: nat)
    requires GraphOk(g) && |sub| == |g.depends| && o < |sub| && !sub[o]
    requires UpwardExcept(g, sub, e) && (forall x :: x in e && x < |sub| ==> g.rank[x] > g.rank[o])
    ensures forall x :: x in Down(g, o) ==> x < |sub| && !sub[x]
    decreases g.rank[o], |g.depends[o]| + 1
  {
    UnmarkedBelowFirst(g, sub, e, o, |g.depends[o]|);
  }

  lemma {:induction false} UnmarkedBelowFirst(g: Graph, sub: seq<bool>, e: set<nat>, o: nat, k: nat)
    requires GraphOk(g) && |sub| == |g.depends| && o < |sub| && !sub[o] && k <= |g.depends[o]|
    requires UpwardExcept(g, sub, e) && (forall x :: x in e && x < |sub| ==> g.rank[x] > g.rank[o])
    ensures forall x :: x in DownFirst(g, o, k) ==> x < |sub| && !sub[x]
    decreases g.rank[o], k
  {
    if k > 0 {
      var d := g.depends[o][k - 1];
      assert Edge(g, o, d);
      UnmarkedBelowFirst(g, sub, e, o, k - 1);
      UnmarkedBelow(g, sub, e, d);
    }
  }

  // ----- the scheduler

  datatype Command = Activate | Deactivate

  /** A message posted to a worker, whether the dependency cascade sent it, and the flags at that moment. */
  datatype Post = Post(cmd: Command, obj: nat, cascade: bool, view: Flags)

  ghost predicate GoodPost(g: Graph, p: Post)
    requires GraphOk(g)
  {
    && Sized(g, p.view) && p.obj < |g.depends|
    && (p.cmd == Activate ==> DepsReady(g, p.view, p.obj))
    && (p.cmd == Deactivate && p.cascade ==>
          && DependentsClosed(g, p.view.subtreeClosed, p.obj)
          && Upward(g, p.view.subtreeClosed) && MarkedAreQuiet(p.view))
  }

  ghost predicate GoodPosts(g: Graph, ps: seq<Post>)
    requires GraphOk(g)
  {
    forall i :: 0 <= i < |ps| ==> GoodPost(g, ps[i])
  }

  /** `ready_close`: open, not on its way to open or closed, and nothing open depends on it. */
  ghost predicate CanClose(g: Graph, f: Flags, o: nat)
    requires |g.rdepends| == |g.depends| == |g.rank| && Sized(g, f) && o < |g.depends|
  {
    && f.state[o] != Closed && f.state[o] != Closing && !f.closing[o] && !f.opening[o]
    && DependentsClosed(g, f.subtreeClosed, o)
  }

  /** Only `decay` and `closing` differ, and whatever was being closed still is. */
  ghost predicate ClosingGrows(f: Flags, f': Flags) {
    && f' == f.(decay := f'.decay, closing := f'.closing) && |f'.closing| == |f.closing|
    && forall x :: 0 <= x < |f.closing| && f.closing[x] ==> f'.closing[x]
  }

  lemma StillCannotClose(g: Graph, f: Flags, f': Flags)
    requires |g.rdepends| == |g.depends| == |g.rank| && Sized(g, f) && Sized(g, f') && ClosingGrows(f, f')
    ensures forall x: nat :: x < |g.depends| && !CanClose(g, f, x) ==> !CanClose(g, f', x)
  {
  }

  /** Open, decayed, not being opened, and nothing open depends on it. */
  ghost predicate MustClose(g: Graph, f: Flags, o: nat)
    requires |g.rdepends| == |g.depends| == |g.rank| && Sized(g, f) && o < |g.depends|
  {
    && f.state[o] != Closed && f.state[o] != Closing && f.decay[o] && !f.opening[o] && !f.subtreeClosed[o]
    && DependentsClosed(g, f.subtreeClosed, o)
  }

  /** Something at or below `o` has all its dependencies ready. */
  ghost predicate SomeReady(g: Graph, f: Flags, o: nat)
    requires GraphOk(g) && Sized(g, f) && o < |g.depends|
  {
    exists x :: x in Down(g, o) && x < |g.depends| && DepsReady(g, f, x)
  }

  lemma {:induction false} DownContains(g: Graph, o: nat, n: nat, k: nat, x: nat)
    requires GraphOk(g) && o < |g.depends| && k < n <= |g.depends[o]| && Edge(g, o, g.depends[o][k])
    requires x in Down(g, g.depends[o][k])
    ensures x in DownFirst(g, o, n)
    decreases n
  {
    if k < n - 1 {
      DownContains(g, o, n - 1, k, x);
    }
  }

  /** What was ready stays so while decay is only taken back; what is below a dependency is below the object. */
  lemma ReadyBelow(g: Graph, f: Flags, f': Flags, o: nat, k: nat, before: bool, now: bool)
    requires GraphOk(g) && Sized(g, f) && Sized(g, f') && o < |g.depends| && k < |g.depends[o]|
    requires Edge(g, o, g.depends[o][k])
    requires f'.state == f.state && forall x: nat :: x < |g.depends| && f'.decay[x] ==> f.decay[x]
    requires before ==> SomeReady(g, f, o)
    requires now ==> SomeReady(g, f', g.depends[o][k])
    ensures before || now ==> SomeReady(g, f', o)
  {
    if before {
      var x :| x in Down(g, o) && x < |g.depends| && DepsReady(g, f, x);
      assert DepsReady(g, f', x);
    } else if now {
      var x :| x in Down(g, g.depends[o][k]) && x < |g.depends| && DepsReady(g, f', x);
      DownContains(g, o, |g.depends[o]|, k, x);
    }
  }

  ghost function Rest(g: Graph, o: nat, k: nat): set<nat>
    requires o < |g.depends| && k <= |g.depends[o]|
  {
    set j | k <= j < |g.depends[o]| :: g.depends[o][j]
  }

  /** No state has changed, decay is only taken back, and nothing above `o` in rank has changed its marks or flags. */
  ghost predicate OnlyBelow(g: Graph, f: Flags, f': Flags, o: nat)
    requires |g.rank| == |g.depends| && Sized(g, f) && Sized(g, f') && o < |g.depends|
  {
    && f'.state == f.state
    && (forall x: nat :: x < |g.depends| && f'.decay[x] ==> f.decay[x])
    && (forall x: nat :: x < |g.depends| && g.rank[x] > g.rank[o] ==>
          f'.subtreeClosed[x] == f.subtreeClosed[x] && f'.opening[x] == f.opening[x] && f'.decay[x] == f.decay[x])
  }

  lemma {:induction false} DownRank(g: Graph, o: nat)
    requires GraphOk(g) && o < |g.depends|
    ensures forall x :: x in Down(g, o) ==> x < |g.depends| && g.rank[x] <= g.rank[o]
    decreases g.rank[o], |g.depends[o]| + 1
  {
    DownFirstRank(g, o, |g.depends[o]|);
  }

  lemma {:induction false} DownFirstRank(g: Graph, o: nat, k: nat)
    requires GraphOk(g) && o < |g.depends| && k <= |g.depends[o]|
    ensures forall x :: x in DownFirst(g, o, k) ==> x < |g.depends| && g.rank[x] <= g.rank[o]
    decreases g.rank[o], k
  {
    if k > 0 {
      assert Edge(g, o, g.depends[o][k - 1]);
      DownFirstRank(g, o, k - 1);
      DownRank(g, g.depends[o][k - 1]);
    }
  }

  /** Everything below an object, other than itself, is a dependency of something below it. */
  lemma {:induction false} DownHasParent(g: Graph, o: nat, x: nat)
    requires GraphOk(g) && o < |g.depends| && x in Down(g, o)
    ensures x < |g.depends|
    ensures x != o ==> exists y :: y in Down(g, o) && y < |g.depends| && Edge(g, y, x)
    decreases g.rank[o], |g.depends[o]| + 1
  {
    if x != o {
      DownFirstHasParent(g, o, |g.depends[o]|, x);
    }
  }

  lemma {:induction false} DownFirstHasParent(g: Graph, o: nat, k: nat, x: nat)
    requires GraphOk(g) && o < |g.depends| && k <= |g.depends[o]| && x in DownFirst(g, o, k)
    ensures x < |g.depends|
    ensures exists y :: y in {o} + DownFirst(g, o, k) && y < |g.depends| && Edge(g, y, x)
    decreases g.rank[o], k
  {
    var d := g.depends[o][k - 1];
    assert Edge(g, o, d);
    if x in DownFirst(g, o, k - 1) {
      DownFirstHasParent(g, o, k - 1, x);
      var y :| y in {o} + DownFirst(g, o, k - 1) && y < |g.depends| && Edge(g, y, x);
      assert y in {o} + DownFirst(g, o, k);
    } else {
      DownHasParent(g, d, x);
      if x != d {
        var y :| y in Down(g, d) && y < |g.depends| && Edge(g, y, x);
        assert y in {o} + DownFirst(g, o, k);
      } else {
        assert o in {o} + DownFirst(g, o, k);
      }
    }
  }

  /** Unmarking an object that is opening or open, and all below it, leaves no closed object wrongly unmarked. */
  lemma OpeningKeepsMarks(g: Graph, f: Flags, f': Flags, o: nat, p: set<nat>)
    requires GraphOk(g) && Sized(g, f) && Sized(g, f') && o < |g.depends|
    requires ClosedAreMarked(g, f, p)
    requires f'.opening[o] || f'.state[o] != Closed
    requires forall x: nat :: x < |g.depends| && x != o ==> f'.state[x] == f.state[x] && f'.opening[x] == f.opening[x]
    requires forall x: nat :: x < |g.depends| ==> f'.subtreeClosed[x] == (f.subtreeClosed[x] && x !in Down(g, o))
    ensures ClosedAreMarked(g, f', p)
  {
    forall x: nat | x < |g.depends| && x !in p && Idle(g, f', x)
      ensures f'.subtreeClosed[x]
    {
      assert Idle(g, f, x);
      if x in Down(g, o) {
        DownHasParent(g, o, x);
      }
    }
  }

  class Processor {
    const g: Graph
    var running: bool
    var flags: Flags
    ghost var posts: seq<Post>

    ghost predicate Sane()
      reads this
    {
      GraphOk(g) && Sized(g, flags) && GoodPosts(g, posts)
    }

    /** What holds whenever no callback is in progress, and at every moment a command is posted. */
    ghost predicate Valid()
      reads this
    {
      Sane() && Upward(g, flags.subtreeClosed) && MarkedAreQuiet(flags)
    }

    /** `mark_subtree_open`: unmark the object and all it depends on. */
    method MarkSubtreeOpen(o: nat, ghost e: set<nat>)
      requires Sane() && o < |g.depends|
      requires UpwardExcept(g, flags.subtreeClosed, e) && (forall x ::
                x in e && x < |g.depends| ==> g.rank[x] > g.rank[o])
      modifies this`flags
      ensures Sane() && flags == old(flags).(subtreeClosed := flags.subtreeClosed)
      ensures UpwardExcept(g, flags.subtreeClosed, e)
      ensures forall x: nat :: x < |g.depends| ==>
                flags.subtreeClosed[x] == (old(flags.subtreeClosed)[x] && x !in Down(g, o))
      decreases g.rank[o]
    {
      if !flags.subtreeClosed[o] {
        UnmarkedBelow(g, flags.subtreeClosed, e, o);
        return;
      }
      flags := flags.(subtreeClosed := flags.subtreeClosed[o := false]);
      ghost var e' := e + {o};
      for k := 0 to |g.depends[o]|
        invariant Sane() && flags == old(flags).(subtreeClosed := flags.subtreeClosed)
        invariant UpwardExcept(g, flags.subtreeClosed, e')
        invariant forall x: nat :: x < |g.depends| ==>
                    flags.subtreeClosed[x] == (old(flags.subtreeClosed)[x] && x != o && x !in DownFirst(g, o, k))
      {
        assert Edge(g, o, g.depends[o][k]);
        MarkSubtreeOpen(g.depends[o][k], e');
      }
      DownStep(g, o, |g.depends[o]|);
    }

    // ----- the questions of deps.h

    predicate ReadyOpen(o: nat)
      requires GraphOk(g) && Sized(g, flags) && o < |g.depends|
      reads this
      ensures ReadyOpen(o) <==> DepsReady(g, flags, o)
    {
      assert forall k :: 0 <= k < |g.depends[o]| ==> Edge(g, o, g.depends[o][k]);
      && (forall k :: 0 <= k < |g.depends[o]| ==> !flags.decay[g.depends[o][k]])
      && (forall k :: 0 <= k < |g.depends[o]| ==> flags.state[g.depends[o][k]] == Active)
    }

    predicate AllDependentsMarked(o: nat)
      requires GraphOk(g) && Sized(g, flags) && o < |g.depends|
      reads this
      ensures AllDependentsMarked(o) <==> DependentsClosed(g, flags.subtreeClosed, o)
    {
      assert forall k :: 0 <= k < |g.rdepends[o]| ==> Edge(g, g.rdepends[o][k], o);
      forall k :: 0 <= k < |g.rdepends[o]| ==> flags.subtreeClosed[g.rdepends[o][k]]
    }

    predicate ReadyClose(o: nat)
      requires GraphOk(g) && Sized(g, flags) && o < |g.depends|
      reads this
      ensures ReadyClose(o) <==> CanClose(g, flags, o)
    {
      && flags.state[o] != Closed && flags.state[o] != Closing && !flags.closing[o] && !flags.opening[o]
      && AllDependentsMarked(o)
    }

    // ----- commands

    /** `activate(Object &)`: every caller has just asked `ready_open`. */
    method ActivateObject(o: nat, ghost p: set<nat>)
      requires Valid() && o < |g.depends| && ReadyOpen(o) && ClosedAreMarked(g, flags, p)
      modifies this`flags, this`posts
      ensures Valid() && ClosedAreMarked(g, flags, p)
      ensures flags.state == old(flags.state) && flags.closing == old(flags.closing)
      ensures flags.opening == old(flags.opening)[o := true] && flags.decay == old(flags.decay)[o := false]
      ensures forall x: nat :: x < |g.depends| ==>
                flags.subtreeClosed[x] == (old(flags.subtreeClosed)[x] && x !in Down(g, o))
      ensures posts == old(posts) + [Post(Activate, o, false, flags)]
    {
      flags := flags.(decay := flags.decay[o := false], opening := flags.opening[o := true]);
      MarkSubtreeOpen(o, {});
      OpeningKeepsMarks(g, old(flags), flags, o, p);
      posts := posts + [Post(Activate, o, false, flags)];
    }

    /** `deactivate`.  `cascade` is whether the dependency graph asked for it, not an error, the user or a timer. */
    method DeactivateObject(o: nat, ghost cascade: bool)
      requires Valid() && o < |g.depends|
      requires cascade ==> DependentsClosed(g, flags.subtreeClosed, o)
      modifies this`flags, this`posts
      ensures Valid()
      ensures flags == old(flags).(closing := flags.closing)
      ensures flags.closing == old(flags.closing)[o := old(flags.closing[o]) || old(flags.state[o]) != Closing]
      ensures posts == if old(flags.closing[o]) then old(posts) else old(posts) + [Post(Deactivate, o, cascade, flags)]
    {
      if flags.closing[o] {
        return;
      }
      if flags.state[o] != Closing {
        flags := flags.(closing := flags.closing[o := true]);
      }
      posts := posts + [Post(Deactivate, o, cascade, flags)];
    }

    /** `reactivate`: open again, now or when the reopen timer fires (`waiting`). */
    method Reactivate(o: nat, waiting: set<nat>, ghost p: set<nat>)
      requires Valid() && o < |g.depends| && ClosedAreMarked(g, flags, p)
      modifies this`flags, this`posts
      ensures Valid() && ClosedAreMarked(g, flags, p)
      ensures OnlyBelow(g, old(flags), flags, o)
      ensures if running && old(ReadyOpen(o)) && o !in waiting then flags.opening[o] && !flags.subtreeClosed[o]
              else flags == old(flags)
    {
      if !running {
        return;
      }
      if ReadyOpen(o) && o !in waiting {
        ActivateObject(o, p);
        forall x: nat | x < |g.depends| && g.rank[x] > g.rank[o]
          ensures x !in Down(g, o)
        {
          DownRank(g, o);
        }
      }
    }

    /** `mark_subtree_closed`, with `reactivate` and `deactivate` as its two callbacks. */
    method MarkSubtreeClosed(o: nat, waiting: set<nat>, ghost p: set<nat>) returns (r: bool)
      requires Valid() && o < |g.depends| && ClosedAreMarked(g, flags, p + {o})
      modifies this`flags, this`posts
      ensures Valid() && ClosedAreMarked(g, flags, p)
      ensures OnlyBelow(g, old(flags), flags, o)
      ensures old(Quiet(flags, o) && DependentsClosed(g, flags.subtreeClosed, o)) ==>
                flags.subtreeClosed[o] || flags.opening[o]
      ensures old(MustClose(g, flags, o)) ==> flags.closing[o]
      ensures r ==> SomeReady(g, flags, o)
      decreases g.rank[o], 1
    {
      if flags.subtreeClosed[o] {
        if ReadyOpen(o) {
          Reactivate(o, waiting, p);
          assert DepsReady(g, flags, o) && o in Down(g, o);
          return true;
        }
        return false;
      }
      if !AllDependentsMarked(o) {
        return false;
      }
      if flags.opening[o] {
        return false;
      }
      if flags.state[o] != Closed && flags.state[o] != Closing {
        if flags.decay[o] {
          DeactivateObject(o, true);
        }
        return false;
      }
      flags := flags.(subtreeClosed := flags.subtreeClosed[o := true]);
      r := PassClosedDown(o, waiting, p);
      if ReadyOpen(o) {
        Reactivate(o, waiting, p);
        assert DepsReady(g, flags, o) && o in Down(g, o);
        r := true;
      }
    }

    method PassClosedDown(o: nat, waiting: set<nat>, ghost p: set<nat>) returns (r: bool)
      requires Valid() && o < |g.depends| && flags.subtreeClosed[o] && ClosedAreMarked(g, flags, p + Rest(g, o, 0))
      modifies this`flags, this`posts
      ensures Valid() && ClosedAreMarked(g, flags, p) && flags.subtreeClosed[o]
      ensures OnlyBelow(g, old(flags), flags, o)
      ensures r ==> SomeReady(g, flags, o)
      decreases g.rank[o], 0
    {
      r := false;
      for k := 0 to |g.depends[o]|
        invariant Valid() && ClosedAreMarked(g, flags, p + Rest(g, o, k))
        invariant flags.subtreeClosed[o] && OnlyBelow(g, old(flags), flags, o)
        invariant r ==> SomeReady(g, flags, o)
      {
        var d := g.depends[o][k];
        assert Edge(g, o, d);
        assert p + Rest(g, o, k) == p + Rest(g, o, k + 1) + {d};
        ghost var before := flags;
        var again := MarkSubtreeClosed(d, waiting, p + Rest(g, o, k + 1));
        ReadyBelow(g, before, flags, o, k, r, again);
        r := again || r;
      }
      assert p + Rest(g, o, |g.depends[o]|) == p;
    }

    /** `decay`: mark everything open above the object for closing, and close what is ready to. */
    method Decay(o: nat)
      requires Valid() && o < |g.depends|
      modifies this`flags, this`posts
      ensures Valid() && ClosingGrows(old(flags), flags)
      ensures forall x: nat :: x < |g.depends| ==>
                flags.decay[x] == (old(flags.decay)[x] || (x in Up(g, o) && !flags.subtreeClosed[x]))
      ensures forall x: nat :: x < |g.depends| && x in Up(g, o) ==> !CanClose(g, flags, x)
      decreases g.height - g.rank[o], 1
    {
      if flags.subtreeClosed[o] {
        MarkedAbove(g, flags.subtreeClosed, o);
        assert forall x: nat :: x < |g.depends| && flags.subtreeClosed[x] ==> Quiet(flags, x);
        return;
      }
      flags := flags.(decay := flags.decay[o := true]);
      DecayDependents(o);
      ghost var before := flags;
      if ReadyClose(o) {
        DeactivateObject(o, true);
      }
      StillCannotClose(g, before, flags);
    }

    method DecayDependents(o: nat)
      requires Valid() && o < |g.depends|
      modifies this`flags, this`posts
      ensures Valid() && ClosingGrows(old(flags), flags)
      ensures forall x: nat :: x < |g.depends| ==>
                flags.decay[x] ==
                (old(flags.decay)[x] || (x in UpFirst(g, o, |g.rdepends[o]|) && !flags.subtreeClosed[x]))
      ensures forall x: nat :: x < |g.depends| && x in UpFirst(g, o, |g.rdepends[o]|) ==> !CanClose(g, flags, x)
      decreases g.height - g.rank[o], 0
    {
      for k := 0 to |g.rdepends[o]|
        invariant Valid() && ClosingGrows(old(flags), flags)
        invariant forall x: nat :: x < |g.depends| ==>
                    flags.decay[x] == (old(flags.decay)[x] || (x in UpFirst(g, o, k) && !flags.subtreeClosed[x]))
        invariant forall x: nat :: x < |g.depends| && x in UpFirst(g, o, k) ==> !CanClose(g, flags, x)
      {
        assert Edge(g, g.rdepends[o][k], o);
        ghost var before := flags;
        Decay(g.rdepends[o][k]);
        StillCannotClose(g, before, flags);
      }
    }

    // ----- events

    /** What holds between any two events. */
    ghost predicate Stable()
      reads this
    {
      Valid() && ClosedAreMarked(g, flags, {})
    }

    /** A graph whose objects are all closed, as after initialisation. */
    constructor (g: Graph)
      requires GraphOk(g)
      ensures this.g == g && Stable() && !running && posts == []
      ensures forall o :: 0 <= o < |g.depends| ==> flags.state[o] == Closed && flags.subtreeClosed[o]
    {
      this.g := g;
      running := false;
      var n := |g.depends|;
      var none := seq(n, _ => false);
      flags := Flags(seq(n, _ => Closed), none, none, none, seq(n, _ => true));
      posts := [];
    }

    /** The beginning of `update`: the new state and `Object::on_state`. */
    method OnState(o: nat, s: ChannelState)
      requires Stable() && o < |g.depends|
      modifies this`flags
      ensures Valid() && ClosedAreMarked(g, flags, if s == Closed then {o} else {})
      ensures flags.state == old(flags.state)[o := s] && flags.decay == old(flags.decay)
      ensures flags.opening == if s == Opening then old(flags.opening)[o := false] else old(flags.opening)
      ensures flags.closing == if s == Closing then old(flags.closing)[o := false] else old(flags.closing)
      ensures forall x: nat :: x < |g.depends| ==>
                flags.subtreeClosed[x] == (old(flags.subtreeClosed)[x] && (s == Closed || x !in Down(g, o)))
    {
      flags := flags.(state := flags.state[o := s]);
      if s != Closed {
        MarkSubtreeOpen(o, {});
      }
      if s == Opening {
        flags := flags.(opening := flags.opening[o := false]);
      } else if s == Closing {
        flags := flags.(closing := flags.closing[o := false]);
      }
      if s != Closed {
        OpeningKeepsMarks(g, old(flags), flags, o, {});
      }
    }

    /** `update` on Active: open every dependent that has become ready. */
    method OpenDependents(o: nat)
      requires Stable() && o < |g.depends|
      modifies this`flags, this`posts
      ensures Stable() && flags.state == old(flags.state)
      ensures forall r: nat :: r < |g.depends| && Edge(g, r, o) && DepsReady(g, old(flags), r) ==> flags.opening[r]
    {
      for k := 0 to |g.rdepends[o]|
        invariant Stable() && flags.state == old(flags.state)
        invariant forall x: nat :: x < |g.depends| && flags.decay[x] ==> old(flags.decay)[x]
        invariant forall x: nat :: x < |g.depends| && old(flags.opening)[x] ==> flags.opening[x]
        invariant forall j :: 0 <= j < k && DepsReady(g, old(flags), g.rdepends[o][j]) ==>
                  flags.opening[g.rdepends[o][j]]
      {
        var r := g.rdepends[o][k];
        assert Edge(g, r, o);
        if ReadyOpen(r) {
          ActivateObject(r, {});
        }
      }
    }

    ghost predicate Spread(o: nat)
      requires GraphOk(g) && Sized(g, flags) && o < |g.depends|
      reads this
    {
      && (forall x: nat :: x < |g.depends| && x in Up(g, o) ==>
            (flags.subtreeClosed[x] || flags.decay[x]) && !CanClose(g, flags, x))
      && (forall k :: 0 <= k < |g.depends[o]| ==> !CanClose(g, flags, g.depends[o][k]))
    }

    /** The last loop of `update` on Closed. */
    method CloseDependencies(o: nat)
      requires Stable() && o < |g.depends|
      modifies this`flags, this`posts
      ensures Stable() && ClosingGrows(old(flags), flags) && flags.decay == old(flags.decay)
      ensures forall k :: 0 <= k < |g.depends[o]| ==> !CanClose(g, flags, g.depends[o][k])
    {
      for k := 0 to |g.depends[o]|
        invariant Stable() && ClosingGrows(old(flags), flags) && flags.decay == old(flags.decay)
        invariant forall j :: 0 <= j < k ==> !CanClose(g, flags, g.depends[o][j])
      {
        var d := g.depends[o][k];
        assert Edge(g, o, d);
        ghost var before := flags;
        if ReadyClose(d) {
          DeactivateObject(d, true);
        }
        StillCannotClose(g, before, flags);
      }
    }

    /**
     * `update` on Closed: pass the news down; then, unless something at or below the object opens
     * again, let the closing spread: all that is open above decays, and nothing above or directly
     * below is left that could be closed and is not.
     */
    method OnClosed(o: nat, waiting: set<nat>) returns (spread: bool)
      requires Valid() && o < |g.depends| && ClosedAreMarked(g, flags, {o}) && flags.state[o] == Closed
      modifies this`flags, this`posts
      ensures Stable() && flags.state == old(flags.state)
      ensures old(!flags.opening[o] && DependentsClosed(g, flags.subtreeClosed, o)) ==>
                flags.subtreeClosed[o] || flags.opening[o]
      ensures !spread ==> running && SomeReady(g, flags, o)
      ensures spread ==> Spread(o)
    {
      var again := MarkSubtreeClosed(o, waiting, {});
      if again && running {
        return false;
      }
      Decay(o);
      ghost var before := flags;
      CloseDependencies(o);
      StillCannotClose(g, before, flags);
      spread := true;
    }

    /** `update`: an object reports a new state. */
    method Update(o: nat, s: ChannelState, waiting: set<nat>)
      requires Stable() && o < |g.depends|
      modifies this`flags, this`posts
      ensures Stable() && flags.state == old(flags.state)[o := s]
      ensures s == Active ==>
                var now := old(flags).(state := flags.state);
                forall r: nat :: r < |g.depends| && Edge(g, r, o) && DepsReady(g, now, r) ==> flags.opening[r]
      ensures s == Error ==> flags.closing[o]
      ensures s == Opening && flags.decay[o] ==> !CanClose(g, flags, o)
      ensures s == Closed ==> Spread(o) || (running && SomeReady(g, flags, o))
    {
      OnState(o, s);
      ghost var mid := flags;
      match s {
        case Opening =>
          if flags.decay[o] && ReadyClose(o) {
            DeactivateObject(o, true);
          }
        case Closing =>
        case Active =>
          OpenDependents(o);
          forall r: nat | r < |g.depends| && Edge(g, r, o) && DepsReady(g, old(flags).(state := flags.state), r)
            ensures flags.opening[r]
          {
            assert DepsReady(g, mid, r);
          }
        case Error => DeactivateObject(o, false);
        case Closed => var spread := OnClosed(o, waiting);
      }
    }

    /** `activate()`: all workers are up. */
    method Start()
      requires Stable()
      modifies this
      ensures Stable() && running && flags.state == old(flags.state)
      ensures forall o :: 0 <= o < |g.depends| && g.depends[o] == [] ==> flags.opening[o]
    {
      running := true;
      for o := 0 to |g.depends|
        invariant Stable() && running && flags.state == old(flags.state)
        invariant forall x :: 0 <= x < o && g.depends[x] == [] ==> flags.opening[x]
      {
        if g.depends[o] == [] {
          ActivateObject(o, {});
        }
      }
    }

    /** ChannelClose from a user: ignored for a closed object. */
    method CloseRequest(o: nat)
      requires Stable() && o < |g.depends|
      modifies this`flags, this`posts
      ensures Stable() && flags == old(flags).(closing := flags.closing)
      ensures var open := flags.state[o] != Closed && flags.state[o] != Closing;
              flags.closing == old(flags.closing)[o := old(flags.closing[o]) || open]
      ensures old(flags.state[o]) == Closed || old(flags.closing[o]) ==> posts == old(posts)
      ensures !(old(flags.state[o]) == Closed || old(flags.closing[o])) ==>
                posts == old(posts) + [Post(Deactivate, o, false, flags)]
    {
      if flags.state[o] != Closed {
        DeactivateObject(o, false);
      }
    }

    /** The timer's Close action in `pending_process`. */
    method TimerClose(o: nat)
      requires Stable() && o < |g.depends|
      modifies this`flags, this`posts
      ensures Stable() && flags == old(flags).(closing := flags.closing)
      ensures flags.closing == old(flags.closing)[o := old(flags.closing[o]) || flags.state[o] != Closing]
      ensures posts == if old(flags.closing[o]) then old(posts) else old(posts) + [Post(Deactivate, o, false, flags)]
    {
      DeactivateObject(o, false);
    }

    /** The timer's Open action in `pending_process`. */
    method TimerOpen(o: nat)
      requires Stable() && o < |g.depends|
      modifies this`flags, this`posts
      ensures Stable() && flags.state == old(flags.state)
      ensures running && old(ReadyOpen(o)) ==> flags.opening[o]
      ensures !(running && old(ReadyOpen(o))) ==> flags == old(flags) && posts == old(posts)
    {
      if ReadyOpen(o) && running {
        ActivateObject(o, {});
      }
    }

    /** `_close`: everything decays, and what nothing open depends on is closed at once. */
    method Shutdown()
      requires Stable()
      modifies this
      ensures Stable() && !running && flags.state == old(flags.state) && flags.subtreeClosed == old(flags.subtreeClosed)
      ensures forall o :: 0 <= o < |g.depends| ==> flags.decay[o] && !CanClose(g, flags, o)
    {
      running := false;
      for o := 0 to |g.depends|
        invariant Stable() && !running && flags == old(flags).(decay := flags.decay, closing := flags.closing)
        invariant forall x :: 0 <= x < o ==> flags.decay[x] && !CanClose(g, flags, x)
      {
        ghost var before := flags;
        flags := flags.(decay := flags.decay[o := true]);
        if ReadyClose(o) {
          DeactivateObject(o, true);
        }
        StillCannotClose(g, before, flags);
      }
    }
  }

  datatype Event =
    | Started
    | Report(obj: nat, state: ChannelState, waiting: set<nat>)
    | UserClose(obj: nat)
    | TimerFires(obj: nat, open: bool)
    | Stopped

  /**
   * Every run, from initialisation through any events in any order, keeps the invariant and has sent
   * only good commands.
   */
  method Run(g: Graph, events: seq<Event>) returns (p: Processor)
    requires GraphOk(g)
    ensures fresh(p) && p.g == g && p.Stable() && GoodPosts(g, p.posts)
  {
    p := new Processor(g);
    for i := 0 to |events|
      invariant fresh(p) && p.g == g && p.Stable()
    {
      match events[i] {
        case Started => p.Start();
        case Report(o, s, waiting) =>
          if o < |g.depends| {
            p.Update(o, s, waiting);
          }
        case UserClose(o) =>
          if o < |g.depends| {
            p.CloseRequest(o);
          }
        case TimerFires(o, open) =>
          if o < |g.depends| && open {
            p.TimerOpen(o);
          } else if o < |g.depends| {
            p.TimerClose(o);
          }
        case Stopped => p.Shutdown();
      }
    }
  }

  /**
   * Every Deactivate the cascade has ever sent: at that moment each transitive dependent of the
   * object was Closed or Closing and was not being opened.
   */
  lemma CascadeClosesOnlyUnderQuiet(g: Graph, posts: seq<Post>, i: nat, c: seq<nat>)
    requires GraphOk(g) && GoodPosts(g, posts) && i < |posts|
    requires posts[i].cmd == Deactivate && posts[i].cascade
    requires ChainUp(g, c) && Edge(g, c[0], posts[i].obj)
    ensures Sized(g, posts[i].view) && Quiet(posts[i].view, c[|c| - 1])
  {
    assert GoodPost(g, posts[i]);
    MarkMeansQuietAbove(g, posts[i].view, c);
  }

  /** Between events, for an object that is closed and not being opened: marked exactly if all above it are. */
  lemma MarkExactlyWhenQuietAbove(g: Graph, f: Flags, o: nat)
    requires GraphOk(g) && Sized(g, f) && Upward(g, f.subtreeClosed) && ClosedAreMarked(g, f, {})
    requires o < |g.depends| && f.state[o] == Closed && !f.opening[o]
    ensures f.subtreeClosed[o] <==> DependentsClosed(g, f.subtreeClosed, o)
  {
    if DependentsClosed(g, f.subtreeClosed, o) {
      assert Idle(g, f, o);
    }
  }
}
