/**
 * Double-buffered statistics (stat.h, stat.cc): any number of writers update the fields of the
 * active page, which they take from and put back into one atomic `lock` pointer; one swapper
 * exchanges the pages and then drains the inactive one, field by field.
 *
 * Atomic operations are sequentially consistent steps.  A writer's update of a field is two
 * steps, the load of the old value and the store of the new one.
 */
module Stat {

  import opened Common

  // ---- Fields ----

  datatype Method = Sum | Min | Max
  datatype Field = IntField(how: Method) | FloatField(how: Method)

  function Pow2(n: nat): (r: real)
    ensures r >= 1.0
  {
    if n == 0 then 1.0 else 2.0 * Pow2(n - 1)
  }

  /** The limits of a 64 bit integer and of a double: DBL_MIN is the smallest positive normal number. */
  const INT_MAX: real := Pow2(63) - 1.0
  const INT_MIN: real := -Pow2(63)
  const DBL_MAX: real := Pow2(1024) - Pow2(971)
  const DBL_MIN: real := 1.0 / Pow2(1022)

  /** `default_value`. */
  function Default(f: Field): real {
    match f.how
    case Sum => 0.0
    case Min => if f.IntField? then INT_MAX else DBL_MAX
    case Max => if f.IntField? then INT_MIN else DBL_MIN
  }

  /** `update`. */
  function Op(f: Field, a: real, b: real): real {
    match f.how
    case Sum => a + b
    case Min => if b < a then b else a
    case Max => if a < b then b else a
  }

  /** What a field of this type can hold; for sums there is no limit. */
  ghost predicate InRange(f: Field, v: real) {
    match f
    case IntField(m) => m == Sum || INT_MIN <= v <= INT_MAX
    case FloatField(m) => m == Sum || v <= DBL_MAX
  }

  /** The default changes nothing when combined with `v`. */
  ghost predicate Neutral(f: Field, v: real) {
    Op(f, Default(f), v) == v
  }

  // ---- The block, its writers and the swapper ----

  datatype Update = Update(field: nat, value: real)

  datatype Writer =
    | Idle
    | Holding(page: nat)
    | Loaded(page: nat, update: Update, seen: real)

  datatype Swapper =
    | Ready
    | Exchanged                  // the lock is exchanged, `active` and `inactive` are not yet
    | Draining(page: nat, next: nat)
    | Copied(page: nat, next: nat) // field `next` is copied and not yet reset

  /** `drained` combines all values copied out so far, `log` is every update stored so far. */
  datatype State = State(
    lock: Option<nat>, active: nat, inactive: nat, pages: seq<seq<real>>,
    writers: seq<Writer>, swapper: Swapper, drained: seq<real>, log: seq<Update>)

  datatype Event =
    | Acquire(w: nat)
    | Load(w: nat, update: Update)
    | Store(w: nat)
    | Release(w: nat)
    | SwapFails
    | SwapLock
    | SwapPages
    | Copy
    | Reset
    | Finish

  ghost function Defaults(fields: seq<Field>): seq<real> {
    seq(|fields|, i requires 0 <= i < |fields| => Default(fields[i]))
  }

  ghost predicate Init(fields: seq<Field>, s: State) {
    && s.lock == Some(0) && s.active == 0 && s.inactive == 1
    && s.pages == [Defaults(fields), Defaults(fields)]
    && (forall w :: 0 <= w < |s.writers| ==> s.writers[w] == Idle)
    && s.swapper == Ready && s.drained == Defaults(fields) && s.log == []
  }

  ghost predicate Enabled(fields: seq<Field>, s: State, e: Event) {
    match e
    case Acquire(w) => w < |s.writers| && s.writers[w] == Idle
    case Load(w, u) =>
      w < |s.writers| && s.writers[w].Holding? && u.field < |fields| && InRange(fields[u.field], u.value)
    case Store(w) => w < |s.writers| && s.writers[w].Loaded?
    case Release(w) => w < |s.writers| && s.writers[w].Holding?
    case SwapFails => s.swapper == Ready
    case SwapLock => s.swapper == Ready && s.lock == Some(s.active)
    case SwapPages => s.swapper == Exchanged
    case Copy => s.swapper.Draining? && s.swapper.next < |fields|
    case Reset => s.swapper.Copied?
    case Finish => s.swapper.Draining? && s.swapper.next == |fields|
  }

  ghost function Put(s: State, page: nat, field: nat, v: real): State
    requires page < |s.pages| && field < |s.pages[page]|
  {
    s.(pages := s.pages[page := s.pages[page][field := v]])
  }

  /** `acquire`: the exchange with null; null again when another writer holds the page. */
  ghost function AcquireStep(s: State, w: nat): State
    requires w < |s.writers|
  {
    if s.lock.Some? then s.(lock := None, writers := s.writers[w := Holding(s.lock.value)]) else s
  }

  ghost function LoadStep(s: State, w: nat, u: Update): State
    requires w < |s.writers| && s.writers[w].Holding? && s.writers[w].page < |s.pages|
    requires u.field < |s.pages[s.writers[w].page]|
  {
    var p := s.writers[w].page;
    s.(writers := s.writers[w := Loaded(p, u, s.pages[p][u.field])])
  }

  ghost function StoreStep(fields: seq<Field>, s: State, w: nat): State
    requires w < |s.writers| && s.writers[w].Loaded?
    requires var l := s.writers[w]; l.page < |s.pages| && l.update.field < |s.pages[l.page]| == |fields|
  {
    var l := s.writers[w];
    var f := l.update.field;
    Put(s, l.page, f, Op(fields[f], l.seen, l.update.value)).(
      writers := s.writers[w := Holding(l.page)], log := s.log + [l.update])
  }

  ghost function ReleaseStep(s: State, w: nat): State
    requires w < |s.writers| && s.writers[w].Holding?
  {
    s.(lock := Some(s.writers[w].page), writers := s.writers[w := Idle])
  }

  /** The first field of the drained page is next. */
  ghost function SwapPagesStep(s: State): State {
    s.(active := s.inactive, inactive := s.active, swapper := Draining(s.active, 0))
  }

  ghost function CopyStep(fields: seq<Field>, s: State): State
    requires s.swapper.Draining? && s.swapper.next < |fields| == |s.drained|
    requires s.swapper.page < |s.pages| && |s.pages[s.swapper.page]| == |fields|
  {
    var p, i := s.swapper.page, s.swapper.next;
    s.(swapper := Copied(p, i), drained := s.drained[i := Op(fields[i], s.drained[i], s.pages[p][i])])
  }

  ghost function ResetStep(fields: seq<Field>, s: State): State
    requires s.swapper.Copied? && s.swapper.next < |fields|
    requires s.swapper.page < |s.pages| && |s.pages[s.swapper.page]| == |fields|
  {
    var p, i := s.swapper.page, s.swapper.next;
    Put(s, p, i, Default(fields[i])).(swapper := Draining(p, i + 1))
  }

  ghost predicate WriterInBounds(fields: seq<Field>, w: Writer) {
    (w != Idle ==> w.page < 2) && (w.Loaded? ==> w.update.field < |fields|)
  }

  ghost predicate Shaped(fields: seq<Field>, s: State) {
    && |s.pages| == 2 && |s.pages[0]| == |s.pages[1]| == |s.drained| == |fields|
    && ((s.active == 0 && s.inactive == 1) || (s.active == 1 && s.inactive == 0))
  }

  /** Two pages of the block's fields, and everyone at a field of one of them: what makes the steps meaningful. */
  ghost predicate InBounds(fields: seq<Field>, s: State) {
    && Shaped(fields, s)
    && (forall w :: 0 <= w < |s.writers| ==> WriterInBounds(fields, s.writers[w]))
    && (s.swapper.Draining? || s.swapper.Copied? ==> s.swapper.page < 2)
    && (s.swapper.Copied? ==> s.swapper.next < |fields|)
  }

  ghost function Next(fields: seq<Field>, s: State, e: Event): State
    requires InBounds(fields, s) && Enabled(fields, s, e)
  {
    match e
    case Acquire(w) => AcquireStep(s, w)
    case Load(w, u) => LoadStep(s, w, u)
    case Store(w) => StoreStep(fields, s, w)
    case Release(w) => ReleaseStep(s, w)
    case SwapFails => s
    case SwapLock => s.(lock := Some(s.inactive), swapper := Exchanged)
    case SwapPages => SwapPagesStep(s)
    case Copy => CopyStep(fields, s)
    case Reset => ResetStep(fields, s)
    case Finish => s.(swapper := Ready)
  }

  // ---- Ownership ----

  /** The page writers work on: the one that is in the lock or was taken from it. */
  ghost function Current(s: State): nat {
    if s.swapper == Exchanged then s.inactive else s.active
  }

  ghost predicate Holds(s: State, w: nat) {
    w < |s.writers| && s.writers[w] != Idle
  }

  ghost predicate WriterOk(fields: seq<Field>, s: State, w: Writer)
    requires Shaped(fields, s)
  {
    match w
    case Idle => true
    case Holding(p) => p == Current(s)
    case Loaded(p, u, seen) =>
      && p == Current(s) && u.field < |fields| && InRange(fields[u.field], u.value)
      && seen == s.pages[p][u.field]
  }

  /** The lock has the current page and nobody else does, or exactly one writer has it. */
  ghost predicate Owned(fields: seq<Field>, s: State) {
    && Shaped(fields, s)
    && (s.lock.Some? ==> s.lock.value == Current(s) && forall w :: !Holds(s, w))
    && (s.lock.None? ==> exists w :: Holds(s, w))
    && (forall v, w :: Holds(s, v) && Holds(s, w) ==> v == w)
    && (forall w :: 0 <= w < |s.writers| ==> WriterOk(fields, s, s.writers[w]))
    && (s.swapper.Draining? ==> s.swapper.page == s.inactive && s.swapper.next <= |fields|)
    && (s.swapper.Copied? ==> s.swapper.page == s.inactive && s.swapper.next < |fields|)
  }

  lemma OwnedInBounds(fields: seq<Field>, s: State)
    requires Owned(fields, s)
    ensures InBounds(fields, s)
  {
    forall w | 0 <= w < |s.writers|
      ensures WriterInBounds(fields, s.writers[w])
    {
      assert WriterOk(fields, s, s.writers[w]);
    }
  }

  lemma AcquireKeepsOwned(fields: seq<Field>, s: State, w: nat)
    requires Owned(fields, s) && w < |s.writers| && s.writers[w] == Idle
    ensures Owned(fields, AcquireStep(s, w))
  {
    var t := AcquireStep(s, w);
    if s.lock.Some? {
      assert Holds(t, w);
      assert forall v :: Holds(t, v) ==> v == w || Holds(s, v);
    }
  }

  lemma LoadKeepsOwned(fields: seq<Field>, s: State, w: nat, u: Update)
    requires Owned(fields, s) && w < |s.writers| && s.writers[w].Holding? && u.field < |fields|
    requires InRange(fields[u.field], u.value)
    ensures Owned(fields, LoadStep(s, w, u))
  {
    var t := LoadStep(s, w, u);
    assert Holds(s, w) && Holds(t, w);
    assert forall v :: Holds(t, v) ==> Holds(s, v);
  }

  lemma StoreKeepsOwned(fields: seq<Field>, s: State, w: nat)
    requires Owned(fields, s) && w < |s.writers| && s.writers[w].Loaded?
    ensures Owned(fields, StoreStep(fields, s, w))
  {
    var t := StoreStep(fields, s, w);
    assert Holds(s, w) && Holds(t, w);
    forall v | Holds(t, v)
      ensures v == w
    {
      assert Holds(s, v);
    }
    forall v | 0 <= v < |t.writers|
      ensures WriterOk(fields, t, t.writers[v])
    {
      assert v == w || !Holds(t, v);
    }
  }

  lemma ReleaseKeepsOwned(fields: seq<Field>, s: State, w: nat)
    requires Owned(fields, s) && w < |s.writers| && s.writers[w].Holding?
    ensures Owned(fields, ReleaseStep(s, w))
  {
    var t := ReleaseStep(s, w);
    assert Holds(s, w);
    forall v
      ensures !Holds(t, v)
    {
      assert Holds(t, v) ==> Holds(s, v);
    }
  }

  lemma ResetKeepsOwned(fields: seq<Field>, s: State)
    requires Owned(fields, s) && s.swapper.Copied?
    ensures Owned(fields, ResetStep(fields, s))
  {
    var t := ResetStep(fields, s);
    assert forall v :: Holds(t, v) <==> Holds(s, v);
    forall v | 0 <= v < |t.writers|
      ensures WriterOk(fields, t, t.writers[v])
    {
      assert WriterOk(fields, s, s.writers[v]);
    }
  }

  /** Steps of the swapper that change no page. */
  lemma SwapperKeepsOwned(fields: seq<Field>, s: State, e: Event)
    requires InBounds(fields, s) && Owned(fields, s) && Enabled(fields, s, e)
    requires e.SwapLock? || e.SwapPages? || e.Copy? || e.Finish?
    ensures Owned(fields, Next(fields, s, e))
  {
    var t := Next(fields, s, e);
    assert forall v :: Holds(t, v) <==> Holds(s, v);
    forall v | 0 <= v < |t.writers|
      ensures WriterOk(fields, t, t.writers[v])
    {
      assert WriterOk(fields, s, s.writers[v]);
      assert Holds(s, v) || s.writers[v] == Idle;
    }
  }

  lemma StepKeepsOwned(fields: seq<Field>, s: State, e: Event)
    requires InBounds(fields, s) && Owned(fields, s) && Enabled(fields, s, e)
    ensures Owned(fields, Next(fields, s, e))
  {
    match e
    case Acquire(w) => AcquireKeepsOwned(fields, s, w);
    case Load(w, u) => LoadKeepsOwned(fields, s, w, u);
    case Store(w) => StoreKeepsOwned(fields, s, w);
    case Release(w) => ReleaseKeepsOwned(fields, s, w);
    case SwapFails =>
    case Reset => ResetKeepsOwned(fields, s);
    case _ => SwapperKeepsOwned(fields, s, e);
  }

  // ---- Conservation ----

  /** The updates of one field in the order of their stores, combined from the default. */
  ghost function Applied(fields: seq<Field>, log: seq<Update>, f: nat): real
    requires f < |fields|
  {
    if log == [] then Default(fields[f])
    else
      var r := Applied(fields, log[..|log| - 1], f);
      var u := log[|log| - 1];
      if u.field == f then Op(fields[f], r, u.value) else r
  }

  /** A page's contribution: a value that is copied and not yet reset is no longer the page's. */
  ghost function Part(fields: seq<Field>, s: State, p: nat, f: nat): real
    requires p < |s.pages| && f < |s.pages[p]| == |fields|
  {
    if s.swapper == Copied(p, f) then Default(fields[f]) else s.pages[p][f]
  }

  ghost function Total(fields: seq<Field>, s: State, f: nat): real
    requires Shaped(fields, s) && f < |fields|
  {
    Op(fields[f], s.drained[f], Op(fields[f], Part(fields, s, 0, f), Part(fields, s, 1, f)))
  }

  ghost predicate Balanced(fields: seq<Field>, s: State, f: nat)
    requires Shaped(fields, s) && f < |fields|
  {
    && Total(fields, s, f) == Applied(fields, s.log, f)
    && Neutral(fields[f], s.drained[f]) && Neutral(fields[f], s.pages[0][f]) && Neutral(fields[f], s.pages[1][f])
  }

  ghost predicate Inv(fields: seq<Field>, s: State) {
    Owned(fields, s) && forall f: nat {:trigger Balanced(fields, s, f)} :: f < |fields| ==> Balanced(fields, s, f)
  }

  lemma OpMoves(f: Field, a: real, x: real, y: real, v: real)
    ensures Op(f, a, Op(f, Op(f, x, v), y)) == Op(f, Op(f, a, Op(f, x, y)), v)
    ensures Op(f, a, Op(f, x, Op(f, y, v))) == Op(f, Op(f, a, Op(f, x, y)), v)
  {
  }

  lemma OpStaysNeutral(f: Field, x: real, v: real)
    requires Neutral(f, x)
    ensures Neutral(f, Op(f, x, v))
  {
  }

  lemma LogGrows(fields: seq<Field>, log: seq<Update>, u: Update, f: nat)
    requires f < |fields|
    ensures Applied(fields, log + [u], f) ==
      if u.field == f then Op(fields[f], Applied(fields, log, f), u.value) else Applied(fields, log, f)
  {
    assert (log + [u])[..|log|] == log;
  }

  /** The page of a writer is not the one being drained. */
  lemma WriterPageIsLive(fields: seq<Field>, s: State, w: nat)
    requires Owned(fields, s) && w < |s.writers| && s.writers[w].Loaded?
    ensures var l := s.writers[w];
      && l.page == Current(s) && l.update.field < |fields| && l.seen == s.pages[l.page][l.update.field]
      && !(s.swapper.Copied? && s.swapper.page == l.page)
  {
    assert WriterOk(fields, s, s.writers[w]);
  }

  lemma StoreHere(fields: seq<Field>, s: State, w: nat, f: nat)
    requires Owned(fields, s) && w < |s.writers| && s.writers[w].Loaded? && f < |fields| && Balanced(fields, s, f)
    requires s.writers[w].update.field == f
    ensures var t := StoreStep(fields, s, w);
      && Shaped(fields, t) && Total(fields, t, f) == Op(fields[f], Total(fields, s, f), s.writers[w].update.value)
      && t.drained == s.drained && Neutral(fields[f], t.pages[0][f]) && Neutral(fields[f], t.pages[1][f])
  {
    var t, l := StoreStep(fields, s, w), s.writers[w];
    WriterPageIsLive(fields, s, w);
    var x, y, v := Part(fields, s, 0, f), Part(fields, s, 1, f), l.update.value;
    OpMoves(fields[f], s.drained[f], x, y, v);
    OpStaysNeutral(fields[f], l.seen, v);
    if l.page == 0 {
      assert Part(fields, t, 0, f) == Op(fields[f], x, v) && Part(fields, t, 1, f) == y;
      assert t.pages[1] == s.pages[1];
    } else {
      assert Part(fields, t, 1, f) == Op(fields[f], y, v) && Part(fields, t, 0, f) == x;
      assert t.pages[0] == s.pages[0];
    }
  }

  /** One store is one more update of its field and no change of any other. */
  lemma StoreBalances(fields: seq<Field>, s: State, w: nat, f: nat)
    requires Owned(fields, s) && w < |s.writers| && s.writers[w].Loaded? && f < |fields| && Balanced(fields, s, f)
    ensures Shaped(fields, StoreStep(fields, s, w)) && Balanced(fields, StoreStep(fields, s, w), f)
  {
    var t, l := StoreStep(fields, s, w), s.writers[w];
    WriterPageIsLive(fields, s, w);
    LogGrows(fields, s.log, l.update, f);
    if l.update.field == f {
      StoreHere(fields, s, w, f);
    } else {
      assert t.pages[0][f] == s.pages[0][f] && t.pages[1][f] == s.pages[1][f];
      assert Part(fields, t, 0, f) == Part(fields, s, 0, f) && Part(fields, t, 1, f) == Part(fields, s, 1, f);
    }
  }

  lemma SwapperBalances(fields: seq<Field>, s: State, e: Event, f: nat)
    requires InBounds(fields, s) && Owned(fields, s) && Enabled(fields, s, e) && (e.Copy? || e.Reset?)
    requires f < |fields| && Balanced(fields, s, f)
    ensures Shaped(fields, Next(fields, s, e)) && Balanced(fields, Next(fields, s, e), f)
  {
  }

  lemma StepKeepsInv(fields: seq<Field>, s: State, e: Event)
    requires InBounds(fields, s) && Inv(fields, s) && Enabled(fields, s, e)
    ensures Inv(fields, Next(fields, s, e))
  {
    StepKeepsOwned(fields, s, e);
    var t := Next(fields, s, e);
    forall f: nat | f < |fields|
      ensures Balanced(fields, t, f)
    {
      assert Balanced(fields, s, f);
      if e.Store? {
        StoreBalances(fields, s, e.w, f);
      } else if e.Copy? || e.Reset? {
        SwapperBalances(fields, s, e, f);
      }
    }
  }

  ghost predicate StepOf(fields: seq<Field>, s: State, e: Event, t: State) {
    InBounds(fields, s) && Enabled(fields, s, e) && t == Next(fields, s, e)
  }

  /** A run: states and the events between them. */
  ghost predicate Run(fields: seq<Field>, states: seq<State>, events: seq<Event>) {
    && |states| == |events| + 1 && Init(fields, states[0])
    && forall i :: 0 <= i < |events| ==> StepOf(fields, states[i], events[i], states[i + 1])
  }

  lemma {:induction false} RunKeepsInv(fields: seq<Field>, states: seq<State>, events: seq<Event>, n: nat)
    requires Run(fields, states, events) && n <= |events|
    ensures Inv(fields, states[n])
  {
    if n == 0 {
      var s := states[0];
      forall f: nat | f < |fields|
        ensures Balanced(fields, s, f)
      {
      }
    } else {
      RunKeepsInv(fields, states, events, n - 1);
      assert StepOf(fields, states[n - 1], events[n - 1], states[n]);
      StepKeepsInv(fields, states[n - 1], events[n - 1]);
    }
  }

  /** The page a writer, or the swapper, works on. */
  ghost function WriterPage(s: State, w: nat): Option<nat> {
    if w < |s.writers| && s.writers[w] != Idle then Some(s.writers[w].page) else None
  }

  ghost function SwapperPage(s: State): Option<nat> {
    match s.swapper
    case Ready => None
    case Exchanged => Some(s.active)
    case Draining(p, _) => Some(p)
    case Copied(p, _) => Some(p)
  }

  /** At no moment of any run do two parties hold one page, or two writers any page at all. */
  lemma NoPageHeldTwice(fields: seq<Field>, states: seq<State>, events: seq<Event>, n: nat)
    requires Run(fields, states, events) && n <= |events|
    ensures var s := states[n];
      && (forall v, w :: WriterPage(s, v).Some? && WriterPage(s, w).Some? ==> v == w)
      && (forall w :: WriterPage(s, w).Some? ==> WriterPage(s, w) != SwapperPage(s) && s.lock.None?)
      && (s.lock.Some? ==> s.lock != SwapperPage(s))
      && (s.lock.None? ==> exists w :: WriterPage(s, w).Some?)
  {
    RunKeepsInv(fields, states, events, n);
    var s := states[n];
    assert forall w :: WriterPage(s, w).Some? <==> Holds(s, w);
    forall w: nat | WriterPage(s, w).Some?
      ensures WriterPage(s, w) != SwapperPage(s)
    {
      assert WriterOk(fields, s, s.writers[w]);
    }
    if s.lock.None? {
      var w :| Holds(s, w);
      assert WriterPage(s, w).Some?;
    }
  }

  /** Nothing is lost and nothing counted twice, at every moment of every run. */
  lemma NothingLost(fields: seq<Field>, states: seq<State>, events: seq<Event>, n: nat, f: nat)
    requires Run(fields, states, events) && n <= |events| && f < |fields|
    ensures Shaped(fields, states[n]) && Total(fields, states[n], f) == Applied(fields, states[n].log, f)
    ensures var s := states[n]; !s.swapper.Copied? ==>
      Op(fields[f], s.drained[f], Op(fields[f], s.pages[0][f], s.pages[1][f])) == Applied(fields, s.log, f)
  {
    RunKeepsInv(fields, states, events, n);
    assert Balanced(fields, states[n], f);
  }

  // ---- What the default does to a maximum of doubles ----

  /** The values stored into field `f`. */
  ghost function Values(log: seq<Update>, f: nat): seq<real> {
    if log == [] then []
    else
      var u := log[|log| - 1];
      Values(log[..|log| - 1], f) + (if u.field == f then [u.value] else [])
  }

  /** Their sum, least or greatest value, with no default involved. */
  ghost function Combined(f: Field, vals: seq<real>): real
    requires vals != []
  {
    if |vals| == 1 then vals[0] else Op(f, Combined(f, vals[..|vals| - 1]), vals[|vals| - 1])
  }

  lemma {:induction false} AppliedFromDefault(fields: seq<Field>, log: seq<Update>, f: nat)
    requires f < |fields|
    ensures var vals := Values(log, f);
      var d := Default(fields[f]);
      Applied(fields, log, f) == if vals == [] then d else Op(fields[f], d, Combined(fields[f], vals))
  {
    if log != [] {
      var head := log[..|log| - 1];
      AppliedFromDefault(fields, head, f);
      var vals := Values(log, f);
      if log[|log| - 1].field == f {
        assert vals[..|vals| - 1] == Values(head, f);
      } else {
        assert vals == Values(head, f);
      }
    }
  }

  lemma {:induction false} CombinedBounds(f: Field, vals: seq<real>)
    requires vals != [] && f.how != Sum
    ensures Combined(f, vals) in vals
    ensures forall v :: v in vals ==> if f.how == Max then v <= Combined(f, vals) else Combined(f, vals) <= v
  {
    if |vals| > 1 {
      var head := vals[..|vals| - 1];
      CombinedBounds(f, head);
      assert vals == head + [vals[|vals| - 1]];
    }
  }

  /**
   * The reported statistic is the sum, least or greatest of the stored values exactly unless the
   * field is a maximum of doubles and every stored value is below DBL_MIN: the default of such a
   * field is the smallest positive normal number, not the lowest one.
   */
  lemma ReportedExactlyUnless(fields: seq<Field>, log: seq<Update>, f: nat)
    requires f < |fields| && Values(log, f) != []
    requires forall v :: v in Values(log, f) ==> InRange(fields[f], v)
    ensures Applied(fields, log, f) == Combined(fields[f], Values(log, f))
       <==> !(fields[f] == FloatField(Max) && forall v :: v in Values(log, f) ==> v < DBL_MIN)
  {
    AppliedFromDefault(fields, log, f);
    if fields[f].how != Sum {
      CombinedBounds(fields[f], Values(log, f));
    }
  }

  /** For instance, one negative double: the maximum reported is DBL_MIN. */
  lemma NegativeMaximumIsLost(v: real)
    requires v < 0.0
    ensures Applied([FloatField(Max)], [Update(0, v)], 0) == DBL_MIN > v
  {
    var log := [Update(0, v)];
    assert log[..0] == [];
    assert Applied([FloatField(Max)], log[..0], 0) == DBL_MIN;
  }
}
