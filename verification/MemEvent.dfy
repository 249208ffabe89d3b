/**
 * Wakeups of the in-memory channel (Mem::_post, Mem::_process and Mem::_open in mem.cc,
 * event_clear_race in event.h): a producer writes into the ring and then raises an event counter;
 * the consumer, called when the counter is raised or its Pending flag is set, takes one message
 * and clears the counter when it finds the ring empty.
 *
 * Each access to the ring or the counter is one step; producer and consumer steps interleave in
 * any order.
 */
module MemEvent {
  /** Where the consumer is: opening, between calls, or inside a call of `_process`. */
  datatype Phase =
    | Detached      // the ring has no event yet
    | OpenCheck     // the event is attached, the ring not yet looked at
    | OpenNotify
    | Idle
    | Got           // the ring had a message
    | Delivered
    | Shifted
    | FirstCheck    // event_clear_race, before the clear
    | Clear
    | SecondCheck   // after the clear
    | Rearm
    | Failed        // the clear found a zero counter

  datatype State = State(
    queue: seq<int>, counter: nat, attached: bool, pending: bool,
    notifying: bool,          // the producer has written and not yet notified
    phase: Phase,
    posted: seq<int>, delivered: seq<int>)

  datatype Event = Post(m: int) | Notify | Process | Continue

  ghost predicate Init(s: State) {
    && s.counter == 0 && !s.attached && !s.pending && !s.notifying && s.phase == Detached
    && s.queue == s.posted && s.delivered == []
  }

  /** The loop calls `_process` for a raised event or for Pending. */
  predicate Woken(s: State) {
    s.counter > 0 || s.pending
  }

  predicate Enabled(s: State, e: Event) {
    match e
    case Post(_) => !s.notifying
    case Notify => s.notifying
    case Process => s.phase == Idle && Woken(s)
    case Continue => s.phase != Idle && s.phase != Failed
  }

  /** The start of `_process`: EAGAIN, with nothing changed, when the ring is empty. */
  function Begin(s: State): State {
    if s.queue == [] then s else s.(phase := Got)
  }

  /** The consumer's next access. */
  function Advance(s: State): State {
    match s.phase
    case Detached => s.(attached := true, phase := OpenCheck)
    case OpenCheck => s.(phase := if s.queue == [] then Idle else OpenNotify)
    case OpenNotify => s.(counter := s.counter + 1, phase := Idle)
    case Idle => s
    case Got => s.(phase := Delivered, delivered := if s.queue == [] then s.delivered else s.delivered + [s.queue[0]])
    case Delivered => s.(phase := Shifted, queue := if s.queue == [] then [] else s.queue[1..])
    case Shifted => s.(pending := s.queue != [], phase := if s.queue == [] then FirstCheck else Idle)
    case FirstCheck => s.(phase := if s.queue == [] then Clear else Idle)
    case Clear => if s.counter == 0 then s.(phase := Failed) else s.(counter := 0, phase := SecondCheck)
    case SecondCheck => s.(phase := if s.queue == [] then Idle else Rearm)
    case Rearm => s.(counter := s.counter + 1, phase := Idle)
    case Failed => s
  }

  function Next(s: State, e: Event): State {
    match e
    case Post(m) => s.(queue := s.queue + [m], posted := s.posted + [m], notifying := true)
    case Notify => s.(notifying := false, counter := if s.attached then s.counter + 1 else s.counter)
    case Process => Begin(s)
    case Continue => Advance(s)
  }

  /** The counter is raised throughout a call until it is cleared. */
  ghost predicate MustBeRaised(s: State) {
    || s.phase == Got || s.phase == Delivered || s.phase == Shifted
    || s.phase == FirstCheck || s.phase == Clear || s.pending
  }

  ghost predicate WakeInv(s: State) {
    && (MustBeRaised(s) ==> s.counter > 0)
    && (s.phase == Idle && s.queue != [] ==> s.counter > 0 || s.notifying)
    && (s.pending ==> s.phase == Idle || s.phase == Got || s.phase == Delivered || s.phase == Shifted)
    && (s.phase == Detached <==> !s.attached)
    && s.phase != Failed
  }

  /** The messages the consumer is finished with. */
  ghost function Taken(s: State): seq<int> {
    if s.phase == Delivered && s.delivered != [] then s.delivered[..|s.delivered| - 1] else s.delivered
  }

  ghost predicate FlowInv(s: State) {
    && (s.phase == Got || s.phase == Delivered ==> s.queue != [])
    && (s.phase == Delivered ==> s.delivered != [] && s.delivered[|s.delivered| - 1] == s.queue[0])
    && s.posted == Taken(s) + s.queue
  }

  ghost predicate Inv(s: State) {
    WakeInv(s) && FlowInv(s)
  }

  lemma PostKeepsFlow(s: State, m: int)
    requires FlowInv(s)
    ensures FlowInv(Next(s, Post(m)))
  {
    assert Taken(s) + (s.queue + [m]) == (Taken(s) + s.queue) + [m];
  }

  lemma DeliverKeepsFlow(s: State)
    requires FlowInv(s) && s.phase == Got
    ensures FlowInv(Advance(s))
  {
    assert Taken(Advance(s)) == s.delivered;
  }

  lemma ShiftKeepsFlow(s: State)
    requires FlowInv(s) && s.phase == Delivered
    ensures FlowInv(Advance(s))
  {
    assert s.delivered == Taken(s) + [s.queue[0]];
    assert Taken(s) + s.queue == (Taken(s) + [s.queue[0]]) + s.queue[1..];
  }

  lemma StepKeepsFlow(s: State, e: Event)
    requires FlowInv(s) && Enabled(s, e)
    ensures FlowInv(Next(s, e))
  {
    if e.Post? {
      PostKeepsFlow(s, e.m);
    } else if e.Continue? && s.phase == Got {
      DeliverKeepsFlow(s);
    } else if e.Continue? && s.phase == Delivered {
      ShiftKeepsFlow(s);
    } else {
      var t := Next(s, e);
      assert t.queue == s.queue && t.posted == s.posted && t.delivered == s.delivered;
      assert Taken(t) == Taken(s);
    }
  }

  lemma StepKeepsInv(s: State, e: Event)
    requires Inv(s) && Enabled(s, e)
    ensures Inv(Next(s, e))
  {
    StepKeepsFlow(s, e);
  }

  ghost predicate Run(states: seq<State>, events: seq<Event>) {
    && |states| == |events| + 1 && Init(states[0])
    && forall i :: 0 <= i < |events| ==> Enabled(states[i], events[i]) && states[i + 1] == Next(states[i], events[i])
  }

  lemma {:induction false} RunKeepsInv(states: seq<State>, events: seq<Event>, n: nat)
    requires Run(states, events) && n <= |events|
    ensures Inv(states[n])
  {
    if n > 0 {
      RunKeepsInv(states, events, n - 1);
      StepKeepsInv(states[n - 1], events[n - 1]);
    } else {
      assert Taken(states[0]) + states[0].queue == states[0].posted;
    }
  }

  /**
   * In every interleaving: an idle consumer with messages waiting will be called, now or after
   * the notification the producer is about to send; messages come out once and in order.
   */
  lemma NoLostWakeup(states: seq<State>, events: seq<Event>, n: nat)
    requires Run(states, events) && n <= |events|
    ensures var s := states[n];
      && (s.phase == Idle && s.queue != [] ==> Woken(s) || Woken(Next(s, Notify)))
      && (s.phase == Idle && s.queue != [] && !s.notifying ==> Woken(s))
      && (s.phase == Idle ==> s.posted == s.delivered + s.queue)
      && s.delivered <= s.posted
  {
    RunKeepsInv(states, events, n);
    var s := states[n];
    if s.phase == Delivered {
      assert s.delivered == Taken(s) + [s.queue[0]];
      assert s.posted == s.delivered + s.queue[1..];
    }
  }

  /** In every interleaving the clear finds a raised counter, so the strict policy never fails. */
  lemma ClearNeverFindsZero(states: seq<State>, events: seq<Event>, n: nat)
    requires Run(states, events) && n <= |events|
    ensures states[n].phase != Failed && (states[n].phase == Clear ==> states[n].counter > 0)
  {
    RunKeepsInv(states, events, n);
  }

  // ---- Where the promise ends ----

  ghost function Alone(s: State, n: nat): State {
    if n == 0 then s else Advance(Alone(s, n - 1))
  }

  /**
   * A call of `_process` with no producer step in between, from any idle state: it fails exactly
   * when the ring holds a single message and the event is not raised.  A loop that calls without
   * a wakeup while the producer is about to notify meets this case.
   */
  lemma CallAlone(s: State)
    requires s.phase == Idle && s.queue != []
    ensures var t := Alone(Begin(s), 7);
      && (t.phase == Failed <==> |s.queue| == 1 && s.counter == 0)
      && (t.phase != Failed ==>
            t.phase == Idle && t.pending == (|s.queue| > 1) && t.counter == if t.pending then s.counter else 0)
      && t.queue == s.queue[1..] && t.delivered == s.delivered + [s.queue[0]]
  {
    var a := Begin(s);
    assert Alone(a, 0) == a;
    assert Alone(a, 1) == Advance(a);
    var c := Advance(Advance(a));
    assert Alone(a, 2) == c;
    assert Alone(a, 3) == Advance(c);
    assert Alone(a, 4) == Advance(Advance(c));
    assert Alone(a, 5) == Advance(Advance(Advance(c)));
    assert Alone(a, 6) == Advance(Advance(Advance(Advance(c))));
    assert Alone(a, 7) == Advance(Advance(Advance(Advance(Advance(c)))));
  }

  // ---- When the event stays raised over an empty ring ----

  /** The consumer has seen, or is about to rely on, an empty ring. */
  predicate AtRest(p: Phase) {
    p == Idle || p == SecondCheck || p == OpenCheck
  }

  /** No event is raised over an empty ring; what holds elsewhere to keep it so. */
  ghost predicate Settled(s: State) {
    && (s.queue == [] && AtRest(s.phase) ==> s.counter == 0)
    && (s.phase == OpenNotify || s.phase == Rearm ==> s.queue != [])
    && (s.phase == Detached ==> s.counter == 0)
  }

  /** The notification of a message that the consumer has already taken. */
  predicate Overtaken(s: State, e: Event) {
    e == Notify && s.attached && s.queue == [] && AtRest(s.phase)
  }

  /** The one step that leaves the event raised over an empty ring. */
  lemma OvertakenExactly(s: State, e: Event)
    requires Inv(s) && Settled(s) && Enabled(s, e)
    ensures Settled(Next(s, e)) <==> !Overtaken(s, e)
  {
    if e.Continue? && s.phase == Delivered {
      assert Next(s, e).phase == Shifted;
    }
  }

  lemma {:induction false} RunSettles(states: seq<State>, events: seq<Event>, n: nat)
    requires Run(states, events) && n <= |events|
    requires forall i :: 0 <= i < n ==> !Overtaken(states[i], events[i])
    ensures Settled(states[n])
  {
    if n > 0 {
      RunSettles(states, events, n - 1);
      RunKeepsInv(states, events, n - 1);
      OvertakenExactly(states[n - 1], events[n - 1]);
    }
  }

  /**
   * Over whole runs: the event is raised over an empty ring with the consumer at rest only after
   * an overtaken notification, and right after the first one it is.
   */
  lemma RaisedOnlyByOvertaking(states: seq<State>, events: seq<Event>, n: nat)
    requires Run(states, events) && n <= |events|
    ensures states[n].queue == [] && AtRest(states[n].phase) && states[n].counter > 0 ==>
              exists i :: 0 <= i < n && Overtaken(states[i], events[i])
    ensures n < |events| && Overtaken(states[n], events[n]) ==>
              states[n + 1].queue == [] && AtRest(states[n + 1].phase) && states[n + 1].counter > 0
  {
    if forall i :: 0 <= i < n ==> !Overtaken(states[i], events[i]) {
      RunSettles(states, events, n);
    }
  }

  /**
   * A raised event and an empty ring: the call changes nothing, so the event stays raised and the
   * loop calls again, until the next message.
   */
  lemma EmptyCallKeepsTheEventRaised(s: State)
    requires s.phase == Idle && s.queue == [] && s.counter > 0
    ensures Enabled(s, Process) && Next(s, Process) == s
  {
  }

  lemma Extend(states: seq<State>, events: seq<Event>, e: Event) returns (states': seq<State>, events': seq<Event>)
    requires Run(states, events) && Enabled(states[|events|], e)
    ensures Run(states', events') && events' == events + [e] && states'[|events'|] == Next(states[|events|], e)
  {
    states' := states + [Next(states[|events|], e)];
    events' := events + [e];
  }

  /**
   * Such a state follows from every idle state whose one message is written and not yet notified
   * while an earlier notification is still up.
   */
  lemma EmptyRingWithRaisedEvent(states: seq<State>, events: seq<Event>)
    returns (states': seq<State>, events': seq<Event>)
    requires Run(states, events)
    requires var s := states[|events|]; s.phase == Idle && |s.queue| == 1 && s.counter > 0 && s.notifying && s.attached
    ensures Run(states', events')
    ensures var s := states'[|events'|]; s.phase == Idle && s.queue == [] && s.counter > 0 && !s.notifying
  {
    states', events' := Extend(states, events, Process);
    states', events' := Extend(states', events', Continue);
    states', events' := Extend(states', events', Continue);
    states', events' := Extend(states', events', Continue);
    states', events' := Extend(states', events', Continue);
    states', events' := Extend(states', events', Continue);
    states', events' := Extend(states', events', Continue);
    states', events' := Extend(states', events', Notify);
  }

  /** And that one is reached, for instance, by two posts, the second overtaken by a call. */
  lemma OvertakenNotification(a: int, b: int) returns (states: seq<State>, events: seq<Event>)
    ensures Run(states, events)
    ensures var s := states[|events|]; s.phase == Idle && s.queue == [b] && s.counter > 0 && s.notifying && s.attached
  {
    var s0 := State([], 0, false, false, false, Detached, [], []);
    states, events := [s0], [];
    states, events := Extend(states, events, Continue);
    states, events := Extend(states, events, Continue);
    states, events := Extend(states, events, Post(a));
    states, events := Extend(states, events, Notify);
    states, events := Extend(states, events, Post(b));
    var s := states[|events|];
    assert s == State([a, b], 1, true, false, true, Idle, [a, b], []);
    states, events := Extend(states, events, Process);
    states, events := Extend(states, events, Continue);
    states, events := Extend(states, events, Continue);
    states, events := Extend(states, events, Continue);
    assert s.queue[1..] == [b];
  }
}
