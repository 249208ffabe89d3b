/**
 * Rate limiting by token buckets (Settings and Bucket in rate.h, Rate::_post, _update_buckets and
 * _on_timer in rate.cc).  Times are whole nanoseconds, the speed is a positive real.
 */
module Rate {
  datatype Conf = Conf(bytes: bool, speed: real, limit: int, initial: int, watermark: int)
  datatype Bucket = Bucket(tickets: int, last: int)

  /** What `_parse_bucket` lets through. */
  ghost predicate ConfOk(c: Conf) {
    c.speed > 0.0 && c.limit > 0 && c.initial >= 0 && 0 < c.watermark <= c.limit
  }

  // ---- One bucket ----

  /** Tickets earned in `dt` nanoseconds, before truncation. */
  function Gain(c: Conf, dt: int): real {
    c.speed * (dt as real / 1000000000.0)
  }

  /** `time2size`: the conversion drops the fraction, towards zero. */
  function Time2Size(c: Conf, dt: int): int {
    if Gain(c, dt) >= 0.0 then Gain(c, dt).Floor else -((-Gain(c, dt)).Floor)
  }

  function Min(a: int, b: int): int {
    if b < a then b else a
  }

  function Max(a: int, b: int): int {
    if a < b then b else a
  }

  /** `Bucket::update`: the first one sets the initial tickets, one that earns less than a ticket changes nothing. */
  function Update(c: Conf, b: Bucket, now: int): Bucket {
    if b.last == 0 then Bucket(c.initial, now)
    else
      var ds := Time2Size(c, now - b.last);
      if ds == 0 then b else Bucket(Min(c.limit, b.tickets + ds), now)
  }

  predicate Empty(b: Bucket) {
    b.tickets <= 0
  }

  /** `next` and `size2time`: nanoseconds until an empty bucket is expected to be filled up to the watermark. */
  function Delay(c: Conf, b: Bucket): int
    requires c.speed > 0.0
  {
    if b.tickets > 0 then 0 else ((c.watermark - b.tickets) as real / c.speed * 1000000000.0).Floor
  }

  function Cost(c: Conf, size: nat): nat {
    if c.bytes then size else 1
  }

  function Consume(b: Bucket, n: nat): Bucket {
    b.(tickets := b.tickets - n)
  }

  lemma GainAdds(c: Conf, a: int, b: int)
    ensures Gain(c, a + b) == Gain(c, a) + Gain(c, b)
  {
    assert (a + b) as real / 1000000000.0 == a as real / 1000000000.0 + b as real / 1000000000.0;
  }

  lemma GainIsPositive(c: Conf, a: int)
    requires c.speed > 0.0 && a >= 0
    ensures Gain(c, a) >= 0.0
  {
    var t := a as real / 1000000000.0;
    assert t >= 0.0;
  }

  lemma GainGrows(c: Conf, a: int, b: int)
    requires c.speed > 0.0 && a <= b
    ensures Gain(c, a) <= Gain(c, b)
  {
    GainAdds(c, a, b - a);
    GainIsPositive(c, b - a);
  }

  /** A second update at the same time does nothing. */
  lemma UpdateTwice(c: Conf, b: Bucket, now: int)
    requires now != 0
    ensures Update(c, Update(c, b, now), now) == Update(c, b, now)
  {
    assert Gain(c, 0) == 0.0;
  }

  lemma GainOfRatio(c: Conf, n: int, dt: int)
    requires c.speed > 0.0 && dt as real >= n as real / c.speed * 1000000000.0
    ensures Gain(c, dt) >= n as real
  {
    var x := n as real / c.speed;
    assert x * c.speed == n as real;
    var t := dt as real / 1000000000.0;
    assert t >= x;
    assert c.speed * (t - x) >= 0.0;
  }

  /** One nanosecond after the delay of an empty bucket an update fills it up to the watermark. */
  lemma DelaySuffices(c: Conf, b: Bucket, now: int, later: int)
    requires ConfOk(c) && Empty(b) && 0 < b.last <= now && later > now + Delay(c, b)
    ensures Update(c, b, later).tickets >= c.watermark > 0
  {
    GainOfRatio(c, c.watermark - b.tickets, later - b.last);
  }

  lemma GrowsBy(y: real, s: real)
    requires s > 0.0
    ensures y >= 1.0 <==> y * s >= s
  {
  }

  lemma Regroup(x: real, s: real, top: real)
    ensures (x * top) * s == (x * s) * top
  {
  }

  /** `x`, the ratio of `n` to `s`, scaled by `top`. */
  lemma ScaledRatio(x: real, n: real, s: real, top: real)
    requires s > 0.0 && x * s == n
    ensures x * top >= 1.0 <==> n * top >= s
  {
    Regroup(x, s, top);
    GrowsBy(x * top, s);
  }

  /** A bucket with tickets missing waits for at least a nanosecond exactly when they take that long to earn. */
  lemma DelayPositive(c: Conf, b: Bucket)
    requires ConfOk(c) && Empty(b)
    ensures Delay(c, b) > 0 <==> c.speed <= 1000000000.0 * (c.watermark - b.tickets) as real
  {
    var n := (c.watermark - b.tickets) as real;
    var x := n / c.speed;
    assert x * c.speed == n;
    ScaledRatio(x, n, c.speed, 1000000000.0);
  }

  lemma WatermarkSuffices(c: Conf, b: Bucket)
    requires ConfOk(c) && Empty(b) && c.speed <= 1000000000.0 * c.watermark as real
    ensures Delay(c, b) > 0
  {
    DelayPositive(c, b);
  }

  /** Above that speed a bucket that has just run out has nothing to wait for. */
  lemma FastBucketDoesNotWait(c: Conf)
    requires ConfOk(c) && c.speed > 1000000000.0 * c.watermark as real
    ensures Empty(Bucket(0, 1)) && Delay(c, Bucket(0, 1)) == 0
  {
    DelayPositive(c, Bucket(0, 1));
    assert c.watermark as real / c.speed > 0.0;
  }

  // ---- All buckets ----

  /**
   * Being empty and having something to wait for are the same for every state of a bucket exactly
   * up to a speed of one watermark per nanosecond.
   */
  lemma EmptyWaitsExactly(c: Conf)
    requires ConfOk(c)
    ensures (forall b: Bucket :: Delay(c, b) > 0 <==> Empty(b)) <==> c.speed <= 1000000000.0 * c.watermark as real
  {
    if c.speed <= 1000000000.0 * c.watermark as real {
      forall b: Bucket
        ensures Delay(c, b) > 0 <==> Empty(b)
      {
        if Empty(b) {
          WatermarkSuffices(c, b);
        }
      }
    } else {
      FastBucketDoesNotWait(c);
      assert Empty(Bucket(0, 1)) && Delay(c, Bucket(0, 1)) == 0;
    }
  }

  datatype State = State(buckets: seq<Bucket>, used: seq<nat>)

  datatype Event =
    | Post(now: int, size: nat, urgent: bool, childOk: bool)
    | Timer(now: int)

  function UpdateAll(cs: seq<Conf>, bs: seq<Bucket>, now: int): seq<Bucket>
    requires |bs| == |cs|
  {
    seq(|bs|, k requires 0 <= k < |bs| => Update(cs[k], bs[k], now))
  }

  function ConsumeAll(cs: seq<Conf>, bs: seq<Bucket>, size: nat): seq<Bucket>
    requires |bs| == |cs|
  {
    seq(|bs|, k requires 0 <= k < |bs| => Consume(bs[k], Cost(cs[k], size)))
  }

  /** The longest delay among the first `n` buckets. */
  function Wait(cs: seq<Conf>, bs: seq<Bucket>, n: nat): int
    requires n <= |bs| == |cs| && forall k :: 0 <= k < |cs| ==> cs[k].speed > 0.0
  {
    if n == 0 then 0 else Max(Wait(cs, bs, n - 1), Delay(cs[n - 1], bs[n - 1]))
  }

  predicate AnyEmpty(bs: seq<Bucket>) {
    exists k :: 0 <= k < |bs| && Empty(bs[k])
  }

  /** Up to one watermark per nanosecond writers are told to wait exactly when a bucket is empty. */
  lemma {:induction false} WaitMeansEmpty(cs: seq<Conf>, bs: seq<Bucket>, n: nat)
    requires n <= |bs| == |cs|
    requires forall k :: 0 <= k < |cs| ==> 0.0 < cs[k].speed <= 1000000000.0 * cs[k].watermark as real && ConfOk(cs[k])
    ensures Wait(cs, bs, n) >= 0
    ensures Wait(cs, bs, n) > 0 <==> AnyEmpty(bs[..n])
  {
    if n > 0 {
      var b := bs[n - 1];
      WaitMeansEmpty(cs, bs, n - 1);
      if Empty(b) {
        WatermarkSuffices(cs[n - 1], b);
        assert Empty(bs[..n][n - 1]);
      }
      if AnyEmpty(bs[..n - 1]) {
        var k :| 0 <= k < n - 1 && Empty(bs[..n - 1][k]);
        assert Empty(bs[..n][k]);
      }
    }
  }

  /** A post passes the limiter and reaches the child. */
  predicate Passes(cs: seq<Conf>, bs: seq<Bucket>, e: Event)
    requires |bs| == |cs|
  {
    e.Post? && e.childOk && (e.urgent || !AnyEmpty(UpdateAll(cs, bs, e.now)))
  }

  ghost function Next(cs: seq<Conf>, s: State, e: Event): State
    requires |s.buckets| == |s.used| == |cs|
  {
    var bs := UpdateAll(cs, s.buckets, e.now);
    if Passes(cs, s.buckets, e) then
      State(ConsumeAll(cs, bs, e.size), seq(|cs|, k requires 0 <= k < |cs| => s.used[k] + Cost(cs[k], e.size)))
    else State(bs, s.used)
  }

  datatype Result = Done | Again | ChildFailed

  lemma {:induction false} WaitOfFirst(cs: seq<Conf>, bs: seq<Bucket>, bs': seq<Bucket>, n: nat)
    requires n <= |bs| == |bs'| == |cs| && (forall k :: 0 <= k < |cs| ==> cs[k].speed > 0.0)
    requires forall k :: 0 <= k < n ==> bs'[k] == bs[k]
    ensures Wait(cs, bs, n) == Wait(cs, bs', n) >= 0
  {
    if n > 0 {
      WaitOfFirst(cs, bs, bs', n - 1);
    }
  }

  // ---- The bound on every run ----

  class Limiter {
    const confs: seq<Conf>
    var buckets: seq<Bucket>
    ghost var used: seq<nat>

    ghost predicate Valid()
      reads this
    {
      |buckets| == |used| == |confs| && forall k :: 0 <= k < |confs| ==> confs[k].speed > 0.0
    }

    ghost function Abs(): State
      reads this
    {
      State(buckets, used)
    }

    constructor (confs: seq<Conf>)
      requires forall k :: 0 <= k < |confs| ==> confs[k].speed > 0.0
      ensures Valid() && this.confs == confs
      ensures forall k :: 0 <= k < |confs| ==> buckets[k].last == 0 && used[k] == 0
    {
      this.confs := confs;
      buckets := seq(|confs|, _ => Bucket(0, 0));
      used := seq(|confs|, _ => 0);
    }

    /** The loop that brings all buckets up to date. */
    method UpdateBuckets(now: int) returns (empty: bool)
      requires Valid()
      modifies this`buckets
      ensures buckets == UpdateAll(confs, old(buckets), now) && empty == AnyEmpty(buckets)
    {
      empty := false;
      for k := 0 to |buckets|
        invariant |buckets| == |confs|
        invariant forall j :: 0 <= j < |buckets| ==>
                  buckets[j] == if j < k then Update(confs[j], old(buckets)[j], now) else old(buckets)[j]
        invariant empty <==> exists j :: 0 <= j < k && Empty(buckets[j])
      {
        buckets := buckets[k := Update(confs[k], buckets[k], now)];
        empty := empty || Empty(buckets[k]);
      }
    }

    /**
     * `_update_buckets`: every bucket is updated and charged; with a `next` the timer is armed and
     * writers are told to wait.
     */
    method Charge(now: int, size: nat) returns (next: int)
      requires Valid()
      modifies this
      ensures Valid() && buckets == ConsumeAll(confs, UpdateAll(confs, old(buckets), now), size)
      ensures next == Wait(confs, buckets, |buckets|)
      ensures forall k :: 0 <= k < |used| ==> used[k] == old(used)[k] + Cost(confs[k], size)
    {
      next := 0;
      for k := 0 to |buckets|
        invariant Valid() && next == Wait(confs, buckets, k)
        invariant forall j :: 0 <= j < |buckets| ==>
          var b := old(buckets)[j];
          buckets[j] == if j < k then Consume(Update(confs[j], b, now), Cost(confs[j], size)) else b
        invariant forall j :: 0 <= j < |used| ==>
                  used[j] == if j < k then old(used)[j] + Cost(confs[j], size) else old(used)[j]
      {
        var b := Update(confs[k], buckets[k], now);
        b := Consume(b, Cost(confs[k], size));
        WaitOfFirst(confs, buckets, buckets[k := b], k);
        buckets := buckets[k := b];
        if Empty(b) {
          next := Max(next, Delay(confs[k], b));
        }
        used := used[k := used[k] + Cost(confs[k], size)];
      }
    }

    /**
     * `_post` of a data message: refused exactly when a bucket is empty and the post is not urgent;
     * only a message that went out is charged.
     */
    method Post(now: int, size: nat, urgent: bool, childOk: bool) returns (r: Result)
      requires Valid() && now != 0
      modifies this
      ensures Valid() && Abs() == Next(confs, old(Abs()), Event.Post(now, size, urgent, childOk))
      ensures r == Done <==> Passes(confs, old(buckets), Event.Post(now, size, urgent, childOk))
      ensures r == Again <==> !urgent && AnyEmpty(UpdateAll(confs, old(buckets), now))
    {
      var empty := UpdateBuckets(now);
      if empty && !urgent {
        return Again;
      }
      if !childOk {
        return ChildFailed;
      }
      assert UpdateAll(confs, buckets, now) == buckets by {
        forall k | 0 <= k < |buckets|
          ensures Update(confs[k], buckets[k], now) == buckets[k]
        {
          UpdateTwice(confs[k], old(buckets)[k], now);
        }
      }
      var next := Charge(now, size);
      r := Done;
    }

    /**
     * `_on_timer`: the buckets are updated; with a `next` the timer is armed again, else the writers
     * are told to go on.
     */
    method OnTimer(now: int) returns (next: int)
      requires Valid()
      modifies this`buckets
      ensures Valid() && Abs() == Next(confs, old(Abs()), Timer(now)) && next == Wait(confs, buckets, |buckets|)
    {
      next := 0;
      for k := 0 to |buckets|
        invariant Valid() && next == Wait(confs, buckets, k)
        invariant forall j :: 0 <= j < |buckets| ==>
                  buckets[j] == if j < k then Update(confs[j], old(buckets)[j], now) else old(buckets)[j]
      {
        var b := Update(confs[k], buckets[k], now);
        WaitOfFirst(confs, buckets, buckets[k := b], k);
        buckets := buckets[k := b];
        if Empty(b) {
          next := Max(next, Delay(confs[k], b));
        }
      }
      assert buckets == UpdateAll(confs, old(buckets), now);
    }
  }

  ghost predicate EventOk(cs: seq<Conf>, e: Event, m: nat) {
    && e.now > 0
    && (e.Post? ==> !e.urgent && forall k :: 0 <= k < |cs| ==> Cost(cs[k], e.size) <= m)
  }

  /** A run without urgent posts: a clock that never goes back and messages of cost at most `m`. */
  ghost predicate Run(cs: seq<Conf>, states: seq<State>, events: seq<Event>, m: nat) {
    && |states| == |events| + 1
    && (forall i :: 0 <= i < |states| ==> |states[i].buckets| == |states[i].used| == |cs|)
    && (forall k :: 0 <= k < |cs| ==> ConfOk(cs[k]) && states[0].buckets[k].last == 0)
    && (forall i :: 0 <= i < |events| ==> EventOk(cs, events[i], m) && states[i + 1] == Next(cs, states[i], events[i]))
    && (forall i, j :: 0 <= i < j < |events| ==> events[i].now <= events[j].now)
  }

  /** Bucket `k` right after the update of event `i`, before anything is charged. */
  ghost function Fresh(cs: seq<Conf>, states: seq<State>, events: seq<Event>, i: nat, k: nat): Bucket
    requires i < |events| && i < |states| && k < |states[i].buckets| == |cs|
  {
    Update(cs[k], states[i].buckets[k], events[i].now)
  }

  /** One event as one bucket sees it: an update, and a charge only when it is not empty. */
  lemma BucketStep(cs: seq<Conf>, s: State, e: Event, m: nat, k: nat)
    requires |s.buckets| == |s.used| == |cs| && k < |cs| && EventOk(cs, e, m)
    ensures var t := Next(cs, s, e); var b := Update(cs[k], s.buckets[k], e.now);
      exists n: nat ::
        n <= m && (n > 0 ==> b.tickets >= 1) && t.buckets[k] == Consume(b, n) && t.used[k] == s.used[k] + n
  {
    var t := Next(cs, s, e);
    var b := Update(cs[k], s.buckets[k], e.now);
    var bs := UpdateAll(cs, s.buckets, e.now);
    if Passes(cs, s.buckets, e) {
      var n := Cost(cs[k], e.size);
      assert !Empty(bs[k]);
      assert t.buckets[k] == Consume(b, n) && t.used[k] == s.used[k] + n && n <= m;
    } else {
      assert t.buckets[k] == Consume(b, 0) && t.used[k] == s.used[k] + 0;
    }
  }

  /**
   * What an update leaves: at most the limit or the initial tickets, and less than one ticket not
   * yet credited.  Below the limit it loses less than one ticket to truncation, and its time moves
   * on only when it credits one.
   */
  lemma UpdateBounds(c: Conf, b: Bucket, now: int, m: nat)
    requires ConfOk(c) && m >= 1 && now > 0 && b.last <= now && b.last >= 0
    requires b.last != 0 ==> b.tickets >= 1 - m && b.tickets <= Max(c.limit, c.initial)
    ensures var u := Update(c, b, now);
      && 0 < u.last <= now && u.tickets >= 1 - m && u.tickets <= Max(c.limit, c.initial)
      && Gain(c, now - u.last) < 1.0
      && (b.last != 0 ==> b.last <= u.last && u.tickets as real <= b.tickets as real + Gain(c, u.last - b.last))
      && (b.last != 0 && u.tickets != c.limit ==>
            u.tickets as real > b.tickets as real + Gain(c, u.last - b.last) - 1.0)
      && (b.last != 0 && u.last != b.last ==> u.tickets == c.limit || u.tickets > b.tickets)
  {
    assert Gain(c, 0) == 0.0;
    if b.last != 0 {
      GainIsPositive(c, now - b.last);
    }
  }

  ghost predicate Kept(c: Conf, b: Bucket, now: int, m: nat) {
    0 < b.last <= now && b.tickets >= 1 - m && b.tickets <= Max(c.limit, c.initial)
  }

  /** After every event: the tickets stay above `-m`. */
  lemma {:induction false} TicketsStayAbove(cs: seq<Conf>, states: seq<State>, events: seq<Event>, m: nat,
                                            i: nat, k: nat)
    requires Run(cs, states, events, m) && m >= 1 && i < |events| && k < |cs|
    ensures Kept(cs[k], states[i + 1].buckets[k], events[i].now, m)
    ensures Kept(cs[k], Fresh(cs, states, events, i, k), events[i].now, m)
    ensures Gain(cs[k], events[i].now - Fresh(cs, states, events, i, k).last) < 1.0
  {
    if i > 0 {
      TicketsStayAbove(cs, states, events, m, i - 1, k);
      assert events[i - 1].now <= events[i].now;
    }
    assert EventOk(cs, events[i], m);
    UpdateBounds(cs[k], states[i].buckets[k], events[i].now, m);
    BucketStep(cs, states[i], events[i], m, k);
  }

  /** From event `i` to event `j`: what is used was there or was earned since. */
  lemma {:induction false} UsedIsEarned(cs: seq<Conf>, states: seq<State>, events: seq<Event>, m: nat, i: nat,
                                        j: nat, k: nat)
    requires Run(cs, states, events, m) && m >= 1 && i <= j < |events| && k < |cs|
    ensures var b := Fresh(cs, states, events, i, k); var t := states[j + 1];
      var u := t.buckets[k];
      (t.used[k] - states[i].used[k] + u.tickets) as real <= b.tickets as real + Gain(cs[k], u.last - b.last)
    decreases j
  {
    var b := Fresh(cs, states, events, i, k);
    BucketStep(cs, states[j], events[j], m, k);
    if i == j {
      assert Gain(cs[k], 0) == 0.0;
    } else {
      UsedIsEarned(cs, states, events, m, i, j - 1, k);
      TicketsStayAbove(cs, states, events, m, j - 1, k);
      var s := states[j].buckets[k];
      assert events[j - 1].now <= events[j].now;
      UpdateBounds(cs[k], s, events[j].now, m);
      var u := Update(cs[k], s, events[j].now);
      GainAdds(cs[k], s.last - b.last, u.last - s.last);
    }
  }

  /**
   * In every window that starts at an update and ends at a later event, a bucket is charged less
   * than the larger of the limit and the initial tickets, plus the speed times the window, plus
   * the cost of one message; the tickets never fall below `1 - m`.
   */
  lemma RateIsBounded(cs: seq<Conf>, states: seq<State>, events: seq<Event>, m: nat, i: nat, j: nat, k: nat)
    requires Run(cs, states, events, m) && m >= 1 && i <= j < |events| && k < |cs|
    ensures states[j + 1].used[k] as real - states[i].used[k] as real
      < Max(cs[k].limit, cs[k].initial) as real + Gain(cs[k], events[j].now - events[i].now) + m as real
    ensures states[j + 1].buckets[k].tickets >= 1 - m
  {
    var b := Fresh(cs, states, events, i, k);
    var t := states[j + 1].buckets[k];
    UsedIsEarned(cs, states, events, m, i, j, k);
    TicketsStayAbove(cs, states, events, m, i, k);
    TicketsStayAbove(cs, states, events, m, j, k);
    var c := cs[k];
    GainGrows(c, t.last - b.last, events[j].now - b.last);
    GainAdds(c, events[j].now - events[i].now, events[i].now - b.last);
  }
}
