/**
 * The stream client (stream-client.cc): it splices history from a request channel with live data
 * from an online channel.  `Step` says what each callback does to the client; the class below
 * does it in place, the way the source does.
 *
 * Not represented: block snapshots (so `_block_end` stays -1), and user callbacks that close the
 * channel while it is delivering.
 */
module StreamClient {
  import opened Common

  datatype Msg = Msg(seqno: int, msgid: int, body: string)

  datatype Mode = Closed | Opening | Connected | Overlapped | Drain | WaitOnline | Online

  /**
   * `error` is the channel's Error state: a failure sets it and leaves `mode` as it was, so that
   * callbacks go on.  `delivered` and `reports` record what the client has handed to its user:
   * data and Online messages.
   */
  datatype Client = Client(
    mode: Mode,
    error: bool,
    lastSeq: int,
    serverSeq: int,
    openSeq: Option<int>,
    initial: bool,
    onlineOnly: bool,
    ring: seq<Msg>,
    pending: bool,
    delivered: seq<Msg>,
    reports: nat)

  /**
   * What can happen to the client.  `evict` is how many of the oldest entries the bounded buffer
   * drops before the new one fits, `fits` whether the message passes the size check, `roomy` the
   * outcome of the half-free test: all three depend on byte counts that are left open here.
   */
  datatype Event =
    | OnlineActive(infoSeq: int)
    | RequestActive
    | OnlineData(m: Msg, evict: nat, fits: bool)
    | Reply(last: int, requested: int)
    | RequestError
    | RequestClosed
    | RequestData(m: Msg, roomy: bool)
    | Process

  /** `_open`: mode=seq with a seq, mode=initial, or mode=online. */
  function OpenSeq(s: int): Client {
    Client(Closed, false, -1, -1, Some(s), false, false, [], false, [], 0)
  }

  function OpenInitial(): Client {
    Client(Closed, false, -1, -1, None, true, false, [], false, [], 0)
  }

  function OpenOnline(): Client {
    Client(Closed, false, -1, -1, None, false, true, [], false, [], 0)
  }

  function Max(a: int, b: int): int {
    if a > b then a else b
  }

  function Deliver(c: Client, m: Msg): Client {
    c.(delivered := c.delivered + [m])
  }

  /** `_report_online`. */
  function ReportOnline(c: Client): Client {
    c.(mode := if c.mode == Overlapped || c.mode == WaitOnline then Online else Drain, reports := c.reports + 1)
  }

  function DropUpTo(ring: seq<Msg>, s: int): seq<Msg> {
    if ring != [] && ring[0].seqno <= s then DropUpTo(ring[1..], s) else ring
  }

  /** Exactly the leading messages up to `s` are gone. */
  lemma {:induction false} DropUpToIsSuffix(ring: seq<Msg>, s: int)
    ensures var r := DropUpTo(ring, s);
            && |r| <= |ring| && r == ring[|ring| - |r|..]
            && (forall i :: 0 <= i < |ring| - |r| ==> ring[i].seqno <= s)
            && (r != [] ==> r[0].seqno > s)
  {
    if ring != [] && ring[0].seqno <= s {
      DropUpToIsSuffix(ring[1..], s);
    }
  }

  /** `_on_data`: a message of the online feed. */
  function OnOnline(c: Client, m: Msg, evict: nat, fits: bool): Client {
    match c.mode
    case Online => if m.seqno <= c.lastSeq then c else Deliver(c.(lastSeq := m.seqno), m)
    case WaitOnline => ReportOnline(Deliver(c.(lastSeq := m.seqno), m))
    case Drain => if m.seqno <= c.lastSeq then c else Deliver(c.(mode := Online), m)
    case _ => if !fits || evict > |c.ring| then c else c.(ring := c.ring[evict..] + [m])
  }

  /** Where a reply with the server's last seq leads a client that wants `open`. */
  function ReplyMode(server: int, open: int, initial: bool): Mode {
    if server == -1 then (if initial then WaitOnline else Connected)
    else if server + 1 == open then Drain
    else Connected
  }

  /** `_on_request_data` in state Opening, for a well-formed reply. */
  function OnReply(c: Client, last: int, requested: int): Client {
    var server := Max(c.serverSeq, last);
    var open := if c.openSeq.Some? then c.openSeq.value else requested;
    var c1 := c.(serverSeq := server, openSeq := Some(open), mode := Connected);
    if server == -1 then (if c.initial then c1.(mode := WaitOnline) else c1.(error := true))
    else if server + 1 == open then ReportOnline(c1.(lastSeq := server))
    else if server < open then c1.(error := true)
    else c1
  }

  lemma ReplyModeIs(c: Client, last: int, requested: int)
    ensures OnReply(c, last, requested).mode ==
      ReplyMode(Max(c.serverSeq, last), if c.openSeq.Some? then c.openSeq.value else requested, c.initial)
  {
  }

  /** The request feed has reached the buffer: forget what it delivered, and switch if there is room. */
  function Meet(c: Client, s: int, roomy: bool): Client {
    var c1 := c.(ring := DropUpTo(c.ring, s));
    if roomy then c1.(mode := Overlapped, pending := true) else c1
  }

  /** `_on_request_data` for a message of the request feed. */
  function OnRequest(c: Client, m: Msg, roomy: bool): Client {
    match c.mode
    case Connected =>
      var c1 := Deliver(c.(lastSeq := m.seqno), m);
      if c1.lastSeq == c1.serverSeq && c1.ring == [] then ReportOnline(c1)
      else if c1.ring == [] || c1.ring[0].seqno > m.seqno + 1 then c1
      else Meet(c1, m.seqno, roomy)
    case Opening => c.(error := true)
    case Overlapped => if m.seqno <= c.lastSeq then c else Deliver(c.(lastSeq := m.seqno), m)
    case _ => c
  }

  /** `_process`. */
  function OnProcess(c: Client): Client {
    if c.mode != Overlapped || c.ring == [] then ReportOnline(c).(pending := false)
    else
      var m := c.ring[0];
      var c1 := c.(ring := c.ring[1..]);
      if m.seqno <= c.lastSeq then c1 else Deliver(c1.(lastSeq := m.seqno), m)
  }

  function OnActive(c: Client, infoSeq: int): Client {
    if c.onlineOnly then c.(mode := Online)
    else if infoSeq >= 0 then c.(serverSeq := infoSeq)
    else c
  }

  function Step(c: Client, e: Event): Client {
    match e
    case OnlineActive(info) => OnActive(c, info)
    case RequestActive => c.(mode := Opening)
    case OnlineData(m, evict, fits) => OnOnline(c, m, evict, fits)
    case Reply(last, requested) => if c.mode == Opening then OnReply(c, last, requested) else c
    case RequestError => if c.mode == Closed then c else c.(error := true)
    case RequestClosed => if c.mode == Opening || c.mode == Connected then c.(error := true) else c
    case RequestData(m, roomy) => OnRequest(c, m, roomy)
    case Process => OnProcess(c)
  }

  /** When the surrounding framework can raise an event: process only with the Pending flag set,
      and the two activations once each, in order, before anything else on the request channel. */
  predicate Enabled(c: Client, e: Event) {
    match e
    case OnlineActive(_) => c.mode == Closed && c.serverSeq == -1 && c.ring == []
    case RequestActive => c.mode == Closed && !c.onlineOnly
    case OnlineData(m, evict, _) => m.seqno >= 0 && evict <= |c.ring|
    case Reply(_, _) => c.mode == Opening
    case RequestData(m, _) => m.seqno >= 0 && c.mode != Closed
    case Process => c.pending
    case _ => true
  }

  // ----- the object, updated in place

  class StreamClient {
    var state: Mode
    var error: bool
    var lastSeq: int
    var serverSeq: int
    var openSeq: Option<int>
    const initial: bool
    const onlineOnly: bool
    var ring: seq<Msg>
    var pending: bool
    ghost var delivered: seq<Msg>
    ghost var reports: nat

    ghost function View(): Client
      reads this
    {
      Client(state, error, lastSeq, serverSeq, openSeq, initial, onlineOnly, ring, pending, delivered, reports)
    }

    constructor (openSeq: Option<int>, initial: bool, onlineOnly: bool)
      ensures View() == Client(Closed, false, -1, -1, openSeq, initial, onlineOnly, [], false, [], 0)
    {
      state, error, lastSeq, serverSeq := Closed, false, -1, -1;
      this.openSeq, this.initial, this.onlineOnly := openSeq, initial, onlineOnly;
      ring, pending, delivered, reports := [], false, [], 0;
    }

    /** `_callback_data`. */
    ghost method CallbackData(m: Msg)
      modifies this`delivered
      ensures delivered == old(delivered) + [m]
    {
      delivered := delivered + [m];
    }

    method ReportOnlineNow()
      modifies this`state, this`reports
      ensures View() == ReportOnline(old(View()))
    {
      if state == Overlapped || state == WaitOnline {
        state := Online;
      } else {
        state := Drain;
      }
      reports := reports + 1;
    }

    /** `_on_active`: the online channel is up and may have told the last seq. */
    method OnActiveState(infoSeq: int)
      modifies this`state, this`serverSeq
      ensures View() == Step(old(View()), OnlineActive(infoSeq))
    {
      if onlineOnly {
        state := Online;
      } else if infoSeq >= 0 {
        serverSeq := infoSeq;
      }
    }

    /** `_on_request_active`: the request has been sent. */
    method OnRequestActive()
      modifies this`state
      ensures View() == Step(old(View()), RequestActive)
    {
      state := Opening;
    }

    /** `_on_request_error`. */
    method OnRequestFailed()
      modifies this`error
      ensures View() == Step(old(View()), RequestError)
    {
      if state != Closed {
        error := true;
      }
    }

    /** `_on_request_closed`. */
    method OnRequestClosed()
      modifies this`error
      ensures View() == Step(old(View()), RequestClosed)
    {
      if state == Opening || state == Connected {
        error := true;
      }
    }

    method PushEvicting(m: Msg, evict: nat)
      requires evict <= |ring|
      modifies this`ring
      ensures ring == old(ring)[evict..] + [m]
    {
      // push_back fails and pop_front runs, `evict` times
      var popped := 0;
      while popped < evict
        invariant popped <= evict && ring == old(ring)[popped..]
      {
        ring := ring[1..];
        popped := popped + 1;
      }
      ring := ring + [m];
    }

    method OnData(m: Msg, evict: nat, fits: bool)
      requires evict <= |ring|
      modifies this
      ensures View() == Step(old(View()), OnlineData(m, evict, fits))
    {
      if state == Online {
        if m.seqno <= lastSeq {
          return;
        }
        lastSeq := m.seqno;
        CallbackData(m);
      } else if state == WaitOnline {
        lastSeq := m.seqno;
        CallbackData(m);
        ReportOnlineNow();
      } else if state == Drain {
        if m.seqno <= lastSeq {
          return;
        }
        state := Online;
        CallbackData(m);
      } else if fits {
        PushEvicting(m, evict);
      }
    }

    method OnReplyData(last: int, requested: int)
      requires state == Opening
      modifies this
      ensures View() == Step(old(View()), Reply(last, requested))
    {
      serverSeq := if serverSeq > last then serverSeq else last;
      state := Connected;
      if openSeq.None? {
        openSeq := Some(requested);
      }
      if serverSeq == -1 {
        if initial {
          state := WaitOnline;
        } else {
          error := true;
        }
      } else if serverSeq + 1 == openSeq.value {
        lastSeq := serverSeq;
        ReportOnlineNow();
      } else if serverSeq < openSeq.value {
        error := true;
      }
    }

    /** Entries of the buffer that the request feed has already delivered. */
    method DropProcessed(s: int)
      modifies this`ring
      ensures ring == DropUpTo(old(ring), s)
    {
      while ring != [] && ring[0].seqno <= s
        invariant DropUpTo(ring, s) == DropUpTo(old(ring), s)
        decreases |ring|
      {
        ring := ring[1..];
      }
    }

    method MeetBuffer(s: int, roomy: bool)
      modifies this`ring, this`pending, this`state
      ensures View() == Meet(old(View()), s, roomy)
    {
      DropProcessed(s);
      if roomy {
        pending := true;
        state := Overlapped;
      }
    }

    method OnConnectedData(m: Msg, roomy: bool)
      requires state == Connected
      modifies this
      ensures View() == OnRequest(old(View()), m, roomy)
    {
      lastSeq := m.seqno;
      CallbackData(m);
      if lastSeq == serverSeq && ring == [] {
        ReportOnlineNow();
        return;
      }
      if ring == [] {
        return;
      }
      if ring[0].seqno > m.seqno + 1 {
        return;
      }
      MeetBuffer(m.seqno, roomy);
    }

    method OnRequestData(m: Msg, roomy: bool)
      modifies this
      ensures View() == Step(old(View()), RequestData(m, roomy))
    {
      if state == Connected {
        OnConnectedData(m, roomy);
        return;
      } else if state == Opening {
        error := true;
        return;
      } else if state != Overlapped {
        return;
      }
      if m.seqno <= lastSeq {
        return;
      }
      lastSeq := m.seqno;
      CallbackData(m);
    }

    method ProcessPending()
      modifies this
      ensures View() == Step(old(View()), Process)
    {
      if state != Overlapped || ring == [] {
        ReportOnlineNow();
        pending := false;
        return;
      }
      var m := ring[0];
      ring := ring[1..];
      if m.seqno <= lastSeq {
        return;
      }
      lastSeq := m.seqno;
      CallbackData(m);
    }
  }

  // ----- order: holds for any two increasing feeds, with or without buffer losses

  function LastOf(ms: seq<Msg>): int {
    if ms == [] then -1 else ms[|ms| - 1].seqno
  }

  ghost predicate Increasing(ms: seq<Msg>) {
    forall i, j :: 0 <= i < j < |ms| ==> ms[i].seqno < ms[j].seqno
  }

  /** The newest seq seen so far on each feed, -1 before the first. */
  datatype Seen = Seen(online: int, request: int)

  function See(seen: Seen, e: Event): Seen {
    match e
    case OnlineData(m, _, _) => seen.(online := m.seqno)
    case RequestData(m, _) => seen.(request := m.seqno)
    case _ => seen
  }

  /** Each feed taken by itself is strictly increasing; nothing relates one feed to the other. */
  predicate InOrder(seen: Seen, e: Event) {
    match e
    case OnlineData(m, _, _) => m.seqno > seen.online
    case RequestData(m, _) => m.seqno > seen.request
    case _ => true
  }

  predicate Admissible(c: Client, seen: Seen, events: seq<Event>)
    decreases |events|
  {
    events == [] || (Enabled(c, events[0]) && InOrder(seen, events[0])
                     && Admissible(Step(c, events[0]), See(seen, events[0]), events[1..]))
  }

  function RunEvents(c: Client, events: seq<Event>): Client
    decreases |events|
  {
    if events == [] then c else RunEvents(Step(c, events[0]), events[1..])
  }

  ghost predicate OrderInv(c: Client, seen: Seen) {
    && Increasing(c.delivered)
    && seen.online >= -1 && seen.request >= -1 && c.serverSeq >= -1
    && (c.mode == Closed || c.mode == Opening || c.mode == WaitOnline ==>
          c.delivered == [] && c.lastSeq == -1 && c.reports == 0 && !c.pending)
    && (c.mode == Connected ==>
          LastOf(c.delivered) == c.lastSeq && c.lastSeq <= seen.request && c.reports == 0 && !c.pending)
    && (c.mode == Overlapped ==> LastOf(c.delivered) == c.lastSeq && c.reports == 0 && c.pending)
    && (c.mode == Drain ==> LastOf(c.delivered) <= c.lastSeq && !c.pending)
    && (c.mode == Online ==> LastOf(c.delivered) <= Max(c.lastSeq, seen.online) && !c.pending)
    && c.reports <= 1
  }

  lemma DeliverInOrder(ms: seq<Msg>, m: Msg)
    requires Increasing(ms) && LastOf(ms) < m.seqno
    ensures Increasing(ms + [m]) && LastOf(ms + [m]) == m.seqno
  {
  }

  lemma OrderOnOnline(c: Client, seen: Seen, m: Msg, evict: nat, fits: bool)
    requires OrderInv(c, seen) && m.seqno >= 0 && m.seqno > seen.online
    ensures OrderInv(OnOnline(c, m, evict, fits), seen.(online := m.seqno))
  {
    if LastOf(c.delivered) < m.seqno {
      DeliverInOrder(c.delivered, m);
    }
  }

  lemma OrderOnConnected(c: Client, seen: Seen, m: Msg, roomy: bool)
    requires OrderInv(c, seen) && m.seqno >= 0 && m.seqno > seen.request && c.mode == Connected
    ensures OrderInv(OnRequest(c, m, roomy), seen.(request := m.seqno))
  {
    var c1 := Deliver(c.(lastSeq := m.seqno), m);
    DeliverInOrder(c.delivered, m);
    assert OrderInv(c1, seen.(request := m.seqno));
  }

  lemma OrderOnRequest(c: Client, seen: Seen, m: Msg, roomy: bool)
    requires OrderInv(c, seen) && m.seqno >= 0 && m.seqno > seen.request && c.mode != Closed
    ensures OrderInv(OnRequest(c, m, roomy), seen.(request := m.seqno))
  {
    if c.mode == Connected {
      OrderOnConnected(c, seen, m, roomy);
    } else if c.mode == Overlapped && m.seqno > c.lastSeq {
      DeliverInOrder(c.delivered, m);
    }
  }

  lemma OrderOnProcess(c: Client, seen: Seen)
    requires OrderInv(c, seen) && c.pending
    ensures OrderInv(OnProcess(c), seen)
  {
    if c.ring != [] && LastOf(c.delivered) < c.ring[0].seqno {
      DeliverInOrder(c.delivered, c.ring[0]);
    }
  }

  lemma OrderOnReply(c: Client, seen: Seen, last: int, requested: int)
    requires OrderInv(c, seen) && c.mode == Opening
    ensures OrderInv(OnReply(c, last, requested), seen)
  {
  }

  lemma OrderStep(c: Client, seen: Seen, e: Event)
    requires OrderInv(c, seen) && Enabled(c, e) && InOrder(seen, e)
    ensures OrderInv(Step(c, e), See(seen, e))
  {
    match e {
      case OnlineData(m, evict, fits) => OrderOnOnline(c, seen, m, evict, fits);
      case RequestData(m, roomy) => OrderOnRequest(c, seen, m, roomy);
      case Process => OrderOnProcess(c, seen);
      case Reply(last, requested) => OrderOnReply(c, seen, last, requested);
      case _ =>
    }
  }

  lemma {:induction false} OrderRun(c: Client, seen: Seen, events: seq<Event>)
    requires OrderInv(c, seen) && Admissible(c, seen, events)
    ensures Increasing(RunEvents(c, events).delivered) && RunEvents(c, events).reports <= 1
    decreases |events|
  {
    if events != [] {
      OrderStep(c, seen, events[0]);
      OrderRun(Step(c, events[0]), See(seen, events[0]), events[1..]);
    }
  }

  /**
   * For every interleaving of two strictly increasing feeds, however much the buffer loses:
   * delivered seqs strictly increase and the Online message is sent at most once per open.
   */
  lemma DeliveredIncreasesOnlineOnce(c: Client, events: seq<Event>)
    requires c == OpenInitial() || c == OpenOnline() || (c.openSeq.Some? && c == OpenSeq(c.openSeq.value))
    requires Admissible(c, Seen(-1, -1), events)
    ensures Increasing(RunEvents(c, events).delivered)
    ensures RunEvents(c, events).reports <= 1
  {
    OrderRun(c, Seen(-1, -1), events);
  }

  // ----- the same for the object

  /** One callback of the framework. */
  method Dispatch(client: StreamClient, e: Event)
    requires Enabled(client.View(), e)
    modifies client
    ensures client.View() == Step(old(client.View()), e)
  {
    match e {
      case OnlineActive(info) => client.OnActiveState(info);
      case RequestActive => client.OnRequestActive();
      case OnlineData(m, evict, fits) => client.OnData(m, evict, fits);
      case Reply(last, requested) => client.OnReplyData(last, requested);
      case RequestError => client.OnRequestFailed();
      case RequestClosed => client.OnRequestClosed();
      case RequestData(m, roomy) => client.OnRequestData(m, roomy);
      case Process => client.ProcessPending();
    }
  }

  /** Any callbacks of two increasing feeds, on a client just opened. */
  method Drive(client: StreamClient, events: seq<Event>)
    requires var c := client.View();
      c == OpenInitial() || c == OpenOnline() || (c.openSeq.Some? && c == OpenSeq(c.openSeq.value))
    requires Admissible(client.View(), Seen(-1, -1), events)
    modifies client
    ensures client.View() == RunEvents(old(client.View()), events)
    ensures Increasing(client.delivered) && client.reports <= 1
  {
    ghost var seen := Seen(-1, -1);
    ghost var first := client.View();
    for i := 0 to |events|
      invariant OrderInv(client.View(), seen)
      invariant Admissible(client.View(), seen, events[i..])
      invariant RunEvents(client.View(), events[i..]) == RunEvents(first, events)
    {
      assert events[i..][0] == events[i] && events[i..][1..] == events[i + 1..];
      OrderStep(client.View(), seen, events[i]);
      seen := See(seen, events[i]);
      Dispatch(client, events[i]);
    }
    assert events[|events|..] == [];
  }
}
