/**
 * A stream client together with the server it talks to, in seq and initial mode: the server
 * appends to its storage and publishes online (`StreamServer::_post`), a request is answered with
 * the server's last seq and a reader of storage positioned by seq (`Client::init`), and the two
 * channels deliver independently of each other and of further posts.
 */
module StreamSystem {
  import opened Common
  import opened StreamClient

  /**
   * `published` is everything the server has posted.  `joined` is how much of it was posted before
   * the client joined the online channel, `online` the next index the online channel will deliver.
   * `answered` is how much had been posted when the server took the request, `start` the index the
   * request asks for and `request` the next index the request channel will deliver.  `up` is off once
   * the request channel has failed or closed.
   */
  datatype Net = NotJoined | Joined(joined: nat) | Answered(joined: nat, answered: nat, start: nat)

  datatype Sys = Sys(published: seq<Msg>, net: Net, online: nat, request: nat, client: Client, up: bool)

  datatype Act =
    | Publish(m: Msg)
    | Join(reported: bool)
    | SendRequest
    | ServerAnswers
    | GetReply
    | GetOnline(evict: nat, fits: bool)
    | GetRequest(roomy: bool)
    | Pending
    | RequestBreaks(closed: bool)

  function SeqBefore(ms: seq<Msg>, i: nat): int
    requires i <= |ms|
  {
    if i == 0 then -1 else ms[i - 1].seqno
  }

  /** Message `i` comes before message `j`; index -1 stands for "no message", with seq -1. */
  ghost predicate Less(ms: seq<Msg>, i: int, j: int)
    requires -1 <= i < j < |ms|
  {
    SeqBefore(ms, i + 1) < ms[j].seqno
  }

  ghost predicate Sorted(ms: seq<Msg>) {
    forall i, j :: -1 <= i < j < |ms| ==> Less(ms, i, j)
  }

  function SeqOf(m: Msg): int {
    m.seqno
  }

  /** Where a storage reader opened with `seq=s` stands: the first message at or after `s`. */
  function Position(ms: seq<Msg>, s: int): (i: nat)
    ensures i <= |ms|
    ensures forall k :: 0 <= k < i ==> ms[k].seqno < s
    ensures i < |ms| ==> ms[i].seqno >= s
  {
    FirstReaching(ms, SeqOf, s)
  }

  ghost predicate Init(s: Sys) {
    && Sorted(s.published)
    && s.net == NotJoined && s.online == 0 && s.request == 0 && s.up
    && var open := s.client.openSeq;
       s.client == OpenInitial() || (open.Some? && open.value >= 0 && s.client == OpenSeq(open.value))
  }

  predicate Can(s: Sys, a: Act) {
    match a
    case Publish(m) => m.seqno > SeqBefore(s.published, |s.published|)
    case Join(_) => s.net.NotJoined? && s.client.mode == Closed
    case SendRequest => s.up && s.net.Joined? && s.client.mode == Closed
    case ServerAnswers => s.up && s.net.Joined? && s.client.mode == Opening
    case GetReply => s.up && s.net.Answered? && s.client.mode == Opening
    case GetOnline(evict, _) => !s.net.NotJoined? && s.online < |s.published| && evict <= |s.client.ring|
    case GetRequest(_) =>
      s.up && s.net.Answered? && s.client.mode != Opening && s.client.mode != Closed && s.request < |s.published|
    case Pending => s.client.pending
    case RequestBreaks(_) => s.up && !s.net.NotJoined?
  }

  /** The requested seq that the reply carries: the client's own, or the first in storage. */
  function Requested(s: Sys): int {
    if s.client.openSeq.Some? then s.client.openSeq.value
    else if s.published == [] then -1 else s.published[0].seqno
  }

  function TakeOnline(s: Sys, evict: nat, fits: bool): Sys
    requires s.online < |s.published|
  {
    s.(client := OnOnline(s.client, s.published[s.online], evict, fits), online := s.online + 1)
  }

  function TakeRequest(s: Sys, roomy: bool): Sys
    requires s.request < |s.published|
  {
    s.(client := OnRequest(s.client, s.published[s.request], roomy), request := s.request + 1)
  }

  function Next(s: Sys, a: Act): Sys
    requires Can(s, a)
  {
    match a
    case Publish(m) => s.(published := s.published + [m])
    case Join(reported) =>
      var n := |s.published|;
      s.(net := Joined(n), online := n,
         client := OnActive(s.client, if reported then SeqBefore(s.published, n) else -1))
    case SendRequest => s.(client := s.client.(mode := Opening))
    case ServerAnswers =>
      var at := Position(s.published, Requested(s));
      s.(net := Answered(s.net.joined, |s.published|, at), request := at)
    case GetReply =>
      var n := s.net.answered;
      if n > |s.published| then s
      else s.(client := OnReply(s.client, SeqBefore(s.published, n), if n == 0 then -1 else s.published[0].seqno))
    case GetOnline(evict, fits) => TakeOnline(s, evict, fits)
    case GetRequest(roomy) => TakeRequest(s, roomy)
    case Pending => s.(client := OnProcess(s.client))
    case RequestBreaks(closed) =>
      s.(up := false, client := Step(s.client, if closed then RequestClosed else RequestError))
  }

  /** The delivered messages are, without gap or repetition, the published ones from `start` on. */
  ghost predicate Segment(published: seq<Msg>, start: nat, delivered: seq<Msg>) {
    start + |delivered| <= |published| && forall i :: 0 <= i < |delivered| ==> delivered[i] == published[start + i]
  }

  // ----- the buffer

  ghost predicate Among(p: seq<Msg>, n: nat, m: Msg) {
    exists k :: 0 <= k < n <= |p| && p[k] == m
  }

  /** The buffer holds messages that have arrived online, in order. */
  ghost predicate GoodRing(p: seq<Msg>, online: nat, ring: seq<Msg>) {
    online <= |p| && Increasing(ring) && forall i :: 0 <= i < |ring| ==> Among(p, online, ring[i])
  }

  ghost predicate Held(p: seq<Msg>, ring: seq<Msg>, k: nat)
    requires k < |p|
  {
    p[k] in ring
  }

  /** From index `lo` on, and from its own first message on, the buffer has all that has arrived. */
  ghost predicate HasFrom(p: seq<Msg>, online: nat, ring: seq<Msg>, lo: nat)
    requires online <= |p|
  {
    forall k {:trigger Held(p, ring, k)} ::
      lo <= k < online && ring != [] && ring[0].seqno <= p[k].seqno ==> Held(p, ring, k)
  }

  /** From index `lo` on the buffer has all that has arrived. */
  ghost predicate HasAll(p: seq<Msg>, online: nat, ring: seq<Msg>, lo: nat)
    requires online <= |p|
  {
    forall k {:trigger Held(p, ring, k)} :: lo <= k < online ==> Held(p, ring, k)
  }

  // ----- the places where the code can lose a message

  /** What the reply says: the last seq when the server answered, and the first in storage. */
  function ReplyLast(p: seq<Msg>, net: Net): int
    requires net.Answered? && net.answered <= |p|
  {
    SeqBefore(p, net.answered)
  }

  function ReplyFirst(p: seq<Msg>, net: Net): int
    requires net.Answered? && net.answered <= |p|
  {
    if net.answered == 0 then -1 else p[0].seqno
  }

  function AfterReply(p: seq<Msg>, net: Net, c: Client): Client
    requires net.Answered? && net.answered <= |p|
  {
    OnReply(c, ReplyLast(p, net), ReplyFirst(p, net))
  }

  /** The reply leaves the client waiting for the request feed, and does not take it online at once. */
  predicate GoesOn(p: seq<Msg>, net: Net, c: Client)
    requires net.Answered? && net.answered <= |p|
  {
    var open := if c.openSeq.Some? then c.openSeq.value else ReplyFirst(p, net);
    ReplyMode(Max(c.serverSeq, ReplyLast(p, net)), open, c.initial) == Connected
  }

  /** The first index the client wants, as far as that is known before the server answers. */
  function Wanted(p: seq<Msg>, c: Client): nat {
    if c.openSeq.Some? then Position(p, c.openSeq.value) else 0
  }

  /** Something buffered that is newer than what the reply tells. */
  predicate Newer(p: seq<Msg>, net: Net, ring: seq<Msg>)
    requires net.Answered? && net.answered <= |p|
  {
    ring != [] && ring[|ring| - 1].seqno > ReplyLast(p, net)
  }

  /** Eviction of a buffered message that has not been delivered, in state Overlapped. */
  predicate LossyEvict(c: Client, evict: nat) {
    c.mode == Overlapped && 0 < evict <= |c.ring| && c.ring[evict - 1].seqno > c.lastSeq
  }

  /**
   * A message too large for the buffer is dropped.  With something buffered already that leaves a
   * hole, unless the message is not wanted or the request feed delivers it next; with an empty
   * buffer it is lost when the client will go online at the server's last seq, which is older.
   */
  predicate LossyDrop(p: seq<Msg>, net: Net, online: nat, request: nat, c: Client)
    requires online < |p| && (net.Answered? ==> net.answered <= |p|)
  {
    match c.mode
    case Closed => c.ring != [] && online > Wanted(p, c)
    case Opening =>
      if !net.Answered? then c.ring != [] && online > Wanted(p, c)
      else if GoesOn(p, net, c) then
        if c.ring == [] then net.start < net.answered <= online else online > net.start
      else online >= net.answered && !Newer(p, net, c.ring)
    case Connected => net.Answered? && if c.ring == [] then request < net.answered <= online else online > request
    case Overlapped => p[online].seqno > c.lastSeq
    case _ => false
  }

  /** The request feed has done its part. */
  predicate Late(mode: Mode) {
    mode == Overlapped || mode == Drain || mode == WaitOnline || mode == Online
  }

  /** The steps that lose a message; a reply does when it goes straight online past a newer buffered message. */
  predicate Lossy(s: Sys, a: Act) {
    && (s.up || Late(s.client.mode)) && (s.net.Answered? ==> s.net.answered <= |s.published|)
    && match a
       case GetOnline(evict, fits) =>
         && s.online < |s.published|
         && if fits then LossyEvict(s.client, evict)
            else LossyDrop(s.published, s.net, s.online, s.request, s.client)
       case GetReply =>
         && s.net.Answered? && s.client.mode == Opening
         && !GoesOn(s.published, s.net, s.client) && Newer(s.published, s.net, s.client.ring)
       case _ => false
  }

  // ----- invariant, one part per state of the client

  /** The first index at or after `open`, now and after any further post. */
  ghost predicate StartsAt(p: seq<Msg>, start: nat, open: int) {
    && start <= |p|
    && (forall k :: 0 <= k < start ==> p[k].seqno < open)
    && (if start < |p| then open <= p[start].seqno else open <= SeqBefore(p, start) + 1)
  }

  /** Before the reply: nothing delivered. */
  ghost predicate Before(p: seq<Msg>, joined: nat, online: nat, c: Client) {
    && c.delivered == [] && c.lastSeq == -1 && !c.pending && !c.onlineOnly
    && joined <= online && joined <= |p| && GoodRing(p, online, c.ring)
    && (c.serverSeq == -1 || c.serverSeq == SeqBefore(p, joined))
    && (if c.openSeq.Some? then c.openSeq.value >= 0 && !c.initial else c.initial)
  }

  /** Once the server has answered: the buffer suits the state that the reply will lead to. */
  ghost predicate Ready(p: seq<Msg>, net: Net, online: nat, ring: seq<Msg>, goesOn: bool)
    requires net.Answered? && net.answered <= |p| && online <= |p|
  {
    if goesOn then
      HasFrom(p, online, ring, net.start + 1) && (ring == [] && net.start < net.answered ==> online <= net.answered)
    else online <= net.answered || Newer(p, net, ring)
  }

  ghost predicate GoodConnected(p: seq<Msg>, net: Net, online: nat, request: nat, c: Client)
    requires net.Answered?
  {
    && Segment(p, net.start, c.delivered) && request == net.start + |c.delivered|
    && net.start <= net.answered <= |p| && c.serverSeq == SeqBefore(p, net.answered)
    && c.lastSeq == (if c.delivered == [] then -1 else SeqBefore(p, request))
    && !c.pending && GoodRing(p, online, c.ring) && HasFrom(p, online, c.ring, request + 1)
    && (c.ring == [] && request < net.answered ==> online <= net.answered)
  }

  ghost predicate GoodOverlapped(p: seq<Msg>, net: Net, online: nat, request: nat, c: Client)
    requires net.Answered?
  {
    && Segment(p, net.start, c.delivered) && c.delivered != [] && c.pending
    && GoodRing(p, online, c.ring)
    && var d := net.start + |c.delivered|;
       request <= d && c.lastSeq == SeqBefore(p, d) && HasAll(p, online, c.ring, d)
  }

  ghost predicate GoodDrain(p: seq<Msg>, net: Net, online: nat, c: Client)
    requires net.Answered?
  {
    && Segment(p, net.start, c.delivered) && !c.pending
    && online <= net.start + |c.delivered| && c.lastSeq == SeqBefore(p, net.start + |c.delivered|)
  }

  ghost predicate GoodOnline(p: seq<Msg>, net: Net, online: nat, c: Client)
    requires net.Answered?
  {
    && Segment(p, net.start, c.delivered) && !c.pending
    && var d := net.start + |c.delivered|;
       && online <= d && c.lastSeq <= SeqBefore(p, d)
       && (online == d || c.lastSeq == SeqBefore(p, d))
  }

  ghost predicate GoodWait(net: Net, online: nat, c: Client)
    requires net.Answered?
  {
    c.delivered == [] && c.lastSeq == -1 && !c.pending && net.start == 0 && online == 0
  }

  /** Where the answered request starts. */
  ghost predicate Asked(p: seq<Msg>, net: Net, request: nat, c: Client)
    requires net.Answered?
  {
    && request == net.start && net.joined <= net.answered <= |p|
    && net.start == if c.openSeq.Some? then Position(p[..net.answered], c.openSeq.value) else 0
  }

  ghost predicate Running(p: seq<Msg>, net: Net, c: Client) {
    && net.Answered? && net.joined <= net.answered <= |p|
    && c.openSeq.Some? && (!c.error ==> StartsAt(p, net.start, c.openSeq.value))
  }

  ghost predicate ClientInv(p: seq<Msg>, net: Net, online: nat, request: nat, c: Client)
    requires online <= |p| && (!net.NotJoined? ==> net.joined <= |p|)
  {
    match c.mode
    case Closed =>
      && !net.Answered? && Before(p, if net.NotJoined? then 0 else net.joined, online, c)
      && HasFrom(p, online, c.ring, Wanted(p, c) + 1)
      && (net.NotJoined? ==> online == 0 && c.ring == [] && c.serverSeq == -1)
    case Opening =>
      && !net.NotJoined? && Before(p, net.joined, online, c)
      && (if net.Answered? then Asked(p, net, request, c) && Ready(p, net, online, c.ring, GoesOn(p, net, c))
          else HasFrom(p, online, c.ring, Wanted(p, c) + 1))
    case Connected => Running(p, net, c) && GoodConnected(p, net, online, request, c)
    case Overlapped => Running(p, net, c) && GoodOverlapped(p, net, online, request, c)
    case Drain => Running(p, net, c) && GoodDrain(p, net, online, c)
    case WaitOnline => Running(p, net, c) && GoodWait(net, online, c)
    case Online => Running(p, net, c) && GoodOnline(p, net, online, c)
  }

  /** The client has what it needs to go on without a gap. */
  ghost predicate Working(s: Sys) {
    && Sorted(s.published) && s.online <= |s.published| && s.request <= |s.published|
    && (!s.net.NotJoined? ==> s.net.joined <= |s.published|)
    && ClientInv(s.published, s.net, s.online, s.request, s.client)
  }

  /** Without the request feed a client that still needs it delivers nothing more. */
  ghost predicate Stuck(s: Sys) {
    var c := s.client;
    && !s.up && !Late(c.mode) && !c.pending && !s.net.NotJoined? && s.online <= |s.published|
    && (c.delivered != [] ==> c.error && s.net.Answered?)
    && (s.net.Answered? ==> Segment(s.published, s.net.start, c.delivered))
  }

  ghost predicate Inv(s: Sys) {
    if s.up || Late(s.client.mode) then Working(s) else Stuck(s)
  }

  // ----- order of the published messages

  lemma BeforeMonotone(p: seq<Msg>, i: nat, j: nat)
    requires Sorted(p) && i <= j <= |p|
    ensures SeqBefore(p, i) <= SeqBefore(p, j)
    ensures i < j ==> SeqBefore(p, i) < SeqBefore(p, j)
  {
    if i < j {
      assert Less(p, i - 1, j - 1);
    }
  }

  lemma BeforeOrder(p: seq<Msg>, i: nat, j: nat)
    requires Sorted(p) && i <= |p| && j <= |p|
    ensures SeqBefore(p, i) < SeqBefore(p, j) <==> i < j
  {
    if i <= j {
      BeforeMonotone(p, i, j);
    } else {
      BeforeMonotone(p, j, i);
    }
  }

  /** A message at index `i` is newer than everything before index `d` exactly from `d` on. */
  lemma NewerFrom(p: seq<Msg>, i: nat, d: nat)
    requires Sorted(p) && i < |p| && d <= |p|
    ensures p[i].seqno > SeqBefore(p, d) <==> i >= d
  {
    BeforeOrder(p, d, i + 1);
  }

  lemma IndexOrder(p: seq<Msg>, i: nat, j: nat)
    requires Sorted(p) && i < |p| && j < |p|
    ensures p[i].seqno < p[j].seqno <==> i < j
  {
    BeforeOrder(p, i + 1, j + 1);
  }

  lemma PositionGrows(p: seq<Msg>, m: Msg, s: int)
    ensures Position(p + [m], s) >= Position(p, s)
  {
    assert forall k :: 0 <= k < |p| ==> (p + [m])[k] == p[k];
  }

  lemma PositionOfPrefix(p: seq<Msg>, n: nat, s: int)
    requires n <= |p|
    ensures Position(p[..n], s) == if Position(p, s) < n then Position(p, s) else n
  {
    var i, j := Position(p, s), Position(p[..n], s);
    assert forall k :: 0 <= k < n ==> p[..n][k] == p[k];
  }

  // ----- the buffer

  lemma AmongGrows(p: seq<Msg>, p': seq<Msg>, n: nat, n': nat, ring: seq<Msg>)
    requires GoodRing(p, n, ring) && n <= n' <= |p'| && p <= p'
    ensures GoodRing(p', n', ring)
  {
    forall i | 0 <= i < |ring|
      ensures Among(p', n', ring[i])
    {
      var k :| 0 <= k < n <= |p| && p[k] == ring[i];
      assert p'[k] == ring[i];
    }
  }

  /** A message at index `x`, as a member of the buffer. */
  lemma RingIndex(p: seq<Msg>, online: nat, ring: seq<Msg>, i: nat) returns (k: nat)
    requires GoodRing(p, online, ring) && i < |ring|
    ensures k < online && p[k] == ring[i]
  {
    assert Among(p, online, ring[i]);
    var j :| 0 <= j < online <= |p| && p[j] == ring[i];
    k := j;
  }

  lemma RingSuffix(p: seq<Msg>, online: nat, ring: seq<Msg>, k: nat)
    requires GoodRing(p, online, ring) && k <= |ring|
    ensures GoodRing(p, online, ring[k..])
  {
    forall i | 0 <= i < |ring[k..]|
      ensures Among(p, online, ring[k..][i])
    {
      assert ring[k..][i] == ring[k + i];
    }
  }

  lemma InOrderAt(ring: seq<Msg>, i: nat, j: nat)
    requires Increasing(ring) && i < |ring| && j < |ring|
    ensures i < j ==> ring[i].seqno < ring[j].seqno
  {
  }

  lemma HasAllAt(p: seq<Msg>, online: nat, ring: seq<Msg>, d: nat, k: nat)
    requires online <= |p| && HasAll(p, online, ring, d) && d <= k < online
    ensures p[k] in ring
  {
    assert Held(p, ring, k);
  }

  lemma EmptyHasAll(p: seq<Msg>, online: nat, d: nat)
    requires online <= |p| && HasAll(p, online, [], d)
    ensures online <= d
  {
    if d < online {
      HasAllAt(p, online, [], d, d);
    }
  }

  /** Of a sorted buffer a suffix holds what is not older than its first message. */
  lemma SuffixHolds(ring: seq<Msg>, k: nat, m: Msg)
    requires Increasing(ring) && k < |ring| && m in ring && m.seqno >= ring[k].seqno
    ensures m in ring[k..]
  {
    var i :| 0 <= i < |ring| && ring[i] == m;
    InOrderAt(ring, i, k);
    assert ring[k..][i - k] == m;
  }

  function Pushed(ring: seq<Msg>, evict: nat, m: Msg): seq<Msg>
    requires evict <= |ring|
  {
    ring[evict..] + [m]
  }

  lemma PushKeepsRing(p: seq<Msg>, online: nat, ring: seq<Msg>, evict: nat)
    requires Sorted(p) && GoodRing(p, online, ring) && online < |p| && evict <= |ring|
    ensures GoodRing(p, online + 1, Pushed(ring, evict, p[online]))
  {
    RingSuffix(p, online, ring, evict);
    AmongGrows(p, p, online, online + 1, ring[evict..]);
    var r := Pushed(ring, evict, p[online]);
    forall i | 0 <= i < |r|
      ensures Among(p, online + 1, r[i])
    {
      if i < |r| - 1 {
        assert r[i] == ring[evict..][i];
      }
    }
    forall i, j | 0 <= i < j < |r|
      ensures r[i].seqno < r[j].seqno
    {
      if j < |r| - 1 {
        assert r[i] == ring[evict + i] && r[j] == ring[evict + j];
      } else {
        assert r[i] == ring[evict + i];
        var k := RingIndex(p, online, ring, evict + i);
        IndexOrder(p, k, online);
      }
    }
  }

  lemma PushKeepsFrom(p: seq<Msg>, online: nat, ring: seq<Msg>, evict: nat, lo: nat)
    requires Sorted(p) && GoodRing(p, online, ring) && online < |p| && evict <= |ring| && HasFrom(p, online, ring, lo)
    ensures HasFrom(p, online + 1, Pushed(ring, evict, p[online]), lo)
  {
    var r := Pushed(ring, evict, p[online]);
    forall k | lo <= k < online + 1 && r[0].seqno <= p[k].seqno
      ensures Held(p, r, k)
    {
      if k == online {
        assert r[|r| - 1] == p[k];
      } else if evict < |ring| {
        assert r[0] == ring[evict];
        InOrderAt(ring, 0, evict);
        assert Held(p, ring, k);
        SuffixHolds(ring, evict, p[k]);
      } else {
        IndexOrder(p, k, online);
      }
    }
  }

  lemma PushKeepsAll(p: seq<Msg>, online: nat, ring: seq<Msg>, evict: nat, d: nat)
    requires Sorted(p) && GoodRing(p, online, ring) && online < |p| && d <= |p| && HasAll(p, online, ring, d)
    requires evict <= |ring| && (evict > 0 ==> ring[evict - 1].seqno <= SeqBefore(p, d))
    ensures HasAll(p, online + 1, Pushed(ring, evict, p[online]), d)
  {
    var r := Pushed(ring, evict, p[online]);
    forall k | d <= k < online + 1
      ensures Held(p, r, k)
    {
      if k == online {
        assert r[|r| - 1] == p[k];
      } else {
        NewerFrom(p, k, d);
        HasAllAt(p, online, ring, d, k);
        var i :| 0 <= i < |ring| && ring[i] == p[k];
        if evict > 0 {
          InOrderAt(ring, i, evict - 1);
        }
        assert r[i - evict] == p[k];
      }
    }
  }

  // ----- each kind of step keeps it

  lemma SortedGrows(p: seq<Msg>, m: Msg)
    requires Sorted(p) && m.seqno > SeqBefore(p, |p|)
    ensures Sorted(p + [m])
  {
    var p' := p + [m];
    forall i, j | -1 <= i < j < |p'|
      ensures Less(p', i, j)
    {
      if j < |p| {
        assert Less(p, i, j);
      } else if -1 <= i < |p| - 1 {
        assert Less(p, i, |p| - 1);
      }
    }
  }

  lemma FromGrows(p: seq<Msg>, m: Msg, online: nat, ring: seq<Msg>, lo: nat, lo': nat)
    requires online <= |p| && lo <= lo'
    ensures HasFrom(p, online, ring, lo) ==> HasFrom(p + [m], online, ring, lo')
  {
    if HasFrom(p, online, ring, lo) {
      forall k | lo' <= k < online && ring != [] && ring[0].seqno <= (p + [m])[k].seqno
        ensures Held(p + [m], ring, k)
      {
        assert (p + [m])[k] == p[k];
        assert Held(p, ring, k);
      }
    }
  }

  lemma PublishKeepsBefore(p: seq<Msg>, m: Msg, joined: nat, online: nat, c: Client)
    requires online <= |p| && Before(p, joined, online, c)
    ensures Before(p + [m], joined, online, c)
  {
    AmongGrows(p, p + [m], online, online, c.ring);
  }

  /** The reply depends on neither the buffer nor later posts. */
  lemma SameReply(p: seq<Msg>, p': seq<Msg>, net: Net, c: Client, c': Client)
    requires net.Answered? && net.answered <= |p| && p <= p' && c' == c.(ring := c'.ring)
    ensures GoesOn(p', net, c') == GoesOn(p, net, c)
  {
    assert net.answered > 0 ==> p'[net.answered - 1] == p[net.answered - 1] && p'[0] == p[0];
  }

  lemma PublishKeepsReady(p: seq<Msg>, m: Msg, net: Net, online: nat, request: nat, c: Client)
    requires online <= |p| && net.Answered? && Asked(p, net, request, c)
    requires Ready(p, net, online, c.ring, GoesOn(p, net, c))
    ensures Asked(p + [m], net, request, c) && Ready(p + [m], net, online, c.ring, GoesOn(p + [m], net, c))
  {
    assert (p + [m])[..net.answered] == p[..net.answered];
    SameReply(p, p + [m], net, c, c);
    FromGrows(p, m, online, c.ring, net.start + 1, net.start + 1);
  }

  lemma PublishKeepsBuffering(p: seq<Msg>, m: Msg, net: Net, online: nat, request: nat, c: Client)
    requires online <= |p| && (!net.NotJoined? ==> net.joined <= |p|)
    requires ClientInv(p, net, online, request, c) && (c.mode == Closed || c.mode == Opening)
    ensures ClientInv(p + [m], net, online, request, c)
  {
    PublishKeepsBefore(p, m, if net.NotJoined? then 0 else net.joined, online, c);
    if net.Answered? {
      PublishKeepsReady(p, m, net, online, request, c);
    } else {
      if c.openSeq.Some? {
        PositionGrows(p, m, c.openSeq.value);
      }
      FromGrows(p, m, online, c.ring, Wanted(p, c) + 1, Wanted(p + [m], c) + 1);
    }
  }

  lemma PublishKeepsConnected(p: seq<Msg>, m: Msg, net: Net, online: nat, request: nat, c: Client)
    requires net.Answered? && online <= |p| && GoodConnected(p, net, online, request, c)
    ensures GoodConnected(p + [m], net, online, request, c)
  {
    AmongGrows(p, p + [m], online, online, c.ring);
    FromGrows(p, m, online, c.ring, request + 1, request + 1);
  }

  lemma PublishKeepsOverlapped(p: seq<Msg>, m: Msg, net: Net, online: nat, request: nat, c: Client)
    requires net.Answered? && online <= |p| && GoodOverlapped(p, net, online, request, c)
    ensures GoodOverlapped(p + [m], net, online, request, c)
  {
    AmongGrows(p, p + [m], online, online, c.ring);
    forall k | net.start + |c.delivered| <= k < online
      ensures Held(p + [m], c.ring, k)
    {
      assert (p + [m])[k] == p[k];
      assert Held(p, c.ring, k);
    }
  }

  lemma PublishKeepsClient(p: seq<Msg>, m: Msg, net: Net, online: nat, request: nat, c: Client)
    requires online <= |p| && (!net.NotJoined? ==> net.joined <= |p|)
    requires ClientInv(p, net, online, request, c) && m.seqno > SeqBefore(p, |p|)
    ensures ClientInv(p + [m], net, online, request, c)
  {
    match c.mode {
      case Closed => PublishKeepsBuffering(p, m, net, online, request, c);
      case Opening => PublishKeepsBuffering(p, m, net, online, request, c);
      case Connected => PublishKeepsConnected(p, m, net, online, request, c);
      case Overlapped => PublishKeepsOverlapped(p, m, net, online, request, c);
      case _ =>
    }
  }

  lemma PublishKeeps(s: Sys, m: Msg)
    requires Working(s) && m.seqno > SeqBefore(s.published, |s.published|)
    ensures Working(s.(published := s.published + [m]))
  {
    SortedGrows(s.published, m);
    PublishKeepsClient(s.published, m, s.net, s.online, s.request, s.client);
  }

  lemma JoinKeeps(s: Sys, reported: bool)
    requires Working(s) && Can(s, Join(reported))
    ensures Working(Next(s, Join(reported)))
  {
  }

  lemma AnswerKeeps(s: Sys)
    requires Working(s) && Can(s, ServerAnswers)
    ensures Working(Next(s, ServerAnswers))
  {
    var p, t := s.published, Next(s, ServerAnswers);
    assert p[..|p|] == p;
    if s.client.openSeq.None? && p != [] {
      assert Position(p, p[0].seqno) == 0;
    }
    assert t.net.start == Wanted(p, s.client);
    assert Ready(p, t.net, s.online, s.client.ring, GoesOn(p, t.net, s.client));
  }

  // ----- the reply

  lemma PositionStarts(p: seq<Msg>, n: nat, open: int)
    requires Sorted(p) && n <= |p|
    ensures var i := Position(p[..n], open);
            && i <= n
            && (SeqBefore(p, n) >= open && n > 0 ==> i < n && StartsAt(p, i, open))
            && (SeqBefore(p, n) + 1 == open ==> i == n && StartsAt(p, i, open))
  {
    var i := Position(p[..n], open);
    PositionOfPrefix(p, n, open);
    if 0 < n && i < n - 1 {
      assert Less(p, i, n - 1);
    }
    if i == n < |p| {
      assert Less(p, n - 1, n);
    }
  }

  /** What the reply does, in terms of the server's last seq and the requested one. */
  lemma ReplyCases(p: seq<Msg>, net: Net, online: nat, c: Client)
    requires Sorted(p) && net.Answered? && net.joined <= net.answered <= |p| && Before(p, net.joined, online, c)
    requires Asked(p, net, net.start, c)
    ensures var t := AfterReply(p, net, c);
      && t.serverSeq == SeqBefore(p, net.answered) && t.openSeq.Some?
      && t.ring == c.ring && t.delivered == [] && !t.pending && !t.onlineOnly
      && (t.mode == Connected ==> t.lastSeq == -1 && (!t.error && !c.error ==> net.start < net.answered))
      && (t.mode == Drain ==> net.start == net.answered && t.lastSeq == SeqBefore(p, net.answered))
      && (t.mode == WaitOnline ==> net.start == net.answered == 0 && t.lastSeq == -1)
      && (t.mode == Connected || t.mode == Drain || t.mode == WaitOnline)
      && (t.mode == Connected <==> GoesOn(p, net, c))
      && net.start <= net.answered && (!t.error ==> StartsAt(p, net.start, t.openSeq.value))
  {
    var n := net.answered;
    ReplyModeIs(c, ReplyLast(p, net), ReplyFirst(p, net));
    BeforeMonotone(p, net.joined, n);
    BeforeMonotone(p, 0, n);
    PositionStarts(p, n, if c.openSeq.Some? then c.openSeq.value else ReplyFirst(p, net));
    if |p| > 0 {
      BeforeOrder(p, 1, n);
      BeforeOrder(p, 0, 1);
    }
    BeforeOrder(p, 0, n);
  }

  lemma NewerIndex(p: seq<Msg>, net: Net, online: nat, ring: seq<Msg>)
    requires Sorted(p) && net.Answered? && net.answered <= |p| && GoodRing(p, online, ring)
    ensures Newer(p, net, ring) ==> online > net.answered
  {
    if Newer(p, net, ring) {
      var k := RingIndex(p, online, ring, |ring| - 1);
      NewerFrom(p, k, net.answered);
    }
  }

  lemma ReplyKeepsClient(p: seq<Msg>, net: Net, online: nat, c: Client)
    requires Sorted(p) && online <= |p| && net.Answered? && net.joined <= net.answered <= |p|
    requires ClientInv(p, net, online, net.start, c) && c.mode == Opening
    requires !GoesOn(p, net, c) ==> !Newer(p, net, c.ring)
    ensures ClientInv(p, net, online, net.start, AfterReply(p, net, c))
  {
    ReplyCases(p, net, online, c);
  }

  lemma ReplyKeeps(s: Sys)
    requires Working(s) && Can(s, GetReply) && !Lossy(s, GetReply)
    ensures Working(Next(s, GetReply))
  {
    ReplyKeepsClient(s.published, s.net, s.online, s.client);
  }

  // ----- the online feed

  lemma SegmentGrows(p: seq<Msg>, start: nat, delivered: seq<Msg>)
    requires Segment(p, start, delivered) && start + |delivered| < |p|
    ensures Segment(p, start, delivered + [p[start + |delivered|]])
  {
  }

  lemma DrainTakes(p: seq<Msg>, net: Net, online: nat, c: Client)
    requires net.Answered? && Sorted(p) && GoodDrain(p, net, online, c) && online < |p|
    ensures if p[online].seqno <= c.lastSeq then GoodDrain(p, net, online + 1, c)
            else GoodOnline(p, net, online + 1, Deliver(c.(mode := Online), p[online]))
  {
    NewerFrom(p, online, net.start + |c.delivered|);
    if online == net.start + |c.delivered| {
      SegmentGrows(p, net.start, c.delivered);
    }
  }

  lemma OnlineTakes(p: seq<Msg>, net: Net, online: nat, c: Client)
    requires net.Answered? && Sorted(p) && GoodOnline(p, net, online, c) && online < |p|
    ensures if p[online].seqno <= c.lastSeq then GoodOnline(p, net, online + 1, c)
            else GoodOnline(p, net, online + 1, Deliver(c.(lastSeq := p[online].seqno), p[online]))
  {
    NewerFrom(p, online, net.start + |c.delivered|);
    if online == net.start + |c.delivered| {
      SegmentGrows(p, net.start, c.delivered);
    }
  }

  /** Before the reply: what a new buffer leaves as it was. */
  lemma BeforeWith(p: seq<Msg>, joined: nat, online: nat, c: Client, ring: seq<Msg>)
    requires Before(p, joined, online, c) && GoodRing(p, online + 1, ring)
    ensures Before(p, joined, online + 1, c.(ring := ring))
  {
  }

  /** The buffer before the reply, as far as it depends on what the client wants. */
  ghost predicate Stocked(p: seq<Msg>, net: Net, online: nat, ring: seq<Msg>, wanted: nat, goesOn: bool)
    requires online <= |p| && (net.Answered? ==> net.answered <= |p|)
  {
    if net.Answered? then Ready(p, net, online, ring, goesOn) else HasFrom(p, online, ring, wanted + 1)
  }

  lemma ReadyPushes(p: seq<Msg>, net: Net, online: nat, ring: seq<Msg>, goesOn: bool, evict: nat)
    requires Sorted(p) && online < |p| && net.Answered? && net.answered <= |p| && evict <= |ring|
    requires GoodRing(p, online, ring) && Ready(p, net, online, ring, goesOn)
    ensures Ready(p, net, online + 1, Pushed(ring, evict, p[online]), goesOn)
  {
    if goesOn {
      PushKeepsFrom(p, online, ring, evict, net.start + 1);
    } else {
      NewerFrom(p, online, net.answered);
    }
  }

  lemma StockedPushes(p: seq<Msg>, net: Net, online: nat, ring: seq<Msg>, wanted: nat, goesOn: bool, evict: nat)
    requires Sorted(p) && online < |p| && (net.Answered? ==> net.answered <= |p|) && evict <= |ring|
    requires GoodRing(p, online, ring) && Stocked(p, net, online, ring, wanted, goesOn)
    ensures Stocked(p, net, online + 1, Pushed(ring, evict, p[online]), wanted, goesOn)
  {
    if net.Answered? {
      ReadyPushes(p, net, online, ring, goesOn, evict);
    } else {
      PushKeepsFrom(p, online, ring, evict, wanted + 1);
    }
  }

  lemma FromStays(p: seq<Msg>, online: nat, ring: seq<Msg>, lo: nat)
    requires online < |p| && HasFrom(p, online, ring, lo) && (ring == [] || online < lo)
    ensures HasFrom(p, online + 1, ring, lo)
  {
  }

  lemma StockedDrops(p: seq<Msg>, net: Net, online: nat, ring: seq<Msg>, wanted: nat, goesOn: bool)
    requires online < |p| && (net.Answered? ==> net.answered <= |p|) && Stocked(p, net, online, ring, wanted, goesOn)
    requires if !net.Answered? then ring == [] || online <= wanted
             else if !goesOn then online < net.answered || Newer(p, net, ring)
             else if ring == [] then !(net.start < net.answered <= online)
             else online <= net.start
    ensures Stocked(p, net, online + 1, ring, wanted, goesOn)
  {
    if !net.Answered? {
      FromStays(p, online, ring, wanted + 1);
    } else if goesOn {
      FromStays(p, online, ring, net.start + 1);
    }
  }

  lemma StockedIsInv(p: seq<Msg>, net: Net, online: nat, request: nat, c: Client, ring: seq<Msg>, goesOn: bool)
    requires online < |p| && !net.NotJoined? && net.joined <= |p| && (c.mode == Closed || c.mode == Opening)
    requires c.mode == Closed ==> !net.Answered?
    requires net.Answered? ==> Asked(p, net, request, c) && goesOn == GoesOn(p, net, c)
    requires Before(p, net.joined, online + 1, c.(ring := ring))
    requires Stocked(p, net, online + 1, ring, Wanted(p, c), goesOn)
    ensures ClientInv(p, net, online + 1, request, c.(ring := ring))
  {
    if net.Answered? {
      SameReply(p, p, net, c, c.(ring := ring));
    }
  }

  /** What a client does with an online message before the reply: push it, or drop it. */
  lemma ClosedBuffers(p: seq<Msg>, net: Net, online: nat, request: nat, c: Client, evict: nat, fits: bool)
    requires Sorted(p) && online < |p| && !net.NotJoined? && net.joined <= |p|
    requires ClientInv(p, net, online, request, c) && (c.mode == Closed || c.mode == Opening) && evict <= |c.ring|
    requires net.Answered? ==> net.answered <= |p|
    requires !fits ==> !LossyDrop(p, net, online, request, c)
    ensures ClientInv(p, net, online + 1, request, OnOnline(c, p[online], evict, fits))
  {
    var goesOn := net.Answered? && GoesOn(p, net, c);
    var ring := if fits then Pushed(c.ring, evict, p[online]) else c.ring;
    if fits {
      PushKeepsRing(p, online, c.ring, evict);
      StockedPushes(p, net, online, c.ring, Wanted(p, c), goesOn, evict);
    } else {
      AmongGrows(p, p, online, online + 1, c.ring);
      StockedDrops(p, net, online, c.ring, Wanted(p, c), goesOn);
    }
    BeforeWith(p, net.joined, online, c, ring);
    assert OnOnline(c, p[online], evict, fits) == c.(ring := ring);
    StockedIsInv(p, net, online, request, c, ring, goesOn);
  }

  lemma ConnectedBuffers(p: seq<Msg>, net: Net, online: nat, request: nat, c: Client, evict: nat, fits: bool)
    requires net.Answered? && Sorted(p) && GoodConnected(p, net, online, request, c) && c.mode == Connected
    requires online < |p| && evict <= |c.ring| && (!fits ==> !LossyDrop(p, net, online, request, c))
    ensures GoodConnected(p, net, online + 1, request, OnOnline(c, p[online], evict, fits))
  {
    if fits {
      PushKeepsRing(p, online, c.ring, evict);
      PushKeepsFrom(p, online, c.ring, evict, request + 1);
    } else {
      AmongGrows(p, p, online, online + 1, c.ring);
    }
  }

  lemma OverlappedBuffers(p: seq<Msg>, net: Net, online: nat, request: nat, c: Client, evict: nat, fits: bool)
    requires net.Answered? && Sorted(p) && GoodOverlapped(p, net, online, request, c) && c.mode == Overlapped
    requires online < |p| && evict <= |c.ring|
    requires if fits then !LossyEvict(c, evict) else p[online].seqno <= c.lastSeq
    ensures GoodOverlapped(p, net, online + 1, request, OnOnline(c, p[online], evict, fits))
  {
    var d := net.start + |c.delivered|;
    if fits {
      PushKeepsRing(p, online, c.ring, evict);
      PushKeepsAll(p, online, c.ring, evict, d);
    } else {
      AmongGrows(p, p, online, online + 1, c.ring);
      NewerFrom(p, online, d);
    }
  }

  lemma InvFromClient(s: Sys, c: Client)
    requires Sorted(s.published) && s.online <= |s.published| && s.request <= |s.published|
    requires !s.net.NotJoined? ==> s.net.joined <= |s.published|
    requires s.client == c && ClientInv(s.published, s.net, s.online, s.request, c)
    ensures Working(s)
  {
  }

  lemma AnsweredInRange(s: Sys)
    requires Working(s)
    ensures s.net.Answered? ==> s.net.joined <= s.net.answered <= |s.published|
  {
  }

  lemma HarmlessOnline(s: Sys, evict: nat, fits: bool)
    requires s.online < |s.published| && (s.net.Answered? ==> s.net.answered <= |s.published|)
    requires (s.up || Late(s.client.mode)) && !Lossy(s, GetOnline(evict, fits))
    ensures if fits then !LossyEvict(s.client, evict)
            else !LossyDrop(s.published, s.net, s.online, s.request, s.client)
  {
  }

  lemma OnlineKeepsOverlapped(s: Sys, evict: nat, fits: bool)
    requires Working(s) && Can(s, GetOnline(evict, fits)) && !Lossy(s, GetOnline(evict, fits))
    requires s.client.mode == Overlapped
    ensures Working(TakeOnline(s, evict, fits))
  {
    OverlappedBuffers(s.published, s.net, s.online, s.request, s.client, evict, fits);
  }

  lemma OnlineKeepsOnline(s: Sys, evict: nat, fits: bool)
    requires Working(s) && Can(s, GetOnline(evict, fits)) && s.client.mode == Online
    ensures Working(TakeOnline(s, evict, fits))
  {
    OnlineTakes(s.published, s.net, s.online, s.client);
  }

  lemma OnlineKeepsDrain(s: Sys, evict: nat, fits: bool)
    requires Working(s) && Can(s, GetOnline(evict, fits)) && s.client.mode == Drain
    ensures Working(TakeOnline(s, evict, fits))
  {
    DrainTakes(s.published, s.net, s.online, s.client);
  }

  lemma OnlineKeepsWait(s: Sys, evict: nat, fits: bool)
    requires Working(s) && Can(s, GetOnline(evict, fits)) && s.client.mode == WaitOnline
    ensures Working(TakeOnline(s, evict, fits))
  {
    BeforeOrder(s.published, 0, 1);
  }

  lemma OnlineKeepsConnected(s: Sys, evict: nat, fits: bool)
    requires Working(s) && Can(s, GetOnline(evict, fits)) && !Lossy(s, GetOnline(evict, fits)) && s.up
    requires s.client.mode == Connected
    ensures Working(TakeOnline(s, evict, fits))
  {
    AnsweredInRange(s);
    HarmlessOnline(s, evict, fits);
    ConnectedBuffers(s.published, s.net, s.online, s.request, s.client, evict, fits);
  }

  lemma OnlineKeepsClosed(s: Sys, evict: nat, fits: bool)
    requires Working(s) && Can(s, GetOnline(evict, fits)) && !Lossy(s, GetOnline(evict, fits)) && s.up
    requires s.client.mode == Closed || s.client.mode == Opening
    ensures Working(TakeOnline(s, evict, fits))
  {
    AnsweredInRange(s);
    HarmlessOnline(s, evict, fits);
    ClosedBuffers(s.published, s.net, s.online, s.request, s.client, evict, fits);
  }

  lemma OnlineKeeps(s: Sys, evict: nat, fits: bool)
    requires Working(s) && Can(s, GetOnline(evict, fits)) && !Lossy(s, GetOnline(evict, fits))
    requires s.up || Late(s.client.mode)
    ensures Working(TakeOnline(s, evict, fits))
  {
    match s.client.mode {
      case Online => OnlineKeepsOnline(s, evict, fits);
      case Drain => OnlineKeepsDrain(s, evict, fits);
      case WaitOnline => OnlineKeepsWait(s, evict, fits);
      case Overlapped => OnlineKeepsOverlapped(s, evict, fits);
      case Connected => OnlineKeepsConnected(s, evict, fits);
      case _ => OnlineKeepsClosed(s, evict, fits);
    }
  }

  // ----- the request feed

  lemma ConnectedTakes(p: seq<Msg>, net: Net, online: nat, request: nat, c: Client)
    requires net.Answered? && Sorted(p) && GoodConnected(p, net, online, request, c) && request < |p|
    ensures GoodConnected(p, net, online, request + 1, Deliver(c.(lastSeq := p[request].seqno), p[request]))
  {
    SegmentGrows(p, net.start, c.delivered);
  }

  /** The last of what the server had at the time of the answer, with an empty buffer: nothing is missed. */
  lemma ConnectedDrains(p: seq<Msg>, net: Net, online: nat, request: nat, c: Client)
    requires net.Answered? && Sorted(p) && GoodConnected(p, net, online, request, c)
    requires c.ring == [] && request < |p| && p[request].seqno == c.serverSeq
    ensures GoodDrain(p, net, online, ReportOnline(Deliver(c.(lastSeq := p[request].seqno), p[request])))
  {
    BeforeOrder(p, request + 1, net.answered);
    BeforeOrder(p, net.answered, request + 1);
    SegmentGrows(p, net.start, c.delivered);
  }

  /** Where the buffer meets the request feed it has everything from the next index on. */
  lemma MeetingHasAll(p: seq<Msg>, online: nat, ring: seq<Msg>, request: nat)
    requires Sorted(p) && GoodRing(p, online, ring) && request < |p| && HasFrom(p, online, ring, request + 1)
    requires ring != [] && ring[0].seqno <= p[request].seqno + 1
    ensures var r := DropUpTo(ring, p[request].seqno); GoodRing(p, online, r) && HasAll(p, online, r, request + 1)
  {
    var m := p[request].seqno;
    var r := DropUpTo(ring, m);
    DropUpToIsSuffix(ring, m);
    var n := |ring| - |r|;
    RingSuffix(p, online, ring, n);
    forall k | request + 1 <= k < online
      ensures Held(p, r, k)
    {
      IndexOrder(p, request, k);
      assert Held(p, ring, k);
      var i :| 0 <= i < |ring| && ring[i] == p[k];
      assert r[i - n] == p[k];
    }
  }

  ghost predicate AfterRequest(p: seq<Msg>, net: Net, online: nat, request: nat, c: Client)
    requires net.Answered?
  {
    match c.mode
    case Connected => GoodConnected(p, net, online, request, c)
    case Overlapped => GoodOverlapped(p, net, online, request, c)
    case Drain => GoodDrain(p, net, online, c)
    case _ => false
  }

  lemma ConnectedMeets(p: seq<Msg>, net: Net, online: nat, request: nat, c0: Client, roomy: bool)
    requires net.Answered? && Sorted(p) && GoodConnected(p, net, online, request, c0) && request < |p|
    requires c0.mode == Connected && c0.ring != [] && c0.ring[0].seqno <= p[request].seqno + 1
    ensures var c := Deliver(c0.(lastSeq := p[request].seqno), p[request]);
      AfterRequest(p, net, online, request + 1, Meet(c, p[request].seqno, roomy))
  {
    MeetingHasAll(p, online, c0.ring, request);
    if DropUpTo(c0.ring, p[request].seqno) == [] {
      EmptyHasAll(p, online, request + 1);
    }
    SegmentGrows(p, net.start, c0.delivered);
  }

  lemma ConnectedKeeps(p: seq<Msg>, net: Net, online: nat, request: nat, c0: Client, roomy: bool)
    requires Sorted(p) && online <= |p| && net.Answered? && net.joined <= net.answered
    requires GoodConnected(p, net, online, request, c0) && request < |p| && c0.mode == Connected
    ensures AfterRequest(p, net, online, request + 1, OnRequest(c0, p[request], roomy))
  {
    var m := p[request];
    var c := Deliver(c0.(lastSeq := m.seqno), m);
    if c.lastSeq == c.serverSeq && c.ring == [] {
      ConnectedDrains(p, net, online, request, c0);
      assert OnRequest(c0, m, roomy) == ReportOnline(c);
    } else if c.ring == [] || c.ring[0].seqno > m.seqno + 1 {
      ConnectedTakes(p, net, online, request, c0);
      assert OnRequest(c0, m, roomy) == c;
    } else {
      ConnectedMeets(p, net, online, request, c0, roomy);
      assert OnRequest(c0, m, roomy) == Meet(c, m.seqno, roomy);
    }
  }

  lemma OverlappedTakes(p: seq<Msg>, net: Net, online: nat, request: nat, c: Client)
    requires net.Answered? && Sorted(p) && GoodOverlapped(p, net, online, request, c) && request < |p|
    ensures if p[request].seqno <= c.lastSeq then GoodOverlapped(p, net, online, request + 1, c)
            else GoodOverlapped(p, net, online, request + 1, Deliver(c.(lastSeq := p[request].seqno), p[request]))
  {
    NewerFrom(p, request, net.start + |c.delivered|);
    if request == net.start + |c.delivered| {
      SegmentGrows(p, net.start, c.delivered);
    }
  }

  lemma RequestKeepsClient(p: seq<Msg>, net: Net, online: nat, request: nat, c: Client, roomy: bool)
    requires Sorted(p) && online <= |p| && request < |p| && net.Answered? && net.joined <= |p|
    requires ClientInv(p, net, online, request, c) && c.mode != Opening && c.mode != Closed
    ensures ClientInv(p, net, online, request + 1, OnRequest(c, p[request], roomy))
  {
    match c.mode {
      case Connected => ConnectedKeeps(p, net, online, request, c, roomy);
      case Overlapped => OverlappedTakes(p, net, online, request, c);
      case _ =>
    }
  }

  lemma RequestKeeps(s: Sys, roomy: bool)
    requires Working(s) && Can(s, GetRequest(roomy))
    ensures Working(TakeRequest(s, roomy))
  {
    RequestKeepsClient(s.published, s.net, s.online, s.request, s.client, roomy);
    InvFromClient(TakeRequest(s, roomy), OnRequest(s.client, s.published[s.request], roomy));
  }

  /** The first buffered message is old, or exactly the next one; the rest still has everything. */
  lemma FirstIsOldOrNext(p: seq<Msg>, online: nat, ring: seq<Msg>, d: nat)
    requires Sorted(p) && d <= |p| && GoodRing(p, online, ring) && HasAll(p, online, ring, d) && ring != []
    ensures GoodRing(p, online, ring[1..])
    ensures if ring[0].seqno <= SeqBefore(p, d) then HasAll(p, online, ring[1..], d)
            else d < online && ring[0] == p[d] && HasAll(p, online, ring[1..], d + 1)
  {
    var f := RingIndex(p, online, ring, 0);
    NewerFrom(p, f, d);
    RingSuffix(p, online, ring, 1);
    if f >= d {
      HasAllAt(p, online, ring, d, d);
      var i :| 0 <= i < |ring| && ring[i] == p[d];
      InOrderAt(ring, 0, i);
      IndexOrder(p, d, f);
      IndexOrder(p, f, d);
    }
    forall k | d <= k < online && k != f
      ensures Held(p, ring[1..], k)
    {
      HasAllAt(p, online, ring, d, k);
      var i :| 0 <= i < |ring| && ring[i] == p[k];
      IndexOrder(p, f, k);
      IndexOrder(p, k, f);
      assert ring[1..][i - 1] == p[k];
    }
  }

  lemma OverlappedPops(p: seq<Msg>, net: Net, online: nat, request: nat, c: Client)
    requires net.Answered? && Sorted(p) && GoodOverlapped(p, net, online, request, c) && c.ring != []
    ensures var m, c1 := c.ring[0], c.(ring := c.ring[1..]);
      GoodOverlapped(p, net, online, request, if m.seqno <= c.lastSeq then c1 else Deliver(c1.(lastSeq := m.seqno), m))
  {
    var d := net.start + |c.delivered|;
    FirstIsOldOrNext(p, online, c.ring, d);
    if c.ring[0].seqno > c.lastSeq {
      SegmentGrows(p, net.start, c.delivered);
    }
  }

  lemma PendingKeeps(s: Sys)
    requires Working(s) && Can(s, Pending)
    ensures Working(Next(s, Pending))
  {
    var c := s.client;
    if c.mode == Overlapped && c.ring != [] {
      OverlappedPops(s.published, s.net, s.online, s.request, c);
    } else if c.mode == Overlapped {
      EmptyHasAll(s.published, s.online, s.net.start + |c.delivered|);
    }
  }

  lemma WorkingStep(s: Sys, a: Act)
    requires Working(s) && (s.up || Late(s.client.mode)) && Can(s, a) && !Lossy(s, a) && !a.RequestBreaks?
    ensures Working(Next(s, a))
  {
    match a {
      case Publish(m) => PublishKeeps(s, m);
      case Join(reported) => JoinKeeps(s, reported);
      case SendRequest =>
      case ServerAnswers => AnswerKeeps(s);
      case GetReply => ReplyKeeps(s);
      case GetOnline(evict, fits) => OnlineKeeps(s, evict, fits);
      case GetRequest(roomy) => RequestKeeps(s, roomy);
      case Pending => PendingKeeps(s);
    }
  }

  /** Without the request channel the client does not come to need it again. */
  lemma LateStays(s: Sys, a: Act)
    requires Can(s, a) && Late(s.client.mode) && !s.up
    ensures Late(Next(s, a).client.mode) && !Next(s, a).up
  {
  }

  lemma LateBreak(p: seq<Msg>, net: Net, online: nat, request: nat, c: Client, error: bool)
    requires online <= |p| && (!net.NotJoined? ==> net.joined <= |p|)
    requires Late(c.mode) && ClientInv(p, net, online, request, c) && (c.error ==> error)
    ensures ClientInv(p, net, online, request, c.(error := error))
  {
  }

  lemma EarlyBreak(s: Sys, error: bool)
    requires Working(s) && !s.net.NotJoined? && !Late(s.client.mode) && (s.client.mode == Connected ==> error)
    ensures Stuck(s.(up := false, client := s.client.(error := error)))
  {
  }

  lemma BreakKeeps(s: Sys, closed: bool)
    requires Working(s) && Can(s, RequestBreaks(closed))
    ensures Inv(Next(s, RequestBreaks(closed)))
  {
    var t := Next(s, RequestBreaks(closed));
    assert t == s.(up := false, client := s.client.(error := t.client.error));
    if Late(s.client.mode) {
      LateBreak(s.published, s.net, s.online, s.request, s.client, t.client.error);
    } else {
      EarlyBreak(s, t.client.error);
    }
  }

  lemma StuckStays(s: Sys, a: Act)
    requires Stuck(s) && Can(s, a)
    ensures Stuck(Next(s, a))
  {
  }

  /** Every step that is not a lossy one keeps the invariant. */
  lemma StepKeeps(s: Sys, a: Act)
    requires Inv(s) && Can(s, a) && !Lossy(s, a)
    ensures Inv(Next(s, a))
  {
    if !s.up && !Late(s.client.mode) {
      StuckStays(s, a);
    } else if a.RequestBreaks? {
      BreakKeeps(s, a.closed);
    } else {
      WorkingStep(s, a);
      if !s.up {
        LateStays(s, a);
      }
    }
  }

  // ----- every run

  /** Each action can happen when it does, and none of them is one of the lossy ones. */
  predicate Legal(s: Sys, acts: seq<Act>)
    decreases |acts|
  {
    acts == [] || (Can(s, acts[0]) && !Lossy(s, acts[0]) && Legal(Next(s, acts[0]), acts[1..]))
  }

  function RunSys(s: Sys, acts: seq<Act>): Sys
    requires Legal(s, acts)
    decreases |acts|
  {
    if acts == [] then s else RunSys(Next(s, acts[0]), acts[1..])
  }

  lemma {:induction false} RunKeeps(s: Sys, acts: seq<Act>)
    requires Inv(s) && Legal(s, acts)
    ensures Inv(RunSys(s, acts))
    decreases |acts|
  {
    if acts != [] {
      StepKeeps(s, acts[0]);
      RunKeeps(Next(s, acts[0]), acts[1..]);
    }
  }

  lemma ClientKeepsOpenSeq(c: Client, m: Msg, evict: nat, flag: bool, last: int)
    requires c.openSeq.Some?
    ensures OnActive(c, last).openSeq == c.openSeq
    ensures OnOnline(c, m, evict, flag).openSeq == c.openSeq && OnProcess(c).openSeq == c.openSeq
  {
  }

  lemma ReplyKeepsOpenSeq(c: Client, last: int, first: int)
    requires c.openSeq.Some?
    ensures OnReply(c, last, first).openSeq == c.openSeq
  {
  }

  lemma RequestKeepsOpenSeq(c: Client, m: Msg, roomy: bool)
    requires c.openSeq.Some?
    ensures OnRequest(c, m, roomy).openSeq == c.openSeq
  {
  }

  function Numbered(n: nat): Msg {
    Msg(n, 0, "")
  }

  lemma OpenSeqStays(s: Sys, a: Act)
    requires Can(s, a) && s.client.openSeq.Some?
    ensures Next(s, a).client.openSeq == s.client.openSeq
  {
    var p, c := s.published, s.client;
    match a {
      case GetReply =>
        if s.net.answered <= |p| {
          ReplyKeepsOpenSeq(c, SeqBefore(p, s.net.answered), if s.net.answered == 0 then -1 else p[0].seqno);
        }
      case GetRequest(roomy) => RequestKeepsOpenSeq(c, p[s.request], roomy);
      case GetOnline(evict, fits) => ClientKeepsOpenSeq(c, p[s.online], evict, fits, 0);
      case Join(reported) => ClientKeepsOpenSeq(c, Numbered(0), 0, false, if reported then SeqBefore(p, |p|) else -1);
      case Pending => ClientKeepsOpenSeq(c, Numbered(0), 0, false, 0);
      case _ =>
    }
  }

  lemma {:induction false} RunOpenSeqStays(s: Sys, acts: seq<Act>)
    requires Legal(s, acts) && s.client.openSeq.Some?
    ensures RunSys(s, acts).client.openSeq == s.client.openSeq
    decreases |acts|
  {
    if acts != [] {
      OpenSeqStays(s, acts[0]);
      RunOpenSeqStays(Next(s, acts[0]), acts[1..]);
    }
  }

  /** A published message between two delivered ones is missing. */
  ghost predicate Gap(s: Sys) {
    s.net.Answered? && !Segment(s.published, s.net.start, s.client.delivered)
  }

  lemma InvHasNoGap(s: Sys)
    requires Inv(s)
    ensures !Gap(s) && (s.client.delivered != [] ==> s.net.Answered?)
  {
    if s.net.Answered? && (s.client.mode == Opening || s.client.mode == WaitOnline) {
      assert s.net.start <= |s.published|;
    }
  }

  /**
   * In every interleaving of posts, joining, the request and both feeds, with the request channel
   * failing or closing at any moment, as long as no step is a lossy one: at every moment the client
   * has delivered a gap-free, duplicate-free stretch of what was published and, unless it has failed,
   * it starts at the first message at or after the requested seq.
   */
  lemma HandoverIsGapFree(s: Sys, acts: seq<Act>)
    requires Init(s) && Legal(s, acts)
    ensures var e := RunSys(s, acts); var c := e.client;
            && (s.client.openSeq.Some? ==> c.openSeq == s.client.openSeq)
            && (c.delivered != [] ==>
                  && e.net.Answered? && Segment(e.published, e.net.start, c.delivered)
                  && (!c.error ==> c.openSeq.Some? && StartsAt(e.published, e.net.start, c.openSeq.value)))
  {
    RunKeeps(s, acts);
    InvHasNoGap(RunSys(s, acts));
    if s.client.openSeq.Some? {
      RunOpenSeqStays(s, acts);
    }
  }

  // ----- and each lossy step does lose a message

  lemma NotNext(p: seq<Msg>, start: nat, delivered: seq<Msg>, g: nat)
    requires Sorted(p) && Segment(p, start, delivered) && start + |delivered| < g < |p|
    ensures !Segment(p, start, delivered + [p[g]])
  {
    IndexOrder(p, start + |delivered|, g);
    assert (delivered + [p[g]])[|delivered|] == p[g];
  }

  lemma Prepend(s: Sys, a: Act, acts: seq<Act>) returns (all: seq<Act>)
    requires Can(s, a) && !Lossy(s, a) && Legal(Next(s, a), acts)
    ensures Legal(s, all) && RunSys(s, all) == RunSys(Next(s, a), acts)
  {
    all := [a] + acts;
    assert all[1..] == acts;
  }

  /** What an online client that has passed over index `x` looks like. */
  ghost predicate Past(s: Sys, x: nat)
  {
    && Sorted(s.published) && s.net.Answered? && s.net.answered <= |s.published| && s.online <= |s.published|
    && Segment(s.published, s.net.start, s.client.delivered)
    && s.net.start + |s.client.delivered| <= x < s.online
  }

  lemma PublishOne(s: Sys, x: nat) returns (acts: seq<Act>)
    requires Past(s, x)
    ensures Legal(s, acts)
    ensures var t := RunSys(s, acts);
      Past(t, x) && t.online < |t.published| && s.published <= t.published && t == s.(published := t.published)
  {
    if s.online < |s.published| {
      acts := [];
    } else {
      var p := s.published;
      var m := Msg(SeqBefore(p, |p|) + 1, 0, "");
      acts := [Publish(m)];
      assert acts[1..] == [];
      SortedGrows(p, m);
      assert p <= p + [m];
    }
  }

  lemma SameSeqBefore(p: seq<Msg>, p': seq<Msg>, i: nat)
    requires p <= p' && i <= |p|
    ensures SeqBefore(p', i) == SeqBefore(p, i)
  {
  }

  lemma {:induction false} Chain(s: Sys, first: seq<Act>, last: seq<Act>) returns (all: seq<Act>)
    requires Legal(s, first) && Legal(RunSys(s, first), last)
    ensures Legal(s, all) && RunSys(s, all) == RunSys(RunSys(s, first), last)
    decreases |first|
  {
    if first == [] {
      all := last;
    } else {
      var rest := Chain(Next(s, first[0]), first[1..], last);
      all := Prepend(s, first[0], rest);
    }
  }

  /** Online or draining, past index `x`: the next online message leaves a gap. */
  lemma OnlineLoses(s: Sys, x: nat) returns (acts: seq<Act>)
    requires Past(s, x)
    requires s.client.mode == Online || s.client.mode == Drain || s.client.mode == WaitOnline
    requires s.client.lastSeq <= SeqBefore(s.published, s.net.start + |s.client.delivered|)
    ensures Legal(s, acts) && Gap(RunSys(s, acts))
  {
    var first := PublishOne(s, x);
    var t := RunSys(s, first);
    var p := t.published;
    NewerFrom(p, t.online, t.net.start + |t.client.delivered|);
    SameSeqBefore(s.published, p, s.net.start + |s.client.delivered|);
    NotNext(p, t.net.start, t.client.delivered, t.online);
    var last := Prepend(t, GetOnline(0, true), []);
    acts := Chain(s, first, last);
  }

  /** Overlapped without index `x` in the buffer: `_process` empties the buffer, and the client is past it. */
  lemma {:induction false} OverlappedLoses(s: Sys, x: nat) returns (acts: seq<Act>)
    requires Past(s, x) && s.client.mode == Overlapped && s.client.pending
    requires s.client.lastSeq == SeqBefore(s.published, s.net.start + |s.client.delivered|)
    requires GoodRing(s.published, s.online, s.client.ring) && s.published[x] !in s.client.ring
    ensures Legal(s, acts) && Gap(RunSys(s, acts))
    decreases |s.client.ring|
  {
    var p, c, d := s.published, s.client, s.net.start + |s.client.delivered|;
    var t := Next(s, Pending);
    var rest;
    if c.ring == [] {
      rest := OnlineLoses(t, x);
    } else {
      var f := RingIndex(p, s.online, c.ring, 0);
      NewerFrom(p, f, d);
      RingSuffix(p, s.online, c.ring, 1);
      if f > d {
        NotNext(p, s.net.start, c.delivered, f);
        rest := [];
      } else {
        if f == d {
          SegmentGrows(p, s.net.start, c.delivered);
        }
        rest := OverlappedLoses(t, x);
      }
    }
    acts := Prepend(s, Pending, rest);
  }

  lemma NotBelow(p: seq<Msg>, x: nat, ring: seq<Msg>)
    requires Sorted(p) && x < |p| && GoodRing(p, x, ring)
    ensures p[x] !in ring
  {
    forall i | 0 <= i < |ring|
      ensures ring[i] != p[x]
    {
      var k := RingIndex(p, x, ring, i);
      IndexOrder(p, k, x);
    }
  }

  /** What ends before index `x` does not hold it, also after dropping. */
  lemma MissingStays(p: seq<Msg>, x: nat, ring: seq<Msg>, seqno: int)
    requires Sorted(p) && x < |p| && GoodRing(p, x, ring)
    ensures GoodRing(p, x, DropUpTo(ring, seqno)) && p[x] !in DropUpTo(ring, seqno)
  {
    var r := DropUpTo(ring, seqno);
    DropUpToIsSuffix(ring, seqno);
    RingSuffix(p, x, ring, |ring| - |r|);
    NotBelow(p, x, r);
  }

  /** Connected with a buffer that ends before index `x`: the feeds meet there and go past it. */
  lemma {:induction false} HoleLoses(s: Sys, x: nat) returns (acts: seq<Act>)
    requires Past(s, x) && s.up && s.client.mode == Connected && s.client.ring != []
    requires s.request == s.net.start + |s.client.delivered| < x && GoodRing(s.published, x, s.client.ring)
    ensures Legal(s, acts) && Gap(RunSys(s, acts))
    decreases x - s.request
  {
    var p, c, m := s.published, s.client, s.published[s.request];
    var t := Next(s, GetRequest(true));
    var f := RingIndex(p, x, c.ring, 0);
    var rest;
    IndexOrder(p, s.request, f);
    SegmentGrows(p, s.net.start, c.delivered);
    if c.ring[0].seqno > m.seqno + 1 {
      rest := HoleLoses(t, x);
    } else {
      MissingStays(p, x, c.ring, m.seqno);
      AmongGrows(p, p, x, s.online, DropUpTo(c.ring, m.seqno));
      rest := OverlappedLoses(t, x);
    }
    acts := Prepend(s, GetRequest(true), rest);
  }

  /** Connected with an empty buffer and index `x` not before the server's last: the client drains past it. */
  lemma {:induction false} DrainLoses(s: Sys, x: nat) returns (acts: seq<Act>)
    requires Past(s, x) && s.up && s.client.mode == Connected && s.client.ring == []
    requires s.request == s.net.start + |s.client.delivered| && s.request < s.net.answered <= x
    requires s.client.serverSeq == SeqBefore(s.published, s.net.answered)
    ensures Legal(s, acts) && Gap(RunSys(s, acts))
    decreases x - s.request
  {
    var p, c := s.published, s.client;
    var t := Next(s, GetRequest(true));
    SegmentGrows(p, s.net.start, c.delivered);
    BeforeOrder(p, s.request + 1, s.net.answered);
    BeforeOrder(p, s.net.answered, s.request + 1);
    var rest;
    if s.request + 1 == s.net.answered {
      rest := OnlineLoses(t, x);
    } else {
      rest := DrainLoses(t, x);
    }
    acts := Prepend(s, GetRequest(true), rest);
  }

  // ----- from each of the lossy steps

  lemma DirectSwitchLoses(s: Sys) returns (acts: seq<Act>)
    requires Working(s) && Can(s, GetReply) && Lossy(s, GetReply)
    ensures Legal(Next(s, GetReply), acts) && Gap(RunSys(Next(s, GetReply), acts))
  {
    var p, net, t := s.published, s.net, Next(s, GetReply);
    ReplyCases(p, net, s.online, s.client);
    NewerIndex(p, net, s.online, s.client.ring);
    acts := OnlineLoses(t, net.answered);
  }

  lemma EvictedIsGone(p: seq<Msg>, online: nat, ring: seq<Msg>, evict: nat, x: nat)
    requires Sorted(p) && GoodRing(p, online, ring) && x < online < |p| && 0 < evict <= |ring|
    requires ring[evict - 1] == p[x]
    ensures p[x] !in Pushed(ring, evict, p[online])
  {
    var r := Pushed(ring, evict, p[online]);
    IndexOrder(p, x, online);
    forall i | 0 <= i < |r|
      ensures r[i] != p[x]
    {
      if i < |r| - 1 {
        assert r[i] == ring[evict + i];
        InOrderAt(ring, evict - 1, evict + i);
      }
    }
  }

  /** Evicting an undelivered message in state Overlapped: the next `_process` delivers past it. */
  lemma EvictionLoses(s: Sys, evict: nat) returns (acts: seq<Act>)
    requires Working(s) && Can(s, GetOnline(evict, true)) && LossyEvict(s.client, evict)
    ensures var t := Next(s, GetOnline(evict, true)); Legal(t, acts) && Gap(RunSys(t, acts))
  {
    var p, c, d := s.published, s.client, s.net.start + |s.client.delivered|;
    var t := Next(s, GetOnline(evict, true));
    var x := RingIndex(p, s.online, c.ring, evict - 1);
    NewerFrom(p, x, d);
    PushKeepsRing(p, s.online, c.ring, evict);
    EvictedIsGone(p, s.online, c.ring, evict, x);
    acts := OverlappedLoses(t, x);
  }

  /** The reply, to a client that has dropped the message at index `x`. */
  lemma OpeningLoses(s: Sys, x: nat) returns (acts: seq<Act>)
    requires Sorted(s.published) && x + 1 == s.online <= |s.published| && s.up && s.client.mode == Opening
    requires s.net.Answered? && Asked(s.published, s.net, s.request, s.client)
    requires Before(s.published, s.net.joined, s.online, s.client) && GoodRing(s.published, x, s.client.ring)
    requires LossyDrop(s.published, s.net, x, s.request, s.client)
    ensures Legal(s, acts) && Gap(RunSys(s, acts))
  {
    var p, net, c, t := s.published, s.net, s.client, Next(s, GetReply);
    ReplyCases(p, net, s.online, c);
    assert t.client == AfterReply(p, net, c);
    var rest;
    if !GoesOn(p, net, c) {
      rest := OnlineLoses(t, x);
    } else if c.ring == [] {
      rest := DrainLoses(t, x);
    } else {
      rest := HoleLoses(t, x);
    }
    acts := Prepend(s, GetReply, rest);
  }

  /** The server answers; the message at index `x` is wanted, so the reply leaves the client waiting for it. */
  lemma AskingLoses(s: Sys, x: nat) returns (acts: seq<Act>)
    requires Sorted(s.published) && x + 1 == s.online <= |s.published| && s.up && s.client.mode == Opening
    requires s.net.Joined? && Before(s.published, s.net.joined, s.online, s.client)
    requires GoodRing(s.published, x, s.client.ring) && s.client.ring != [] && x > Wanted(s.published, s.client)
    ensures Legal(s, acts) && Gap(RunSys(s, acts))
  {
    var p, c, t := s.published, s.client, Next(s, ServerAnswers);
    assert p[..|p|] == p;
    if c.openSeq.None? {
      assert Position(p, p[0].seqno) == 0;
    }
    var n := Wanted(p, c);
    IndexOrder(p, n, |p| - 1);
    BeforeMonotone(p, s.net.joined, |p|);
    BeforeOrder(p, 0, |p|);
    assert GoesOn(p, t.net, c);
    var rest := OpeningLoses(t, x);
    acts := Prepend(s, ServerAnswers, rest);
  }

  lemma OverlappedDropLoses(s: Sys, t: Sys) returns (acts: seq<Act>)
    requires Working(s) && s.online < |s.published| && t == s.(online := s.online + 1) && s.client.mode == Overlapped
    requires LossyDrop(s.published, s.net, s.online, s.request, s.client)
    ensures Legal(t, acts) && Gap(RunSys(t, acts))
  {
    var p, c, x := s.published, s.client, s.online;
    NewerFrom(p, x, s.net.start + |c.delivered|);
    AmongGrows(p, p, x, x + 1, c.ring);
    NotBelow(p, x, c.ring);
    acts := OverlappedLoses(t, x);
  }

  lemma ConnectedDropLoses(s: Sys, t: Sys) returns (acts: seq<Act>)
    requires Working(s) && s.online < |s.published| && t == s.(online := s.online + 1)
    requires s.client.mode == Connected && s.up
    requires LossyDrop(s.published, s.net, s.online, s.request, s.client)
    ensures Legal(t, acts) && Gap(RunSys(t, acts))
  {
    if s.client.ring == [] {
      acts := DrainLoses(t, s.online);
    } else {
      acts := HoleLoses(t, s.online);
    }
  }

  lemma BufferedDropLoses(s: Sys, t: Sys) returns (acts: seq<Act>)
    requires Working(s) && !s.net.NotJoined? && s.online < |s.published| && t == s.(online := s.online + 1)
    requires (s.client.mode == Closed || s.client.mode == Opening) && s.up
    requires LossyDrop(s.published, s.net, s.online, s.request, s.client)
    ensures Legal(t, acts) && Gap(RunSys(t, acts))
  {
    var p, c, x := s.published, s.client, s.online;
    AmongGrows(p, p, x, x + 1, c.ring);
    if c.mode == Closed {
      var rest := AskingLoses(Next(t, SendRequest), x);
      acts := Prepend(t, SendRequest, rest);
    } else if s.net.Answered? {
      acts := OpeningLoses(t, x);
    } else {
      acts := AskingLoses(t, x);
    }
  }

  /** A message too large for the buffer, wherever `LossyDrop` says that it is missed. */
  lemma OversizeLoses(s: Sys, evict: nat) returns (acts: seq<Act>)
    requires Working(s) && Can(s, GetOnline(evict, false))
    requires (s.net.Answered? ==> s.net.answered <= |s.published|) && (s.up || Late(s.client.mode))
    requires LossyDrop(s.published, s.net, s.online, s.request, s.client)
    ensures var t := Next(s, GetOnline(evict, false)); Legal(t, acts) && Gap(RunSys(t, acts))
  {
    var p, c, x := s.published, s.client, s.online;
    var t := Next(s, GetOnline(evict, false));
    assert t == s.(online := x + 1);
    if c.mode == Overlapped {
      acts := OverlappedDropLoses(s, t);
    } else if c.mode == Connected {
      acts := ConnectedDropLoses(s, t);
    } else {
      acts := BufferedDropLoses(s, t);
    }
  }

  lemma LossyLoses(s: Sys, a: Act) returns (acts: seq<Act>)
    requires Working(s) && Can(s, a) && Lossy(s, a)
    ensures Legal(Next(s, a), acts) && Gap(RunSys(Next(s, a), acts))
  {
    match a {
      case GetReply => acts := DirectSwitchLoses(s);
      case GetOnline(evict, fits) =>
        if fits {
          acts := EvictionLoses(s, evict);
        } else {
          acts := OversizeLoses(s, evict);
        }
    }
  }

  ghost predicate LeadsToGap(s: Sys, acts: seq<Act>) {
    Legal(s, acts) && Gap(RunSys(s, acts))
  }

  /**
   * The three conditions are exact: from any state of a run so far without a lossy step, a step is
   * lossy if and only if harmless steps can follow it after which a message is missing.
   */
  lemma LossyExactly(s: Sys, a: Act)
    requires Inv(s) && Can(s, a)
    ensures Lossy(s, a) <==> exists acts :: LeadsToGap(Next(s, a), acts)
  {
    if Lossy(s, a) {
      var acts := LossyLoses(s, a);
      assert LeadsToGap(Next(s, a), acts);
    } else {
      StepKeeps(s, a);
      forall acts | Legal(Next(s, a), acts)
        ensures !Gap(RunSys(Next(s, a), acts))
      {
        RunKeeps(Next(s, a), acts);
        InvHasNoGap(RunSys(Next(s, a), acts));
      }
    }
  }

  // ----- such states are reached

  /** The client of the two runs below. */
  function At(mode: Mode, open: int, seqs: (int, int), ring: seq<Msg>, delivered: seq<Msg>): Client {
    Client(mode, false, seqs.0, seqs.1, Some(open), false, false, ring, mode == Overlapped, delivered, 0)
  }

  lemma Positions()
    ensures Position([Numbered(0)], 0) == 0 && Position([Numbered(0)], 1) == 1
  {
  }

  /** A client that wants seq 1 of a server that has seq 0, and buffers seq 1 before the reply. */
  function Early(k: nat): (Sys, Act) {
    var p, q := [Numbered(0)], [Numbered(0), Numbered(1)];
    match k
    case 0 => (Sys(p, NotJoined, 0, 0, At(Closed, 1, (-1, -1), [], []), true), Join(false))
    case 1 => (Sys(p, Joined(1), 1, 0, At(Closed, 1, (-1, -1), [], []), true), SendRequest)
    case 2 => (Sys(p, Joined(1), 1, 0, At(Opening, 1, (-1, -1), [], []), true), ServerAnswers)
    case 3 => (Sys(p, Answered(1, 1, 1), 1, 1, At(Opening, 1, (-1, -1), [], []), true), Publish(Numbered(1)))
    case 4 => (Sys(q, Answered(1, 1, 1), 1, 1, At(Opening, 1, (-1, -1), [], []), true), GetOnline(0, true))
    case _ => (Sys(q, Answered(1, 1, 1), 2, 1, At(Opening, 1, (-1, -1), [Numbered(1)], []), true), GetReply)
  }

  /** A client that has met its buffer, with one message in it and another arriving. */
  function Met(k: nat): (Sys, Act) {
    var p, q := [Numbered(0)], [Numbered(0), Numbered(1)];
    var r := q + [Numbered(2)];
    var net := Answered(1, 1, 0);
    match k
    case 0 => (Sys(p, NotJoined, 0, 0, At(Closed, 0, (-1, -1), [], []), true), Join(false))
    case 1 => (Sys(p, Joined(1), 1, 0, At(Closed, 0, (-1, -1), [], []), true), SendRequest)
    case 2 => (Sys(p, Joined(1), 1, 0, At(Opening, 0, (-1, -1), [], []), true), ServerAnswers)
    case 3 => (Sys(p, net, 1, 0, At(Opening, 0, (-1, -1), [], []), true), GetReply)
    case 4 => (Sys(p, net, 1, 0, At(Connected, 0, (-1, 0), [], []), true), Publish(Numbered(1)))
    case 5 => (Sys(q, net, 1, 0, At(Connected, 0, (-1, 0), [], []), true), GetOnline(0, true))
    case 6 => (Sys(q, net, 2, 0, At(Connected, 0, (-1, 0), [Numbered(1)], []), true), GetRequest(true))
    case 7 => (Sys(q, net, 2, 1, At(Overlapped, 0, (0, 0), [Numbered(1)], p), true), Publish(Numbered(2)))
    case _ => (Sys(r, net, 2, 1, At(Overlapped, 0, (0, 0), [Numbered(1)], p), true), Pending)
  }

  ghost predicate Steps(a: (Sys, Act), b: (Sys, Act)) {
    Can(a.0, a.1) && !Lossy(a.0, a.1) && Next(a.0, a.1) == b.0
  }

  lemma EarlySteps(k: nat)
    requires k < 5
    ensures Steps(Early(k), Early(k + 1))
  {
    Positions();
  }

  lemma MetOpens(k: nat)
    requires k < 4
    ensures Steps(Met(k), Met(k + 1))
  {
    Positions();
  }

  lemma MetBuffers(k: nat)
    requires 4 <= k < 8
    ensures Steps(Met(k), Met(k + 1))
  {
    assert DropUpTo([Numbered(1)], 0) == [Numbered(1)];
  }

  lemma MetSteps(k: nat)
    requires k < 8
    ensures Steps(Met(k), Met(k + 1))
  {
    if k < 4 {
      MetOpens(k);
    } else {
      MetBuffers(k);
    }
  }

  lemma {:induction false} EarlyRun(k: nat) returns (acts: seq<Act>)
    requires k <= 5
    ensures Legal(Early(k).0, acts) && RunSys(Early(k).0, acts) == Early(5).0
    decreases 5 - k
  {
    if k == 5 {
      acts := [];
    } else {
      EarlySteps(k);
      acts := EarlyRun(k + 1);
      acts := Prepend(Early(k).0, Early(k).1, acts);
    }
  }

  lemma {:induction false} MetRun(k: nat) returns (acts: seq<Act>)
    requires k <= 8
    ensures Legal(Met(k).0, acts) && RunSys(Met(k).0, acts) == Met(8).0
    decreases 8 - k
  {
    if k == 8 {
      acts := [];
    } else {
      MetSteps(k);
      acts := MetRun(k + 1);
      acts := Prepend(Met(k).0, Met(k).1, acts);
    }
  }

  lemma DirectSwitchIsReached() returns (s: Sys, acts: seq<Act>)
    ensures Init(s) && Legal(s, acts) && Can(RunSys(s, acts), GetReply) && Lossy(RunSys(s, acts), GetReply)
  {
    s := Early(0).0;
    acts := EarlyRun(0);
  }

  lemma OverlappedLossIsReached() returns (s: Sys, acts: seq<Act>)
    ensures Init(s) && Legal(s, acts)
    ensures var t := RunSys(s, acts);
      && Can(t, GetOnline(1, true)) && Lossy(t, GetOnline(1, true))
      && Can(t, GetOnline(0, false)) && Lossy(t, GetOnline(0, false))
  {
    s := Met(0).0;
    acts := MetRun(0);
  }
}
