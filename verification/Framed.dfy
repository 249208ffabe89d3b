/**
 * Framing over a byte stream (TcpFrame and CommonFrame in framed.cc, frame.h): messages are sent
 * with a length header and put together again from chunks cut anywhere.
 */
module Framed {
  import opened Bytes

  datatype Kind = Std | Short | Tiny | Size32 | Bson

  /** Message id and sequence number, for the frames that carry them. */
  datatype Meta = NoMeta | Meta(msgid: int, seqno: int)
  datatype Message = Message(meta: Meta, data: seq<byte>)

  function SizeBytes(k: Kind): nat {
    if k == Short || k == Tiny then 2 else 4
  }

  function MsgidBytes(k: Kind): nat {
    match k case Std => 4 case Short => 2 case Tiny => 2 case _ => 0
  }

  function SeqBytes(k: Kind): nat {
    match k case Std => 8 case Short => 8 case Tiny => 4 case _ => 0
  }

  predicate HasMeta(k: Kind) {
    k != Size32 && k != Bson
  }

  /** `frame_size`. */
  function HeaderSize(k: Kind): (n: nat)
    ensures n >= 4
  {
    SizeBytes(k) + MsgidBytes(k) + SeqBytes(k)
  }

  /** `frame_skip_size`: the header of a bson document is part of its data. */
  function SkipSize(k: Kind): nat {
    if k == Bson then 0 else HeaderSize(k)
  }

  // ---- The decoding of a whole byte string ----

  function FullSize(k: Kind, b: seq<byte>): nat
    requires |b| >= HeaderSize(k)
  {
    SkipSize(k) + FromLe(b[..SizeBytes(k)])
  }

  /** `_frame`: a complete frame is there. */
  predicate Complete(k: Kind, b: seq<byte>) {
    |b| >= HeaderSize(k) && |b| >= FullSize(k, b)
  }

  function First(k: Kind, b: seq<byte>): Message
    requires Complete(k, b)
  {
    var n := SizeBytes(k);
    var m := n + MsgidBytes(k);
    Message(if HasMeta(k) then Meta(Dec(b[n..m]), Dec(b[m..HeaderSize(k)])) else NoMeta, b[SkipSize(k)..FullSize(k, b)])
  }

  /** A frame of no bytes at all, which only a bson header of zero makes. */
  predicate Stuck(k: Kind, b: seq<byte>) {
    Complete(k, b) && FullSize(k, b) == 0
  }

  predicate Decodable(k: Kind, b: seq<byte>) {
    Complete(k, b) && FullSize(k, b) > 0
  }

  ghost function Messages(k: Kind, b: seq<byte>): seq<Message>
    decreases |b|
  {
    if Decodable(k, b) then [First(k, b)] + Messages(k, b[FullSize(k, b)..]) else []
  }

  ghost function Rest(k: Kind, b: seq<byte>): seq<byte>
    decreases |b|
  {
    if Decodable(k, b) then Rest(k, b[FullSize(k, b)..]) else b
  }

  lemma SliceOfLonger(b: seq<byte>, c: seq<byte>, i: nat, j: nat)
    requires i <= j <= |b|
    ensures (b + c)[i..j] == b[i..j]
  {
  }

  lemma FirstOfLonger(k: Kind, b: seq<byte>, c: seq<byte>)
    requires Complete(k, b)
    ensures Complete(k, b + c) && FullSize(k, b + c) == FullSize(k, b) && First(k, b + c) == First(k, b)
    ensures (b + c)[FullSize(k, b)..] == b[FullSize(k, b)..] + c
  {
    var n := SizeBytes(k);
    var m := n + MsgidBytes(k);
    SliceOfLonger(b, c, 0, n);
    SliceOfLonger(b, c, n, m);
    SliceOfLonger(b, c, m, HeaderSize(k));
    SliceOfLonger(b, c, SkipSize(k), FullSize(k, b));
  }

  lemma CompleteStays(k: Kind, b: seq<byte>, c: seq<byte>)
    ensures Complete(k, b) ==> Complete(k, b + c)
    ensures c == [] ==> b + c == b
  {
    if Complete(k, b) {
      FirstOfLonger(k, b, c);
    }
  }

  lemma ConsAppend(x: Message, a: seq<Message>, b: seq<Message>)
    ensures ([x] + a) + b == [x] + (a + b)
  {
  }

  lemma DecodeFirst(k: Kind, b: seq<byte>, c: seq<byte>)
    requires Decodable(k, b)
    ensures var t := b[FullSize(k, b)..];
      && Messages(k, b) == [First(k, b)] + Messages(k, t) && Rest(k, b) == Rest(k, t)
      && Messages(k, b + c) == [First(k, b)] + Messages(k, t + c) && Rest(k, b + c) == Rest(k, t + c)
  {
    FirstOfLonger(k, b, c);
  }

  /** Decoding can stop anywhere and go on with what was left. */
  lemma {:induction false} DecodeAppend(k: Kind, b: seq<byte>, c: seq<byte>)
    ensures Messages(k, b + c) == Messages(k, b) + Messages(k, Rest(k, b) + c)
    ensures Rest(k, b + c) == Rest(k, Rest(k, b) + c)
    decreases |b|
  {
    if Decodable(k, b) {
      var t := b[FullSize(k, b)..];
      DecodeFirst(k, b, c);
      DecodeAppend(k, t, c);
      ConsAppend(First(k, b), Messages(k, t), Messages(k, Rest(k, t) + c));
    } else {
      assert Messages(k, b) == [] && Rest(k, b) == b;
    }
  }

  lemma {:induction false} RestIsFinal(k: Kind, b: seq<byte>)
    ensures !Decodable(k, Rest(k, b))
    ensures Messages(k, Rest(k, b)) == [] && Rest(k, Rest(k, b)) == Rest(k, b)
    decreases |b|
  {
    if Decodable(k, b) {
      RestIsFinal(k, b[FullSize(k, b)..]);
    }
  }

  lemma RestOfStuck(k: Kind, b: seq<byte>)
    ensures Stuck(k, b) ==> Rest(k, b) == b
  {
  }

  /** An empty frame stays where it is, whatever comes after it. */
  lemma StuckStays(k: Kind, b: seq<byte>, c: seq<byte>)
    requires Stuck(k, Rest(k, b))
    ensures Messages(k, b + c) == Messages(k, b) && Rest(k, b + c) == Rest(k, b) + c && Stuck(k, Rest(k, b + c))
  {
    DecodeAppend(k, b, c);
    FirstOfLonger(k, Rest(k, b), c);
  }

  // ---- The receiver ----

  ghost function Empties(n: nat): seq<Message> {
    seq(n, _ => Message(NoMeta, []))
  }

  /** Everything up to an empty frame comes out; from there on `extra` empty messages. */
  ghost predicate Reassembled(k: Kind, received: seq<byte>, buffered: seq<byte>, delivered: seq<Message>, extra: nat) {
    && delivered + Messages(k, buffered) == Messages(k, received) + Empties(extra)
    && Rest(k, buffered) == Rest(k, received)
    && (extra > 0 ==> Stuck(k, buffered))
  }

  lemma MoveOver(a: seq<Message>, m: Message, b: seq<Message>)
    ensures (a + [m]) + b == a + ([m] + b)
  {
  }

  lemma TakeFirst(k: Kind, received: seq<byte>, buffered: seq<byte>, delivered: seq<Message>, extra: nat)
    requires Reassembled(k, received, buffered, delivered, extra) && Decodable(k, buffered)
    ensures Reassembled(k, received, buffered[FullSize(k, buffered)..], delivered + [First(k, buffered)], extra)
  {
    var next := buffered[FullSize(k, buffered)..];
    MoveOver(delivered, First(k, buffered), Messages(k, next));
  }

  lemma TakeEmpty(k: Kind, received: seq<byte>, buffered: seq<byte>, delivered: seq<Message>, extra: nat)
    requires Reassembled(k, received, buffered, delivered, extra) && Stuck(k, buffered)
    ensures Reassembled(k, received, buffered, delivered + [First(k, buffered)], extra + 1)
  {
    assert First(k, buffered) == Message(NoMeta, []);
    assert Empties(extra + 1) == Empties(extra) + [First(k, buffered)];
    assert Messages(k, buffered) == [];
    assert delivered + Messages(k, buffered) == delivered;
    assert delivered + [First(k, buffered)] + Messages(k, buffered) == delivered + [First(k, buffered)];
  }

  lemma AddMore(a: seq<Message>, b: seq<Message>, all: seq<Message>, more: seq<Message>)
    requires a + b == all + Empties(0)
    ensures a + (b + more) == (all + more) + Empties(0)
  {
    assert Empties(0) == [];
    assert a + (b + more) == (a + b) + more;
  }

  lemma AddChunk(k: Kind, received: seq<byte>, buffered: seq<byte>, delivered: seq<Message>, extra: nat, c: seq<byte>)
    requires Reassembled(k, received, buffered, delivered, extra)
    ensures Reassembled(k, received + c, buffered + c, delivered, extra)
  {
    if extra == 0 {
      DecodeAppend(k, received, c);
      DecodeAppend(k, buffered, c);
      AddMore(delivered, Messages(k, buffered), Messages(k, received), Messages(k, Rest(k, buffered) + c));
    } else {
      StuckStays(k, received, c);
      StuckStays(k, buffered, c);
    }
  }

  lemma CopiedIn(buf: seq<byte>, start: nat, end: nat, chunk: seq<byte>)
    requires start <= end && end + |chunk| <= |buf|
    ensures (buf[..end] + chunk + buf[end + |chunk|..])[start..end + |chunk|] == buf[start..end] + chunk
  {
  }

  class TcpFrame {
    const kind: Kind
    const maxSize: nat
    var buf: seq<byte>
    var start: nat
    var end: nat
    var pending: bool
    ghost var received: seq<byte>
    ghost var delivered: seq<Message>
    ghost var extra: nat

    ghost predicate InBounds()
      reads this
    {
      start <= end <= |buf|
    }

    function Buffered(): seq<byte>
      reads this
      requires InBounds()
    {
      buf[start..end]
    }

    ghost predicate Sound()
      reads this
    {
      InBounds() && Reassembled(kind, received, Buffered(), delivered, extra)
    }

    /**
     * Between calls: what was delivered and what is buffered make up what was received, and Pending
     * says whether a frame is complete.
     */
    ghost predicate Valid()
      reads this
    {
      Sound() && (pending <==> Complete(kind, Buffered()))
    }

    constructor (kind: Kind, maxSize: nat)
      ensures Valid() && this.kind == kind && received == [] && delivered == []
    {
      this.kind, this.maxSize := kind, maxSize;
      buf, start, end, pending := [], 0, 0, false;
      received, delivered, extra := [], [], 0;
    }

    /** `_process_data`: the message goes out and its bytes leave the buffer. */
    method ProcessData() returns (m: Message)
      requires Sound() && Complete(kind, Buffered())
      modifies this
      ensures Sound() && received == old(received)
      ensures m == First(kind, old(Buffered())) && delivered == old(delivered) + [m]
      ensures Buffered() == old(Buffered())[FullSize(kind, old(Buffered()))..]
    {
      ghost var b := Buffered();
      if Stuck(kind, b) {
        TakeEmpty(kind, received, b, delivered, extra);
      } else {
        TakeFirst(kind, received, b, delivered, extra);
      }
      m := First(kind, Buffered());
      extra := if Stuck(kind, b) then extra + 1 else extra;
      start := start + FullSize(kind, Buffered());
      if start == end {
        start, end := 0, 0;
      }
      delivered := delivered + [m];
      assert Buffered() == b[FullSize(kind, b)..];
    }

    /** Make room for `n` more bytes: move the buffered ones to the front, then grow. */
    method Reserve(n: nat)
      requires InBounds()
      modifies this`buf, this`start, this`end
      ensures InBounds() && end + n <= |buf| && Buffered() == old(Buffered())
    {
      if end + n > maxSize && start > 0 {
        buf := buf[start..end] + buf[end - start..];
        end := end - start;
        start := 0;
      }
      if end + n > |buf| {
        buf := buf + seq(end + n - |buf|, _ => 0);
      }
    }

    /** Copy a chunk in. */
    method Append(chunk: seq<byte>)
      requires Sound()
      modifies this
      ensures Sound() && received == old(received) + chunk && delivered == old(delivered)
      ensures Buffered() == old(Buffered()) + chunk
    {
      ghost var b := Buffered();
      AddChunk(kind, received, b, delivered, extra, chunk);
      Reserve(|chunk|);
      CopiedIn(buf, start, end, chunk);
      buf := buf[..end] + chunk + buf[end + |chunk|..];
      end := end + |chunk|;
      received := received + chunk;
    }

    /** The first buffered message, if a frame is complete. */
    method TakeComplete() returns (out: seq<Message>)
      requires Sound()
      modifies this
      ensures Sound() && received == old(received) && delivered == old(delivered) + out && |out| <= 1
      ensures out == [] <==> !Complete(kind, old(Buffered()))
      ensures out == [] ==> Buffered() == old(Buffered())
    {
      out := [];
      if Complete(kind, Buffered()) {
        var m := ProcessData();
        out := [m];
      }
    }

    /** `_pending`. */
    method SetPending()
      requires Sound()
      modifies this`pending
      ensures Valid()
    {
      pending := Complete(kind, Buffered());
    }

    /** `_on_data`: a chunk of any length; at most one message goes out. */
    method OnData(chunk: seq<byte>) returns (out: seq<Message>)
      requires Valid()
      modifies this
      ensures Valid()
      ensures received == old(received) + chunk && delivered == old(delivered) + out && |out| <= 1
      ensures out == [] <==> !Complete(kind, old(Buffered()) + chunk)
    {
      CompleteStays(kind, Buffered(), chunk);
      out := TakeComplete();
      if |chunk| == 0 {
        SetPending();
        return;
      }
      Append(chunk);
      if out == [] {
        out := TakeComplete();
      }
      SetPending();
    }

    /** `_process`: the next buffered message, or EAGAIN. */
    method Process() returns (out: seq<Message>)
      requires Valid()
      modifies this
      ensures Valid() && received == old(received) && delivered == old(delivered) + out
      ensures out == [] <==> !old(pending)
      ensures out == [] ==> Buffered() == old(Buffered())
      ensures out != [] ==> old(Complete(kind, Buffered())) && out == [First(kind, old(Buffered()))]
      ensures out != [] ==> Buffered() == old(Buffered())[FullSize(kind, old(Buffered()))..]
    {
      out := [];
      if !Complete(kind, Buffered()) {
        pending := false;
        return;
      }
      var m := ProcessData();
      out := [m];
      SetPending();
    }
  }

  /** What delivered messages are, at any time, in terms of the stream alone. */
  lemma DeliveredIsDecoding(k: Kind, received: seq<byte>, buffered: seq<byte>, delivered: seq<Message>, extra: nat)
    requires Reassembled(k, received, buffered, delivered, extra)
    ensures !Stuck(k, Rest(k, received)) ==> delivered + Messages(k, buffered) == Messages(k, received)
    ensures !Complete(k, buffered) ==> delivered == Messages(k, received)
  {
    RestIsFinal(k, received);
  }

  // ---- The sender ----

  /** `_post`: header fields are truncated to their width, nothing is checked, and a bson document is its own frame. */
  function Encode(k: Kind, msgid: int, seqno: int, data: seq<byte>): seq<byte> {
    if k == Bson then data
    else
      var id, no := if HasMeta(k) then msgid else 0, if HasMeta(k) then seqno else 0;
      Le(|data|, SizeBytes(k)) + Le(id, MsgidBytes(k)) + Le(no, SeqBytes(k)) + data
  }

  function Sent(k: Kind, msgid: int, seqno: int, data: seq<byte>): Message {
    Message(if HasMeta(k) then Meta(msgid, seqno) else NoMeta, data)
  }

  /** The header can represent the message; a bson document starts with its own length. */
  predicate Sendable(k: Kind, msgid: int, seqno: int, data: seq<byte>) {
    if k == Bson then |data| >= 4 && FromLe(data[..4]) == |data|
    else |data| < Span256(SizeBytes(k)) && (HasMeta(k) ==> Fits(msgid, MsgidBytes(k)) && Fits(seqno, SeqBytes(k)))
  }

  lemma FourParts(a: seq<byte>, b: seq<byte>, c: seq<byte>, d: seq<byte>)
    ensures var s := a + b + c + d; var m := |a| + |b|; var h := m + |c|;
      |s| == h + |d| && s[..|a|] == a && s[|a|..m] == b && s[m..h] == c && s[h..] == d
  {
  }

  /** The header of an encoded message, field by field. */
  lemma EncodedFields(k: Kind, msgid: int, seqno: int, data: seq<byte>)
    requires k != Bson
    ensures var b := Encode(k, msgid, seqno, data);
      var n := SizeBytes(k); var m := n + MsgidBytes(k); var h := HeaderSize(k);
      && |b| == h + |data| && b[h..] == data
      && b[..n] == Le(|data|, n)
      && b[n..m] == Le(if HasMeta(k) then msgid else 0, m - n)
      && b[m..h] == Le(if HasMeta(k) then seqno else 0, h - m)
  {
    var id, no := if HasMeta(k) then msgid else 0, if HasMeta(k) then seqno else 0;
    FourParts(Le(|data|, SizeBytes(k)), Le(id, MsgidBytes(k)), Le(no, SeqBytes(k)), data);
  }

  lemma DataSlice(b: seq<byte>, h: nat, z: nat, data: seq<byte>)
    requires |b| == h + |data| && b[h..] == data && z <= |data|
    ensures b[h..h + z] == data[..z]
  {
    assert b[h..][..z] == b[h..h + z];
  }

  /** What the first frame of an encoded message is: the stored fields, and the data as far as the stored size goes. */
  lemma FirstOfEncoded(k: Kind, msgid: int, seqno: int, data: seq<byte>)
    requires k != Bson
    ensures var b, z := Encode(k, msgid, seqno, data), FromLe(Le(|data|, SizeBytes(k)));
      && |b| == HeaderSize(k) + |data| && FullSize(k, b) == HeaderSize(k) + z
      && (Complete(k, b) <==> z <= |data|)
      && (z <= |data| ==> First(k, b).data == data[..z])
      && (z <= |data| && HasMeta(k) ==>
            First(k, b).meta == Meta(Dec(Le(msgid, MsgidBytes(k))), Dec(Le(seqno, SeqBytes(k)))))
      && (z <= |data| && !HasMeta(k) ==> First(k, b).meta == NoMeta)
  {
    var b, h, z := Encode(k, msgid, seqno, data), HeaderSize(k), FromLe(Le(|data|, SizeBytes(k)));
    EncodedFields(k, msgid, seqno, data);
    if z <= |data| {
      DataSlice(b, h, z, data);
    }
  }

  lemma BsonDecodes(data: seq<byte>)
    ensures Sendable(Bson, 0, 0, data) <==> Complete(Bson, data) && First(Bson, data) == Message(NoMeta, data)
  {
    if Complete(Bson, data) {
      assert |First(Bson, data).data| == FromLe(data[..4]);
    }
    if |data| >= 4 && FromLe(data[..4]) == |data| {
      assert data[0..|data|] == data;
    }
  }

  /** Encoding a message gives a complete frame that decodes to the message exactly when it is sendable. */
  lemma EncodeDecodes(k: Kind, msgid: int, seqno: int, data: seq<byte>)
    ensures var b := Encode(k, msgid, seqno, data);
      Sendable(k, msgid, seqno, data) <==> Complete(k, b) && First(k, b) == Sent(k, msgid, seqno, data)
    ensures var b := Encode(k, msgid, seqno, data);
      Sendable(k, msgid, seqno, data) ==> Decodable(k, b) && FullSize(k, b) == |b|
  {
    if k == Bson {
      BsonDecodes(data);
    } else {
      FirstOfEncoded(k, msgid, seqno, data);
      UnsignedRoundTrip(|data|, SizeBytes(k));
      if HasMeta(k) {
        SignedRoundTrip(msgid, MsgidBytes(k));
        SignedRoundTrip(seqno, SeqBytes(k));
      }
    }
  }

  datatype Post = Post(msgid: int, seqno: int, data: seq<byte>)

  ghost function Stream(k: Kind, posts: seq<Post>): seq<byte> {
    if posts == [] then [] else Encode(k, posts[0].msgid, posts[0].seqno, posts[0].data) + Stream(k, posts[1..])
  }

  ghost function SentAll(k: Kind, posts: seq<Post>): seq<Message> {
    seq(|posts|, i requires 0 <= i < |posts| => Sent(k, posts[i].msgid, posts[i].seqno, posts[i].data))
  }

  lemma SentAllFirst(k: Kind, posts: seq<Post>)
    requires posts != []
    ensures SentAll(k, posts) == [Sent(k, posts[0].msgid, posts[0].seqno, posts[0].data)] + SentAll(k, posts[1..])
  {
  }

  ghost predicate AllSendable(k: Kind, posts: seq<Post>) {
    forall i :: 0 <= i < |posts| ==> Sendable(k, posts[i].msgid, posts[i].seqno, posts[i].data)
  }

  lemma OneMore(k: Kind, p: Post, c: seq<byte>)
    requires Sendable(k, p.msgid, p.seqno, p.data)
    ensures var b := Encode(k, p.msgid, p.seqno, p.data) + c;
      Messages(k, b) == [Sent(k, p.msgid, p.seqno, p.data)] + Messages(k, c) && Rest(k, b) == Rest(k, c)
  {
    var b := Encode(k, p.msgid, p.seqno, p.data);
    EncodeDecodes(k, p.msgid, p.seqno, p.data);
    FirstOfLonger(k, b, c);
    assert (b + c)[|b|..] == c;
  }

  /** The stream of all posts decodes to the posts, with nothing left over. */
  lemma {:induction false} StreamDecodes(k: Kind, posts: seq<Post>)
    requires AllSendable(k, posts)
    ensures Messages(k, Stream(k, posts)) == SentAll(k, posts) && Rest(k, Stream(k, posts)) == []
  {
    if posts != [] {
      var p := posts[0];
      var b := Encode(k, p.msgid, p.seqno, p.data);
      var c := Stream(k, posts[1..]);
      OneMore(k, p, c);
      StreamDecodes(k, posts[1..]);
      SentAllFirst(k, posts);
    }
  }

  /** What the loop does with a receiver. */
  datatype Call = Data(chunk: seq<byte>) | Poll

  ghost function Carried(call: Call): seq<byte> {
    if call.Data? then call.chunk else []
  }

  ghost function Fed(calls: seq<Call>): seq<byte> {
    if calls == [] then [] else Fed(calls[..|calls| - 1]) + Carried(calls[|calls| - 1])
  }

  lemma FedStep(calls: seq<Call>, i: nat)
    requires i < |calls|
    ensures Fed(calls[..i + 1]) == Fed(calls[..i]) + Carried(calls[i])
  {
    assert calls[..i + 1][..i] == calls[..i];
  }

  lemma Assoc<T>(a: seq<T>, b: seq<T>, c: seq<T>)
    ensures (a + b) + c == a + (b + c)
  {
  }

  method Handle(r: TcpFrame, call: Call) returns (out: seq<Message>)
    requires r.Valid()
    modifies r
    ensures r.Valid() && r.received == old(r.received) + Carried(call) && r.delivered == old(r.delivered) + out
  {
    match call
    case Data(c) => out := r.OnData(c);
    case Poll => out := r.Process();
  }

  /** Any calls in any order: what came out is the start of the decoding of what went in. */
  method Drive(r: TcpFrame, calls: seq<Call>) returns (out: seq<Message>)
    requires r.Valid()
    modifies r
    ensures r.Valid() && r.received == old(r.received) + Fed(calls) && r.delivered == old(r.delivered) + out
  {
    out := [];
    for i := 0 to |calls|
      invariant r.Valid()
      invariant r.received == old(r.received) + Fed(calls[..i]) && r.delivered == old(r.delivered) + out
    {
      FedStep(calls, i);
      Assoc(old(r.received), Fed(calls[..i]), Carried(calls[i]));
      var more := Handle(r, calls[i]);
      Assoc(old(r.delivered), out, more);
      out := out + more;
    }
    assert calls[..|calls|] == calls;
  }

  /** The loop polls while Pending is set: it ends unless the stream has an empty frame, with everything delivered. */
  method Drain(r: TcpFrame) returns (out: seq<Message>)
    requires r.Valid() && !Stuck(r.kind, Rest(r.kind, r.received))
    modifies r
    ensures r.Valid() && !r.pending && r.received == old(r.received) && r.delivered == old(r.delivered) + out
    ensures r.delivered == Messages(r.kind, r.received)
  {
    out := [];
    while r.pending
      invariant r.Valid() && r.received == old(r.received) && r.delivered == old(r.delivered) + out
      decreases |r.Buffered()|
    {
      ghost var b := r.Buffered();
      RestOfStuck(r.kind, b);
      var more := r.Process();
      out := out + more;
    }
    DeliveredIsDecoding(r.kind, r.received, r.Buffered(), r.delivered, r.extra);
  }

  /** Any chunks, polled at any time and then until Pending is off: the decoding of all of them. */
  method Receive(k: Kind, maxSize: nat, calls: seq<Call>) returns (out: seq<Message>)
    requires !Stuck(k, Rest(k, Fed(calls)))
    ensures out == Messages(k, Fed(calls))
  {
    var r := new TcpFrame(k, maxSize);
    var early := Drive(r, calls);
    assert r.received == Fed(calls) && r.delivered == early;
    var late := Drain(r);
    out := early + late;
  }

  /** Posts, cut into chunks anywhere and polled at any time, arrive as they were sent. */
  method SendAndReceive(k: Kind, maxSize: nat, posts: seq<Post>, calls: seq<Call>) returns (out: seq<Message>)
    requires AllSendable(k, posts) && Fed(calls) == Stream(k, posts)
    ensures out == SentAll(k, posts)
  {
    StreamDecodes(k, posts);
    out := Receive(k, maxSize, calls);
  }

  /** From an empty frame on every poll delivers another empty message and Pending stays set. */
  method PollStuck(r: TcpFrame, n: nat) returns (out: seq<Message>)
    requires r.Valid() && Stuck(r.kind, r.Buffered())
    modifies r
    ensures r.Valid() && r.pending && out == Empties(n) && r.Buffered() == old(r.Buffered())
  {
    out := [];
    for i := 0 to n
      invariant r.Valid() && r.Buffered() == old(r.Buffered()) && out == Empties(i)
    {
      ghost var b := r.Buffered();
      var more := r.Process();
      assert b[0..] == b;
      assert more == [Message(NoMeta, [])];
      out := out + more;
    }
  }
}
