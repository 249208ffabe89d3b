/** The publisher of pub+mem: evict the oldest records until the new one fits. */
module MemPub {
  import opened Bytes
  import opened RingLayout
  import opened ByteRing

  /** sizeof(Frame): an eight-byte seq, a four-byte msgid and four bytes of padding. */
  const FRAME: nat := 16

  function RecordSize(data: seq<byte>): nat {
    FRAME + |data|
  }

  /** The padding is never stored by the source: it is whatever the ring held before. */
  function FrameBytes(seqno: int, msgid: int, padding: seq<byte>, data: seq<byte>): seq<byte>
    requires Fits(seqno, 8) && Fits(msgid, 4) && |padding| == 4
  {
    Le(seqno, 8) + Le(msgid, 4) + padding + data
  }

  /** An empty ring accepts, wherever its offsets are, every record of at most half its size. */
  lemma EmptyAccepts(size: nat, at: nat, n: nat)
    requires at < size
    ensures WriteBegin(size, at, at, n).At? <==> 2 * Footprint(n) <= size
  {
  }

  /** The record of a message of `n` bytes takes at most half the ring. */
  predicate Placeable(size: nat, n: nat) {
    2 * Footprint(FRAME + n) <= size
  }

  /** The size check of `_post` admits only records the eviction loop can place, exactly for these sizes. */
  lemma NeverStuck(size: nat)
    ensures (forall n: nat :: n <= size / 4 ==> Placeable(size, n)) <==> size >= 96 || 80 <= size < 84
  {
    if forall n: nat :: n <= size / 4 ==> Placeable(size, n) {
      assert Placeable(size, size / 4);
      AlignedMultiple(FRAME + size / 4 + HEADER);
    }
    if size >= 96 || 80 <= size < 84 {
      forall n: nat | n <= size / 4
        ensures Placeable(size, n)
      {
        AlignedMultiple(FRAME + n + HEADER);
      }
    }
  }

  /** Outside that condition the loop has no exit: every reservation answers ERANGE, whatever is evicted. */
  lemma StuckForever(size: nat, head: nat, tail: nat, n: nat)
    requires head < size && tail < size
    ensures WriteBegin(size, head, tail, n).TooLarge? <==> 2 * Footprint(n) > size
  {
  }

  /**
   * A ring whose size leaves 1, 2 or 3 bytes after the last aligned offset: posting and consuming
   * four-byte records one by one walks the tail to that offset, where the marker runs past the end.
   */
  lemma MarkerOverruns(size: nat)
    requires size >= 16 && !MarkerFits(size)
    ensures forall k: nat :: k < size / 8 ==>
              WriteBegin(size, 8 * k, 8 * k, 4) == At(8 * k) && WrapSize(8 * k + Footprint(4), size) == 8 * (k + 1)
    ensures WriteBegin(size, 8 * (size / 8), 8 * (size / 8), 4) == At(0)
    ensures 8 * (size / 8) + HEADER > size
  {
    assert Footprint(4) == 8;
  }

  /** With records `i..` live, the reservation of `n` bytes is refused for now. */
  ghost predicate Refused(size: nat, recs: seq<Rec>, i: nat, n: nat) {
    && i <= |recs| && Entry(size, recs, i).off < size && Entry(size, recs, |recs|).off < size
    && WriteBegin(size, Entry(size, recs, i).off, Entry(size, recs, |recs|).off, n).Again?
  }

  datatype Outcome = Posted(evicted: nat) | TooLong

  class Publisher {
    const ring: Ring

    constructor (ring: Ring)
      ensures this.ring == ring
    {
      this.ring := ring;
    }

    /** The loop `while (write_begin(...)) shift();`: it evicts the oldest records, and none that need not go. */
    method EvictUntilFits(n: nat) returns (evicted: nat)
      requires ring.Valid() && 2 * Footprint(n) <= ring.size
      modifies ring`head, ring`generationPre, ring`generationPost
      ensures ring.Valid()
      ensures WriteBegin(ring.size, ring.head, ring.tail, n).At?
      ensures evicted <= |old(ring.Queue())| && ring.Queue() == old(ring.Queue())[evicted..]
      ensures ring.generationPre == old(ring.generationPre) + evicted
      ensures forall i :: old(ring.generationPre) <= i < ring.generationPre ==> Refused(ring.size, ring.recs, i, n)
    {
      evicted := 0;
      while !WriteBegin(ring.size, ring.head, ring.tail, n).At?
        invariant ring.Valid()
        invariant evicted <= |old(ring.Queue())| && ring.Queue() == old(ring.Queue())[evicted..]
        invariant ring.generationPre == old(ring.generationPre) + evicted
        invariant forall i :: old(ring.generationPre) <= i < ring.generationPre ==> Refused(ring.size, ring.recs, i, n)
        decreases |old(ring.Queue())| - evicted
      {
        assert ring.Queue() != [] by {
          ring.EmptyWhenOffsetsMeet();
          EmptyAccepts(ring.size, ring.tail, n);
        }
        assert Refused(ring.size, ring.recs, ring.generationPre, n) by {
          StuckForever(ring.size, ring.head, ring.tail, n);
        }
        var ok := ring.Shift();
        assert old(ring.Queue())[evicted..][1..] == old(ring.Queue())[evicted + 1..];
        evicted := evicted + 1;
      }
    }

    /** `MemPub::_post`.  It returns for every message whose record takes at most half the ring. */
    method Post(seqno: int, msgid: int, padding: seq<byte>, data: seq<byte>) returns (r: Outcome)
      requires ring.Valid()
      requires Fits(seqno, 8) && Fits(msgid, 4) && |padding| == 4
      requires |data| <= ring.size / 4 ==> Placeable(ring.size, |data|)
      modifies ring, ring.data
      ensures ring.Valid()
      ensures r.TooLong? <==> |data| > ring.size / 4
      ensures r.TooLong? ==> unchanged(ring) && ring.data[..] == old(ring.data[..])
      ensures r.Posted? ==>
                && r.evicted <= |old(ring.Queue())|
                && ring.Queue() == old(ring.Queue())[r.evicted..] + [FrameBytes(seqno, msgid, padding, data)]
                && ring.generationPre == old(ring.generationPre) + r.evicted
      ensures r.Posted? ==>
                forall i :: old(ring.generationPre) <= i < ring.generationPre ==>
                  Refused(ring.size, old(ring.recs), i, RecordSize(data))
    {
      if |data| > ring.size / 4 {
        return TooLong;
      }
      var frame := FrameBytes(seqno, msgid, padding, data);
      assert |frame| == FRAME + |data|;
      var evicted := EvictUntilFits(RecordSize(data));
      var at := ring.Write(frame);
      r := Posted(evicted);
    }
  }
}
