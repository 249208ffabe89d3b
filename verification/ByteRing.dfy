/**
 * The single-producer single-consumer byte ring (ring.c, and RingT without generations in
 * cppring.h) as a class over an array, refining a FIFO queue of byte strings.
 */
module ByteRing {
  import opened Bytes
  import opened Common
  import opened RingLayout

  ghost function Payloads(recs: seq<Rec>): (q: seq<seq<byte>>)
    ensures |q| == |recs|
  {
    if recs == [] then [] else [recs[0].bytes] + Payloads(recs[1..])
  }

  lemma PayloadsShift(recs: seq<Rec>, first: nat)
    requires first < |recs|
    ensures Payloads(recs[first..]) == [recs[first].bytes] + Payloads(recs[first + 1..])
  {
    assert recs[first..][1..] == recs[first + 1..];
  }

  lemma {:induction false} PayloadsAppend(recs: seq<Rec>, first: nat, r: Rec)
    requires first <= |recs|
    ensures Payloads((recs + [r])[first..]) == Payloads(recs[first..]) + [r.bytes]
    decreases |recs| - first
  {
    if first == |recs| {
      assert (recs + [r])[first..] == [r];
    } else {
      PayloadsAppend(recs, first + 1, r);
      PayloadsShift(recs, first);
      PayloadsShift(recs + [r], first);
    }
  }

  lemma MarkerAndSizeDecode(n: nat)
    requires n < 0x8000_0000
    ensures Fits(-1, 4) && Dec(Le(-1, 4)) == -1
    ensures Fits(n, 4) && Dec(Le(n, 4)) == n
  {
    Span256Values();
    SignedRoundTrip(-1, 4);
    SignedRoundTrip(n, 4);
  }

  /** The offsets of the two pointers agree with the history. */
  ghost predicate Good(m: seq<byte>, recs: seq<Rec>, first: nat, head: nat, tail: nat) {
    && Layout(m, recs, first)
    && head == Entry(|m|, recs, first).off
    && tail == Entry(|m|, recs, |recs|).off
    && head < |m| && tail < |m|
  }

  lemma GoodShift(m: seq<byte>, recs: seq<Rec>, first: nat, head: nat, tail: nat)
    requires Good(m, recs, first, head, tail)
    ensures head == tail <==> first == |recs|
    ensures head % 8 == 0 && tail % 8 == 0
    ensures first < |recs| ==>
              var r := recs[first];
              && RecordAt(m, r.start.off, r.bytes)
              && Good(m, recs, first + 1, WrapSize(r.start.off + Footprint(|r.bytes|), |m|), tail)
  {
    EntryInRange(|m|, recs, first);
    EntryInRange(|m|, recs, |recs|);
    if first < |recs| {
      ShiftKeepsLayout(m, recs, first);
      ReaderSees(m, recs, first, first);
      EntryInRange(|m|, recs, first + 1);
    }
  }

  lemma GoodRoom(m: seq<byte>, recs: seq<Rec>, first: nat, head: nat, tail: nat, n: nat)
    requires Good(m, recs, first, head, tail)
    requires WriteBegin(|m|, head, tail, n).At?
    ensures var off := WriteBegin(|m|, head, tail, n).off;
            && (off == 0 || off == tail) && off + HEADER + n <= |m|
            && tail + HEADER <= |m| && (tail != 0 ==> HEADER <= tail)
            && Fits(-1, 4) && Fits(n, 4)
  {
    AcceptedIsFree(|m|, recs, first, seq(n, _ => 0));
    MarkerAndSizeDecode(n);
    EntryInRange(|m|, recs, |recs|);
  }

  lemma GoodCopy(m: seq<byte>, m': seq<byte>, recs: seq<Rec>, first: nat, head: nat, tail: nat, n: nat)
    requires Good(m, recs, first, head, tail) && |m'| == |m|
    requires WriteBegin(|m|, head, tail, n).At?
    requires var base := WriteBegin(|m|, head, tail, n).off + HEADER;
             forall x :: 0 <= x < |m| && !(base <= x < base + n) ==> m'[x] == m[x]
    ensures Good(m', recs, first, head, tail)
  {
    AcceptedIsFree(|m|, recs, first, seq(n, _ => 0));
    FreeStoresKeepLayout(m, m', recs, first);
  }

  lemma GoodPublish(m: seq<byte>, m': seq<byte>, recs: seq<Rec>, first: nat, head: nat, tail: nat, off: nat,
                    bytes: seq<byte>)
    requires Good(m, recs, first, head, tail) && |m'| == |m|
    requires WriteBegin(|m|, head, tail, |bytes|) == At(off)
    requires off + HEADER + |bytes| <= |m| && m[off + HEADER..off + HEADER + |bytes|] == bytes
    requires SizeAt(m', off, |bytes|) && (off == 0 && tail != 0 ==> SizeAt(m', tail, -1))
    requires forall x :: 0 <= x < |m| && !(off <= x < off + HEADER) && !(tail <= x < tail + HEADER) ==> m'[x] == m[x]
    ensures Good(m', recs + [NewRec(|m|, recs, off, bytes)], first, head, WrapSize(off + Footprint(|bytes|), |m|))
  {
    WriteEndLayout(m, m', recs, first, off, bytes);
    EntryInRange(|m|, recs + [NewRec(|m|, recs, off, bytes)], |recs| + 1);
  }

  class Ring {
    const size: nat
    const data: array<byte>
    var head: nat
    var tail: nat
    var generationPre: nat
    var generationPost: nat
    /** Every record ever accepted; the live ones are those from `generationPre` on. */
    ghost var recs: seq<Rec>

    ghost predicate Valid()
      reads this, data
    {
      && data.Length == size
      && generationPre == generationPost
      && Good(data[..], recs, generationPre, head, tail)
    }

    /** The queue this ring stands for. */
    ghost function Queue(): seq<seq<byte>>
      reads this, data
      requires Valid()
    {
      Payloads(recs[generationPre..])
    }

    constructor (size: nat)
      requires ValidSize(size)
      ensures Valid() && fresh(data)
      ensures this.size == size && Queue() == [] && recs == []
    {
      this.size := size;
      data := new byte[size];
      head, tail := 0, 0;
      generationPre, generationPost := 0, 0;
      recs := [];
    }

    /** The ring is empty exactly when its two offsets meet, and both stay aligned. */
    lemma EmptyWhenOffsetsMeet()
      requires Valid()
      ensures head == tail <==> Queue() == []
      ensures head % 8 == 0 && tail % 8 == 0
    {
      GoodShift(data[..], recs, generationPre, head, tail);
    }

    method StoreSize(off: nat, v: int)
      requires off + HEADER <= data.Length && Fits(v, 4)
      modifies data
      ensures SizeAt(data[..], off, v)
      ensures forall x :: 0 <= x < data.Length && !(off <= x < off + HEADER) ==> data[x] == old(data[x])
    {
      var s := Le(v, 4);
      for i := 0 to 4
        invariant forall x :: 0 <= x < i ==> data[off + x] == s[x]
        invariant forall x :: 0 <= x < data.Length && !(off <= x < off + HEADER) ==> data[x] == old(data[x])
      {
        data[off + i] := s[i];
      }
      SignedRoundTrip(v, 4);
      assert data[..][off..off + HEADER] == s;
    }

    method LoadSize(off: nat) returns (v: int)
      requires off + HEADER <= data.Length
      ensures SizeAt(data[..], off, v)
    {
      v := Dec(data[off..off + HEADER]);
      assert data[..][off..off + HEADER] == data[off..off + HEADER];
    }

    /** The two stores of `ring_write_end`: through offset 0 the marker goes to the old tail first. */
    method StoreHeaders(off: nat, n: nat) returns (t: nat)
      requires off + HEADER <= data.Length && tail + HEADER <= data.Length && Fits(-1, 4) && Fits(n, 4)
      requires off == 0 || off == tail
      requires off == 0 && tail != 0 ==> HEADER <= tail
      modifies data
      ensures t == off && SizeAt(data[..], off, n)
      ensures off == 0 && tail != 0 ==> SizeAt(data[..], tail, -1)
      ensures forall x :: 0 <= x < data.Length && !(off <= x < off + HEADER) && !(tail <= x < tail + HEADER)
                ==> data[x] == old(data[x])
    {
      t := tail;
      if off == 0 {
        StoreSize(t, -1);
        t := 0;
      }
      ghost var m := data[..];
      StoreSize(t, n);
      if off == 0 && tail != 0 {
        assert data[..][tail..tail + HEADER] == m[tail..tail + HEADER];
      }
    }

    /** `ring_write_end`: marker, size, tail.  The payload is already in place behind `off`. */
    method WriteEnd(off: nat, n: nat)
      requires Valid()
      requires WriteBegin(size, head, tail, n) == At(off)
      requires off + HEADER + n <= size
      modifies this`tail, this`recs, data
      ensures Valid()
      ensures recs == old(recs) + [NewRec(size, old(recs), off, old(data[off + HEADER..off + HEADER + n]))]
    {
      ghost var payload := data[off + HEADER..off + HEADER + n];
      ghost var m := data[..];
      assert m[off + HEADER..off + HEADER + n] == payload;
      GoodRoom(m, recs, generationPre, head, tail, n);
      var t := StoreHeaders(off, n);
      ghost var m' := data[..];
      GoodPublish(m, m', recs, generationPre, head, tail, off, payload);
      recs := recs + [NewRec(size, recs, off, payload)];
      tail := WrapSize(t + Footprint(n), size);
      assert data[..] == m';
    }

    method CopyIn(base: nat, payload: seq<byte>)
      requires base + |payload| <= data.Length
      modifies data
      ensures data[base..base + |payload|] == payload
      ensures forall x :: 0 <= x < data.Length && !(base <= x < base + |payload|) ==> data[x] == old(data[x])
    {
      for i := 0 to |payload|
        invariant forall x :: 0 <= x < i ==> data[base + x] == payload[x]
        invariant forall x :: 0 <= x < data.Length && !(base <= x < base + |payload|) ==> data[x] == old(data[x])
      {
        data[base + i] := payload[i];
      }
    }

    /** `ring_write`: reserve, copy, publish. */
    method Write(payload: seq<byte>) returns (r: Begin)
      requires Valid()
      modifies this`tail, this`recs, data
      ensures Valid()
      ensures r == WriteBegin(size, old(head), old(tail), |payload|)
      ensures r.At? ==>
                Queue() == old(Queue()) + [payload] && |recs| == |old(recs)| + 1 && old(recs) == recs[..|old(recs)|]
      ensures !r.At? ==> unchanged(this) && data[..] == old(data[..])
    {
      r := WriteBegin(size, head, tail, |payload|);
      if !r.At? {
        return;
      }
      ghost var m := data[..];
      GoodRoom(m, recs, generationPre, head, tail, |payload|);
      CopyIn(r.off + HEADER, payload);
      GoodCopy(m, data[..], recs, generationPre, head, tail, |payload|);
      PayloadsAppend(recs, generationPre, NewRec(size, recs, r.off, payload));
      WriteEnd(r.off, |payload|);
    }

    /** `_ring_read_at`: the offset of the record a reader at `offset` sees, through at most one marker. */
    method ReadAt(offset: nat, ghost i: nat) returns (at: Option<nat>)
      requires Valid()
      requires generationPre <= i <= |recs| && offset == Entry(size, recs, i).off
      ensures at.None? <==> i == |recs|
      ensures at.Some? ==> at.value == recs[i].start.off
    {
      if i < |recs| {
        ReaderSees(data[..], recs, generationPre, i);
      }
      if offset == tail {
        return None;
      }
      var sz := LoadSize(offset);
      if sz >= 0 {
        return Some(offset);
      }
      // behind the marker: the same test once more, from offset 0
      assert tail != 0;
      var sz0 := LoadSize(0);
      assert sz0 >= 0;
      at := Some(0);
    }

    /** `ring_read`: the oldest record, left in place. */
    method Read() returns (r: Option<seq<byte>>)
      requires Valid()
      ensures r == if Queue() == [] then None else Some(Queue()[0])
    {
      var at := ReadAt(head, generationPre);
      if at.None? {
        return None;
      }
      PayloadsShift(recs, generationPre);
      assert RecordAt(data[..], at.value, recs[generationPre].bytes) by {
        ReaderSees(data[..], recs, generationPre, generationPre);
      }
      var n := LoadSize(at.value);
      assert data[..][at.value + HEADER..at.value + HEADER + n] == data[at.value + HEADER..at.value + HEADER + n];
      r := Some(data[at.value + HEADER..at.value + HEADER + n]);
    }

    /** `ring_shift`: drop the oldest record; the generations count the drops. */
    method Shift() returns (ok: bool)
      requires Valid()
      modifies this`head, this`generationPre, this`generationPost
      ensures Valid()
      ensures ok == (old(Queue()) != [])
      ensures Queue() == if ok then old(Queue())[1..] else old(Queue())
      ensures generationPre == old(generationPre) + (if ok then 1 else 0)
    {
      ghost var m := data[..];
      GoodShift(m, recs, generationPre, head, tail);
      if head == tail {
        return false;
      }
      PayloadsShift(recs, generationPre);
      var at := ReadAt(head, generationPre);
      var n := LoadSize(at.value);
      generationPre := generationPre + 1;
      head := WrapSize(at.value + Footprint(n), size);
      generationPost := generationPre;
      ok := true;
      assert data[..] == m;
    }

    /**
     * `ring_available`: a payload size that the next write is sure to accept, ERANGE aside, and no
     * more than 12 bytes short.
     */
    method Available() returns (n: nat)
      requires Valid()
      ensures forall k: nat :: k <= n && n > 0 && 2 * Footprint(k) <= size ==> WriteBegin(size, head, tail, k).At?
      ensures forall k: nat :: WriteBegin(size, head, tail, k).At? ==> k <= n + 12
    {
      var avail: int;
      if tail < head {
        avail := head - tail;
      } else {
        avail := if head > size - tail then head else size - tail;
      }
      n := if avail - 16 > 0 then avail - 16 else 0;
    }
  }
}
