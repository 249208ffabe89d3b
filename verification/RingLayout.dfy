/**
 * The memory layout shared by the C ring and the C++ ring: variable-size records behind a
 * four-byte size, eight-byte aligned, with a size of -1 marking "continue at offset 0".
 *
 * Every record ever written is kept in a history.  A position is a lap around the buffer
 * together with an offset, so that positions only ever grow and the bytes in use are the
 * positions from the head to the tail, less than one full lap.
 */
module RingLayout {
  import opened Bytes

  const HEADER: nat := 4

  /** `x + (-x & 7)` of the source; Dafny's remainder is never negative. */
  function Aligned(x: nat): (r: nat)
    ensures x <= r < x + 8
  {
    x + (0 - x) % 8
  }

  /** The source's `wrap_size`: at most one subtraction, not a remainder. */
  function WrapSize(off: nat, size: nat): nat {
    if off >= size then off - size else off
  }

  lemma AlignedMultiple(x: nat)
    ensures Aligned(x) % 8 == 0
  {
  }

  /** Bytes a record of `n` payload bytes takes up. */
  function Footprint(n: nat): (r: nat)
    ensures 8 <= r < n + HEADER + 8 && n + HEADER <= r
  {
    AlignedMultiple(n + HEADER);
    Aligned(n + HEADER)
  }

  /** The marker of four bytes is written at the tail, which is a multiple of eight below `size`. */
  predicate MarkerFits(size: nat) {
    size % 8 == 0 || size % 8 >= 4
  }

  predicate ValidSize(size: nat) {
    MarkerFits(size) && 0 < size < 0x1_0000_0000
  }

  datatype Begin = TooLarge | Again | At(off: nat)

  /** `write_begin`: where the record of `n` bytes goes, or ERANGE, or EAGAIN. */
  function WriteBegin(size: nat, head: nat, tail: nat, n: nat): Begin
    requires head < size && tail < size
  {
    var a := Footprint(n);
    if 2 * a > size then TooLarge
    else
      var free := WrapSize(size + head - tail - 1, size) + 1;
      if free <= a then Again
      else if tail + a > size then (if head <= a then Again else At(0))
      else At(tail)
  }

  // ----- positions and the history of records

  datatype Pos = Pos(lap: nat, off: nat)

  predicate AtMost(p: Pos, q: Pos) {
    p.lap < q.lap || (p.lap == q.lap && p.off <= q.off)
  }

  /** `entry` is where a reader that consumed everything before stands; the record itself is
      there or, behind a marker, at the start of the next lap. */
  datatype Rec = Rec(entry: Pos, start: Pos, bytes: seq<byte>) {
    function Len(): (r: nat)
      ensures r >= 8 && r >= |bytes| + HEADER
    {
      Footprint(|bytes|)
    }
  }

  function After(size: nat, r: Rec): Pos {
    if r.start.off + r.Len() == size then Pos(r.start.lap + 1, 0) else Pos(r.start.lap, r.start.off + r.Len())
  }

  ghost predicate WellPlaced(size: nat, r: Rec) {
    && r.entry.off < size
    && r.entry.off % 8 == 0
    && (r.start == r.entry || (r.start == Pos(r.entry.lap + 1, 0) && r.entry.off > 0))
    && r.start.off + r.Len() <= size
    && 2 * r.Len() <= size
  }

  /** The position where a reader of record `i` stands; for `i == |recs|`, the tail. */
  function Entry(size: nat, recs: seq<Rec>, i: nat): Pos
    requires i <= |recs|
  {
    if i == 0 then Pos(0, 0) else After(size, recs[i - 1])
  }

  ghost predicate Before(size: nat, r: Rec, s: Rec) {
    AtMost(After(size, r), s.entry)
  }

  ghost predicate Chained(size: nat, recs: seq<Rec>) {
    && (forall i {:trigger WellPlaced(size, recs[i])} :: 0 <= i < |recs| ==> WellPlaced(size, recs[i]))
    && (forall i {:trigger Entry(size, recs, i)} :: 0 <= i < |recs| ==> recs[i].entry == Entry(size, recs, i))
    && (forall i, j :: 0 <= i < j < |recs| ==> Before(size, recs[i], recs[j]))
  }

  /** Less than one lap between the oldest live record and the tail. */
  ghost predicate Window(head: Pos, tail: Pos) {
    || (tail.lap == head.lap && head.off <= tail.off)
    || (tail.lap == head.lap + 1 && tail.off < head.off)
  }

  /** Offset `x` belongs to no live byte. */
  ghost predicate Free(head: Pos, tail: Pos, x: int) {
    if tail.lap == head.lap then x >= tail.off || x < head.off else tail.off <= x < head.off
  }

  // ----- memory

  ghost predicate SizeAt(m: seq<byte>, off: nat, v: int) {
    off + HEADER <= |m| && Dec(m[off..off + HEADER]) == v
  }

  ghost predicate RecordAt(m: seq<byte>, off: nat, bytes: seq<byte>) {
    && off + HEADER + |bytes| <= |m|
    && SizeAt(m, off, |bytes|)
    && m[off + HEADER..off + HEADER + |bytes|] == bytes
  }

  ghost predicate InMemory(m: seq<byte>, r: Rec) {
    && RecordAt(m, r.start.off, r.bytes)
    && (r.start != r.entry ==> SizeAt(m, r.entry.off, -1))
  }

  /** Everything about the ring's bytes at a moment when records `first..` are live. */
  ghost predicate Layout(m: seq<byte>, recs: seq<Rec>, first: nat) {
    && ValidSize(|m|)
    && first <= |recs|
    && Chained(|m|, recs)
    && Window(Entry(|m|, recs, first), Entry(|m|, recs, |recs|))
    && forall i {:trigger InMemory(m, recs[i])} :: first <= i < |recs| ==> InMemory(m, recs[i])
  }

  // ----- geometry

  lemma EntryInRange(size: nat, recs: seq<Rec>, i: nat)
    requires size > 0 && Chained(size, recs) && i <= |recs|
    ensures Entry(size, recs, i).off < size && Entry(size, recs, i).off % 8 == 0
  {
    if i > 0 {
      var r := recs[i - 1];
      assert WellPlaced(size, r);
      AlignedMultiple(|r.bytes| + HEADER);
    }
  }

  lemma EntriesOrdered(size: nat, recs: seq<Rec>, i: nat, j: nat)
    requires Chained(size, recs) && i < j <= |recs|
    ensures AtMost(After(size, recs[i]), Entry(size, recs, j))
  {
    assert WellPlaced(size, recs[j - 1]);
    if i < j - 1 {
      assert Before(size, recs[i], recs[j - 1]);
    }
  }

  /** No byte of a live record, nor its marker, is free. */
  lemma LiveIsNotFree(size: nat, recs: seq<Rec>, first: nat, i: nat)
    requires ValidSize(size) && first <= i < |recs| && Chained(size, recs)
    requires Window(Entry(size, recs, first), Entry(size, recs, |recs|))
    ensures var h, t := Entry(size, recs, first), Entry(size, recs, |recs|); var r := recs[i];
            && (forall x :: r.start.off <= x < r.start.off + r.Len() ==> !Free(h, t, x))
            && (r.start != r.entry ==> forall x :: r.entry.off <= x < r.entry.off + HEADER ==> !Free(h, t, x))
  {
    EntriesOrdered(size, recs, i, |recs|);
    assert WellPlaced(size, recs[i]) && recs[i].entry == Entry(size, recs, i);
    if first < i {
      EntriesOrdered(size, recs, first, i);
      assert WellPlaced(size, recs[first]) && recs[first].entry == Entry(size, recs, first);
    }
  }

  /** The reader of a live record does not stand at the tail, and neither does offset 0 behind a marker. */
  lemma LiveIsNotTail(size: nat, recs: seq<Rec>, first: nat, i: nat)
    requires ValidSize(size) && first <= i < |recs| && Chained(size, recs)
    requires Window(Entry(size, recs, first), Entry(size, recs, |recs|))
    ensures recs[i].entry.off != Entry(size, recs, |recs|).off
    ensures recs[i].start.off != Entry(size, recs, |recs|).off
  {
    EntriesOrdered(size, recs, i, |recs|);
    assert WellPlaced(size, recs[i]) && recs[i].entry == Entry(size, recs, i);
    if first < i {
      EntriesOrdered(size, recs, first, i);
      assert WellPlaced(size, recs[first]) && recs[first].entry == Entry(size, recs, first);
    }
  }

  // ----- changing memory

  lemma SameBytes(m: seq<byte>, m': seq<byte>, r: Rec)
    requires |m'| == |m| && InMemory(m, r)
    requires forall x :: r.start.off <= x < r.start.off + HEADER + |r.bytes| ==> m'[x] == m[x]
    requires r.start != r.entry ==> forall x :: r.entry.off <= x < r.entry.off + HEADER ==> m'[x] == m[x]
    ensures InMemory(m', r)
  {
    var a := r.start.off;
    assert m'[a..a + HEADER] == m[a..a + HEADER];
    assert m'[a + HEADER..a + HEADER + |r.bytes|] == m[a + HEADER..a + HEADER + |r.bytes|];
    if r.start != r.entry {
      assert m'[r.entry.off..r.entry.off + HEADER] == m[r.entry.off..r.entry.off + HEADER];
    }
  }

  /** Stores that touch only free offsets keep the layout. */
  lemma FreeStoresKeepLayout(m: seq<byte>, m': seq<byte>, recs: seq<Rec>, first: nat)
    requires Layout(m, recs, first) && |m'| == |m|
    requires var h, t := Entry(|m|, recs, first), Entry(|m|, recs, |recs|);
             forall x :: 0 <= x < |m| && !Free(h, t, x) ==> m'[x] == m[x]
    ensures Layout(m', recs, first)
  {
    forall i | first <= i < |recs|
      ensures InMemory(m', recs[i])
    {
      LiveIsNotFree(|m|, recs, first, i);
      assert InMemory(m, recs[i]);
      SameBytes(m, m', recs[i]);
    }
  }

  /** The record that an accepted `write_begin` is about to append. */
  function NewRec(size: nat, recs: seq<Rec>, off: nat, bytes: seq<byte>): Rec {
    var t := Entry(size, recs, |recs|);
    if off == t.off then Rec(t, t, bytes) else Rec(t, Pos(t.lap + 1, 0), bytes)
  }

  lemma MarkerInRange(size: nat, off: nat)
    requires MarkerFits(size) && off < size && off % 8 == 0
    ensures off + HEADER <= size
  {
  }

  lemma AcceptedOffset(size: nat, h: Pos, t: Pos, n: nat)
    requires Window(h, t) && h.off < size && t.off < size
    requires WriteBegin(size, h.off, t.off, n).At?
    ensures var off := WriteBegin(size, h.off, t.off, n).off; var a := Footprint(n);
            && 2 * a <= size && off + a <= size
            && (off == t.off || (off == 0 && off + a < h.off <= t.off && t.lap == h.lap && t.off + a > size))
            && (off == t.off && t.lap != h.lap ==> off + a < h.off)
            && (t.off == 0 && off == 0 ==> t.off + a <= size)
  {
  }

  /** What `write_begin` hands out is free, all of it, and so is the place of the marker. */
  lemma AcceptedIsFree(size: nat, recs: seq<Rec>, first: nat, bytes: seq<byte>)
    requires ValidSize(size) && first <= |recs| && Chained(size, recs)
    requires Window(Entry(size, recs, first), Entry(size, recs, |recs|))
    requires Entry(size, recs, first).off < size && Entry(size, recs, |recs|).off < size
    requires WriteBegin(size, Entry(size, recs, first).off, Entry(size, recs, |recs|).off, |bytes|).At?
    ensures var h, t := Entry(size, recs, first), Entry(size, recs, |recs|);
            var off := WriteBegin(size, h.off, t.off, |bytes|).off;
            var r := NewRec(size, recs, off, bytes);
            && WellPlaced(size, r) && r.start.off == off
            && t.off + HEADER <= size
            && (forall x :: off <= x < off + r.Len() ==> Free(h, t, x))
            && (forall x :: t.off <= x < t.off + HEADER ==> Free(h, t, x))
            && (r.start != r.entry ==> off + r.Len() <= t.off)
            && Window(h, After(size, r))
  {
    EntryInRange(size, recs, |recs|);
    var h, t := Entry(size, recs, first), Entry(size, recs, |recs|);
    MarkerInRange(size, t.off);
    AcceptedOffset(size, h, t, |bytes|);
  }

  /** Publishing the finished record extends the layout by it. */
  lemma {:induction false} AppendKeepsLayout(m: seq<byte>, recs: seq<Rec>, first: nat, r: Rec)
    requires Layout(m, recs, first)
    requires WellPlaced(|m|, r) && r.entry == Entry(|m|, recs, |recs|) && InMemory(m, r)
    requires Window(Entry(|m|, recs, first), After(|m|, r))
    ensures Layout(m, recs + [r], first)
  {
    var recs' := recs + [r];
    forall i | 0 <= i < |recs'|
      ensures WellPlaced(|m|, recs'[i])
    {
      if i < |recs| {
        assert WellPlaced(|m|, recs[i]);
      }
    }
    forall i | first <= i < |recs'|
      ensures InMemory(m, recs'[i])
    {
      if i < |recs| {
        assert InMemory(m, recs[i]);
      }
    }
    forall i | 0 <= i < |recs'|
      ensures recs'[i].entry == Entry(|m|, recs', i)
    {
      if i < |recs| {
        assert recs[i].entry == Entry(|m|, recs, i);
      }
    }
    forall i, j | 0 <= i < j < |recs'|
      ensures Before(|m|, recs'[i], recs'[j])
    {
      if j < |recs| {
        assert Before(|m|, recs[i], recs[j]);
      } else {
        EntriesOrdered(|m|, recs, i, |recs|);
      }
    }
    assert Entry(|m|, recs', first) == Entry(|m|, recs, first);
    assert Entry(|m|, recs', |recs'|) == After(|m|, r);
  }

  /** Evicting the oldest record keeps the layout of the others. */
  lemma ShiftKeepsLayout(m: seq<byte>, recs: seq<Rec>, first: nat)
    requires Layout(m, recs, first) && first < |recs|
    ensures Layout(m, recs, first + 1) && InMemory(m, recs[first])
    ensures Entry(|m|, recs, first) == recs[first].entry
    ensures recs[first].entry.off != Entry(|m|, recs, |recs|).off
  {
    LiveIsNotTail(|m|, recs, first, first);
    EntriesOrdered(|m|, recs, first, |recs|);
    assert WellPlaced(|m|, recs[first]) && InMemory(m, recs[first]);
    if first + 1 < |recs| {
      EntriesOrdered(|m|, recs, first + 1, |recs|);
    }
  }

  /** What the size field under a reader of live record `i` says: the record, or a marker and then the record. */
  lemma ReaderSees(m: seq<byte>, recs: seq<Rec>, first: nat, i: nat)
    requires Layout(m, recs, first) && first <= i < |recs|
    ensures var e, r, tail := Entry(|m|, recs, i).off, recs[i], Entry(|m|, recs, |recs|).off;
            && e == r.entry.off && e != tail && r.start.off != tail
            && e + HEADER <= |m| && RecordAt(m, r.start.off, r.bytes)
            && (if Dec(m[e..e + HEADER]) >= 0 then r.start.off == e else r.start.off == 0)
            && WrapSize(r.start.off + Footprint(|r.bytes|), |m|) == Entry(|m|, recs, i + 1).off
  {
    LiveIsNotTail(|m|, recs, first, i);
    EntryInRange(|m|, recs, i);
    MarkerInRange(|m|, Entry(|m|, recs, i).off);
    assert WellPlaced(|m|, recs[i]) && InMemory(m, recs[i]) && recs[i].entry == Entry(|m|, recs, i);
  }

  /** The stores of `write_end`, after the payload is in place, append the record. */
  lemma WriteEndLayout(m: seq<byte>, m': seq<byte>, recs: seq<Rec>, first: nat, off: nat, bytes: seq<byte>)
    requires Layout(m, recs, first) && |m'| == |m|
    requires Entry(|m|, recs, first).off < |m| && Entry(|m|, recs, |recs|).off < |m|
    requires WriteBegin(|m|, Entry(|m|, recs, first).off, Entry(|m|, recs, |recs|).off, |bytes|) == At(off)
    requires off + HEADER + |bytes| <= |m| && m[off + HEADER..off + HEADER + |bytes|] == bytes
    requires SizeAt(m', off, |bytes|)
    requires var t := Entry(|m|, recs, |recs|).off;
             && (off == 0 && t != 0 ==> SizeAt(m', t, -1))
             && forall x :: 0 <= x < |m| && !(off <= x < off + HEADER) && !(t <= x < t + HEADER) ==> m'[x] == m[x]
    ensures Layout(m', recs + [NewRec(|m|, recs, off, bytes)], first)
    ensures var after := recs + [NewRec(|m|, recs, off, bytes)];
            Entry(|m|, after, |recs| + 1).off == WrapSize(off + Footprint(|bytes|), |m|)
    ensures Entry(|m|, recs + [NewRec(|m|, recs, off, bytes)], first) == Entry(|m|, recs, first)
  {
    var r := NewRec(|m|, recs, off, bytes);
    AcceptedIsFree(|m|, recs, first, bytes);
    FreeStoresKeepLayout(m, m', recs, first);
    assert m'[off + HEADER..off + HEADER + |bytes|] == bytes;
    assert InMemory(m', r);
    AppendKeepsLayout(m', recs, first, r);
  }
}
