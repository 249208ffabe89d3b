/**
 * The on-disk format of the file channel without compression (file.h, file.cc): frames of
 * size, msgid, seq, data and a tail byte, packed into fixed-size blocks.  Block 0 begins with a
 * meta frame, every later block with a five-byte header frame; a size of -1 means "the rest of
 * this block is unused".
 */
module FileLayout {
  import opened Bytes

  datatype Msg = Msg(msgid: int, seqno: int, data: seq<byte>)

  /** sizeof(full_frame_t) + 1: the smallest data frame. */
  const MIN_FRAME: nat := 17
  const BLOCK_HEADER: nat := 5
  const TAIL: byte := 0x80

  predicate Storable(m: Msg) {
    Fits(m.msgid, 4) && Fits(m.seqno, 8)
  }

  function FrameLen(m: Msg): (n: nat)
    ensures n >= MIN_FRAME
  {
    MIN_FRAME + |m.data|
  }

  /** The size field; files of version 1 set its top bit. */
  function SizeField(n: nat, marker: bool): (s: seq<byte>)
    ensures |s| == 4
  {
    Le(if marker then n + 0x8000_0000 else n, 4)
  }

  function FrameBytes(m: Msg, marker: bool): (s: seq<byte>)
    requires Storable(m)
    ensures |s| == FrameLen(m)
  {
    SizeField(FrameLen(m), marker) + Le(m.msgid, 4) + Le(m.seqno, 8) + m.data + [TAIL]
  }

  function HeaderBytes(marker: bool): (s: seq<byte>)
    ensures |s| == BLOCK_HEADER
  {
    SizeField(BLOCK_HEADER, marker) + [TAIL]
  }

  function SkipBytes(): (s: seq<byte>)
    ensures |s| == 4
  {
    Le(0xFFFF_FFFF, 4)
  }

  ghost predicate Holds(f: seq<byte>, off: nat, s: seq<byte>) {
    off + |s| <= |f| && f[off..off + |s|] == s
  }

  ghost predicate BlankFrom(f: seq<byte>, off: nat) {
    forall x :: off <= x < |f| ==> f[x] == 0
  }

  ghost predicate SameBelow(f: seq<byte>, f': seq<byte>, end: nat) {
    end <= |f'| && forall x :: 0 <= x < end && x < |f| ==> f'[x] == f[x]
  }

  lemma Part(f: seq<byte>, off: nat, s: seq<byte>, i: nat, j: nat)
    requires Holds(f, off, s) && i <= j <= |s|
    ensures f[off + i..off + j] == s[i..j]
  {
    var a, c := f[off + i..off + j], s[i..j];
    forall k | 0 <= k < j - i
      ensures a[k] == c[k]
    {
      assert f[off..off + |s|][i + k] == s[i + k];
    }
    assert |a| == |c|;
  }

  // ----- reading one frame

  /** `Back` is a negative size other than -1; only the rest of a frame that crosses its block can read so. */
  datatype Field = Again | Skip | Size(n: nat) | Back(n: nat) | Corrupt

  /** The value part of `_read_frame_nocheck`. */
  function ReadField(f: seq<byte>, off: nat, marker: bool): Field {
    if off + 4 > |f| then Again
    else
      var raw := Dec(f[off..off + 4]);
      if marker && off != 0 && f[off + 3] < 0x80 then Again
      else if raw == -1 then Skip
      else
        var frame := if marker && off != 0 then raw + 0x8000_0000 else raw;
        if frame > 4 then Size(frame) else if frame == 0 then Again else if frame < 0 then Back(-frame) else Corrupt
  }

  datatype Data = NoData | Bad | Message(m: Msg)

  /** `_read_data` for a frame of `n` bytes at `off`. */
  function ReadPayload(f: seq<byte>, off: nat, n: nat): Data {
    if n < BLOCK_HEADER + 4 then Bad
    else if off + n > |f| then NoData
    else if f[off + n - 1] < 0x80 then NoData
    else if n < MIN_FRAME then Bad
    else Message(Msg(Dec(f[off + 4..off + 8]), Dec(f[off + 8..off + 16]), f[off + 16..off + n - 1]))
  }

  /** The top byte of a four-byte field carries the marker bit. */
  lemma TopByte(x: nat)
    requires x < 0x1_0000_0000
    ensures Le(x, 4)[3] == x / 0x100_0000
  {
    assert Le(x, 4) == [x % 256] + ([x / 256 % 256] + ([x / 256 / 256 % 256] + ([x / 256 / 256 / 256 % 256] + []))) by {
      var y := x / 256;
      var z := y / 256;
      assert Le(z, 2) == [z % 256] + Le(z / 256, 1);
      assert Le(z / 256, 1) == [z / 256 % 256] + Le(z / 256 / 256, 0);
    }
    assert Le(x, 4)[3] == x / 256 / 256 / 256 % 256;
  }

  lemma SizeFieldReads(f: seq<byte>, off: nat, n: nat, marker: bool)
    requires off > 0 && 4 < n < 0x7FFF_FFFF && Holds(f, off, SizeField(n, marker))
    ensures ReadField(f, off, marker) == Size(n)
  {
    Span256Values();
    var x := if marker then n + 0x8000_0000 else n;
    UnsignedRoundTrip(x, 4);
    TopByte(x);
    assert f[off + 3] == f[off..off + 4][3];
  }

  lemma SkipReads(f: seq<byte>, off: nat, marker: bool)
    requires off > 0 && Holds(f, off, SkipBytes())
    ensures ReadField(f, off, marker) == Skip
  {
    Span256Values();
    UnsignedRoundTrip(0xFFFF_FFFF, 4);
    TopByte(0xFFFF_FFFF);
    assert f[off + 3] == f[off..off + 4][3];
  }

  lemma {:induction false} ZerosDecode(s: seq<byte>)
    requires forall i :: 0 <= i < |s| ==> s[i] == 0
    ensures FromLe(s) == 0
  {
    if s != [] {
      ZerosDecode(s[1..]);
    }
  }

  lemma BlankReads(f: seq<byte>, off: nat, marker: bool)
    requires BlankFrom(f, off)
    ensures ReadField(f, off, marker) == Again
  {
    if off + 4 <= |f| {
      ZerosDecode(f[off..off + 4]);
      Span256Values();
    }
  }

  lemma SplitParts(a: seq<byte>, b: seq<byte>, c: seq<byte>, d: seq<byte>, e: seq<byte>)
    requires |a| == 4 && |b| == 4 && |c| == 8 && |e| == 1
    ensures var s := a + b + c + d + e;
      s[0..4] == a && s[4..8] == b && s[8..16] == c && s[16..|s| - 1] == d && s[|s| - 1] == e[0]
  {
  }

  /** Where the fields of a frame lie. */
  lemma FrameParts(m: Msg, marker: bool)
    requires Storable(m)
    ensures var n, s := FrameLen(m), FrameBytes(m, marker);
      && s[0..4] == SizeField(n, marker) && s[4..8] == Le(m.msgid, 4) && s[8..16] == Le(m.seqno, 8)
      && s[16..n - 1] == m.data && s[n - 1] == TAIL
  {
    var a, b, c := SizeField(FrameLen(m), marker), Le(m.msgid, 4), Le(m.seqno, 8);
    SplitParts(a, b, c, m.data, [TAIL]);
  }

  lemma ByteOf(f: seq<byte>, off: nat, s: seq<byte>, i: nat)
    requires Holds(f, off, s) && i < |s|
    ensures f[off + i] == s[i]
  {
    assert f[off..off + |s|][i] == s[i];
  }

  /** The fields of a stored frame. */
  lemma FrameFields(f: seq<byte>, off: nat, m: Msg, marker: bool)
    requires Storable(m) && Holds(f, off, FrameBytes(m, marker))
    ensures var n := FrameLen(m);
      && Holds(f, off, SizeField(n, marker)) && f[off + n - 1] == TAIL
      && f[off + 4..off + 8] == Le(m.msgid, 4) && f[off + 8..off + 16] == Le(m.seqno, 8)
      && f[off + 16..off + n - 1] == m.data
  {
    var n, s := FrameLen(m), FrameBytes(m, marker);
    FrameParts(m, marker);
    Part(f, off, s, 0, 4);
    Part(f, off, s, 4, 8);
    Part(f, off, s, 8, 16);
    Part(f, off, s, 16, n - 1);
    ByteOf(f, off, s, n - 1);
  }

  /** A stored frame reads back as the message it was made from. */
  lemma FrameReads(f: seq<byte>, off: nat, m: Msg, marker: bool)
    requires off > 0 && Storable(m) && FrameLen(m) < 0x7FFF_FFFF && Holds(f, off, FrameBytes(m, marker))
    ensures ReadField(f, off, marker) == Size(FrameLen(m))
    ensures ReadPayload(f, off, FrameLen(m)) == Message(m)
  {
    FrameFields(f, off, m, marker);
    SizeFieldReads(f, off, FrameLen(m), marker);
    SignedRoundTrip(m.msgid, 4);
    SignedRoundTrip(m.seqno, 8);
  }

  // ----- positions

  /** Offset `rel` inside block `blk`; `rel` may equal the block size. */
  datatype Pos = Pos(blk: nat, rel: nat)

  lemma MulNat(i: nat, j: nat)
    ensures i * j >= 0
  {
  }

  function Abs(b: nat, p: Pos): (r: nat)
    ensures r >= p.rel
  {
    MulNat(p.blk, b);
    p.blk * b + p.rel
  }

  lemma NextBlock(b: nat, blk: nat)
    ensures Abs(b, Pos(blk + 1, 0)) == Abs(b, Pos(blk, b))
  {
  }

  predicate NotAfter(p: Pos, q: Pos) {
    p.blk < q.blk || (p.blk == q.blk && p.rel <= q.rel)
  }

  lemma MulMono(b: nat, i: nat, j: nat)
    requires i <= j
    ensures i * b <= j * b
  {
    assert (j - i) * b >= 0;
    assert j * b == i * b + (j - i) * b;
  }

  lemma AbsOrder(b: nat, p: Pos, q: Pos)
    requires NotAfter(p, q) && p.rel <= b + q.rel
    ensures Abs(b, p) <= Abs(b, q)
  {
    if p.blk < q.blk {
      MulMono(b, p.blk + 1, q.blk);
    }
  }

  /** A reader with fewer than 17 bytes left in its block goes on to the next one. */
  function Norm(b: nat, p: Pos): Pos {
    if p.rel + MIN_FRAME > b then Pos(p.blk + 1, 0) else p
  }

  /** Where `_write_data` puts a frame of `n` bytes when it stands at `p`. */
  function Place(b: nat, p: Pos, n: nat): Pos {
    var q := if p.rel + n > b then Pos(p.blk + 1, 0) else p;
    if q.rel == 0 then Pos(q.blk, BLOCK_HEADER) else q
  }

  /** A frame fits where it is put if it fits the rest of the block, or an empty block behind its header. */
  predicate HasPlace(b: nat, p: Pos, n: nat) {
    (p.rel != 0 && p.rel + n <= b) || n + BLOCK_HEADER <= b
  }

  /** The size check of `_write_data` lets frames of up to `b` bytes pass; they stay in their block exactly then. */
  lemma FrameStaysInBlock(b: nat, p: Pos, n: nat)
    requires MIN_FRAME <= n <= b
    ensures Place(b, p, n).rel + n <= b <==> HasPlace(b, p, n)
  {
  }

  /** Standing at the next block instead of before a tail of fewer than 17 bytes makes no difference. */
  lemma PlaceAfterNorm(b: nat, p: Pos, n: nat)
    requires 0 < p.rel && MIN_FRAME <= n <= b
    ensures Place(b, Norm(b, p), n) == Place(b, p, n) && HasPlace(b, Norm(b, p), n) == HasPlace(b, p, n)
    ensures !HasPlace(b, p, n) ==> Place(b, p, n) == Pos(p.blk + 1, BLOCK_HEADER)
  {
  }

  // ----- a whole file

  /** The constants of a file, the messages written to it, and where each was put. */
  datatype Log = Log(block: nat, meta: nat, marker: bool, msgs: seq<Msg>, slots: seq<Pos>)

  /** The position after message `i - 1`; for `i == 0`, after the meta frame. */
  function Cursor(g: Log, i: nat): Pos
    requires i <= |g.msgs| && |g.slots| == |g.msgs|
  {
    if i == 0 then Pos(0, g.meta) else Pos(g.slots[i - 1].blk, g.slots[i - 1].rel + FrameLen(g.msgs[i - 1]))
  }

  /** Message `i` was written across the end of its block. */
  predicate Crosses(g: Log, i: nat)
    requires i < |g.msgs| && |g.slots| == |g.msgs|
  {
    g.slots[i].rel + FrameLen(g.msgs[i]) > g.block
  }

  predicate LastCrosses(g: Log)
    requires |g.slots| == |g.msgs|
  {
    g.msgs != [] && Crosses(g, |g.msgs| - 1)
  }

  ghost predicate Params(g: Log) {
    && |g.slots| == |g.msgs|
    && MIN_FRAME + BLOCK_HEADER <= g.block < 0x7FFF_FFFF
    && BLOCK_HEADER < g.meta <= g.block
  }

  ghost predicate Placed(g: Log, i: nat)
    requires i < |g.msgs| && |g.slots| == |g.msgs|
  {
    && Storable(g.msgs[i]) && FrameLen(g.msgs[i]) <= g.block
    && g.slots[i] == Place(g.block, Cursor(g, i), FrameLen(g.msgs[i])) && BLOCK_HEADER <= g.slots[i].rel
  }

  /**
   * The bytes of message `i`: its frame and, if it opened a block, the header and what ended the
   * last one.  Of a frame that crosses its block only the size is sure to stay.
   */
  ghost predicate Stored(f: seq<byte>, g: Log, i: nat)
    requires i < |g.msgs| && |g.slots| == |g.msgs|
  {
    var m, c, s := g.msgs[i], Cursor(g, i), g.slots[i];
    && Storable(m)
    && Holds(f, Abs(g.block, s), if Crosses(g, i) then SizeField(FrameLen(m), g.marker) else FrameBytes(m, g.marker))
    && (s.blk != c.blk ==>
          && Holds(f, Abs(g.block, Pos(s.blk, 0)), HeaderBytes(g.marker))
          && (c.rel + MIN_FRAME <= g.block ==> Holds(f, Abs(g.block, c), SkipBytes())))
  }

  ghost predicate Shape(g: Log) {
    && Params(g)
    && (forall i {:trigger Placed(g, i)} :: 0 <= i < |g.msgs| ==> Placed(g, i))
  }

  ghost predicate MetaAt(f: seq<byte>, g: Log) {
    g.meta <= |f| && ReadField(f, 0, g.marker) == Size(g.meta)
  }

  /** Nothing behind the last frame, which is all there as long as nothing follows it. */
  ghost predicate TailAt(f: seq<byte>, g: Log)
    requires |g.slots| == |g.msgs|
  {
    var n := |g.msgs|;
    && BlankFrom(f, Abs(g.block, Cursor(g, n)))
    && (n > 0 && Storable(g.msgs[n - 1]) ==>
          Holds(f, Abs(g.block, g.slots[n - 1]), FrameBytes(g.msgs[n - 1], g.marker)))
  }

  ghost predicate Contents(f: seq<byte>, g: Log)
    requires |g.slots| == |g.msgs|
  {
    && MetaAt(f, g)
    && (forall i {:trigger Stored(f, g, i)} :: 0 <= i < |g.msgs| ==> Stored(f, g, i))
    && TailAt(f, g)
  }

  ghost predicate WellFormed(f: seq<byte>, g: Log) {
    Shape(g) && Contents(f, g)
  }

  ghost predicate SortedLog(ms: seq<Msg>) {
    forall i, j :: 0 <= i < j < |ms| ==> ms[i].seqno < ms[j].seqno
  }

  // ----- order of the frames

  /** A frame ends at most a header's length behind its block. */
  lemma {:induction false} CursorInBlock(g: Log, i: nat)
    requires Shape(g) && i <= |g.msgs|
    ensures 0 < Cursor(g, i).rel <= g.block + BLOCK_HEADER
  {
    if i > 0 {
      assert Placed(g, i - 1);
      CursorInBlock(g, i - 1);
    }
  }

  lemma SlotFollowsCursor(g: Log, i: nat)
    requires Shape(g) && i < |g.msgs|
    ensures NotAfter(Cursor(g, i), g.slots[i]) && NotAfter(g.slots[i], Cursor(g, i + 1))
    ensures g.slots[i].blk == Cursor(g, i + 1).blk
    ensures var c, s := Cursor(g, i), g.slots[i]; s == if s.blk == c.blk then c else Pos(c.blk + 1, BLOCK_HEADER)
    ensures Crosses(g, i) ==> g.slots[i].blk != Cursor(g, i).blk
    ensures Cursor(g, i).rel > g.block ==> g.slots[i].blk != Cursor(g, i).blk
  {
    assert Placed(g, i);
    CursorInBlock(g, i);
  }

  /** A frame crosses its block exactly when it had no place where it came. */
  lemma CrossesExactly(g: Log, i: nat)
    requires Shape(g) && i < |g.msgs|
    ensures Crosses(g, i) <==> !HasPlace(g.block, Cursor(g, i), FrameLen(g.msgs[i]))
  {
    assert Placed(g, i);
    CursorInBlock(g, i);
    FrameStaysInBlock(g.block, Cursor(g, i), FrameLen(g.msgs[i]));
  }

  lemma {:induction false} CursorsAscend(g: Log, i: nat, j: nat)
    requires Shape(g) && i <= j <= |g.msgs|
    ensures NotAfter(Cursor(g, i), Cursor(g, j))
    decreases j
  {
    if i < j {
      CursorsAscend(g, i, j - 1);
      SlotFollowsCursor(g, j - 1);
    }
  }

  /** A frame that crosses its block is the first one in it, and the next one is in the next block. */
  lemma CrossingIsAlone(g: Log, i: nat, k: nat)
    requires Shape(g) && i < |g.msgs| && Crosses(g, i) && k < |g.msgs|
    ensures k < i ==> g.slots[k].blk < g.slots[i].blk
    ensures k > i ==> g.slots[k].blk > g.slots[i].blk
  {
    SlotFollowsCursor(g, i);
    SlotFollowsCursor(g, k);
    if k < i {
      CursorsAscend(g, k + 1, i);
    } else if k > i {
      SlotFollowsCursor(g, i + 1);
      CursorsAscend(g, i + 2, k + 1);
    }
  }

  /** As far as its block goes. */
  function Clip(b: nat, p: Pos): Pos {
    Pos(p.blk, if p.rel <= b then p.rel else b)
  }

  /** Later writes leave everything below this offset as it is. */
  function Floor(g: Log): nat
    requires |g.slots| == |g.msgs|
  {
    Abs(g.block, Clip(g.block, Cursor(g, |g.msgs|)))
  }

  lemma ClipsAscend(g: Log, i: nat)
    requires Shape(g) && i <= |g.msgs|
    ensures Abs(g.block, Clip(g.block, Cursor(g, i))) <= Floor(g)
  {
    CursorsAscend(g, i, |g.msgs|);
    AbsOrder(g.block, Clip(g.block, Cursor(g, i)), Clip(g.block, Cursor(g, |g.msgs|)));
  }

  /** Everything stored for message `i` lies below it. */
  lemma StoredBelowFloor(g: Log, i: nat)
    requires Shape(g) && i < |g.msgs|
    ensures var c, s, n := Cursor(g, i), g.slots[i], FrameLen(g.msgs[i]);
            && Abs(g.block, s) + (if Crosses(g, i) then 4 else n) <= Floor(g)
            && (s.blk != c.blk ==>
                  && Abs(g.block, Pos(s.blk, 0)) + BLOCK_HEADER <= Floor(g)
                  && (c.rel + MIN_FRAME <= g.block ==> Abs(g.block, c) + 4 <= Floor(g)))
  {
    SlotFollowsCursor(g, i);
    assert Placed(g, i);
    ClipsAscend(g, i + 1);
    var c, s := Cursor(g, i), g.slots[i];
    if s.blk != c.blk {
      AbsOrder(g.block, Pos(c.blk, g.block), s);
    }
  }

  lemma MetaBelowFloor(g: Log)
    requires Shape(g)
    ensures g.meta <= Floor(g)
  {
    ClipsAscend(g, 0);
  }

  lemma EndInFile(f: seq<byte>, g: Log)
    requires WellFormed(f, g)
    ensures Floor(g) <= Abs(g.block, Cursor(g, |g.msgs|)) <= |f|
  {
    var n := |g.msgs|;
    if n > 0 {
      assert Placed(g, n - 1);
    }
  }

  lemma SameHolds(f: seq<byte>, f': seq<byte>, end: nat, off: nat, s: seq<byte>)
    requires Holds(f, off, s) && off + |s| <= end <= |f| && SameBelow(f, f', end)
    ensures Holds(f', off, s)
  {
    assert f'[off..off + |s|] == f[off..off + |s|];
  }

  lemma SameStored(f: seq<byte>, f': seq<byte>, g: Log, i: nat)
    requires Shape(g) && i < |g.msgs| && Stored(f, g, i) && Floor(g) <= |f| && SameBelow(f, f', Floor(g))
    ensures Stored(f', g, i)
  {
    var e, m, c, s := Floor(g), g.msgs[i], Cursor(g, i), g.slots[i];
    StoredBelowFloor(g, i);
    var frame := if Crosses(g, i) then SizeField(FrameLen(m), g.marker) else FrameBytes(m, g.marker);
    SameHolds(f, f', e, Abs(g.block, s), frame);
    if s.blk != c.blk {
      SameHolds(f, f', e, Abs(g.block, Pos(s.blk, 0)), HeaderBytes(g.marker));
      if c.rel + MIN_FRAME <= g.block {
        SameHolds(f, f', e, Abs(g.block, c), SkipBytes());
      }
    }
  }

  lemma SameMeta(f: seq<byte>, f': seq<byte>, g: Log)
    requires Params(g) && MetaAt(f, g) && SameBelow(f, f', g.meta)
    ensures MetaAt(f', g)
  {
    assert f'[0..4] == f[0..4];
  }

  /** Only what lies below the end matters: the tail may be cut off or extended with zeros. */
  lemma TailIsFree(f: seq<byte>, f': seq<byte>, g: Log)
    requires WellFormed(f, g) && !LastCrosses(g) && SameBelow(f, f', Floor(g)) && BlankFrom(f', Floor(g))
    ensures WellFormed(f', g)
  {
    var n := |g.msgs|;
    EndInFile(f, g);
    MetaBelowFloor(g);
    SameMeta(f, f', g);
    forall i | 0 <= i < n
      ensures Stored(f', g, i)
    {
      assert Stored(f, g, i);
      SameStored(f, f', g, i);
    }
    CursorInBlock(g, n);
    if n > 0 {
      assert Stored(f', g, n - 1);
    }
  }

  // ----- appending

  function Extend(g: Log, m: Msg): Log
    requires |g.slots| == |g.msgs|
  {
    g.(msgs := g.msgs + [m], slots := g.slots + [Place(g.block, Cursor(g, |g.msgs|), FrameLen(m))])
  }

  lemma CursorAtLeastHeader(g: Log, i: nat)
    requires Shape(g) && i <= |g.msgs|
    ensures BLOCK_HEADER < Cursor(g, i).rel
  {
    if i > 0 {
      assert Placed(g, i - 1);
    }
  }

  lemma ExtendShape(g: Log, m: Msg)
    requires Shape(g) && Storable(m) && FrameLen(m) <= g.block
    ensures Shape(Extend(g, m))
    ensures forall i {:trigger Cursor(g, i)} :: 0 <= i <= |g.msgs| ==> Cursor(Extend(g, m), i) == Cursor(g, i)
  {
    var g' := Extend(g, m);
    CursorAtLeastHeader(g, |g.msgs|);
    assert forall i {:trigger Cursor(g, i)} :: 0 <= i <= |g.msgs| ==> Cursor(g', i) == Cursor(g, i);
    forall i | 0 <= i < |g'.msgs|
      ensures Placed(g', i)
    {
      assert Cursor(g', i) == Cursor(g, i);
      if i < |g.msgs| {
        assert Placed(g, i);
      }
    }
  }

  /**
   * Writing the next frame behind a log makes it the log with that message, whether it fits or
   * crosses its block.  The header of a new block covers what a frame before it left there.
   */
  lemma AppendKeeps(f: seq<byte>, f': seq<byte>, g: Log, m: Msg)
    requires WellFormed(f, g) && Storable(m) && FrameLen(m) <= g.block && SameBelow(f, f', Floor(g))
    requires Stored(f', Extend(g, m), |g.msgs|) && TailAt(f', Extend(g, m))
    ensures WellFormed(f', Extend(g, m))
  {
    var g' := Extend(g, m);
    ExtendShape(g, m);
    EndInFile(f, g);
    MetaBelowFloor(g);
    SameMeta(f, f', g);
    forall i | 0 <= i < |g'.msgs|
      ensures Stored(f', g', i)
    {
      if i < |g.msgs| {
        assert Stored(f, g, i);
        SameStored(f, f', g, i);
        assert Cursor(g', i) == Cursor(g, i);
      }
    }
  }

  /** Messages that `_post` takes, their seqs apart. */
  ghost predicate Acceptable(b: nat, ms: seq<Msg>) {
    forall i :: 0 <= i < |ms| ==> Storable(ms[i]) && FrameLen(ms[i]) <= b
  }

  /** Messages appended one after the other. */
  ghost function AppendAll(g: Log, ms: seq<Msg>): (h: Log)
    requires Shape(g) && Acceptable(g.block, ms)
    ensures Shape(h) && h.msgs == g.msgs + ms && h.block == g.block && h.meta == g.meta && h.marker == g.marker
    decreases |ms|
  {
    if ms == [] then g
    else
      ExtendShape(g, ms[0]);
      assert forall i :: 0 <= i < |ms| - 1 ==> ms[1..][i] == ms[i + 1];
      AppendAll(Extend(g, ms[0]), ms[1..])
  }

  // ----- how far a file can be read

  /** The first message from `i` on that crosses its block, or the end. */
  function ReadableFrom(g: Log, i: nat): (r: nat)
    requires i <= |g.msgs| && |g.slots| == |g.msgs|
    ensures i <= r <= |g.msgs| && (forall k :: i <= k < r ==> !Crosses(g, k)) && (r < |g.msgs| ==> Crosses(g, r))
    decreases |g.msgs| - i
  {
    if i == |g.msgs| || Crosses(g, i) then i else ReadableFrom(g, i + 1)
  }

  /** What a frame that crosses its block leaves in the next one: the end of the data and the tail byte. */
  function Spill(b: nat, m: Msg): (t: seq<byte>)
    requires MIN_FRAME + BLOCK_HEADER <= b < BLOCK_HEADER + FrameLen(m)
    ensures |t| == BLOCK_HEADER + FrameLen(m) - b
  {
    m.data[b - BLOCK_HEADER - 16..] + [TAIL]
  }

  /** A negative size at `off` that does not lead from `from` to below the start of the file. */
  ghost predicate JumpsBack(f: seq<byte>, off: nat, marker: bool, from: nat) {
    var h := ReadField(f, off, marker);
    h.Back? && h.n <= from
  }

  lemma SpillPlace(g: Log)
    requires Shape(g) && LastCrosses(g)
    ensures var s, n := g.slots[|g.msgs| - 1], FrameLen(g.msgs[|g.msgs| - 1]);
            && Storable(g.msgs[|g.msgs| - 1]) && g.block - BLOCK_HEADER < n <= g.block
            && Abs(g.block, Pos(s.blk + 1, 0)) == Abs(g.block, s) + (g.block - BLOCK_HEADER)
            && Abs(g.block, Cursor(g, |g.msgs|)) == Abs(g.block, s) + n
  {
    var n := |g.msgs|;
    assert Placed(g, n - 1);
    SlotFollowsCursor(g, n - 1);
    NextBlock(g.block, g.slots[n - 1].blk);
  }

  /**
   * In version 0 that can read as a negative size.  `_block_seq` then moves back by so much; as
   * long as that leads below the file's start, it takes it for nothing.
   */
  ghost predicate Rewinds(g: Log)
    requires Shape(g)
  {
    && LastCrosses(g) && !g.marker
    && var m, s := g.msgs[|g.msgs| - 1], g.slots[|g.msgs| - 1];
       SpillPlace(g);
       JumpsBack(Spill(g.block, m), 0, false, Abs(g.block, Pos(s.blk + 1, 0)))
  }

  /** Block `blk` holds nothing but what the last frame left there. */
  ghost predicate Spilled(g: Log, blk: nat)
    requires |g.slots| == |g.msgs|
  {
    LastCrosses(g) && blk == g.slots[|g.msgs| - 1].blk + 1
  }

  lemma DataRest(f: seq<byte>, at: nat, b: nat, m: Msg)
    requires MIN_FRAME + BLOCK_HEADER <= b < BLOCK_HEADER + FrameLen(m) && at + FrameLen(m) <= |f|
    requires f[at + 16..at + FrameLen(m) - 1] == m.data && f[at + FrameLen(m) - 1] == TAIL
    ensures Holds(f, at + b - BLOCK_HEADER, Spill(b, m))
  {
    var k, n := b - BLOCK_HEADER, FrameLen(m);
    Part(f, at + 16, m.data, k - 16, |m.data|);
    assert f[at + k..at + n] == f[at + k..at + n - 1] + [f[at + n - 1]];
  }

  /** The end of a frame of message `m` at `at`, as seen from `off`. */
  lemma RestHeld(f: seq<byte>, at: nat, b: nat, marker: bool, m: Msg, off: nat)
    requires MIN_FRAME + BLOCK_HEADER <= b < BLOCK_HEADER + FrameLen(m) && Storable(m) && off == at + b - BLOCK_HEADER
    requires Holds(f, at, FrameBytes(m, marker)) && BlankFrom(f, at + FrameLen(m))
    ensures Holds(f, off, Spill(b, m)) && BlankFrom(f, off + |Spill(b, m)|)
  {
    FrameFields(f, at, m, marker);
    DataRest(f, at, b, m);
  }

  lemma SpillHeld(f: seq<byte>, g: Log)
    requires Shape(g) && TailAt(f, g) && LastCrosses(g)
    ensures var m, off := g.msgs[|g.msgs| - 1], Abs(g.block, Pos(g.slots[|g.msgs| - 1].blk + 1, 0));
            && off > 0 && g.block < BLOCK_HEADER + FrameLen(m) <= g.block + BLOCK_HEADER
            && var t := Spill(g.block, m); Holds(f, off, t) && BlankFrom(f, off + |t|)
  {
    var m, s := g.msgs[|g.msgs| - 1], g.slots[|g.msgs| - 1];
    SpillPlace(g);
    RestHeld(f, Abs(g.block, s), g.block, g.marker, m, Abs(g.block, Pos(s.blk + 1, 0)));
  }

  /** Bytes with zeros behind them, or the end of the file, read as negative only if they do so alone. */
  lemma TailJumps(f: seq<byte>, off: nat, t: seq<byte>, marker: bool, from: nat)
    requires off > 0 && Holds(f, off, t) && BlankFrom(f, off + |t|)
    ensures JumpsBack(f, off, marker, from) <==> !marker && JumpsBack(t, 0, false, from)
  {
    Span256Values();
    if |t| >= 4 {
      Part(f, off, t, 0, 4);
    } else if off + 4 <= |f| {
      var q := f[off..off + 4];
      assert q[3] == f[off + 3] == 0;
      assert q == [q[0], q[1], q[2], q[3]];
      FourBytes(q[0], q[1], q[2], q[3]);
    }
  }

  /** So the search moves back into the file exactly when these bytes alone make it do so. */
  lemma SpillReads(f: seq<byte>, g: Log)
    requires Shape(g) && TailAt(f, g) && LastCrosses(g)
    ensures var off := Abs(g.block, Pos(g.slots[|g.msgs| - 1].blk + 1, 0));
      JumpsBack(f, off, g.marker, off) <==> Rewinds(g)
  {
    SpillHeld(f, g);
    var off := Abs(g.block, Pos(g.slots[|g.msgs| - 1].blk + 1, 0));
    TailJumps(f, off, Spill(g.block, g.msgs[|g.msgs| - 1]), g.marker, off);
  }
}
