/**
 * The bytes of a file as the file channel (file.cc) reads and writes them, on values: what a reader
 * at a position finds, what a post writes, and what a search by seq is to find.
 */
module FileImage {
  import opened Common
  import opened Bytes
  import opened FileLayout

  // ----- reading from a position

  /** The size field at offset `off`, rejected when the frame would leave the block. */
  function BoundedField(f: seq<byte>, off: nat, end: nat, marker: bool): Field {
    var r := ReadField(f, off, marker);
    if r.Size? && off + r.n > end then Corrupt else r
  }

  /** `_read_frame`: the field it answers with and where it leaves the handle. */
  ghost function FrameFrom(f: seq<byte>, b: nat, marker: bool, p: Pos): (Field, Pos) {
    if p.rel + MIN_FRAME <= b then (BoundedField(f, Abs(b, p), Abs(b, Pos(p.blk, b)), marker), p)
    else
      var end := Abs(b, Pos(p.blk + 1, b));
      var h := BoundedField(f, Abs(b, Pos(p.blk + 1, 0)), end, marker);
      if !h.Size? then (if h.Again? then Again else Corrupt, Pos(p.blk + 1, 0))
      else (BoundedField(f, Abs(b, Pos(p.blk + 1, h.n)), end, marker), Pos(p.blk + 1, h.n))
  }

  /** Standing at `p`, the next frame a reader gets is number `i`. */
  ghost predicate Leads(g: Log, p: Pos, i: nat)
    requires |g.slots| == |g.msgs|
  {
    && i <= |g.msgs|
    && var c := Cursor(g, i);
       || p == c
       || p == Norm(g.block, c)
       || (i < |g.msgs| && p == g.slots[i])
       || (i < |g.msgs| && g.slots[i].blk != c.blk && (p == Pos(c.blk, g.block) || p == Pos(c.blk + 1, 0)))
  }

  /** Standing at the skip frame that ends the block before message `i`. */
  ghost predicate AtSkip(g: Log, p: Pos, i: nat)
    requires |g.slots| == |g.msgs| && i < |g.msgs|
  {
    p == Cursor(g, i) && g.slots[i].blk != p.blk && p.rel + MIN_FRAME <= g.block
  }

  /** What frame `i` reads as: a message, or a size beyond the block. */
  ghost function FrameField(g: Log, i: nat): Field
    requires |g.slots| == |g.msgs| && i < |g.msgs|
  {
    if Crosses(g, i) then Corrupt else Size(FrameLen(g.msgs[i]))
  }

  /** There is something to be read at `i`: a message, or the end of a file that can be read to its end. */
  ghost predicate Seeable(g: Log, i: nat)
    requires |g.slots| == |g.msgs|
  {
    i < |g.msgs| || !LastCrosses(g)
  }

  // ----- writing

  /** pwritev at an offset, the gap below it reading as zeros. */
  function WriteAt(f: seq<byte>, off: nat, s: seq<byte>): (r: seq<byte>)
    ensures |r| == if |f| > off + |s| then |f| else off + |s|
    ensures Holds(r, off, s)
    ensures forall x :: 0 <= x < |r| && !(off <= x < off + |s|) ==> r[x] == if x < |f| then f[x] else 0
  {
    var g := if |f| < off + |s| then f + seq(off + |s| - |f|, _ => 0) else f;
    g[..off] + s + g[off + |s|..]
  }

  /** The file after the old block is closed and the next one opened, where need be. */
  function RoomBytes(f: seq<byte>, b: nat, marker: bool, p: Pos, n: nat): seq<byte> {
    var f1 := if p.rel + n > b && p.rel + 4 < b then WriteAt(f, Abs(b, p), SkipBytes()) else f;
    var q := if p.rel + n > b then Pos(p.blk + 1, 0) else p;
    if q.rel == 0 then WriteAt(f1, Abs(b, q), HeaderBytes(marker)) else f1
  }

  /** The file after `_write_data`. */
  function PostBytes(f: seq<byte>, b: nat, marker: bool, p: Pos, m: Msg): seq<byte>
    requires Storable(m)
  {
    WriteAt(RoomBytes(f, b, marker, p, FrameLen(m)), Abs(b, Place(b, p, FrameLen(m))), FrameBytes(m, marker))
  }

  /** Where the handle stands after it. */
  function After(b: nat, p: Pos, n: nat): Pos {
    Pos(Place(b, p, n).blk, Place(b, p, n).rel + n)
  }

  /** The posts that are accepted: those with a larger seq and a frame of at most a block. */
  function Kept(b: nat, last: int, ms: seq<Msg>): (r: seq<Msg>)
    ensures forall i :: 0 <= i < |r| ==> r[i] in ms && FrameLen(r[i]) <= b && r[i].seqno > last
    ensures SortedLog(r)
    decreases |ms|
  {
    if ms == [] then []
    else if ms[0].seqno <= last || FrameLen(ms[0]) > b then Kept(b, last, ms[1..])
    else [ms[0]] + Kept(b, ms[0].seqno, ms[1..])
  }

  /** The handle stands behind the last message, or at the next block when fewer than 17 bytes remained. */
  ghost predicate AtEndOf(g: Log, p: Pos)
    requires |g.slots| == |g.msgs|
  {
    p == Cursor(g, |g.msgs|) || p == Norm(g.block, Cursor(g, |g.msgs|))
  }

  // ----- searching by seq

  function SeqOf(m: Msg): int {
    m.seqno
  }

  /** What a linear scan for seq `s` ends at: the first message at or after it. */
  function Target(ms: seq<Msg>, s: int): (t: nat)
    ensures t <= |ms|
    ensures forall k :: 0 <= k < t ==> ms[k].seqno < s
    ensures t < |ms| ==> ms[t].seqno >= s
  {
    FirstReaching(ms, SeqOf, s)
  }

  lemma TargetIs(ms: seq<Msg>, s: int, i: nat)
    requires i <= |ms| && (forall k :: 0 <= k < i ==> ms[k].seqno < s) && (i < |ms| ==> ms[i].seqno >= s)
    ensures Target(ms, s) == i
  {
  }

  /** What a search finds.  `Wild`: it has moved back to where no frame starts, and reads what is there. */
  datatype SeqAt = Found(seqno: int) | Empty | Failed | Wild

  /** The answer of a search whose target is message `t`: that message with the handle at it, or none. */
  ghost predicate TargetFound(g: Log, t: nat, r: SeqAt, p: Pos)
    requires |g.slots| == |g.msgs|
  {
    if t < |g.msgs| then r == Found(g.msgs[t].seqno) && p == g.slots[t] else r == Empty && Leads(g, p, |g.msgs|)
  }

  function BlockOf(p: Pos): int {
    p.blk
  }

  /** The first message that is not in an earlier block than `blk`. */
  ghost function FirstFrom(slots: seq<Pos>, blk: nat): (i: nat)
    ensures i <= |slots|
    ensures forall k :: 0 <= k < i ==> slots[k].blk < blk
    ensures i < |slots| ==> slots[i].blk >= blk
  {
    FirstReaching(slots, BlockOf, blk)
  }

  /** The message that reading block `blk` from its start leads to. */
  ghost function FirstIndex(g: Log, blk: nat): nat {
    if blk == 0 then 0 else FirstFrom(g.slots, blk)
  }

  ghost predicate NoneReaches(ms: seq<Msg>, i: nat, s: int) {
    i <= |ms| && forall k :: 0 <= k < i ==> ms[k].seqno < s
  }

  /** Everything before block `first` is before seq `s`, so the scan may start there. */
  ghost predicate Before(g: Log, first: nat, s: int)
    requires |g.slots| == |g.msgs|
  {
    var i := FirstIndex(g, first);
    i < |g.msgs| && NoneReaches(g.msgs, i, s)
  }

  /** The block that the last message is in. */
  ghost function EndBlock(g: Log): nat
    requires |g.slots| == |g.msgs|
  {
    if g.slots == [] then 0 else g.slots[|g.slots| - 1].blk
  }

  /** The bisection between blocks `lo` and `hi` looks at a block whose first frame crosses it. */
  ghost predicate BisectFails(g: Log, lo: nat, hi: nat, s: int)
    requires |g.slots| == |g.msgs|
    decreases hi - lo
  {
    && lo + 1 < hi
    && var mid := (lo + hi) / 2;
       var i := FirstFrom(g.slots, mid);
       && i < |g.msgs|
       && (|| Crosses(g, i)
           || (g.msgs[i].seqno > s && BisectFails(g, lo, mid, s))
           || (g.msgs[i].seqno < s && BisectFails(g, mid, hi, s)))
  }

  // ----- a skip frame right behind the meta frame

  datatype IO = Posix | Mmap

  function ByteAt(f: seq<byte>, x: int): byte {
    if 0 <= x < |f| then f[x] else 0
  }

  function FourAt(f: seq<byte>, x: int): seq<byte> {
    [ByteAt(f, x), ByteAt(f, x + 1), ByteAt(f, x + 2), ByteAt(f, x + 3)]
  }

  /**
   * `_read_seq` on a skip frame at `off`: its size -1 is taken for the size of a data frame.  A
   * `pread` of that many bytes fails.  In a mapping the tail byte is looked for two bytes before
   * the skip frame and, if it passes for one, the seq is what lies behind.
   */
  function SkipSeq(io: IO, f: seq<byte>, off: nat): SeqAt {
    if io == Posix then Failed
    else if ByteAt(f, off - 2) < 0x80 then Empty
    else Found(Dec(FourAt(f, off + 8) + FourAt(f, off + 12)))
  }

  /** The first message was too long for the rest of block 0. */
  ghost predicate SkipAfterMeta(g: Log) {
    g.slots != [] && g.slots[0].blk != 0 && g.meta + MIN_FRAME <= g.block
  }

  /** The first message, if any, goes right behind the meta frame, or that leaves fewer than 17 bytes. */
  predicate FirstFits(b: nat, meta: nat, ms: seq<Msg>) {
    ms == [] || meta + FrameLen(ms[0]) <= b || meta + MIN_FRAME > b
  }

  /** A caller can tell beforehand when `_block_seq` will meet such a skip frame. */
  lemma SkipAfterMetaExactly(g: Log)
    requires Shape(g)
    ensures SkipAfterMeta(g) <==> !FirstFits(g.block, g.meta, g.msgs)
  {
    if g.msgs != [] {
      assert Placed(g, 0);
    }
  }

  /** The search cannot get past it. */
  ghost predicate Blocked(io: IO, f: seq<byte>, g: Log) {
    SkipAfterMeta(g) && !SkipSeq(io, f, g.meta).Found?
  }

  /** What `_block_seq` answers about block `blk` of a log, and where it leaves the handle. */
  ghost predicate BlockAnswer(io: IO, f: seq<byte>, g: Log, blk: nat, r: SeqAt, p: Pos)
    requires Shape(g)
  {
    var i := FirstIndex(g, blk);
    if Spilled(g, blk) then !r.Found? && (r == Wild <==> Rewinds(g))
    else if i == |g.msgs| then r == Empty && (blk == 0 ==> Leads(g, p, 0))
    else if blk == 0 && SkipAfterMeta(g) then r == SkipSeq(io, f, g.meta) && p == Pos(0, g.meta)
    else if Crosses(g, i) then r == Failed
    else r == Found(g.msgs[i].seqno) && p == g.slots[i]
  }

  // ----- opening

  datatype Opening = Opens | Refuses | Undefined

  /** The search for the last message, when the last frame crosses its block. */
  ghost function BadEnd(g: Log): SeqAt
    requires Shape(g)
  {
    if Rewinds(g) then Wild else Failed
  }

  /** The first message went into block 1 behind a full block 0, and crosses it. */
  ghost predicate BadStart(g: Log)
    requires |g.slots| == |g.msgs|
  {
    g.msgs != [] && !SkipAfterMeta(g) && Crosses(g, 0)
  }

  /** Where the search by seq starts. */
  ghost function StartBlock(g: Log): nat {
    if g.slots == [] || SkipAfterMeta(g) then 0 else g.slots[0].blk
  }

  /** What `_seek` answers, and where it leaves the handle, for a log with increasing seqs. */
  ghost predicate SeekAnswer(io: IO, f: seq<byte>, g: Log, s: int, r: SeqAt, p: Pos)
    requires Shape(g)
  {
    if LastCrosses(g) then r == BadEnd(g)
    else if Blocked(io, f, g) then r == SkipSeq(io, f, g.meta) && p == Pos(0, g.meta)
    else if BadStart(g) || BisectFails(g, StartBlock(g), EndBlock(g) + 1, s) then r == Failed
    else TargetFound(g, Target(g.msgs, s), r, p)
  }

  /** What `_file_bounds` answers, and where it leaves the handle. */
  ghost predicate BoundsAnswer(io: IO, f: seq<byte>, g: Log, r: SeqAt, p: Pos)
    requires Shape(g)
  {
    if g.msgs == [] then r == Empty && AtEndOf(g, p)
    else if Blocked(io, f, g) then r == SkipSeq(io, f, g.meta) && p == Pos(0, g.meta)
    else if BadStart(g) then r == Failed
    else if LastCrosses(g) then r == BadEnd(g)
    else r.Found? && AtEndOf(g, p)
  }

  /** Whether `_file_bounds` lets `_open` go on. */
  ghost function Bounded(io: IO, f: seq<byte>, g: Log): Opening
    requires Shape(g)
  {
    if g.msgs == [] then Opens
    else if Blocked(io, f, g) then (if io == Posix then Refuses else Opens)
    else if BadStart(g) then Refuses
    else if !LastCrosses(g) then Opens
    else if Rewinds(g) then Undefined else Refuses
  }

  /** The `mode` and `seq` parameters of a reader. */
  datatype Mode = FromStart | FromSeq(s: int) | FromLast | FromEnd

  function LastSeqOf(ms: seq<Msg>): int {
    if ms == [] then -1 else ms[|ms| - 1].seqno
  }

  /** The seq that `_open` searches for. */
  function SeqSought(g: Log, mode: Mode): int {
    if mode.FromSeq? then mode.s else LastSeqOf(g.msgs)
  }

  /** Whether a reader opens: `_file_bounds` and, where the mode asks for it, the search. */
  ghost function OpensAs(io: IO, f: seq<byte>, g: Log, mode: Mode): Opening
    requires Shape(g)
  {
    if Bounded(io, f, g) != Opens || mode.FromStart? || mode.FromEnd? then Bounded(io, f, g)
    else if LastCrosses(g) then (if Rewinds(g) then Undefined else Refuses)
    else if Blocked(io, f, g) || g.msgs == [] then Opens
    else if BisectFails(g, StartBlock(g), EndBlock(g) + 1, SeqSought(g, mode)) then Refuses
    else Opens
  }

  /** The message that it will deliver first. */
  ghost function StartIndex(io: IO, f: seq<byte>, g: Log, mode: Mode): nat {
    if Blocked(io, f, g) then 0
    else
      match mode
      case FromStart => 0
      case FromSeq(s) => Target(g.msgs, s)
      case FromLast => if g.msgs == [] then 0 else |g.msgs| - 1
      case FromEnd => |g.msgs|
  }

  /** What a reader gets: nothing, or the messages from there up to the first that crosses its block. */
  ghost predicate ReadAs(io: IO, f: seq<byte>, g: Log, mode: Mode, r: Opening, out: seq<Msg>, ok: bool)
    requires Shape(g)
  {
    var i := StartIndex(io, f, g, mode);
    && r == OpensAs(io, f, g, mode)
    && if r == Opens then out == g.msgs[i..ReadableFrom(g, i)] && (ok <==> ReadableFrom(g, i) == |g.msgs|)
       else out == [] && !ok
  }

  // ----- what a file holds

  ghost predicate Holding(f: seq<byte>, g: Log, b: nat, marker: bool) {
    WellFormed(f, g) && g.block == b && g.marker == marker
  }

  /** The file holds `g`, and the handle stands where the next message goes. */
  ghost predicate EndState(f: seq<byte>, g: Log, b: nat, marker: bool, p: Pos) {
    Holding(f, g, b, marker) && AtEndOf(g, p)
  }

  /** What `_write_meta` writes: one frame whose size field, without the version-1 bit, is its length. */
  ghost predicate MetaFrame(b: nat, marker: bool, meta: seq<byte>) {
    && MIN_FRAME + BLOCK_HEADER <= b < 0x7FFF_FFFF && BLOCK_HEADER < |meta| <= b
    && ReadField(meta, 0, marker) == Size(|meta|)
  }

  /** A file with its meta frame and no message. */
  ghost function Bare(b: nat, meta: nat, marker: bool): (g: Log)
    requires MIN_FRAME + BLOCK_HEADER <= b < 0x7FFF_FFFF && BLOCK_HEADER < meta <= b
    ensures Shape(g)
  {
    Log(b, meta, marker, [], [])
  }

  /** What reopening for append leaves: nothing, where a mapping takes a skip frame behind the meta frame for that. */
  ghost function Survived(io: IO, f: seq<byte>, g: Log): (h: Log)
    requires Shape(g)
    ensures Shape(h) && h.block == g.block && h.meta == g.meta && h.marker == g.marker
  {
    if Blocked(io, f, g) then Bare(g.block, g.meta, g.marker) else g
  }

  // ----- what a reader of a log sees

  /** The ways to stand before message `i`, other than at the start of a block. */
  lemma LeadCases(g: Log, p: Pos, i: nat)
    requires Shape(g) && Leads(g, p, i) && p.rel <= g.block
    ensures i < |g.msgs| && p != g.slots[i] && p.rel != 0 ==>
              && g.slots[i] == Pos(p.blk + 1, BLOCK_HEADER) && Cursor(g, i).blk == p.blk
              && (p == Cursor(g, i) || p == Pos(p.blk, g.block))
    ensures i < |g.msgs| ==> g.slots[i].rel + MIN_FRAME <= g.block
    ensures i == |g.msgs| && p.rel != 0 ==> p == Cursor(g, i)
  {
    if i < |g.msgs| {
      SlotFollowsCursor(g, i);
      assert Placed(g, i);
    }
  }

  /** The start of a block leads to a frame that opened it, or to the end. */
  lemma StartCases(g: Log, p: Pos, i: nat)
    requires Shape(g) && Leads(g, p, i) && p.rel == 0
    ensures i < |g.msgs| ==> g.slots[i] == Pos(p.blk, BLOCK_HEADER) && g.slots[i].blk != Cursor(g, i).blk
    ensures i == |g.msgs| ==> p == Norm(g.block, Cursor(g, i))
  {
    CursorInBlock(g, i);
    if i < |g.msgs| {
      SlotFollowsCursor(g, i);
      assert Placed(g, i);
    }
  }

  /** A reader's position stays good while the file grows. */
  lemma LeadsStays(g: Log, m: Msg, p: Pos, i: nat)
    requires Shape(g) && Leads(g, p, i) && Storable(m) && FrameLen(m) <= g.block
    ensures Leads(Extend(g, m), p, i)
  {
    ExtendShape(g, m);
    assert Cursor(Extend(g, m), i) == Cursor(g, i);
  }

  /** The reader has got `out`, all it could read so far, and stands behind it. */
  ghost predicate Behind(g: Log, p: Pos, out: seq<Msg>)
    requires |g.slots| == |g.msgs|
  {
    out <= g.msgs && Leads(g, p, |out|) && forall k :: 0 <= k < |out| ==> !Crosses(g, k)
  }

  lemma BehindStays(g: Log, m: Msg, p: Pos, out: seq<Msg>)
    requires Shape(g) && Behind(g, p, out) && Storable(m) && FrameLen(m) <= g.block
    ensures Behind(Extend(g, m), p, out)
  {
    LeadsStays(g, m, p, |out|);
    forall k | 0 <= k < |out|
      ensures !Crosses(Extend(g, m), k)
    {
      assert !Crosses(g, k);
    }
  }

  // ----- posts still to come

  /** With the posts `rest` still to come, the log `g` becomes `goal`. */
  ghost predicate Becomes(g: Log, b: nat, last: int, rest: seq<Msg>, goal: Log) {
    && Shape(g) && g.block == b && Acceptable(b, Kept(b, last, rest))
    && AppendAll(g, Kept(b, last, rest)) == goal
  }

  lemma BecomesAtFirst(g: Log, last: int, ms: seq<Msg>)
    requires Shape(g) && forall i :: 0 <= i < |ms| ==> Storable(ms[i])
    ensures Acceptable(g.block, Kept(g.block, last, ms))
    ensures Becomes(g, g.block, last, ms, AppendAll(g, Kept(g.block, last, ms)))
  {
  }

  lemma BecomesInTheEnd(g: Log, b: nat, last: int, goal: Log)
    requires Becomes(g, b, last, [], goal)
    ensures g == goal
  {
  }

  lemma KeptOn(b: nat, last: int, m: Msg, rest: seq<Msg>)
    ensures Kept(b, last, [m] + rest) ==
      if m.seqno <= last || FrameLen(m) > b then Kept(b, last, rest) else [m] + Kept(b, m.seqno, rest)
  {
    assert ([m] + rest)[1..] == rest;
  }

  lemma AppendOn(g: Log, m: Msg, k: seq<Msg>)
    requires Shape(g) && Acceptable(g.block, [m] + k)
    ensures Storable(m) && FrameLen(m) <= g.block && Acceptable(g.block, k) && Shape(Extend(g, m))
    ensures AppendAll(g, [m] + k) == AppendAll(Extend(g, m), k)
  {
    assert ([m] + k)[0] == m && ([m] + k)[1..] == k;
    assert forall i :: 0 <= i < |k| ==> k[i] == ([m] + k)[i + 1];
    ExtendShape(g, m);
  }

  lemma BecomesStep(g: Log, b: nat, last: int, m: Msg, rest: seq<Msg>, goal: Log)
    requires Becomes(g, b, last, [m] + rest, goal)
    ensures if m.seqno <= last || FrameLen(m) > b then Becomes(g, b, last, rest, goal)
            else Storable(m) && Becomes(Extend(g, m), b, m.seqno, rest, goal)
  {
    KeptOn(b, last, m, rest);
    if m.seqno > last && FrameLen(m) <= b {
      AppendOn(g, m, Kept(b, m.seqno, rest));
    }
  }

  /** A message that does not cross its block reads as itself. */
  lemma SeesMessage(f: seq<byte>, g: Log, i: nat)
    requires WellFormed(f, g) && i < |g.msgs| && !Crosses(g, i)
    ensures var off := Abs(g.block, g.slots[i]);
            && ReadField(f, off, g.marker) == Size(FrameLen(g.msgs[i]))
            && off + FrameLen(g.msgs[i]) <= Abs(g.block, Pos(g.slots[i].blk, g.block))
            && ReadPayload(f, off, FrameLen(g.msgs[i])) == Message(g.msgs[i])
  {
    assert Stored(f, g, i) && Placed(g, i);
    FrameReads(f, Abs(g.block, g.slots[i]), g.msgs[i], g.marker);
  }

  /** The frame itself: in bounds, or out of bounds for one that crosses. */
  lemma SeesFrame(f: seq<byte>, g: Log, i: nat)
    requires WellFormed(f, g) && i < |g.msgs|
    ensures var s := g.slots[i];
            BoundedField(f, Abs(g.block, s), Abs(g.block, Pos(s.blk, g.block)), g.marker) == FrameField(g, i)
  {
    if Crosses(g, i) {
      assert Stored(f, g, i) && Placed(g, i);
      SizeFieldReads(f, Abs(g.block, g.slots[i]), FrameLen(g.msgs[i]), g.marker);
    } else {
      SeesMessage(f, g, i);
    }
  }

  lemma HeaderReads(f: seq<byte>, off: nat, marker: bool)
    requires off > 0 && Holds(f, off, HeaderBytes(marker))
    ensures ReadField(f, off, marker) == Size(BLOCK_HEADER)
  {
    Part(f, off, HeaderBytes(marker), 0, 4);
    assert HeaderBytes(marker)[0..4] == SizeField(BLOCK_HEADER, marker);
    SizeFieldReads(f, off, BLOCK_HEADER, marker);
  }

  lemma SeesHeader(f: seq<byte>, g: Log, i: nat)
    requires WellFormed(f, g) && i < |g.msgs| && g.slots[i].blk != Cursor(g, i).blk
    ensures g.slots[i] == Pos(Cursor(g, i).blk + 1, BLOCK_HEADER)
    ensures var blk := g.slots[i].blk;
            BoundedField(f, Abs(g.block, Pos(blk, 0)), Abs(g.block, Pos(blk, g.block)), g.marker) == Size(BLOCK_HEADER)
  {
    assert Stored(f, g, i);
    SlotFollowsCursor(g, i);
    var blk := g.slots[i].blk;
    AbsOrder(g.block, Pos(0, g.block), Pos(blk, 0));
    HeaderReads(f, Abs(g.block, Pos(blk, 0)), g.marker);
  }

  lemma SeesSkip(f: seq<byte>, g: Log, i: nat)
    requires WellFormed(f, g) && i < |g.msgs|
    requires g.slots[i].blk != Cursor(g, i).blk && Cursor(g, i).rel + MIN_FRAME <= g.block
    ensures ReadField(f, Abs(g.block, Cursor(g, i)), g.marker) == Skip
  {
    assert Stored(f, g, i);
    CursorInBlock(g, i);
    SkipReads(f, Abs(g.block, Cursor(g, i)), g.marker);
  }

  /** In blank space there is nothing, also in the block behind. */
  lemma BlankFrame(f: seq<byte>, b: nat, marker: bool, p: Pos)
    requires BlankFrom(f, Abs(b, p)) && p.rel <= b
    ensures FrameFrom(f, b, marker, p).0 == Again
    ensures FrameFrom(f, b, marker, p).1 == Norm(b, p)
  {
    NextBlock(b, p.blk);
    BlankReads(f, Abs(b, p), marker);
    BlankReads(f, Abs(b, Pos(p.blk + 1, 0)), marker);
  }

  lemma FrameSeenBefore(f: seq<byte>, g: Log, p: Pos, i: nat)
    requires WellFormed(f, g) && Leads(g, p, i) && 0 != p.rel <= g.block && i < |g.msgs| && !AtSkip(g, p, i)
    ensures FrameFrom(f, g.block, g.marker, p) == (FrameField(g, i), g.slots[i])
  {
    LeadCases(g, p, i);
    SeesFrame(f, g, i);
    if g.slots[i].blk != Cursor(g, i).blk {
      SeesHeader(f, g, i);
    }
  }

  /** On a log `_read_frame` finds the next frame, the skip frame in front of it, or the end. */
  lemma FrameSeen(f: seq<byte>, g: Log, p: Pos, i: nat)
    requires WellFormed(f, g) && Leads(g, p, i) && 0 != p.rel <= g.block && Seeable(g, i)
    ensures var (r, q) := FrameFrom(f, g.block, g.marker, p);
            && Leads(g, q, i)
            && if i == |g.msgs| then r == Again
               else if AtSkip(g, p, i) then r == Skip && q == p
               else r == FrameField(g, i) && q == g.slots[i]
  {
    if i == |g.msgs| {
      LeadCases(g, p, i);
      BlankFrame(f, g.block, g.marker, p);
    } else if AtSkip(g, p, i) {
      LeadCases(g, p, i);
      SeesSkip(f, g, i);
    } else {
      FrameSeenBefore(f, g, p, i);
    }
  }

  /** Behind the end: nothing. */
  lemma SeesNothing(f: seq<byte>, g: Log, p: Pos)
    requires WellFormed(f, g) && Abs(g.block, Cursor(g, |g.msgs|)) <= Abs(g.block, p)
    ensures ReadField(f, Abs(g.block, p), g.marker) == Again
  {
    BlankReads(f, Abs(g.block, p), g.marker);
  }

  /** At the start of a block: the header in front of the next message, or nothing. */
  lemma StartSeen(f: seq<byte>, g: Log, p: Pos, i: nat)
    requires WellFormed(f, g) && Leads(g, p, i) && p.rel == 0 && Seeable(g, i)
    ensures var h := BoundedField(f, Abs(g.block, p), Abs(g.block, Pos(p.blk, g.block)), g.marker);
      if i == |g.msgs| then h == Again
      else h == Size(BLOCK_HEADER) && Leads(g, Pos(p.blk, BLOCK_HEADER), i)
  {
    StartCases(g, p, i);
    if i < |g.msgs| {
      SeesHeader(f, g, i);
    } else {
      CursorInBlock(g, i);
      AbsOrder(g.block, Cursor(g, i), p);
      SeesNothing(f, g, p);
    }
  }

  // ----- blocks

  lemma DivMul(i: nat, b: nat)
    requires b > 0
    ensures (i * b) / b == i
  {
    var q, r := (i * b) / b, (i * b) % b;
    assert q * b + r == i * b;
    if q < i {
      MulMono(b, q + 1, i);
    } else if q > i {
      MulMono(b, i + 1, q);
    }
  }

  lemma BlockOfEnd(b: nat, blk: nat)
    requires b > 0
    ensures Abs(b, Pos(blk, b)) / b == blk + 1
  {
    assert Abs(b, Pos(blk, b)) == (blk + 1) * b;
    DivMul(blk + 1, b);
  }

  lemma CeilBound(x: nat, b: nat)
    requires b > 0
    ensures ((x + b - 1) / b) * b >= x
  {
    var q, r := (x + b - 1) / b, (x + b - 1) % b;
    assert q * b + r == x + b - 1;
  }

  lemma NoMessagesPast(f: seq<byte>, g: Log, last: nat)
    requires WellFormed(f, g) && |f| <= Abs(g.block, Pos(last, 0))
    ensures FirstFrom(g.slots, last) == |g.msgs| && !Spilled(g, last)
    ensures LastCrosses(g) ==> last > EndBlock(g) + 1
  {
    var i := FirstFrom(g.slots, last);
    if i < |g.msgs| {
      assert Stored(f, g, i) && Placed(g, i);
      AbsOrder(g.block, Pos(last, 0), g.slots[i]);
    }
    if LastCrosses(g) && last <= EndBlock(g) + 1 {
      EndInFile(f, g);
      NextBlock(g.block, EndBlock(g));
      AbsOrder(g.block, Pos(last, 0), Pos(EndBlock(g) + 1, 0));
    }
  }

  /** Every block after the first that has messages starts with one, behind its header. */
  lemma FirstOpensBlock(g: Log, blk: nat)
    requires Shape(g) && blk >= 1
    ensures var i := FirstFrom(g.slots, blk);
            i < |g.msgs| ==> g.slots[i] == Pos(blk, BLOCK_HEADER) && Cursor(g, i).blk == blk - 1
  {
    var i := FirstFrom(g.slots, blk);
    if i < |g.msgs| {
      SlotFollowsCursor(g, i);
      assert Placed(g, i);
    }
  }

  /** A block without messages, other than one with the rest of a frame, lies behind the end. */
  lemma EndBelowBlock(g: Log, blk: nat)
    requires Shape(g) && blk >= 1 && FirstFrom(g.slots, blk) == |g.msgs| && !Spilled(g, blk)
    ensures Abs(g.block, Cursor(g, |g.msgs|)) <= Abs(g.block, Pos(blk, 0))
  {
    var n := |g.msgs|;
    CursorInBlock(g, n);
    if LastCrosses(g) {
      NextBlock(g.block, Cursor(g, n).blk);
      AbsOrder(g.block, Pos(Cursor(g, n).blk + 1, g.block), Pos(blk, 0));
    } else {
      AbsOrder(g.block, Cursor(g, n), Pos(blk, 0));
    }
  }

  lemma FirstFrameOfBlock(f: seq<byte>, g: Log, blk: nat)
    requires WellFormed(f, g)
    ensures var i := FirstFrom(g.slots, blk);
            var h := BoundedField(f, Abs(g.block, Pos(blk, 0)), Abs(g.block, Pos(blk, g.block)), g.marker);
            && (blk == 0 ==> h == Size(g.meta))
            && (blk >= 1 && i < |g.msgs| ==> h == Size(BLOCK_HEADER) && g.slots[i] == Pos(blk, BLOCK_HEADER))
            && (blk >= 1 && i == |g.msgs| && !Spilled(g, blk) ==> h == Again)
  {
    var i := FirstFrom(g.slots, blk);
    if blk >= 1 {
      if i < |g.msgs| {
        FirstOpensBlock(g, blk);
        SeesHeader(f, g, i);
      } else if !Spilled(g, blk) {
        EndBelowBlock(g, blk);
        SeesNothing(f, g, Pos(blk, 0));
      }
    }
  }

  /** Any position that leads to a stored message is inside the file, with a size field to read. */
  lemma FrameInFile(f: seq<byte>, g: Log, i: nat, p: Pos)
    requires WellFormed(f, g) && i < |g.msgs| && (p == g.slots[i] || p == Cursor(g, i))
    ensures Abs(g.block, p) + 4 <= |f|
  {
    SlotFollowsCursor(g, i);
    CursorInBlock(g, i);
    assert Stored(f, g, i) && Placed(g, i);
    AbsOrder(g.block, Cursor(g, i), g.slots[i]);
  }

  lemma BehindHeader(f: seq<byte>, g: Log, blk: nat)
    requires WellFormed(f, g)
    ensures var i, p := FirstIndex(g, blk), Pos(blk, if blk == 0 then g.meta else BLOCK_HEADER);
            && (blk == 0 || i < |g.msgs| ==> Leads(g, p, i))
            && (i < |g.msgs| ==> Abs(g.block, p) + 4 <= |f|)
  {
    var i, p := FirstIndex(g, blk), Pos(blk, if blk == 0 then g.meta else BLOCK_HEADER);
    if blk > 0 {
      FirstOpensBlock(g, blk);
    }
    if i < |g.msgs| {
      FrameInFile(f, g, i, p);
    }
  }

  /** Entering block `blk`: what its first frame is, and where one stands behind it. */
  lemma BlockEntry(f: seq<byte>, g: Log, blk: nat)
    requires WellFormed(f, g) && !Spilled(g, blk)
    ensures var h := BoundedField(f, Abs(g.block, Pos(blk, 0)), Abs(g.block, Pos(blk, g.block)), g.marker);
      var i := FirstIndex(g, blk);
      if blk > 0 && i == |g.msgs| then h == Again
      else
        && h == Size(if blk == 0 then g.meta else BLOCK_HEADER)
        && Leads(g, Pos(blk, h.n), i) && (i < |g.msgs| ==> Abs(g.block, Pos(blk, h.n)) + 4 <= |f|)
  {
    FirstFrameOfBlock(f, g, blk);
    BehindHeader(f, g, blk);
  }

  /** Of the positions behind the first frame of a block only the one behind the meta frame can be a skip frame. */
  lemma SkipOnlyInFirst(g: Log, blk: nat, p: Pos, i: nat)
    requires Shape(g) && i == FirstIndex(g, blk) && i < |g.msgs|
    requires p == Pos(blk, if blk == 0 then g.meta else BLOCK_HEADER)
    ensures AtSkip(g, p, i) <==> blk == 0 && SkipAfterMeta(g)
    ensures blk > 0 ==> p == g.slots[i]
  {
    if blk > 0 {
      FirstOpensBlock(g, blk);
    }
  }

  /** What is read where the rest of a crossing frame lies, and that nothing is behind it. */
  lemma RestOfFrame(f: seq<byte>, g: Log, blk: nat)
    requires WellFormed(f, g) && Spilled(g, blk)
    ensures BlankFrom(f, Abs(g.block, Pos(blk, BLOCK_HEADER)))
    ensures var off := Abs(g.block, Pos(blk, 0)); JumpsBack(f, off, g.marker, off) <==> Rewinds(g)
  {
    SpillHeld(f, g);
    SpillReads(f, g);
  }

  lemma BlankBehind(f: seq<byte>, b: nat, blk: nat, n: nat)
    requires BlankFrom(f, Abs(b, Pos(blk, BLOCK_HEADER))) && n >= BLOCK_HEADER
    ensures BlankFrom(f, Abs(b, Pos(blk, n)))
  {
  }

  /** Of the frames in a block only the first can cross it. */
  lemma CrossingIsFirst(g: Log, i: nat)
    requires Shape(g) && i < |g.msgs| && Crosses(g, i)
    ensures g.slots[i].blk >= 1 && FirstFrom(g.slots, g.slots[i].blk) == i
  {
    SlotFollowsCursor(g, i);
    var k := FirstFrom(g.slots, g.slots[i].blk);
    if k < |g.msgs| {
      CrossingIsAlone(g, i, k);
    }
  }

  lemma SlotsAscend(g: Log, i: nat, j: nat)
    requires Shape(g) && i <= j < |g.msgs|
    ensures g.slots[i].blk <= g.slots[j].blk
  {
    SlotFollowsCursor(g, i);
    SlotFollowsCursor(g, j);
    CursorsAscend(g, i + 1, j + 1);
  }

  /** The last block with messages: its first frame crosses it exactly when the last frame of all does. */
  lemma LastBlockIsGood(g: Log, blk: nat)
    requires Shape(g) && FirstFrom(g.slots, blk + 1) == |g.msgs| && FirstFrom(g.slots, blk) < |g.msgs|
    ensures blk == EndBlock(g)
    ensures LastCrosses(g) ==> FirstFrom(g.slots, blk) == |g.msgs| - 1
    ensures !LastCrosses(g) ==> forall k :: FirstFrom(g.slots, blk) <= k < |g.msgs| ==> !Crosses(g, k)
  {
    var i, n := FirstFrom(g.slots, blk), |g.msgs|;
    SlotsAscend(g, i, n - 1);
    if LastCrosses(g) {
      CrossingIsFirst(g, n - 1);
    } else {
      forall k | i <= k < n
        ensures !Crosses(g, k)
      {
        SlotsAscend(g, i, k);
        if Crosses(g, k) {
          CrossingIsAlone(g, k, n - 1);
        }
      }
    }
  }

  // ----- the bisection

  /** The bisection stands between two blocks that it can read, with the target from the first up to the second. */
  ghost predicate Between(g: Log, first: nat, last: nat, s: int)
    requires |g.slots| == |g.msgs|
  {
    && first < last <= EndBlock(g) + 1 && Before(g, first, s)
    && (first > 0 ==> !Crosses(g, FirstFrom(g.slots, first)))
    && Target(g.msgs, s) <= FirstFrom(g.slots, last)
    && (FirstFrom(g.slots, last) < |g.msgs| ==> !Crosses(g, FirstFrom(g.slots, last)))
  }

  /** And from there on it fails or not. */
  ghost predicate Halving(g: Log, first: nat, last: nat, s: int, fails: bool)
    requires |g.slots| == |g.msgs|
  {
    Between(g, first, last, s) && BisectFails(g, first, last, s) == fails
  }

  /** No frame on the way from message `i` to message `t` crosses its block. */
  ghost predicate ScanClear(g: Log, i: nat, t: nat)
    requires |g.slots| == |g.msgs|
  {
    forall k :: i <= k <= t && k < |g.msgs| ==> !Crosses(g, k)
  }

  lemma BetweenStart(g: Log, s: int)
    requires Shape(g) && g.msgs != [] && !BadStart(g)
    ensures Between(g, StartBlock(g), EndBlock(g) + 1, s)
  {
    var i := FirstFrom(g.slots, EndBlock(g) + 1);
    if i < |g.msgs| {
      SlotsAscend(g, i, |g.msgs| - 1);
    }
    SlotsAscend(g, 0, |g.msgs| - 1);
  }

  lemma BetweenStep(g: Log, first: nat, last: nat, mid: nat, s: int)
    requires Shape(g) && SortedLog(g.msgs) && Between(g, first, last, s) && first < mid < last
    ensures FirstFrom(g.slots, mid) < |g.msgs| && !Spilled(g, mid)
    ensures var i := FirstFrom(g.slots, mid); !Crosses(g, i) ==>
      && (g.msgs[i].seqno < s ==> Between(g, mid, last, s))
      && (g.msgs[i].seqno > s ==> Between(g, first, mid, s))
      && (g.msgs[i].seqno == s ==> Target(g.msgs, s) == i)
  {
    var i := FirstFrom(g.slots, mid);
    if !Crosses(g, i) && g.msgs[i].seqno == s {
      TargetIs(g.msgs, s, i);
    }
  }

  /** Where the search starts after the answer about block 0, or what it answers. */
  lemma SeekStarts(io: IO, f: seq<byte>, g: Log, s: int, r: SeqAt, p: Pos)
    requires Shape(g) && !LastCrosses(g) && BlockAnswer(io, f, g, 0, r, p)
    ensures if r.Found? then
              && g.msgs != [] && !Blocked(io, f, g) && !BadStart(g) && p.blk == StartBlock(g)
              && Between(g, p.blk, EndBlock(g) + 1, s)
            else SeekAnswer(io, f, g, s, r, p)
  {
    if r.Found? {
      BetweenStart(g, s);
    }
  }

  lemma OnlyFirstCrosses(g: Log, blk: nat, k: nat)
    requires Shape(g) && FirstIndex(g, blk) <= k < FirstFrom(g.slots, blk + 1) && Crosses(g, k)
    ensures blk > 0 && k == FirstFrom(g.slots, blk)
  {
    CrossingIsFirst(g, k);
    SlotsAscend(g, FirstIndex(g, blk), k);
  }

  /** When it ends, nothing between the first block and the target is in the way of the scan. */
  lemma BetweenEnds(g: Log, first: nat, s: int)
    requires Shape(g) && Between(g, first, first + 1, s)
    ensures ScanClear(g, FirstIndex(g, first), Target(g.msgs, s))
  {
    forall k | FirstIndex(g, first) <= k < FirstFrom(g.slots, first + 1)
      ensures !Crosses(g, k)
    {
      if Crosses(g, k) {
        OnlyFirstCrosses(g, first, k);
      }
    }
  }

  /** How a look at the block in the middle leads on. */
  lemma HalvingStep(g: Log, first: nat, last: nat, s: int, fails: bool)
    requires Shape(g) && SortedLog(g.msgs) && Halving(g, first, last, s, fails) && first + 1 < last
    ensures var mid := (first + last) / 2; var i := FirstFrom(g.slots, mid);
      && i < |g.msgs| && !Spilled(g, mid)
      && if Crosses(g, i) then fails
         else if g.msgs[i].seqno == s then !fails && Target(g.msgs, s) == i
         else if g.msgs[i].seqno > s then Halving(g, first, mid, s, fails)
         else Halving(g, mid, last, s, fails)
  {
    BetweenStep(g, first, last, (first + last) / 2, s);
  }

  lemma HalvingAnswer(io: IO, f: seq<byte>, g: Log, first: nat, last: nat, s: int, fails: bool, q: SeqAt, p: Pos)
    requires Shape(g) && SortedLog(g.msgs) && Halving(g, first, last, s, fails) && first + 1 < last
    requires BlockAnswer(io, f, g, (first + last) / 2, q, p)
    ensures
      match q
      case Failed => fails
      case Found(x) =>
        if x == s then
          var t := Target(g.msgs, s); !fails && t < |g.msgs| && g.msgs[t].seqno == s && p == g.slots[t]
        else if x > s then Halving(g, first, (first + last) / 2, s, fails)
        else Halving(g, (first + last) / 2, last, s, fails)
      case _ => false
  {
    HalvingStep(g, first, last, s, fails);
  }

  /** A block in the middle whose first frame crosses it makes every search fail. */
  lemma MiddleFails(g: Log, i: nat, s: int)
    requires Shape(g) && i < |g.msgs| && Crosses(g, i)
    requires g.slots[i].blk == (StartBlock(g) + EndBlock(g) + 1) / 2 && StartBlock(g) < EndBlock(g)
    ensures BisectFails(g, StartBlock(g), EndBlock(g) + 1, s)
  {
    CrossingIsFirst(g, i);
  }

  /** And no search fails without such a block. */
  lemma {:induction false} FailsOnlyAtCrossing(g: Log, lo: nat, hi: nat, s: int)
    requires Shape(g) && BisectFails(g, lo, hi, s)
    ensures exists i :: 0 <= i < |g.msgs| && Crosses(g, i) && lo < g.slots[i].blk < hi
    decreases hi - lo
  {
    var mid := (lo + hi) / 2;
    var i := FirstFrom(g.slots, mid);
    if Crosses(g, i) {
      CrossingIsFirst(g, i);
      FirstOpensBlock(g, mid);
    } else if g.msgs[i].seqno > s {
      FailsOnlyAtCrossing(g, lo, mid, s);
    } else {
      FailsOnlyAtCrossing(g, mid, hi, s);
    }
  }

  // ----- from the last block down

  /** No message in block `last` or behind it, and nothing there in the way of the search. */
  ghost predicate Down(g: Log, last: nat)
    requires Shape(g)
  {
    && FirstFrom(g.slots, last) == |g.msgs|
    && (LastCrosses(g) ==> last > EndBlock(g) && (last == EndBlock(g) + 1 ==> !Rewinds(g)))
  }

  /** Where the search starts: behind the end of the file. */
  lemma DownFromEnd(f: seq<byte>, g: Log, last: nat)
    requires WellFormed(f, g) && last == (|f| + g.block - 1) / g.block
    ensures last >= 1 && Down(g, last)
  {
    CeilBound(|f|, g.block);
    NoMessagesPast(f, g, last);
  }

  /** Where it ends without a message found. */
  lemma DownToFirst(g: Log)
    requires Shape(g) && Down(g, 1)
    ensures EndBlock(g) == 0 && !LastCrosses(g)
  {
    if LastCrosses(g) {
      CrossingIsFirst(g, |g.msgs| - 1);
    }
  }

  /** What the answer about the next block means for the search. */
  lemma DownStep(io: IO, f: seq<byte>, g: Log, blk: nat, r: SeqAt, p: Pos)
    requires Shape(g) && Down(g, blk + 1) && BlockAnswer(io, f, g, blk, r, p) && (blk > 0 || g.msgs != [])
    ensures r == Empty ==> Down(g, blk) && blk > 0
    ensures r.Failed? || r.Wild? ==> LastCrosses(g) && r == BadEnd(g)
    ensures r.Found? ==>
      var i := FirstIndex(g, blk);
      && !LastCrosses(g) && blk == EndBlock(g) && i < |g.msgs| && r == Found(g.msgs[i].seqno) && p == g.slots[i]
      && ScanClear(g, i, |g.msgs|)
  {
    if FirstFrom(g.slots, blk) < |g.msgs| {
      LastBlockIsGood(g, blk);
    }
  }

  // ----- opening

  lemma BoundsDecide(io: IO, f: seq<byte>, g: Log, r: SeqAt, p: Pos)
    requires Shape(g) && BoundsAnswer(io, f, g, r, p)
    ensures Bounded(io, f, g) == if r.Wild? then Undefined else if r.Failed? then Refuses else Opens
    ensures Bounded(io, f, g) == Opens ==> Leads(g, p, if Blocked(io, f, g) then 0 else |g.msgs|)
  {
  }

  /** After the bounds, the search decides whether the file opens and where. */
  lemma SeekDecides(io: IO, f: seq<byte>, g: Log, mode: Mode, r: SeqAt, p: Pos)
    requires Shape(g) && SortedLog(g.msgs) && Bounded(io, f, g) == Opens && (mode.FromSeq? || mode.FromLast?)
    requires SeekAnswer(io, f, g, SeqSought(g, mode), r, p) || (Blocked(io, f, g) && SeekAnswer(io, f, g, -1, r, p))
    ensures OpensAs(io, f, g, mode) == if r.Wild? then Undefined else if r.Failed? then Refuses else Opens
    ensures OpensAs(io, f, g, mode) == Opens ==> Leads(g, p, StartIndex(io, f, g, mode))
  {
    var n := |g.msgs|;
    if mode.FromLast? && n > 0 {
      TargetIs(g.msgs, g.msgs[n - 1].seqno, n - 1);
    }
  }

  /** Once a file has a message, the last post decides whether it can still be opened: exactly if it has a place. */
  lemma LastPostDecides(io: IO, f: seq<byte>, g: Log, m: Msg)
    requires Shape(g) && g.msgs != [] && !Blocked(io, f, g) && !BadStart(g) && Storable(m) && FrameLen(m) <= g.block
    ensures Shape(Extend(g, m))
    ensures Bounded(io, f, Extend(g, m)) == Opens <==> HasPlace(g.block, Cursor(g, |g.msgs|), FrameLen(m))
  {
    ExtendShape(g, m);
    assert Cursor(Extend(g, m), |g.msgs|) == Cursor(g, |g.msgs|);
    CrossesExactly(Extend(g, m), |g.msgs|);
  }

  function Zeros(n: nat, seqno: nat): Msg {
    Msg(0, seqno, seq(n, _ => 0))
  }

  lemma Small(n: nat)
    requires n < 10
    ensures Fits(0, 4) && Fits(n, 8)
  {
    Span256Values();
  }

  lemma AppendTwo(g: Log, a: Msg, b: Msg)
    requires Shape(g) && Acceptable(g.block, [a, b])
    ensures AppendAll(g, [a, b]) == Extend(Extend(g, a), b)
  {
    assert [a, b] == [a] + [b] && [b] == [b] + [];
    AppendOn(g, a, [b]);
    AppendOn(Extend(g, a), b, []);
  }

  lemma AppendThree(g: Log, a: Msg, b: Msg, c: Msg)
    requires Shape(g) && Acceptable(g.block, [a, b, c])
    ensures AppendAll(g, [a, b, c]) == Extend(Extend(Extend(g, a), b), c)
  {
    assert [a, b, c] == [a] + [b, c];
    AppendOn(g, a, [b, c]);
    AppendTwo(Extend(g, a), b, c);
  }

  /** Two posts after which the file cannot be opened. */
  lemma CrossingPostRefuses(io: IO, f: seq<byte>, mode: Mode)
    ensures var ms := [Zeros(10, 0), Zeros(4079, 1)];
      Acceptable(4096, ms) && OpensAs(io, f, AppendAll(Bare(4096, 60, true), ms), mode) == Refuses
  {
    Small(0);
    Small(1);
    AppendTwo(Bare(4096, 60, true), Zeros(10, 0), Zeros(4079, 1));
  }

  /** With a third it opens again, and reading stops at the second. */
  lemma LaterPostOpens(io: IO, f: seq<byte>)
    ensures var ms := [Zeros(10, 0), Zeros(4079, 1), Zeros(10, 2)];
      && Acceptable(4096, ms)
      && var g := AppendAll(Bare(4096, 60, true), ms);
         OpensAs(io, f, g, FromStart) == Opens && ReadableFrom(g, 0) == 1
  {
    Small(0);
    Small(1);
    Small(2);
    AppendThree(Bare(4096, 60, true), Zeros(10, 0), Zeros(4079, 1), Zeros(10, 2));
  }

  /** One post after which plain reads refuse the file, and a mapping always starts at the first message. */
  lemma LongFirstPost(f: seq<byte>, mode: Mode)
    requires ByteAt(f, 58) < 0x80
    ensures var ms := [Zeros(4033, 0)];
      && Acceptable(4096, ms)
      && var g := AppendAll(Bare(4096, 60, true), ms);
         && OpensAs(Posix, f, g, mode) == Refuses
         && OpensAs(Mmap, f, g, mode) == Opens && StartIndex(Mmap, f, g, mode) == 0
  {
    var g0, m := Bare(4096, 60, true), Zeros(4033, 0);
    Small(0);
    assert [m] == [m] + [];
    AppendOn(g0, m, []);
    assert Extend(g0, m).slots == [Pos(1, 5)];
  }

  /** Of the bytes only those of the meta frame matter. */
  lemma OpensByMeta(io: IO, f: seq<byte>, meta: seq<byte>, g: Log, mode: Mode)
    requires Shape(g) && |meta| == g.meta && SameBelow(meta, f, |meta|)
    ensures Blocked(io, f, g) == Blocked(io, meta, g) && Bounded(io, f, g) == Bounded(io, meta, g)
    ensures OpensAs(io, f, g, mode) == OpensAs(io, meta, g, mode)
    ensures StartIndex(io, f, g, mode) == StartIndex(io, meta, g, mode)
  {
    assert ByteAt(f, g.meta - 2) == ByteAt(meta, g.meta - 2);
  }

  /** Everything can be read from the start: nothing crosses its block, and `_block_seq` gets past the meta frame. */
  ghost predicate Faultless(io: IO, g: Log)
    requires |g.slots| == |g.msgs|
  {
    ReadableFrom(g, 0) == |g.msgs| && (io == Mmap || FirstFits(g.block, g.meta, g.msgs))
  }

  lemma FaultlessExactly(io: IO, f: seq<byte>, g: Log)
    requires Shape(g)
    ensures Faultless(io, g) <==> OpensAs(io, f, g, FromStart) == Opens && ReadableFrom(g, 0) == |g.msgs|
  {
    SkipAfterMetaExactly(g);
  }

  /** The file cut off behind its meta frame holds no message. */
  lemma BareFile(f: seq<byte>, f': seq<byte>, g: Log)
    requires WellFormed(f, g) && SameBelow(f, f', g.meta) && BlankFrom(f', g.meta)
    ensures WellFormed(f', g.(msgs := [], slots := []))
  {
    SameMeta(f, f', g);
  }

  // ----- what a post leaves behind

  /** The header of the block that slot `s` opens, and the skip frame that ended the one of `c`. */
  ghost predicate OpenedFor(f: seq<byte>, b: nat, marker: bool, c: Pos, s: Pos) {
    s.blk != c.blk ==>
      && Holds(f, Abs(b, Pos(s.blk, 0)), HeaderBytes(marker))
      && Abs(b, Pos(s.blk, 0)) + BLOCK_HEADER <= Abs(b, s)
      && (c.rel + MIN_FRAME <= b ==> Holds(f, Abs(b, c), SkipBytes()) && Abs(b, c) + 4 <= Abs(b, s))
  }

  lemma HoldsAfterWrite(f: seq<byte>, off: nat, s: seq<byte>, off': nat, s': seq<byte>)
    requires Holds(f, off, s) && off + |s| <= off'
    ensures Holds(WriteAt(f, off', s'), off, s)
  {
    var r := WriteAt(f, off', s');
    assert r[off..off + |s|] == f[off..off + |s|];
  }

  lemma OpenBlock(f0: seq<byte>, off: nat, marker: bool, end: nat)
    requires BlankFrom(f0, off) && end <= off && end <= |f0|
    ensures var f1 := WriteAt(f0, off, HeaderBytes(marker));
            BlankFrom(f1, off + BLOCK_HEADER) && Holds(f1, off, HeaderBytes(marker)) && SameBelow(f0, f1, end)
  {
  }

  lemma SameBelowTwice(f: seq<byte>, f0: seq<byte>, f1: seq<byte>, end: nat)
    requires SameBelow(f, f0, end) && SameBelow(f0, f1, end) && end <= |f|
    ensures SameBelow(f, f1, end)
  {
  }

  /** The stores that close a block at `off0` and open the next one at `off`. */
  lemma NextBlockBytes(f: seq<byte>, off0: nat, off: nat, marker: bool, skip: bool)
    requires off0 <= |f| && BlankFrom(f, off0) && off0 <= off && (skip ==> off0 + 4 <= off)
    ensures var f0 := if skip then WriteAt(f, off0, SkipBytes()) else f;
            var f1 := WriteAt(f0, off, HeaderBytes(marker));
            && SameBelow(f, f1, off0) && BlankFrom(f1, off + BLOCK_HEADER) && Holds(f1, off, HeaderBytes(marker))
            && (skip ==> Holds(f1, off0, SkipBytes()))
  {
    var f0 := if skip then WriteAt(f, off0, SkipBytes()) else f;
    OpenBlock(f0, off, marker, off0);
    if skip {
      HoldsAfterWrite(f0, off0, SkipBytes(), off, HeaderBytes(marker));
    }
  }

  /** A new block for a frame that does not go into the old one, behind a last frame that stayed in its block. */
  lemma RoomInNextBlock(f: seq<byte>, b: nat, marker: bool, c: Pos, p: Pos, n: nat)
    requires 0 < c.rel <= b && MIN_FRAME <= n <= b && (p == c || p == Norm(b, c))
    requires Abs(b, c) <= |f| && BlankFrom(f, Abs(b, c)) && Place(b, p, n).blk != c.blk
    ensures var s, f1 := Place(b, p, n), RoomBytes(f, b, marker, p, n);
            && s == Pos(c.blk + 1, BLOCK_HEADER) && SameBelow(f, f1, Abs(b, c)) && Abs(b, c) <= Abs(b, s)
            && BlankFrom(f1, Abs(b, s)) && OpenedFor(f1, b, marker, c, s)
  {
    var skip, off := p.rel + n > b && p.rel + 4 < b, Abs(b, Pos(c.blk + 1, 0));
    NextBlock(b, c.blk);
    assert Abs(b, c) + (b - c.rel) == off;
    assert Abs(b, Pos(c.blk + 1, BLOCK_HEADER)) == off + BLOCK_HEADER;
    NextBlockBytes(f, Abs(b, c), off, marker, skip);
  }

  lemma HeaderOverRest(f: seq<byte>, off: nat, end: nat, marker: bool)
    requires off <= end <= |f| && end <= off + BLOCK_HEADER && BlankFrom(f, end)
    ensures var f1 := WriteAt(f, off, HeaderBytes(marker));
            SameBelow(f, f1, off) && BlankFrom(f1, off + BLOCK_HEADER) && Holds(f1, off, HeaderBytes(marker))
  {
  }

  /** The same behind one that crossed its block: the header covers what that left in the next one. */
  lemma RoomAfterCrossing(f: seq<byte>, b: nat, marker: bool, c: Pos, p: Pos, n: nat)
    requires b < c.rel <= b + BLOCK_HEADER && MIN_FRAME <= n <= b && (p == c || p == Norm(b, c))
    requires Abs(b, c) <= |f| && BlankFrom(f, Abs(b, c))
    ensures var s, f1 := Place(b, p, n), RoomBytes(f, b, marker, p, n);
            && s == Pos(c.blk + 1, BLOCK_HEADER) && SameBelow(f, f1, Abs(b, Pos(c.blk, b)))
            && Abs(b, Pos(c.blk, b)) <= Abs(b, s) && BlankFrom(f1, Abs(b, s)) && OpenedFor(f1, b, marker, c, s)
  {
    var off := Abs(b, Pos(c.blk + 1, 0));
    NextBlock(b, c.blk);
    assert off == Abs(b, Pos(c.blk, b)) && Abs(b, c) == off + (c.rel - b);
    assert Abs(b, Pos(c.blk + 1, BLOCK_HEADER)) == off + BLOCK_HEADER;
    HeaderOverRest(f, off, Abs(b, c), marker);
  }

  /** After making room: nothing below the old end has changed, the block is opened if need be, and
      everything from the slot on is still blank. */
  lemma RoomIsBlank(f: seq<byte>, b: nat, marker: bool, c: Pos, p: Pos, n: nat)
    requires 0 < c.rel <= b + BLOCK_HEADER && MIN_FRAME <= n <= b && (p == c || p == Norm(b, c))
    requires Abs(b, c) <= |f| && BlankFrom(f, Abs(b, c))
    ensures var s, f1, e := Place(b, p, n), RoomBytes(f, b, marker, p, n), Abs(b, Clip(b, c));
            && s == Place(b, c, n) && SameBelow(f, f1, e) && e <= Abs(b, s) && BlankFrom(f1, Abs(b, s))
            && OpenedFor(f1, b, marker, c, s)
  {
    PlaceAfterNorm(b, c, n);
    if c.rel > b {
      RoomAfterCrossing(f, b, marker, c, p, n);
    } else if Place(b, p, n).blk != c.blk {
      RoomInNextBlock(f, b, marker, c, p, n);
    }
  }

  /** The frame written behind a blank slot, and what was written before it. */
  lemma FrameWritten(f1: seq<byte>, b: nat, marker: bool, c: Pos, s: Pos, m: Msg)
    requires Storable(m) && BlankFrom(f1, Abs(b, s)) && OpenedFor(f1, b, marker, c, s)
    ensures var f2 := WriteAt(f1, Abs(b, s), FrameBytes(m, marker));
            && Holds(f2, Abs(b, s), SizeField(FrameLen(m), marker)) && BlankFrom(f2, Abs(b, s) + FrameLen(m))
            && OpenedFor(f2, b, marker, c, s)
  {
    var f2 := WriteAt(f1, Abs(b, s), FrameBytes(m, marker));
    FrameFields(f2, Abs(b, s), m, marker);
    if s.blk != c.blk {
      HoldsAfterWrite(f1, Abs(b, Pos(s.blk, 0)), HeaderBytes(marker), Abs(b, s), FrameBytes(m, marker));
      if c.rel + MIN_FRAME <= b {
        HoldsAfterWrite(f1, Abs(b, c), SkipBytes(), Abs(b, s), FrameBytes(m, marker));
      }
    }
  }

  lemma PostStored(f1: seq<byte>, g: Log, m: Msg)
    requires |g.slots| == |g.msgs| && Storable(m)
    requires var c, s := Cursor(g, |g.msgs|), Place(g.block, Cursor(g, |g.msgs|), FrameLen(m));
             BlankFrom(f1, Abs(g.block, s)) && OpenedFor(f1, g.block, g.marker, c, s)
    ensures var s := Place(g.block, Cursor(g, |g.msgs|), FrameLen(m));
            var f2 := WriteAt(f1, Abs(g.block, s), FrameBytes(m, g.marker));
            Stored(f2, Extend(g, m), |g.msgs|) && TailAt(f2, Extend(g, m))
  {
    var c := Cursor(g, |g.msgs|);
    FrameWritten(f1, g.block, g.marker, c, Place(g.block, c, FrameLen(m)), m);
    assert Cursor(Extend(g, m), |g.msgs|) == c;
  }

  /** The bytes `_write_data` leaves behind are those of the log with the message appended. */
  lemma PostKeeps(f: seq<byte>, g: Log, p: Pos, m: Msg)
    requires WellFormed(f, g) && AtEndOf(g, p) && Storable(m) && FrameLen(m) <= g.block
    ensures var f' := PostBytes(f, g.block, g.marker, p, m);
      && Place(g.block, p, FrameLen(m)) == Place(g.block, Cursor(g, |g.msgs|), FrameLen(m))
      && SameBelow(f, f', Floor(g)) && WellFormed(f', Extend(g, m))
  {
    var n, b, c := FrameLen(m), g.block, Cursor(g, |g.msgs|);
    EndInFile(f, g);
    CursorInBlock(g, |g.msgs|);
    RoomIsBlank(f, b, g.marker, c, p, n);
    var f1 := RoomBytes(f, b, g.marker, p, n);
    PostStored(f1, g, m);
    SameBelowTwice(f, f1, PostBytes(f, b, g.marker, p, m), Floor(g));
    AppendKeeps(f, PostBytes(f, b, g.marker, p, m), g, m);
  }

  /** From post to post: the handle stands where the next message goes, and the meta frame stays. */
  lemma PostFromEnd(f: seq<byte>, g: Log, b: nat, marker: bool, p: Pos, m: Msg)
    requires EndState(f, g, b, marker, p) && Storable(m) && FrameLen(m) <= b
    ensures var f' := PostBytes(f, b, marker, p, m);
      EndState(f', Extend(g, m), b, marker, After(b, p, FrameLen(m))) && SameBelow(f, f', g.meta)
  {
    PostKeeps(f, g, p, m);
    EndInFile(f, g);
    MetaBelowFloor(g);
  }

  // ----- reopening

  /**
   * What `_open` leaves of the file for the handle at `off`, with `spare` zeros behind.  Plain reads
   * leave a rest of up to three bytes, as they cannot read a size there.
   */
  function Trimmed(io: IO, f: seq<byte>, off: nat, spare: nat): seq<byte> {
    (if off < |f| && (io == Mmap || off + 4 <= |f|) then f[..off] else f) + seq(spare, _ => 0)
  }

  lemma TrimmedAtEnd(io: IO, f: seq<byte>, g: Log, b: nat, marker: bool, p: Pos, spare: nat)
    requires EndState(f, g, b, marker, p) && !LastCrosses(g)
    ensures EndState(Trimmed(io, f, Abs(b, p), spare), g, b, marker, p)
    ensures SameBelow(f, Trimmed(io, f, Abs(b, p), spare), g.meta)
  {
    EndInFile(f, g);
    CursorInBlock(g, |g.msgs|);
    MetaBelowFloor(g);
    AbsOrder(b, Cursor(g, |g.msgs|), p);
    TailIsFree(f, Trimmed(io, f, Abs(b, p), spare), g);
  }

  lemma TrimmedToMeta(f: seq<byte>, g: Log, b: nat, marker: bool, spare: nat)
    requires Holding(f, g, b, marker) && g.msgs != []
    ensures var f', h := Trimmed(Mmap, f, g.meta, spare), Bare(b, g.meta, marker);
      f' == f[..g.meta] + seq(spare, _ => 0) && EndState(f', h, b, marker, Pos(0, g.meta))
  {
    EndInFile(f, g);
    MetaBelowFloor(g);
    BareFile(f, Trimmed(Mmap, f, g.meta, spare), g);
  }
}
