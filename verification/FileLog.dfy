/**
 * The file channel (file.cc) on one file: writing, sequential reading, searching and reopening.
 * The methods work on arbitrary bytes; what they achieve is stated for a file that holds a log.
 *
 * `log` is what the file holds and `at` the handle's position in terms of blocks; both are ghost.
 */
module FileLog {
  import opened Common
  import opened Bytes
  import opened FileLayout
  import opened FileImage

  datatype Got = Delivered(m: Msg) | EndOfData | Broken
  datatype Put = Done | NotIncreasing | TooLong
  datatype Sight = Here(m: Msg, n: nat) | Beyond | Nothing | Wrong

  class File {
    const io: IO
    const block: nat
    const marker: bool
    var bytes: seq<byte>
    var offset: nat
    var blockEnd: nat
    var lastSeq: int
    var firstSeq: int
    ghost var log: Log
    ghost var at: Pos

    /** The handle's offset and block end, in terms of blocks. */
    ghost predicate Located()
      reads this
    {
      && block >= MIN_FRAME + BLOCK_HEADER
      && offset == Abs(block, at) && blockEnd == Abs(block, Pos(at.blk, block))
    }

    /** Inside its block, as all readers are. */
    ghost predicate Positioned()
      reads this
    {
      Located() && at.rel <= block
    }

    /** The file holds `log`. */
    ghost predicate Good()
      reads this
    {
      Located() && Holding(bytes, log, block, marker)
    }

    ghost predicate At(i: nat)
      reads this
    {
      Good() && Leads(log, at, i)
    }

    /** `_io.block`. */
    method GoToBlock(start: nat, ghost blk: nat)
      requires block >= MIN_FRAME + BLOCK_HEADER && start == Abs(block, Pos(blk, 0))
      modifies this`offset, this`blockEnd, this`at
      ensures Positioned() && at == Pos(blk, 0)
    {
      offset := start;
      blockEnd := start + block;
      at := Pos(blk, 0);
    }

    method Advance(n: nat)
      requires Located()
      modifies this`offset, this`at
      ensures Located() && at == Pos(old(at).blk, old(at).rel + n)
    {
      offset := offset + n;
      at := Pos(at.blk, at.rel + n);
    }

    /** `_shift_skip`. */
    method SkipRest()
      requires Positioned()
      modifies this`offset, this`at
      ensures Positioned() && at == Pos(old(at).blk, block)
    {
      offset := blockEnd;
      at := Pos(at.blk, block);
    }

    // ----- reading

    /** `_read_frame_nocheck`. */
    method ReadFrameNoCheck() returns (r: Field)
      ensures r == BoundedField(bytes, offset, blockEnd, marker)
    {
      r := BoundedField(bytes, offset, blockEnd, marker);
    }

    /** The frame every block starts with: the block header or, in block 0, the meta frame. */
    method ReadHeader() returns (r: Field)
      requires Positioned() && at.rel == 0
      modifies this`offset, this`at
      ensures Positioned()
      ensures r == BoundedField(bytes, old(offset), blockEnd, marker)
      ensures at == if r.Size? then Pos(old(at).blk, r.n) else old(at)
    {
      r := ReadFrameNoCheck();
      if r.Size? {
        Advance(r.n);
      }
    }

    /** `_read_frame`: with fewer than 17 bytes left, go to the next block and past its header first. */
    method ReadNextFrame() returns (r: Field)
      requires Positioned() && at.rel != 0
      modifies this`offset, this`blockEnd, this`at
      ensures Positioned()
      ensures (r, at) == FrameFrom(bytes, block, marker, old(at))
      ensures offset + blockEnd >= old(offset + blockEnd)
      ensures r.Skip? || r.Size? ==> offset + 4 <= |bytes|
      ensures r.Skip? ==> offset < blockEnd || blockEnd > old(blockEnd)
      ensures r.Size? ==> 0 < r.n && offset + r.n <= blockEnd
      ensures r.Size? || r.Skip? ==> at.rel != 0
    {
      if offset + MIN_FRAME > blockEnd {
        NextBlock(block, at.blk);
        GoToBlock(blockEnd, at.blk + 1);
        var h := ReadHeader();
        if !h.Size? {
          return if h.Again? then Again else Corrupt;
        }
      }
      r := ReadFrameNoCheck();
    }

    /** The same on a file that holds `log`, before message `i`: a skip frame, the frame, or the end. */
    method ReadFrame(ghost i: nat) returns (r: Field)
      requires Positioned() && at.rel != 0
      modifies this`offset, this`blockEnd, this`at
      ensures Positioned()
      ensures (r, at) == FrameFrom(bytes, block, marker, old(at))
      ensures offset + blockEnd >= old(offset + blockEnd)
      ensures r.Skip? || r.Size? ==> offset + 4 <= |bytes|
      ensures r.Skip? ==> offset < blockEnd || blockEnd > old(blockEnd)
      ensures r.Size? ==> 0 < r.n && offset + r.n <= blockEnd
      ensures r.Size? || r.Skip? ==> at.rel != 0
      ensures old(At(i)) && Seeable(log, i) ==>
                && Leads(log, at, i)
                && if i == |log.msgs| then r == Again
                   else if AtSkip(log, old(at), i) then r == Skip && at == old(at)
                   else r == FrameField(log, i) && at == log.slots[i]
    {
      if At(i) && Seeable(log, i) {
        FrameSeen(bytes, log, at, i);
      }
      r := ReadNextFrame();
    }

    /** `_read_data` at the handle. */
    method PeekMessage(n: nat, ghost i: nat) returns (d: Data)
      ensures d == ReadPayload(bytes, offset, n)
      ensures At(i) && i < |log.msgs| && !Crosses(log, i) && at == log.slots[i] && n == FrameLen(log.msgs[i]) ==>
                d == Message(log.msgs[i])
    {
      if At(i) && i < |log.msgs| && !Crosses(log, i) {
        SeesMessage(bytes, log, i);
      }
      d := ReadPayload(bytes, offset, n);
    }

    /** The part of `_process` that takes a frame of `n` bytes at the current offset. */
    method TakeMessage(n: nat, ghost i: nat) returns (r: Got)
      requires Positioned() && offset + n <= blockEnd
      modifies this`offset, this`at, this`lastSeq
      ensures Positioned()
      ensures old(At(i)) && i < |log.msgs| && FrameField(log, i) == Size(n) && old(at) == log.slots[i] ==>
                r == Delivered(log.msgs[i]) && at == Cursor(log, i + 1) && lastSeq == log.msgs[i].seqno
    {
      var d := PeekMessage(n, i);
      match d {
        case NoData => r := EndOfData;
        case Bad => r := Broken;
        case Message(m) =>
          Advance(n);
          lastSeq := m.seqno;
          r := Delivered(m);
      }
    }

    /** The start of `_process`: at the very beginning of a block, step over its first frame. */
    method EnterBlock(ghost i: nat) returns (r: Field)
      requires Positioned()
      modifies this`offset, this`at
      ensures Positioned()
      ensures r.Size? ==> at.rel != 0 && offset >= old(offset)
      ensures old(At(i)) && Seeable(log, i) ==> Leads(log, at, i) && (r.Size? || (i == |log.msgs| && r == Again))
    {
      if offset + block != blockEnd {
        return Size(0);
      }
      if At(i) && Seeable(log, i) {
        StartSeen(bytes, log, at, i);
      }
      r := ReadHeader();
    }

    /** `_process`: the next message, or nothing yet.  A skip frame makes it start over in the next block. */
    method Process(ghost i: nat) returns (r: Got)
      requires Positioned()
      modifies this`offset, this`blockEnd, this`at, this`lastSeq
      ensures Positioned()
      ensures old(At(i)) && i < |log.msgs| && !Crosses(log, i) ==>
                r == Delivered(log.msgs[i]) && Leads(log, at, i + 1) && lastSeq == log.msgs[i].seqno
      ensures old(At(i)) && i < |log.msgs| && Crosses(log, i) ==>
                r == Broken && Leads(log, at, i) && lastSeq == old(lastSeq)
      ensures old(At(i)) && i == |log.msgs| && !LastCrosses(log) ==>
                r == EndOfData && Leads(log, at, i) && lastSeq == old(lastSeq)
    {
      ghost var good := At(i) && Seeable(log, i);
      while true
        invariant Positioned()
        invariant good ==> Leads(log, at, i) && lastSeq == old(lastSeq)
        decreases 2 * (|bytes| + block) - offset - blockEnd
      {
        var h := EnterBlock(i);
        if !h.Size? {
          return if h.Again? then EndOfData else Broken;
        }
        var f := ReadFrame(i);
        match f {
          case Again => return EndOfData;
          case Corrupt => return Broken;
          case Back(_) => return Broken;
          case Skip =>
            SkipRest();
            if good {
              assert Leads(log, at, i);
            }
          case Size(n) =>
            r := TakeMessage(n, i);
            return;
        }
      }
    }

    /** Reading on from message `i`: all up to the first that crosses its block, where there is an error. */
    method ReadOn(ghost i: nat) returns (out: seq<Msg>, ok: bool)
      requires Positioned() && At(i) && (i == |log.msgs| ==> !LastCrosses(log))
      modifies this`offset, this`blockEnd, this`at, this`lastSeq
      ensures Positioned() && At(ReadableFrom(log, i))
      ensures out == log.msgs[i..ReadableFrom(log, i)] && (ok <==> ReadableFrom(log, i) == |log.msgs|)
    {
      out := [];
      ghost var k := i;
      ghost var stop := ReadableFrom(log, i);
      var r := Process(i);
      while r.Delivered?
        invariant Positioned() && i <= k <= stop && out == log.msgs[i..k]
        invariant if r.Delivered? then k < stop && r.m == log.msgs[k] && Leads(log, at, k + 1)
                  else k == stop && Leads(log, at, k) && (r.EndOfData? <==> stop == |log.msgs|)
        decreases stop - k
      {
        out := out + [r.m];
        k := k + 1;
        r := Process(k);
      }
      ok := r.EndOfData?;
    }

    // ----- writing

    /** The handle stands where the next message goes. */
    ghost predicate AtEnd()
      reads this
    {
      Located() && EndState(bytes, log, block, marker, at)
    }

    /** `_write_block`. */
    method WriteBlockHeader()
      requires Located() && at.rel == 0
      modifies this`bytes, this`offset, this`at
      ensures Located() && at == Pos(old(at).blk, BLOCK_HEADER)
      ensures bytes == WriteAt(old(bytes), old(offset), HeaderBytes(marker))
    {
      bytes := WriteAt(bytes, offset, HeaderBytes(marker));
      Advance(BLOCK_HEADER);
    }

    /** `_write_data` up to the frame itself: close the block if the frame does not fit, open the next one. */
    method MakeRoom(n: nat)
      requires Located() && MIN_FRAME <= n <= block
      modifies this`bytes, this`offset, this`blockEnd, this`at
      ensures Located() && at == Place(block, old(at), n)
      ensures bytes == RoomBytes(old(bytes), block, marker, old(at), n)
    {
      if offset + n > blockEnd {
        if offset + 4 < blockEnd {
          bytes := WriteAt(bytes, offset, SkipBytes());
        }
        NextBlock(block, at.blk);
        GoToBlock(blockEnd, at.blk + 1);
      }
      if offset + block == blockEnd {
        WriteBlockHeader();
      }
    }

    /** `_write_data`. */
    method WriteData(m: Msg)
      requires Located() && Storable(m) && FrameLen(m) <= block
      modifies this`bytes, this`offset, this`blockEnd, this`at
      ensures Located() && at == After(block, old(at), FrameLen(m))
      ensures bytes == PostBytes(old(bytes), block, marker, old(at), m)
    {
      MakeRoom(FrameLen(m));
      bytes := WriteAt(bytes, offset, FrameBytes(m, marker));
      Advance(FrameLen(m));
    }

    /** The same, seen from the log. */
    method Append(m: Msg)
      requires Located() && Storable(m) && FrameLen(m) <= block
      modifies this`bytes, this`offset, this`blockEnd, this`at, this`log
      ensures Located() && at == After(block, old(at), FrameLen(m))
      ensures bytes == PostBytes(old(bytes), block, marker, old(at), m)
      ensures old(AtEnd()) ==> AtEnd() && log == Extend(old(log), m) && SameBelow(old(bytes), bytes, log.meta)
    {
      if AtEnd() {
        PostFromEnd(bytes, log, block, marker, at, m);
        log := Extend(log, m);
      }
      WriteData(m);
    }

    /** `_post`: refuse a seq that does not increase and a message over the block size, else write it. */
    method Post(m: Msg) returns (r: Put)
      requires Located() && Storable(m)
      modifies this
      ensures Located()
      ensures r == if m.seqno <= old(lastSeq) then NotIncreasing else if FrameLen(m) > block then TooLong else Done
      ensures r != Done ==> unchanged(this)
      ensures r == Done ==>
                && bytes == PostBytes(old(bytes), block, marker, old(at), m) && at == After(block, old(at), FrameLen(m))
                && lastSeq == m.seqno && firstSeq == if old(firstSeq) == -1 then m.seqno else old(firstSeq)
      ensures r == Done && old(AtEnd()) ==>
                AtEnd() && log == Extend(old(log), m) && SameBelow(old(bytes), bytes, log.meta)
    {
      if m.seqno <= lastSeq {
        return NotIncreasing;
      }
      if FrameLen(m) > block {
        return TooLong;
      }
      Append(m);
      lastSeq := m.seqno;
      if firstSeq == -1 {
        firstSeq := lastSeq;
      }
      r := Done;
    }

    // ----- opening and searching

    /** A new file: the meta frame has been written and nothing else. */
    constructor Create(io: IO, block: nat, marker: bool, meta: seq<byte>)
      requires MetaFrame(block, marker, meta)
      ensures this.io == io && this.block == block && this.marker == marker && bytes == meta
      ensures AtEnd() && log == Bare(block, |meta|, marker) && lastSeq == -1 && firstSeq == -1
    {
      this.io, this.block, this.marker := io, block, marker;
      bytes := meta;
      offset, blockEnd := |meta|, block;
      lastSeq, firstSeq := -1, -1;
      log := Bare(block, |meta|, marker);
      at := Pos(0, |meta|);
    }

    /** `_shift_block`. */
    method ShiftBlock(start: nat, ghost blk: nat) returns (r: Field)
      requires block >= MIN_FRAME + BLOCK_HEADER && start == Abs(block, Pos(blk, 0))
      modifies this`offset, this`blockEnd, this`at
      ensures Positioned()
      ensures r == BoundedField(bytes, start, Abs(block, Pos(blk, block)), marker)
      ensures at == if r.Size? then Pos(blk, r.n) else Pos(blk, 0)
      ensures r.Size? ==> at.rel != 0
    {
      GoToBlock(start, blk);
      r := ReadHeader();
    }

    /** `_seek_start`. */
    method SeekStart() returns (ok: bool)
      requires block >= MIN_FRAME + BLOCK_HEADER
      modifies this`offset, this`blockEnd, this`at
      ensures Positioned()
      ensures Holding(bytes, log, block, marker) ==> ok && Leads(log, at, 0)
    {
      var h := ShiftBlock(0, 0);
      ok := h.Size?;
    }

    /** `_read_seq`: the seq of the frame at the handle, which stays there. */
    method ReadSeq(ghost i: nat) returns (r: SeqAt)
      requires Positioned() && at.rel != 0
      modifies this`offset, this`blockEnd, this`at
      ensures Positioned() && (r.Found? ==> at.rel != 0)
      ensures old(At(i)) && i < |log.msgs| ==>
                if AtSkip(log, old(at), i) then r == SkipSeq(io, bytes, old(offset)) && at == old(at)
                else if Crosses(log, i) then r == Failed
                else r == Found(log.msgs[i].seqno) && at == log.slots[i]
      ensures BlankFrom(bytes, old(offset)) ==> r == Empty && at == Norm(block, old(at))
    {
      if BlankFrom(bytes, offset) {
        BlankFrame(bytes, block, marker, at);
      }
      var f := ReadFrame(i);
      match f {
        case Again => return Empty;
        case Corrupt => return Failed;
        case Back(_) => return if io == Posix then Failed else Wild;
        case Skip => return SkipSeq(io, bytes, offset);
        case Size(n) =>
          var d := PeekMessage(n, i);
          return match d case NoData => Empty case Bad => Failed case Message(m) => Found(m.seqno);
      }
    }

    /** The start of `_block_seq`: past the first frame of block `blk`. */
    method EnterForSeq(blk: nat, ghost i: nat) returns (h: Field)
      requires block >= MIN_FRAME + BLOCK_HEADER && i == FirstIndex(log, blk)
      modifies this`offset, this`blockEnd, this`at
      ensures Positioned() && (h.Size? ==> at.rel != 0)
      ensures h == BoundedField(bytes, Abs(block, Pos(blk, 0)), Abs(block, Pos(blk, block)), marker)
      ensures at == Pos(blk, if h.Size? then h.n else 0)
      ensures Holding(bytes, log, block, marker) && !Spilled(log, blk) ==>
                if blk > 0 && i == |log.msgs| then h == Again
                else
                  && h == Size(if blk == 0 then log.meta else BLOCK_HEADER)
                  && Leads(log, at, i) && (i < |log.msgs| ==> offset + 4 <= |bytes|)
    {
      if Holding(bytes, log, block, marker) && !Spilled(log, blk) {
        BlockEntry(bytes, log, blk);
      }
      GoToBlock(blk * block, blk);
      h := ReadHeader();
    }

    /** The rest of it, behind that frame. */
    method SeqBehind(ghost blk: nat, ghost i: nat) returns (r: SeqAt)
      requires Positioned() && at.rel != 0 && i == FirstIndex(log, blk)
      modifies this`offset, this`blockEnd, this`at
      ensures Positioned() && (r.Found? ==> at.rel != 0)
      ensures BlankFrom(bytes, old(offset)) ==> r == Empty && (at == old(at) || at == Norm(block, old(at)))
      ensures old(At(i)) && i < |log.msgs| && !Spilled(log, blk) && old(offset) + 4 <= |bytes|
              && old(at) == Pos(blk, if blk == 0 then log.meta else BLOCK_HEADER) ==>
                BlockAnswer(io, bytes, log, blk, r, at)
    {
      if offset + 4 > |bytes| {
        return Empty;
      }
      if At(i) && i < |log.msgs| && at == Pos(blk, if blk == 0 then log.meta else BLOCK_HEADER) {
        SkipOnlyInFirst(log, blk, at, i);
      }
      r := ReadSeq(i);
    }

    /** `_block_seq`: the seq of the first message of a block, leaving the handle at that message. */
    method BlockSeq(blk: nat) returns (r: SeqAt)
      requires block >= MIN_FRAME + BLOCK_HEADER
      modifies this`offset, this`blockEnd, this`at
      ensures Positioned() && (r.Found? ==> at.rel != 0)
      ensures Holding(bytes, log, block, marker) ==> BlockAnswer(io, bytes, log, blk, r, at)
      decreases blk == 0
    {
      ghost var i := FirstIndex(log, blk);
      var h := EnterForSeq(blk, i);
      if Holding(bytes, log, block, marker) && Spilled(log, blk) {
        RestOfFrame(bytes, log, blk);
        if h.Size? {
          BlankBehind(bytes, block, blk, h.n);
        }
      }
      match h {
        case Again => return Empty;
        case Corrupt => return Failed;
        case Back(n) => return if n > offset then Empty else Wild;
        case Skip =>
          if blk != 0 {
            return Empty;
          }
          r := BlockSeq(1);
        case Size(_) => r := SeqBehind(blk, i);
      }
    }

    /** `_shift` past the message at the handle. */
    method StepOver(n: nat, ghost i: nat)
      requires Positioned() && 0 < n && offset + n <= blockEnd
      modifies this`offset, this`at
      ensures Positioned() && at.rel != 0 && offset == old(offset) + n
      ensures old(At(i)) && i < |log.msgs| && old(at) == log.slots[i] && n == FrameLen(log.msgs[i]) ==> At(i + 1)
    {
      Advance(n);
    }

    /** One round of the scanning loops of `_seek` and `_file_bounds`: the message at hand, or past a skip frame. */
    method Look(ghost i: nat) returns (r: Sight)
      requires Positioned() && at.rel != 0
      modifies this`offset, this`blockEnd, this`at
      ensures Positioned()
      ensures r.Beyond? || r.Here? ==> at.rel != 0 && offset <= |bytes| + block
      ensures r.Beyond? ==> offset + blockEnd > old(offset + blockEnd)
      ensures r.Here? ==> offset + blockEnd >= old(offset + blockEnd) && 0 < r.n && offset + r.n <= blockEnd
      ensures old(At(i)) && i == |log.msgs| && !LastCrosses(log) ==> r == Nothing && Leads(log, at, i)
      ensures old(At(i)) && i < |log.msgs| && !Crosses(log, i) ==>
                && Leads(log, at, i)
                && (r == Beyond || (r == Here(log.msgs[i], FrameLen(log.msgs[i])) && at == log.slots[i]))
    {
      var f := ReadFrame(i);
      match f {
        case Again => return Nothing;
        case Corrupt => return Wrong;
        case Back(_) => return Wrong;
        case Skip =>
          SkipRest();
          return Beyond;
        case Size(n) =>
          var d := PeekMessage(n, i);
          return match d case NoData => Nothing case Bad => Wrong case Message(m) => Here(m, n);
      }
    }

    /** One round of the scan for `s`, whose target is message `t`. */
    method LookFor(s: int, ghost i: nat, ghost t: nat) returns (r: Sight)
      requires Positioned() && at.rel != 0
      modifies this`offset, this`blockEnd, this`at
      ensures Positioned()
      ensures r.Beyond? || r.Here? ==> at.rel != 0 && offset <= |bytes| + block
      ensures r.Beyond? ==> offset + blockEnd > old(offset + blockEnd)
      ensures r.Here? ==> offset + blockEnd >= old(offset + blockEnd) && 0 < r.n && offset + r.n <= blockEnd
      ensures old(At(i)) && i <= t == Target(log.msgs, s) && ScanClear(log, i, t) && Seeable(log, i) ==>
                match r
                case Nothing => TargetFound(log, t, Empty, at)
                case Wrong => false
                case Beyond => Leads(log, at, i)
                case Here(m, n) =>
                  && i < |log.msgs| && n == FrameLen(log.msgs[i]) && at == log.slots[i]
                  && if m.seqno >= s then TargetFound(log, t, Found(m.seqno), at) else i < t
    {
      r := Look(i);
    }

    /** No handle that has read a frame is further on than this. */
    ghost function RoundLimit(): int
      reads this
    {
      2 * (|bytes| + block) + block
    }

    /** The same with the step to the next message; `found` once the scan is over. */
    method ScanRound(s: int, ghost i: nat, ghost t: nat) returns (found: Option<SeqAt>, ghost i': nat)
      requires Positioned() && at.rel != 0
      modifies this`offset, this`blockEnd, this`at
      ensures Positioned()
      ensures found.None? ==>
                at.rel != 0 && old(offset + blockEnd) < offset + blockEnd && old(offset + blockEnd) <= RoundLimit()
      ensures old(At(i)) && i <= t == Target(log.msgs, s) && ScanClear(log, i, t) && Seeable(log, i) ==>
                if found.Some? then TargetFound(log, t, found.value, at)
                else i <= i' <= t && Leads(log, at, i') && Seeable(log, i')
    {
      i' := i;
      var f := LookFor(s, i, t);
      match f {
        case Nothing => return Some(Empty), i;
        case Wrong => return Some(Failed), i;
        case Beyond => found := None;
        case Here(m, n) =>
          if m.seqno >= s {
            return Some(Found(m.seqno)), i;
          }
          StepOver(n, i);
          i' := i + 1;
          found := None;
      }
    }

    /** The in-block part of `_seek`: go on until a message at or after `s`. */
    method ScanTo(s: int, ghost from: nat) returns (r: SeqAt)
      requires Positioned() && at.rel != 0
      modifies this`offset, this`blockEnd, this`at
      ensures Positioned()
      ensures var t := Target(log.msgs, s);
        old(At(from)) && from <= t && from < |log.msgs| && ScanClear(log, from, t) ==> TargetFound(log, t, r, at)
    {
      ghost var t := Target(log.msgs, s);
      ghost var good := At(from) && from <= t && from < |log.msgs| && ScanClear(log, from, t);
      ghost var i: nat := from;
      while true
        invariant Positioned() && at.rel != 0
        invariant good ==> Leads(log, at, i) && from <= i <= t && Seeable(log, i)
        decreases RoundLimit() - offset - blockEnd
      {
        var found;
        found, i := ScanRound(s, i, t);
        if found.Some? {
          return found.value;
        }
      }
    }

    /** `_block_seq` on the way down from the end of the file. */
    method BlockFromEnd(blk: nat) returns (q: SeqAt)
      requires block >= MIN_FRAME + BLOCK_HEADER
      modifies this`offset, this`blockEnd, this`at
      ensures Positioned() && (q.Found? ==> at.rel != 0)
      ensures Holding(bytes, log, block, marker) && Down(log, blk + 1) && (blk > 0 || log.msgs != []) ==>
                && (q == Empty ==> Down(log, blk) && blk > 0)
                && (q.Failed? || q.Wild? ==> LastCrosses(log) && q == BadEnd(log))
                && (q.Found? ==>
                      var i := FirstIndex(log, blk);
                      && !LastCrosses(log) && blk == EndBlock(log) && i < |log.msgs| && ScanClear(log, i, |log.msgs|)
                      && q == Found(log.msgs[i].seqno) && at == log.slots[i])
    {
      q := BlockSeq(blk);
      if Holding(bytes, log, block, marker) && Down(log, blk + 1) && (blk > 0 || log.msgs != []) {
        DownStep(io, bytes, log, blk, q, at);
      }
    }

    /** The first loop of `_seek`: down from the end of the file to the last block with a message, or to block 0. */
    method LastUsedBlock() returns (last: nat, q: SeqAt)
      requires Positioned()
      modifies this`offset, this`blockEnd, this`at
      ensures Positioned()
      ensures Holding(bytes, log, block, marker) ==>
                if LastCrosses(log) then q == BadEnd(log) else !q.Failed? && !q.Wild? && last == EndBlock(log) + 1
    {
      ghost var good := Holding(bytes, log, block, marker);
      last, q := (|bytes| + block - 1) / block, Empty;
      if good {
        DownFromEnd(bytes, log, last);
      }
      while last > 1
        invariant Positioned() && q == Empty
        invariant good ==> last >= 1 && Down(log, last)
      {
        q := BlockFromEnd(last - 1);
        if q != Empty {
          return;
        }
        last := last - 1;
      }
      if good {
        DownToFirst(log);
      }
    }

    /** One round of the bisection: the new bounds, unless the block in the middle has the seq or cannot be read. */
    method Halve(first: nat, last: nat, s: int, ghost fails: bool)
      returns (first': nat, last': nat, exact: bool, ok: bool)
      requires block >= MIN_FRAME + BLOCK_HEADER && first + 1 < last
      modifies this`offset, this`blockEnd, this`at
      ensures Positioned() && first <= first' && last' <= last && (ok && !exact ==> last' - first' < last - first)
      ensures Holding(bytes, log, block, marker) && SortedLog(log.msgs) && Halving(log, first, last, s, fails) ==>
                if !ok then fails
                else if exact then
                  var t := Target(log.msgs, s); !fails && t < |log.msgs| && log.msgs[t].seqno == s && at == log.slots[t]
                else Halving(log, first', last', s, fails)
    {
      var mid := (first + last) / 2;
      first', last', exact, ok := first, last, false, true;
      var q := BlockSeq(mid);
      if Holding(bytes, log, block, marker) && SortedLog(log.msgs) && Halving(log, first, last, s, fails) {
        HalvingAnswer(io, bytes, log, first, last, s, fails, q, at);
      }
      match q {
        case Empty => last' := mid;
        case Failed => ok := false;
        case Wild => ok := false;
        case Found(found) =>
          if found == s {
            exact := true;
          } else if found > s {
            last' := mid;
          } else {
            first' := mid;
          }
      }
    }

    /** The bisection of `_seek` between block `lo` and block `hi`. */
    method Bisect(lo: nat, hi: nat, s: int) returns (first: nat, exact: bool, ok: bool)
      requires block >= MIN_FRAME + BLOCK_HEADER
      modifies this`offset, this`blockEnd, this`at
      ensures exact || !ok ==> Positioned()
      ensures Holding(bytes, log, block, marker) && SortedLog(log.msgs) && Between(log, lo, hi, s) ==>
                && ok == !BisectFails(log, lo, hi, s)
                && (ok && exact ==>
                      var t := Target(log.msgs, s); t < |log.msgs| && log.msgs[t].seqno == s && at == log.slots[t])
                && (ok && !exact ==> Between(log, first, first + 1, s))
    {
      ghost var good := Holding(bytes, log, block, marker) && SortedLog(log.msgs) && Between(log, lo, hi, s);
      ghost var fails := good && BisectFails(log, lo, hi, s);
      first, exact, ok := lo, false, true;
      var last: nat := hi;
      while first + 1 < last
        invariant ok && !exact
        invariant good ==> Halving(log, first, last, s, fails)
        decreases last - first
      {
        first, last, exact, ok := Halve(first, last, s, fails);
        if exact || !ok {
          return;
        }
      }
    }

    /** `_shift_block` to a block that the scan of `_seek` starts from. */
    method EnterForScan(first: nat, ghost i: nat) returns (ok: bool)
      requires block >= MIN_FRAME + BLOCK_HEADER
      modifies this`offset, this`blockEnd, this`at
      ensures Positioned() && (ok ==> at.rel != 0)
      ensures Holding(bytes, log, block, marker) && i < |log.msgs| && i == FirstIndex(log, first) ==>
                ok && Leads(log, at, i)
    {
      if Holding(bytes, log, block, marker) {
        FirstFrameOfBlock(bytes, log, first);
      }
      var h := ShiftBlock(first * block, first);
      ok := h.Size?;
    }

    /** The rest of `_seek`, between two blocks. */
    method SeekFrom(first: nat, last: nat, s: int) returns (r: SeqAt)
      requires Positioned()
      modifies this`offset, this`blockEnd, this`at
      ensures Positioned()
      ensures Holding(bytes, log, block, marker) && SortedLog(log.msgs) && Between(log, first, last, s) ==>
                if BisectFails(log, first, last, s) then r == Failed else TargetFound(log, Target(log.msgs, s), r, at)
    {
      ghost var good := Holding(bytes, log, block, marker) && SortedLog(log.msgs) && Between(log, first, last, s);
      var from, exact, fine := Bisect(first, last, s);
      if !fine {
        return Failed;
      } else if exact {
        return Found(s);
      }
      ghost var i := FirstIndex(log, from);
      if good {
        BetweenEnds(log, from, s);
      }
      var entered := EnterForScan(from, i);
      if !entered {
        return Failed;
      }
      r := ScanTo(s, i);
    }

    /** The block of the handle, from where it ends. */
    method BlockHere() returns (blk: nat)
      requires Positioned()
      ensures blk == at.blk
    {
      BlockOfEnd(block, at.blk);
      blk := blockEnd / block - 1;
    }

    /** The part of `_seek` behind the look at block 0. */
    method SeekBelow(last: nat, s: int) returns (r: SeqAt)
      requires Positioned()
      modifies this`offset, this`blockEnd, this`at
      ensures Positioned()
      ensures Holding(bytes, log, block, marker) && SortedLog(log.msgs) && Between(log, old(at).blk, last, s)
              && !LastCrosses(log) && !Blocked(io, bytes, log) && !BadStart(log)
              && old(at).blk == StartBlock(log) && last == EndBlock(log) + 1 ==>
                SeekAnswer(io, bytes, log, s, r, at)
    {
      var first := BlockHere();
      r := SeekFrom(first, last, s);
    }

    /** The part of `_seek` behind the search for the last block. */
    method SeekUpTo(last: nat, s: int) returns (r: SeqAt)
      requires Positioned()
      modifies this`offset, this`blockEnd, this`at
      ensures Positioned()
      ensures Holding(bytes, log, block, marker) && SortedLog(log.msgs) && !LastCrosses(log)
              && last == EndBlock(log) + 1 ==>
                SeekAnswer(io, bytes, log, s, r, at)
    {
      r := BlockSeq(0);
      if Holding(bytes, log, block, marker) && !LastCrosses(log) {
        SeekStarts(io, bytes, log, s, r, at);
      }
      if r.Found? {
        r := SeekBelow(last, s);
      }
    }

    /**
     * `_seek`: bisection over the blocks, then a scan.  It ends where a linear scan for the first
     * message at or after `s` ends, and finds nothing exactly when there is none, unless a frame
     * that crosses its block, or a skip frame behind the meta frame, is where it has to look.
     */
    method Seek(s: int) returns (r: SeqAt)
      requires Positioned()
      modifies this`offset, this`blockEnd, this`at
      ensures Positioned()
      ensures Holding(bytes, log, block, marker) && SortedLog(log.msgs) ==> SeekAnswer(io, bytes, log, s, r, at)
    {
      var last, q := LastUsedBlock();
      if q.Failed? || q.Wild? {
        return q;
      }
      r := SeekUpTo(last, s);
    }

    /** The end of `_file_bounds`: read on to the last message. */
    method ScanToEnd(ghost from: nat) returns (r: SeqAt)
      requires Positioned() && at.rel != 0
      modifies this`offset, this`blockEnd, this`at, this`lastSeq
      ensures Positioned()
      ensures old(At(from)) && from < |log.msgs| && ScanClear(log, from, |log.msgs|) ==>
                Leads(log, at, |log.msgs|) && lastSeq == log.msgs[|log.msgs| - 1].seqno && r == Found(lastSeq)
    {
      ghost var good := At(from) && from < |log.msgs| && ScanClear(log, from, |log.msgs|);
      ghost var i: nat := from;
      while true
        invariant Positioned() && at.rel != 0
        invariant good ==> Leads(log, at, i) && from <= i && (i > from ==> lastSeq == log.msgs[i - 1].seqno)
        decreases RoundLimit() - offset - blockEnd
      {
        var f := Look(i);
        match f {
          case Nothing => return Found(lastSeq);
          case Wrong => return Failed;
          case Beyond =>
          case Here(m, n) =>
            lastSeq := m.seqno;
            StepOver(n, i);
            i := i + 1;
        }
      }
    }

    /** The block loop of `_file_bounds`: down to the last block with a message, block 0 included. */
    method LastMessageBlock() returns (q: SeqAt, last: nat)
      requires Positioned()
      modifies this`offset, this`blockEnd, this`at
      ensures Positioned() && (q.Found? ==> at.rel != 0)
      ensures Holding(bytes, log, block, marker) && log.msgs != [] ==>
                if LastCrosses(log) then q == BadEnd(log)
                else
                  var i := FirstIndex(log, last);
                  && i < |log.msgs| && q == Found(log.msgs[i].seqno) && at == log.slots[i]
                  && ScanClear(log, i, |log.msgs|)
    {
      ghost var good := Holding(bytes, log, block, marker) && log.msgs != [];
      last := (|bytes| + block - 1) / block;
      if good {
        DownFromEnd(bytes, log, last);
      }
      q := Empty;
      while last > 0
        invariant Positioned() && q == Empty
        invariant good ==> last >= 1 && Down(log, last)
      {
        last := last - 1;
        q := BlockFromEnd(last);
        if q != Empty {
          return;
        }
      }
    }

    /**
     * `_file_bounds`: first and last seq, leaving the handle where the next message goes.  What
     * stops it: a skip frame behind the meta frame, with plain reads, or taken for nothing in a
     * mapping; a frame that crosses its block, as the first behind a full block 0 or as the last.
     */
    method FileBounds() returns (r: SeqAt)
      requires block >= MIN_FRAME + BLOCK_HEADER
      modifies this`offset, this`blockEnd, this`at, this`lastSeq, this`firstSeq
      ensures Positioned()
      ensures Holding(bytes, log, block, marker) ==> BoundsAnswer(io, bytes, log, r, at)
      ensures Holding(bytes, log, block, marker) && r == Empty ==>
                lastSeq == old(lastSeq) && firstSeq == old(firstSeq) && (log.msgs == [] || Blocked(io, bytes, log))
      ensures Holding(bytes, log, block, marker) && r.Found? ==>
                && log.msgs != [] && !Blocked(io, bytes, log) && !LastCrosses(log)
                && lastSeq == log.msgs[|log.msgs| - 1].seqno
                && (SkipAfterMeta(log) ==> Found(firstSeq) == SkipSeq(io, bytes, log.meta))
                && (!SkipAfterMeta(log) ==> firstSeq == log.msgs[0].seqno)
    {
      var q := BlockSeq(0);
      if !q.Found? {
        return q;
      }
      firstSeq := q.seqno;
      var p, last := LastMessageBlock();
      if !p.Found? {
        return if p.Empty? then Failed else p;
      }
      lastSeq := p.seqno;
      r := ScanToEnd(FirstIndex(log, last));
    }

    // ----- whole sessions

    /** The reading side of `_open`: the bounds, and then the place that the mode asks for. */
    method OpenForRead(mode: Mode) returns (r: Opening)
      requires block >= MIN_FRAME + BLOCK_HEADER
      modifies this`offset, this`blockEnd, this`at, this`lastSeq, this`firstSeq
      ensures Positioned()
      ensures Holding(bytes, log, block, marker) && SortedLog(log.msgs) ==>
                && r == OpensAs(io, bytes, log, mode)
                && (r == Opens ==> Leads(log, at, StartIndex(io, bytes, log, mode)))
    {
      lastSeq, firstSeq := -1, -1;
      var q := FileBounds();
      if Holding(bytes, log, block, marker) {
        BoundsDecide(io, bytes, log, q, at);
      }
      if q.Failed? || q.Wild? {
        return if q.Wild? then Undefined else Refuses;
      }
      if mode.FromEnd? {
        return Opens;
      }
      if mode.FromStart? {
        var started := SeekStart();
        return if started then Opens else Refuses;
      }
      q := Seek(if mode.FromSeq? then mode.s else lastSeq);
      if Holding(bytes, log, block, marker) && SortedLog(log.msgs) {
        SeekDecides(io, bytes, log, mode, q, at);
      }
      r := if q.Wild? then Undefined else if q.Failed? then Refuses else Opens;
    }

    /**
     * The writing side of `_open` on an existing file: recover the end, cut off what follows, keep
     * spare zeros.  Where a skip frame behind the meta frame is taken for nothing, that cuts off
     * every message.
     */
    method Reopen(spare: nat) returns (r: Opening)
      requires block >= MIN_FRAME + BLOCK_HEADER
      modifies this
      ensures old(Holding(bytes, log, block, marker)) ==>
                && r == old(Bounded(io, bytes, log))
                && (r == Refuses ==> bytes == old(bytes) && log == old(log))
                && (r == Opens ==>
                      && AtEnd() && log == Survived(io, old(bytes), old(log)) && lastSeq == LastSeqOf(log.msgs)
                      && SameBelow(old(bytes), bytes, log.meta))
                && (r == Opens && Blocked(io, old(bytes), old(log)) ==>
                      bytes == old(bytes)[..log.meta] + seq(spare, _ => 0))
    {
      lastSeq, firstSeq := -1, -1;
      ghost var f, g := bytes, log;
      var q := FileBounds();
      if q.Failed? || q.Wild? {
        return if q.Wild? then Undefined else Refuses;
      }
      bytes := Trimmed(io, bytes, offset, spare);
      if Holding(f, g, block, marker) {
        if Blocked(io, f, g) {
          TrimmedToMeta(f, g, block, marker, spare);
          log := Survived(io, f, g);
        } else {
          TrimmedAtEnd(io, f, g, block, marker, at, spare);
        }
      }
      r := Opens;
    }

    /** One of many posts: it is refused, or it is the next message on the way to `goal`. */
    method PostNext(m: Msg, ghost f0: seq<byte>, ghost rest: seq<Msg>, ghost goal: Log)
      requires AtEnd() && Storable(m) && log.meta <= |f0| && SameBelow(f0, bytes, log.meta)
      requires Becomes(log, block, lastSeq, [m] + rest, goal)
      modifies this
      ensures AtEnd() && log.meta == old(log.meta) && SameBelow(f0, bytes, log.meta)
      ensures Becomes(log, block, lastSeq, rest, goal)
    {
      BecomesStep(log, block, lastSeq, m, rest, goal);
      ghost var f := bytes;
      var r := Post(m);
      if r == Done {
        SameBelowTwice(f0, f, bytes, log.meta);
      }
    }

    /** Posts in a row: the accepted ones are appended, and nothing else is. */
    method PostAll(ms: seq<Msg>)
      requires AtEnd() && forall i :: 0 <= i < |ms| ==> Storable(ms[i])
      modifies this
      ensures AtEnd() && log == AppendAll(old(log), Kept(block, old(lastSeq), ms))
      ensures SameBelow(old(bytes), bytes, log.meta)
    {
      BecomesAtFirst(log, lastSeq, ms);
      ghost var f0, goal := bytes, AppendAll(log, Kept(block, lastSeq, ms));
      EndInFile(bytes, log);
      MetaBelowFloor(log);
      assert ms[0..] == ms;
      for i := 0 to |ms|
        invariant AtEnd() && log.meta == old(log.meta) && SameBelow(f0, bytes, log.meta)
        invariant Becomes(log, block, lastSeq, ms[i..], goal)
      {
        assert ms[i..] == [ms[i]] + ms[i + 1..];
        PostNext(ms[i], f0, ms[i + 1..], goal);
      }
      assert ms[|ms|..] == [];
      BecomesInTheEnd(log, block, lastSeq, goal);
    }
  }

  // ----- what is read is what was posted

  /** A caller's posts. */
  ghost predicate AllStorable(ms: seq<Msg>) {
    forall i :: 0 <= i < |ms| ==> Storable(ms[i])
  }

  /** The log of a new file after the posts `ms`: a function of what the caller knows. */
  ghost function Posted(block: nat, marker: bool, meta: seq<byte>, ms: seq<Msg>): (g: Log)
    requires MetaFrame(block, marker, meta) && AllStorable(ms)
    ensures Shape(g) && g.msgs == Kept(block, -1, ms) && g.meta == |meta|
  {
    AppendAll(Bare(block, |meta|, marker), Kept(block, -1, ms))
  }

  /** The file holds a log with increasing seqs behind the meta frame `meta`. */
  ghost predicate HeldBehind(file: File, meta: seq<byte>)
    reads file
  {
    && file.block >= MIN_FRAME + BLOCK_HEADER && Holding(file.bytes, file.log, file.block, file.marker)
    && SortedLog(file.log.msgs) && |meta| == file.log.meta && SameBelow(meta, file.bytes, |meta|)
  }

  /** The file is opened, and read to where reading stops. */
  method OpenAndRead(file: File, meta: seq<byte>, mode: Mode) returns (r: Opening, out: seq<Msg>, ok: bool)
    requires HeldBehind(file, meta)
    modifies file
    ensures ReadAs(file.io, meta, old(file.log), mode, r, out, ok)
  {
    out, ok := [], false;
    ghost var g := file.log;
    OpensByMeta(file.io, file.bytes, meta, g, mode);
    r := file.OpenForRead(mode);
    if r == Opens {
      out, ok := file.ReadOn(StartIndex(file.io, meta, g, mode));
    }
  }

  lemma MetaStays(meta: seq<byte>, f: seq<byte>, f': seq<byte>)
    requires SameBelow(meta, f, |meta|) && SameBelow(f, f', |meta|)
    ensures SameBelow(meta, f', |meta|)
  {
  }

  lemma SortedAppend(a: seq<Msg>, b: seq<Msg>)
    requires SortedLog(a) && SortedLog(b) && forall i :: 0 <= i < |b| ==> b[i].seqno > LastSeqOf(a)
    ensures SortedLog(a + b)
  {
  }

  /** Any posts to a file that is then opened and read in any mode. */
  method WriteAndRead(file: File, meta: seq<byte>, ms: seq<Msg>, mode: Mode)
    returns (r: Opening, out: seq<Msg>, ok: bool)
    requires HeldBehind(file, meta) && file.AtEnd() && file.lastSeq == LastSeqOf(file.log.msgs) && AllStorable(ms)
    modifies file
    ensures var g := AppendAll(old(file.log), Kept(file.block, old(file.lastSeq), ms));
      && ReadAs(file.io, meta, g, mode, r, out, ok)
      && (mode == FromStart ==> (ok <==> Faultless(file.io, g)) && (ok ==> out == g.msgs))
  {
    ghost var f := file.bytes;
    SortedAppend(file.log.msgs, Kept(file.block, file.lastSeq, ms));
    file.PostAll(ms);
    MetaStays(meta, f, file.bytes);
    FaultlessExactly(file.io, meta, file.log);
    r, out, ok := OpenAndRead(file, meta, mode);
  }

  /**
   * Any posts to a new file that is then opened and read in any mode.  Whether it opens, where
   * reading starts and where it stops are functions of the posts; from the start everything
   * accepted is read exactly when the posts are `Faultless`.
   */
  method PostRead(io: IO, block: nat, marker: bool, meta: seq<byte>, ms: seq<Msg>, mode: Mode)
    returns (r: Opening, out: seq<Msg>, ok: bool)
    requires MetaFrame(block, marker, meta) && AllStorable(ms)
    ensures ReadAs(io, meta, Posted(block, marker, meta, ms), mode, r, out, ok)
    ensures mode == FromStart ==> (ok <==> Faultless(io, Posted(block, marker, meta, ms)))
    ensures mode == FromStart && ok ==> out == Kept(block, -1, ms)
  {
    var file := new File.Create(io, block, marker, meta);
    r, out, ok := WriteAndRead(file, meta, ms, mode);
  }

  /** A new file with `ms` posted to it, reopened for append. */
  method PostedAndReopened(io: IO, block: nat, marker: bool, meta: seq<byte>, ms: seq<Msg>, spare: nat)
    returns (file: File, again: Opening)
    requires MetaFrame(block, marker, meta) && AllStorable(ms)
    ensures fresh(file) && file.io == io && file.block == block && file.marker == marker
    ensures var g := Posted(block, marker, meta, ms);
      && again == Bounded(io, meta, g)
      && (again == Refuses ==> HeldBehind(file, meta) && file.log == g)
      && (again == Opens ==> HeldBehind(file, meta) && file.log == Survived(io, meta, g))
      && (again == Opens ==> file.AtEnd() && file.lastSeq == LastSeqOf(file.log.msgs))
  {
    file := new File.Create(io, block, marker, meta);
    file.PostAll(ms);
    ghost var f := file.bytes;
    OpensByMeta(io, f, meta, file.log, FromStart);
    again := file.Reopen(spare);
    if again == Opens {
      MetaStays(meta, f, file.bytes);
    }
  }

  /**
   * Post, close, reopen for append, post again, open and read, for any posts.  Reopening succeeds
   * exactly when a reader would open the file, and leaves what `Survived` says; the accepted posts
   * of the second session follow it, and are read as in `PostRead`.
   */
  method PostReopenPostRead(io: IO, block: nat, marker: bool, meta: seq<byte>, first: seq<Msg>,
                            second: seq<Msg>, spare: nat, mode: Mode)
    returns (again: Opening, r: Opening, out: seq<Msg>, ok: bool)
    requires MetaFrame(block, marker, meta) && AllStorable(first) && AllStorable(second)
    ensures var g := Posted(block, marker, meta, first);
      && again == Bounded(io, meta, g)
      && (again == Refuses ==> r == Refuses && out == [])
      && (again == Opens ==>
            var a := Survived(io, meta, g);
            var h := AppendAll(a, Kept(block, LastSeqOf(a.msgs), second));
            && ReadAs(io, meta, h, mode, r, out, ok)
            && (mode == FromStart ==> (ok <==> Faultless(io, h)) && (ok ==> out == h.msgs)))
  {
    var file;
    file, again := PostedAndReopened(io, block, marker, meta, first, spare);
    match again {
      case Opens => r, out, ok := WriteAndRead(file, meta, second, mode);
      case Refuses => r, out, ok := OpenAndRead(file, meta, mode);
      case Undefined => r, out, ok := Undefined, [], false;
    }
  }

  // ----- a reader that follows the writer

  datatype Turn = Write(m: Msg) | Poll

  function Writes(ts: seq<Turn>): (ms: seq<Msg>)
    ensures (forall i :: 0 <= i < |ts| && ts[i].Write? ==> Storable(ts[i].m)) ==> AllStorable(ms)
  {
    if ts == [] then []
    else if ts[0].Write? then [ts[0].m] + Writes(ts[1..])
    else Writes(ts[1..])
  }

  /** The reader has delivered `out` of what the writer has written, and stands behind it. */
  ghost predicate Following(writer: File, reader: File, out: seq<Msg>)
    reads writer, reader
  {
    && writer != reader && writer.AtEnd() && reader.Positioned()
    && reader.block == writer.block && reader.marker == writer.marker
    && reader.bytes == writer.bytes && reader.log == writer.log
    && Behind(writer.log, reader.at, out)
  }

  /** One post, seen by the reader's handle on the same file. */
  method PostSeen(writer: File, reader: File, ghost out: seq<Msg>, m: Msg)
    requires Following(writer, reader, out) && Storable(m)
    modifies writer, reader
    ensures Following(writer, reader, out)
    ensures if m.seqno <= old(writer.lastSeq) || FrameLen(m) > writer.block
            then writer.log == old(writer.log) && writer.lastSeq == old(writer.lastSeq)
            else writer.log == Extend(old(writer.log), m) && writer.lastSeq == m.seqno
  {
    ghost var g := writer.log;
    var r := writer.Post(m);
    if r == Done {
      BehindStays(g, m, reader.at, out);
    }
    reader.bytes, reader.log := writer.bytes, writer.log;
  }

  /** One poll: the next message, if there is one and it can be read. */
  method PollSeen(writer: File, reader: File, out: seq<Msg>) returns (out': seq<Msg>)
    requires Following(writer, reader, out)
    modifies reader
    ensures Following(writer, reader, out')
    ensures out' == if |out| < ReadableFrom(writer.log, 0) then out + [writer.log.msgs[|out|]] else out
  {
    var r := reader.Process(|out|);
    out' := if r.Delivered? then out + [r.m] else out;
  }

  /** Any turns of the two. */
  method TakeTurns(writer: File, reader: File, turns: seq<Turn>) returns (out: seq<Msg>)
    requires Following(writer, reader, [])
    requires forall i :: 0 <= i < |turns| && turns[i].Write? ==> Storable(turns[i].m)
    modifies writer, reader
    ensures Following(writer, reader, out)
    ensures writer.log == AppendAll(old(writer.log), Kept(writer.block, old(writer.lastSeq), Writes(turns)))
  {
    out := [];
    BecomesAtFirst(writer.log, writer.lastSeq, Writes(turns));
    ghost var goal := AppendAll(writer.log, Kept(writer.block, writer.lastSeq, Writes(turns)));
    assert turns[0..] == turns;
    for k := 0 to |turns|
      invariant Following(writer, reader, out)
      invariant Becomes(writer.log, writer.block, writer.lastSeq, Writes(turns[k..]), goal)
    {
      assert turns[k..][0] == turns[k] && turns[k..][1..] == turns[k + 1..];
      match turns[k] {
        case Write(m) =>
          BecomesStep(writer.log, writer.block, writer.lastSeq, m, Writes(turns[k + 1..]), goal);
          PostSeen(writer, reader, out, m);
        case Poll => out := PollSeen(writer, reader, out);
      }
    }
    assert turns[|turns|..] == [];
    BecomesInTheEnd(writer.log, writer.block, writer.lastSeq, goal);
  }

  /** The reader polls until there is nothing left that it can read. */
  method ReadRest(writer: File, reader: File, out: seq<Msg>) returns (all: seq<Msg>, ok: bool)
    requires Following(writer, reader, out)
    modifies reader
    ensures var g := writer.log; all == g.msgs[..ReadableFrom(g, 0)] && (ok <==> ReadableFrom(g, 0) == |g.msgs|)
  {
    var rest;
    rest, ok := reader.ReadOn(|out|);
    all := out + rest;
  }

  /**
   * A reader that opened the new file and polls at any moments between the posts, and in the end
   * until there is nothing left: it gets every accepted message once and in order, up to the first
   * that crosses its block.  What would keep another reader from opening the file does not stop it.
   */
  method Follow(io: IO, block: nat, marker: bool, meta: seq<byte>, turns: seq<Turn>)
    returns (out: seq<Msg>, ok: bool)
    requires MetaFrame(block, marker, meta) && forall i :: 0 <= i < |turns| && turns[i].Write? ==> Storable(turns[i].m)
    ensures var g := Posted(block, marker, meta, Writes(turns));
      out == g.msgs[..ReadableFrom(g, 0)] && (ok <==> ReadableFrom(g, 0) == |g.msgs|)
  {
    var writer := new File.Create(io, block, marker, meta);
    var reader := new File.Create(io, block, marker, meta);
    var ready := reader.OpenForRead(FromStart);
    out := TakeTurns(writer, reader, turns);
    out, ok := ReadRest(writer, reader, out);
  }
}
