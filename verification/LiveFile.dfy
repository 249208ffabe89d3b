/**
 * A reader of a mapped file of version 1 that follows its writer (IOMMap::writev, _read_frame and
 * _process in file.cc): the writer's byte stores for any number of posts against the reader's byte
 * loads, through data frames, skip frames, block headers and from block to block.
 *
 * The file is given by the bytes it will hold in the end and by which of them have been stored.
 * The order of stores inside one `writev` is that of the code; nothing is asked of the order of
 * different ones.
 */
module LiveFile {
  import opened Bytes
  import opened FileLayout
  import opened FileImage

  /** One `writev`: the skip frame or the block header in front of message `i`, or its frame. */
  datatype Piece = SkipOf(i: nat) | HeaderOf(i: nat) | FrameOf(i: nat)

  ghost predicate Written(g: Log, w: Piece)
    requires |g.slots| == |g.msgs|
  {
    && w.i < |g.msgs|
    && (w.FrameOf? || g.slots[w.i].blk != Cursor(g, w.i).blk)
    && (w.SkipOf? ==> Cursor(g, w.i).rel + 4 < g.block)
  }

  ghost function Off(g: Log, w: Piece): nat
    requires |g.slots| == |g.msgs| && w.i < |g.msgs|
  {
    match w
    case SkipOf(i) => Abs(g.block, Cursor(g, i))
    case HeaderOf(i) => Abs(g.block, Pos(g.slots[i].blk, 0))
    case FrameOf(i) => Abs(g.block, g.slots[i])
  }

  ghost function Len(g: Log, w: Piece): nat
    requires w.i < |g.msgs|
  {
    match w
    case SkipOf(_) => 4
    case HeaderOf(_) => BLOCK_HEADER
    case FrameOf(i) => FrameLen(g.msgs[i])
  }

  /** Where the reader is inside `_process`. */
  datatype Phase = Begin | Sizing(got: seq<byte>) | Sized(n: nat) | Copying(n: nat, buf: seq<byte>) | Stopped

  /** `f` is what the file `g` will hold, `stored` the offsets that have been stored. */
  datatype State = State(f: seq<byte>, g: Log, stored: set<int>, pos: Pos, phase: Phase, out: seq<Msg>)

  datatype Action = Store(w: Piece, t: nat) | Load

  function Mem(s: State, x: int): byte {
    if x in s.stored && 0 <= x < |s.f| then s.f[x] else 0
  }

  /** Byte `t` of piece `w`: the first three in any order, the fourth, the payload in any order, the tail byte. */
  ghost predicate MayStore(s: State, w: Piece, t: nat)
    requires |s.g.slots| == |s.g.msgs|
  {
    && Written(s.g, w) && t < Len(s.g, w)
    && var o := Off(s.g, w);
       && (t == 3 ==> o in s.stored && o + 1 in s.stored && o + 2 in s.stored)
       && (t > 3 ==> o + 3 in s.stored)
       && (t > 4 && t == Len(s.g, w) - 1 ==> forall x :: o + 4 <= x < o + t ==> x in s.stored)
  }

  /** The size in the four bytes `got`: go on behind a header or a skip frame, or to the payload. */
  ghost function Decide(s: State, got: seq<byte>): State {
    var raw, n := Dec(got), Dec(got) + 0x8000_0000;
    if raw == -1 && s.pos.rel == 0 then s.(phase := Stopped)
    else if raw == -1 then s.(pos := Pos(s.pos.blk, s.g.block), phase := Begin)
    else if n == 0 then s.(phase := Begin)
    else if n <= 4 || s.pos.rel + n > s.g.block then s.(phase := Stopped)
    else if s.pos.rel == 0 then s.(pos := Pos(s.pos.blk, n), phase := Begin)
    else s.(phase := Sized(n))
  }

  /** The message of a frame of `n` bytes with the payload `buf`. */
  function Parse(buf: seq<byte>): Msg
    requires |buf| >= 12
  {
    Msg(Dec(buf[0..4]), Dec(buf[4..12]), buf[12..])
  }

  /** The reader's next load; "nothing yet" leads back to the beginning at the same place. */
  ghost function LoadStep(s: State): State {
    var o := Abs(s.g.block, s.pos);
    match s.phase
    case Begin =>
      if s.pos.rel != 0 && s.pos.rel + MIN_FRAME > s.g.block then s.(pos := Pos(s.pos.blk + 1, 0))
      else if Mem(s, o + 3) < 0x80 then s
      else s.(phase := Sizing([]))
    case Sizing(got) => if |got| < 4 then s.(phase := Sizing(got + [Mem(s, o + |got|)])) else Decide(s, got)
    case Sized(n) =>
      if n < BLOCK_HEADER + 4 then s.(phase := Stopped)
      else if Mem(s, o + n - 1) < 0x80 then s.(phase := Begin)
      else s.(phase := Copying(n, []))
    case Copying(n, buf) =>
      if |buf| + 5 < n then s.(phase := Copying(n, buf + [Mem(s, o + 4 + |buf|)]))
      else if |buf| < 12 then s.(phase := Stopped)
      else s.(pos := Pos(s.pos.blk, s.pos.rel + n), phase := Begin, out := s.out + [Parse(buf)])
    case Stopped => s
  }

  ghost function Step(s: State, a: Action): State
    requires |s.g.slots| == |s.g.msgs|
  {
    match a
    case Store(w, t) => if MayStore(s, w, t) then s.(stored := s.stored + {Off(s.g, w) + t}) else s
    case Load => LoadStep(s)
  }

  ghost function Run(s: State, acts: seq<Action>): (t: State)
    requires |s.g.slots| == |s.g.msgs|
    ensures t.f == s.f && t.g == s.g
    decreases |acts|
  {
    if acts == [] then s else Run(Step(s, acts[0]), acts[1..])
  }

  /** No message has been written, and the reader stands behind the meta frame, which it has read. */
  ghost function Ready(f: seq<byte>, g: Log): State {
    State(f, g, {}, Pos(0, g.meta), Begin, [])
  }

  // ----- what is stored

  /** A file whose every frame stays in its block: stores beyond a mapped block have no meaning. */
  ghost predicate Sound(f: seq<byte>, g: Log) {
    WellFormed(f, g) && g.marker && forall i :: 0 <= i < |g.msgs| ==> !Crosses(g, i)
  }

  ghost predicate PieceOk(g: Log, stored: set<int>, w: Piece)
    requires |g.slots| == |g.msgs| && w.i < |g.msgs|
  {
    var o, n := Off(g, w), Len(g, w);
    && (o + 3 in stored ==> o in stored && o + 1 in stored && o + 2 in stored)
    && (n > 4 && o + n - 1 in stored ==> forall x :: o + 4 <= x < o + n ==> x in stored)
  }

  ghost predicate StoredOk(s: State)
    requires |s.g.slots| == |s.g.msgs|
  {
    && (forall x :: x in s.stored ==> 0 <= x < Floor(s.g))
    && (forall w: Piece {:trigger PieceOk(s.g, s.stored, w)} :: Written(s.g, w) ==> PieceOk(s.g, s.stored, w))
  }

  lemma CursorStays(g: Log, i: nat)
    requires Shape(g) && i <= |g.msgs| && (i > 0 ==> !Crosses(g, i - 1))
    ensures 0 < Cursor(g, i).rel <= g.block
  {
    CursorInBlock(g, i);
  }

  lemma MetaIsFirst(g: Log, i: nat)
    requires Shape(g) && i <= |g.msgs|
    ensures g.meta <= Abs(g.block, Cursor(g, i))
  {
    CursorsAscend(g, 0, i);
    AbsOrder(g.block, Cursor(g, 0), Cursor(g, i));
  }

  /** A piece lies between the cursors before and after its message. */
  lemma PieceBetween(f: seq<byte>, g: Log, w: Piece)
    requires Sound(f, g) && Written(g, w)
    ensures Abs(g.block, Cursor(g, w.i)) <= Off(g, w)
    ensures Off(g, w) + Len(g, w) <= Abs(g.block, Cursor(g, w.i + 1)) <= Floor(g)
    ensures g.meta <= Off(g, w)
    ensures w.SkipOf? ==> Off(g, w) + 4 <= Off(g, HeaderOf(w.i))
    ensures w.HeaderOf? ==> Off(g, w) + BLOCK_HEADER == Off(g, FrameOf(w.i))
  {
    var c, s := Cursor(g, w.i), g.slots[w.i];
    SlotFollowsCursor(g, w.i);
    CursorStays(g, w.i);
    CursorStays(g, w.i + 1);
    ClipsAscend(g, w.i + 1);
    if s.blk != c.blk {
      NextBlock(g.block, c.blk);
      AbsOrder(g.block, c, Pos(s.blk, 0));
    }
    MetaIsFirst(g, w.i);
  }

  lemma CursorOrder(f: seq<byte>, g: Log, i: nat, j: nat)
    requires Sound(f, g) && i <= j <= |g.msgs|
    ensures Abs(g.block, Cursor(g, i)) <= Abs(g.block, Cursor(g, j))
  {
    CursorStays(g, i);
    CursorsAscend(g, i, j);
    AbsOrder(g.block, Cursor(g, i), Cursor(g, j));
  }

  lemma Disjoint(f: seq<byte>, g: Log, w: Piece, v: Piece)
    requires Sound(f, g) && Written(g, w) && Written(g, v) && w != v
    ensures Off(g, w) + Len(g, w) <= Off(g, v) || Off(g, v) + Len(g, v) <= Off(g, w)
  {
    PieceBetween(f, g, w);
    PieceBetween(f, g, v);
    if w.i < v.i {
      CursorOrder(f, g, w.i + 1, v.i);
    } else if v.i < w.i {
      CursorOrder(f, g, v.i + 1, w.i);
    }
  }

  lemma OtherPieceKeeps(s: State, w: Piece, t: nat, v: Piece)
    requires Sound(s.f, s.g) && MayStore(s, w, t) && v != w && Written(s.g, v) && PieceOk(s.g, s.stored, v)
    ensures PieceOk(s.g, s.stored + {Off(s.g, w) + t}, v)
  {
    Disjoint(s.f, s.g, w, v);
    PieceBetween(s.f, s.g, v);
  }

  lemma SamePieceKeeps(s: State, w: Piece, t: nat)
    requires |s.g.slots| == |s.g.msgs| && MayStore(s, w, t) && PieceOk(s.g, s.stored, w)
    ensures PieceOk(s.g, s.stored + {Off(s.g, w) + t}, w)
  {
  }

  lemma StoreKeeps(s: State, w: Piece, t: nat)
    requires Sound(s.f, s.g) && StoredOk(s) && MayStore(s, w, t)
    ensures StoredOk(Step(s, Store(w, t)))
  {
    var s' := Step(s, Store(w, t));
    PieceBetween(s.f, s.g, w);
    forall v: Piece | Written(s.g, v)
      ensures PieceOk(s.g, s'.stored, v)
    {
      assert PieceOk(s.g, s.stored, v);
      if v == w {
        SamePieceKeeps(s, w, t);
      } else {
        OtherPieceKeeps(s, w, t, v);
      }
    }
  }

  // ----- what the reader knows

  /** The reader is at message `|out|` of the file: at the frame, or at what is written in front of it. */
  ghost predicate ReaderOk(s: State)
    requires |s.g.slots| == |s.g.msgs|
  {
    var i, o := |s.out|, Abs(s.g.block, s.pos);
    && s.out <= s.g.msgs && Leads(s.g, s.pos, i) && s.pos.rel <= s.g.block
    && match s.phase
       case Begin => true
       case Sizing(got) =>
         && (s.pos.rel == 0 || s.pos.rel + MIN_FRAME <= s.g.block) && o + 3 in s.stored
         && |got| <= 4 && o + 4 <= |s.f| && got == s.f[o..o + |got|]
       case Sized(n) => i < |s.g.msgs| && s.pos == s.g.slots[i] && n == FrameLen(s.g.msgs[i])
       case Copying(n, buf) =>
         && i < |s.g.msgs| && s.pos == s.g.slots[i] && n == FrameLen(s.g.msgs[i])
         && o + n - 1 in s.stored && o + n <= |s.f| && |buf| + 5 <= n && buf == s.f[o + 4..o + 4 + |buf|]
       case Stopped => false
  }

  ghost predicate Inv(s: State) {
    Sound(s.f, s.g) && StoredOk(s) && ReaderOk(s)
  }

  /** The reader stands before a size field. */
  ghost predicate AtField(s: State) {
    s.pos.rel == 0 || s.pos.rel + MIN_FRAME <= s.g.block
  }

  /** What it stands before, if the reader can see anything of it. */
  ghost function PieceAt(s: State): Piece
    requires |s.g.slots| == |s.g.msgs|
  {
    var i := |s.out|;
    if s.pos.rel == 0 then HeaderOf(i)
    else if i < |s.g.msgs| && s.pos == s.g.slots[i] then FrameOf(i)
    else SkipOf(i)
  }

  /** There a piece is written sooner or later; and where a marker can be seen, one has been begun. */
  lemma SeenIsPiece(s: State)
    requires Inv(s) && AtField(s) && (|s.out| < |s.g.msgs| || Abs(s.g.block, s.pos) + 3 in s.stored)
    ensures Written(s.g, PieceAt(s)) && Off(s.g, PieceAt(s)) == Abs(s.g.block, s.pos)
  {
    var i := |s.out|;
    if s.pos.rel == 0 {
      StartCases(s.g, s.pos, i);
    } else {
      LeadCases(s.g, s.pos, i);
    }
    if i == |s.g.msgs| {
      CursorStays(s.g, i);
      AbsOrder(s.g.block, Cursor(s.g, i), s.pos);
    }
  }

  /** What its four bytes say. */
  lemma FieldOfPiece(s: State)
    requires Inv(s) && AtField(s) && (|s.out| < |s.g.msgs| || Abs(s.g.block, s.pos) + 3 in s.stored)
    ensures var o := Abs(s.g.block, s.pos); 0 < o && o + 4 <= |s.f| && s.f[o + 3] >= 0x80
    ensures var o := Abs(s.g.block, s.pos);
      ReadField(s.f, o, true) ==
        match PieceAt(s)
        case SkipOf(_) => Skip
        case HeaderOf(_) => Size(BLOCK_HEADER)
        case FrameOf(i) => Size(FrameLen(s.g.msgs[i]))
  {
    var i := |s.out|;
    SeenIsPiece(s);
    match PieceAt(s) {
      case SkipOf(_) =>
        LeadCases(s.g, s.pos, i);
        SeesSkip(s.f, s.g, i);
      case HeaderOf(_) => SeesHeader(s.f, s.g, i);
      case FrameOf(_) => SeesMessage(s.f, s.g, i);
    }
    PieceBetween(s.f, s.g, PieceAt(s));
  }

  lemma BeginKeeps(s: State)
    requires Inv(s) && s.phase == Begin
    ensures ReaderOk(LoadStep(s))
  {
    if AtField(s) {
      if Mem(s, Abs(s.g.block, s.pos) + 3) >= 0x80 {
        FieldOfPiece(s);
      }
    } else {
      LeadCases(s.g, s.pos, |s.out|);
    }
  }

  lemma SizingKeeps(s: State)
    requires Inv(s) && s.phase.Sizing? && |s.phase.got| < 4
    ensures ReaderOk(LoadStep(s))
  {
    var o, k := Abs(s.g.block, s.pos), |s.phase.got|;
    SeenIsPiece(s);
    assert PieceOk(s.g, s.stored, PieceAt(s));
    assert s.f[o..o + k + 1] == s.f[o..o + k] + [s.f[o + k]];
  }

  /** The four bytes as the reader takes them. */
  lemma RawField(f: seq<byte>, o: nat)
    requires o > 0 && o + 4 <= |f| && f[o + 3] >= 0x80
    ensures var r, raw := ReadField(f, o, true), Dec(f[o..o + 4]);
      (r == Skip ==> raw == -1) && (r.Size? ==> raw != -1 && raw + 0x8000_0000 == r.n > 4)
  {
  }

  /** What the four bytes tell about what is ahead. */
  ghost predicate Told(s: State)
    requires |s.g.slots| == |s.g.msgs| && s.phase.Sizing?
  {
    var i, raw := |s.out|, Dec(s.phase.got);
    && i < |s.g.msgs|
    && match PieceAt(s)
       case SkipOf(_) => raw == -1 && s.pos.rel != 0 && s.pos.blk == Cursor(s.g, i).blk != s.g.slots[i].blk
       case HeaderOf(_) => raw == BLOCK_HEADER - 0x8000_0000 && s.g.slots[i] == Pos(s.pos.blk, BLOCK_HEADER)
       case FrameOf(_) =>
         var n := FrameLen(s.g.msgs[i]);
         raw != -1 && raw == n - 0x8000_0000 && s.pos == s.g.slots[i] && s.pos.rel + n <= s.g.block
  }

  lemma FrameHere(f: seq<byte>, g: Log, i: nat)
    requires Sound(f, g) && i < |g.msgs|
    ensures var s, n := g.slots[i], FrameLen(g.msgs[i]);
      && 0 < s.rel && s.rel + n <= g.block && Abs(g.block, s) + n <= |f| && n < 0x7FFF_FFFF
      && Storable(g.msgs[i]) && Holds(f, Abs(g.block, s), FrameBytes(g.msgs[i], true))
  {
    assert Stored(f, g, i) && Placed(g, i);
  }

  lemma FrameFits(f: seq<byte>, g: Log, i: nat)
    requires Sound(f, g) && i < |g.msgs|
    ensures var s, n := g.slots[i], FrameLen(g.msgs[i]);
      0 < s.rel && s.rel + n <= g.block && Abs(g.block, s) + n <= |f|
  {
    FrameHere(f, g, i);
  }

  lemma PlaceTells(s: State)
    requires Inv(s) && |s.out| < |s.g.msgs| && AtField(s)
    ensures var i := |s.out|;
      match PieceAt(s)
      case SkipOf(_) => s.pos.rel != 0 && s.pos.blk == Cursor(s.g, i).blk != s.g.slots[i].blk
      case HeaderOf(_) => s.g.slots[i] == Pos(s.pos.blk, BLOCK_HEADER)
      case FrameOf(_) => s.pos == s.g.slots[i] && s.pos.rel + FrameLen(s.g.msgs[i]) <= s.g.block
  {
    if s.pos.rel == 0 {
      StartCases(s.g, s.pos, |s.out|);
    } else {
      LeadCases(s.g, s.pos, |s.out|);
      FrameFits(s.f, s.g, |s.out|);
    }
  }

  lemma FieldTells(s: State)
    requires Inv(s) && s.phase.Sizing? && |s.phase.got| == 4
    ensures Told(s)
  {
    FieldOfPiece(s);
    SeenIsPiece(s);
    RawField(s.f, Abs(s.g.block, s.pos));
    PlaceTells(s);
  }

  lemma DecideKeeps(s: State)
    requires |s.g.slots| == |s.g.msgs| && s.g.block >= MIN_FRAME + BLOCK_HEADER && ReaderOk(s)
    requires s.phase.Sizing? && |s.phase.got| == 4 && Told(s)
    ensures ReaderOk(LoadStep(s))
  {
  }

  lemma SizedKeeps(s: State)
    requires |s.g.slots| == |s.g.msgs| && ReaderOk(s) && s.phase.Sized?
    requires Abs(s.g.block, s.pos) + s.phase.n <= |s.f|
    ensures ReaderOk(LoadStep(s))
  {
  }

  lemma CopyingKeeps(s: State)
    requires Inv(s) && s.phase.Copying? && |s.phase.buf| + 5 < s.phase.n
    ensures ReaderOk(LoadStep(s))
  {
    var o, k := Abs(s.g.block, s.pos), |s.phase.buf|;
    assert PieceOk(s.g, s.stored, FrameOf(|s.out|));
    assert s.f[o + 4..o + 4 + k + 1] == s.f[o + 4..o + 4 + k] + [s.f[o + 4 + k]];
  }

  /** A payload that is all there is the message. */
  lemma ParsesBack(f: seq<byte>, o: nat, n: nat, m: Msg)
    requires n >= MIN_FRAME && o + n <= |f| && ReadPayload(f, o, n) == Message(m)
    ensures Parse(f[o + 4..o + n - 1]) == m
  {
    var buf := f[o + 4..o + n - 1];
    Part(f, o + 4, buf, 0, 4);
    Part(f, o + 4, buf, 4, 12);
    Part(f, o + 4, buf, 12, n - 5);
  }

  lemma DeliverKeeps(s: State)
    requires |s.g.slots| == |s.g.msgs| && ReaderOk(s) && s.phase.Copying? && |s.phase.buf| + 5 == s.phase.n
    requires Parse(s.phase.buf) == s.g.msgs[|s.out|] && s.pos.rel + s.phase.n <= s.g.block
    ensures ReaderOk(LoadStep(s))
  {
  }

  lemma SizeKeeps(s: State)
    requires Inv(s) && s.phase.Sizing?
    ensures ReaderOk(LoadStep(s))
  {
    if |s.phase.got| < 4 {
      SizingKeeps(s);
    } else {
      FieldTells(s);
      DecideKeeps(s);
    }
  }

  /** The payload that has been copied is the message. */
  lemma CopiedIsMessage(f: seq<byte>, g: Log, i: nat, buf: seq<byte>)
    requires Sound(f, g) && i < |g.msgs|
    requires var o, n := Abs(g.block, g.slots[i]), FrameLen(g.msgs[i]); o + n <= |f| && buf == f[o + 4..o + n - 1]
    ensures |buf| >= 12 && Parse(buf) == g.msgs[i] && g.slots[i].rel + FrameLen(g.msgs[i]) <= g.block
  {
    FrameFits(f, g, i);
    SeesMessage(f, g, i);
    ParsesBack(f, Abs(g.block, g.slots[i]), FrameLen(g.msgs[i]), g.msgs[i]);
  }

  lemma TakeKeeps(s: State)
    requires Inv(s) && s.phase.Copying? && |s.phase.buf| + 5 == s.phase.n
    ensures ReaderOk(LoadStep(s))
  {
    CopiedIsMessage(s.f, s.g, |s.out|, s.phase.buf);
    DeliverKeeps(s);
  }

  lemma LoadKeeps(s: State)
    requires Inv(s)
    ensures ReaderOk(LoadStep(s))
  {
    match s.phase {
      case Begin => BeginKeeps(s);
      case Sizing(_) => SizeKeeps(s);
      case Sized(_) =>
        FrameFits(s.f, s.g, |s.out|);
        SizedKeeps(s);
      case Copying(n, buf) =>
        if |buf| + 5 < n {
          CopyingKeeps(s);
        } else {
          TakeKeeps(s);
        }
      case Stopped =>
    }
  }

  lemma LoadStoresNothing(s: State)
    ensures var t := LoadStep(s); t.f == s.f && t.g == s.g && t.stored == s.stored
  {
  }

  lemma StepKeeps(s: State, a: Action)
    requires Inv(s)
    ensures Inv(Step(s, a))
  {
    match a {
      case Store(w, t) =>
        if MayStore(s, w, t) {
          StoreKeeps(s, w, t);
        }
      case Load =>
        LoadKeeps(s);
        LoadStoresNothing(s);
    }
  }

  lemma {:induction false} RunKeeps(s: State, acts: seq<Action>)
    requires Inv(s)
    ensures Inv(Run(s, acts))
    decreases |acts|
  {
    if acts != [] {
      StepKeeps(s, acts[0]);
      RunKeeps(Step(s, acts[0]), acts[1..]);
    }
  }

  lemma ReadyIsInv(f: seq<byte>, g: Log)
    requires Sound(f, g)
    ensures Inv(Ready(f, g))
  {
  }

  /**
   * In every interleaving of the stores of any posts with the loads of the reader: what has been
   * delivered is a prefix of what is posted, and the reader is never stopped by an error.
   */
  lemma LiveReaderGetsAPrefix(f: seq<byte>, g: Log, acts: seq<Action>)
    requires Sound(f, g)
    ensures Run(Ready(f, g), acts).out <= g.msgs && !Run(Ready(f, g), acts).phase.Stopped?
  {
    ReadyIsInv(f, g);
    RunKeeps(Ready(f, g), acts);
  }

  // ----- and all of it in the end

  ghost predicate AllStored(s: State)
    requires |s.g.slots| == |s.g.msgs|
  {
    forall w: Piece, x {:trigger Off(s.g, w), x in s.stored} ::
      Written(s.g, w) && Off(s.g, w) <= x < Off(s.g, w) + Len(s.g, w) ==> x in s.stored
  }

  /** How many moves from place to place are left before the frame. */
  ghost function Stage(s: State): nat
    requires |s.g.slots| == |s.g.msgs| && |s.out| < |s.g.msgs|
  {
    if s.pos == s.g.slots[|s.out|] then 0
    else if s.pos.rel == 0 then 1
    else if s.pos.rel + MIN_FRAME > s.g.block then 2
    else 3
  }

  /** How many loads are left at a place. */
  ghost function LoadsLeft(s: State): nat {
    match s.phase
    case Begin => s.g.block + 8
    case Sizing(got) => if |got| <= 4 then s.g.block + 7 - |got| else 0
    case Sized(_) => s.g.block + 2
    case Copying(n, buf) => if |buf| <= n then n - |buf| else 0
    case Stopped => 0
  }

  /** A load brings the reader forward. */
  ghost predicate Onward(s: State, t: State)
    requires |s.g.slots| == |s.g.msgs| && t.g == s.g && |s.out| < |s.g.msgs|
  {
    || |t.out| > |s.out|
    || (t.out == s.out && Stage(t) < Stage(s))
    || (t.out == s.out && Stage(t) == Stage(s) && LoadsLeft(t) < LoadsLeft(s))
  }

  lemma BeginGoesOn(s: State)
    requires Inv(s) && AllStored(s) && |s.out| < |s.g.msgs| && s.phase == Begin
    ensures Onward(s, LoadStep(s))
  {
    if AtField(s) {
      SeenIsPiece(s);
      FieldOfPiece(s);
      assert Abs(s.g.block, s.pos) + 3 in s.stored;
    } else {
      LeadCases(s.g, s.pos, |s.out|);
    }
  }

  lemma DecideGoesOn(s: State)
    requires |s.g.slots| == |s.g.msgs| && s.g.block >= MIN_FRAME + BLOCK_HEADER && ReaderOk(s)
    requires s.phase.Sizing? && |s.phase.got| == 4 && Told(s)
    ensures Onward(s, LoadStep(s))
  {
  }

  /** The tail byte of the frame is there. */
  lemma TailIsThere(s: State, i: nat)
    requires Sound(s.f, s.g) && AllStored(s) && i < |s.g.msgs|
    ensures Mem(s, Abs(s.g.block, s.g.slots[i]) + FrameLen(s.g.msgs[i]) - 1) == TAIL
  {
    FrameHere(s.f, s.g, i);
    FrameFields(s.f, Abs(s.g.block, s.g.slots[i]), s.g.msgs[i], true);
    assert Written(s.g, FrameOf(i)) && Off(s.g, FrameOf(i)) == Abs(s.g.block, s.g.slots[i]);
  }

  lemma SizedGoesOn(s: State)
    requires |s.g.slots| == |s.g.msgs| && ReaderOk(s) && s.phase.Sized? && s.phase.n <= s.g.block
    requires Mem(s, Abs(s.g.block, s.pos) + s.phase.n - 1) == TAIL
    ensures Onward(s, LoadStep(s))
  {
  }

  lemma TailGoesOn(s: State)
    requires Inv(s) && AllStored(s) && s.phase.Sized?
    ensures Onward(s, LoadStep(s))
  {
    TailIsThere(s, |s.out|);
    FrameFits(s.f, s.g, |s.out|);
    SizedGoesOn(s);
  }

  lemma FieldGoesOn(s: State)
    requires Inv(s) && |s.out| < |s.g.msgs| && s.phase.Sizing?
    ensures Onward(s, LoadStep(s))
  {
    if |s.phase.got| == 4 {
      FieldTells(s);
      DecideGoesOn(s);
    }
  }

  lemma LoadGoesOn(s: State)
    requires Inv(s) && AllStored(s) && |s.out| < |s.g.msgs|
    ensures Onward(s, LoadStep(s))
  {
    match s.phase {
      case Begin => BeginGoesOn(s);
      case Sizing(_) => FieldGoesOn(s);
      case Sized(_) => TailGoesOn(s);
      case Copying(_, _) =>
    }
  }

  lemma DrainStep(s: State)
    requires Inv(s) && AllStored(s) && |s.out| < |s.g.msgs|
    ensures var t := LoadStep(s); t.g == s.g && Inv(t) && AllStored(t) && Onward(s, t)
  {
    StepKeeps(s, Load);
    LoadStoresNothing(s);
    LoadGoesOn(s);
  }

  function Loads(k: nat): seq<Action> {
    if k == 0 then [] else [Load] + Loads(k - 1)
  }

  lemma LoadsOn(s: State, k: nat)
    requires |s.g.slots| == |s.g.msgs|
    ensures Run(s, Loads(k + 1)) == Run(LoadStep(s), Loads(k))
  {
    assert Loads(k + 1)[1..] == Loads(k);
  }

  /** With everything stored, so many loads deliver it all. */
  lemma {:induction false} Drains(s: State) returns (k: nat)
    requires Inv(s) && AllStored(s)
    ensures Run(s, Loads(k)).out == s.g.msgs
    decreases |s.g.msgs| - |s.out|, if |s.out| < |s.g.msgs| then Stage(s) else 0, LoadsLeft(s)
  {
    if |s.out| == |s.g.msgs| {
      k := 0;
    } else {
      DrainStep(s);
      k := Drains(LoadStep(s));
      LoadsOn(s, k);
      k := k + 1;
    }
  }

  /** However the loads and stores were interleaved before: once everything is stored, the reader gets it all. */
  lemma LiveReaderCatchesUp(f: seq<byte>, g: Log, acts: seq<Action>) returns (k: nat)
    requires Sound(f, g) && AllStored(Run(Ready(f, g), acts))
    ensures Run(Run(Ready(f, g), acts), Loads(k)).out == g.msgs
  {
    ReadyIsInv(f, g);
    RunKeeps(Ready(f, g), acts);
    k := Drains(Run(Ready(f, g), acts));
  }
}
