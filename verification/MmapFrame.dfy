/**
 * One frame written through a memory map (IOMMap::writev in file.cc) while another process reads
 * it: the writer's byte stores against the reader's byte loads, in any interleaving.  In files of
 * version 1 the top bit of the size field and the tail byte together tell a complete frame.
 */
module MmapFrame {
  import opened Bytes
  import opened FileLayout

  /** Where the reader is between `_read_frame_nocheck` and `_read_data`. */
  datatype Reader =
    | Start
    | Sizing(got: seq<byte>)
    | Sized(n: nat)
    | Copying(n: nat, buf: seq<byte>)
    | Accepted(n: nat, buf: seq<byte>)
    | Skipped
    | NotYet
    | Refused

  /** `final` is what the writer is storing at this place, `done` which of its bytes have been stored. */
  datatype State = State(final: seq<byte>, marker: bool, mem: seq<byte>, done: set<int>, reader: Reader)

  datatype Action = Store(k: nat) | Load

  /** The first three bytes in any order, then the fourth, then the payload in any order, then the tail byte. */
  predicate MayStore(s: State, k: nat) {
    && k < |s.final| && k !in s.done
    && (k == 3 ==> {0, 1, 2} <= s.done)
    && (k > 3 ==> 3 in s.done)
    && (k > 4 && k == |s.final| - 1 ==> forall j :: 4 <= j < k ==> j in s.done)
  }

  function LoadStep(s: State): Reader {
    match s.reader
    case Start =>
      if s.marker && |s.mem| > 3 && s.mem[3] < 0x80 then NotYet else Sizing([])
    case Sizing(got) =>
      if |got| < 4 then (if |got| < |s.mem| then Sizing(got + [s.mem[|got|]]) else Refused)
      else
        var raw := Dec(got);
        if raw == -1 then Skipped
        else
          var n := if s.marker then raw + 0x8000_0000 else raw;
          if n > 4 then (if n <= |s.mem| then Sized(n) else Refused) else if n == 0 then NotYet else Refused
    case Sized(n) =>
      if !(4 < n <= |s.mem|) then Refused else if s.mem[n - 1] < 0x80 then NotYet else Copying(n, [])
    case Copying(n, buf) =>
      if |buf| + 5 >= n then Accepted(n, buf)
      else if |buf| + 4 < |s.mem| then Copying(n, buf + [s.mem[|buf| + 4]]) else Refused
    case _ => s.reader
  }

  /** A reader that was told "not yet" may start over. */
  function Step(s: State, a: Action): State {
    match a
    case Store(k) =>
      if MayStore(s, k) && k < |s.mem| then s.(mem := s.mem[k := s.final[k]], done := s.done + {k}) else s
    case Load => if s.reader.NotYet? then s.(reader := Start) else s.(reader := LoadStep(s))
  }

  function Run(s: State, acts: seq<Action>): State
    decreases |acts|
  {
    if acts == [] then s else Run(Step(s, acts[0]), acts[1..])
  }

  /** A data frame, a block header, or the lone size of a skip frame. */
  ghost predicate IsFrame(final: seq<byte>, marker: bool) {
    || final == SkipBytes()
    || (4 < |final| < 0x7FFF_FFFF && final[..4] == SizeField(|final|, marker) && final[|final| - 1] == TAIL)
  }

  ghost predicate Init(s: State) {
    && IsFrame(s.final, s.marker) && |s.final| <= |s.mem|
    && (forall i :: 0 <= i < |s.mem| ==> s.mem[i] == 0)
    && s.done == {} && s.reader == Start
  }

  // ----- invariant

  ghost predicate MemInv(s: State) {
    && IsFrame(s.final, s.marker) && |s.final| <= |s.mem|
    && (forall k :: k in s.done ==> 0 <= k < |s.final|)
    && (forall i :: 0 <= i < |s.mem| ==> s.mem[i] == if i in s.done then s.final[i] else 0)
    && (3 in s.done ==> {0, 1, 2} <= s.done)
    && (forall k :: k in s.done && k > 3 ==> 3 in s.done)
    && (|s.final| > 4 && |s.final| - 1 in s.done ==> forall j :: 4 <= j < |s.final| ==> j in s.done)
  }

  ghost predicate ReaderInv(s: State) {
    match s.reader
    case Start => true
    case Sizing(got) => 3 in s.done && |got| <= 4 <= |s.final| && got == s.final[..|got|]
    case Sized(n) => 3 in s.done && |s.final| > 4 && n == |s.final|
    case Copying(n, buf) =>
      && |s.final| > 4 && n == |s.final| && n - 1 in s.done
      && |buf| + 5 <= n && buf == s.final[4..4 + |buf|]
    case Accepted(n, buf) => |s.final| > 4 && n == |s.final| && n - 1 in s.done && buf == s.final[4..n - 1]
    case Skipped => s.final == SkipBytes()
    case NotYet => true
    case Refused => false
  }

  lemma FieldIsFinal(final: seq<byte>)
    requires IsFrame(final, true)
    ensures |final| >= 4 && final[3] >= 0x80
    ensures if final == SkipBytes() then Dec(final[..4]) == -1
            else Dec(final[..4]) != -1 && Dec(final[..4]) + 0x8000_0000 == |final|
  {
    Span256Values();
    if final == SkipBytes() {
      UnsignedRoundTrip(0xFFFF_FFFF, 4);
      TopByte(0xFFFF_FFFF);
      assert final[..4] == final;
    } else {
      var x := |final| + 0x8000_0000;
      UnsignedRoundTrip(x, 4);
      TopByte(x);
      assert final[3] == final[..4][3];
    }
  }

  lemma StoreKeepsMemory(s: State, k: nat)
    requires MemInv(s)
    ensures MemInv(Step(s, Store(k)))
  {
  }

  lemma StoreKeeps(s: State, k: nat)
    requires MemInv(s) && ReaderInv(s)
    ensures MemInv(Step(s, Store(k))) && ReaderInv(Step(s, Store(k)))
  {
    StoreKeepsMemory(s, k);
  }

  lemma SliceGrows(f: seq<byte>, i: nat, k: nat)
    requires i <= k < |f|
    ensures f[i..k + 1] == f[i..k] + [f[k]]
  {
  }

  lemma SizingKeeps(s: State)
    requires MemInv(s) && ReaderInv(s) && s.marker && s.reader.Sizing?
    ensures ReaderInv(s.(reader := LoadStep(s)))
  {
    var got := s.reader.got;
    if |got| < 4 {
      assert |got| in s.done && s.mem[|got|] == s.final[|got|];
      SliceGrows(s.final, 0, |got|);
    } else {
      FieldIsFinal(s.final);
      assert got == s.final[..4];
    }
  }

  /** Once the tail byte is there, so is every byte of the payload. */
  lemma PayloadIsThere(s: State, k: nat)
    requires MemInv(s) && |s.final| > 4 && |s.final| - 1 in s.done && 4 <= k < |s.final|
    ensures s.mem[k] == s.final[k]
  {
  }

  lemma CopyingKeeps(s: State)
    requires MemInv(s) && ReaderInv(s) && s.reader.Copying?
    ensures ReaderInv(s.(reader := LoadStep(s)))
  {
    var k := |s.reader.buf| + 4;
    if k + 1 < s.reader.n {
      PayloadIsThere(s, k);
      SliceGrows(s.final, 4, k);
    }
  }

  lemma OthersKeep(s: State)
    requires MemInv(s) && ReaderInv(s) && s.marker && !s.reader.Sizing? && !s.reader.Copying?
    ensures ReaderInv(s.(reader := LoadStep(s)))
  {
    FieldIsFinal(s.final);
  }

  lemma LoadKeeps(s: State)
    requires MemInv(s) && ReaderInv(s) && s.marker
    ensures ReaderInv(s.(reader := LoadStep(s)))
  {
    match s.reader {
      case Sizing(_) => SizingKeeps(s);
      case Copying(_, _) => CopyingKeeps(s);
      case _ => OthersKeep(s);
    }
  }

  lemma {:induction false} RunKeeps(s: State, acts: seq<Action>)
    requires MemInv(s) && ReaderInv(s) && s.marker
    ensures MemInv(Run(s, acts)) && ReaderInv(Run(s, acts)) && Run(s, acts).final == s.final
    decreases |acts|
  {
    if acts != [] {
      match acts[0] {
        case Store(k) => StoreKeeps(s, k);
        case Load => LoadKeeps(s);
      }
      RunKeeps(Step(s, acts[0]), acts[1..]);
    }
  }

  /**
   * Version 1, every interleaving: a frame that passes both checks has its final size and its
   * complete payload, a skip is seen only where one was written, and nothing is ever refused.
   */
  lemma AcceptedFrameIsComplete(s: State, acts: seq<Action>)
    requires Init(s) && s.marker
    ensures var r := Run(s, acts).reader;
            && !r.Refused?
            && (r.Accepted? ==> |s.final| > 4 && r.n == |s.final| && r.buf == s.final[4..|s.final| - 1])
            && (r.Skipped? ==> s.final == SkipBytes())
  {
    RunKeeps(s, acts);
  }

  // ----- version 0: sizes with one nonzero byte are safe

  lemma SizeBytes(n: nat)
    requires n < 0x7FFF_FFFF
    ensures SizeField(n, false) == [n % 0x100, n / 0x100 % 0x100, n / 0x1_0000 % 0x100, n / 0x100_0000]
  {
    var b, c, d := n / 256, n / 256 / 256, n / 256 / 256 / 256;
    assert Le(d, 1) == [d % 256] + Le(d / 256, 0);
    assert Le(c, 2) == [c % 256] + Le(d, 1);
    assert Le(b, 3) == [b % 256] + Le(c, 2);
    assert Le(n, 4) == [n % 256] + Le(b, 3);
  }

  /** At most one byte of the size field is not zero. */
  predicate OneByte(n: nat) {
    var a, b, c, d := n % 0x100, n / 0x100 % 0x100, n / 0x1_0000 % 0x100, n / 0x100_0000;
    (b == c == d == 0) || (a == c == d == 0) || (a == b == d == 0) || (a == b == c == 0)
  }

  /** What the reader of a data frame knows without the marker: every byte it has is final or not stored. */
  ghost predicate PlainInv(s: State) {
    match s.reader
    case Start => true
    case Sizing(got) =>
      |got| <= 4 <= |s.final| && forall i :: 0 <= i < |got| ==> got[i] == s.final[i] || got[i] == 0
    case Sized(n) => n == |s.final| > 4
    case Copying(n, buf) =>
      && |s.final| > 4 && n == |s.final| && n - 1 in s.done
      && |buf| + 5 <= n && buf == s.final[4..4 + |buf|]
    case Accepted(n, buf) => |s.final| > 4 && n == |s.final| && buf == s.final[4..n - 1]
    case Skipped => false
    case NotYet => true
    case Refused => false
  }

  /** A data frame of version 0 with such a size. */
  ghost predicate PlainFrame(s: State) {
    && !s.marker && 4 < |s.final| < 0x7FFF_FFFF && OneByte(|s.final|)
    && s.final[..4] == SizeField(|s.final|, false) && s.final[|s.final| - 1] == TAIL
  }

  lemma Digits(n: nat)
    ensures var a, b, c, d := n % 0x100, n / 0x100 % 0x100, n / 0x1_0000 % 0x100, n / 0x100_0000;
            n == a + 0x100 * b + 0x1_0000 * c + 0x100_0000 * d
  {
    var b, c := n / 0x100, n / 0x1_0000;
    assert c == b / 0x100 && n / 0x100_0000 == c / 0x100;
  }

  lemma PlainSize(s: State, got: seq<byte>)
    requires MemInv(s) && PlainFrame(s) && |got| == 4
    requires forall i :: 0 <= i < 4 ==> got[i] == s.final[i] || got[i] == 0
    ensures Dec(got) == |s.final| || Dec(got) == 0
  {
    var n, f := |s.final|, s.final[..4];
    SizeBytes(n);
    assert f[0] == s.final[0] && f[1] == s.final[1] && f[2] == s.final[2] && f[3] == s.final[3];
    assert got == [got[0], got[1], got[2], got[3]];
    FourBytes(got[0], got[1], got[2], got[3]);
    Digits(n);
  }

  lemma PlainSizing(s: State)
    requires MemInv(s) && PlainInv(s) && PlainFrame(s) && s.reader.Sizing?
    ensures PlainInv(s.(reader := LoadStep(s)))
  {
    var got := s.reader.got;
    if |got| == 4 {
      PlainSize(s, got);
    }
  }

  lemma PlainCopying(s: State)
    requires MemInv(s) && PlainInv(s) && s.reader.Copying?
    ensures PlainInv(s.(reader := LoadStep(s)))
  {
    var k := |s.reader.buf| + 4;
    if k + 1 < s.reader.n {
      PayloadIsThere(s, k);
      SliceGrows(s.final, 4, k);
    }
  }

  lemma PlainSized(s: State)
    requires MemInv(s) && PlainInv(s) && PlainFrame(s) && s.reader.Sized?
    ensures PlainInv(s.(reader := LoadStep(s)))
  {
  }

  lemma PlainLoad(s: State)
    requires MemInv(s) && PlainInv(s) && PlainFrame(s)
    ensures PlainInv(Step(s, Load))
  {
    match s.reader {
      case Sizing(_) => PlainSizing(s);
      case Sized(_) => PlainSized(s);
      case Copying(_, _) => PlainCopying(s);
      case _ =>
    }
  }

  lemma PlainStore(s: State, k: nat)
    requires PlainInv(s)
    ensures PlainInv(Step(s, Store(k)))
  {
  }

  lemma ReaderApart(s: State, r: Reader)
    requires MemInv(s)
    ensures MemInv(s.(reader := r))
  {
  }

  lemma MemoryAfterLoad(s: State)
    requires MemInv(s)
    ensures MemInv(Step(s, Load))
  {
    ReaderApart(s, Step(s, Load).reader);
    assert Step(s, Load) == s.(reader := Step(s, Load).reader);
  }

  lemma PlainStep(s: State, a: Action)
    requires MemInv(s) && PlainInv(s) && PlainFrame(s)
    ensures MemInv(Step(s, a)) && PlainInv(Step(s, a)) && PlainFrame(Step(s, a))
  {
    match a {
      case Store(k) =>
        StoreKeepsMemory(s, k);
        PlainStore(s, k);
      case Load =>
        PlainLoad(s);
        MemoryAfterLoad(s);
    }
  }

  lemma {:induction false} PlainRun(s: State, acts: seq<Action>)
    requires MemInv(s) && PlainInv(s) && PlainFrame(s)
    ensures PlainInv(Run(s, acts)) && Run(s, acts).final == s.final
    decreases |acts|
  {
    if acts != [] {
      PlainStep(s, acts[0]);
      PlainRun(Step(s, acts[0]), acts[1..]);
    }
  }

  /** Version 0, every interleaving of a data frame whose size has one nonzero byte, as all under 256 bytes have. */
  lemma OneByteSizeIsSafe(s: State, acts: seq<Action>)
    requires Init(s) && PlainFrame(s)
    ensures var r := Run(s, acts).reader;
            && !r.Refused? && !r.Skipped?
            && (r.Accepted? ==> r.n == |s.final| && r.buf == s.final[4..|s.final| - 1])
  {
    PlainRun(s, acts);
  }

  // ----- and all others are not

  /** A frame of `n` bytes whose payload bytes all have their top bit set. */
  function BrightFrame(n: nat): (f: seq<byte>)
    requires n > 4
    ensures |f| == n && f[..4] == SizeField(n, false) && forall i :: 4 <= i < n ==> f[i] == 0x80
  {
    SizeField(n, false) + seq(n - 4, _ => 0x80)
  }

  function StoresFrom(i: nat, n: nat): seq<Action>
    requires i <= n
    decreases n - i
  {
    if i == n then [] else [Store(i)] + StoresFrom(i + 1, n)
  }

  /** Of a frame the first `i` bytes have been stored. */
  ghost predicate Partly(s: State, i: nat, r: Reader) {
    && i <= |s.final| <= |s.mem| && s.reader == r
    && (forall x :: x in s.done <==> 0 <= x < i)
    && (forall x :: 0 <= x < |s.mem| ==> s.mem[x] == if x < i then s.final[x] else 0)
  }

  lemma {:induction false} StoresComplete(s: State, i: nat, r: Reader)
    requires Partly(s, i, r)
    ensures var t := Run(s, StoresFrom(i, |s.final|));
      Partly(t, |s.final|, r) && t.final == s.final && t.marker == s.marker && |t.mem| == |s.mem|
    decreases |s.final| - i
  {
    if i < |s.final| {
      assert StoresFrom(i, |s.final|)[1..] == StoresFrom(i + 1, |s.final|);
      assert MayStore(s, i);
      StoresComplete(Step(s, Store(i)), i + 1, r);
    }
  }

  function Loads(n: nat): seq<Action> {
    if n == 0 then [] else [Load] + Loads(n - 1)
  }

  lemma {:induction false} RunConcat(s: State, a: seq<Action>, b: seq<Action>)
    ensures Run(s, a + b) == Run(Run(s, a), b)
    decreases |a|
  {
    if a == [] {
      assert a + b == b;
    } else {
      assert (a + b)[1..] == a[1..] + b;
      RunConcat(Step(s, a[0]), a[1..], b);
    }
  }

  lemma LoadOnce(s: State, n: nat)
    requires n > 0
    ensures Run(s, Loads(n)) == Run(Step(s, Load), Loads(n - 1))
  {
    assert Loads(n)[1..] == Loads(n - 1);
  }

  /** Bytes of the size, one by one. */
  lemma {:induction false} LoadsSize(s: State, n: nat)
    requires s.reader.Sizing? && |s.reader.got| + n <= 4 <= |s.mem|
    ensures var k := |s.reader.got|; Run(s, Loads(n)) == s.(reader := Sizing(s.reader.got + s.mem[k..k + n]))
    decreases n
  {
    var k := |s.reader.got|;
    if n > 0 {
      LoadOnce(s, n);
      LoadsSize(Step(s, Load), n - 1);
      assert s.mem[k..k + n] == [s.mem[k]] + s.mem[k + 1..k + n];
      assert s.reader.got + s.mem[k..k + n] == s.reader.got + [s.mem[k]] + s.mem[k + 1..k + n];
    } else {
      assert s.mem[k..k] == [];
    }
  }

  lemma {:induction false} CopiesThrough(s: State, v: nat, n: nat)
    requires s.reader.Copying? && s.reader.n == v && |s.reader.buf| + 5 <= v <= |s.mem| && n == v - 4 - |s.reader.buf|
    ensures Run(s, Loads(n)).reader.Accepted? && Run(s, Loads(n)).reader.n == v
    decreases n
  {
    LoadOnce(s, n);
    if |s.reader.buf| + 5 < v {
      CopiesThrough(Step(s, Load), v, n - 1);
    } else {
      assert Loads(n - 1) == [];
    }
  }

  /** A size that was put together from bytes of different moments, and a payload byte that passes for the tail. */
  lemma TornAccept(s: State, v: nat, n: nat)
    requires s.reader.Sizing? && |s.reader.got| == 4 && Dec(s.reader.got) == v && !s.marker
    requires 4 < v <= |s.mem| && s.mem[v - 1] >= 0x80 && n == v - 2
    ensures Run(s, Loads(n)).reader.Accepted? && Run(s, Loads(n)).reader.n == v
  {
    LoadOnce(s, n);
    LoadOnce(Step(s, Load), n - 1);
    CopiesThrough(Step(Step(s, Load), Load), v, n - 2);
  }

  /** The reader has begun, and has loaded the first `k` bytes of the size. */
  function Early(k: nat): seq<Action> {
    Loads(k + 1)
  }

  lemma LoadsEarly(s: State, k: nat)
    requires Partly(s, 0, Start) && !s.marker && k <= 4 <= |s.final|
    ensures Run(s, Early(k)) == s.(reader := Sizing(seq(k, _ => 0)))
  {
    LoadOnce(s, k + 1);
    LoadsSize(Step(s, Load), k);
    assert s.mem[0..0 + k] == seq(k, _ => 0);
    assert [] + s.mem[0..0 + k] == s.mem[0..0 + k];
  }

  lemma LoadsLate(s: State, k: nat)
    requires Partly(s, |s.final|, Sizing(seq(k, _ => 0))) && k <= 4 <= |s.final|
    ensures Run(s, Loads(4 - k)) == s.(reader := Sizing(seq(k, _ => 0) + s.final[k..4]))
    ensures s.mem[..|s.final|] == s.final
  {
    LoadsSize(s, 4 - k);
    assert s.mem[k..k + (4 - k)] == s.final[k..4];
  }

  /** It loads `k` bytes, the writer stores everything, and it loads the rest. */
  lemma LoadsAround(s: State, k: nat)
    requires Partly(s, 0, Start) && !s.marker && k <= 4 <= |s.final|
    ensures var t := Run(s, Early(k) + StoresFrom(0, |s.final|) + Loads(4 - k));
      && t.final == s.final && t.marker == s.marker && |t.mem| == |s.mem| && t.mem[..|s.final|] == s.final
      && t.reader == Sizing(seq(k, _ => 0) + s.final[k..4])
  {
    var n, r := |s.final|, Sizing(seq(k, _ => 0));
    LoadsEarly(s, k);
    StoresComplete(s.(reader := r), 0, r);
    LoadsLate(Run(s.(reader := r), StoresFrom(0, n)), k);
    RunConcat(s, Early(k), StoresFrom(0, n));
    RunConcat(s, Early(k) + StoresFrom(0, n), Loads(4 - k));
  }

  function Blank(final: seq<byte>, room: nat): State
    requires |final| <= room
  {
    State(final, false, seq(room, _ => 0), {}, Start)
  }

  /** The highest byte of a size that is not zero. */
  function Highest(n: nat): (k: nat)
    ensures k <= 3
  {
    if n / 0x100_0000 != 0 then 3
    else if n / 0x1_0000 % 0x100 != 0 then 2
    else if n / 0x100 % 0x100 != 0 then 1
    else 0
  }

  /** The size that is seen when only that byte is. */
  function Seen(n: nat): nat {
    match Highest(n)
    case 3 => 0x100_0000 * (n / 0x100_0000)
    case 2 => 0x1_0000 * (n / 0x1_0000 % 0x100)
    case 1 => 0x100 * (n / 0x100 % 0x100)
    case _ => n % 0x100
  }

  lemma SeenIsSmaller(n: nat)
    requires 4 < n && !OneByte(n)
    ensures 4 < Seen(n) < n
  {
    Digits(n);
  }

  lemma SeenIsRead(n: nat)
    requires 4 < n < 0x7FFF_FFFF
    ensures Dec(seq(Highest(n), _ => 0) + BrightFrame(n)[Highest(n)..4]) == Seen(n)
  {
    var k, f := Highest(n), BrightFrame(n);
    var q: seq<byte> := seq(k, _ => 0) + f[k..4];
    SizeBytes(n);
    assert forall i :: 0 <= i < 4 ==> f[i] == f[..4][i];
    assert q == [q[0], q[1], q[2], q[3]];
    FourBytes(q[0], q[1], q[2], q[3]);
  }

  ghost predicate Tears(s: State, acts: seq<Action>) {
    && Init(s) && !s.marker && |s.final| > 4
    && var r := Run(s, acts).reader; r.Accepted? && r.n != |s.final|
  }

  /** The reader loads the bytes below the highest before the writer comes, and the others after it has finished. */
  lemma TearingRun(n: nat) returns (acts: seq<Action>)
    requires 4 < n < 0x7FFF_FFFF && !OneByte(n)
    ensures Tears(Blank(BrightFrame(n), n), acts)
  {
    var s, k, v := Blank(BrightFrame(n), n), Highest(n), Seen(n);
    SeenIsSmaller(n);
    SeenIsRead(n);
    LoadsAround(s, k);
    var first := Early(k) + StoresFrom(0, n) + Loads(4 - k);
    var t := Run(s, first);
    assert t.mem[v - 1] == t.mem[..n][v - 1];
    TornAccept(t, v, v - 2);
    RunConcat(s, first, Loads(v - 2));
    acts := first + Loads(v - 2);
  }

  /** Some data frame of `n` bytes, some interleaving. */
  ghost predicate CanTear(n: nat) {
    exists s, acts :: Tears(s, acts) && |s.final| == n
  }

  /** Version 0, data frames of every size: a wrong size can be accepted exactly when its size has two nonzero bytes. */
  lemma VersionZeroTearsExactly(n: nat)
    requires 4 < n < 0x7FFF_FFFF
    ensures CanTear(n) <==> !OneByte(n)
  {
    if !OneByte(n) {
      var acts := TearingRun(n);
      assert Tears(Blank(BrightFrame(n), n), acts) && |BrightFrame(n)| == n;
    } else {
      forall s, acts | Tears(s, acts) && |s.final| == n
        ensures false
      {
        assert s.final != SkipBytes();
        OneByteSizeIsSafe(s, acts);
      }
    }
  }

  lemma TornSkip(k: nat)
    requires 0 < k < 4
    ensures Dec(seq(k, _ => 0) + SkipBytes()[k..4]) < -1
  {
    var q: seq<byte> := seq(k, _ => 0) + SkipBytes()[k..4];
    TopByte(0xFFFF_FFFF);
    assert q[0] == 0 && q[3] == 255 && q == [q[0], q[1], q[2], q[3]];
    FourBytes(q[0], q[1], q[2], q[3]);
  }

  /**
   * A skip frame of version 0, however much of the block is left: with some bytes of it loaded
   * before the writer comes and the others after, the size is negative but not that of a skip frame.
   */
  lemma VersionZeroSkipTears(room: nat, k: nat)
    requires room >= 4 && 0 < k < 4
    ensures var s := Blank(SkipBytes(), room); var acts := Early(k) + StoresFrom(0, 4) + Loads(4 - k);
      && Init(s) && Run(s, acts + [Load]).reader.Refused?
      && Run(s, acts).reader.Sizing? && |Run(s, acts).reader.got| == 4 && Dec(Run(s, acts).reader.got) < -1
  {
    var s, acts := Blank(SkipBytes(), room), Early(k) + StoresFrom(0, |SkipBytes()|) + Loads(4 - k);
    LoadsAround(s, k);
    TornSkip(k);
    RunConcat(s, acts, [Load]);
  }
}
