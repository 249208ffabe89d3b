/**
 * The publish/subscribe ring (PubRing = RingT<true, true> in cppring.h, used by pub-mem.cc):
 * one publisher that writes and evicts, one subscriber that reads without any lock, as an
 * interleaving of their individual loads and stores.  Every load and store is atomic and
 * sequentially consistent; a size field is one store, a payload is stored byte by byte.
 */
module PubSub {
  import opened Bytes
  import opened RingLayout

  /** The shared memory and its two pointers.  `recs`, all records ever published, and `first`,
      how many of them `head` has passed, are history: no step reads them. */
  datatype Shared = Shared(mem: seq<byte>, headPtr: nat, tailPtr: nat, first: nat, recs: seq<Rec>)

  datatype Gens = Gens(headPre: nat, headPost: nat, tailPre: nat, tailPost: nat)

  /** Where the publisher is inside `MemPub::_post`. */
  datatype Writer =
    | Idle
    | Begin(rec: seq<byte>)
    | HeadPre(rec: seq<byte>, next: nat)
    | HeadPtr(rec: seq<byte>, next: nat)
    | HeadPost(rec: seq<byte>)
    | CopyIn(rec: seq<byte>, off: nat, todo: set<int>)
    | Mark(rec: seq<byte>, off: nat)
    | StoreSize(rec: seq<byte>, off: nat)
    | TailPre(rec: seq<byte>, off: nat)
    | TailPtr(rec: seq<byte>, off: nat)
    | TailPost

  /** Where the subscriber is inside `MemSub::_open` and `MemSub::_process`. */
  datatype Phase =
    | Detached
    | OpenPtr(g: nat)
    | OpenCheck(g: nat, off: nat)
    | OpenValid
    | Ready
    | ReadTail(at: nat)
    | ReadSize(at: nat)
    | ReadCheck(at: nat, size: nat)
    | CopyOut(at: nat, size: nat, buf: seq<byte>)
    | ShiftValid(buf: seq<byte>)
    | ShiftTail(buf: seq<byte>)
    | ShiftHead(buf: seq<byte>, tail: nat)
    | ShiftSize(buf: seq<byte>, at: nat)
    | ShiftCheck(buf: seq<byte>, next: nat)
    | Failed

  datatype Iter = Iter(gen: nat, offset: nat)

  /** The iterator of the subscriber and what it has delivered so far. */
  datatype Reader = Reader(phase: Phase, it: Iter, accepted: seq<seq<byte>>)

  datatype State = State(ring: Shared, gens: Gens, writer: Writer, reader: Reader)

  predicate Init(s: State) {
    && ValidSize(|s.ring.mem|)
    && s.ring == Shared(s.ring.mem, 0, 0, 0, [])
    && s.gens == Gens(0, 0, 0, 0)
    && s.writer == Idle && s.reader == Reader(Detached, Iter(0, 0), [])
  }

  /** `Post` starts a message, `Publish` and `Subscribe` advance one side by one atomic step. */
  datatype Action = Post(rec: seq<byte>) | Publish(byteAt: nat) | Subscribe

  function Store(m: seq<byte>, off: nat, bytes: seq<byte>): (r: seq<byte>)
    ensures |r| == |m|
    ensures off + |bytes| <= |m| ==>
              && r[off..off + |bytes|] == bytes
              && forall x :: 0 <= x < |m| && !(off <= x < off + |bytes|) ==> r[x] == m[x]
  {
    if off + |bytes| <= |m| then m[..off] + bytes + m[off + |bytes|..] else m
  }

  function Load(m: seq<byte>, off: nat): int {
    if off + HEADER <= |m| then Dec(m[off..off + HEADER]) else 0
  }

  // ----- the publisher

  function Indices(rec: seq<byte>): (r: set<int>)
    ensures forall i :: i in r <==> 0 <= i < |rec|
  {
    set i: int | 0 <= i < |rec| && rec[i] >= 0
  }

  /** Head of the loop `while (write_begin(...)) shift();`. */
  function BeginNext(r: Shared, rec: seq<byte>): Writer {
    if r.headPtr >= |r.mem| || r.tailPtr >= |r.mem| then Begin(rec)
    else
      var b := WriteBegin(|r.mem|, r.headPtr, r.tailPtr, |rec|);
      if b.At? then CopyIn(rec, b.off, Indices(rec))
      else if r.headPtr == r.tailPtr then Begin(rec)
      else
        var sz := Load(r.mem, r.headPtr);
        var at, n := if sz < 0 then 0 else r.headPtr, if sz < 0 then Load(r.mem, 0) else sz;
        if n < 0 then Begin(rec) else HeadPre(rec, WrapSize(at + Footprint(n), |r.mem|))
  }

  function Publish1(r: Shared, g: Gens, w: Writer, k: nat): (Shared, Gens, Writer) {
    match w
    case Idle => (r, g, w)
    case Begin(rec) => (r, g, BeginNext(r, rec))
    case HeadPre(rec, next) => (r, g.(headPre := g.headPre + 1), HeadPtr(rec, next))
    case HeadPtr(rec, next) => (r.(headPtr := next, first := r.first + 1), g, HeadPost(rec))
    case HeadPost(rec) => (r, g.(headPost := g.headPre), Begin(rec))
    case CopyIn(rec, off, todo) =>
      // the payload bytes are stored one at a time, in any order
      if todo == {} then (r, g, Mark(rec, off))
      else if k in todo && k < |rec| then
        (r.(mem := Store(r.mem, off + HEADER + k, [rec[k]])), g, CopyIn(rec, off, todo - {k}))
      else (r, g, w)
    case Mark(rec, off) =>
      (if off == 0 then r.(mem := Store(r.mem, r.tailPtr, Le(-1, 4))) else r, g, StoreSize(rec, off))
    case StoreSize(rec, off) => (r.(mem := Store(r.mem, off, Le(|rec|, 4))), g, TailPre(rec, off))
    case TailPre(rec, off) => (r, g.(tailPre := g.tailPre + 1), TailPtr(rec, off))
    case TailPtr(rec, off) =>
      (r.(tailPtr := WrapSize(off + Footprint(|rec|), |r.mem|), recs := r.recs + [NewRec(|r.mem|, r.recs, off, rec)]),
       g, TailPost)
    case TailPost => (r, g.(tailPost := g.tailPre), Idle)
  }

  // ----- the subscriber

  /** The phase after one step; `OpenCheck` and `ShiftCheck` also move the iterator. */
  function NextPhase(r: Shared, g: Gens, it: Iter, p: Phase): Phase {
    var valid := g.headPre <= it.gen;
    match p
    case Detached => OpenPtr(g.tailPost)
    case OpenPtr(t) => OpenCheck(t, r.tailPtr)
    case OpenCheck(_, _) => OpenValid
    case OpenValid => if valid then Ready else Failed
    case Ready => if valid then ReadTail(it.offset) else Failed
    case ReadTail(at) => if at == r.tailPtr then Ready else ReadSize(at)
    case ReadSize(at) => var sz := Load(r.mem, at); if sz < 0 then ReadTail(0) else ReadCheck(at, sz)
    case ReadCheck(at, sz) => if !valid || sz > |r.mem| / 4 then Failed else CopyOut(at, sz, [])
    case CopyOut(at, sz, buf) =>
      if |buf| == sz then ShiftValid(buf)
      else if at + HEADER + |buf| < |r.mem| then CopyOut(at, sz, buf + [r.mem[at + HEADER + |buf|]])
      else p
    case ShiftValid(buf) => if valid then ShiftTail(buf) else Failed
    case ShiftTail(buf) => ShiftHead(buf, r.tailPtr)
    case ShiftHead(buf, t) => if r.headPtr == t || it.offset == t then Failed else ShiftSize(buf, it.offset)
    case ShiftSize(buf, at) =>
      var sz := Load(r.mem, at);
      if sz < 0 then ShiftSize(buf, 0) else ShiftCheck(buf, WrapSize(at + Footprint(sz), |r.mem|))
    case ShiftCheck(_, _) => if valid then Ready else Failed
    case Failed => Failed
  }

  function Subscribe1(r: Shared, g: Gens, u: Reader): Reader {
    var p := NextPhase(r, g, u.it, u.phase);
    match u.phase
    case OpenCheck(t, off) =>
      // a writer in between leaves the zero-initialised iterator
      Reader(p, if g.tailPre == t then Iter(t, off) else Iter(0, 0), u.accepted)
    case ShiftCheck(buf, next) =>
      if p.Ready? then Reader(p, Iter(u.it.gen + 1, next), u.accepted + [buf]) else u.(phase := p)
    case _ => u.(phase := p)
  }

  function Step(s: State, a: Action): State {
    match a
    case Post(rec) => if s.writer == Idle && 2 * Footprint(|rec|) <= |s.ring.mem| then s.(writer := Begin(rec)) else s
    case Publish(k) => var (r, g, w) := Publish1(s.ring, s.gens, s.writer, k); State(r, g, w, s.reader)
    case Subscribe => s.(reader := Subscribe1(s.ring, s.gens, s.reader))
  }

  function Run(s: State, acts: seq<Action>): State
    decreases |acts|
  {
    if acts == [] then s else Run(Step(s, acts[0]), acts[1..])
  }

  // ----- invariants of the shared memory

  ghost predicate RingInv(r: Shared) {
    && Layout(r.mem, r.recs, r.first)
    && r.headPtr == Entry(|r.mem|, r.recs, r.first).off && r.headPtr < |r.mem|
    && r.tailPtr == Entry(|r.mem|, r.recs, |r.recs|).off && r.tailPtr < |r.mem|
  }

  /** Each counter is ahead of or behind its pointer by at most the store in progress. */
  ghost predicate GensInv(r: Shared, g: Gens, w: Writer) {
    && g.headPre == r.first + (if w.HeadPtr? then 1 else 0)
    && g.headPost + (if w.HeadPost? then 1 else 0) == r.first
    && g.tailPre == |r.recs| + (if w.TailPtr? then 1 else 0)
    && g.tailPost + (if w.TailPost? then 1 else 0) == |r.recs|
  }

  ghost predicate Reserved(r: Shared, rec: seq<byte>, off: nat) {
    && r.headPtr < |r.mem| && r.tailPtr < |r.mem|
    && WriteBegin(|r.mem|, r.headPtr, r.tailPtr, |rec|) == At(off)
    && off + HEADER + |rec| <= |r.mem|
  }

  ghost predicate PayloadIn(r: Shared, rec: seq<byte>, off: nat) {
    Reserved(r, rec, off) && r.mem[off + HEADER..off + HEADER + |rec|] == rec
  }

  ghost predicate MarkIn(r: Shared, off: nat) {
    off == 0 && r.tailPtr != 0 ==> SizeAt(r.mem, r.tailPtr, -1)
  }

  ghost predicate Evicting(r: Shared, next: nat)
    requires r.first <= |r.recs|
  {
    r.first < |r.recs| && next == Entry(|r.mem|, r.recs, r.first + 1).off
  }

  ghost predicate WriterInv(r: Shared, w: Writer)
    requires r.first <= |r.recs|
  {
    match w
    case Idle => true
    case Begin(rec) => 2 * Footprint(|rec|) <= |r.mem|
    case HeadPre(rec, next) => 2 * Footprint(|rec|) <= |r.mem| && Evicting(r, next)
    case HeadPtr(rec, next) => 2 * Footprint(|rec|) <= |r.mem| && Evicting(r, next)
    case HeadPost(rec) => 2 * Footprint(|rec|) <= |r.mem|
    case CopyIn(rec, off, todo) =>
      Reserved(r, rec, off) && forall k :: 0 <= k < |rec| && k !in todo ==> r.mem[off + HEADER + k] == rec[k]
    case Mark(rec, off) => PayloadIn(r, rec, off)
    case StoreSize(rec, off) => PayloadIn(r, rec, off) && MarkIn(r, off)
    case TailPre(rec, off) => PayloadIn(r, rec, off) && MarkIn(r, off) && SizeAt(r.mem, off, |rec|)
    case TailPtr(rec, off) => PayloadIn(r, rec, off) && MarkIn(r, off) && SizeAt(r.mem, off, |rec|)
    case TailPost => true
  }

  // ----- the publisher keeps them

  lemma ReservedFacts(r: Shared, rec: seq<byte>, off: nat)
    requires RingInv(r) && WriteBegin(|r.mem|, r.headPtr, r.tailPtr, |rec|) == At(off)
    ensures off + HEADER + |rec| <= |r.mem| && r.tailPtr + HEADER <= |r.mem|
    ensures off == 0 || off == r.tailPtr
    ensures off == 0 && r.tailPtr != 0 ==> Footprint(|rec|) <= r.tailPtr
    ensures |rec| < 0x8000_0000
  {
    AcceptedIsFree(|r.mem|, r.recs, r.first, rec);
    AcceptedOffset(|r.mem|, Entry(|r.mem|, r.recs, r.first), Entry(|r.mem|, r.recs, |r.recs|), |rec|);
  }

  lemma HeaderDecodes(v: int)
    requires -1 <= v < 0x8000_0000
    ensures Dec(Le(v, 4)) == v
  {
    Span256Values();
    SignedRoundTrip(v, 4);
  }

  lemma StoreInReserved(r: Shared, rec: seq<byte>, off: nat, at: nat, bytes: seq<byte>)
    requires RingInv(r) && Reserved(r, rec, off) && at + |bytes| <= |r.mem|
    requires (off <= at && at + |bytes| <= off + Footprint(|rec|)) || (at == r.tailPtr && |bytes| == HEADER)
    ensures RingInv(r.(mem := Store(r.mem, at, bytes)))
    ensures Reserved(r.(mem := Store(r.mem, at, bytes)), rec, off)
  {
    AcceptedIsFree(|r.mem|, r.recs, r.first, rec);
    FreeStoresKeepLayout(r.mem, Store(r.mem, at, bytes), r.recs, r.first);
  }

  lemma CopyInStep(r: Shared, rec: seq<byte>, off: nat, todo: set<int>, k: nat)
    requires RingInv(r) && WriterInv(r, CopyIn(rec, off, todo)) && k in todo && k < |rec|
    ensures var r' := r.(mem := Store(r.mem, off + HEADER + k, [rec[k]]));
            RingInv(r') && WriterInv(r', CopyIn(rec, off, todo - {k}))
  {
    var r' := r.(mem := Store(r.mem, off + HEADER + k, [rec[k]]));
    StoreInReserved(r, rec, off, off + HEADER + k, [rec[k]]);
    var at := off + HEADER + k;
    assert r'.mem[at..at + 1][0] == rec[k];
  }

  lemma StoreElsewhere(m: seq<byte>, at: nat, bytes: seq<byte>, lo: nat, hi: nat)
    requires at + |bytes| <= |m| && lo <= hi <= |m| && (hi <= at || at + |bytes| <= lo)
    ensures Store(m, at, bytes)[lo..hi] == m[lo..hi]
  {
  }

  lemma MarkStep(r: Shared, rec: seq<byte>, off: nat, mark: seq<byte>)
    requires RingInv(r) && PayloadIn(r, rec, off) && |mark| == HEADER && Dec(mark) == -1
    ensures var r' := if off == 0 then r.(mem := Store(r.mem, r.tailPtr, mark)) else r;
            RingInv(r') && PayloadIn(r', rec, off) && MarkIn(r', off)
  {
    ReservedFacts(r, rec, off);
    if off == 0 {
      StoreInReserved(r, rec, off, r.tailPtr, mark);
      StoreElsewhere(r.mem, r.tailPtr, mark, HEADER, HEADER + |rec|);
    }
  }

  lemma StoreSizeStep(r: Shared, rec: seq<byte>, off: nat, size: seq<byte>)
    requires RingInv(r) && PayloadIn(r, rec, off) && MarkIn(r, off) && |size| == HEADER && Dec(size) == |rec|
    ensures var r' := r.(mem := Store(r.mem, off, size));
            RingInv(r') && PayloadIn(r', rec, off) && MarkIn(r', off) && SizeAt(r'.mem, off, |rec|)
  {
    ReservedFacts(r, rec, off);
    StoreInReserved(r, rec, off, off, size);
    StoreElsewhere(r.mem, off, size, off + HEADER, off + HEADER + |rec|);
    if off == 0 && r.tailPtr != 0 {
      StoreElsewhere(r.mem, off, size, r.tailPtr, r.tailPtr + HEADER);
    }
  }

  lemma HeadersKeep(r: Shared, g: Gens, w: Writer, k: nat)
    requires RingInv(r) && WriterInv(r, w) && (w.Mark? || w.StoreSize?)
    ensures var (r', g', w') := Publish1(r, g, w, k); RingInv(r') && WriterInv(r', w')
  {
    ReservedFacts(r, w.rec, w.off);
    if w.Mark? {
      HeaderDecodes(-1);
      MarkStep(r, w.rec, w.off, Le(-1, 4));
    } else {
      HeaderDecodes(|w.rec|);
      StoreSizeStep(r, w.rec, w.off, Le(|w.rec|, 4));
    }
  }

  lemma TailStep(r: Shared, rec: seq<byte>, off: nat)
    requires RingInv(r) && PayloadIn(r, rec, off) && MarkIn(r, off) && SizeAt(r.mem, off, |rec|)
    ensures RingInv(r.(tailPtr := WrapSize(off + Footprint(|rec|), |r.mem|),
                       recs := r.recs + [NewRec(|r.mem|, r.recs, off, rec)]))
  {
    var recs' := r.recs + [NewRec(|r.mem|, r.recs, off, rec)];
    WriteEndLayout(r.mem, r.mem, r.recs, r.first, off, rec);
    EntryInRange(|r.mem|, recs', |recs'|);
  }

  ghost predicate IterOk(size: nat, recs: seq<Rec>, it: Iter) {
    it.gen <= |recs| && it.offset == Entry(size, recs, it.gen).off
  }

  /** A reader that goes to offset 0 does so behind a marker, if it is still valid. */
  ghost predicate AtOk(recs: seq<Rec>, it: Iter, valid: bool, at: nat) {
    at == it.offset || (at == 0 && (valid ==> it.gen < |recs| && recs[it.gen].start.off == 0))
  }

  /** A size read under a valid iterator is the record's own, or the marker in front of it. */
  lemma SizeSeen(r: Shared, it: Iter, at: nat)
    requires RingInv(r) && r.first <= it.gen < |r.recs| && IterOk(|r.mem|, r.recs, it) && AtOk(r.recs, it, true, at)
    ensures var v, rec := Load(r.mem, at), r.recs[it.gen];
            if v < 0 then rec.start.off == 0 else
              && at == rec.start.off && v == |rec.bytes|
              && WrapSize(at + Footprint(v), |r.mem|) == Entry(|r.mem|, r.recs, it.gen + 1).off
  {
    ReaderSees(r.mem, r.recs, r.first, it.gen);
  }

  /** `_shift_offset(head)` is where the second oldest record, or the tail, is entered. */
  lemma EvictTarget(r: Shared)
    requires RingInv(r) && r.headPtr != r.tailPtr
    ensures var sz := Load(r.mem, r.headPtr);
            var at, n := if sz < 0 then 0 else r.headPtr, if sz < 0 then Load(r.mem, 0) else sz;
            n >= 0 && Evicting(r, WrapSize(at + Footprint(n), |r.mem|))
  {
    var it := Iter(r.first, r.headPtr);
    SizeSeen(r, it, r.headPtr);
    if Load(r.mem, r.headPtr) < 0 {
      ReaderSees(r.mem, r.recs, r.first, r.first);
      SizeSeen(r, it, 0);
    }
  }

  lemma BeginStep(r: Shared, rec: seq<byte>)
    requires RingInv(r) && 2 * Footprint(|rec|) <= |r.mem|
    ensures WriterInv(r, BeginNext(r, rec))
  {
    var b := WriteBegin(|r.mem|, r.headPtr, r.tailPtr, |rec|);
    if b.At? {
      ReservedFacts(r, rec, b.off);
    } else if r.headPtr != r.tailPtr {
      EvictTarget(r);
    }
  }

  lemma HeadStep(r: Shared, next: nat)
    requires RingInv(r) && Evicting(r, next)
    ensures RingInv(r.(headPtr := next, first := r.first + 1))
  {
    ShiftKeepsLayout(r.mem, r.recs, r.first);
    EntryInRange(|r.mem|, r.recs, r.first + 1);
  }

  lemma CopiedIsPayload(r: Shared, rec: seq<byte>, off: nat)
    requires Reserved(r, rec, off) && forall k :: 0 <= k < |rec| ==> r.mem[off + HEADER + k] == rec[k]
    ensures PayloadIn(r, rec, off)
  {
  }

  lemma CopyInKeeps(r: Shared, g: Gens, w: Writer, k: nat)
    requires RingInv(r) && WriterInv(r, w) && w.CopyIn?
    ensures var (r', g', w') := Publish1(r, g, w, k); RingInv(r') && WriterInv(r', w')
  {
    var CopyIn(rec, off, todo) := w;
    if todo == {} {
      CopiedIsPayload(r, rec, off);
      assert Publish1(r, g, w, k) == (r, g, Mark(rec, off));
    } else if k in todo && k < |rec| {
      CopyInStep(r, rec, off, todo, k);
      var r' := r.(mem := Store(r.mem, off + HEADER + k, [rec[k]]));
      assert Publish1(r, g, w, k) == (r', g, CopyIn(rec, off, todo - {k}));
    } else {
      assert Publish1(r, g, w, k) == (r, g, w);
    }
  }

  lemma PublishKeepsRing(r: Shared, g: Gens, w: Writer, k: nat)
    requires RingInv(r) && WriterInv(r, w)
    ensures var (r', g', w') := Publish1(r, g, w, k); RingInv(r') && WriterInv(r', w')
  {
    match w {
      case Begin(rec) => BeginStep(r, rec);
      case HeadPtr(_, next) => HeadStep(r, next);
      case CopyIn(_, _, _) => CopyInKeeps(r, g, w, k);
      case Mark(_, _) => HeadersKeep(r, g, w, k);
      case StoreSize(_, _) => HeadersKeep(r, g, w, k);
      case TailPtr(rec, off) => TailStep(r, rec, off);
      case _ =>
    }
  }

  lemma PublishKeepsGens(r: Shared, g: Gens, w: Writer, k: nat)
    requires GensInv(r, g, w)
    ensures var (r', g', w') := Publish1(r, g, w, k);
            && GensInv(r', g', w') && |r'.mem| == |r.mem| && r.recs <= r'.recs
            && g.headPre <= g'.headPre && g.tailPre <= g'.tailPre && g.tailPost <= g'.tailPost
  {
  }

  // ----- the subscriber: what it knows as long as its generation has not been overtaken

  /** The accepted records are, in order and byte for byte, those that end just before `gen`. */
  ghost predicate AcceptedOk(size: nat, recs: seq<Rec>, gen: nat, accepted: seq<seq<byte>>) {
    && |accepted| <= gen <= |recs|
    && forall j :: 0 <= j < |accepted| ==>
         accepted[j] == recs[gen - |accepted| + j].bytes && |accepted[j]| <= size / 4
  }

  ghost predicate BufOk(size: nat, recs: seq<Rec>, it: Iter, valid: bool, buf: seq<byte>) {
    it.gen < |recs| && |buf| <= size / 4 && (valid ==> buf == recs[it.gen].bytes)
  }

  ghost predicate PhaseOk(size: nat, recs: seq<Rec>, valid: bool, it: Iter, p: Phase) {
    match p
    case ReadTail(at) => AtOk(recs, it, valid, at)
    case ReadSize(at) => AtOk(recs, it, valid, at) && (valid ==> it.gen < |recs|)
    case ReadCheck(at, sz) =>
      valid ==> it.gen < |recs| && at == recs[it.gen].start.off && sz == |recs[it.gen].bytes|
    case CopyOut(at, sz, buf) =>
      && it.gen < |recs| && at == recs[it.gen].start.off && sz == |recs[it.gen].bytes|
      && |buf| <= sz <= size / 4 && (valid ==> buf == recs[it.gen].bytes[..|buf|])
    case ShiftValid(buf) => BufOk(size, recs, it, valid, buf)
    case ShiftTail(buf) => BufOk(size, recs, it, valid, buf)
    case ShiftHead(buf, t) => BufOk(size, recs, it, valid, buf)
    case ShiftSize(buf, at) => BufOk(size, recs, it, valid, buf) && AtOk(recs, it, valid, at)
    case ShiftCheck(buf, next) =>
      BufOk(size, recs, it, valid, buf) && (valid ==> next == Entry(size, recs, it.gen + 1).off)
    case _ => true
  }

  ghost predicate ReaderInv(size: nat, recs: seq<Rec>, g: Gens, u: Reader) {
    match u.phase
    case Detached => u.accepted == [] && u.it.gen == 0
    case OpenPtr(t) => u.accepted == [] && u.it.gen == 0 && t <= g.tailPost
    case OpenCheck(t, off) =>
      && u.accepted == [] && u.it.gen == 0
      && t <= g.tailPost && t <= |recs| && (g.tailPre == t ==> off == Entry(size, recs, t).off)
    case _ =>
      && IterOk(size, recs, u.it) && AcceptedOk(size, recs, u.it.gen, u.accepted)
      && PhaseOk(size, recs, g.headPre <= u.it.gen, u.it, u.phase)
  }

  /** All that the subscriber needs from the publisher: history and counters only grow. */
  lemma ReaderUndisturbed(size: nat, recs: seq<Rec>, recs': seq<Rec>, g: Gens, g': Gens, u: Reader)
    requires ReaderInv(size, recs, g, u) && recs <= recs'
    requires g.headPre <= g'.headPre && g.tailPre <= g'.tailPre && g.tailPost <= g'.tailPost
    requires g.tailPost <= |recs| <= g.tailPre
    ensures ReaderInv(size, recs', g', u)
  {
    if u.phase.OpenCheck? {
      assert Entry(size, recs', u.phase.g) == Entry(size, recs, u.phase.g);
    } else if !u.phase.Detached? && !u.phase.OpenPtr? {
      assert Entry(size, recs', u.it.gen) == Entry(size, recs, u.it.gen);
      if u.it.gen < |recs| {
        assert Entry(size, recs', u.it.gen + 1) == Entry(size, recs, u.it.gen + 1);
      }
    }
  }

  lemma ByteSeen(r: Shared, gen: nat, k: nat)
    requires RingInv(r) && r.first <= gen < |r.recs| && k < |r.recs[gen].bytes|
    ensures var rec := r.recs[gen]; var at := rec.start.off + HEADER + k;
            at < |r.mem| && rec.bytes[..k] + [r.mem[at]] == rec.bytes[..k + 1]
  {
    ReaderSees(r.mem, r.recs, r.first, gen);
    var rec := r.recs[gen];
    var base := rec.start.off + HEADER;
    assert r.mem[base..base + |rec.bytes|][k] == rec.bytes[k];
  }

  lemma PhaseKeeps(r: Shared, g: Gens, it: Iter, p: Phase)
    requires RingInv(r) && r.first <= g.headPre
    requires IterOk(|r.mem|, r.recs, it) && PhaseOk(|r.mem|, r.recs, g.headPre <= it.gen, it, p)
    requires !p.Detached? && !p.OpenPtr? && !p.OpenCheck? && !p.ShiftCheck?
    ensures var p' := NextPhase(r, g, it, p);
            PhaseOk(|r.mem|, r.recs, g.headPre <= it.gen, it, p') && !p'.Detached? && !p'.OpenPtr? && !p'.OpenCheck?
  {
    var valid := g.headPre <= it.gen;
    match p {
      case ReadSize(at) =>
        if valid { SizeSeen(r, it, at); }
      case ShiftSize(buf, at) =>
        if valid { SizeSeen(r, it, at); }
      case CopyOut(at, sz, buf) =>
        if valid && |buf| < sz { ByteSeen(r, it.gen, |buf|); }
      case _ =>
    }
  }

  lemma OpenKeeps(r: Shared, g: Gens, w: Writer, u: Reader)
    requires RingInv(r) && GensInv(r, g, w) && ReaderInv(|r.mem|, r.recs, g, u)
    requires u.phase.Detached? || u.phase.OpenPtr? || u.phase.OpenCheck?
    ensures ReaderInv(|r.mem|, r.recs, g, Subscribe1(r, g, u))
  {
  }

  lemma AcceptKeeps(size: nat, recs: seq<Rec>, g: Gens, u: Reader)
    requires ReaderInv(size, recs, g, u) && u.phase.ShiftCheck? && g.headPre <= u.it.gen
    ensures ReaderInv(size, recs, g, Reader(Ready, Iter(u.it.gen + 1, u.phase.next), u.accepted + [u.phase.buf]))
  {
  }

  lemma PhaseChange(size: nat, recs: seq<Rec>, g: Gens, u: Reader, p: Phase)
    requires IterOk(size, recs, u.it) && AcceptedOk(size, recs, u.it.gen, u.accepted)
    requires PhaseOk(size, recs, g.headPre <= u.it.gen, u.it, p)
    requires !p.Detached? && !p.OpenPtr? && !p.OpenCheck?
    ensures ReaderInv(size, recs, g, u.(phase := p))
  {
  }

  lemma CheckKeeps(r: Shared, g: Gens, w: Writer, u: Reader)
    requires GensInv(r, g, w) && ReaderInv(|r.mem|, r.recs, g, u) && u.phase.ShiftCheck?
    ensures ReaderInv(|r.mem|, r.recs, g, Subscribe1(r, g, u))
  {
    if g.headPre <= u.it.gen {
      AcceptKeeps(|r.mem|, r.recs, g, u);
    } else {
      PhaseChange(|r.mem|, r.recs, g, u, NextPhase(r, g, u.it, u.phase));
    }
  }

  lemma ReadKeeps(r: Shared, g: Gens, w: Writer, u: Reader)
    requires RingInv(r) && GensInv(r, g, w) && ReaderInv(|r.mem|, r.recs, g, u)
    requires !u.phase.Detached? && !u.phase.OpenPtr? && !u.phase.OpenCheck? && !u.phase.ShiftCheck?
    ensures ReaderInv(|r.mem|, r.recs, g, Subscribe1(r, g, u))
  {
    PhaseKeeps(r, g, u.it, u.phase);
    PhaseChange(|r.mem|, r.recs, g, u, NextPhase(r, g, u.it, u.phase));
  }

  lemma SubscribeKeepsReader(r: Shared, g: Gens, w: Writer, u: Reader)
    requires RingInv(r) && GensInv(r, g, w) && ReaderInv(|r.mem|, r.recs, g, u)
    ensures ReaderInv(|r.mem|, r.recs, g, Subscribe1(r, g, u))
  {
    if u.phase.Detached? || u.phase.OpenPtr? || u.phase.OpenCheck? {
      OpenKeeps(r, g, w, u);
    } else if u.phase.ShiftCheck? {
      CheckKeeps(r, g, w, u);
    } else {
      ReadKeeps(r, g, w, u);
    }
  }

  // ----- every run

  ghost predicate Inv(s: State) {
    && RingInv(s.ring)
    && WriterInv(s.ring, s.writer)
    && GensInv(s.ring, s.gens, s.writer)
    && ReaderInv(|s.ring.mem|, s.ring.recs, s.gens, s.reader)
  }

  lemma StepKeepsInv(s: State, a: Action)
    requires Inv(s)
    ensures Inv(Step(s, a)) && s.ring.recs <= Step(s, a).ring.recs
  {
    match a {
      case Post(_) =>
      case Publish(k) =>
        PublishKeepsRing(s.ring, s.gens, s.writer, k);
        PublishKeepsGens(s.ring, s.gens, s.writer, k);
        var s' := Step(s, a);
        ReaderUndisturbed(|s.ring.mem|, s.ring.recs, s'.ring.recs, s.gens, s'.gens, s.reader);
      case Subscribe =>
        SubscribeKeepsReader(s.ring, s.gens, s.writer, s.reader);
    }
  }

  lemma {:induction false} RunKeepsInv(s: State, acts: seq<Action>)
    requires Inv(s)
    ensures Inv(Run(s, acts))
    decreases |acts|
  {
    if acts != [] {
      StepKeepsInv(s, acts[0]);
      RunKeepsInv(Step(s, acts[0]), acts[1..]);
    }
  }

  /**
   * For every interleaving: what the subscriber has accepted is a contiguous run of published
   * records, byte for byte, the last of which is the one just before its generation.
   */
  lemma AcceptedAreThePublishedRecords(s: State, acts: seq<Action>)
    requires Init(s)
    ensures var e := Run(s, acts); var n := |e.reader.accepted|;
            && n <= e.reader.it.gen <= |e.ring.recs|
            && forall j :: 0 <= j < n ==> e.reader.accepted[j] == e.ring.recs[e.reader.it.gen - n + j].bytes
  {
    assert Layout(s.ring.mem, s.ring.recs, s.ring.first);
    RunKeepsInv(s, acts);
  }

  /** A torn copy never gets through: the last check of `shift` rejects it. */
  lemma TornReadIsRejected(s: State, acts: seq<Action>)
    requires Init(s)
    requires Run(s, acts).reader.phase.ShiftCheck?
    ensures var e := Run(s, acts);
            && e.reader.it.gen < |e.ring.recs|
            && (e.reader.phase.buf != e.ring.recs[e.reader.it.gen].bytes
                ==> Subscribe1(e.ring, e.gens, e.reader) == e.reader.(phase := Failed))
  {
    assert Layout(s.ring.mem, s.ring.recs, s.ring.first);
    RunKeepsInv(s, acts);
  }

  /**
   * The subscriber's buffer is a quarter of the ring and must hold the frame as well, while the
   * publisher bounds only the message: a live record longer than the buffer always ends in failure.
   */
  lemma RecordLongerThanBufferFails(s: State, acts: seq<Action>)
    requires Init(s)
    requires Run(s, acts).reader.phase.ReadCheck?
    ensures var e := Run(s, acts); var u := Subscribe1(e.ring, e.gens, e.reader);
            e.gens.headPre <= e.reader.it.gen ==>
              && e.reader.it.gen < |e.ring.recs|
              && (u.phase == Failed <==> |e.ring.recs[e.reader.it.gen].bytes| > |e.ring.mem| / 4)
  {
    assert Layout(s.ring.mem, s.ring.recs, s.ring.first);
    RunKeepsInv(s, acts);
  }

  // ----- such a failure is reached

  lemma {:induction false} RunTwo(s: State, a: seq<Action>, b: seq<Action>)
    ensures Run(s, a + b) == Run(Run(s, a), b)
    decreases |a|
  {
    if a == [] {
      assert a + b == b;
    } else {
      assert (a + b)[1..] == a[1..] + b;
      RunTwo(Step(s, a[0]), a[1..], b);
    }
  }

  /** A step in front of others. */
  lemma Prepend(s: State, a: Action, rest: seq<Action>) returns (acts: seq<Action>)
    ensures Run(s, acts) == Run(Step(s, a), rest)
  {
    acts := [a] + rest;
    assert acts[1..] == rest;
  }

  /** A ring with one record in it and a subscriber that has opened before it was written. */
  ghost predicate Fresh(s: State, size: nat, writer: Writer, phase: Phase) {
    && |s.ring.mem| == size && s.ring == Shared(s.ring.mem, 0, 0, 0, []) && s.gens == Gens(0, 0, 0, 0)
    && s.writer == writer && s.reader == Reader(phase, Iter(0, 0), [])
  }

  lemma Opens(s: State, size: nat) returns (acts: seq<Action>)
    requires Fresh(s, size, Idle, Detached)
    ensures Fresh(Run(s, acts), size, Idle, Ready)
  {
    var s1 := Step(s, Subscribe);
    var s2 := Step(s1, Subscribe);
    var s3 := Step(s2, Subscribe);
    acts := Prepend(s3, Subscribe, []);
    acts := Prepend(s2, Subscribe, acts);
    acts := Prepend(s1, Subscribe, acts);
    acts := Prepend(s, Subscribe, acts);
  }

  ghost predicate From(todo: set<int>, k: nat, n: nat) {
    forall i :: i in todo <==> k <= i < n
  }

  lemma EmptyFrom(todo: set<int>, k: nat)
    requires From(todo, k, k)
    ensures todo == {}
  {
    assert forall i :: i !in todo;
  }

  lemma {:induction false} CopiesAll(s: State, size: nat, rec: seq<byte>, todo: set<int>, k: nat)
    returns (acts: seq<Action>)
    requires Fresh(s, size, CopyIn(rec, 0, todo), Ready) && k <= |rec| && From(todo, k, |rec|)
    ensures Fresh(Run(s, acts), size, CopyIn(rec, 0, {}), Ready)
    decreases |rec| - k
  {
    if k == |rec| {
      acts := [];
      EmptyFrom(todo, k);
    } else {
      assert k in todo;
      acts := CopiesAll(Step(s, Publish(k)), size, rec, todo - {k}, k + 1);
      acts := Prepend(s, Publish(k), acts);
    }
  }

  /** The record is published, and a subscriber that was there before has not read it. */
  ghost predicate Waiting(s: State, size: nat, rec: seq<byte>) {
    && |s.ring.mem| == size && |s.ring.recs| == 1 && s.ring.recs[0].bytes == rec && s.ring.first == 0
    && s.gens.headPre == 0 && s.ring.tailPtr == WrapSize(Footprint(|rec|), size)
    && s.reader == Reader(Ready, Iter(0, 0), [])
  }

  /** The last steps of the publisher, from the payload to the tail. */
  lemma Publishes(s: State, size: nat, rec: seq<byte>) returns (acts: seq<Action>)
    requires Inv(s) && Fresh(s, size, CopyIn(rec, 0, {}), Ready)
    ensures Waiting(Run(s, acts), size, rec)
  {
    var s1 := Step(s, Publish(0));
    var s2 := Step(s1, Publish(0));
    var s3 := Step(s2, Publish(0));
    var s4 := Step(s3, Publish(0));
    var s5 := Step(s4, Publish(0));
    acts := Prepend(s5, Publish(0), []);
    acts := Prepend(s4, Publish(0), acts);
    acts := Prepend(s3, Publish(0), acts);
    acts := Prepend(s2, Publish(0), acts);
    acts := Prepend(s1, Publish(0), acts);
    acts := Prepend(s, Publish(0), acts);
  }

  lemma ReadsTooLong(s: State, size: nat, rec: seq<byte>) returns (acts: seq<Action>)
    requires Inv(s) && Waiting(s, size, rec) && Footprint(|rec|) < size && |rec| > size / 4
    ensures var t := Run(s, acts); t.reader.phase == Failed && t.gens.headPre == 0
  {
    var s1 := Step(s, Subscribe);
    var s2 := Step(s1, Subscribe);
    ReaderSees(s.ring.mem, s.ring.recs, 0, 0);
    assert Load(s.ring.mem, 0) == |rec|;
    var s3 := Step(s2, Subscribe);
    acts := Prepend(s3, Subscribe, []);
    acts := Prepend(s2, Subscribe, acts);
    acts := Prepend(s1, Subscribe, acts);
    acts := Prepend(s, Subscribe, acts);
  }

  /** The publisher posts the record, and it is copied. */
  lemma PostsAndCopies(s: State, size: nat, rec: seq<byte>) returns (acts: seq<Action>)
    requires ValidSize(size) && 2 * Footprint(|rec|) <= size && Fresh(s, size, Idle, Ready)
    ensures Fresh(Run(s, acts), size, CopyIn(rec, 0, {}), Ready)
  {
    assert WriteBegin(size, 0, 0, |rec|) == At(0);
    var s1 := Step(s, Post(rec));
    var s2 := Step(s1, Publish(0));
    acts := CopiesAll(s2, size, rec, Indices(rec), 0);
    acts := Prepend(s1, Publish(0), acts);
    acts := Prepend(s, Post(rec), acts);
  }

  /** For every record over a quarter of a ring that takes it: one post, nothing evicted, and the subscriber fails. */
  lemma LongRecordFailsTheSubscriber(size: nat, rec: seq<byte>) returns (s: State, acts: seq<Action>)
    requires ValidSize(size) && |rec| > size / 4 && 2 * Footprint(|rec|) <= size
    ensures Init(s) && |s.ring.mem| == size
    ensures var t := Run(s, acts); t.reader.phase == Failed && t.gens.headPre == 0
  {
    s := State(Shared(seq(size, _ => 0), 0, 0, 0, []), Gens(0, 0, 0, 0), Idle, Reader(Detached, Iter(0, 0), []));
    assert Inv(s) by {
      assert Layout(s.ring.mem, s.ring.recs, s.ring.first);
    }
    var first := Opens(s, size);
    var more := PostsAndCopies(Run(s, first), size, rec);
    RunTwo(s, first, more);
    acts := first + more;
    RunKeepsInv(s, acts);
    more := Publishes(Run(s, acts), size, rec);
    RunTwo(s, acts, more);
    acts := acts + more;
    RunKeepsInv(s, acts);
    more := ReadsTooLong(Run(s, acts), size, rec);
    RunTwo(s, acts, more);
    acts := acts + more;
  }
}
