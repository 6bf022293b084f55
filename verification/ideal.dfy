/**
 The ring as it is meant: indices count up without end, there are no caches, words, masks or handles, and
 a session is a window of indices. Every step of the machine of `System` is a step of this one.
 */
module Ideal {
  import opened Words
  import opened RingSpec
  import opened System
  import opened Safety

  /**
   A session holds `held` entries from its head on and used `used` of them. It advanced the head by `done`
   so far, and, as the code does, goes on `done` entries further than its head.
   */
  datatype Side =
    | Closed
    | Waiting(asked: U32, seen: int)               // between the two loads, the first of which saw `seen`
    | Using(held: int, used: int, done: int)
    | Storing(held: int, used: int, done: int)     // between the load and the store of the own head

  /** `writeLimit` and `readLimit` bound what the two sides may use without looking at the other head. */
  datatype Ring<T> = Ring(
    slots: seq<T>, head: int, tail: int,
    writer: Side, writeLimit: int,
    reader: Side, readLimit: int,
    committed: seq<T>, inserted: seq<T>, released: seq<T>, taken: seq<T>)

  function Fresh<T>(slots: seq<T>, origin: int): Ring<T> {
    Ring(slots, origin, origin, Closed, origin, Closed, origin, [], [], [], [])
  }

  /** An index selects its remainder. */
  function At(index: int, size: nat): (slot: nat)
    requires size > 0
    ensures slot < size
  {
    index % size
  }

  function WriterMoves<T>(r: Ring<T>, a: Action<T>): (r': Ring<T>)
    requires |r.slots| > 0
    ensures |r'.slots| == |r.slots|
  {
    match (a, r.writer)
    case (Open(n), Closed) =>
      var limit := if r.writeLimit > r.head then r.writeLimit else r.tail + |r.slots|;
      r.(writeLimit := limit, writer := Using(Min(n, limit - r.head), 0, 0))
    case (Insert(item), Using(held, used, done)) =>
      if used == held then r
      else r.(slots := r.slots[At(r.head + done + used, |r.slots|) := item],
              writer := Using(held, used + 1, done), inserted := r.inserted + [item])
    case (CommitLoad, Using(held, used, done)) =>
      if held == 0 then r else r.(writer := Storing(held, used, done))
    case (CommitStore, Storing(held, used, done)) =>
      r.(head := r.head + used, writer := Using(held - used, 0, done + used),
         committed := r.committed + r.inserted, inserted := [])
    case (CloseWriter, Using(_, _, _)) =>
      r.(writer := Closed, inserted := [])
    case _ => r
  }

  function ReaderMoves<T>(r: Ring<T>, a: Action<T>): (r': Ring<T>)
    requires |r.slots| > 0
    ensures |r'.slots| == |r.slots|
  {
    match (a, r.reader)
    case (PeekLoad(n), Closed) =>
      if r.readLimit > r.tail then r.(reader := Using(Min(n, r.readLimit - r.tail), 0, 0))
      else r.(reader := Waiting(n, r.head))
    case (PeekRefresh, Waiting(n, seen)) =>
      r.(readLimit := r.head, reader := Using(Min(n, seen - r.tail), 0, 0))
    case (Read, Using(held, used, done)) =>
      if used == held then r
      else r.(reader := Using(held, used + 1, done),
              taken := r.taken + [r.slots[At(r.tail + done + used, |r.slots|)]])
    case (ReleaseLoad, Using(held, used, done)) =>
      if held == 0 then r else r.(reader := Storing(held, used, done))
    case (ReleaseStore, Storing(held, used, done)) =>
      r.(tail := r.tail + used, reader := Using(held - used, 0, done + used),
         released := r.released + r.taken, taken := [])
    case (CloseReader, Using(_, _, _)) =>
      r.(reader := Closed, taken := [])
    case _ => r
  }

  function Move<T>(r: Ring<T>, a: Action<T>): (r': Ring<T>)
    requires |r.slots| > 0
    ensures |r'.slots| == |r.slots|
  {
    if a.OfWriter() then WriterMoves(r, a) else ReaderMoves(r, a)
  }

  function Run<T>(r: Ring<T>, acts: seq<Action<T>>): (r': Ring<T>)
    requires |r.slots| > 0
    ensures |r'.slots| == |r.slots|
  {
    if acts == [] then r else Move(Run(r, acts[..|acts| - 1]), acts[|acts| - 1])
  }

  // ---------- What a state of the machine means ----------

  function WriterSide(w: Writer): Side {
    match w
    case Idle => Closed
    case Writing(cur, done) => Using(cur.buffers, cur.buffers - cur.remain, done)
    case Committing(cur, done, _) => Storing(cur.buffers, cur.buffers - cur.remain, done)
  }

  function ReaderSide<T>(s: State<T>): Side {
    match s.reader
    case Resting => Closed
    case Peeking(n, first) => Waiting(n, s.Tail() + WrapSub(first, s.consumer))
    case Reading(cur, done) => Using(cur.buffers, cur.buffers - cur.remain, done)
    case Releasing(cur, done, _) => Storing(cur.buffers, cur.buffers - cur.remain, done)
  }

  function Meaning<T>(s: State<T>): Ring<T> {
    Ring(s.slots, s.Head(), s.Tail(), WriterSide(s.writer), WriterLimit(s), ReaderSide(s), ReaderLimit(s),
         s.committed, s.inserted, s.released, s.taken)
  }

  /** The word of a session's cursor selects the slot of the ideal index. */
  lemma CursorSlot(size: U32, own: nat, done: int, c: Cursor)
    requires PowerOfTwo(size) && CursorOk(size, own, done, c) && c.remain > 0
    ensures size > 0 && Slot(c.base, size) == At(own + done + (c.buffers - c.remain), size)
  {
    PowerBounds(size);
    SlotIsModulo(own + done + (c.buffers - c.remain), size);
    hide Low, Slot;
  }

  /** A reservation grants what the limit allows, after a refresh if it allows nothing. */
  lemma OpenCount<T>(s: State<T>, n: U32)
    requires Counters(s) && s.writer.Idle?
    ensures 0 < |s.slots| < MODULUS
    ensures Reserve(s.prod, |s.slots|, 1, n, 0, s.consumer).count
         == Min(n, (if WriterLimit(s) > s.Head() then WriterLimit(s) else s.Tail() + |s.slots|) - s.Head())
  {
    hide Low, Slot, Reserve, ConsOk, ReaderOk, PowerOfTwo;
    ReserveExact(|s.slots|, s.Head(), s.Tail(), 0, s.prod, 1, n, 0);
  }

  lemma OpenLimit<T>(s: State<T>, n: U32)
    requires Counters(s) && s.writer.Idle?
    ensures WriterLimit(WriterStep(s, Open(n)))
         == if WriterLimit(s) > s.Head() then WriterLimit(s) else s.Tail() + |s.slots|
  {
    hide Low, Slot, Reserve, ConsOk, ReaderOk, PowerOfTwo, WrapSub;
    WriterLimitStep(s, Open(n));
  }

  lemma OpenMeans<T>(s: State<T>, n: U32)
    requires 0 < |s.slots| < MODULUS && s.writer.Idle?
    ensures var s' := WriterStep(s, Open(n));
            Meaning(s') == Meaning(s).(
              writeLimit := WriterLimit(s'),
              writer := Using(Reserve(s.prod, |s.slots|, 1, n, 0, s.consumer).count, 0, 0))
  {
    hide Low, WrapSub, Available, Cached, Reserve;
  }

  lemma OpenRefines<T>(s: State<T>, n: U32)
    requires Counters(s) && s.writer.Idle?
    ensures Meaning(WriterStep(s, Open(n))) == WriterMoves(Meaning(s), Open(n))
  {
    hide WriterStep, Reserve, ReaderLimit, ReaderSide, Low, Slot;
    OpenCount(s, n);
    OpenMeans(s, n);
    OpenLimit(s, n);
    hide Counters, WriterLimit;
  }

  lemma InsertRefines<T>(s: State<T>, item: T)
    requires Counters(s) && s.writer.Writing?
    ensures Meaning(WriterStep(s, Insert(item))) == WriterMoves(Meaning(s), Insert(item))
  {
    hide Low, Slot, At, PowerOfTwo, ConsOk, ReaderOk;
    var cur := s.writer.cur;
    WriterLimitStep(s, Insert(item));
    if cur.remain > 0 {
      CursorSlot(|s.slots|, s.Head(), s.writer.done, cur);
    }
    assert cur.remain <= cur.buffers && 0 < |s.slots| < MODULUS;
    hide WriterLimit, ReaderLimit, Counters;
  }

  lemma CommitRefines<T>(s: State<T>)
    requires Counters(s) && s.writer.Committing?
    ensures Meaning(WriterStep(s, CommitStore)) == WriterMoves(Meaning(s), CommitStore)
  {
    hide Low, Slot, PowerOfTwo, ConsOk, ReaderOk;
    WriterLimitStep(s, CommitStore);
    CursorKept(|s.slots|, s.Head(), s.writer.done, s.writer.cur);
    assert |s.inserted| == Moved(s.writer.cur);
    assert 0 < |s.slots| < MODULUS;
    hide WriterLimit, ReaderLimit, Counters, CommitCursor, Moved, WrapAdd;
  }

  lemma WriterRefines<T>(s: State<T>, a: Action<T>)
    requires Counters(s) && a.OfWriter()
    ensures Meaning(WriterStep(s, a)) == WriterMoves(Meaning(s), a)
  {
    hide Low, Slot, Reserve, ProdOk, ConsOk, ReaderOk, PowerOfTwo, HeadsOk, CursorOk;
    WriterLimitStep(s, a);
    assert 0 < |s.slots| < MODULUS;
    hide WriterLimit, Counters;
    match (a, s.writer)
    case (Open(n), Idle) =>
      OpenRefines(s, n);
    case (Insert(item), Writing(cur, done)) =>
      InsertRefines(s, item);
    case (CommitStore, Committing(cur, done, loaded)) =>
      CommitRefines(s);
    case _ =>
  }

  lemma PeekRefines<T>(s: State<T>, n: U32)
    requires Counters(s) && s.reader.Resting?
    ensures Meaning(ReaderStep(s, PeekLoad(n))) == ReaderMoves(Meaning(s), PeekLoad(n))
  {
    hide Low, Slot, Peek, PowerOfTwo, ProdOk, WriterOk;
    ReaderLimitStep(s, PeekLoad(n));
    PeekExact(|s.slots|, s.Head(), s.Head(), s.Tail(), 0, s.cons, 1, n, 0);
    DistanceExact(s.Head(), s.Tail());
    assert ReaderLimit(s) == s.Tail() + Available(s.cons) && 0 < |s.slots| < MODULUS;
    assert s.producer == Low(s.Head()) && s.consumer == Low(s.Tail());
    hide WriterLimit, ReaderLimit, Counters, WrapSub, Available;
  }

  /** A refreshed peek grants what the first load saw. */
  lemma RefreshCount<T>(s: State<T>)
    requires Counters(s) && s.reader.Peeking?
    ensures 0 < |s.slots| < MODULUS
    ensures Peek(s.cons, 1, s.reader.limit, 0, s.reader.first, s.producer).count
         == Min(s.reader.limit, WrapSub(s.reader.first, s.consumer))
  {
    hide Low, Slot, Peek, PowerOfTwo, ProdOk, WriterOk;
    var n := s.reader.limit;
    var f :| s.reader.first == Low(f) && s.Tail() <= f <= s.Head() && ConsOk(f, s.Tail(), 0, s.cons);
    PeekExact(|s.slots|, f, s.Head(), s.Tail(), 0, s.cons, 1, n, 0);
    DistanceExact(f, s.Tail());
  }

  lemma RefreshMeans<T>(s: State<T>)
    requires 0 < |s.slots| < MODULUS && s.reader.Peeking?
    ensures var s' := ReaderStep(s, PeekRefresh);
            Meaning(s') == Meaning(s).(
              readLimit := ReaderLimit(s'),
              reader := Using(Peek(s.cons, 1, s.reader.limit, 0, s.reader.first, s.producer).count, 0, 0))
  {
    hide Low, WrapSub, Available, Cached, Peek;
  }

  lemma RefreshRefines<T>(s: State<T>)
    requires Counters(s) && s.reader.Peeking?
    ensures Meaning(ReaderStep(s, PeekRefresh)) == ReaderMoves(Meaning(s), PeekRefresh)
  {
    hide Low, Slot, Peek, WriterLimit, ReaderLimit, Counters, WrapSub, Available;
    RefreshCount(s);
    ReaderLimitStep(s, PeekRefresh);
    RefreshMeans(s);
  }

  lemma ReadRefines<T>(s: State<T>)
    requires Counters(s) && s.reader.Reading?
    ensures Meaning(ReaderStep(s, Read)) == ReaderMoves(Meaning(s), Read)
  {
    hide Low, Slot, At, PowerOfTwo, ProdOk, WriterOk;
    var cur := s.reader.cur;
    ReaderLimitStep(s, Read);
    if cur.remain > 0 {
      CursorSlot(|s.slots|, s.Tail(), s.reader.done, cur);
    }
    assert cur.remain <= cur.buffers && 0 < |s.slots| < MODULUS;
    hide WriterLimit, ReaderLimit, Counters;
  }

  lemma ReleaseRefines<T>(s: State<T>)
    requires Counters(s) && s.reader.Releasing?
    ensures Meaning(ReaderStep(s, ReleaseStore)) == ReaderMoves(Meaning(s), ReleaseStore)
  {
    hide Low, Slot, PowerOfTwo, ProdOk, WriterOk;
    ReaderLimitStep(s, ReleaseStore);
    CursorKept(|s.slots|, s.Tail(), s.reader.done, s.reader.cur);
    assert |s.taken| == Moved(s.reader.cur);
    assert 0 < |s.slots| < MODULUS;
    hide WriterLimit, ReaderLimit, Counters, CommitCursor, Moved, WrapAdd;
  }

  lemma ReaderRefines<T>(s: State<T>, a: Action<T>)
    requires Counters(s) && !a.OfWriter()
    ensures Meaning(ReaderStep(s, a)) == ReaderMoves(Meaning(s), a)
  {
    hide Low, Slot, Peek, ProdOk, ConsOk, WriterOk, PowerOfTwo, HeadsOk, CursorOk;
    ReaderLimitStep(s, a);
    assert 0 < |s.slots| < MODULUS;
    hide ReaderLimit, Counters;
    match (a, s.reader)
    case (PeekLoad(n), Resting) =>
      PeekRefines(s, n);
    case (PeekRefresh, Peeking(n, first)) =>
      RefreshRefines(s);
    case (Read, Reading(cur, done)) =>
      ReadRefines(s);
    case (ReleaseStore, Releasing(cur, done, loaded)) =>
      ReleaseRefines(s);
    case _ =>
  }

  /** One step of the machine, in any reachable state, is the same step of the ideal ring. */
  lemma StepRefines<T>(s: State<T>, a: Action<T>)
    requires Counters(s)
    ensures Meaning(Apply(s, a)) == Move(Meaning(s), a)
  {
    hide WriterStep, ReaderStep, WriterMoves, ReaderMoves, Counters, Meaning;
    if a.OfWriter() {
      WriterRefines(s, a);
    } else {
      ReaderRefines(s, a);
    }
  }

  lemma {:induction false} RunRefines<T>(s: State<T>, acts: seq<Action<T>>)
    requires Counters(s)
    ensures Meaning(Exec(s, acts)) == Run(Meaning(s), acts)
    decreases |acts|
  {
    if acts == [] {
    } else {
      RunRefines(s, acts[..|acts| - 1]);
      CountersAlways(s, acts[..|acts| - 1]);
      hide Apply, Move, Counters, Meaning;
      StepRefines(Exec(s, acts[..|acts| - 1]), acts[|acts| - 1]);
    }
  }

  /**
   Every run of the machine, whatever word the heads start at, however often they wrap, however stale the
   caches, in any interleaving and any order of calls, is the run of the ideal ring from the same index.
   */
  lemma MachineIsIdeal<T>(slots: seq<T>, origin: U32, acts: seq<Action<T>>)
    requires |slots| < MODULUS && PowerOfTwo(|slots|)
    ensures |slots| > 0
    ensures Meaning(Exec(Init(slots, origin), acts)) == Run(Fresh(slots, origin), acts)
  {
    InitCounters(slots, origin);
    assert Meaning(Init(slots, origin)) == Fresh(slots, origin);
    RunRefines(Init(slots, origin), acts);
  }
}
