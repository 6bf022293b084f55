/**
 One writer and one reader on the two ends of the same ring. Every action holds at most one access to
 shared memory, so a sequence of actions is one interleaving of the loads, slot accesses and stores of
 both sides, under sequential consistency.
 */
module System {
  import opened Words
  import opened RingSpec
  import opened Window

  /** Where the writing thread is: no session, in one, or inside `submit` between its load and store. */
  datatype Writer =
    | Idle
    | Writing(cur: Cursor, done: nat)
    | Committing(cur: Cursor, done: nat, loaded: U32)

  /** Where the reading thread is; `Peeking` lies between the two loads of `count_available`. */
  datatype Reader =
    | Resting
    | Peeking(limit: U32, first: U32)
    | Reading(cur: Cursor, done: nat)
    | Releasing(cur: Cursor, done: nat, loaded: U32)

  /**
   Shared memory, the private words of both sides, and the history of the run: `committed` and
   `released` since both heads stood at `origin`, `inserted` and `taken` by the current sessions.
   */
  datatype State<T> = State(
    slots: seq<T>, producer: U32, consumer: U32,
    prod: Handle, writer: Writer,
    cons: Handle, reader: Reader,
    origin: U32, committed: seq<T>, inserted: seq<T>, released: seq<T>, taken: seq<T>)
  {
    function Head(): int { origin + |committed| }
    function Tail(): int { origin + |released| }
  }

  datatype Action<T> =
    // writer: open a session for up to `n`, insert, commit, drop the session
    | Open(n: U32) | Insert(item: T) | CommitLoad | CommitStore | CloseWriter
    // reader: open a session for up to `n`, read, release, drop the session
    | PeekLoad(n: U32) | PeekRefresh | Read | ReleaseLoad | ReleaseStore | CloseReader
  {
    predicate OfWriter() { Open? || Insert? || CommitLoad? || CommitStore? || CloseWriter? }
  }

  /** Both rings mapped while the two heads stand at `origin`. */
  function Init<T>(slots: seq<T>, origin: U32): State<T> {
    State(slots, origin, origin, NewHandle(origin, origin), Idle, NewHandle(origin, origin), Resting,
          origin, [], [], [], [])
  }

  function SessionOf(g: Grant): Cursor { Cursor(g.base, g.count, g.count) }

  function WriterStep<T>(s: State<T>, a: Action<T>): State<T>
    requires 0 < |s.slots| < MODULUS
  {
    match (a, s.writer)
    case (Open(n), Idle) =>
      var g := Reserve(s.prod, |s.slots|, 1, n, 0, s.consumer);
      s.(prod := g.handle, writer := Writing(SessionOf(g), 0))
    case (Insert(item), Writing(cur, done)) =>
      if cur.remain == 0 then s
      else s.(slots := s.slots[Slot(cur.base, |s.slots|) := item],
              writer := Writing(NextCursor(cur), done), inserted := s.inserted + [item])
    case (CommitLoad, Writing(cur, done)) =>
      if cur.buffers == 0 then s else s.(writer := Committing(cur, done, s.producer))
    case (CommitStore, Committing(cur, done, loaded)) =>
      s.(producer := WrapAdd(loaded, Moved(cur)), writer := Writing(CommitCursor(cur), done + Moved(cur)),
         committed := s.committed + s.inserted, inserted := [])
    case (CloseWriter, Writing(cur, done)) =>
      s.(prod := s.prod.(cachedProducer := WrapSub(s.prod.cachedProducer, cur.buffers)),
         writer := Idle, inserted := [])
    case _ => s
  }

  function ReaderStep<T>(s: State<T>, a: Action<T>): State<T>
    requires 0 < |s.slots| < MODULUS
  {
    match (a, s.reader)
    case (PeekLoad(n), Resting) =>
      if Available(s.cons) < 1 then s.(reader := Peeking(n, s.producer))
      else
        var g := Peek(s.cons, 1, n, 0, s.producer, s.producer);
        s.(cons := g.handle, reader := Reading(SessionOf(g), 0))
    case (PeekRefresh, Peeking(n, first)) =>
      var g := Peek(s.cons, 1, n, 0, first, s.producer);
      s.(cons := g.handle, reader := Reading(SessionOf(g), 0))
    case (Read, Reading(cur, done)) =>
      if cur.remain == 0 then s
      else s.(reader := Reading(NextCursor(cur), done),
              taken := s.taken + [s.slots[Slot(cur.base, |s.slots|)]])
    case (ReleaseLoad, Reading(cur, done)) =>
      if cur.buffers == 0 then s else s.(reader := Releasing(cur, done, s.consumer))
    case (ReleaseStore, Releasing(cur, done, loaded)) =>
      s.(consumer := WrapAdd(loaded, Moved(cur)), reader := Reading(CommitCursor(cur), done + Moved(cur)),
         released := s.released + s.taken, taken := [])
    case (CloseReader, Reading(cur, done)) =>
      s.(cons := s.cons.(cachedConsumer := WrapSub(s.cons.cachedConsumer, cur.buffers)),
         reader := Resting, taken := [])
    case _ => s
  }

  /** One action; an action the thread is not ready for changes nothing. */
  function Apply<T>(s: State<T>, a: Action<T>): (s': State<T>)
    requires 0 < |s.slots| < MODULUS
    ensures |s'.slots| == |s.slots| && s'.origin == s.origin
  {
    if a.OfWriter() then WriterStep(s, a) else ReaderStep(s, a)
  }

  function Exec<T>(s: State<T>, acts: seq<Action<T>>): (s': State<T>)
    requires 0 < |s.slots| < MODULUS
    ensures |s'.slots| == |s.slots| && s'.origin == s.origin
  {
    if acts == [] then s else Apply(Exec(s, acts[..|acts| - 1]), acts[|acts| - 1])
  }

  lemma ExecStep<T>(s: State<T>, acts: seq<Action<T>>, a: Action<T>)
    requires 0 < |s.slots| < MODULUS
    ensures Exec(s, acts + [a]) == Apply(Exec(s, acts), a)
  {
    assert (acts + [a])[..|acts|] == acts;
  }

  // ---------- Bookkeeping that holds for any order of calls ----------

  function HeldBy(w: Writer): U32 { if w.Idle? then 0 else w.cur.buffers }

  function HeldFor(r: Reader): U32 { if r.Resting? || r.Peeking? then 0 else r.cur.buffers }

  ghost predicate WriterOk<T>(s: State<T>)
    requires 0 < |s.slots| < MODULUS
  {
    if s.writer.Idle? then s.inserted == []
    else
      && CursorOk(|s.slots|, s.Head(), s.writer.done, s.writer.cur)
      && |s.inserted| == s.writer.cur.buffers - s.writer.cur.remain
      && (s.writer.Committing? ==> s.writer.loaded == s.producer && s.writer.cur.buffers > 0)
  }

  ghost predicate ReaderOk<T>(s: State<T>)
    requires 0 < |s.slots| < MODULUS
  {
    match s.reader
    case Resting => s.taken == []
    case Peeking(limit, first) =>
      && s.taken == []
      && Available(s.cons) < 1
      && exists f :: first == Low(f) && s.Tail() <= f <= s.Head() && ConsOk(f, s.Tail(), 0, s.cons)
    case Reading(cur, done) =>
      && CursorOk(|s.slots|, s.Tail(), done, cur)
      && |s.taken| == cur.buffers - cur.remain
    case Releasing(cur, done, loaded) =>
      && CursorOk(|s.slots|, s.Tail(), done, cur)
      && |s.taken| == cur.buffers - cur.remain
      && loaded == s.consumer && cur.buffers > 0
  }

  /** Both caches agree with the shared heads up to the entries a session holds, over unbounded heads. */
  ghost predicate Counters<T>(s: State<T>) {
    && |s.slots| < MODULUS && PowerOfTwo(|s.slots|)
    && 0 < |s.slots|
    && HeadsOk(|s.slots|, s.Head(), s.Tail())
    && s.producer == Low(s.Head())
    && s.consumer == Low(s.Tail())
    && ProdOk(|s.slots|, s.Head(), s.Tail(), HeldBy(s.writer), s.prod)
    && ConsOk(s.Head(), s.Tail(), HeldFor(s.reader), s.cons)
    && WriterOk(s)
    && ReaderOk(s)
  }

  lemma OpenKeepsCounters<T>(s: State<T>, n: U32)
    requires Counters(s) && s.writer.Idle?
    ensures Counters(WriterStep(s, Open(n)))
  {
    hide Low, Slot, Reserve, PowerOfTwo;
    ReserveExact(|s.slots|, s.Head(), s.Tail(), 0, s.prod, 1, n, 0);
  }

  lemma WriterKeepsCounters<T>(s: State<T>, a: Action<T>)
    requires Counters(s) && a.OfWriter()
    ensures Counters(WriterStep(s, a))
  {
    hide Low, Slot, Reserve, PowerOfTwo;
    var s' := WriterStep(s, a);
    var size := |s.slots|;
    match (a, s.writer)
    case (Open(n), Idle) =>
      OpenKeepsCounters(s, n);
    case (Insert(item), Writing(cur, done)) =>
      CursorKept(size, s.Head(), done, cur);
    case (CommitLoad, Writing(cur, done)) =>
    case (CommitStore, Committing(cur, done, loaded)) =>
      CursorKept(size, s.Head(), done, cur);
      LowShift(s.Head(), Moved(cur));
      assert s'.Head() == s.Head() + Moved(cur);
    case (CloseWriter, Writing(cur, done)) =>
      GiveBack(size, s.Head(), s.Tail(), cur.buffers, cur.buffers, s.prod);
    case _ =>
  }

  lemma PeekKeepsCounters<T>(s: State<T>, a: Action<T>)
    requires Counters(s) && ((a.PeekLoad? && s.reader.Resting?) || (a.PeekRefresh? && s.reader.Peeking?))
    ensures Counters(ReaderStep(s, a))
  {
    hide Low, Slot, Peek, ProdOk;
    if a.PeekLoad? {
      assert ConsOk(s.Head(), s.Tail(), 0, s.cons);
      PeekExact(|s.slots|, s.Head(), s.Head(), s.Tail(), 0, s.cons, 1, a.n, 0);
    } else {
      var f :| s.reader.first == Low(f) && s.Tail() <= f <= s.Head() && ConsOk(f, s.Tail(), 0, s.cons);
      PeekExact(|s.slots|, f, s.Head(), s.Tail(), 0, s.cons, 1, s.reader.limit, 0);
    }
  }

  lemma ReaderKeepsCounters<T>(s: State<T>, a: Action<T>)
    requires Counters(s) && !a.OfWriter()
    ensures Counters(ReaderStep(s, a))
  {
    hide Low, Slot, Peek;
    var s' := ReaderStep(s, a);
    PowerBounds(|s.slots|);
    match (a, s.reader)
    case (PeekLoad(n), Resting) =>
      PeekKeepsCounters(s, a);
    case (PeekRefresh, Peeking(n, first)) =>
      PeekKeepsCounters(s, a);
    case (Read, Reading(cur, done)) =>
      CursorKept(|s.slots|, s.Tail(), done, cur);
    case (ReleaseLoad, Reading(cur, done)) =>
    case (ReleaseStore, Releasing(cur, done, loaded)) =>
      CursorKept(|s.slots|, s.Tail(), done, cur);
      LowShift(s.Tail(), Moved(cur));
      assert s'.Tail() == s.Tail() + Moved(cur);
    case (CloseReader, Reading(cur, done)) =>
      GiveBackRead(|s.slots|, s.Head(), s.Tail(), cur.buffers, cur.buffers, s.cons);
    case _ =>
  }

  lemma InitCounters<T>(slots: seq<T>, origin: U32)
    requires |slots| < MODULUS && PowerOfTwo(|slots|)
    ensures Counters(Init(slots, origin))
  {
    hide Low;
    LowOfWord(origin);
    MappingPrecondition(|slots|, origin, origin);
  }

  /**
   Every interleaving, any order of session calls: the shared words are the unbounded heads, the heads
   stay within one ring of each other, and each cache differs from its own head by exactly the entries
   its session holds and promises nothing that is not free (not published).
   */
  lemma {:induction false} CountersAlways<T>(s: State<T>, acts: seq<Action<T>>)
    requires Counters(s)
    ensures Counters(Exec(s, acts))
  {
    if acts == [] {
    } else {
      var a, before := acts[|acts| - 1], Exec(s, acts[..|acts| - 1]);
      CountersAlways(s, acts[..|acts| - 1]);
      if a.OfWriter() {
        WriterKeepsCounters(before, a);
      } else {
        ReaderKeepsCounters(before, a);
      }
    }
  }

  /** What the bookkeeping says in machine words alone. */
  ghost predicate Conserved<T>(s: State<T>) {
    && (match s.writer
        case Idle => s.prod.cachedProducer == s.producer
        case _ => s.writer.cur.remain <= s.writer.cur.buffers
                  && s.prod.cachedProducer == WrapAdd(s.producer, s.writer.cur.buffers))
    && (match s.reader
        case Resting => s.cons.cachedConsumer == s.consumer
        case Peeking(_, _) => s.cons.cachedConsumer == s.consumer
        case _ => s.reader.cur.remain <= s.reader.cur.buffers
                  && s.cons.cachedConsumer == WrapAdd(s.consumer, s.reader.cur.buffers))
  }

  lemma CountersConserve<T>(s: State<T>)
    requires Counters(s)
    ensures Conserved(s)
  {
    hide Low;
    LowShift(s.Head(), HeldBy(s.writer));
    LowShift(s.Tail(), HeldFor(s.reader));
  }

  lemma TakenIsPublished<T>(s: State<T>)
    requires Counters(s)
    ensures |s.taken| <= HeldFor(s.reader) <= s.Head() - s.Tail()
  {
    hide Low;
  }

  /**
   The drop of a write session undoes what was reserved and not committed, and touches nothing that is
   shared. If the ring is not full, the next session starts at the shared word.
   */
  lemma WriterDrops<T>(s: State<T>, n: U32)
    requires Counters(s) && s.writer.Writing?
    ensures var d := Apply(s, CloseWriter);
            && d.writer.Idle? && d.prod.cachedProducer == s.producer && d.inserted == []
            && d == s.(prod := d.prod, writer := Idle, inserted := [])
            && var o := Apply(d, Open(n));
               && o.writer.Writing? && o.writer.done == 0 && o.writer.cur.remain == o.writer.cur.buffers
               && (n >= 1 && s.Head() - s.Tail() < |s.slots| ==>
                     o.writer.cur.base == s.producer && o.writer.cur.buffers >= 1)
  {
    hide Low, Slot, ConsOk, ReaderOk, Reserve;
    var d := Apply(s, CloseWriter);
    LowShift(s.Head() + s.writer.cur.buffers, s.writer.cur.buffers);
    WriterKeepsCounters(s, CloseWriter);
    ReserveExact(|s.slots|, s.Head(), s.Tail(), 0, d.prod, 1, n, 0);
  }

  /** The drop of a read session: what was read and not released is handed out again from the same index. */
  lemma ReaderDrops<T>(s: State<T>, n: U32)
    requires Counters(s) && s.reader.Reading?
    ensures var d := Apply(s, CloseReader);
            && d.reader.Resting? && d.cons.cachedConsumer == s.consumer && d.taken == []
            && d == s.(cons := d.cons, reader := Resting, taken := [])
            && var o := Apply(Apply(d, PeekLoad(n)), PeekRefresh);
               && o.reader.Reading? && o.reader.done == 0 && o.reader.cur.remain == o.reader.cur.buffers
               && (n >= 1 && s.Tail() < s.Head() ==>
                     o.reader.cur.base == s.consumer && o.reader.cur.buffers >= 1)
  {
    hide Low, Slot, ProdOk, WriterOk, Peek;
    var d := Apply(s, CloseReader);
    LowShift(s.Tail() + s.reader.cur.buffers, s.reader.cur.buffers);
    ReaderKeepsCounters(s, CloseReader);
    PeekExact(|s.slots|, s.Head(), s.Head(), s.Tail(), 0, d.cons, 1, n, 0);
  }

  /**
   Session conservation: after any calls a cache differs from its shared head by what the open session
   holds, and once the session is dropped the two agree.
   */
  lemma SessionConservation<T>(slots: seq<T>, origin: U32, acts: seq<Action<T>>)
    requires |slots| < MODULUS && PowerOfTwo(|slots|)
    ensures |slots| > 0
    ensures var s := Exec(Init(slots, origin), acts);
            && Conserved(s)
            && (var d := Apply(s, CloseWriter);
                s.writer.Writing? ==> d.writer.Idle? && d.prod.cachedProducer == d.producer == s.producer)
            && (var d := Apply(s, CloseReader);
                s.reader.Reading? ==> d.reader.Resting? && d.cons.cachedConsumer == d.consumer == s.consumer)
  {
    InitCounters(slots, origin);
    CountersAlways(Init(slots, origin), acts);
    var s := Exec(Init(slots, origin), acts);
    CountersConserve(s);
    hide Conserved, Counters, Apply, Exec;
    if s.writer.Writing? {
      WriterDrops(s, 0);
    }
    if s.reader.Reading? {
      ReaderDrops(s, 0);
    }
  }

  // ---------- Contents, for the documented workflow ----------

  /** The documented workflow: no insert after the session published, no read after it released. */
  predicate Orderly<T>(s: State<T>, a: Action<T>) {
    && (a.Insert? && s.writer.Writing? ==> s.writer.done == 0)
    && (a.Read? && s.reader.Reading? ==> s.reader.done == 0)
  }

  predicate OrderlyRun<T>(s: State<T>, acts: seq<Action<T>>)
    requires 0 < |s.slots| < MODULUS
  {
    acts == [] ||
    var before := acts[..|acts| - 1];
    OrderlyRun(s, before) && Orderly(Exec(s, before), acts[|acts| - 1])
  }

  /** The ring as a queue between the unbounded heads, and what the two open sessions did to it so far. */
  ghost predicate Contents<T>(s: State<T>)
    requires 0 < |s.slots| < MODULUS && s.Tail() <= s.Head()
  {
    && s.released + Span(s.slots, s.Tail(), s.Head() - s.Tail()) == s.committed
    && Span(s.slots, s.Head(), |s.inserted|) == s.inserted
    && Span(s.slots, s.Tail(), |s.taken|) == s.taken
  }

  lemma InsertKeepsContents<T>(s: State<T>, item: T)
    requires Counters(s) && Contents(s)
    requires s.writer.Writing? && s.writer.done == 0 && s.writer.cur.remain > 0
    ensures Contents(WriterStep(s, Insert(item)))
  {
    hide Low, Slot, Span;
    var n := s.Head() + |s.inserted|;
    SpanKept(s.slots, s.Tail(), s.Head() - s.Tail(), n, item);
    SpanKept(s.slots, s.Tail(), |s.taken|, n, item);
    SpanGrown(s.slots, s.Head(), |s.inserted|, item);
  }

  lemma CommitKeepsContents<T>(s: State<T>)
    requires 0 < |s.slots| < MODULUS && s.writer.Committing?
    requires s.Tail() <= s.Head() && Contents(s)
    ensures Contents(WriterStep(s, CommitStore))
  {
    hide Low, Slot, Span;
    SpanSplit(s.slots, s.Tail(), s.Head() - s.Tail(), |s.inserted|);
    assert WriterStep(s, CommitStore).Head() == s.Head() + |s.inserted|;
  }

  lemma WriterKeepsContents<T>(s: State<T>, a: Action<T>)
    requires Counters(s) && Contents(s) && a.OfWriter() && Orderly(s, a)
    ensures Counters(WriterStep(s, a)) && Contents(WriterStep(s, a))
  {
    WriterKeepsCounters(s, a);
    hide Low, Slot, Span, CursorOk, ProdOk, ConsOk, ReaderOk;
    match (a, s.writer)
    case (Insert(item), Writing(cur, done)) =>
      if cur.remain > 0 {
        InsertKeepsContents(s, item);
      }
    case (CommitStore, Committing(cur, done, loaded)) =>
      CommitKeepsContents(s);
    case _ =>
  }

  lemma ReadKeepsContents<T>(s: State<T>)
    requires Counters(s) && Contents(s)
    requires s.reader.Reading? && s.reader.done == 0 && s.reader.cur.remain > 0
    ensures Contents(ReaderStep(s, Read))
  {
    hide Low, Slot, Span, ProdOk, ConsOk, WriterOk;
    SpanNext(s.slots, s.Tail(), |s.taken|);
  }

  lemma ReleaseKeepsContents<T>(s: State<T>)
    requires 0 < |s.slots| < MODULUS && s.reader.Releasing?
    requires |s.taken| <= s.Head() - s.Tail() && Contents(s)
    ensures var s' := ReaderStep(s, ReleaseStore);
            s'.Tail() <= s'.Head() && Contents(s')
  {
    hide Low, Slot, Span;
    SpanSplit(s.slots, s.Tail(), |s.taken|, s.Head() - s.Tail() - |s.taken|);
    assert ReaderStep(s, ReleaseStore).Tail() == s.Tail() + |s.taken|;
  }

  lemma ReaderFrame<T>(s: State<T>, a: Action<T>)
    requires 0 < |s.slots| < MODULUS && !a.OfWriter()
    ensures var s' := ReaderStep(s, a);
            && s'.slots == s.slots && s'.producer == s.producer
            && s'.prod == s.prod && s'.writer == s.writer
            && s'.committed == s.committed && s'.inserted == s.inserted
            && (!(a.ReleaseStore? && s.reader.Releasing?) ==> s'.released == s.released)
            && (!(a.ReleaseStore? && s.reader.Releasing?) && !(a.Read? && s.reader.Reading?) ==>
                  s'.taken == s.taken || s'.taken == [])
  {
    hide Low, Slot, Peek, CommitCursor;
  }

  lemma ReaderKeepsContents<T>(s: State<T>, a: Action<T>)
    requires Counters(s) && Contents(s) && !a.OfWriter() && Orderly(s, a)
    ensures Counters(ReaderStep(s, a)) && Contents(ReaderStep(s, a))
  {
    ReaderKeepsCounters(s, a);
    TakenIsPublished(s);
    if a.Read? && s.reader.Reading? {
      if s.reader.cur.remain > 0 {
        ReadKeepsContents(s);
      }
    } else if a.ReleaseStore? && s.reader.Releasing? {
      ReleaseKeepsContents(s);
    } else {
      hide ReaderStep, Counters;
      ReaderFrame(s, a);
    }
  }

  lemma {:induction false} ContentsAlways<T>(s: State<T>, acts: seq<Action<T>>)
    requires Counters(s) && Contents(s) && OrderlyRun(s, acts)
    ensures Counters(Exec(s, acts)) && Contents(Exec(s, acts))
  {
    if acts == [] {
    } else {
      var a, before := acts[|acts| - 1], Exec(s, acts[..|acts| - 1]);
      ContentsAlways(s, acts[..|acts| - 1]);
      if a.OfWriter() {
        WriterKeepsContents(before, a);
      } else {
        ReaderKeepsContents(before, a);
      }
    }
  }

  /**
   End-to-end FIFO: after every interleaving of both sides in the documented workflow, whatever the
   initial head and however often the words wrapped, what the reader released followed by what lies
   between the two shared words is exactly what the writer committed; and the open read session has
   taken the oldest entries of it.
   */
  lemma EndToEndFifo<T>(slots: seq<T>, origin: U32, acts: seq<Action<T>>)
    requires |slots| < MODULUS && PowerOfTwo(|slots|)
    requires OrderlyRun(Init(slots, origin), acts)
    ensures var s := Exec(Init(slots, origin), acts);
            && s.released + Queue(s.slots, s.producer, s.consumer) == s.committed
            && s.taken <= Queue(s.slots, s.producer, s.consumer)
            && |Queue(s.slots, s.producer, s.consumer)| <= |s.slots|
  {
    InitCounters(slots, origin);
    ContentsAlways(Init(slots, origin), acts);
    QueueHolds(Exec(Init(slots, origin), acts));
  }

  /** A reader may map its end at any moment of a run, whatever was published before. */
  lemma ReaderMapsAnyTime<T>(s: State<T>)
    requires Counters(s) && s.reader.Resting?
    ensures Counters(s.(cons := NewHandle(s.producer, s.consumer)))
  {
    hide Low;
    MappingPrecondition(|s.slots|, s.Head(), s.Tail());
  }

  /** A writer may map its end exactly when the ring is empty. */
  lemma WriterMapsExactly<T>(s: State<T>)
    requires Counters(s) && s.writer.Idle?
    ensures Counters(s.(prod := NewHandle(s.producer, s.consumer))) <==> s.Head() == s.Tail()
  {
    hide Low;
    MappingPrecondition(|s.slots|, s.Head(), s.Tail());
  }

  lemma QueueHolds<T>(s: State<T>)
    requires Counters(s) && Contents(s)
    ensures s.released + Queue(s.slots, s.producer, s.consumer) == s.committed
    ensures s.taken <= Queue(s.slots, s.producer, s.consumer)
    ensures |Queue(s.slots, s.producer, s.consumer)| <= |s.slots|
  {
    TakenIsPublished(s);
    hide Low, Slot, Span, CursorOk, ProdOk, ConsOk, WriterOk, ReaderOk;
    QueueOfHeads(s.slots, s.Head(), s.Tail());
    SpanSplit(s.slots, s.Tail(), |s.taken|, s.Head() - s.Tail() - |s.taken|);
  }
}
