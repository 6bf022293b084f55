/** The plain `+`, `-`, `+=` and `-=` of the ring and session code, with overflow checks on. */
module Traps {
  import opened Words
  import opened RingSpec
  import opened System
  import opened Safety

  /** Some plain operator that the action evaluates overflows or underflows. */
  predicate Traps<T>(s: State<T>, a: Action<T>)
    requires 0 < |s.slots| < MODULUS
  {
    match (a, s.writer, s.reader)
    case (Open(n), Idle, _) =>
      RefreshTraps(s) ||
      s.prod.cachedProducer + Reserve(s.prod, |s.slots|, 1, n, 0, s.consumer).count >= MODULUS
    case (CommitStore, Committing(cur, _, _), _) =>
      cur.remain > cur.buffers || cur.base + Moved(cur) >= MODULUS
    case (CloseWriter, Writing(cur, _), _) =>
      cur.buffers > s.prod.cachedProducer
    case (PeekLoad(n), _, Resting) =>
      Available(s.cons) >= 1 &&
      s.cons.cachedConsumer + Peek(s.cons, 1, n, 0, s.producer, s.producer).count >= MODULUS
    case (PeekRefresh, _, Peeking(n, first)) =>
      s.cons.cachedConsumer + Peek(s.cons, 1, n, 0, first, s.producer).count >= MODULUS
    case (ReleaseStore, _, Releasing(cur, _, _)) =>
      cur.remain > cur.buffers || cur.base + Moved(cur) >= MODULUS
    case (CloseReader, _, Reading(cur, _)) =>
      cur.buffers > s.cons.cachedConsumer
    case _ => false
  }

  /** The refresh of `count_free`: `cached_consumer += size`, then the final subtraction. */
  predicate RefreshTraps<T>(s: State<T>)
    requires 0 < |s.slots| < MODULUS
  {
    Cached(s.prod) < 1 &&
    (s.consumer + |s.slots| >= MODULUS || s.consumer + |s.slots| < s.prod.cachedProducer)
  }

  lemma SmallLow(n: int)
    requires 0 <= n < MODULUS
    ensures Low(n) == n
  {
  }

  // ---------- Exactly which runs trap ----------

  /** `base`, which stands at the word of `x`, is advanced by `moved` past the end of the word. */
  predicate Straddles(x: int, moved: int) { x < MODULUS <= x + moved }

  /**
   What a trap is over the unbounded heads: a refresh less than one ring below 2^32, or a commit or
   release whose second advance of `base` crosses 2^32.
   */
  predicate Exceeds<T>(s: State<T>, a: Action<T>) {
    match (a, s.writer, s.reader)
    case (Open(n), Idle, _) =>
      Cached(s.prod) < 1 && s.Tail() + |s.slots| >= MODULUS
    case (CommitStore, Committing(cur, done, _), _) =>
      Straddles(s.Head() + done + cur.buffers - cur.remain, cur.buffers - cur.remain)
    case (ReleaseStore, _, Releasing(cur, done, _)) =>
      Straddles(s.Tail() + done + cur.buffers - cur.remain, cur.buffers - cur.remain)
    case _ => false
  }

  lemma BaseTraps(size: U32, own: int, done: int, c: Cursor)
    requires CursorOk(size, own, done, c) && c.buffers > 0
    requires 0 <= own && own + c.buffers < MODULUS
    ensures c.base + Moved(c) >= MODULUS <==> Straddles(own + done + c.buffers - c.remain, c.buffers - c.remain)
  {
    var x := own + done + c.buffers - c.remain;
    CursorKept(size, own, done, c);
    if x < MODULUS {
      SmallLow(x);
    } else {
      SmallLow(x - MODULUS);
      Wraparound(x - MODULUS);
    }
  }

  lemma WriterTrapsExactly<T>(s: State<T>, a: Action<T>)
    requires Counters(s) && WriterLimit(s) < MODULUS && a.OfWriter()
    ensures Traps(s, a) <==> Exceeds(s, a)
  {
    SmallLow(s.Head() + HeldBy(s.writer));
    SmallLow(s.Tail());
    hide Low, Slot, Reserve, ConsOk, ReaderOk, Straddles, PowerOfTwo;
    match (a, s.writer)
    case (Open(n), Idle) =>
      WriterLimitStep(s, a);
    case (CommitStore, Committing(cur, done, loaded)) =>
      BaseTraps(|s.slots|, s.Head(), done, cur);
    case _ =>
  }

  /** The reader's words are its unbounded counters, and whatever it peeks stays behind the producer head. */
  lemma ReaderRoom<T>(s: State<T>)
    requires Counters(s) && WriterLimit(s) < MODULUS
    ensures 0 < |s.slots| < MODULUS && 0 <= s.Tail()
    ensures s.Tail() + HeldFor(s.reader) <= s.Head() < MODULUS
    ensures s.cons.cachedConsumer == s.Tail() + HeldFor(s.reader)
  {
    hide Low, Slot, WriterOk, PowerOfTwo;
    SmallLow(s.Tail() + HeldFor(s.reader));
  }

  lemma PeekStays<T>(s: State<T>, n: U32)
    requires Counters(s) && WriterLimit(s) < MODULUS && s.reader.Resting?
    ensures s.cons.cachedConsumer + Peek(s.cons, 1, n, 0, s.producer, s.producer).count < MODULUS
  {
    hide Low, Slot, Peek, ProdOk, WriterOk, PowerOfTwo, WriterLimit;
    ReaderRoom(s);
    PeekExact(|s.slots|, s.Head(), s.Head(), s.Tail(), 0, s.cons, 1, n, 0);
  }

  lemma RefreshStays<T>(s: State<T>)
    requires Counters(s) && WriterLimit(s) < MODULUS && s.reader.Peeking?
    ensures s.cons.cachedConsumer + Peek(s.cons, 1, s.reader.limit, 0, s.reader.first, s.producer).count < MODULUS
  {
    hide Low, Slot, Peek, ProdOk, WriterOk, PowerOfTwo, WriterLimit;
    ReaderRoom(s);
    var f :| s.reader.first == Low(f) && s.Tail() <= f <= s.Head() && ConsOk(f, s.Tail(), 0, s.cons);
    PeekExact(|s.slots|, f, s.Head(), s.Tail(), 0, s.cons, 1, s.reader.limit, 0);
  }

  lemma ReleaseTrapsExactly<T>(s: State<T>)
    requires Counters(s) && WriterLimit(s) < MODULUS && s.reader.Releasing?
    ensures Traps(s, ReleaseStore) <==> Exceeds(s, ReleaseStore)
  {
    hide Low, Slot, Peek, Reserve, ProdOk, WriterOk, PowerOfTwo, WriterLimit, Straddles;
    ReaderRoom(s);
    BaseTraps(|s.slots|, s.Tail(), s.reader.done, s.reader.cur);
  }

  lemma ReaderTrapsExactly<T>(s: State<T>, a: Action<T>)
    requires Counters(s) && WriterLimit(s) < MODULUS && !a.OfWriter()
    ensures Traps(s, a) <==> Exceeds(s, a)
  {
    hide Low, Slot, Peek, Reserve, Counters, WriterLimit, Straddles;
    ReaderRoom(s);
    match (a, s.reader)
    case (PeekLoad(n), Resting) =>
      PeekStays(s, n);
    case (PeekRefresh, Peeking(n, first)) =>
      RefreshStays(s);
    case (ReleaseStore, Releasing(cur, done, loaded)) =>
      ReleaseTrapsExactly(s);
    case _ =>
  }

  lemma StepTrapsExactly<T>(s: State<T>, a: Action<T>)
    requires Counters(s) && WriterLimit(s) < MODULUS
    ensures Traps(s, a) <==> Exceeds(s, a)
    ensures !Traps(s, a) ==> WriterLimit(Apply(s, a)) < MODULUS
  {
    WriterLimitStep(s, a);
    if a.OfWriter() {
      WriterTrapsExactly(s, a);
    } else {
      ReaderTrapsExactly(s, a);
    }
    hide Traps, Apply, Counters;
  }

  /** No action of the run traps. */
  ghost predicate TrapFree<T>(s0: State<T>, acts: seq<Action<T>>)
    requires 0 < |s0.slots| < MODULUS
  {
    forall k :: 0 <= k < |acts| ==> !Traps(Exec(s0, acts[..k]), acts[k])
  }

  /** No action of the run exceeds the word. */
  ghost predicate Contained<T>(s0: State<T>, acts: seq<Action<T>>)
    requires 0 < |s0.slots| < MODULUS
  {
    forall k :: 0 <= k < |acts| ==> !Exceeds(Exec(s0, acts[..k]), acts[k])
  }

  lemma TrapFreeNext<T>(s0: State<T>, acts: seq<Action<T>>, a: Action<T>)
    requires 0 < |s0.slots| < MODULUS
    ensures TrapFree(s0, acts + [a]) <==> TrapFree(s0, acts) && !Traps(Exec(s0, acts), a)
    ensures Contained(s0, acts + [a]) <==> Contained(s0, acts) && !Exceeds(Exec(s0, acts), a)
  {
    hide Traps, Exceeds, Exec;
    var all, n := acts + [a], |acts|;
    assert all[..n] == acts && all[n] == a;
    forall k | 0 <= k < n
      ensures all[..k] == acts[..k] && all[k] == acts[k]
    {
    }
  }

  lemma {:induction false} RunTrapsExactly<T>(s0: State<T>, acts: seq<Action<T>>)
    requires Counters(s0) && WriterLimit(s0) < MODULUS
    ensures TrapFree(s0, acts) <==> Contained(s0, acts)
    ensures TrapFree(s0, acts) ==> WriterLimit(Exec(s0, acts)) < MODULUS
    decreases |acts|
  {
    if acts == [] {
    } else {
      var before, a := acts[..|acts| - 1], acts[|acts| - 1];
      var s := Exec(s0, before);
      CountersAlways(s0, before);
      assert 0 < |s0.slots| < MODULUS && before + [a] == acts;
      TrapFreeNext(s0, before, a);
      hide TrapFree, Contained, Traps, Exceeds, Apply, Counters, WriterLimit;
      RunTrapsExactly(s0, before);
      if WriterLimit(s) < MODULUS {
        StepTrapsExactly(s, a);
      }
    }
  }

  /**
   A ring mapped anywhere, any run, any order of calls: no plain operator traps exactly when no refresh
   happens less than one ring below 2^32 and no second advance of `base` crosses it. Such a run never
   reserves, and so never publishes, past 2^32 - 1.
   */
  lemma TrapFreeExactly<T>(slots: seq<T>, origin: U32, acts: seq<Action<T>>)
    requires |slots| < MODULUS && PowerOfTwo(|slots|)
    ensures |slots| > 0
    ensures TrapFree(Init(slots, origin), acts) <==> Contained(Init(slots, origin), acts)
    ensures TrapFree(Init(slots, origin), acts) ==>
              var s := Exec(Init(slots, origin), acts);
              s.Head() + HeldBy(s.writer) < MODULUS
  {
    PowerBounds(|slots|);
    InitCounters(slots, origin);
    assert WriterLimit(Init(slots, origin)) == origin;
    RunTrapsExactly(Init(slots, origin), acts);
    hide TrapFree, Contained, Exec, Counters;
  }

  // ---------- A bound on the heads that rules traps out ----------

  /** The largest head the bound allows: one ring below the end of the word. */
  ghost predicate Bounded<T>(s: State<T>) { s.Head() <= MODULUS - 1 - |s.slots| }

  lemma HeadGrows<T>(s: State<T>, a: Action<T>)
    requires 0 < |s.slots| < MODULUS
    ensures s.Head() <= Apply(s, a).Head()
  {
    hide Low, Slot, Reserve, Peek;
  }

  lemma BoundedTrapFree<T>(s: State<T>, a: Action<T>)
    requires Counters(s) && Bounded(Apply(s, a)) && Bounded(s)
    ensures !Traps(s, a)
  {
    StepTrapsExactly(s, a);
    hide Low, Slot, Reserve, Peek, Traps;
    match (a, s.writer, s.reader)
    case (CommitStore, Committing(cur, done, loaded), _) =>
      CursorKept(|s.slots|, s.Head(), done, cur);
      assert Apply(s, a).Head() == s.Head() + Moved(cur);
    case _ =>
  }

  /**
   No plain operator traps on any run, in any order of calls with repeated commits, whose unbounded
   heads stay at or below 2^32 - 1 - size.
   */
  lemma {:induction false} TrapFreeRun<T>(s0: State<T>, acts: seq<Action<T>>)
    requires Counters(s0) && Bounded(Exec(s0, acts))
    ensures TrapFree(s0, acts)
    decreases |acts|
  {
    if acts == [] {
    } else {
      var before, a := acts[..|acts| - 1], acts[|acts| - 1];
      CountersAlways(s0, before);
      assert 0 < |s0.slots| < MODULUS && before + [a] == acts;
      HeadGrows(Exec(s0, before), a);
      BoundedTrapFree(Exec(s0, before), a);
      TrapFreeNext(s0, before, a);
      hide TrapFree, Traps, Apply, Counters;
      TrapFreeRun(s0, before);
    }
  }

  /** A refresh traps exactly when the consumer word is less than one ring away from wrapping. */
  lemma RefreshTrapsExactly<T>(s: State<T>)
    requires Counters(s) && s.writer.Idle? && Cached(s.prod) < 1
    ensures RefreshTraps(s) <==> s.consumer + |s.slots| >= MODULUS
  {
    var size, turns := |s.slots|, s.Tail() / 0x1_0000_0000;
    if s.consumer + size < MODULUS {
      assert s.consumer == s.Tail() - 0x1_0000_0000 * turns;
      hide Low;
      WholeTurns(s.Head(), turns);
      SmallLow(s.Head() - 0x1_0000_0000 * turns);
    }
  }

  /** The bound is tight: one head later, the first session of a fresh ring already traps. */
  lemma BoundTight<T>(slots: seq<T>, n: U32)
    requires |slots| < MODULUS && PowerOfTwo(|slots|)
    ensures |slots| > 0 && Traps(Init(slots, MODULUS - |slots|), Open(n))
  {
    PowerBounds(|slots|);
    assert Cached(Init(slots, MODULUS - |slots|).prod) == 0;
  }
}
