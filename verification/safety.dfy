/** What both sides of the ring may rely on, in every reachable state. */
module Safety {
  import opened Words
  import opened RingSpec
  import opened Window
  import opened System

  // ---------- Each side keeps the promises the other side relies on ----------

  /** The reader only moves its own word, and never past what is published. */
  lemma ReaderOnlyConsumes<T>(s: State<T>, a: Action<T>)
    requires Counters(s) && !a.OfWriter()
    ensures var s' := Apply(s, a);
            && s'.slots == s.slots && s'.producer == s.producer && s'.Head() == s.Head()
            && s'.prod == s.prod && s'.writer == s.writer && s'.inserted == s.inserted
            && s.Tail() <= s'.Tail() <= s.Head()
  {
    TakenIsPublished(s);
  }

  lemma WriterHistory<T>(s: State<T>, a: Action<T>)
    requires 0 < |s.slots| < MODULUS && a.OfWriter()
    ensures var s' := Apply(s, a);
            && s'.consumer == s.consumer && s'.released == s.released
            && s'.cons == s.cons && s'.reader == s.reader && s'.taken == s.taken
            && s.committed <= s'.committed
            && (!a.CommitStore? ==> s'.committed == s.committed)
  {
    hide Low, Slot, Reserve;
  }

  lemma HeadsInRange<T>(s: State<T>)
    requires Counters(s)
    ensures s.Tail() <= s.Head() <= s.Tail() + |s.slots| && 0 < |s.slots| < MODULUS
  {
    hide Low;
  }

  /** The writer never touches the other word, keeps at most a ring full, and keeps every live entry. */
  lemma WriterOnlyAppends<T>(s: State<T>, a: Action<T>)
    requires Counters(s) && Contents(s) && a.OfWriter() && Orderly(s, a)
    ensures var s' := Apply(s, a);
            && s'.consumer == s.consumer && s'.Tail() == s.Tail()
            && s'.cons == s.cons && s'.reader == s.reader && s'.taken == s.taken
            && s.Head() <= s'.Head() <= s.Tail() + |s.slots|
            && Queue(s.slots, s.producer, s.consumer) <= Queue(s'.slots, s'.producer, s'.consumer)
  {
    var s' := Apply(s, a);
    WriterHistory(s, a);
    WriterKeepsContents(s, a);
    QueueHolds(s);
    QueueHolds(s');
    HeadsInRange(s');
    hide Low, Slot, Queue, Counters, Contents, Apply;
    assert s.committed[|s.released|..] <= s'.committed[|s.released|..];
  }

  // ---------- No live slot is overwritten ----------

  /** The slot is that of a published entry the reader has not released. */
  ghost predicate Live<T>(s: State<T>, slot: U32)
    requires 0 < |s.slots| < MODULUS
  {
    exists j :: s.Tail() <= j < s.Head() && Slot(Low(j), |s.slots|) == slot
  }

  lemma LiveExactly<T>(s: State<T>, n: nat)
    requires Counters(s) && s.Head() <= n < s.Head() + |s.slots|
    ensures Live(s, Slot(Low(n), |s.slots|)) <==> n >= s.Tail() + |s.slots|
  {
    hide Low, Slot, ProdOk, ConsOk, WriterOk, ReaderOk;
    var size := |s.slots|;
    if n >= s.Tail() + size {
      SlotsRepeat(n - size, size);
      assert s.Tail() <= n - size < s.Head();
    } else {
      forall j | s.Tail() <= j < s.Head()
        ensures Slot(Low(j), size) != Slot(Low(n), size)
      {
        SlotsDistinct(j, n, size);
      }
    }
  }

  /**
   Exactly when an insert overwrites an entry the reader still needs. It needs room past the reserved
   space, which only the doubled advance of `base` by an earlier commit of the session (`done`) gives.
   */
  lemma OverwritesExactly<T>(s: State<T>)
    requires Counters(s) && s.writer.Writing? && s.writer.cur.remain > 0
    ensures Live(s, Slot(s.writer.cur.base, |s.slots|))
            <==> s.Head() + |s.inserted| + s.writer.done >= s.Tail() + |s.slots|
    ensures s.writer.done == 0 ==> !Live(s, Slot(s.writer.cur.base, |s.slots|))
  {
    hide Low, Slot, Live, ConsOk, ReaderOk;
    LiveExactly(s, s.Head() + |s.inserted| + s.writer.done);
  }

  /** Until the next commit the producer head stands still and the consumer head only grows. */
  lemma {:induction false} RunToCommit<T>(s: State<T>, acts: seq<Action<T>>)
    requires Counters(s) && forall a :: a in acts ==> !a.CommitStore?
    ensures var s' := Exec(s, acts);
            Counters(s') && s'.Head() == s.Head() && s.Tail() <= s'.Tail()
  {
    if acts == [] {
    } else {
      var before, a := Exec(s, acts[..|acts| - 1]), acts[|acts| - 1];
      RunToCommit(s, acts[..|acts| - 1]);
      if a.OfWriter() {
        WriterKeepsCounters(before, a);
        WriterHistory(before, a);
      } else {
        ReaderKeepsCounters(before, a);
        ReaderOnlyConsumes(before, a);
      }
    }
  }

  /**
   A slot written in the documented workflow is not live when written, and nothing brings it into the live
   window before the commit stores the new head: neither any steps of the reader, nor further inserts, nor
   the load half of the commit, nor a rollback and another session.
   */
  lemma NoLiveOverwrite<T>(s: State<T>, item: T, acts: seq<Action<T>>)
    requires Counters(s) && s.writer.Writing? && s.writer.done == 0 && s.writer.cur.remain > 0
    requires forall a :: a in acts ==> !a.CommitStore?
    ensures var slot := Slot(s.writer.cur.base, |s.slots|);
            !Live(s, slot) && !Live(Exec(Apply(s, Insert(item)), acts), slot)
  {
    OverwritesExactly(s);
    var s1 := Apply(s, Insert(item));
    WriterKeepsCounters(s, Insert(item));
    RunToCommit(s1, acts);
    hide Low, Slot, Counters;
    assert s1.Head() == s.Head() && s1.Tail() == s.Tail();
  }

  // ---------- The cached limits are past values of the other head ----------

  function WriterLimit<T>(s: State<T>): int { s.Head() + HeldBy(s.writer) + Cached(s.prod) }

  function ReaderLimit<T>(s: State<T>): int { s.Tail() + HeldFor(s.reader) + Available(s.cons) }

  /** `count_free` loads the consumer head in this action. */
  predicate WriterRefreshes<T>(s: State<T>, a: Action<T>) { a.Open? && s.writer.Idle? && Cached(s.prod) < 1 }

  /** `count_available` stores its second load of the producer head in this action. */
  predicate ReaderRefreshes<T>(s: State<T>, a: Action<T>) { a.PeekRefresh? && s.reader.Peeking? }

  /** Action `last` is the last one of the run in which `f` holds; -1 if it holds in none. */
  ghost predicate LastOf<T>(s0: State<T>, acts: seq<Action<T>>, f: (State<T>, Action<T>) -> bool, last: int)
    requires 0 < |s0.slots| < MODULUS
  {
    && -1 <= last < |acts|
    && (last >= 0 ==> f(Exec(s0, acts[..last]), acts[last]))
    && forall k :: 0 <= k < |acts| && last < k ==> !f(Exec(s0, acts[..k]), acts[k])
  }

  lemma LastOfBounds<T>(s0: State<T>, acts: seq<Action<T>>, f: (State<T>, Action<T>) -> bool, last: int)
    requires 0 < |s0.slots| < MODULUS && LastOf(s0, acts, f, last)
    ensures -1 <= last < |acts|
    ensures acts == [] ==> Exec(s0, acts) == s0
  {
  }

  lemma LastOfNext<T>(s0: State<T>, acts: seq<Action<T>>, a: Action<T>, f: (State<T>, Action<T>) -> bool, last: int)
    requires 0 < |s0.slots| < MODULUS && LastOf(s0, acts + [a], f, last)
    ensures last <= |acts|
    ensures if last == |acts| then f(Exec(s0, acts), a) else LastOf(s0, acts, f, last) && !f(Exec(s0, acts), a)
  {
    hide Exec;
    var all, n := acts + [a], |acts|;
    assert all[..n] == acts && all[n] == a;
    forall k | 0 <= k < n
      ensures all[..k] == acts[..k] && all[k] == acts[k]
    {
    }
  }

  lemma WriterLimitStep<T>(s: State<T>, a: Action<T>)
    requires Counters(s)
    ensures WriterLimit(Apply(s, a)) == if WriterRefreshes(s, a) then s.Tail() + |s.slots| else WriterLimit(s)
  {
    hide Low, Slot, Reserve, ConsOk, ReaderOk;
    if a.OfWriter() {
      match (a, s.writer)
      case (Open(n), Idle) =>
        ReserveExact(|s.slots|, s.Head(), s.Tail(), 0, s.prod, 1, n, 0);
      case (CommitStore, Committing(cur, done, loaded)) =>
        CursorKept(|s.slots|, s.Head(), done, cur);
        assert Apply(s, a).Head() == s.Head() + Moved(cur);
      case (CloseWriter, Writing(cur, done)) =>
        GiveBack(|s.slots|, s.Head(), s.Tail(), cur.buffers, cur.buffers, s.prod);
      case _ =>
    }
  }

  /**
   In every reachable state the writer's cached limit is the consumer head that its last refresh (action
   `last` of the run) loaded, plus the ring size; before any refresh (`last` is -1) it is the initial one.
   */
  lemma {:induction false} WriterLimitIsPast<T>(s0: State<T>, acts: seq<Action<T>>, last: int)
    requires Counters(s0) && LastOf(s0, acts, WriterRefreshes, last)
    ensures WriterLimit(Exec(s0, acts))
         == if last < 0 then WriterLimit(s0) else Exec(s0, acts[..last]).Tail() + |s0.slots|
    decreases |acts|
  {
    hide Apply, Exec, Counters, WriterRefreshes, WriterLimit, LastOf;
    HeadsInRange(s0);
    LastOfBounds(s0, acts, WriterRefreshes, last);
    if acts == [] {
    } else {
      var before, a := acts[..|acts| - 1], acts[|acts| - 1];
      assert before + [a] == acts;
      CountersAlways(s0, before);
      WriterLimitStep(Exec(s0, before), a);
      ExecStep(s0, before, a);
      LastOfNext(s0, before, a, WriterRefreshes, last);
      if last < |before| {
        WriterLimitIsPast(s0, before, last);
        assert last >= 0 ==> before[..last] == acts[..last];
      }
    }
  }

  lemma ReaderLimitStep<T>(s: State<T>, a: Action<T>)
    requires Counters(s)
    ensures ReaderLimit(Apply(s, a)) == if ReaderRefreshes(s, a) then s.Head() else ReaderLimit(s)
  {
    hide Low, Slot, Peek, ProdOk, WriterOk;
    if !a.OfWriter() {
      match (a, s.reader)
      case (PeekLoad(n), Resting) =>
        PeekExact(|s.slots|, s.Head(), s.Head(), s.Tail(), 0, s.cons, 1, n, 0);
      case (PeekRefresh, Peeking(n, first)) =>
        var f :| first == Low(f) && s.Tail() <= f <= s.Head() && ConsOk(f, s.Tail(), 0, s.cons);
        PeekExact(|s.slots|, f, s.Head(), s.Tail(), 0, s.cons, 1, n, 0);
      case (ReleaseStore, Releasing(cur, done, loaded)) =>
        CursorKept(|s.slots|, s.Tail(), done, cur);
        assert Apply(s, a).Tail() == s.Tail() + Moved(cur);
      case (CloseReader, Reading(cur, done)) =>
        GiveBackRead(|s.slots|, s.Head(), s.Tail(), cur.buffers, cur.buffers, s.cons);
      case _ =>
    }
  }

  /** The reader's cached limit is the producer head that the second load of its last refresh saw. */
  lemma {:induction false} ReaderLimitIsPast<T>(s0: State<T>, acts: seq<Action<T>>, last: int)
    requires Counters(s0) && LastOf(s0, acts, ReaderRefreshes, last)
    ensures ReaderLimit(Exec(s0, acts)) == if last < 0 then ReaderLimit(s0) else Exec(s0, acts[..last]).Head()
    decreases |acts|
  {
    hide Apply, Exec, Counters, ReaderRefreshes, ReaderLimit, LastOf;
    HeadsInRange(s0);
    LastOfBounds(s0, acts, ReaderRefreshes, last);
    if acts == [] {
    } else {
      var before, a := acts[..|acts| - 1], acts[|acts| - 1];
      assert before + [a] == acts;
      CountersAlways(s0, before);
      ReaderLimitStep(Exec(s0, before), a);
      ExecStep(s0, before, a);
      LastOfNext(s0, before, a, ReaderRefreshes, last);
      if last < |before| {
        ReaderLimitIsPast(s0, before, last);
        assert last >= 0 ==> before[..last] == acts[..last];
      }
    }
  }

  // ---------- Sessions open exactly when there is room, or an entry ----------

  /**
   `fill(n)` and `transmit(n)` get up to `n` of the entries that the cache shows free, or of all free ones
   if it shows none; so they get an empty session exactly when `n` is 0 or the ring is full.
   */
  lemma OpenGrants<T>(s: State<T>, n: U32)
    requires Counters(s) && s.writer.Idle?
    ensures var s' := Apply(s, Open(n));
            && s'.writer.Writing?
            && s'.writer.cur.remain == s'.writer.cur.buffers
            && s'.writer.cur.buffers
               == Min(n, if Cached(s.prod) >= 1 then Cached(s.prod) else |s.slots| - (s.Head() - s.Tail()))
            && (s'.writer.cur.buffers == 0 <==> n == 0 || s.Head() - s.Tail() == |s.slots|)
  {
    hide Low;
    ReserveExact(|s.slots|, s.Head(), s.Tail(), 0, s.prod, 1, n, 0);
  }

  /**
   `complete(n)` and `receive(n)` get up to `n` of the entries that the cache shows published, or of all
   that their first load shows if it shows none, whatever the writer does between the two loads; so they
   answer empty exactly when `n` is 0 or nothing was published at the first load.
   */
  lemma PeekGrants<T>(s: State<T>, n: U32, between: seq<Action<T>>)
    requires Counters(s) && s.reader.Resting? && forall a :: a in between ==> a.OfWriter()
    ensures var s' := Apply(Exec(Apply(s, PeekLoad(n)), between), PeekRefresh);
            && s'.reader.Reading?
            && s'.reader.cur.remain == s'.reader.cur.buffers
            && s'.reader.cur.buffers
               == Min(n, if Available(s.cons) >= 1 then Available(s.cons) else s.Head() - s.Tail())
            && (s'.reader.cur.buffers == 0 <==> n == 0 || s.Head() == s.Tail())
  {
    hide Low, Slot;
    var s1 := Apply(s, PeekLoad(n));
    ReaderKeepsCounters(s, PeekLoad(n));
    WriterRun(s1, between);
    var s2 := Exec(s1, between);
    PeekExact(|s.slots|, s.Head(), s.Head(), s.Tail(), 0, s.cons, 1, n, 0);
    PeekExact(|s.slots|, s.Head(), s2.Head(), s.Tail(), 0, s.cons, 1, n, 0);
  }

  lemma {:induction false} WriterRun<T>(s: State<T>, acts: seq<Action<T>>)
    requires Counters(s) && forall a :: a in acts ==> a.OfWriter()
    ensures var s' := Exec(s, acts);
            && Counters(s') && s'.Tail() == s.Tail() && s.Head() <= s'.Head()
            && s'.cons == s.cons && s'.reader == s.reader
  {
    if acts == [] {
    } else {
      var before, a := Exec(s, acts[..|acts| - 1]), acts[|acts| - 1];
      WriterRun(s, acts[..|acts| - 1]);
      WriterKeepsCounters(before, a);
      WriterHistory(before, a);
    }
  }
}
