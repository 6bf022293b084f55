/**
 What one call on a ring handle computes from its cached words and from the shared words it loads,
 what those results mean for the unbounded heads behind the words, and how the slot memory reads as
 a queue.
 */
module RingSpec {
  import opened Words

  /** The cached words of an `XskRing`; `size` and the shared words are passed beside it. */
  datatype Handle = Handle(cachedProducer: U32, cachedConsumer: U32)

  /** What `reserve` or `peek` grants: `count` entries from `base` on. */
  datatype Grant = Grant(handle: Handle, count: U32, base: U32)

  // ---------- Producer calls ----------

  function Cached(h: Handle): U32 { WrapSub(h.cachedConsumer, h.cachedProducer) }

  function CountFree(h: Handle, size: U32, minimum: U32, seen: U32): (Handle, U32) {
    if Cached(h) >= minimum then
      (h, Cached(h))
    else
      var h' := h.(cachedConsumer := WrapAdd(seen, size));
      (h', Cached(h'))
  }

  function Reserve(h: Handle, size: U32, start: U32, end: U32, idx: U32, seen: U32): Grant {
    var (h', free) := CountFree(h, size, start, seen);
    if free < start then
      Grant(h', 0, idx)
    else
      var n := Min(free, end);
      Grant(h'.(cachedProducer := WrapAdd(h'.cachedProducer, n)), n, h'.cachedProducer)
  }

  // ---------- Consumer calls ----------

  function Available(h: Handle): U32 { WrapSub(h.cachedProducer, h.cachedConsumer) }

  /** The count comes from the `first` load, the new cache from the `second`. */
  function CountAvailable(h: Handle, expected: U32, first: U32, second: U32): (Handle, U32) {
    if Available(h) >= expected then
      (h, Available(h))
    else
      (h.(cachedProducer := second), WrapSub(first, h.cachedConsumer))
  }

  function Peek(h: Handle, start: U32, end: U32, idx: U32, first: U32, second: U32): Grant {
    var (h', count) := CountAvailable(h, start, first, second);
    if count < start then
      Grant(h', 0, idx)
    else
      var n := Min(count, end);
      Grant(h'.(cachedConsumer := WrapAdd(h'.cachedConsumer, n)), n, h'.cachedConsumer)
  }

  // ---------- Meaning over unbounded heads ----------

  /**
   `head` entries were published and `tail` consumed so far, `held` more are reserved. The cached limit
   `head + held + Cached(h)` never exceeds `tail + size`, the end of the space that is really free.
   */
  ghost predicate ProdOk(size: U32, head: int, tail: int, held: int, h: Handle) {
    && 0 <= held
    && h.cachedProducer == Low(head + held)
    && head + held + Cached(h) <= tail + size
  }

  /** The cached limit `tail + held + Available(h)` never exceeds the entries really published. */
  ghost predicate ConsOk(head: int, tail: int, held: int, h: Handle) {
    && 0 <= held
    && h.cachedConsumer == Low(tail + held)
    && tail + held + Available(h) <= head
  }

  ghost predicate HeadsOk(size: U32, head: int, tail: int) { 0 <= tail <= head <= tail + size }

  /** `count_free` is exact over the unbounded heads and never promises an entry that is not free. */
  lemma CountFreeSound(size: U32, head: int, tail: int, held: int, h: Handle, minimum: U32)
    requires HeadsOk(size, head, tail) && ProdOk(size, head, tail, held, h)
    ensures var (h', free) := CountFree(h, size, minimum, Low(tail));
            && ProdOk(size, head, tail, held, h')
            && head + held + free == head + held + Cached(h') <= tail + size
            && (Cached(h) < minimum ==> head + held + free == tail + size)
            && (Cached(h) >= minimum ==> free == Cached(h) && h' == h)
            && h'.cachedConsumer == Low(head + held + free)
            && (free >= minimum <==> tail + size - head - held >= minimum)
  {
    hide Low;
    LowShift(tail, size);
    DistanceExact(tail + size, head + held);
    Offset(head + held, h.cachedConsumer);
  }

  /**
   No false full: a reservation of `start..=end` succeeds exactly when `start` entries are free behind
   the consumer word it loads. It then grants up to `end` of the entries that the cache shows, or, when the
   cache shows too few, of those that are free; what it does not grant stays cached.
   */
  lemma ReserveExact(size: U32, head: int, tail: int, held: int, h: Handle, start: U32, end: U32, idx: U32)
    requires HeadsOk(size, head, tail) && ProdOk(size, head, tail, held, h)
    ensures var g, free := Reserve(h, size, start, end, idx, Low(tail)), tail + size - head - held;
            && ProdOk(size, head, tail, held + g.count, g.handle)
            && g.count <= Min(end, free)
            && (start <= free ==> Min(start, end) <= g.count && g.base == Low(head + held))
            && (start > free ==> g.count == 0 && g.base == idx)
            && (Cached(h) < start <= free ==> g.count == Min(end, free))
            && (Cached(h) >= start ==> g.count == Min(end, Cached(h)))
            && g.count + Cached(g.handle) == if Cached(h) >= start then Cached(h) else free
  {
    hide Low;
    CountFreeSound(size, head, tail, held, h, start);
    var (h', free) := CountFree(h, size, start, Low(tail));
    var n := Min(free, end);
    LowShift(head + held, n);
    DistanceExact(head + held + free, head + held + n);
  }

  lemma ConsOkLater(head: int, later: int, tail: int, held: int, h: Handle)
    requires ConsOk(head, tail, held, h) && head <= later
    ensures ConsOk(later, tail, held, h) && tail + held <= head
  {
  }

  /**
   Two loads with the peer running in between: `first` heads published at the relaxed load, `head` at
   the acquire load. The count covers what the first load saw, the cache what the second saw.
   */
  lemma CountAvailableSound(size: U32, first: int, head: int, tail: int, held: int, h: Handle, expected: U32)
    requires HeadsOk(size, first, tail) && HeadsOk(size, head, tail) && first <= head
    requires ConsOk(first, tail, held, h)
    ensures var (h', count) := CountAvailable(h, expected, Low(first), Low(head));
            && ConsOk(head, tail, held, h')
            && count <= Available(h')
            && tail + held + count <= first
            && (Available(h) >= expected ==> count == Available(h) && h' == h)
            && (Available(h) < expected ==> tail + held + count == first
                                            && tail + held + Available(h') == head)
            && (count >= expected <==> first - tail - held >= expected)
  {
    hide Low;
    DistanceExact(first, tail + held);
    DistanceExact(head, tail + held);
  }

  /**
   No false empty: a peek of `start..=end` succeeds exactly when the first load shows `start` entries. It
   then grants up to `end` of the entries that the cache shows, or, when the cache shows too few, of those
   that the first load shows; the cache keeps the rest, and what the second load shows.
   */
  lemma PeekExact(size: U32, first: int, head: int, tail: int, held: int, h: Handle, start: U32, end: U32, idx: U32)
    requires HeadsOk(size, first, tail) && HeadsOk(size, head, tail) && first <= head
    requires ConsOk(first, tail, held, h)
    ensures var g, ready := Peek(h, start, end, idx, Low(first), Low(head)), first - tail - held;
            && ConsOk(head, tail, held + g.count, g.handle)
            && g.count <= Min(end, ready)
            && (start <= ready ==> Min(start, end) <= g.count && g.base == Low(tail + held))
            && (start > ready ==> g.count == 0 && g.base == idx)
            && (Available(h) < start <= ready ==> g.count == Min(end, ready))
            && (Available(h) >= start ==> g.count == Min(end, Available(h)))
            && g.count + Available(g.handle) == if Available(h) >= start then Available(h) else head - tail - held
  {
    hide Low;
    CountAvailableSound(size, first, head, tail, held, h, start);
    var (h', count) := CountAvailable(h, start, Low(first), Low(head));
    var n := Min(count, end);
    var limit := tail + held + Available(h');
    LowShift(tail + held, n);
    Offset(tail + held, h'.cachedProducer);
    DistanceExact(limit, tail + held + n);
  }

  /** Cancelling entries returns them to the cached count. */
  lemma GiveBack(size: U32, head: int, tail: int, held: int, nb: U32, h: Handle)
    requires HeadsOk(size, head, tail) && ProdOk(size, head, tail, held, h) && nb <= held
    ensures var h' := h.(cachedProducer := WrapSub(h.cachedProducer, nb));
            ProdOk(size, head, tail, held - nb, h') && Cached(h') == nb + Cached(h)
  {
    hide Low;
    Offset(head + held, h.cachedConsumer);
    LowShift(head + held, nb);
    DistanceExact(head + held + Cached(h), head + held - nb);
  }

  lemma GiveBackRead(size: U32, head: int, tail: int, held: int, nb: U32, h: Handle)
    requires HeadsOk(size, head, tail) && ConsOk(head, tail, held, h) && nb <= held
    ensures var h' := h.(cachedConsumer := WrapSub(h.cachedConsumer, nb));
            ConsOk(head, tail, held - nb, h') && Available(h') == nb + Available(h)
  {
    hide Low;
    Offset(tail + held, h.cachedProducer);
    LowShift(tail + held, nb);
    DistanceExact(tail + held + Available(h), tail + held - nb);
  }

  /** `XskRing::new` copies both shared words. */
  function NewHandle(producer: U32, consumer: U32): Handle { Handle(producer, consumer) }

  /**
   A producer ring must be mapped while its heads are equal: otherwise the very first `count_free(1)`
   promises more than is free. A consumer ring may be mapped at any time, and then sees all that is
   published.
   */
  lemma MappingPrecondition(size: U32, head: int, tail: int)
    requires PowerOfTwo(size) && HeadsOk(size, head, tail)
    ensures var h := NewHandle(Low(head), Low(tail));
            && (ProdOk(size, head, tail, 0, h) <==> head == tail)
            && (CountFree(h, size, 1, Low(tail)).1 <= tail + size - head <==> head == tail)
            && ConsOk(head, tail, 0, h) && Available(h) == head - tail
  {
    hide Low;
    PowerBounds(size);
    DistanceExact(head, tail);
    DistanceExact(tail + size, head);
    LowShift(tail, size);
    if tail < head {
      Wraparound(tail);
      DistanceExact(tail + MODULUS, head);
    }
  }

  // ---------- The cursor of a session ----------

  /** `BufIdxIter`. */
  datatype Cursor = Cursor(base: U32, buffers: U32, remain: U32)

  function Moved(c: Cursor): U32 { WrapSub(c.buffers, c.remain) }

  function NextCursor(c: Cursor): Cursor {
    if c.remain == 0 then c else Cursor(WrapAdd(c.base, 1), c.buffers, c.remain - 1)
  }

  /** The cursor after `commit_prod` or `release_cons`. */
  function CommitCursor(c: Cursor): Cursor {
    if c.buffers == 0 then c
    else Cursor(WrapAdd(c.base, Moved(c)), WrapSub(c.buffers, Moved(c)), c.remain)
  }

  /** What `commit_prod` or `release_cons` moves the head by. */
  function Advance(c: Cursor): U32 { if c.buffers == 0 then 0 else Moved(c) }

  /**
   `own` is the unbounded head that this session advances and `done` what it advanced it by so far. A
   commit moves `base` a second time, so `base` runs `done` ahead of the entry that is next in order.
   */
  ghost predicate CursorOk(size: U32, own: int, done: int, c: Cursor) {
    && 0 <= done
    && c.remain <= c.buffers
    && done + c.buffers <= size
    && (done + c.buffers > 0 ==> c.base == Low(own + done + c.buffers - c.remain))
  }

  lemma CursorKept(size: U32, own: int, done: int, c: Cursor)
    requires CursorOk(size, own, done, c)
    ensures CursorOk(size, own, done, NextCursor(c))
    ensures Moved(c) == Advance(c) == c.buffers - c.remain
    ensures CursorOk(size, own + Moved(c), done + Moved(c), CommitCursor(c))
    ensures CommitCursor(c).buffers == c.buffers - Moved(c) == CommitCursor(c).remain
  {
    hide Low;
    WrapSubSmall(c.buffers, c.remain);
    if c.buffers > 0 {
      WrapSubSmall(c.buffers, Moved(c));
      LowShift(own + done + c.buffers - c.remain, 1);
      LowShift(own + done + c.buffers - c.remain, Moved(c));
    }
  }

  /**
   Exact scope of slot agreement: the index handed out next selects the slot that the next commit
   publishes (or the next release frees) exactly when the session has not advanced the head yet.
   */
  lemma SlotAgreement(size: U32, own: nat, done: int, c: Cursor)
    requires PowerOfTwo(size) && CursorOk(size, own, done, c) && c.remain > 0
    ensures Slot(c.base, size) == Slot(Low(own + Moved(c)), size) <==> done == 0
  {
    hide Low, Slot;
    CursorKept(size, own, done, c);
    SlotsDistinct(own + Moved(c), own + Moved(c) + done, size);
  }
}

/** The slot memory read as a sequence of entries. */
module Window {
  import opened Words

  /** The `k` entries from index `start` on. */
  ghost function Span<T>(slots: seq<T>, start: int, k: nat): (r: seq<T>)
    requires 0 < |slots| < MODULUS
    ensures |r| == k
  {
    seq(k, j requires 0 <= j < k => slots[Slot(Low(start + j), |slots|)])
  }

  /** The published and not yet consumed entries, addressed by the two shared words alone. */
  ghost function Queue<T>(slots: seq<T>, producer: U32, consumer: U32): seq<T>
    requires 0 < |slots| < MODULUS
  {
    Span(slots, consumer, WrapSub(producer, consumer))
  }

  /** A queue after its consumer took the `dropped` oldest entries and its producer appended `added`. */
  ghost predicate Shifted<T>(before: seq<T>, after: seq<T>, dropped: int, added: seq<T>) {
    0 <= dropped <= |before| && after == before[dropped..] + added
  }

  /** A queue after its consumer took its oldest entries, `taken`, whatever its producer appended. */
  ghost predicate Drained<T>(before: seq<T>, after: seq<T>, taken: seq<T>) {
    before <= taken + after && |taken| <= |before|
  }

  lemma NothingTaken<T>(q: seq<T>, taken: seq<T>)
    requires taken == []
    ensures Drained(q, q, taken)
  {
    assert taken + q == q;
  }

  lemma NothingAdded<T>(q: seq<T>, added: seq<T>)
    requires added == []
    ensures Shifted(q, q, 0, added)
  {
  }

  /** As many entries as were taken, known to be the oldest, are the ones taken. */
  lemma OldestTaken<T>(before: seq<T>, after: seq<T>, taken: seq<T>, oldest: seq<T>)
    requires Drained(before, after, taken) && oldest <= before && |oldest| == |taken|
    ensures oldest == taken
  {
    assert taken == (taken + after)[..|taken|] == before[..|taken|];
  }

  lemma ShiftedAgain<T>(q0: seq<T>, q1: seq<T>, q2: seq<T>, i: int, j: int, added: seq<T>)
    requires Shifted(q0, q1, i, []) && Shifted(q1, q2, j, added)
    ensures Shifted(q0, q2, i + j, added)
  {
  }

  lemma SpanOfWord<T>(slots: seq<T>, start: int, k: nat)
    requires 0 < |slots| < MODULUS
    ensures Span(slots, Low(start), k) == Span(slots, start, k)
  {
    hide Low;
    forall j | 0 <= j < k
      ensures Span(slots, Low(start), k)[j] == Span(slots, start, k)[j]
    {
      LowShift(start, j);
    }
  }

  lemma SpanSplit<T>(slots: seq<T>, start: int, k: nat, l: nat)
    requires 0 < |slots| < MODULUS
    ensures Span(slots, start, k + l) == Span(slots, start, k) + Span(slots, start + k, l)
  {
    hide Low;
    var whole, parts := Span(slots, start, k + l), Span(slots, start, k) + Span(slots, start + k, l);
    forall i | 0 <= i < k + l
      ensures whole[i] == parts[i]
    {
      if i >= k {
        assert start + i == (start + k) + (i - k);
      }
    }
  }

  lemma SpanNext<T>(slots: seq<T>, start: int, k: nat)
    requires 0 < |slots| < MODULUS
    ensures Span(slots, start, k + 1) == Span(slots, start, k) + [slots[Slot(Low(start + k), |slots|)]]
  {
    SpanSplit(slots, start, k, 1);
  }

  /** Writing at an index outside a window of the ring leaves the window as it was. */
  lemma SpanKept<T>(slots: seq<T>, start: nat, k: nat, n: nat, x: T)
    requires |slots| < MODULUS && PowerOfTwo(|slots|)
    requires start + k <= n < start + |slots|
    ensures Span(slots[Slot(Low(n), |slots|) := x], start, k) == Span(slots, start, k)
  {
    hide Low, Slot;
    forall j | 0 <= j < k
      ensures Span(slots[Slot(Low(n), |slots|) := x], start, k)[j] == Span(slots, start, k)[j]
    {
      SlotsDistinct(start + j, n, |slots|);
    }
  }

  /** Writing just past a window appends to it. */
  lemma SpanGrown<T>(slots: seq<T>, start: nat, k: nat, x: T)
    requires |slots| < MODULUS && PowerOfTwo(|slots|)
    requires k < |slots|
    ensures Span(slots[Slot(Low(start + k), |slots|) := x], start, k + 1) == Span(slots, start, k) + [x]
  {
    hide Low, Slot;
    SpanKept(slots, start, k, start + k, x);
    SpanNext(slots[Slot(Low(start + k), |slots|) := x], start, k);
  }

  lemma QueueEntry<T>(slots: seq<T>, head: nat, tail: nat, i: nat)
    requires 0 < |slots| < MODULUS
    requires tail + i < head <= tail + |slots|
    ensures |Queue(slots, Low(head), Low(tail))| == head - tail
    ensures Queue(slots, Low(head), Low(tail))[i] == slots[Slot(Low(tail + i), |slots|)]
  {
    hide Low, Slot, Queue;
    QueueOfHeads(slots, head, tail);
  }

  lemma QueueConsumed<T>(slots: seq<T>, head: nat, tail: nat, k: nat)
    requires 0 < |slots| < MODULUS
    requires tail + k <= head <= tail + |slots|
    ensures Shifted(Queue(slots, Low(head), Low(tail)), Queue(slots, Low(head), Low(tail + k)), k, [])
    ensures Queue(slots, Low(head), Low(tail)) == Span(slots, tail, k) + Queue(slots, Low(head), Low(tail + k))
  {
    hide Low, Span, Queue;
    QueueOfHeads(slots, head, tail);
    QueueOfHeads(slots, head, tail + k);
    SpanSplit(slots, tail, k, head - tail - k);
  }

  lemma QueuePublished<T>(slots: seq<T>, head: nat, tail: nat, k: nat)
    requires 0 < |slots| < MODULUS
    requires tail <= head && head + k <= tail + |slots|
    ensures Shifted(Queue(slots, Low(head), Low(tail)), Queue(slots, Low(head + k), Low(tail)), 0, Span(slots, head, k))
  {
    hide Low, Span, Queue;
    QueueOfHeads(slots, head, tail);
    QueueOfHeads(slots, head + k, tail);
    SpanSplit(slots, tail, head - tail, k);
  }

  /** Writing a free slot, `n` past the tail by less than the size, does not touch the queue. */
  lemma QueueKept<T>(slots: seq<T>, head: nat, tail: nat, n: nat, x: T)
    requires |slots| < MODULUS && PowerOfTwo(|slots|)
    requires tail <= head <= n < tail + |slots|
    ensures Queue(slots[Slot(Low(n), |slots|) := x], Low(head), Low(tail)) == Queue(slots, Low(head), Low(tail))
  {
    hide Low, Span, Queue, Slot;
    QueueOfHeads(slots, head, tail);
    QueueOfHeads(slots[Slot(Low(n), |slots|) := x], head, tail);
    SpanKept(slots, tail, head - tail, n, x);
  }

  /** The slots after `items` were written one by one at consecutive indices from `base` on. */
  ghost function Filled<T>(slots: seq<T>, base: int, items: seq<T>): (r: seq<T>)
    requires 0 < |slots| < MODULUS
    ensures |r| == |slots|
  {
    if items == [] then slots
    else
      var n := |items| - 1;
      Filled(slots, base, items[..n])[Slot(Low(base + n), |slots|) := items[n]]
  }

  lemma FilledNext<T>(slots: seq<T>, base: int, items: seq<T>, x: T)
    requires 0 < |slots| < MODULUS
    ensures Filled(slots, base, items + [x])
         == Filled(slots, base, items)[Slot(Low(base + |items|), |slots|) := x]
  {
    hide Low, Slot;
    assert (items + [x])[..|items|] == items;
  }

  /** Written behind a window, the items extend it in order. */
  lemma {:induction false} FilledExtends<T>(slots: seq<T>, start: nat, k: nat, items: seq<T>)
    requires |slots| < MODULUS && PowerOfTwo(|slots|) && 0 < |slots|
    requires k + |items| <= |slots|
    ensures Span(Filled(slots, start + k, items), start, k + |items|) == Span(slots, start, k) + items
    decreases |items|
  {
    hide Low, Slot, Span;
    if items == [] {
      assert Span(slots, start, k) + items == Span(slots, start, k);
    } else {
      var n := |items| - 1;
      FilledExtends(slots, start, k, items[..n]);
      SpanGrown(Filled(slots, start + k, items[..n]), start, k + n, items[n]);
      assert Span(slots, start, k) + items[..n] + [items[n]] == Span(slots, start, k) + items;
    }
  }

  /** Every window that the written indices stay clear of, within one ring, is unchanged. */
  lemma {:induction false} FilledKeeps<T>(slots: seq<T>, start: nat, k: nat, base: nat, items: seq<T>)
    requires |slots| < MODULUS && PowerOfTwo(|slots|) && 0 < |slots|
    requires start + k <= base && base + |items| <= start + |slots|
    ensures Span(Filled(slots, base, items), start, k) == Span(slots, start, k)
    decreases |items|
  {
    hide Low, Slot, Span;
    if items == [] {
    } else {
      var n := |items| - 1;
      FilledKeeps(slots, start, k, base, items[..n]);
      SpanKept(Filled(slots, base, items[..n]), start, k, base + n, items[n]);
    }
  }

  lemma {:induction false} FilledOfWord<T>(slots: seq<T>, base: int, items: seq<T>)
    requires 0 < |slots| < MODULUS
    ensures Filled(slots, Low(base), items) == Filled(slots, base, items)
    decreases |items|
  {
    hide Low, Slot;
    if items == [] {
    } else {
      FilledOfWord(slots, base, items[..|items| - 1]);
      LowShift(base, |items| - 1);
    }
  }

  /** Items placed behind the published entries leave the queue alone, while the consumer drains it. */
  lemma FilledBehindQueue<T>(slots: seq<T>, head: nat, tail: nat, drained: nat, base: nat, items: seq<T>)
    requires |slots| < MODULUS && PowerOfTwo(|slots|) && 0 < |slots|
    requires tail + drained <= head <= base && base + |items| <= tail + |slots|
    ensures Shifted(Queue(slots, Low(head), Low(tail)),
                    Queue(Filled(slots, Low(base), items), Low(head), Low(tail + drained)), drained, [])
  {
    hide Low, Slot, Span, Queue, Filled, Shifted;
    var filled := Filled(slots, base, items);
    FilledOfWord(slots, base, items);
    FilledKeeps(slots, tail, head - tail, base, items);
    QueueOfHeads(slots, head, tail);
    QueueOfHeads(filled, head, tail);
    QueueConsumed(filled, head, tail, drained);
  }

  /** The queue of the shared words is the window between the unbounded heads. */
  lemma QueueOfHeads<T>(slots: seq<T>, head: nat, tail: nat)
    requires 0 < |slots| < MODULUS
    requires tail <= head <= tail + |slots|
    ensures Queue(slots, Low(head), Low(tail)) == Span(slots, tail, head - tail)
  {
    hide Low;
    DistanceExact(head, tail);
    SpanOfWord(slots, tail, head - tail);
  }
}
