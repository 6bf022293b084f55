/**
 The sessions on a ring: `WriteFill` and `WriteTx` (one body over the entry type, here `WriteSession`),
 `ReadComplete` and `ReadRx` (`ReadSession`), and the index iterator all four share.
 */
module User {
  import opened Options
  import opened Words
  import opened RingSpec
  import opened Window
  import opened Ring

  /** What a session on a sound idle handle can get: what the cache shows free, or all that is free if none. */
  function FreeNow(size: U32, head: int, tail: int, h: Handle): int {
    if Cached(h) >= 1 then Cached(h) else size - (head - tail)
  }

  /** The same for a reader: what the cache shows, or all that the load saw, up to `first`. */
  function ReadyNow(first: int, tail: int, h: Handle): int {
    if Available(h) >= 1 then Available(h) else first - tail
  }

  class BufIdxIter {
    var base: U32
    var buffers: U32
    var remain: U32

    function Cursor(): Cursor
      reads this
    {
      RingSpec.Cursor(base, buffers, remain)
    }

    constructor (base: U32, buffers: U32)
      ensures Cursor() == RingSpec.Cursor(base, buffers, buffers)
    {
      this.base, this.buffers, this.remain := base, buffers, buffers;
    }

    method Next() returns (idx: Option<U32>)
      modifies this
      ensures Cursor() == NextCursor(old(Cursor()))
      ensures idx == if old(remain) == 0 then None else Some(old(base))
    {
      if remain == 0 {
        return None;
      }
      remain := remain - 1;
      idx := Some(base);
      base := WrapAdd(base, 1);
    }

    /** On any handle, the cursor covers what the ring grants; on a sound one, that is what is free. */
    static method Reserve<T(0)>(queue: RingProd<T>, n: U32) returns (it: BufIdxIter)
      requires queue.Mapped()
      modifies queue, queue.ring`consumer, queue.ring`tail
      ensures fresh(it) && queue.Mapped() && it.remain == it.buffers
      ensures old(queue.ring.tail) <= queue.ring.tail
      ensures Shifted(old(queue.ring.Live()), queue.ring.Live(), queue.ring.tail - old(queue.ring.tail), [])
      ensures Grant(queue.Handle(), it.buffers, it.base)
           == RingSpec.Reserve(old(queue.Handle()), queue.size, 1, n, 0, queue.ring.consumer)
      ensures queue.held == old(queue.held) + it.buffers
      ensures old(queue.Valid() && queue.held == 0) ==>
        && queue.Valid()
        && CursorOk(queue.size, queue.ring.head, 0, it.Cursor())
        && it.buffers == Min(n, FreeNow(queue.size, queue.ring.head, queue.ring.tail, old(queue.Handle())))
        && it.buffers <= queue.size - (queue.ring.head - queue.ring.tail)
        && (it.buffers == 0 <==> n == 0 || queue.ring.head - queue.ring.tail == queue.size)
    {
      hide Low, Slot, Queue, Shifted, ProdOk, PowerOfTwo, WrapAdd, WrapSub, RingSpec.Reserve;
      var buffers, base := queue.Reserve(1, n, 0);
      it := new BufIdxIter(base, buffers);
    }

    static method Peek<T(0)>(queue: RingCons<T>, n: U32) returns (it: BufIdxIter, ghost first: nat)
      requires queue.Valid() && queue.held == 0
      modifies queue, queue.ring`producer, queue.ring`head, queue.ring.slots
      ensures fresh(it) && queue.Valid() && queue.held == it.buffers == it.remain
      ensures old(queue.ring.head) <= first <= queue.ring.head
      ensures old(queue.ring.Live()) <= queue.ring.Live()
      ensures CursorOk(queue.size, queue.ring.tail, 0, it.Cursor())
      ensures it.buffers == Min(n, ReadyNow(first, queue.ring.tail, old(queue.Handle()))) <= first - queue.ring.tail
      ensures it.buffers == 0 <==> n == 0 || first == queue.ring.tail
    {
      hide Low, Slot, Queue, ConsOk, PowerOfTwo, WrapAdd, WrapSub;
      var buffers, base;
      buffers, base, first := queue.Peek(1, n, 0);
      it := new BufIdxIter(base, buffers);
    }

    /**
     Publishes `Advance` of the cursor. Of entries that a sound handle holds, the queue grows by exactly
     the slots behind the head; without them the words and the cursor still move as stated.
     */
    method CommitProd<T(0)>(queue: RingProd<T>)
      requires queue.Linked()
      modifies this, queue`held, queue.ring
      ensures Cursor() == CommitCursor(old(Cursor()))
      ensures queue.ring.head == old(queue.ring.head + Advance(Cursor()))
      ensures queue.held == old(queue.held - Advance(Cursor()))
      ensures queue.ring.producer == Low(queue.ring.head)
      ensures queue.cachedProducer == Low(queue.ring.head + queue.held)
      ensures old(queue.ring.tail) <= queue.ring.tail <= old(queue.ring.head)
      ensures queue.ring.consumer == Low(queue.ring.tail)
      ensures old(queue.Valid() && Advance(Cursor()) <= queue.held) ==>
        && queue.Valid()
        && Shifted(old(queue.ring.Live()), queue.ring.Live(), queue.ring.tail - old(queue.ring.tail),
                   Span(queue.ring.slots[..], old(queue.ring.head), old(Advance(Cursor()))))
    {
      hide Low, Queue, Slot, WrapAdd, WrapSub, Shifted, Span, ProdOk, HeadsOk, PowerOfTwo, RingProd.Valid;
      if buffers > 0 {
        var count := WrapSub(buffers, remain);
        queue.Submit(count);
        buffers := WrapSub(buffers, count);
        base := WrapAdd(base, count);
      } else {
        NothingAdded(queue.ring.Live(), Span(queue.ring.slots[..], queue.ring.head, 0));
      }
    }

    /**
     Releases `Advance` of the cursor. Of entries that a sound handle holds, exactly the oldest leave the
     queue; without them the words and the cursor still move as stated.
     */
    method ReleaseCons<T(0)>(queue: RingCons<T>)
      requires queue.Linked()
      modifies this, queue`held, queue.ring, queue.ring.slots
      ensures Cursor() == CommitCursor(old(Cursor()))
      ensures queue.ring.tail == old(queue.ring.tail + Advance(Cursor()))
      ensures queue.held == old(queue.held - Advance(Cursor()))
      ensures queue.ring.consumer == Low(queue.ring.tail)
      ensures queue.cachedConsumer == Low(queue.ring.tail + queue.held)
      ensures old(queue.ring.head) <= queue.ring.head <= old(queue.ring.tail) + queue.size
      ensures queue.ring.producer == Low(queue.ring.head)
      ensures old(queue.Valid() && Advance(Cursor()) <= queue.held) ==>
        && queue.Valid()
        && Drained(old(queue.ring.Live()), queue.ring.Live(),
                   Span(queue.ring.slots[..], old(queue.ring.tail), old(Advance(Cursor()))))
    {
      hide Low, Queue, Slot, WrapAdd, WrapSub, Drained, Span, ConsOk, PowerOfTwo, RingCons.Valid;
      if buffers > 0 {
        var count := WrapSub(buffers, remain);
        queue.Release(count);
        buffers := WrapSub(buffers, count);
        base := WrapAdd(base, count);
      } else {
        NothingTaken(queue.ring.Live(), Span(queue.ring.slots[..], queue.ring.tail, 0));
      }
    }
  }

  /** Any Rust iterator over entries, finite or not, seen through its `next`. */
  class ItemSource<T> {
    const at: nat -> T
    const length: Option<nat>
    var pos: nat

    constructor (at: nat -> T, length: Option<nat>)
      ensures this.at == at && this.length == length && pos == 0
    {
      this.at, this.length, pos := at, length, 0;
    }

    /** How many of `k` polls from position `from` on yield an item. */
    function Supply(from: nat, k: nat): nat {
      match length
      case None => k
      case Some(l) => if l <= from then 0 else Min(k, l - from)
    }

    /** The `k` items from position `from` on. */
    function Items(from: nat, k: nat): (r: seq<T>)
      ensures |r| == k
    {
      seq(k, i requires 0 <= i < k => at(from + i))
    }

    lemma ItemsNext(from: nat, k: nat)
      ensures Items(from, k + 1) == Items(from, k) + [at(from + k)]
    {
    }

    method Poll() returns (item: Option<T>)
      modifies this
      ensures pos == old(pos) + Supply(old(pos), 1)
      ensures item == if Supply(old(pos), 1) == 1 then Some(at(old(pos))) else None
    {
      if length.Some? && length.value <= pos {
        return None;
      }
      item := Some(at(pos));
      pos := pos + 1;
    }
  }

  /** `WriteFill` and `WriteTx`. `done` and `inserted` record what it published and what it will publish. */
  class WriteSession<T(0)> {
    const idx: BufIdxIter
    const queue: RingProd<T>
    ghost var done: nat
    ghost var inserted: seq<T>

    ghost predicate Valid()
      reads this, idx, queue, queue.ring, queue.ring.slots
    {
      && queue.Valid() && queue.held == idx.buffers
      && CursorOk(queue.size, queue.ring.head, done, idx.Cursor())
      && |inserted| == idx.buffers - idx.remain
      && (done == 0 ==> Span(queue.ring.slots[..], queue.ring.head, |inserted|) == inserted)
    }

    /** `DeviceQueue::fill` and `RingTx::transmit`, on any handle; a sound one gives a sound session. */
    constructor (queue: RingProd<T>, n: U32)
      requires queue.Mapped()
      modifies queue, queue.ring`consumer, queue.ring`tail
      ensures fresh(idx) && this.queue == queue && queue.Mapped() && done == 0 && inserted == []
      ensures old(queue.ring.tail) <= queue.ring.tail
      ensures Shifted(old(queue.ring.Live()), queue.ring.Live(), queue.ring.tail - old(queue.ring.tail), [])
      ensures idx.remain == idx.buffers && queue.held == old(queue.held) + idx.buffers
      ensures Grant(queue.Handle(), idx.buffers, idx.base)
           == RingSpec.Reserve(old(queue.Handle()), queue.size, 1, n, 0, queue.ring.consumer)
      ensures old(queue.Valid() && queue.held == 0) ==>
        && Valid()
        && idx.buffers == Min(n, FreeNow(queue.size, queue.ring.head, queue.ring.tail, old(queue.Handle())))
        && idx.buffers <= queue.size - (queue.ring.head - queue.ring.tail)
        && (idx.buffers == 0 <==> n == 0 || queue.ring.head - queue.ring.tail == queue.size)
    {
      hide Low, Slot, Queue, Shifted, PowerOfTwo, RingSpec.Reserve;
      var it := BufIdxIter.Reserve(queue, n);
      this.queue, idx, done, inserted := queue, it, 0, [];
    }

    /** One round of `insert`: `next` of the zipped iterator, which polls the source first, and the write. */
    method Step(source: ItemSource<T>) returns (placed: bool)
      requires Valid()
      modifies this, idx, source, queue.ring`consumer, queue.ring`tail, queue.ring.slots
      ensures Valid() && done == old(done)
      ensures placed == (source.Supply(old(source.pos), 1) == 1 && old(idx.remain) > 0)
      ensures source.pos == old(source.pos) + source.Supply(old(source.pos), 1)
      ensures !placed ==> idx.Cursor() == old(idx.Cursor()) && inserted == old(inserted)
                          && queue.ring.slots[..] == old(queue.ring.slots[..])
      ensures placed ==> idx.Cursor() == NextCursor(old(idx.Cursor()))
                         && inserted == old(inserted) + [source.at(old(source.pos))]
                         && queue.ring.slots[..]
                            == old(queue.ring.slots[..])[Slot(old(idx.base), queue.size) := source.at(old(source.pos))]
      ensures old(queue.ring.tail) <= queue.ring.tail && queue.ring.Valid()
    {
      ghost var c0 := idx.Cursor();
      hide Low, Slot, Span, Queue, Shifted, CursorOk, PowerOfTwo;
      CursorKept(queue.size, queue.ring.head, done, c0);
      var item := source.Poll();
      if item.None? {
        return false;
      }
      var bufidx := idx.Next();
      if bufidx.None? {
        return false;
      }
      queue.ring.KernelConsumes();
      NextPlace(queue.ring.slots[..], queue.ring.head, done, c0, inserted, item.value);
      queue.ring.slots[queue.Entry(bufidx.value)] := item.value;
      inserted := inserted + [item.value];
      placed := true;
    }

    /** The loop of `insert`. */
    method Fill(source: ItemSource<T>) returns (n: U32)
      requires Valid()
      modifies this, idx, source, queue.ring`consumer, queue.ring`tail, queue.ring.slots
      ensures Valid() && done == old(done) && queue.ring.Valid() && old(queue.ring.tail) <= queue.ring.tail
      ensures n == source.Supply(old(source.pos), old(idx.remain))
      ensures source.pos == old(source.pos) + source.Supply(old(source.pos), old(idx.remain) + 1)
      ensures inserted == old(inserted) + source.Items(old(source.pos), n)
      ensures Placed(old(queue.ring.slots[..]), old(idx.Cursor()), source.Items(old(source.pos), n),
                     queue.ring.slots[..], idx.Cursor())
    {
      ghost var slots0, c0, pos0 := queue.ring.slots[..], idx.Cursor(), source.pos;
      NothingPlaced(slots0, c0);
      n := 0;
      assert source.Items(pos0, 0) == [];
      assert queue.ring.slots.Length == queue.size && queue.size > 0;
      hide Low, Slot, Span, Queue, Placed, NextCursor, ItemSource.Items, WriteSession.Valid, RingProd.Valid;
      while true
        invariant Valid() && done == old(done)
        invariant n == source.Supply(pos0, n) && source.pos == pos0 + n
        invariant n + idx.remain == c0.remain
        invariant inserted == old(inserted) + source.Items(pos0, n)
        invariant Placed(slots0, c0, source.Items(pos0, n), queue.ring.slots[..], idx.Cursor())
        invariant old(queue.ring.tail) <= queue.ring.tail && queue.ring.Valid()
        decreases idx.remain
      {
        source.ItemsNext(pos0, n);
        if idx.remain > 0 {
          PlacedNext(slots0, c0, source.Items(pos0, n), queue.ring.slots[..], idx.Cursor(), source.at(pos0 + n));
        }
        var placed := Step(source);
        if !placed {
          break;
        }
        n := n + 1;
      }
    }

    /**
     Takes the longest prefix of the source that fits: its first `remain` items go, in order, to the
     slots of consecutive indices, and no other slot changes. Exactly when the source still holds more
     items than slots remain, one item is polled and lost. In an orderly session no live entry is touched.
     */
    method Insert(source: ItemSource<T>) returns (n: U32)
      requires Valid()
      modifies this, idx, source, queue.ring`consumer, queue.ring`tail, queue.ring.slots
      ensures Valid() && done == old(done) && old(queue.ring.tail) <= queue.ring.tail
      ensures n == source.Supply(old(source.pos), old(idx.remain))
      ensures source.pos == old(source.pos) + source.Supply(old(source.pos), old(idx.remain) + 1)
      ensures source.pos == old(source.pos) + n
         <==> source.Supply(old(source.pos), old(idx.remain) + 1) <= old(idx.remain)
      ensures source.length.None? ==> n == old(idx.remain) && source.pos == old(source.pos) + n + 1
      ensures source.length.Some? ==>
        var left := if source.length.value <= old(source.pos) then 0 else source.length.value - old(source.pos);
        && n == Min(old(idx.remain), left)
        && source.pos == old(source.pos) + Min(old(idx.remain) + 1, left)
      ensures inserted == old(inserted) + source.Items(old(source.pos), n)
      ensures idx.Cursor() == RingSpec.Cursor(WrapAdd(old(idx.base), n), old(idx.buffers), old(idx.remain) - n)
      ensures queue.ring.slots[..]
           == Filled(old(queue.ring.slots[..]), old(idx.base), source.Items(old(source.pos), n))
      ensures done == 0 ==>
        Shifted(old(queue.ring.Live()), queue.ring.Live(), queue.ring.tail - old(queue.ring.tail), [])
    {
      ghost var slots0, c0, tail0 := queue.ring.slots[..], idx.Cursor(), queue.ring.tail;
      hide Low, Slot, Span, Queue, Filled, Shifted, CursorOk, ItemSource.Items;
      n := Fill(source);
      PlacedBehind(slots0, queue.ring.head, tail0, queue.ring.tail - tail0, done, c0, source.Items(old(source.pos), n));
    }

    /** Succeeds exactly while slots remain; so before any commit exactly `capacity` calls succeed. */
    method InsertOnce(nr: T) returns (ok: bool)
      requires Valid()
      modifies this, idx, queue.ring`consumer, queue.ring`tail, queue.ring.slots
      ensures Valid() && done == old(done)
      ensures ok == (old(idx.remain) > 0)
      ensures idx.buffers == old(idx.buffers) && idx.remain == old(idx.remain) - (if ok then 1 else 0)
      ensures inserted == old(inserted) + (if ok then [nr] else [])
      ensures old(queue.ring.tail) <= queue.ring.tail
      ensures done == 0 ==>
        Shifted(old(queue.ring.Live()), queue.ring.Live(), queue.ring.tail - old(queue.ring.tail), [])
    {
      var source := new ItemSource(_ => nr, Some(1));
      assert source.Items(0, 0) == [] && source.Items(0, 1) == [nr];
      hide Low, Slot, Span, Filled, CursorOk, WriteSession.Valid, RingProd.Valid, ItemSource.Items;
      var n := Insert(source);
      ok := n > 0;
    }

    /**
     Publishes exactly the items inserted since the last commit: in the documented workflow, one commit
     per session, they appear in order at the end of the queue that the kernel drains.
     */
    method Commit()
      requires Valid()
      modifies this, idx, queue`held, queue.ring
      ensures Valid() && inserted == []
      ensures done == old(done) + |old(inserted)|
      ensures queue.ring.head == old(queue.ring.head) + |old(inserted)|
      ensures idx.remain == old(idx.remain) && idx.buffers == old(idx.buffers) - |old(inserted)|
      ensures old(queue.ring.tail) <= queue.ring.tail
      ensures old(done) == 0 ==>
        Shifted(old(queue.ring.Live()), queue.ring.Live(), queue.ring.tail - old(queue.ring.tail), old(inserted))
    {
      hide Low, Slot, Span, Queue, Shifted, CommitCursor, WrapSub, ProdOk, PowerOfTwo;
      CursorKept(queue.size, queue.ring.head, done, idx.Cursor());
      idx.CommitProd(queue);
      done := done + |inserted|;
      inserted := [];
    }

    /** `drop`: rolls back what was reserved and not committed. */
    method Drop()
      requires Valid()
      modifies queue`cachedProducer, queue`held
      ensures queue.Valid() && queue.held == 0
      ensures queue.cachedProducer == queue.ring.producer
    {
      hide Low, Slot, Span, Queue, CursorOk;
      if idx.buffers != 0 {
        queue.Cancel(idx.buffers);
      }
    }
  }

  /**
   `ReadComplete` and `ReadRx`. `done` and `taken` record what it released and what it read since, and
   `first` the producer head that its first load saw.
   */
  class ReadSession<T(0)> {
    const idx: BufIdxIter
    const queue: RingCons<T>
    ghost const first: nat
    ghost var done: nat
    ghost var taken: seq<T>

    ghost predicate Valid()
      reads this, idx, queue, queue.ring, queue.ring.slots
    {
      && queue.Valid() && queue.held == idx.buffers
      && CursorOk(queue.size, queue.ring.tail, done, idx.Cursor())
      && |taken| == idx.buffers - idx.remain
      && (done == 0 ==> taken <= queue.ring.Live())
    }

    /** `DeviceQueue::complete` and `RingRx::receive`. */
    constructor (queue: RingCons<T>, n: U32)
      requires queue.Valid() && queue.held == 0
      modifies queue, queue.ring`producer, queue.ring`head, queue.ring.slots
      ensures Valid() && fresh(idx) && this.queue == queue && done == 0 && taken == []
      ensures old(queue.ring.Live()) <= queue.ring.Live()
      ensures old(queue.ring.head) <= first <= queue.ring.head
      ensures idx.remain == idx.buffers == Min(n, ReadyNow(first, queue.ring.tail, old(queue.Handle())))
      ensures idx.buffers <= first - queue.ring.tail
      ensures idx.buffers == 0 <==> n == 0 || first == queue.ring.tail
    {
      hide Low, Slot, Queue;
      var it, seen := BufIdxIter.Peek(queue, n);
      this.queue, idx, first, done, taken := queue, it, seen, 0, [];
    }

    /** Hands out the oldest entry not read yet, for exactly the entries the session was granted. */
    method Read() returns (item: Option<T>)
      requires Valid()
      modifies this, idx, queue.ring`producer, queue.ring`head, queue.ring.slots
      ensures Valid() && done == old(done)
      ensures old(queue.ring.Live()) <= queue.ring.Live()
      ensures idx.Cursor() == NextCursor(old(idx.Cursor()))
      ensures item.None? <==> old(idx.remain) == 0
      ensures taken == if item.Some? then old(taken) + [item.value] else old(taken)
      ensures item.Some? ==> item.value == queue.ring.slots[Slot(old(idx.base), queue.size)]
      ensures item.Some? && done == 0 ==>
        |old(taken)| < |old(queue.ring.Live())| && item.value == old(queue.ring.Live())[|old(taken)|]
    {
      hide Low, Slot, Queue, CursorOk, ConsOk, Available, PowerOfTwo;
      CursorKept(queue.size, queue.ring.tail, done, idx.Cursor());
      queue.ring.KernelProduces();
      ConsOkLater(old(queue.ring.head), queue.ring.head, queue.ring.tail, queue.held, queue.Handle());
      NextEntry(queue.ring.slots[..], queue.ring.head, queue.ring.tail, done, idx.Cursor());
      var bufidx := idx.Next();
      if bufidx.None? {
        return None;
      }
      item := Some(queue.ring.slots[queue.Entry(bufidx.value)]);
      taken := taken + [item.value];
    }

    /** Frees exactly the entries read since the last release. */
    method Release()
      requires Valid()
      modifies this, idx, queue`held, queue.ring, queue.ring.slots
      ensures Valid() && taken == []
      ensures done == old(done) + |old(taken)|
      ensures queue.ring.tail == old(queue.ring.tail) + |old(taken)|
      ensures idx.remain == old(idx.remain) && idx.buffers == old(idx.buffers) - |old(taken)|
      ensures Drained(old(queue.ring.Live()), queue.ring.Live(),
                      Span(queue.ring.slots[..], old(queue.ring.tail), |old(taken)|))
      ensures old(done) == 0 ==> old(taken) == Span(queue.ring.slots[..], old(queue.ring.tail), |old(taken)|)
    {
      hide Low, Slot, Span, Queue, Drained, CommitCursor, WrapSub, ConsOk, PowerOfTwo;
      CursorKept(queue.size, queue.ring.tail, done, idx.Cursor());
      idx.ReleaseCons(queue);
      ghost var freed := Span(queue.ring.slots[..], old(queue.ring.tail), |taken|);
      if done == 0 {
        OldestTaken(old(queue.ring.Live()), queue.ring.Live(), freed, taken);
      }
      done := done + |taken|;
      taken := [];
    }

    /** `drop`: entries read and not released will be handed out again. */
    method Drop()
      requires Valid()
      modifies queue`cachedConsumer, queue`held
      ensures queue.Valid() && queue.held == 0
      ensures queue.cachedConsumer == queue.ring.consumer
    {
      hide Low, Slot, Span, Queue, CursorOk;
      if idx.buffers != 0 {
        queue.Cancel(idx.buffers);
      }
    }
  }

  /** Cursor `c0` moved over `items`, which were written one by one; nothing else happened to the slots. */
  ghost predicate Placed<T>(slots0: seq<T>, c0: Cursor, items: seq<T>, slots: seq<T>, c: Cursor)
    requires 0 < |slots0| < MODULUS
  {
    && |items| <= c0.remain
    && c == RingSpec.Cursor(WrapAdd(c0.base, |items|), c0.buffers, c0.remain - |items|)
    && slots == Filled(slots0, c0.base, items)
  }

  /** An orderly write session extends, in order, what its commit will publish. */
  lemma NextPlace<T>(slots: seq<T>, head: nat, done: nat, c: Cursor, inserted: seq<T>, x: T)
    requires 0 < |slots| < MODULUS && PowerOfTwo(|slots|)
    requires CursorOk(|slots|, head, done, c) && |inserted| == c.buffers - c.remain && c.remain > 0
    ensures done == 0 && Span(slots, head, |inserted|) == inserted ==>
      Span(slots[Slot(c.base, |slots|) := x], head, |inserted| + 1) == inserted + [x]
  {
    hide Low, Slot, Span;
    if done == 0 {
      SpanGrown(slots, head, |inserted|, x);
    }
  }

  /** The entry behind the cursor of an orderly read session is the oldest one it has not read. */
  lemma NextEntry<T>(slots: seq<T>, head: nat, tail: nat, done: nat, c: Cursor)
    requires 0 < |slots| < MODULUS && tail <= head <= tail + |slots|
    requires CursorOk(|slots|, tail, done, c) && tail + c.buffers <= head
    ensures |Queue(slots, Low(head), Low(tail))| == head - tail
    ensures done == 0 && c.remain > 0 ==>
      Queue(slots, Low(head), Low(tail))[c.buffers - c.remain] == slots[Slot(c.base, |slots|)]
  {
    hide Low, Slot, Span, Queue;
    QueueOfHeads(slots, head, tail);
    if done == 0 && c.remain > 0 {
      QueueEntry(slots, head, tail, c.buffers - c.remain);
    }
  }

  /** What an orderly write session places lies behind the queue and inside the free space. */
  lemma PlacedBehind<T>(slots0: seq<T>, head: nat, tail: nat, drained: nat, done: nat, c0: Cursor, items: seq<T>)
    requires 0 < |slots0| < MODULUS && PowerOfTwo(|slots0|)
    requires tail + drained <= head && head + c0.buffers <= tail + |slots0|
    requires CursorOk(|slots0|, head, done, c0) && |items| <= c0.remain
    ensures done == 0 ==>
      Shifted(Queue(slots0, Low(head), Low(tail)),
              Queue(Filled(slots0, c0.base, items), Low(head), Low(tail + drained)), drained, [])
  {
    hide Low, Slot, Span, Queue, Filled, Shifted;
    if done == 0 {
      if items == [] {
        FilledNone(slots0, c0.base, items);
        QueueConsumed(slots0, head, tail, drained);
      } else {
        FilledBehindQueue(slots0, head, tail, drained, head + (c0.buffers - c0.remain), items);
      }
    }
  }

  lemma FilledNone<T>(slots0: seq<T>, base: int, items: seq<T>)
    requires 0 < |slots0| < MODULUS && |items| == 0
    ensures Filled(slots0, base, items) == slots0
  {
  }

  lemma NothingPlaced<T>(slots0: seq<T>, c0: Cursor)
    requires 0 < |slots0| < MODULUS
    ensures Placed(slots0, c0, [], slots0, c0)
  {
    LowOfWord(c0.base);
  }

  lemma PlacedNext<T>(slots0: seq<T>, c0: Cursor, items: seq<T>, slots: seq<T>, c: Cursor, x: T)
    requires 0 < |slots0| == |slots| < MODULUS && c.remain > 0
    requires Placed(slots0, c0, items, slots, c)
    ensures Placed(slots0, c0, items + [x], slots[Slot(c.base, |slots|) := x], NextCursor(c))
    ensures NextCursor(c).remain == c.remain - 1
  {
    hide Low, Slot;
    LowShift(c0.base + |items|, 1);
    FilledNext(slots0, c0.base, items, x);
  }
}
