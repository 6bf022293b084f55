/** The ring handles: `RingProd` and `RingCons` over the words and slots shared with the kernel. */
module Ring {
  import opened Words
  import opened RingSpec
  import opened Window

  /** The mapping of one ring. `head` and `tail` are the unbounded counters behind the two words. */
  class SharedRing<T(0)> {
    const size: U32
    const slots: array<T>
    var producer: U32
    var consumer: U32
    ghost var head: nat
    ghost var tail: nat

    ghost predicate Valid()
      reads this
    {
      && slots.Length == size && PowerOfTwo(size) && size > 0
      && HeadsOk(size, head, tail)
      && producer == Low(head) && consumer == Low(tail)
    }

    /** The entries published and not yet consumed, oldest first. */
    ghost function Live(): (r: seq<T>)
      requires Valid()
      reads this, slots
      ensures |r| == head - tail
    {
      DistanceExact(head, tail);
      Queue(slots[..], producer, consumer)
    }

    constructor (slots: array<T>, size: U32, producer: U32, consumer: U32, ghost head: nat, ghost tail: nat)
      requires slots.Length == size && PowerOfTwo(size) && HeadsOk(size, head, tail)
      requires producer == Low(head) && consumer == Low(tail)
      ensures Valid() && this.slots == slots && this.size == size && this.head == head && this.tail == tail
    {
      PowerBounds(size);
      this.slots, this.size := slots, size;
      this.producer, this.consumer, this.head, this.tail := producer, consumer, head, tail;
    }

    /** Any number of steps of a kernel that consumes: it moves its own word, at most up to `producer`. */
    method KernelConsumes()
      requires Valid()
      modifies this`consumer, this`tail
      ensures Valid() && old(tail) <= tail
      ensures Shifted(old(Live()), Live(), tail - old(tail), [])
    {
      hide Low, Slot, Queue;
      DistanceExact(head, tail);
      var k: U32 :| 0 <= k <= WrapSub(producer, consumer);
      LowShift(tail, k);
      QueueConsumed(slots[..], head, tail, k);
      consumer := WrapAdd(consumer, k);
      tail := tail + k;
    }

    /** Any number of steps of a kernel that produces: it fills free slots and publishes some of them. */
    method KernelProduces()
      requires Valid()
      modifies this`producer, this`head, slots
      ensures Valid() && old(head) <= head
      ensures old(Live()) <= Live()
    {
      hide Low, Slot, Queue;
      PowerBounds(size);
      DistanceExact(head, tail);
      var wanted: U32 :| 0 <= wanted <= size - WrapSub(producer, consumer);
      var filled: U32 := 0;
      while filled < wanted
        invariant Valid() && producer == old(producer) && head == old(head)
        invariant filled <= wanted <= size - (head - tail)
        invariant Live() == old(Live())
      {
        var entry: T := *;
        LowShift(head, filled);
        QueueKept(slots[..], head, tail, head + filled, entry);
        slots[Slot(WrapAdd(producer, filled), size)] := entry;
        filled := filled + 1;
      }
      var published: U32 :| 0 <= published <= filled;
      LowShift(head, published);
      QueuePublished(slots[..], head, tail, published);
      producer := WrapAdd(producer, published);
      head := head + published;
    }
  }

  /** The producing end. `held` counts the entries reserved and not yet submitted or cancelled. */
  class RingProd<T(0)> {
    const ring: SharedRing<T>
    const mask: U32
    const size: U32
    var cachedProducer: U32
    var cachedConsumer: U32
    ghost var held: int

    function Handle(): Handle
      reads this
    {
      RingSpec.Handle(cachedProducer, cachedConsumer)
    }

    ghost predicate Mapped()
      reads this, ring
    {
      ring.Valid() && size == ring.size && mask == size - 1
    }

    /** The words are linked to the counters; this survives any call, even an unbalanced one. */
    ghost predicate Linked()
      reads this, ring
    {
      Mapped() && cachedProducer == Low(ring.head + held)
    }

    ghost predicate Valid()
      reads this, ring
      ensures Valid() ==> Linked()
    {
      Mapped() && ProdOk(size, ring.head, ring.tail, held, Handle())
    }

    /** `XskRing::new`: sound for a producer exactly when the two heads are equal. */
    constructor (ring: SharedRing<T>)
      requires ring.Valid()
      ensures this.ring == ring && Linked() && held == 0
      ensures Handle() == NewHandle(ring.producer, ring.consumer)
      ensures Valid() <==> ring.head == ring.tail
    {
      this.ring, size, mask := ring, ring.size, ring.size - 1;
      cachedProducer, cachedConsumer, held := ring.producer, ring.consumer, 0;
      MappingPrecondition(ring.size, ring.head, ring.tail);
      hide Low;
    }

    /** `fill_addr` and `tx_desc`: the slot behind an index. */
    function Entry(idx: U32): (slot: U32)
      requires Mapped()
      reads this, ring
      ensures slot == Slot(idx, size)
    {
      And(idx, mask)
    }

    method CountFree(minimum: U32) returns (free: U32)
      requires Mapped()
      modifies this`cachedConsumer, ring`consumer, ring`tail
      ensures Mapped() && old(ring.tail) <= ring.tail
      ensures Shifted(old(ring.Live()), ring.Live(), ring.tail - old(ring.tail), [])
      ensures (Handle(), free) == RingSpec.CountFree(old(Handle()), size, minimum, ring.consumer)
      ensures old(Valid()) ==> Valid() && ring.head + held + free <= ring.tail + size
      ensures old(Valid()) ==>
        var cached := old(Cached(Handle()));
        free == if cached >= minimum then cached else ring.tail + size - ring.head - held
    {
      hide Low, Queue, Shifted, WrapSub;
      free := WrapSub(cachedConsumer, cachedProducer);
      if free >= minimum {
        NothingAdded(ring.Live(), []);
        return;
      }
      ring.KernelConsumes();
      if old(Valid()) {
        CountFreeSound(size, ring.head, ring.tail, held, Handle(), minimum);
      }
      cachedConsumer := ring.consumer;
      cachedConsumer := WrapAdd(cachedConsumer, size);
      free := WrapSub(cachedConsumer, cachedProducer);
    }

    method Reserve(start: U32, end: U32, idx: U32) returns (count: U32, base: U32)
      requires Mapped()
      modifies this, ring`consumer, ring`tail
      ensures Mapped() && old(ring.tail) <= ring.tail
      ensures Shifted(old(ring.Live()), ring.Live(), ring.tail - old(ring.tail), [])
      ensures Grant(Handle(), count, base) == RingSpec.Reserve(old(Handle()), size, start, end, idx, ring.consumer)
      ensures held == old(held) + count
      ensures old(Valid()) ==> Valid()
      ensures old(Valid()) ==>
        var free := ring.tail + size - ring.head - old(held);
        var cached := old(Cached(Handle()));
        && cached <= free && count <= Min(end, free)
        && (start <= free ==> base == Low(ring.head + old(held)))
        && (start <= free ==> count == Min(end, if cached >= start then cached else free))
        && (start > free ==> count == 0 && base == idx)
    {
      hide Low, Queue, Shifted, WrapSub;
      var free := CountFree(start);
      if old(Valid()) {
        ReserveExact(size, ring.head, ring.tail, old(held), old(Handle()), start, end, idx);
      }
      if free < start {
        return 0, idx;
      }
      count := Min(free, end);
      base := cachedProducer;
      cachedProducer := WrapAdd(cachedProducer, count);
      held := held + count;
    }

    method Cancel(nb: U32)
      requires Linked()
      modifies this`cachedProducer, this`held
      ensures Linked() && held == old(held) - nb
      ensures cachedProducer == WrapSub(old(cachedProducer), nb)
      ensures old(Valid()) ==> (Valid() <==> nb <= old(held))
    {
      LowShift(ring.head + held, nb);
      if Valid() && nb <= held {
        GiveBack(size, ring.head, ring.tail, held, nb, Handle());
      }
      hide Low;
      cachedProducer := WrapSub(cachedProducer, nb);
      held := held - nb;
    }

    method Submit(nb: U32)
      requires Linked()
      modifies this`held, ring
      ensures ring.producer == Low(ring.head) && ring.head == old(ring.head) + nb
      ensures cachedProducer == Low(ring.head + held) && held == old(held) - nb
      ensures old(ring.tail) <= ring.tail <= old(ring.head) && ring.consumer == Low(ring.tail)
      ensures old(Valid()) && nb <= old(held) ==>
        && Valid()
        && Shifted(old(ring.Live()), ring.Live(), ring.tail - old(ring.tail), Span(ring.slots[..], old(ring.head), nb))
    {
      hide Low, Slot, Span, Queue, Shifted, WrapSub;
      var cur := ring.producer;
      ring.KernelConsumes();
      LowShift(ring.head, nb);
      ghost var q0, q1 := old(ring.Live()), ring.Live();
      if Valid() && nb <= held {
        QueuePublished(ring.slots[..], ring.head, ring.tail, nb);
        ghost var q2 := Queue(ring.slots[..], Low(ring.head + nb), ring.consumer);
        ShiftedAgain(q0, q1, q2, ring.tail - old(ring.tail), 0, Span(ring.slots[..], ring.head, nb));
      }
      ring.producer := WrapAdd(cur, nb);
      ring.head := ring.head + nb;
      held := held - nb;
    }

    /** Exactly the entries pending when it returns: the kernel may have drained the queue before its load. */
    method CountPending() returns (pending: U32)
      requires Mapped()
      modifies ring`consumer, ring`tail
      ensures Mapped() && old(ring.tail) <= ring.tail
      ensures pending == ring.head - ring.tail == |ring.Live()|
    {
      var committed := ring.producer;
      ring.KernelConsumes();
      var consumed := ring.consumer;
      DistanceExact(ring.head, ring.tail);
      hide Low;
      pending := WrapSub(committed, consumed);
    }
  }

  /** The consuming end. `held` counts the entries peeked and not yet released or cancelled. */
  class RingCons<T(0)> {
    const ring: SharedRing<T>
    const mask: U32
    const size: U32
    var cachedProducer: U32
    var cachedConsumer: U32
    ghost var held: int

    function Handle(): Handle
      reads this
    {
      RingSpec.Handle(cachedProducer, cachedConsumer)
    }

    ghost predicate Mapped()
      reads this, ring
    {
      ring.Valid() && size == ring.size && mask == size - 1
    }

    ghost predicate Linked()
      reads this, ring
    {
      Mapped() && cachedConsumer == Low(ring.tail + held)
    }

    ghost predicate Valid()
      reads this, ring
      ensures Valid() ==> Linked()
    {
      Mapped() && ConsOk(ring.head, ring.tail, held, Handle())
    }

    /** `XskRing::new`: sound for a consumer whatever the kernel published before. */
    constructor (ring: SharedRing<T>)
      requires ring.Valid()
      ensures this.ring == ring && Valid() && held == 0
      ensures Handle() == NewHandle(ring.producer, ring.consumer)
    {
      this.ring, size, mask := ring, ring.size, ring.size - 1;
      cachedProducer, cachedConsumer, held := ring.producer, ring.consumer, 0;
      MappingPrecondition(ring.size, ring.head, ring.tail);
      hide Low;
    }

    /** `comp_addr` and `rx_desc`: the slot behind an index. */
    function Entry(idx: U32): (slot: U32)
      requires Mapped()
      reads this, ring
      ensures slot == Slot(idx, size)
    {
      And(idx, mask)
    }

    /** `first` is the head that the relaxed load saw; the kernel may publish more before the second. */
    method CountAvailable(expected: U32) returns (available: U32, ghost first: nat)
      requires Mapped()
      modifies this`cachedProducer, ring`producer, ring`head, ring.slots
      ensures Mapped() && old(ring.head) <= first <= ring.head
      ensures old(ring.Live()) <= ring.Live()
      ensures (Handle(), available)
           == RingSpec.CountAvailable(old(Handle()), expected, Low(first), ring.producer)
      ensures old(Valid()) ==>
        && Valid()
        && ring.tail + held + available <= first
        && var cached := old(Available(Handle()));
           available == if cached >= expected then cached else first - ring.tail - held
    {
      hide Low, Queue, WrapSub;
      available := WrapSub(cachedProducer, cachedConsumer);
      first := ring.head;
      if available < expected {
        ring.KernelProduces();
        var newVal := ring.producer;
        first := ring.head;
        available := WrapSub(newVal, cachedConsumer);
        ring.KernelProduces();
        cachedProducer := ring.producer;
      }
      if old(Valid()) {
        CountAvailableSound(size, first, ring.head, ring.tail, held, old(Handle()), expected);
      }
    }

    method Peek(start: U32, end: U32, idx: U32) returns (count: U32, base: U32, ghost first: nat)
      requires Mapped()
      modifies this, ring`producer, ring`head, ring.slots
      ensures Mapped() && old(ring.head) <= first <= ring.head
      ensures old(ring.Live()) <= ring.Live()
      ensures Grant(Handle(), count, base)
           == RingSpec.Peek(old(Handle()), start, end, idx, Low(first), ring.producer)
      ensures held == old(held) + count
      ensures old(Valid()) ==> Valid()
      ensures old(Valid()) ==>
        var ready := first - ring.tail - old(held);
        var cached := old(Available(Handle()));
        && cached <= ready && count <= Min(end, ready)
        && (start <= ready ==> base == Low(ring.tail + old(held)))
        && (start <= ready ==> count == Min(end, if cached >= start then cached else ready))
        && (start > ready ==> count == 0 && base == idx)
    {
      hide Low, Queue, WrapSub;
      var available;
      available, first := CountAvailable(start);
      if old(Valid()) {
        PeekExact(size, first, ring.head, ring.tail, old(held), old(Handle()), start, end, idx);
      }
      if available < start {
        return 0, idx, first;
      }
      count := Min(available, end);
      base := cachedConsumer;
      cachedConsumer := WrapAdd(cachedConsumer, count);
      held := held + count;
    }

    method Cancel(nb: U32)
      requires Linked()
      modifies this`cachedConsumer, this`held
      ensures Linked() && held == old(held) - nb
      ensures cachedConsumer == WrapSub(old(cachedConsumer), nb)
      ensures old(Valid()) ==> (Valid() <==> nb <= old(held))
    {
      LowShift(ring.tail + held, nb);
      if Valid() && nb <= held {
        GiveBackRead(size, ring.head, ring.tail, held, nb, Handle());
      }
      hide Low;
      cachedConsumer := WrapSub(cachedConsumer, nb);
      held := held - nb;
    }

    method Release(nb: U32)
      requires Linked()
      modifies this`held, ring, ring.slots
      ensures ring.consumer == Low(ring.tail) && ring.tail == old(ring.tail) + nb
      ensures cachedConsumer == Low(ring.tail + held) && held == old(held) - nb
      ensures old(ring.head) <= ring.head <= old(ring.tail) + size && ring.producer == Low(ring.head)
      ensures old(Valid()) && nb <= old(held) ==>
        Valid() && Drained(old(ring.Live()), ring.Live(), Span(ring.slots[..], old(ring.tail), nb))
    {
      hide Low, Slot, Span, Queue, Shifted, WrapSub;
      var cur := ring.consumer;
      ring.KernelProduces();
      LowShift(ring.tail, nb);
      if old(Valid()) && nb <= held {
        QueueConsumed(ring.slots[..], ring.head, ring.tail, nb);
      }
      ring.consumer := WrapAdd(cur, nb);
      ring.tail := ring.tail + nb;
      held := held - nb;
    }

    method CountPending() returns (pending: U32)
      requires Mapped()
      modifies ring`producer, ring`head, ring.slots
      ensures Mapped() && old(ring.Live()) <= ring.Live()
      ensures |old(ring.Live())| <= pending <= |ring.Live()|
    {
      ring.KernelProduces();
      var available := ring.producer;
      ghost var seen := ring.head;
      ring.KernelProduces();
      var consumed := ring.consumer;
      DistanceExact(seen, ring.tail);
      hide Low;
      pending := WrapSub(available, consumed);
    }
  }
}
