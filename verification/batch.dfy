/** Whole sessions, as the multi-threaded flood example runs them on the two rings. */
module Batch {
  import opened Options
  import opened Words
  import opened RingSpec
  import opened Window
  import opened Ring
  import opened User

  /**
   The send step: the kernel's queue grows by exactly `sent` copies of the descriptor, however the kernel
   drains it meanwhile, and the handle is left balanced. `sent` is the batch, or what the ring had room for
   in the cache, or at the load (of the consumer head `seen`) if the cache showed none.
   */
  method SendBatch<T(0)>(tx: RingProd<T>, batch: U32, desc: T) returns (sent: U32, ghost seen: nat)
    requires tx.Valid() && tx.held == 0
    modifies tx, tx.ring, tx.ring.slots
    ensures tx.Valid() && tx.held == 0 && tx.cachedProducer == tx.ring.producer
    ensures sent <= batch && tx.ring.head == old(tx.ring.head) + sent
    ensures old(tx.ring.tail) <= seen <= tx.ring.tail
    ensures sent == Min(batch, FreeNow(tx.size, old(tx.ring.head), seen, old(tx.Handle())))
    ensures Shifted(old(tx.ring.Live()), tx.ring.Live(), tx.ring.tail - old(tx.ring.tail), seq(sent, _ => desc))
    ensures batch > 0 && old(tx.ring.head - tx.ring.tail) < tx.size ==> sent > 0
  {
    hide Low, Slot, Span, Queue, CursorOk, Filled, Shifted, ProdOk, PowerOfTwo, WrapAdd, WrapSub, RingSpec.Reserve;
    hide ItemSource.Items, ItemSource.Supply, FreeNow, Cached;
    ghost var q0, t0 := tx.ring.Live(), tx.ring.tail;
    var writer := new WriteSession(tx, batch);
    seen := tx.ring.tail;
    ghost var q1, t1 := tx.ring.Live(), tx.ring.tail;
    var bufs := new ItemSource(_ => desc, None);
    sent := writer.Insert(bufs);
    ghost var q2, t2 := tx.ring.Live(), tx.ring.tail;
    ghost var items := writer.inserted;
    Repeated(bufs, desc, sent);
    writer.Commit();
    ghost var q3, t3 := tx.ring.Live(), tx.ring.tail;
    ShiftedAgain(q0, q1, q2, t1 - t0, t2 - t1, []);
    ShiftedAgain(q0, q2, q3, t2 - t0, t3 - t2, items);
    writer.Drop();
  }

  lemma Repeated<T>(source: ItemSource<T>, desc: T, k: nat)
    requires forall i: nat :: source.at(i) == desc
    ensures [] + source.Items(0, k) == seq(k, _ => desc)
  {
  }

  /**
   The reap step: returns the oldest completions and frees exactly those, the batch or all that the cache
   showed, or that the first load (of the producer head `first`) saw if the cache showed none. The items are
   the `count` entries behind the old tail, whether they were published before the call or during it.
   */
  method Reap<T(0)>(queue: RingCons<T>, batch: U32)
    returns (count: U32, ghost items: seq<T>, ghost first: nat)
    requires queue.Valid() && queue.held == 0
    modifies queue, queue.ring, queue.ring.slots
    ensures queue.Valid() && queue.held == 0 && queue.cachedConsumer == queue.ring.consumer
    ensures count <= batch && queue.ring.tail == old(queue.ring.tail) + count
    ensures old(queue.ring.head) <= first <= queue.ring.head
    ensures count == Min(batch, ReadyNow(first, old(queue.ring.tail), old(queue.Handle())))
    ensures batch > 0 && old(queue.ring.head > queue.ring.tail) ==> count > 0
    ensures items == Span(queue.ring.slots[..], old(queue.ring.tail), count)
    ensures old(queue.ring.Live()) <= items + queue.ring.Live()
  {
    hide Low, Slot, Span, Queue, CursorOk, ConsOk;
    var reader := new ReadSession(queue, batch);
    first := reader.first;
    count := 0;
    ghost var granted := reader.idx.buffers;
    var item := reader.Read();
    while item.Some?
      invariant reader.Valid() && reader.done == 0
      invariant old(queue.ring.Live()) <= queue.ring.Live() && first <= queue.ring.head
      invariant |reader.taken| == count + (if item.Some? then 1 else 0)
      invariant queue.ring.tail == old(queue.ring.tail)
      invariant |reader.taken| + reader.idx.remain == granted && (item.None? ==> reader.idx.remain == 0)
      decreases reader.idx.remain, item.Some?
    {
      count := count + 1;
      item := reader.Read();
    }
    items := reader.taken;
    reader.Release();
    reader.Drop();
  }
}
