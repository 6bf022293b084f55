/** Why the documented workflow is needed: exactly when an insert or a read keeps the FIFO order. */
module Workflow {
  import opened Words
  import opened RingSpec
  import opened Window
  import opened System

  /** A write that misses the slot just past a window leaves that slot's old entry there. */
  lemma SpanMissed<T>(slots: seq<T>, start: int, k: nat, m: nat, x: T, before: seq<T>)
    requires m < |slots| < MODULUS && m != Slot(Low(start + k), |slots|) && |before| == k
    requires Span(slots[m := x], start, k + 1) == before + [x]
    ensures slots[Slot(Low(start + k), |slots|)] == x
  {
    hide Low, Slot, Span;
    SpanNext(slots[m := x], start, k);
    assert (before + [x])[k] == x;
  }

  lemma LateSlot<T>(s: State<T>)
    requires Counters(s) && s.writer.Writing? && s.writer.cur.remain > 0 && s.writer.done > 0
    ensures s.Tail() <= s.Head()
    ensures Slot(s.writer.cur.base, |s.slots|) != Slot(Low(s.Head() + |s.inserted|), |s.slots|)
  {
    hide Low, Slot, PowerOfTwo, ConsOk, ReaderOk;
    SlotAgreement(|s.slots|, s.Head(), s.writer.done, s.writer.cur);
    CursorKept(|s.slots|, s.Head(), s.writer.done, s.writer.cur);
  }

  lemma LateInsert<T>(s: State<T>, item: T)
    requires 0 < |s.slots| < MODULUS && s.writer.Writing? && s.writer.cur.remain > 0
    requires Slot(s.writer.cur.base, |s.slots|) != Slot(Low(s.Head() + |s.inserted|), |s.slots|)
    requires s.Tail() <= s.Head() && Contents(WriterStep(s, Insert(item)))
    ensures s.slots[Slot(Low(s.Head() + |s.inserted|), |s.slots|)] == item
  {
    hide Low, Slot, Span;
    SpanMissed(s.slots, s.Head(), |s.inserted|, Slot(s.writer.cur.base, |s.slots|), item, s.inserted);
  }

  /**
   For two different items, an insert keeps the ring a FIFO for both exactly when its session has not
   published anything yet.
   */
  lemma InsertKeepsFifoExactly<T>(s: State<T>, x: T, y: T)
    requires Counters(s) && Contents(s) && s.writer.Writing? && s.writer.cur.remain > 0 && x != y
    ensures var s1, s2 := WriterStep(s, Insert(x)), WriterStep(s, Insert(y));
            && s1.Tail() <= s1.Head() && s2.Tail() <= s2.Head()
            && (Contents(s1) && Contents(s2) <==> s.writer.done == 0)
            && (Orderly(s, Insert(x)) <==> s.writer.done == 0)
  {
    if s.writer.done == 0 {
      InsertKeepsContents(s, x);
      InsertKeepsContents(s, y);
    } else {
      LateSlot(s);
      hide Counters, Contents, Low, Slot;
      if Contents(WriterStep(s, Insert(x))) && Contents(WriterStep(s, Insert(y))) {
        LateInsert(s, x);
        LateInsert(s, y);
      }
    }
  }

  lemma LateReadSlot<T>(s: State<T>)
    requires Counters(s) && s.reader.Reading? && s.reader.cur.remain > 0 && s.reader.done > 0
    ensures s.Tail() <= s.Head()
    ensures Slot(s.reader.cur.base, |s.slots|) != Slot(Low(s.Tail() + |s.taken|), |s.slots|)
  {
    hide Low, Slot, PowerOfTwo, ProdOk, WriterOk;
    SlotAgreement(|s.slots|, s.Tail(), s.reader.done, s.reader.cur);
    CursorKept(|s.slots|, s.Tail(), s.reader.done, s.reader.cur);
  }

  lemma LateRead<T>(s: State<T>)
    requires 0 < |s.slots| < MODULUS && s.reader.Reading? && s.reader.cur.remain > 0
    requires s.Tail() <= s.Head() && Contents(ReaderStep(s, Read))
    ensures s.slots[Slot(Low(s.Tail() + |s.taken|), |s.slots|)] == s.slots[Slot(s.reader.cur.base, |s.slots|)]
  {
    hide Low, Slot, Span;
    SpanNext(s.slots, s.Tail(), |s.taken|);
    var next := s.slots[Slot(s.reader.cur.base, |s.slots|)];
    assert (s.taken + [next])[|s.taken|] == next;
  }

  /**
   While the slots hold different entries, a read hands out the oldest unread one exactly when its
   session has not released anything yet.
   */
  lemma ReadKeepsFifoExactly<T>(s: State<T>)
    requires Counters(s) && Contents(s) && s.reader.Reading? && s.reader.cur.remain > 0
    requires forall i, j :: 0 <= i < j < |s.slots| ==> s.slots[i] != s.slots[j]
    ensures Contents(ReaderStep(s, Read)) <==> s.reader.done == 0
    ensures Orderly(s, Read) <==> s.reader.done == 0
  {
    if s.reader.done == 0 {
      ReadKeepsContents(s);
    } else {
      LateReadSlot(s);
      hide Counters, Contents, Low, Slot;
      if Contents(ReaderStep(s, Read)) {
        LateRead(s);
      }
    }
  }

  function Inserts<T>(items: seq<T>): seq<Action<T>> {
    seq(|items|, i requires 0 <= i < |items| => Insert(items[i]))
  }

  /** However many single inserts a session gets, exactly its remaining slots take one each, in order. */
  lemma {:induction false} InsertsTakePrefix<T>(s: State<T>, items: seq<T>)
    requires 0 < |s.slots| < MODULUS && s.writer.Writing?
    ensures var s', n := Exec(s, Inserts(items)), Min(|items|, s.writer.cur.remain);
            && s'.writer.Writing? && s'.writer.cur.remain == s.writer.cur.remain - n
            && s'.inserted == s.inserted + items[..n]
  {
    hide Low, Slot;
    if items == [] {
      assert Inserts(items) == [];
    } else {
      var before := items[..|items| - 1];
      InsertsTakePrefix(s, before);
      assert Inserts(items)[..|items| - 1] == Inserts(before);
    }
  }

  lemma {:induction false} ExecAppend<T>(s: State<T>, first: seq<Action<T>>, rest: seq<Action<T>>)
    requires 0 < |s.slots| < MODULUS
    ensures Exec(s, first + rest) == Exec(Exec(s, first), rest)
    decreases |rest|
  {
    var acts := first + rest;
    if rest == [] {
      assert acts == first;
    } else {
      assert acts[..|acts| - 1] == first + rest[..|rest| - 1];
      ExecAppend(s, first, rest[..|rest| - 1]);
    }
  }

  lemma ExecOne<T>(s: State<T>, a: Action<T>)
    requires 0 < |s.slots| < MODULUS
    ensures Exec(s, [a]) == Apply(s, a)
  {
    hide Apply;
    assert [a][..0] == [];
  }

  lemma ExecThree<T>(s: State<T>, a: Action<T>, b: Action<T>, c: Action<T>)
    requires 0 < |s.slots| < MODULUS
    ensures Exec(s, [a, b, c]) == Apply(Apply(Apply(s, a), b), c)
  {
    hide Apply, Exec;
    assert [a] + [b] == [a, b] && [a, b] + [c] == [a, b, c];
    ExecOne(s, a);
    ExecStep(s, [a], b);
    ExecStep(s, [a, b], c);
  }

  const INSERT_AFTER_COMMIT: seq<Action<int>> :=
    [Open(4)] + [Insert(1), Insert(2), Insert(3)] + [CommitLoad, CommitStore, Insert(4)]

  /** The state of a fresh ring of four after its writer reached `w`. */
  function Midway(slots: seq<int>, producer: U32, w: Writer, committed: seq<int>, inserted: seq<int>): State<int> {
    State(slots, producer, 0, Handle(4, 4), w, Handle(0, 0), Resting, 0, committed, inserted, [], [])
  }

  lemma FourSlots()
    ensures PowerOfTwo(4)
    ensures Slot(0, 4) == 0 && Slot(1, 4) == 1 && Slot(2, 4) == 2 && Slot(3, 4) == 3 && Slot(6, 4) == 2
  {
    assert Pow2(2) == 4;
    SlotIsModulo(0, 4);
    SlotIsModulo(1, 4);
    SlotIsModulo(2, 4);
    SlotIsModulo(3, 4);
    SlotIsModulo(6, 4);
  }

  lemma FourReserved()
    ensures Reserve(Handle(0, 0), 4, 1, 4, 0, 0) == Grant(Handle(4, 4), 4, 0)
    ensures NextCursor(Cursor(0, 4, 4)) == Cursor(1, 4, 3) && NextCursor(Cursor(1, 4, 3)) == Cursor(2, 4, 2)
    ensures NextCursor(Cursor(2, 4, 2)) == Cursor(3, 4, 1)
  {
    LowOfWord(0);
    LowOfWord(1);
    LowOfWord(2);
    LowOfWord(3);
    LowOfWord(4);
    hide Low;
  }

  lemma FillsThree()
    ensures var s1 := Midway([0, 0, 0, 0], 0, Writing(Cursor(0, 4, 4), 0), [], []);
            && Apply(Init([0, 0, 0, 0], 0), Open(4)) == s1
            && Apply(Apply(Apply(s1, Insert(1)), Insert(2)), Insert(3))
               == Midway([1, 2, 3, 0], 0, Writing(Cursor(3, 4, 1), 0), [], [1, 2, 3])
  {
    FourReserved();
    FourSlots();
    hide Low, Slot, Reserve, NextCursor, ReaderStep;
    var s1 := Midway([0, 0, 0, 0], 0, Writing(Cursor(0, 4, 4), 0), [], []);
    var s2 := Midway([1, 0, 0, 0], 0, Writing(Cursor(1, 4, 3), 0), [], [1]);
    assert Apply(s1, Insert(1)) == s2;
    var s3 := Midway([1, 2, 0, 0], 0, Writing(Cursor(2, 4, 2), 0), [], [1, 2]);
    assert Apply(s2, Insert(2)) == s3;
  }

  lemma OverwritesThird()
    ensures Apply(Midway([1, 2, 3, 0], 3, Writing(Cursor(6, 1, 1), 3), [1, 2, 3], []), Insert(4))
         == Midway([1, 2, 4, 0], 3, Writing(Cursor(7, 1, 0), 3), [1, 2, 3], [4])
  {
    FourSlots();
    hide Slot;
  }

  lemma ThreeCommitted()
    ensures Moved(Cursor(3, 4, 1)) == 3 && CommitCursor(Cursor(3, 4, 1)) == Cursor(6, 1, 1) && WrapAdd(0, 3) == 3
  {
    LowOfWord(3);
    LowOfWord(6);
    hide Low;
  }

  lemma CommitsThree()
    ensures Apply(Apply(Midway([1, 2, 3, 0], 0, Writing(Cursor(3, 4, 1), 0), [], [1, 2, 3]), CommitLoad), CommitStore)
         == Midway([1, 2, 3, 0], 3, Writing(Cursor(6, 1, 1), 3), [1, 2, 3], [])
  {
    hide Low, Slot, Reserve, NextCursor, CommitCursor, Moved, WrapAdd;
    ThreeCommitted();
    var s5 := Midway([1, 2, 3, 0], 0, Committing(Cursor(3, 4, 1), 0, 0), [], [1, 2, 3]);
    assert Apply(Midway([1, 2, 3, 0], 0, Writing(Cursor(3, 4, 1), 0), [], [1, 2, 3]), CommitLoad) == s5;
  }

  lemma QueueAfterLoss()
    ensures Queue([1, 2, 4, 0], 3, 0) == [1, 2, 4]
  {
    FourSlots();
    hide Slot;
    hide Span;
    var slots := [1, 2, 4, 0];
    SpanNext(slots, 0, 0);
    SpanNext(slots, 0, 1);
    SpanNext(slots, 0, 2);
    assert Low(0) == 0 && Low(1) == 1 && Low(2) == 2 && WrapSub(3, 0) == 3;
  }

  /** Four slots reserved, three committed, a fourth insert: it overwrites the third published entry. */
  lemma PublishedEntryLost()
    ensures var s := Exec(Init([0, 0, 0, 0], 0), INSERT_AFTER_COMMIT);
            && s.committed == [1, 2, 3]
            && Queue(s.slots, s.producer, s.consumer) == [1, 2, 4]
  {
    FillsThree();
    CommitsThree();
    OverwritesThird();
    hide Slot, Apply, Init, Queue;
    var s0, s1 := Init([0, 0, 0, 0], 0), Apply(Init([0, 0, 0, 0], 0), Open(4));
    var s4 := Apply(Apply(Apply(s1, Insert(1)), Insert(2)), Insert(3));
    ExecAppend(s0, [Open(4)] + [Insert(1), Insert(2), Insert(3)], [CommitLoad, CommitStore, Insert(4)]);
    ExecAppend(s0, [Open(4)], [Insert(1), Insert(2), Insert(3)]);
    ExecOne(s0, Open(4));
    ExecThree(s1, Insert(1), Insert(2), Insert(3));
    ExecThree(s4, CommitLoad, CommitStore, Insert(4));
    hide Exec;
    var s := Exec(s0, INSERT_AFTER_COMMIT);
    assert s == Midway([1, 2, 4, 0], 3, Writing(Cursor(7, 1, 0), 3), [1, 2, 3], [4]);
    QueueAfterLoss();
  }

  const READ_AFTER_RELEASE: seq<Action<int>> :=
    [Open(4)] + [Insert(1), Insert(2), Insert(3)] + [Insert(4), CommitLoad, CommitStore] +
    [PeekLoad(3), PeekRefresh, Read] + [ReleaseLoad, ReleaseStore, Read]

  /** The state of a full ring of four after its reader reached `r`. */
  function Full(consumer: U32, h: Handle, r: Reader, released: seq<int>, taken: seq<int>): State<int> {
    State([1, 2, 3, 4], 4, consumer, Handle(4, 4), Writing(Cursor(8, 0, 0), 4), h, r,
          0, [1, 2, 3, 4], [], released, taken)
  }

  lemma FourCommitted()
    ensures NextCursor(Cursor(3, 4, 1)) == Cursor(4, 4, 0)
    ensures Moved(Cursor(4, 4, 0)) == 4 && CommitCursor(Cursor(4, 4, 0)) == Cursor(8, 0, 0) && WrapAdd(0, 4) == 4
  {
    LowOfWord(4);
    LowOfWord(8);
    hide Low;
  }

  lemma FillsFour()
    ensures var s := Midway([1, 2, 3, 0], 0, Writing(Cursor(3, 4, 1), 0), [], [1, 2, 3]);
            Apply(Apply(Apply(s, Insert(4)), CommitLoad), CommitStore) == Full(0, Handle(0, 0), Resting, [], [])
  {
    FourCommitted();
    FourSlots();
    hide Low, Slot, Reserve, NextCursor, CommitCursor, Moved, WrapAdd;
    var s := Midway([1, 2, 3, 0], 0, Writing(Cursor(3, 4, 1), 0), [], [1, 2, 3]);
    var s1 := Midway([1, 2, 3, 4], 0, Writing(Cursor(4, 4, 0), 0), [], [1, 2, 3, 4]);
    assert Apply(s, Insert(4)) == s1;
    assert Apply(s1, CommitLoad) == Midway([1, 2, 3, 4], 0, Committing(Cursor(4, 4, 0), 0, 0), [], [1, 2, 3, 4]);
  }

  lemma ThreePeeked()
    ensures Available(Handle(0, 0)) == 0 && Peek(Handle(0, 0), 1, 3, 0, 4, 4) == Grant(Handle(4, 3), 3, 0)
  {
    LowOfWord(0);
    LowOfWord(3);
    LowOfWord(4);
    hide Low;
  }

  lemma OneReleased()
    ensures NextCursor(Cursor(0, 3, 3)) == Cursor(1, 3, 2) && NextCursor(Cursor(2, 2, 2)) == Cursor(3, 2, 1)
    ensures Moved(Cursor(1, 3, 2)) == 1 && CommitCursor(Cursor(1, 3, 2)) == Cursor(2, 2, 2) && WrapAdd(0, 1) == 1
  {
    LowOfWord(1);
    LowOfWord(2);
    LowOfWord(3);
    hide Low;
  }

  lemma ReadsFirst()
    ensures Apply(Apply(Apply(Full(0, Handle(0, 0), Resting, [], []), PeekLoad(3)), PeekRefresh), Read)
         == Full(0, Handle(4, 3), Reading(Cursor(1, 3, 2), 0), [], [1])
  {
    ThreePeeked();
    OneReleased();
    FourSlots();
    hide Low, Slot, Available, Peek, NextCursor, WrapAdd, WriterStep;
    assert Apply(Full(0, Handle(0, 0), Resting, [], []), PeekLoad(3)) == Full(0, Handle(0, 0), Peeking(3, 4), [], []);
    assert Apply(Full(0, Handle(0, 0), Peeking(3, 4), [], []), PeekRefresh)
        == Full(0, Handle(4, 3), Reading(Cursor(0, 3, 3), 0), [], []);
  }

  lemma ReleasesFirst()
    ensures Apply(Apply(Full(0, Handle(4, 3), Reading(Cursor(1, 3, 2), 0), [], [1]), ReleaseLoad), ReleaseStore)
         == Full(1, Handle(4, 3), Reading(Cursor(2, 2, 2), 1), [1], [])
  {
    OneReleased();
    hide Low, Slot, CommitCursor, Moved, WrapAdd, WriterStep;
    var s1 := Full(0, Handle(4, 3), Releasing(Cursor(1, 3, 2), 0, 0), [], [1]);
    assert Apply(Full(0, Handle(4, 3), Reading(Cursor(1, 3, 2), 0), [], [1]), ReleaseLoad) == s1;
  }

  lemma ReadsThird()
    ensures Apply(Full(1, Handle(4, 3), Reading(Cursor(2, 2, 2), 1), [1], []), Read)
         == Full(1, Handle(4, 3), Reading(Cursor(3, 2, 1), 1), [1], [3])
  {
    OneReleased();
    FourSlots();
    hide Low, Slot, NextCursor, CommitCursor, Moved, WriterStep;
  }

  lemma QueueAfterSkip()
    ensures Queue([1, 2, 3, 4], 4, 1) == [2, 3, 4]
  {
    FourSlots();
    hide Slot, Span;
    var slots := [1, 2, 3, 4];
    SpanNext(slots, 1, 0);
    SpanNext(slots, 1, 1);
    SpanNext(slots, 1, 2);
    assert Low(1) == 1 && Low(2) == 2 && Low(3) == 3 && WrapSub(4, 1) == 3;
  }

  /** Three of four entries peeked, one read and released, then a read: it skips the second entry. */
  lemma UnreadEntrySkipped()
    ensures var s := Exec(Init([0, 0, 0, 0], 0), READ_AFTER_RELEASE);
            && s.committed == [1, 2, 3, 4] && s.released == [1]
            && Queue(s.slots, s.producer, s.consumer) == [2, 3, 4]
            && s.taken == [3]
  {
    FillsThree();
    FillsFour();
    ReadsFirst();
    ReleasesFirst();
    ReadsThird();
    QueueAfterSkip();
    hide Slot, Apply, Init, Queue, Exec;
    var s0 := Init([0, 0, 0, 0], 0);
    var inserts, commits := [Insert(1), Insert(2), Insert(3)], [Insert(4), CommitLoad, CommitStore];
    var peeks, skips := [PeekLoad(3), PeekRefresh, Read], [ReleaseLoad, ReleaseStore, Read];
    ExecAppend(s0, [Open(4)] + inserts + commits + peeks, skips);
    ExecAppend(s0, [Open(4)] + inserts + commits, peeks);
    ExecAppend(s0, [Open(4)] + inserts, commits);
    ExecAppend(s0, [Open(4)], inserts);
    ExecOne(s0, Open(4));
    var s1 := Apply(s0, Open(4));
    ExecThree(s1, Insert(1), Insert(2), Insert(3));
    var s2 := Apply(Apply(Apply(s1, Insert(1)), Insert(2)), Insert(3));
    ExecThree(s2, Insert(4), CommitLoad, CommitStore);
    var s3 := Apply(Apply(Apply(s2, Insert(4)), CommitLoad), CommitStore);
    ExecThree(s3, PeekLoad(3), PeekRefresh, Read);
    var s4 := Apply(Apply(Apply(s3, PeekLoad(3)), PeekRefresh), Read);
    ExecThree(s4, ReleaseLoad, ReleaseStore, Read);
  }
}
