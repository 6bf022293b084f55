/**
 The accounting of the multi-threaded flood example: any number of sender and completer threads over the
 shared counters `sent_reserved`, `sent` and `completed`, one atomic access at a time. Every socket is
 bound to one device queue, and its descriptors complete on that queue's ring.
 */
module Flood {
  import opened Words

  // ---------- Sums over threads ----------

  function SumBy<S>(xs: seq<S>, f: S -> nat): nat {
    if xs == [] then 0 else f(xs[0]) + SumBy(xs[1..], f)
  }

  lemma {:induction false} SumUpdate<S>(xs: seq<S>, i: nat, x: S, f: S -> nat)
    requires i < |xs|
    ensures SumBy(xs[i := x], f) + f(xs[i]) == SumBy(xs, f) + f(x)
    ensures f(xs[i]) <= SumBy(xs, f)
    decreases |xs|
  {
    if i == 0 {
      assert xs[0 := x][1..] == xs[1..];
    } else {
      assert xs[i := x][1..] == xs[1..][i - 1 := x];
      SumUpdate(xs[1..], i - 1, x, f);
    }
  }

  lemma {:induction false} SumBelow<S>(xs: seq<S>, f: S -> nat, g: S -> nat)
    requires forall x :: x in xs ==> f(x) <= g(x)
    ensures SumBy(xs, f) <= SumBy(xs, g)
    decreases |xs|
  {
    if xs == [] {
    } else {
      SumBelow(xs[1..], f, g);
    }
  }

  lemma {:induction false} SumNone<S>(xs: seq<S>, f: S -> nat)
    requires forall x :: x in xs ==> f(x) == 0
    ensures SumBy(xs, f) == 0
    decreases |xs|
  {
    if xs == [] {
    } else {
      SumNone(xs[1..], f);
    }
  }

  /** The device queue that socket `i` is bound to. */
  function QueueOf(i: nat, queues: nat): (q: nat)
    requires queues > 0
    ensures q < queues && (i < queues ==> q == i)
  {
    i % queues
  }

  /** The sum over the sockets of one device queue. */
  function SumOn<S>(xs: seq<S>, queues: nat, q: nat, f: S -> nat): nat
    requires queues > 0
  {
    if xs == [] then 0
    else
      var n := |xs| - 1;
      SumOn(xs[..n], queues, q, f) + if QueueOf(n, queues) == q then f(xs[n]) else 0
  }

  lemma {:induction false} SumOnUpdate<S>(xs: seq<S>, queues: nat, q: nat, i: nat, x: S, f: S -> nat)
    requires queues > 0 && i < |xs|
    ensures SumOn(xs[i := x], queues, q, f) + (if QueueOf(i, queues) == q then f(xs[i]) else 0)
         == SumOn(xs, queues, q, f) + (if QueueOf(i, queues) == q then f(x) else 0)
    decreases |xs|
  {
    hide QueueOf;
    var n := |xs| - 1;
    if i == n {
      assert xs[i := x][..n] == xs[..n];
    } else {
      assert xs[i := x][..n] == xs[..n][i := x];
      SumOnUpdate(xs[..n], queues, q, i, x, f);
    }
  }

  lemma {:induction false} SumOnNone<S>(xs: seq<S>, queues: nat, q: nat, f: S -> nat)
    requires queues > 0
    requires forall i :: 0 <= i < |xs| && QueueOf(i, queues) == q ==> f(xs[i]) == 0
    ensures SumOn(xs, queues, q, f) == 0
    decreases |xs|
  {
    hide QueueOf;
    if xs == [] {
    } else {
      SumOnNone(xs[..|xs| - 1], queues, q, f);
    }
  }

  lemma {:induction false} SumOnSame<S>(xs: seq<S>, queues: nat, q: nat, f: S -> nat, g: S -> nat)
    requires queues > 0 && forall i :: 0 <= i < |xs| && QueueOf(i, queues) == q ==> f(xs[i]) == g(xs[i])
    ensures SumOn(xs, queues, q, f) == SumOn(xs, queues, q, g)
    decreases |xs|
  {
    hide QueueOf;
    if xs == [] {
    } else {
      SumOnSame(xs[..|xs| - 1], queues, q, f, g);
    }
  }

  // ---------- The threads ----------

  /** The next shared access of a sender, with its locals. */
  datatype SenderAt =
    | CheckSent | CheckCompleted | Reserve
    | Place(batch: U32) | Return(batch: U32, placed: U32) | Publish(placed: U32) | Count(placed: U32)
    | Left

  datatype Sender = Sender(at: SenderAt, counter: U32)

  /** The next shared access of a completer, with its locals. */
  datatype CompleterAt =
    | LoadCompleted | LoadSent(current: U32) | Reap(limit: U32) | Add(reaped: U32) | AddCounter(reaped: U32)
    | Ended

  datatype Completer = Completer(at: CompleterAt, counter: U32)

  /**
   `committed` and `reaped` count the descriptors given to the kernel and the completions taken;
   `outstanding` are, for each device queue, those given to it and not taken yet.
   */
  datatype State = State(
    total: U32, batch: U32,
    reserved: U32, sent: U32, completed: U32,
    committed: nat, reaped: nat, outstanding: seq<nat>,
    senders: seq<Sender>, completers: seq<Completer>)

  function Grant(s: State): U32 { Min(SaturatingSub(s.total, s.reserved), s.batch) }

  /** Socket `i` gives `n` descriptors to the kernel. */
  function Deliver(outstanding: seq<nat>, i: nat, n: nat): (r: seq<nat>)
    ensures |r| == |outstanding|
    ensures n == 0 ==> r == outstanding
  {
    if outstanding == [] then []
    else
      var q := QueueOf(i, |outstanding|);
      outstanding[q := outstanding[q] + n]
  }

  /** One access of sender `i`, `t`. `room` is what the rings allow: descriptors placed by `insert`. */
  function SenderStep(s: State, i: nat, t: Sender, room: nat): (State, Sender) {
    match t.at
    case CheckSent =>
      (s, t.(at := if s.sent >= s.total then CheckCompleted else Reserve))
    case CheckCompleted =>
      (s, t.(at := if s.completed >= s.total then Left else Reserve))
    case Reserve =>
      (s.(reserved := WrapAdd(s.reserved, Grant(s))), t.(at := Place(Grant(s))))
    case Place(batch) =>
      var placed := Min(room, batch);
      (s.(committed := s.committed + placed, outstanding := Deliver(s.outstanding, i, placed)),
       t.(at := Return(batch, placed)))
    case Return(batch, placed) =>
      (s.(reserved := WrapSub(s.reserved, WrapSub(batch, placed))), t.(at := Publish(placed)))
    case Publish(placed) =>
      (s.(sent := WrapAdd(s.sent, placed)), t.(at := Count(placed)))
    case Count(placed) =>
      (s, Sender(CheckSent, WrapAdd(t.counter, placed)))
    case Left => (s, t)
  }

  /**
   One access of completer `i`, `t`, the owner of device queue `i`. The kernel completes each descriptor
   at most once, on the queue of its socket; `ready` is how many it completed there by now.
   */
  function CompleterStep(s: State, i: nat, t: Completer, ready: nat): (State, Completer)
    requires i < |s.outstanding|
  {
    match t.at
    case LoadCompleted =>
      (s, t.(at := if s.completed == s.total then Ended else LoadSent(s.completed)))
    case LoadSent(current) =>
      (s, t.(at := Reap(Min(SaturatingSub(s.sent, current), s.batch))))
    case Reap(limit) =>
      var n := Min(Min(ready, limit), s.outstanding[i]);
      (s.(reaped := s.reaped + n, outstanding := s.outstanding[i := s.outstanding[i] - n]), t.(at := Add(n)))
    case Add(reaped) =>
      (s.(completed := WrapAdd(s.completed, reaped)), t.(at := AddCounter(reaped)))
    case AddCounter(reaped) =>
      (s, Completer(LoadCompleted, WrapAdd(t.counter, reaped)))
    case Ended => (s, t)
  }

  /** Thread `i` runs next; `k` is what its ring accepts or yields if that access is one to a ring. */
  datatype Turn = SenderTurn(i: nat, k: nat) | CompleterTurn(i: nat, k: nat)

  function Apply(s: State, turn: Turn): State {
    match turn
    case SenderTurn(i, k) =>
      if i >= |s.senders| then s
      else var (s', t) := SenderStep(s, i, s.senders[i], k); s'.(senders := s.senders[i := t])
    case CompleterTurn(i, k) =>
      if i >= |s.completers| || i >= |s.outstanding| then s
      else var (s', t) := CompleterStep(s, i, s.completers[i], k); s'.(completers := s.completers[i := t])
  }

  function Exec(s: State, turns: seq<Turn>): State
    decreases |turns|
  {
    if turns == [] then s else Apply(Exec(s, turns[..|turns| - 1]), turns[|turns| - 1])
  }

  function Start(total: U32, batch: U32, senders: nat, completers: nat): State {
    State(total, batch, 0, 0, 0, 0, 0, seq(completers, _ => 0),
          seq(senders, _ => Sender(CheckSent, 0)), seq(completers, _ => Completer(LoadCompleted, 0)))
  }

  // ---------- What each thread holds at its program point ----------

  /** Reserved and neither returned nor published. */
  function Holds(t: Sender): nat {
    match t.at
    case Place(batch) => batch
    case Return(batch, _) => batch
    case Publish(placed) => placed
    case _ => 0
  }

  /** Given to the kernel and not yet published in `sent`. */
  function Unpublished(t: Sender): nat {
    match t.at
    case Return(_, placed) => placed
    case Publish(placed) => placed
    case _ => 0
  }

  /** Published and not yet counted for its socket. */
  function Uncounted(t: Sender): nat { if t.at.Count? then t.at.placed else 0 }

  function SocketCount(t: Sender): nat { t.counter }

  /** Reaped and not yet published in `completed`. */
  function Unadded(t: Completer): nat { if t.at.Add? then t.at.reaped else 0 }

  function UncountedReaps(t: Completer): nat { if t.at.AddCounter? then t.at.reaped else 0 }

  function QueueCount(t: Completer): nat { t.counter }

  /** All that a sender gave to the kernel, and all that a completer took from its queue. */
  function Placed(t: Sender): nat { SocketCount(t) + Uncounted(t) + Unpublished(t) }

  function Taken(t: Completer): nat { QueueCount(t) + UncountedReaps(t) + Unadded(t) }

  function Pending(n: nat): nat { n }

  ghost predicate SenderOk(s: State, t: Sender) {
    match t.at
    case CheckCompleted => s.sent >= s.total
    case Place(batch) => batch <= s.batch
    case Return(batch, placed) => placed <= batch <= s.batch
    case Left => s.sent >= s.total && s.completed >= s.total
    case _ => true
  }

  ghost predicate CompleterOk(s: State, t: Completer) {
    match t.at
    case Reap(limit) => limit <= s.batch
    case Ended => s.completed == s.total
    case _ => true
  }

  /** The budget: the shared counters are exact sums of what the threads hold, and stay within `total`. */
  ghost predicate Budget(s: State) {
    && s.reserved == s.sent + SumBy(s.senders, Holds)
    && s.committed == s.sent + SumBy(s.senders, Unpublished)
    && s.reserved <= s.total
    && s.sent == SumBy(s.senders, SocketCount) + SumBy(s.senders, Uncounted)
  }

  /** Completions: `completed` lags what was reaped, and what was committed is reaped or outstanding. */
  ghost predicate Completions(s: State) {
    && s.reaped == s.completed + SumBy(s.completers, Unadded)
    && s.reaped <= s.committed
    && (s.completers != [] ==> s.reaped + SumBy(s.outstanding, Pending) == s.committed)
    && s.completed == SumBy(s.completers, QueueCount) + SumBy(s.completers, UncountedReaps)
  }

  ghost predicate Threads(s: State) {
    && (forall t :: t in s.senders ==> SenderOk(s, t))
    && (forall t :: t in s.completers ==> CompleterOk(s, t))
  }

  /** Each device queue: what its sockets placed is outstanding on it or was taken by its completer. */
  ghost predicate Queues(s: State) {
    && |s.outstanding| == |s.completers|
    && forall q :: 0 <= q < |s.completers| ==>
         SumOn(s.senders, |s.completers|, q, Placed) == s.outstanding[q] + Taken(s.completers[q])
  }

  ghost predicate Inv(s: State) { Budget(s) && Completions(s) && Threads(s) && Queues(s) }

  /** Committed descriptors never exceed the reservation, so `completed` never exceeds `total`. */
  lemma Within(s: State)
    requires Inv(s)
    ensures s.completed <= s.reaped <= s.committed <= s.reserved <= s.total
    ensures s.sent <= s.committed
  {
    forall t | t in s.senders
      ensures Unpublished(t) <= Holds(t)
    {
      assert SenderOk(s, t);
    }
    SumBelow(s.senders, Unpublished, Holds);
  }

  lemma StartInv(total: U32, batch: U32, senders: nat, completers: nat)
    ensures Inv(Start(total, batch, senders, completers))
  {
    var s := Start(total, batch, senders, completers);
    SumNone(s.senders, Holds);
    SumNone(s.senders, Unpublished);
    SumNone(s.senders, SocketCount);
    SumNone(s.senders, Uncounted);
    SumNone(s.completers, Unadded);
    SumNone(s.completers, QueueCount);
    SumNone(s.completers, UncountedReaps);
    SumNone(s.outstanding, Pending);
    forall q | 0 <= q < completers
      ensures SumOn(s.senders, completers, q, Placed) == 0
    {
      SumOnNone(s.senders, completers, q, Placed);
    }
  }

  lemma WrapExact(a: U32, b: U32)
    ensures a + b < MODULUS ==> WrapAdd(a, b) == a + b
    ensures b <= a ==> WrapSub(a, b) == a - b
  {
  }

  /** A reservation takes a full batch, or all that is left of the budget. */
  lemma GrantFits(s: State)
    requires s.reserved <= s.total
    ensures s.reserved + Grant(s) == Min(s.total, s.reserved + s.batch)
  {
  }

  /** What one access changes in the counters, it changes in what its thread holds. */
  lemma SenderBalance(s: State, i: nat, t: Sender, k: nat)
    requires SenderOk(s, t) && s.reserved <= s.total
    requires s.sent + Holds(t) <= s.reserved && SocketCount(t) + Uncounted(t) <= s.sent
    ensures var (s', t') := SenderStep(s, i, t, k);
            && s'.reserved - s'.sent - Holds(t') == s.reserved - s.sent - Holds(t)
            && s'.committed - s'.sent - Unpublished(t') == s.committed - s.sent - Unpublished(t)
            && s'.sent - SocketCount(t') - Uncounted(t') == s.sent - SocketCount(t) - Uncounted(t)
            && s'.reserved <= s.total && s.sent <= s'.sent && s.committed <= s'.committed && SenderOk(s', t')
            && s'.completed == s.completed && s'.reaped == s.reaped && s'.completers == s.completers
            && s'.total == s.total && s'.batch == s.batch && s'.senders == s.senders
            && s'.outstanding == Deliver(s.outstanding, i, s'.committed - s.committed)
  {
    hide Low, WrapAdd, WrapSub, Grant, Deliver;
    match t.at
    case Reserve =>
      GrantFits(s);
      WrapExact(s.reserved, Grant(s));
    case Return(batch, placed) =>
      WrapExact(batch, placed);
      WrapExact(s.reserved, batch - placed);
    case Publish(placed) =>
      WrapExact(s.sent, placed);
    case Count(placed) =>
      WrapExact(t.counter, placed);
    case _ =>
  }

  /** Delivered descriptors are outstanding on the queue of their socket and on no other. */
  lemma DeliveredTo(outstanding: seq<nat>, i: nat, n: nat, q: nat)
    requires q < |outstanding|
    ensures Deliver(outstanding, i, n)[q] == outstanding[q] + if QueueOf(i, |outstanding|) == q then n else 0
  {
  }

  lemma DeliveredSum(outstanding: seq<nat>, i: nat, n: nat)
    requires outstanding != []
    ensures SumBy(Deliver(outstanding, i, n), Pending) == SumBy(outstanding, Pending) + n
  {
    hide SumBy;
    var q := QueueOf(i, |outstanding|);
    SumUpdate<nat>(outstanding, q, outstanding[q] + n, Pending);
  }

  lemma SenderFits(s: State, i: nat)
    requires Inv(s) && i < |s.senders|
    ensures SenderOk(s, s.senders[i]) && s.reserved <= s.total
    ensures s.sent + Holds(s.senders[i]) <= s.reserved
    ensures SocketCount(s.senders[i]) + Uncounted(s.senders[i]) <= s.sent
  {
    hide SumBy, SumOn, Holds, SocketCount, Uncounted, SenderOk;
    var t := s.senders[i];
    SumUpdate(s.senders, i, t, Holds);
    SumUpdate(s.senders, i, t, SocketCount);
    SumUpdate(s.senders, i, t, Uncounted);
  }

  lemma SenderKeepsBudget(s: State, i: nat, k: nat)
    requires Inv(s) && i < |s.senders|
    ensures Budget(Apply(s, SenderTurn(i, k)))
    ensures var s' := Apply(s, SenderTurn(i, k));
            && s.sent <= s'.sent && s.committed <= s'.committed
            && s'.completed == s.completed && s'.reaped == s.reaped && s'.completers == s.completers
            && s'.total == s.total && s'.batch == s.batch && SenderOk(s', s'.senders[i])
  {
    hide SumBy, SumOn, SenderStep, Holds, Unpublished, SocketCount, Uncounted, Completions, Threads, Queues;
    SenderFits(s, i);
    var t := s.senders[i];
    var (_, t') := SenderStep(s, i, t, k);
    SumUpdate(s.senders, i, t', Holds);
    SumUpdate(s.senders, i, t', Unpublished);
    SumUpdate(s.senders, i, t', SocketCount);
    SumUpdate(s.senders, i, t', Uncounted);
    SenderBalance(s, i, t, k);
  }

  /** What a sender places becomes outstanding on the queue of its socket. */
  lemma SenderKeepsQueues(s: State, i: nat, k: nat)
    requires Inv(s) && i < |s.senders|
    ensures var s' := Apply(s, SenderTurn(i, k));
            && Queues(s')
            && (s'.completers != [] ==> s'.reaped + SumBy(s'.outstanding, Pending) == s'.committed)
  {
    hide SumBy, SumOn, SenderStep, Holds, Unpublished, SocketCount, Uncounted, Deliver, QueueOf, Taken;
    hide Budget, Threads, SenderOk;
    SenderFits(s, i);
    SenderBalance(s, i, s.senders[i], k);
    var s', t := Apply(s, SenderTurn(i, k)), s.senders[i];
    var (_, t') := SenderStep(s, i, t, k);
    var n := s'.committed - s.committed;
    assert Placed(t') == Placed(t) + n;
    if s.completers != [] {
      DeliveredSum(s.outstanding, i, n);
    }
    forall q | 0 <= q < |s.completers|
      ensures SumOn(s'.senders, |s.completers|, q, Placed) == s'.outstanding[q] + Taken(s.completers[q])
    {
      DeliveredTo(s.outstanding, i, n, q);
      SumOnUpdate(s.senders, |s.completers|, q, i, t', Placed);
    }
  }

  lemma SenderKeepsInv(s: State, i: nat, k: nat)
    requires Inv(s)
    ensures Inv(Apply(s, SenderTurn(i, k)))
  {
    if i < |s.senders| {
      SenderKeepsBudget(s, i, k);
      SenderKeepsQueues(s, i, k);
      var s' := Apply(s, SenderTurn(i, k));
      hide SumBy, SumOn, Low, SenderStep, Queues;
      forall t | t in s'.senders
        ensures SenderOk(s', t)
      {
        if t != s'.senders[i] {
          assert t in s.senders;
        }
      }
    }
  }

  lemma CompleterFits(s: State, i: nat)
    requires Inv(s) && i < |s.completers|
    ensures s.completed <= s.reaped <= s.total && s.completed + Unadded(s.completers[i]) <= s.reaped
    ensures QueueCount(s.completers[i]) + UncountedReaps(s.completers[i]) <= s.completed
    ensures CompleterOk(s, s.completers[i])
  {
    Within(s);
    hide SumBy, SumOn, Unadded, QueueCount, UncountedReaps, CompleterOk;
    var t := s.completers[i];
    SumUpdate(s.completers, i, t, Unadded);
    SumUpdate(s.completers, i, t, QueueCount);
    SumUpdate(s.completers, i, t, UncountedReaps);
  }

  /** What one access changes in the counters, it changes in what its completer took. */
  lemma CompleterBalance(s: State, i: nat, t: Completer, k: nat)
    requires i < |s.outstanding| && CompleterOk(s, t) && s.completed + Unadded(t) <= s.total
    requires QueueCount(t) + UncountedReaps(t) <= s.completed
    ensures var (s', t') := CompleterStep(s, i, t, k);
            && s'.reaped - s'.completed - Unadded(t') == s.reaped - s.completed - Unadded(t)
            && s'.completed - QueueCount(t') - UncountedReaps(t') == s.completed - QueueCount(t) - UncountedReaps(t)
            && s'.outstanding == s.outstanding[i := s'.outstanding[i]]
            && s'.reaped + s'.outstanding[i] == s.reaped + s.outstanding[i]
            && s.completed <= s'.completed <= s.total && s.reaped <= s'.reaped && CompleterOk(s', t')
            && s'.sent == s.sent && s'.reserved == s.reserved && s'.committed == s.committed
            && s'.senders == s.senders && s'.completers == s.completers
            && s'.total == s.total && s'.batch == s.batch
  {
    hide Low, WrapAdd;
    match t.at
    case Add(reaped) =>
      WrapExact(s.completed, reaped);
    case AddCounter(reaped) =>
      WrapExact(t.counter, reaped);
    case _ =>
  }

  lemma CompleterKeepsCounts(s: State, i: nat, k: nat)
    requires Inv(s) && i < |s.completers|
    ensures Completions(Apply(s, CompleterTurn(i, k)))
    ensures var s' := Apply(s, CompleterTurn(i, k));
            && s.completed <= s'.completed <= s.total && s.reaped <= s'.reaped
            && s'.sent == s.sent && s'.reserved == s.reserved && s'.committed == s.committed
            && s'.senders == s.senders && s'.total == s.total && s'.batch == s.batch
            && CompleterOk(s', s'.completers[i])
  {
    hide SumBy, SumOn, CompleterStep, Unadded, QueueCount, UncountedReaps, Budget, Threads;
    CompleterFits(s, i);
    CompleterBalance(s, i, s.completers[i], k);
    var s', t := Apply(s, CompleterTurn(i, k)), s.completers[i];
    var (_, t') := CompleterStep(s, i, t, k);
    SumUpdate(s.completers, i, t', Unadded);
    SumUpdate(s.completers, i, t', QueueCount);
    SumUpdate(s.completers, i, t', UncountedReaps);
    SumUpdate(s.outstanding, i, s'.outstanding[i], Pending);
  }

  /** What a completer reaps leaves its own queue and no other. */
  lemma CompleterKeepsQueues(s: State, i: nat, k: nat)
    requires Inv(s) && i < |s.completers|
    ensures Queues(Apply(s, CompleterTurn(i, k)))
  {
    CompleterFits(s, i);
    CompleterBalance(s, i, s.completers[i], k);
    hide SumBy, SumOn, CompleterStep, Unadded, QueueCount, UncountedReaps;
  }

  lemma CompleterKeepsInv(s: State, i: nat, k: nat)
    requires Inv(s)
    ensures Inv(Apply(s, CompleterTurn(i, k)))
  {
    if i < |s.completers| {
      CompleterKeepsCounts(s, i, k);
      CompleterKeepsQueues(s, i, k);
      var s' := Apply(s, CompleterTurn(i, k));
      hide SumBy, SumOn, Low, CompleterStep, Queues;
      forall t | t in s'.completers
        ensures CompleterOk(s', t)
      {
        if t != s'.completers[i] {
          assert t in s.completers;
        }
      }
    }
  }

  lemma StepKeepsInv(s: State, turn: Turn)
    requires Inv(s)
    ensures Inv(Apply(s, turn))
  {
    match turn
    case SenderTurn(i, k) => SenderKeepsInv(s, i, k);
    case CompleterTurn(i, k) => CompleterKeepsInv(s, i, k);
  }

  /** A run leads from one state to the other. */
  ghost predicate Reaches(s: State, s': State) {
    exists turns :: Exec(s, turns) == s'
  }

  lemma ReachesItself(s: State)
    ensures Reaches(s, s)
  {
    assert Exec(s, []) == s;
  }

  lemma ReachesNext(s: State, s': State, turn: Turn)
    requires Reaches(s, s')
    ensures Reaches(s, Apply(s', turn))
  {
    hide Apply;
    var turns :| Exec(s, turns) == s';
    assert (turns + [turn])[..|turns|] == turns;
    assert Exec(s, turns + [turn]) == Apply(s', turn);
  }

  lemma {:induction false} InvAlways(s: State, turns: seq<Turn>)
    requires Inv(s)
    ensures Inv(Exec(s, turns))
    decreases |turns|
  {
    if turns == [] {
    } else {
      var before, turn := turns[..|turns| - 1], turns[|turns| - 1];
      InvAlways(s, before);
      StepKeepsInv(Exec(s, before), turn);
    }
  }

  // ---------- Main results ----------

  /**
   Any number of senders, every interleaving: `sent_reserved` is `sent` plus what the senders hold at
   their program points, and what reached the kernel stays within the reservation and the total.
   */
  lemma BudgetAlways(total: U32, batch: U32, senders: nat, completers: nat, turns: seq<Turn>)
    ensures var s := Exec(Start(total, batch, senders, completers), turns);
            && s.reserved == s.sent + SumBy(s.senders, Holds)
            && s.committed == s.sent + SumBy(s.senders, Unpublished)
            && s.committed <= s.reserved <= total
  {
    StartInv(total, batch, senders, completers);
    InvAlways(Start(total, batch, senders, completers), turns);
    TotalKept(Start(total, batch, senders, completers), turns);
    Within(Exec(Start(total, batch, senders, completers), turns));
  }

  /** Any number of completers: the exact test `current == total` can not be jumped over. */
  lemma CompletedNeverPassesTotal(total: U32, batch: U32, senders: nat, completers: nat, turns: seq<Turn>)
    ensures var s := Exec(Start(total, batch, senders, completers), turns);
            s.completed + SumBy(s.completers, Unadded) <= s.committed <= total
  {
    StartInv(total, batch, senders, completers);
    InvAlways(Start(total, batch, senders, completers), turns);
    TotalKept(Start(total, batch, senders, completers), turns);
    Within(Exec(Start(total, batch, senders, completers), turns));
  }

  lemma StepKeepsTotal(s: State, turn: Turn)
    ensures var s' := Apply(s, turn);
            && s'.total == s.total && s'.batch == s.batch
            && |s'.senders| == |s.senders| && |s'.completers| == |s.completers|
  {
    hide Low, WrapAdd, WrapSub, Grant;
  }

  lemma {:induction false} TotalKept(s: State, turns: seq<Turn>)
    ensures var s' := Exec(s, turns);
            && s'.total == s.total && s'.batch == s.batch
            && |s'.senders| == |s.senders| && |s'.completers| == |s.completers|
    decreases |turns|
  {
    if turns == [] {
    } else {
      TotalKept(s, turns[..|turns| - 1]);
      hide Apply;
      StepKeepsTotal(Exec(s, turns[..|turns| - 1]), turns[|turns| - 1]);
    }
  }

  /** Some addition or subtraction on an accounting counter, plain or atomic, leaves the 32-bit range. */
  ghost predicate Overflows(s: State, turn: Turn) {
    match turn
    case SenderTurn(i, k) =>
      i < |s.senders| &&
      (match s.senders[i].at
       case Reserve => s.reserved + Grant(s) >= MODULUS
       case Return(batch, placed) => placed > batch || batch - placed > s.reserved
       case Publish(placed) => s.sent + placed >= MODULUS
       case Count(placed) => s.senders[i].counter + placed >= MODULUS
       case _ => false)
    case CompleterTurn(i, k) =>
      i < |s.completers| &&
      (match s.completers[i].at
       case Add(reaped) => s.completed + reaped >= MODULUS
       case AddCounter(reaped) => s.completers[i].counter + reaped >= MODULUS
       case _ => false)
  }

  lemma TurnInRange(s: State, turn: Turn)
    requires Inv(s)
    ensures !Overflows(s, turn)
  {
    hide SumBy, Low;
    Within(s);
    match turn
    case SenderTurn(i, k) =>
      if i < |s.senders| {
        assert SenderOk(s, s.senders[i]);
        SumUpdate(s.senders, i, s.senders[i], Holds);
        SumUpdate(s.senders, i, s.senders[i], Unpublished);
        SumUpdate(s.senders, i, s.senders[i], SocketCount);
        SumUpdate(s.senders, i, s.senders[i], Uncounted);
      }
    case CompleterTurn(i, k) =>
      if i < |s.completers| {
        SumUpdate(s.completers, i, s.completers[i], Unadded);
        SumUpdate(s.completers, i, s.completers[i], QueueCount);
        SumUpdate(s.completers, i, s.completers[i], UncountedReaps);
      }
  }

  /** In every run, no sender asks for, and no completer reaps, more than a batch at once. */
  lemma BatchCap(total: U32, batch: U32, senders: nat, completers: nat, turns: seq<Turn>)
    ensures var s := Exec(Start(total, batch, senders, completers), turns);
            && (forall t :: t in s.senders && t.at.Place? ==> t.at.batch <= batch)
            && (forall t :: t in s.completers && t.at.Reap? ==> t.at.limit <= batch)
  {
    StartInv(total, batch, senders, completers);
    InvAlways(Start(total, batch, senders, completers), turns);
    TotalKept(Start(total, batch, senders, completers), turns);
    var s := Exec(Start(total, batch, senders, completers), turns);
    assert forall t :: t in s.senders ==> SenderOk(s, t);
    assert forall t :: t in s.completers ==> CompleterOk(s, t);
  }

  /** Sockets go round the device queues in turn. */
  lemma QueuesInTurn(i: nat, queues: nat)
    requires queues > 0
    ensures i < queues ==> QueueOf(i, queues) == i
    ensures QueueOf(i + queues, queues) == QueueOf(i, queues)
  {
    ModCongruent(i + queues, queues, i, 1, 1);
  }

  /** In every run, no turn overflows in the state it runs in. */
  lemma NothingOverflows(total: U32, batch: U32, senders: nat, completers: nat, turns: seq<Turn>)
    ensures forall k :: 0 <= k < |turns| ==>
              !Overflows(Exec(Start(total, batch, senders, completers), turns[..k]), turns[k])
  {
    hide Overflows, Exec, Start, Inv;
    var s0 := Start(total, batch, senders, completers);
    StartInv(total, batch, senders, completers);
    forall k | 0 <= k < |turns|
      ensures !Overflows(Exec(s0, turns[..k]), turns[k])
    {
      InvAlways(s0, turns[..k]);
      TurnInRange(Exec(s0, turns[..k]), turns[k]);
    }
  }

  /** In every run, each completer takes from its queue what the sockets bound to that queue placed. */
  lemma QueuesApart(total: U32, batch: U32, senders: nat, completers: nat, turns: seq<Turn>, q: nat)
    requires q < completers
    ensures var s := Exec(Start(total, batch, senders, completers), turns);
            && |s.outstanding| == |s.completers| == completers
            && Taken(s.completers[q]) + s.outstanding[q] == SumOn(s.senders, completers, q, Placed)
  {
    StartInv(total, batch, senders, completers);
    InvAlways(Start(total, batch, senders, completers), turns);
    TotalKept(Start(total, batch, senders, completers), turns);
  }

  /**
   At join, with at least one thread: every counter is the total, the statistics add up to it, no
   completion is left on a ring, and each queue counted what its sockets counted.
   */
  lemma AtJoin(total: U32, batch: U32, senders: nat, completers: nat, turns: seq<Turn>)
    requires senders + completers > 0
    requires var s := Exec(Start(total, batch, senders, completers), turns);
             && (forall t :: t in s.senders ==> t.at.Left?)
             && (forall t :: t in s.completers ==> t.at.Ended?)
    ensures var s := Exec(Start(total, batch, senders, completers), turns);
            && s.reserved == s.sent == s.completed == total
            && SumBy(s.senders, SocketCount) == total
            && SumBy(s.completers, QueueCount) == total
            && |s.outstanding| == |s.completers| == completers
            && (forall q :: 0 <= q < completers ==>
                  && s.outstanding[q] == 0
                  && s.completers[q].counter == SumOn(s.senders, completers, q, SocketCount))
  {
    var s0 := Start(total, batch, senders, completers);
    var s := Exec(s0, turns);
    StartInv(total, batch, senders, completers);
    InvAlways(s0, turns);
    TotalKept(s0, turns);
    JoinedState(s);
    JoinedQueues(s);
  }

  lemma JoinedState(s: State)
    requires Inv(s) && |s.senders| + |s.completers| > 0
    requires forall t :: t in s.senders ==> t.at.Left?
    requires forall t :: t in s.completers ==> t.at.Ended?
    ensures s.reserved == s.sent == s.completed == s.total
    ensures SumBy(s.senders, SocketCount) == s.total && SumBy(s.completers, QueueCount) == s.total
  {
    hide SumBy, Low;
    Within(s);
    SumNone(s.senders, Holds);
    SumNone(s.senders, Unpublished);
    SumNone(s.senders, Uncounted);
    SumNone(s.completers, Unadded);
    SumNone(s.completers, UncountedReaps);
    if |s.senders| > 0 {
      assert s.senders[0] in s.senders;
    } else {
      assert s.completers[0] in s.completers;
    }
  }

  lemma JoinedQueues(s: State)
    requires Inv(s) && s.completed == s.total
    requires forall t :: t in s.senders ==> t.at.Left?
    requires forall t :: t in s.completers ==> t.at.Ended?
    ensures |s.outstanding| == |s.completers|
    ensures forall q :: 0 <= q < |s.completers| ==>
              && s.outstanding[q] == 0
              && s.completers[q].counter == SumOn(s.senders, |s.completers|, q, SocketCount)
  {
    hide SumBy, SumOn, Low;
    Within(s);
    forall q | 0 <= q < |s.completers|
      ensures s.outstanding[q] == 0
      ensures s.completers[q].counter == SumOn(s.senders, |s.completers|, q, SocketCount)
    {
      SumUpdate(s.outstanding, q, s.outstanding[q], Pending);
      assert s.completers[q] in s.completers;
      SumOnSame(s.senders, |s.completers|, q, Placed, SocketCount);
    }
  }

  // ---------- One completer, or one sender ----------

  /** All but the first completer took nothing, and the first one is not ahead of `sent`. */
  ghost predicate FirstOnly(s: State) {
    && |s.completers| >= 1
    && (forall j :: 1 <= j < |s.completers| ==> Taken(s.completers[j]) == 0)
    && match s.completers[0].at
       case LoadSent(current) => current == s.completed <= s.sent
       case Reap(limit) => s.completed + limit <= s.sent
       case Add(reaped) => s.completed + reaped <= s.sent
       case _ => s.completed <= s.sent
  }

  /** One sender fills only the first queue. */
  lemma OthersTookNothing(s: State)
    requires Inv(s) && (|s.senders| <= 1 || |s.completers| == 1)
    ensures forall j :: 1 <= j < |s.completers| ==> Taken(s.completers[j]) == 0
  {
    forall j | 1 <= j < |s.completers|
      ensures Taken(s.completers[j]) == 0
    {
      SumOnNone(s.senders, |s.completers|, j, Placed);
    }
  }

  /** The first completer after its own turn. */
  lemma FirstTurn(s: State, k: nat)
    requires Inv(s) && FirstOnly(s)
    ensures FirstOnly(Apply(s, CompleterTurn(0, k)))
  {
    CompleterFits(s, 0);
    hide SumBy, SumOn, Low, WrapAdd, Budget, Completions, Threads;
    if s.completers[0].at.Add? {
      WrapExact(s.completed, s.completers[0].at.reaped);
    }
  }

  /** The first completer while another thread runs: `sent` only grows and `completed` stands still. */
  lemma FirstWaits(s: State, s': State)
    requires FirstOnly(s) && s.sent <= s'.sent && s'.completed == s.completed
    requires |s'.completers| >= 1 && s'.completers[0] == s.completers[0]
    requires forall j :: 1 <= j < |s'.completers| ==> Taken(s'.completers[j]) == 0
    ensures FirstOnly(s')
  {
    hide Taken;
  }

  lemma OtherAdvances(s: State, i: nat, k: nat)
    requires Inv(s) && 1 <= i < |s.completers| && Taken(s.completers[i]) == 0
    ensures var s' := Apply(s, CompleterTurn(i, k));
            s'.completed == s.completed && s'.sent == s.sent && s'.completers[0] == s.completers[0]
  {
    WrapExact(s.completed, 0);
    hide SumBy, SumOn, Low, WrapAdd, Budget, Completions, Threads;
  }

  lemma FirstOnlyStep(s: State, turn: Turn)
    requires Inv(s) && FirstOnly(s) && (|s.senders| <= 1 || |s.completers| == 1)
    ensures FirstOnly(Apply(s, turn))
  {
    StepKeepsInv(s, turn);
    StepKeepsTotal(s, turn);
    OthersTookNothing(Apply(s, turn));
    match turn
    case SenderTurn(i, k) =>
      if i < |s.senders| {
        SenderKeepsBudget(s, i, k);
        hide Inv, Apply;
        FirstWaits(s, Apply(s, turn));
      }
    case CompleterTurn(i, k) =>
      if i == 0 {
        FirstTurn(s, k);
      } else if i < |s.completers| {
        OtherAdvances(s, i, k);
        hide Inv, Apply;
        FirstWaits(s, Apply(s, turn));
      }
  }

  lemma {:induction false} FirstOnlyRun(s: State, turns: seq<Turn>)
    requires Inv(s) && FirstOnly(s) && (|s.senders| <= 1 || |s.completers| == 1)
    ensures FirstOnly(Exec(s, turns))
    decreases |turns|
  {
    if turns == [] {
    } else {
      var before := turns[..|turns| - 1];
      FirstOnlyRun(s, before);
      InvAlways(s, before);
      TotalKept(s, before);
      FirstOnlyStep(Exec(s, before), turns[|turns| - 1]);
    }
  }

  /** With a single completer, or a single sender, `completed` never runs ahead of `sent`. */
  lemma CompletedBehindSent(total: U32, batch: U32, senders: nat, completers: nat, turns: seq<Turn>)
    requires senders <= 1 || completers <= 1
    ensures var s := Exec(Start(total, batch, senders, completers), turns);
            s.completed <= s.sent
  {
    var s0 := Start(total, batch, senders, completers);
    StartInv(total, batch, senders, completers);
    if completers == 0 {
      InvAlways(s0, turns);
      TotalKept(s0, turns);
    } else {
      FirstOnlyRun(s0, turns);
    }
  }
}
