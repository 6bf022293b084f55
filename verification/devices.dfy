/** Which interface queues are taken: the shared control set, its guard, and the queues that own entries. */
module Devices {

  /** `IfCtx`. */
  datatype Ctx = Ctx(ifindex: nat, queueId: nat, netnsCookie: nat)

  datatype Errno = Errno(raw: int)

  datatype Result<T> = Ok(value: T) | Err(error: Errno)

  const EINVAL: int := 22

  /** `SpinLockedControlSet`: every method is one critical section of its lock. */
  class ControlSet {
    var inner: set<Ctx>

    constructor ()
      ensures inner == {}
    {
      inner := {};
    }

    method Insert(ctx: Ctx) returns (added: bool)
      modifies this
      ensures inner == old(inner) + {ctx} && added == (ctx !in old(inner))
    {
      added := ctx !in inner;
      inner := inner + {ctx};
    }

    method Remove(ctx: Ctx)
      modifies this
      ensures inner == old(inner) - {ctx}
    {
      inner := inner - {ctx};
    }
  }

  /** `DeviceQueue`: its context, and the control set it leaves when dropped. */
  class DeviceQueue {
    const ctx: Ctx
    const devices: ControlSet

    constructor (ctx: Ctx, devices: ControlSet)
      ensures this.ctx == ctx && this.devices == devices
    {
      this.ctx, this.devices := ctx, devices;
    }

    method Drop()
      modifies devices
      ensures devices.inner == old(devices.inner) - {ctx}
    {
      devices.Remove(ctx);
    }
  }

  /** How far the setup of the rings got: a foreign call may fail at each stage. */
  datatype Setup =
    | Mapped
    | CompletionRingRefused(e: Errno) | OffsetsRefused(e: Errno) | FillRefused(e: Errno) | CompletionRefused(e: Errno)

  class Umem {
    const devices: ControlSet

    constructor ()
      ensures fresh(devices) && devices.inner == {}
    {
      devices := new ControlSet();
    }

    /**
     `fq_cq`. The context stays taken exactly when a queue is returned for it; a failure at any stage
     restores the set, and a rejection leaves the entry of the other queue alone.
     */
    method FqCq(ctx: Ctx, setup: Setup) returns (r: Result<DeviceQueue>)
      modifies devices
      ensures r.Ok? <==> ctx !in old(devices.inner) && setup.Mapped?
      ensures r.Ok? ==> fresh(r.value) && r.value.ctx == ctx && r.value.devices == devices
      ensures devices.inner == if r.Ok? then old(devices.inner) + {ctx} else old(devices.inner)
      ensures ctx in old(devices.inner) ==> r == Err(Errno(EINVAL))
      ensures ctx !in old(devices.inner) && !setup.Mapped? ==> r == Err(setup.e)
    {
      var added := devices.Insert(ctx);
      if !added {
        return Err(Errno(EINVAL));
      }
      if !setup.Mapped? {
        // The guard `DropableDevice` runs on every early return.
        devices.Remove(ctx);
        return Err(setup.e);
      }
      var queue := new DeviceQueue(ctx, devices);
      r := Ok(queue);
    }
  }

  // ---------- Every run, with calls and drops on several threads ----------

  /**
   `building` are calls past their insert, guarded but not returned yet; `live` are the queues. A queue is
   live until its drop removes its context from the set; its rings are unmapped only after that.
   */
  datatype State = State(taken: set<Ctx>, building: seq<Ctx>, live: seq<Ctx>)
  {
    function Owners(): seq<Ctx> { building + live }
  }

  datatype Step =
    | Begin(ctx: Ctx)        // the insert of `fq_cq`, which may reject
    | Abort(i: nat)          // a stage of call `i` fails and its guard runs
    | Finish(i: nat)         // call `i` forgets its guard and returns its queue
    | DropQueue(i: nat)      // the drop of live queue `i` removes its context

  function Without<T>(s: seq<T>, i: nat): seq<T>
    requires i < |s|
  {
    s[..i] + s[i + 1..]
  }

  function Apply(s: State, step: Step): State {
    match step
    case Begin(ctx) =>
      if ctx in s.taken then s else State(s.taken + {ctx}, s.building + [ctx], s.live)
    case Abort(i) =>
      if i >= |s.building| then s else State(s.taken - {s.building[i]}, Without(s.building, i), s.live)
    case Finish(i) =>
      if i >= |s.building| then s else State(s.taken, Without(s.building, i), s.live + [s.building[i]])
    case DropQueue(i) =>
      if i >= |s.live| then s else State(s.taken - {s.live[i]}, s.building, Without(s.live, i))
  }

  function Exec(s: State, steps: seq<Step>): State
    decreases |steps|
  {
    if steps == [] then s else Apply(Exec(s, steps[..|steps| - 1]), steps[|steps| - 1])
  }

  /** Each taken context has exactly one owner, a call in progress or a live queue. */
  ghost predicate Exclusive(s: State) {
    multiset(s.taken) == multiset(s.building) + multiset(s.live)
  }

  lemma WithoutOne<T>(s: seq<T>, i: nat)
    requires i < |s|
    ensures multiset(Without(s, i)) == multiset(s) - multiset{s[i]}
    ensures s[i] in multiset(s)
  {
    assert s == s[..i] + [s[i]] + s[i + 1..];
  }

  lemma TakenWithout(taken: set<Ctx>, c: Ctx)
    ensures c in taken ==> multiset(taken - {c}) == multiset(taken) - multiset{c}
    ensures c !in taken ==> multiset(taken + {c}) == multiset(taken) + multiset{c}
    ensures c in taken <==> c in multiset(taken)
    ensures multiset(taken)[c] <= 1
  {
  }

  /** Giving up an entry takes it from its one owner and from the set. */
  lemma Leaves(taken: set<Ctx>, owners: seq<Ctx>, others: seq<Ctx>, i: nat)
    requires multiset(taken) == multiset(owners) + multiset(others) && i < |owners|
    ensures multiset(taken - {owners[i]}) == multiset(Without(owners, i)) + multiset(others)
  {
    hide Without;
    WithoutOne(owners, i);
    TakenWithout(taken, owners[i]);
  }

  lemma Moves(from: seq<Ctx>, to: seq<Ctx>, i: nat)
    requires i < |from|
    ensures multiset(Without(from, i)) + multiset(to + [from[i]]) == multiset(from) + multiset(to)
  {
    hide Without;
    WithoutOne(from, i);
  }

  lemma StepKeepsExclusive(s: State, step: Step)
    requires Exclusive(s)
    ensures Exclusive(Apply(s, step))
  {
    hide Without;
    match step
    case Begin(ctx) =>
      TakenWithout(s.taken, ctx);
    case Abort(i) =>
      if i < |s.building| {
        Leaves(s.taken, s.building, s.live, i);
      }
    case Finish(i) =>
      if i < |s.building| {
        Moves(s.building, s.live, i);
      }
    case DropQueue(i) =>
      if i < |s.live| {
        Leaves(s.taken, s.live, s.building, i);
      }
  }

  /** Another owner than the one that gave up: still there, whatever index it has now. */
  lemma OthersStay(s: seq<Ctx>, i: nat)
    requires i < |s|
    ensures forall c :: c in s && c != s[i] ==> c in Without(s, i)
    ensures forall c :: c in Without(s, i) ==> c in s
  {
    assert s == s[..i] + [s[i]] + s[i + 1..];
  }

  /**
   The drop of a queue gives up the context of that queue and no other: it leaves the set and the owners,
   all others stay in both, and the next call for that context is accepted.
   */
  lemma DropGivesUpExactly(s: State, i: nat)
    requires Exclusive(s) && i < |s.live|
    ensures var c, d := s.live[i], Apply(s, DropQueue(i));
            && c in s.taken && c !in d.taken && c !in d.Owners()
            && (forall o :: o != c ==> (o in d.taken <==> o in s.taken))
            && (forall o :: o != c ==> (o in d.Owners() <==> o in s.Owners()))
            && d.building == s.building && |d.live| == |s.live| - 1
            && Apply(d, Begin(c)) == State(s.taken, s.building + [c], d.live)
  {
    var c, d := s.live[i], Apply(s, DropQueue(i));
    StepKeepsExclusive(s, DropQueue(i));
    OwnersDiffer(s);
    OwnersDiffer(d);
    OthersStay(s.live, i);
    assert c in s.Owners();
    assert d.taken + {c} == s.taken;
  }

  /** So does a call that fails, wherever it stands among the calls in progress. */
  lemma AbortGivesUpExactly(s: State, i: nat)
    requires Exclusive(s) && i < |s.building|
    ensures var c, d := s.building[i], Apply(s, Abort(i));
            && c in s.taken && c !in d.taken && c !in d.Owners()
            && (forall o :: o != c ==> (o in d.taken <==> o in s.taken))
            && (forall o :: o != c ==> (o in d.Owners() <==> o in s.Owners()))
            && d.live == s.live && |d.building| == |s.building| - 1
            && Apply(d, Begin(c)) == State(s.taken, d.building + [c], s.live)
  {
    var c, d := s.building[i], Apply(s, Abort(i));
    StepKeepsExclusive(s, Abort(i));
    OwnersDiffer(s);
    OwnersDiffer(d);
    OthersStay(s.building, i);
    assert c in s.Owners();
    assert d.taken + {c} == s.taken;
  }

  /** A call that succeeds hands its context to its queue, and changes nothing else. */
  lemma FinishHandsOver(s: State, i: nat)
    requires Exclusive(s) && i < |s.building|
    ensures var c, d := s.building[i], Apply(s, Finish(i));
            && d.taken == s.taken && c in d.live && c !in d.building
            && (forall o :: o != c ==> (o in d.building <==> o in s.building))
            && (forall o :: o != c ==> (o in d.live <==> o in s.live))
            && |d.live| == |s.live| + 1 && |d.building| == |s.building| - 1
  {
    var c, d := s.building[i], Apply(s, Finish(i));
    StepKeepsExclusive(s, Finish(i));
    OwnersDiffer(d);
    OthersStay(s.building, i);
    assert d.live[|s.live|] == c && d.Owners()[|d.building| + |s.live|] == c;
    forall j | 0 <= j < |d.building|
      ensures d.building[j] != c
    {
      assert d.Owners()[j] == d.building[j];
    }
  }

  lemma {:induction false} ExclusiveAlways(s: State, steps: seq<Step>)
    requires Exclusive(s)
    ensures Exclusive(Exec(s, steps))
    decreases |steps|
  {
    if steps == [] {
    } else {
      ExclusiveAlways(s, steps[..|steps| - 1]);
      StepKeepsExclusive(Exec(s, steps[..|steps| - 1]), steps[|steps| - 1]);
    }
  }

  lemma CountedTwice(s: seq<Ctx>, i: nat, j: nat)
    requires i < j < |s| && s[i] == s[j]
    ensures multiset(s)[s[i]] >= 2
  {
    WithoutOne(s, j);
    assert Without(s, j)[i] == s[i];
    assert s[i] in multiset(Without(s, j));
  }

  lemma OwnersDiffer(s: State)
    requires Exclusive(s)
    ensures forall i, j :: 0 <= i < j < |s.Owners()| ==> s.Owners()[i] != s.Owners()[j]
    ensures s.taken == set c | c in s.Owners()
  {
    var owners := s.Owners();
    assert multiset(owners) == multiset(s.taken);
    forall i, j | 0 <= i < j < |owners|
      ensures owners[i] != owners[j]
    {
      if owners[i] == owners[j] {
        CountedTwice(owners, i, j);
        TakenWithout(s.taken, owners[i]);
        assert false;
      }
    }
    forall c
      ensures c in s.taken <==> c in owners
    {
      TakenWithout(s.taken, c);
      assert c in owners <==> c in multiset(owners);
    }
  }

  /**
   Device exclusivity: after any run of calls and drops, on any number of threads, the set is exactly the
   contexts of the live queues and of the calls in progress, and no two of those share a context.
   */
  lemma DeviceExclusivity(steps: seq<Step>)
    ensures var s := Exec(State({}, [], []), steps);
            && (forall i, j :: 0 <= i < j < |s.Owners()| ==> s.Owners()[i] != s.Owners()[j])
            && s.taken == set c | c in s.Owners()
  {
    ExclusiveAlways(State({}, [], []), steps);
    OwnersDiffer(Exec(State({}, [], []), steps));
  }

  /** The steps that one undisturbed `fq_cq` takes. */
  function StepsOf(s: State, ctx: Ctx, setup: Setup): seq<Step> {
    if ctx in s.taken then [Begin(ctx)]
    else [Begin(ctx), if setup.Mapped? then Finish(|s.building|) else Abort(|s.building|)]
  }

  /** Without interference they have the effect `FqCq` states: all or nothing. */
  lemma CallIsAtomicWhenUndisturbed(s: State, ctx: Ctx, setup: Setup)
    ensures Exec(s, StepsOf(s, ctx, setup))
         == if ctx !in s.taken && setup.Mapped? then State(s.taken + {ctx}, s.building, s.live + [ctx]) else s
  {
    var steps := StepsOf(s, ctx, setup);
    assert steps[..1] == [Begin(ctx)] && steps[..0] == [];
    assert Exec(s, [Begin(ctx)]) == Apply(s, Begin(ctx));
    if ctx !in s.taken {
      assert Without(s.building + [ctx], |s.building|) == s.building;
      assert s.taken + {ctx} - {ctx} == s.taken;
    }
  }
}
