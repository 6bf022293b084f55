/** That the threads of the flood example can always finish: whole rounds, and a run to the join. */
module FloodJoin {
  import opened Words
  import opened Flood
  import opened FloodOvertake

  // ---------- Undisturbed rounds ----------

  function Repeat(s: State, turn: Turn, n: nat): State {
    if n == 0 then s else Apply(Repeat(s, turn, n - 1), turn)
  }

  lemma RepeatThree(s: State, turn: Turn)
    ensures Repeat(s, turn, 3) == Apply(Apply(Apply(s, turn), turn), turn)
    ensures Repeat(s, turn, 6) == Repeat(Repeat(s, turn, 3), turn, 3)
  {
    hide Apply;
    assert Repeat(s, turn, 1) == Apply(s, turn);
    assert Repeat(s, turn, 2) == Apply(Repeat(s, turn, 1), turn);
    RepeatSplits(s, turn, 3, 3);
  }

  lemma {:induction false} RepeatSplits(s: State, turn: Turn, m: nat, n: nat)
    ensures Repeat(s, turn, m + n) == Repeat(Repeat(s, turn, m), turn, n)
    decreases n
  {
    hide Apply;
    if n == 0 {
    } else {
      RepeatSplits(s, turn, m, n - 1);
    }
  }

  function WithSender(s: State, i: nat, t: Sender): State
    requires i < |s.senders|
  {
    s.(senders := s.senders[i := t])
  }

  function WithCompleter(s: State, i: nat, t: Completer): State
    requires i < |s.completers|
  {
    s.(completers := s.completers[i := t])
  }

  lemma SenderGoes(s: State, i: nat, t: Sender, k: nat)
    requires i < |s.senders|
    ensures var (s', t') := SenderStep(s, i, t, k);
            && s'.senders == s.senders
            && Apply(WithSender(s, i, t), SenderTurn(i, k)) == WithSender(s', i, t')
  {
    hide Low, WrapAdd, WrapSub, Deliver;
    assert s.senders[i := t][i := SenderStep(s, i, t, k).1] == s.senders[i := SenderStep(s, i, t, k).1];
  }

  lemma CompleterGoes(s: State, i: nat, t: Completer, k: nat)
    requires i < |s.completers| && i < |s.outstanding|
    ensures var (s', t') := CompleterStep(s, i, t, k);
            && s'.completers == s.completers
            && Apply(WithCompleter(s, i, t), CompleterTurn(i, k)) == WithCompleter(s', i, t')
  {
    hide Low, WrapAdd, WrapSub;
    assert s.completers[i := t][i := CompleterStep(s, i, t, k).1] == s.completers[i := CompleterStep(s, i, t, k).1];
  }

  lemma ThreeSenderTurns(s: State, i: nat, k: nat, s1: State, t1: Sender, s2: State, t2: Sender, s3: State, t3: Sender)
    requires i < |s.senders|
    requires SenderStep(s, i, s.senders[i], k) == (s1, t1)
    requires SenderStep(s1, i, t1, k) == (s2, t2) && SenderStep(s2, i, t2, k) == (s3, t3)
    ensures s3.senders == s.senders && Repeat(s, SenderTurn(i, k), 3) == WithSender(s3, i, t3)
  {
    hide SenderStep, Repeat, Apply;
    RepeatThree(s, SenderTurn(i, k));
    assert s == WithSender(s, i, s.senders[i]);
    SenderGoes(s, i, s.senders[i], k);
    SenderGoes(s1, i, t1, k);
    SenderGoes(s2, i, t2, k);
  }

  lemma StepsToPlace(s: State, i: nat, c: U32, k: nat)
    requires s.sent < s.total && s.reserved <= s.total
    ensures var g := Grant(s);
            && s.reserved + g <= s.total && 0 <= Min(k, g) <= g
            && SenderStep(s, i, Sender(CheckSent, c), k) == (s, Sender(Reserve, c))
            && SenderStep(s, i, Sender(Reserve, c), k) == (s.(reserved := s.reserved + g), Sender(Place(g), c))
            && SenderStep(s.(reserved := s.reserved + g), i, Sender(Place(g), c), k)
               == (s.(reserved := s.reserved + g, committed := s.committed + Min(k, g),
                      outstanding := Deliver(s.outstanding, i, Min(k, g))), Sender(Return(g, Min(k, g)), c))
  {
    hide Low, WrapAdd, Grant, Deliver;
    GrantFits(s);
    WrapExact(s.reserved, Grant(s));
  }

  lemma StepsToCount(s: State, i: nat, g: U32, n: U32, c: U32, k: nat)
    requires n <= g <= s.reserved && s.sent + n < MODULUS && c + n < MODULUS
    ensures var s1 := s.(reserved := s.reserved - (g - n));
            var s2 := s1.(sent := s.sent + n);
            && SenderStep(s, i, Sender(Return(g, n), c), k) == (s1, Sender(Publish(n), c))
            && SenderStep(s1, i, Sender(Publish(n), c), k) == (s2, Sender(Count(n), c))
            && SenderStep(s2, i, Sender(Count(n), c), k) == (s2, Sender(CheckSent, c + n))
  {
    WrapExact(g, n);
    WrapExact(s.reserved, g - n);
    WrapExact(s.sent, n);
    WrapExact(c, n);
    hide Low, WrapAdd, WrapSub;
  }

  /** The first half of a round: the sender reserves, and places what its ring has room for. */
  lemma SenderPlaces(s: State, i: nat, k: nat)
    requires i < |s.senders| && s.senders[i].at == CheckSent && s.sent < s.total && s.reserved <= s.total
    ensures var g, n, c := Grant(s), Min(k, Grant(s)), s.senders[i].counter;
            && s.reserved + g <= s.total
            && Repeat(s, SenderTurn(i, k), 3)
               == WithSender(s.(reserved := s.reserved + g, committed := s.committed + n,
                                outstanding := Deliver(s.outstanding, i, n)),
                             i, Sender(Return(g, n), c))
  {
    hide Low, WrapAdd, Grant, Repeat, Apply, Deliver, WithSender, SenderStep, Min;
    var g, n, c := Grant(s), Min(k, Grant(s)), s.senders[i].counter;
    assert s.senders[i] == Sender(CheckSent, c);
    StepsToPlace(s, i, c, k);
    var s2 := s.(reserved := s.reserved + g);
    var s3 := s2.(committed := s.committed + n, outstanding := Deliver(s.outstanding, i, n));
    ThreeSenderTurns(s, i, k, s, Sender(Reserve, c), s2, Sender(Place(g), c), s3, Sender(Return(g, n), c));
  }

  lemma ReturnFits(s: State, i: nat)
    requires Inv(s) && i < |s.senders| && s.senders[i].at.Return?
    ensures var t := s.senders[i];
            t.at.placed <= t.at.batch && s.sent + t.at.batch <= s.reserved <= s.total && t.counter <= s.sent
  {
    SenderFits(s, i);
    hide Inv;
  }

  /** The second half: it returns what it did not place, publishes the rest and counts it. */
  lemma SenderPublishes(s: State, i: nat, k: nat)
    requires Inv(s) && i < |s.senders| && s.senders[i].at.Return?
    ensures var g, n, c := s.senders[i].at.batch, s.senders[i].at.placed, s.senders[i].counter;
            && n <= g <= s.reserved && s.sent + n < MODULUS && c + n < MODULUS
            && Repeat(s, SenderTurn(i, k), 3)
               == WithSender(s.(reserved := s.reserved - (g - n), sent := s.sent + n), i, Sender(CheckSent, c + n))
  {
    hide Low, WrapAdd, WrapSub, Repeat, Apply, WithSender, SenderStep, Inv;
    ReturnFits(s, i);
    var t := s.senders[i];
    var g, n, c := t.at.batch, t.at.placed, t.counter;
    StepsToCount(s, i, g, n, c, k);
    var s1 := s.(reserved := s.reserved - (g - n));
    var s2 := s1.(sent := s.sent + n);
    ThreeSenderTurns(s, i, k, s1, Sender(Publish(n), c), s2, Sender(Count(n), c), s2, Sender(CheckSent, c + n));
  }

  lemma SenderRoundFits(s: State, i: nat, k: nat, n: nat)
    requires Inv(s) && i < |s.senders| && s.senders[i].at == CheckSent
    requires n == Min(k, Min(s.total - s.reserved, s.batch))
    ensures n == Min(k, Grant(s)) <= Grant(s) && s.reserved + Grant(s) <= s.total
    ensures s.senders[i].counter <= s.sent <= s.reserved
  {
    SenderFits(s, i);
    GrantFits(s);
    hide Inv, Grant;
  }

  /**
   A whole round of a sender while something is left to send, undisturbed: it reserves a batch or all that
   is left, places what its ring has room for, gives back the rest, publishes and counts what it placed.
   */
  lemma SenderRound(s: State, i: nat, k: nat, n: nat)
    requires Inv(s) && i < |s.senders| && s.senders[i].at == CheckSent && s.sent < s.total
    requires n == Min(k, Min(s.total - s.reserved, s.batch))
    ensures s.reserved + n <= s.total && s.sent + n <= s.total && s.senders[i].counter + n < MODULUS
    ensures Repeat(s, SenderTurn(i, k), 6)
         == WithSender(s.(reserved := s.reserved + n, sent := s.sent + n, committed := s.committed + n,
                          outstanding := Deliver(s.outstanding, i, n)),
                       i, Sender(CheckSent, s.senders[i].counter + n))
  {
    hide Inv, Min, Apply, WithSender, Low, Repeat, Deliver, Grant;
    SenderRoundFits(s, i, k, n);
    var turn := SenderTurn(i, k);
    var g, c := Grant(s), s.senders[i].counter;
    SenderPlaces(s, i, k);
    RepeatKeepsInv(s, turn, 3);
    RepeatThree(s, turn);
    var placed := s.(reserved := s.reserved + g, committed := s.committed + n,
                     outstanding := Deliver(s.outstanding, i, n));
    SenderAgain(placed, i, Sender(Return(g, n), c), s.reserved + n, s.sent + n, Sender(CheckSent, c + n));
    SenderPublishes(Repeat(s, turn, 3), i, k);
  }

  lemma SenderAgain(s: State, i: nat, t: Sender, reserved: U32, sent: U32, u: Sender)
    requires i < |s.senders|
    ensures |WithSender(s, i, t).senders| == |s.senders| && WithSender(s, i, t).senders[i] == t
    ensures WithSender(s, i, t).reserved == s.reserved && WithSender(s, i, t).sent == s.sent
    ensures WithSender(WithSender(s, i, t).(reserved := reserved, sent := sent), i, u)
         == WithSender(s.(reserved := reserved, sent := sent), i, u)
  {
    assert s.senders[i := t][i := u] == s.senders[i := u];
  }

  lemma {:induction false} RepeatKeepsInv(s: State, turn: Turn, n: nat)
    requires Inv(s)
    ensures Inv(Repeat(s, turn, n))
  {
    hide Inv, Apply;
    if n == 0 {
    } else {
      RepeatKeepsInv(s, turn, n - 1);
      StepKeepsInv(Repeat(s, turn, n - 1), turn);
    }
  }

  lemma StepsToAdd(s: State, i: nat, c: U32, k: nat)
    requires i < |s.outstanding| && s.completed < s.total
    ensures var limit := Min(SaturatingSub(s.sent, s.completed), s.batch);
            var n := Min(Min(k, limit), s.outstanding[i]);
            && CompleterStep(s, i, Completer(LoadCompleted, c), k) == (s, Completer(LoadSent(s.completed), c))
            && CompleterStep(s, i, Completer(LoadSent(s.completed), c), k) == (s, Completer(Reap(limit), c))
            && CompleterStep(s, i, Completer(Reap(limit), c), k)
               == (s.(reaped := s.reaped + n, outstanding := s.outstanding[i := s.outstanding[i] - n]),
                   Completer(Add(n), c))
  {
    hide Low, WrapAdd;
  }

  lemma StepsToLoad(s: State, i: nat, n: U32, c: U32, k: nat)
    requires i < |s.outstanding| && s.completed + n < MODULUS && c + n < MODULUS
    ensures var s1 := s.(completed := s.completed + n);
            && CompleterStep(s, i, Completer(Add(n), c), k) == (s1, Completer(AddCounter(n), c))
            && CompleterStep(s1, i, Completer(AddCounter(n), c), k) == (s1, Completer(LoadCompleted, c + n))
  {
    WrapExact(s.completed, n);
    WrapExact(c, n);
    hide Low, WrapAdd;
  }

  lemma CompleterRoundFits(s: State, i: nat, k: nat, n: nat)
    requires Inv(s) && i < |s.completers| && i < |s.outstanding|
    requires n == Min(Min(k, Min(SaturatingSub(s.sent, s.completed), s.batch)), s.outstanding[i])
    ensures n <= s.outstanding[i] && s.completed + n <= s.total && s.completers[i].counter <= s.completed
    ensures 0 <= Min(SaturatingSub(s.sent, s.completed), s.batch) < MODULUS
  {
    CompleterFits(s, i);
    Within(s);
    hide Inv;
  }

  /**
   A whole round of a completer, undisturbed: of what its queue completed by now it reaps a batch at most,
   and no more than is sent and not completed, and publishes and counts that.
   */
  lemma CompleterRound(s: State, i: nat, k: nat, n: nat)
    requires Inv(s) && i < |s.completers| && s.completers[i].at == LoadCompleted && s.completed < s.total
    requires i < |s.outstanding|
    requires n == Min(Min(k, Min(SaturatingSub(s.sent, s.completed), s.batch)), s.outstanding[i])
    ensures s.completed + n <= s.total && s.completers[i].counter + n < MODULUS
    ensures Repeat(s, CompleterTurn(i, k), 5)
         == WithCompleter(s.(completed := s.completed + n, reaped := s.reaped + n,
                             outstanding := s.outstanding[i := s.outstanding[i] - n]),
                          i, Completer(LoadCompleted, s.completers[i].counter + n))
  {
    hide Inv, Min, SaturatingSub, Low, CompleterStep, Apply, Repeat, WithCompleter;
    CompleterRoundFits(s, i, k, n);
    var limit, c := Min(SaturatingSub(s.sent, s.completed), s.batch), s.completers[i].counter;
    assert s.completers[i] == Completer(LoadCompleted, c);
    StepsToAdd(s, i, c, k);
    var s1 := s.(reaped := s.reaped + n, outstanding := s.outstanding[i := s.outstanding[i] - n]);
    StepsToLoad(s1, i, n, c, k);
    FiveCompleterTurns(s, i, k, c, limit, n, s1, s1.(completed := s.completed + n));
  }

  lemma FiveCompleterTurns(s: State, i: nat, k: nat, c: U32, limit: U32, n: U32, s1: State, s2: State)
    requires i < |s.completers| && |s1.outstanding| == |s.outstanding| == |s2.outstanding| && i < |s.outstanding|
    requires s.completers[i] == Completer(LoadCompleted, c) && c + n < MODULUS
    requires CompleterStep(s, i, Completer(LoadCompleted, c), k) == (s, Completer(LoadSent(s.completed), c))
    requires CompleterStep(s, i, Completer(LoadSent(s.completed), c), k) == (s, Completer(Reap(limit), c))
    requires CompleterStep(s, i, Completer(Reap(limit), c), k) == (s1, Completer(Add(n), c))
    requires CompleterStep(s1, i, Completer(Add(n), c), k) == (s2, Completer(AddCounter(n), c))
    requires CompleterStep(s2, i, Completer(AddCounter(n), c), k) == (s2, Completer(LoadCompleted, c + n))
    ensures s2.completers == s.completers
    ensures Repeat(s, CompleterTurn(i, k), 5) == WithCompleter(s2, i, Completer(LoadCompleted, c + n))
  {
    assert s == WithCompleter(s, i, s.completers[i]);
    hide CompleterStep, Apply, Repeat, WithCompleter;
    RepeatFive(s, CompleterTurn(i, k));
    CompleterGoes(s, i, Completer(LoadCompleted, c), k);
    CompleterGoes(s, i, Completer(LoadSent(s.completed), c), k);
    CompleterGoes(s, i, Completer(Reap(limit), c), k);
    CompleterGoes(s1, i, Completer(Add(n), c), k);
    CompleterGoes(s2, i, Completer(AddCounter(n), c), k);
  }

  lemma RepeatFive(s: State, turn: Turn)
    ensures Repeat(s, turn, 5) == Apply(Apply(Apply(Apply(Apply(s, turn), turn), turn), turn), turn)
  {
    hide Apply;
    RepeatThree(s, turn);
    assert Repeat(s, turn, 4) == Apply(Repeat(s, turn, 3), turn);
  }

  /**
   A sender leaves, by two turns of its own, exactly when everything is sent and completed; while something
   is sent and not completed it goes on to reserve again.
   */
  lemma SenderLeaves(s: State, i: nat, k: nat)
    requires Inv(s) && i < |s.senders| && s.senders[i].at == CheckSent
    ensures |Repeat(s, SenderTurn(i, k), 2).senders| == |s.senders|
    ensures Repeat(s, SenderTurn(i, k), 2).senders[i].at.Left? <==> s.sent == s.completed == s.total
    ensures s.sent == s.completed == s.total ==>
              Repeat(s, SenderTurn(i, k), 2) == WithSender(s, i, s.senders[i].(at := Left))
    ensures s.completed < s.sent == s.total ==>
              Repeat(s, SenderTurn(i, k), 2) == WithSender(s, i, s.senders[i].(at := Reserve))
  {
    hide Inv, Low, WrapAdd, WrapSub, Repeat, Apply, Grant, Deliver;
    ProgressBounds(s);
    RepeatTwo(s, SenderTurn(i, k));
    var c := s.senders[i].counter;
    assert s.senders[i] == Sender(CheckSent, c) && s == WithSender(s, i, s.senders[i]);
    SenderGoes(s, i, Sender(CheckSent, c), k);
    SenderGoes(s, i, Sender(CheckCompleted, c), k);
    SenderGoes(s, i, Sender(Reserve, c), k);
  }

  lemma RepeatTwo(s: State, turn: Turn)
    ensures Repeat(s, turn, 2) == Apply(Apply(s, turn), turn)
  {
    hide Apply;
    assert Repeat(s, turn, 1) == Apply(s, turn);
  }

  /** A completer ends, by one turn of its own, exactly when everything is completed. */
  lemma CompleterEnds(s: State, i: nat, k: nat)
    requires Inv(s) && i < |s.completers| && s.completers[i].at == LoadCompleted
    ensures |Apply(s, CompleterTurn(i, k)).completers| == |s.completers|
    ensures Apply(s, CompleterTurn(i, k)).completers[i].at.Ended? <==> s.completed == s.total
    ensures s.completed == s.total ==>
              Apply(s, CompleterTurn(i, k)) == WithCompleter(s, i, s.completers[i].(at := Ended))
  {
  }

  // ---------- From every reachable state to the join ----------

  ghost predicate Joined(s: State) {
    && (forall t :: t in s.senders ==> t.at.Left?)
    && (forall t :: t in s.completers ==> t.at.Ended?)
  }

  /** Turns that a sender needs to the end of its round. */
  function SenderRank(t: Sender): nat {
    match t.at
    case CheckCompleted => 6
    case Reserve => 5
    case Place(_) => 4
    case Return(_, _) => 3
    case Publish(_) => 2
    case Count(_) => 1
    case _ => 0
  }

  function CompleterRank(t: Completer): nat {
    match t.at
    case LoadSent(_) => 4
    case Reap(_) => 3
    case Add(_) => 2
    case AddCounter(_) => 1
    case _ => 0
  }

  function SenderPresent(t: Sender): nat { if t.at.Left? then 0 else 1 }

  function CompleterPresent(t: Completer): nat { if t.at.Ended? then 0 else 1 }

  /** What is still to do: to send, rounds of senders, to complete, rounds of completers, to leave. */
  datatype Work = Work(send: int, sending: nat, complete: int, completing: nat, present: nat)

  function WorkOf(s: State): Work {
    Work(s.total - s.sent, SumBy(s.senders, SenderRank), s.total - s.completed,
         SumBy(s.completers, CompleterRank),
         SumBy(s.senders, SenderPresent) + SumBy(s.completers, CompleterPresent))
  }

  predicate Less(a: Work, b: Work) {
    || a.send < b.send
    || (a.send == b.send && a.sending < b.sending)
    || (a.send == b.send && a.sending == b.sending && a.complete < b.complete)
    || (a.send == b.send && a.sending == b.sending && a.complete == b.complete && a.completing < b.completing)
    || (a.send == b.send && a.sending == b.sending && a.complete == b.complete && a.completing == b.completing
        && a.present < b.present)
  }

  /** A sender in its round gets nearer to the end of it. */
  lemma SenderNears(s: State, i: nat)
    requires Inv(s) && i < |s.senders| && SenderRank(s.senders[i]) > 0
    ensures Less(WorkOf(Apply(s, SenderTurn(i, s.batch))), WorkOf(s))
  {
    SenderKeepsBudget(s, i, s.batch);
    SenderRankFalls(s, i, s.senders[i], s.batch);
    hide Inv, Budget, SenderOk, SenderStep, SumBy, SenderRank, CompleterRank, SenderPresent, CompleterPresent;
    SumUpdate(s.senders, i, SenderStep(s, i, s.senders[i], s.batch).1, SenderRank);
  }

  lemma SenderRankFalls(s: State, i: nat, t: Sender, k: nat)
    requires SenderRank(t) > 0
    ensures SenderRank(SenderStep(s, i, t, k).1) < SenderRank(t)
  {
    hide Low, WrapAdd, WrapSub, Deliver;
  }

  lemma CompleterNears(s: State, i: nat)
    requires Inv(s) && i < |s.completers| && CompleterRank(s.completers[i]) > 0
    ensures Less(WorkOf(Apply(s, CompleterTurn(i, s.batch))), WorkOf(s))
  {
    CompleterKeepsCounts(s, i, s.batch);
    assert i < |s.outstanding|;
    CompleterRankFalls(s, i, s.completers[i], s.batch);
    hide Inv, Completions, CompleterOk, CompleterStep, SumBy;
    hide SenderRank, CompleterRank, SenderPresent, CompleterPresent;
    SumUpdate(s.completers, i, CompleterStep(s, i, s.completers[i], s.batch).1, CompleterRank);
  }

  lemma CompleterRankFalls(s: State, i: nat, t: Completer, k: nat)
    requires i < |s.outstanding| && CompleterRank(t) > 0
    ensures CompleterRank(CompleterStep(s, i, t, k).1) < CompleterRank(t)
  {
    hide Low, WrapAdd;
  }

  /** With every sender at the start of a round and something left to send, a round sends some of it. */
  lemma RoundSends(s: State)
    requires Inv(s) && s.senders != [] && s.batch > 0 && s.sent < s.total
    requires forall t :: t in s.senders ==> SenderRank(t) == 0
    ensures Less(WorkOf(Repeat(s, SenderTurn(0, s.batch), 6)), WorkOf(s))
  {
    NothingHeld(s);
    SenderRound(s, 0, s.batch, Min(s.batch, Min(s.total - s.reserved, s.batch)));
    hide Inv, SumBy, Repeat, Deliver;
  }

  lemma NothingHeld(s: State)
    requires Inv(s) && forall t :: t in s.senders ==> SenderRank(t) == 0
    ensures s.reserved == s.committed == s.sent
    ensures s.senders != [] && s.sent < s.total ==> s.senders[0].at == CheckSent
  {
    hide SumBy, SumOn, SenderRank;
    forall t | t in s.senders
      ensures Holds(t) == 0 && Unpublished(t) == 0 && (t.at.Left? || t.at.CheckSent?) && SenderOk(s, t)
    {
      RestingHoldsNothing(t);
    }
    SumNone(s.senders, Holds);
    SumNone(s.senders, Unpublished);
    if s.senders != [] {
      assert s.senders[0] in s.senders;
    }
  }

  lemma RestingHoldsNothing(t: Sender)
    requires SenderRank(t) == 0
    ensures Holds(t) == 0 && Unpublished(t) == 0 && (t.at.Left? || t.at.CheckSent?)
  {
  }

  /** With every completer at the start of a round and something sent to complete, some queue holds it. */
  lemma SomethingOutstanding(s: State) returns (q: nat)
    requires Inv(s) && s.completers != [] && s.completed < s.committed
    requires forall t :: t in s.completers ==> CompleterRank(t) == 0
    ensures q < |s.completers| == |s.outstanding| && s.outstanding[q] > 0
  {
    hide SumBy, SumOn;
    SumNone(s.completers, Unadded);
    if forall n :: n in s.outstanding ==> n == 0 {
      SumNone(s.outstanding, Pending);
      assert false;
    }
    var n :| n in s.outstanding && n != 0;
    q :| q < |s.outstanding| && s.outstanding[q] == n;
  }

  lemma RoundCompletes(s: State, q: nat)
    requires Inv(s) && q < |s.completers| && q < |s.outstanding| && s.outstanding[q] > 0
    requires s.batch > 0 && s.completed < s.sent == s.total && s.completers[q].at == LoadCompleted
    ensures Less(WorkOf(Repeat(s, CompleterTurn(q, s.batch), 5)), WorkOf(s))
  {
    CompleterRound(s, q, s.batch,
                   Min(Min(s.batch, Min(SaturatingSub(s.sent, s.completed), s.batch)), s.outstanding[q]));
    hide Inv, SumBy, Repeat;
  }

  lemma LeavingIsWork(s: State, i: nat)
    requires Inv(s) && i < |s.senders| && s.senders[i].at == CheckSent && s.sent == s.completed == s.total
    ensures Less(WorkOf(Repeat(s, SenderTurn(i, 0), 2)), WorkOf(s))
  {
    hide Inv, SumBy, Repeat, Apply;
    SenderLeaves(s, i, 0);
    var t := s.senders[i].(at := Left);
    SumUpdate(s.senders, i, t, SenderRank);
    SumUpdate(s.senders, i, t, SenderPresent);
  }

  lemma EndingIsWork(s: State, i: nat)
    requires Inv(s) && i < |s.completers| && s.completers[i].at == LoadCompleted && s.completed == s.total
    ensures Less(WorkOf(Apply(s, CompleterTurn(i, 0))), WorkOf(s))
  {
    hide Inv, SumBy, Apply;
    CompleterEnds(s, i, 0);
    var t := s.completers[i].(at := Ended);
    SumUpdate(s.completers, i, t, CompleterRank);
    SumUpdate(s.completers, i, t, CompleterPresent);
  }

  /** There is nothing to send, or a batch to send it in and threads to send and to complete it. */
  predicate Enough(total: U32, batch: U32, senders: nat, completers: nat) {
    total == 0 || (batch > 0 && senders > 0 && completers > 0)
  }

  lemma ReachesKeeps(s: State, s': State)
    requires Inv(s) && Reaches(s, s')
    ensures Inv(s') && s'.total == s.total && s'.batch == s.batch
    ensures |s'.senders| == |s.senders| && |s'.completers| == |s.completers| == |s'.outstanding|
  {
    var turns :| Exec(s, turns) == s';
    InvAlways(s, turns);
    TotalKept(s, turns);
  }

  lemma {:induction false} ReachesRepeat(s: State, s': State, turn: Turn, n: nat)
    requires Reaches(s, s')
    ensures Reaches(s, Repeat(s', turn, n))
    decreases n
  {
    hide Reaches, Apply;
    if n == 0 {
    } else {
      ReachesRepeat(s, s', turn, n - 1);
      ReachesNext(s, Repeat(s', turn, n - 1), turn);
    }
  }

  /** Until the join there is always a thread whose turns bring it nearer. */
  lemma Progress(s0: State, s: State) returns (s': State)
    requires Inv(s0) && Reaches(s0, s) && !Joined(s)
    requires Enough(s0.total, s0.batch, |s0.senders|, |s0.completers|)
    ensures Reaches(s0, s') && Less(WorkOf(s'), WorkOf(s))
  {
    hide Inv, Reaches, WorkOf, Less, Repeat, Apply, SenderRank, CompleterRank;
    ReachesKeeps(s0, s);
    ProgressBounds(s);
    if t :| t in s.senders && SenderRank(t) > 0 {
      var i :| 0 <= i < |s.senders| && s.senders[i] == t;
      ReachesNext(s0, s, SenderTurn(i, s.batch));
      SenderNears(s, i);
      s' := Apply(s, SenderTurn(i, s.batch));
    } else if s.sent < s.total {
      ReachesRepeat(s0, s, SenderTurn(0, s.batch), 6);
      RoundSends(s);
      s' := Repeat(s, SenderTurn(0, s.batch), 6);
    } else if t :| t in s.completers && CompleterRank(t) > 0 {
      var i :| 0 <= i < |s.completers| && s.completers[i] == t;
      ReachesNext(s0, s, CompleterTurn(i, s.batch));
      CompleterNears(s, i);
      s' := Apply(s, CompleterTurn(i, s.batch));
    } else {
      s' := LastProgress(s0, s);
    }
  }

  lemma ProgressBounds(s: State)
    requires Inv(s)
    ensures s.completed <= s.committed && s.sent <= s.committed && s.sent <= s.total && s.completed <= s.total
    ensures forall t :: t in s.senders && t.at.Left? ==> s.completed >= s.total
    ensures forall t :: t in s.completers && t.at.Ended? ==> s.completed == s.total
  {
    Within(s);
    assert forall t :: t in s.senders ==> SenderOk(s, t);
    assert forall t :: t in s.completers ==> CompleterOk(s, t);
  }

  /** The rest: everything is sent and every thread is between two rounds. */
  lemma LastProgress(s0: State, s: State) returns (s': State)
    requires Inv(s0) && Reaches(s0, s) && !Joined(s) && s.sent >= s.total
    requires Enough(s0.total, s0.batch, |s0.senders|, |s0.completers|)
    requires forall t :: t in s.senders ==> SenderRank(t) == 0
    requires forall t :: t in s.completers ==> CompleterRank(t) == 0
    ensures Reaches(s0, s') && Less(WorkOf(s'), WorkOf(s))
  {
    hide Inv, Reaches, WorkOf, Less, Repeat, Apply;
    ReachesKeeps(s0, s);
    ProgressBounds(s);
    if s.completed < s.total {
      var q := SomethingOutstanding(s);
      assert s.completers[q] in s.completers;
      ReachesRepeat(s0, s, CompleterTurn(q, s.batch), 5);
      RoundCompletes(s, q);
      s' := Repeat(s, CompleterTurn(q, s.batch), 5);
    } else if t :| t in s.senders && !t.at.Left? {
      var i :| 0 <= i < |s.senders| && s.senders[i] == t;
      ReachesRepeat(s0, s, SenderTurn(i, 0), 2);
      LeavingIsWork(s, i);
      s' := Repeat(s, SenderTurn(i, 0), 2);
    } else {
      var t :| t in s.completers && !t.at.Ended?;
      var i :| 0 <= i < |s.completers| && s.completers[i] == t;
      ReachesNext(s0, s, CompleterTurn(i, 0));
      EndingIsWork(s, i);
      s' := Apply(s, CompleterTurn(i, 0));
    }
  }

  lemma {:induction false} Finish(s0: State, s: State) returns (turns: seq<Turn>)
    requires Inv(s0) && Reaches(s0, s)
    requires Enough(s0.total, s0.batch, |s0.senders|, |s0.completers|)
    ensures Joined(Exec(s0, turns))
    decreases WorkOf(s).send, WorkOf(s).sending, WorkOf(s).complete, WorkOf(s).completing, WorkOf(s).present
  {
    hide Inv, Joined, SumBy;
    if Joined(s) {
      turns :| Exec(s0, turns) == s;
    } else {
      ReachesKeeps(s0, s);
      ProgressBounds(s);
      var s' := Progress(s0, s);
      turns := Finish(s0, s');
    }
  }

  /** In no reachable state are the threads stuck: some further turns bring all of them to the join. */
  lemma JoinAlwaysPossible(total: U32, batch: U32, senders: nat, completers: nat, turns: seq<Turn>)
    requires Enough(total, batch, senders, completers)
    ensures exists more :: Joined(Exec(Exec(Start(total, batch, senders, completers), turns), more))
  {
    var s0 := Start(total, batch, senders, completers);
    StartInv(total, batch, senders, completers);
    InvAlways(s0, turns);
    TotalKept(s0, turns);
    hide Inv, Exec, Joined;
    ReachesItself(Exec(s0, turns));
    var more := Finish(Exec(s0, turns), Exec(s0, turns));
  }

  /** Some run brings all threads to the join exactly when there is enough of everything, or no thread. */
  lemma JoinPossibleExactly(total: U32, batch: U32, senders: nat, completers: nat)
    ensures (exists turns :: Joined(Exec(Start(total, batch, senders, completers), turns)))
       <==> Enough(total, batch, senders, completers) || senders + completers == 0
  {
    NoThreads(total, batch);
    var s0 := Start(total, batch, senders, completers);
    StartInv(total, batch, senders, completers);
    hide Inv, Exec;
    if Enough(total, batch, senders, completers) {
      ReachesItself(s0);
      var turns := Finish(s0, s0);
    } else if senders + completers > 0 {
      forall turns
        ensures !Joined(Exec(s0, turns))
      {
        if Joined(Exec(s0, turns)) {
          JoinNeeds(total, batch, senders, completers, turns);
        }
      }
    } else {
      assert Joined(Exec(s0, []));
    }
  }

  lemma NoThreads(total: U32, batch: U32)
    ensures Joined(Exec(Start(total, batch, 0, 0), []))
  {
  }

  lemma JoinNeeds(total: U32, batch: U32, senders: nat, completers: nat, turns: seq<Turn>)
    requires senders + completers > 0 && Joined(Exec(Start(total, batch, senders, completers), turns))
    ensures Enough(total, batch, senders, completers)
  {
    var s0 := Start(total, batch, senders, completers);
    var s := Exec(s0, turns);
    AtJoin(total, batch, senders, completers, turns);
    StartInv(total, batch, senders, completers);
    InvAlways(s0, turns);
    QuietAlways(s0, turns);
    TotalKept(s0, turns);
    Within(s);
  }
}
