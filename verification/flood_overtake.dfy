/** For which parameters of the flood example the published completions can run ahead of the published sends. */
module FloodOvertake {
  import opened Words
  import opened Flood

  // ---------- Parameters for which they never do ----------

  /** While nothing is published, or batches are empty, no completer gets to reap anything. */
  ghost predicate Quiet(s: State) {
    s.sent == 0 || s.batch == 0 ==>
      s.reaped == 0 && forall t :: t in s.completers && t.at.Reap? ==> t.at.limit == 0
  }

  lemma CompleterKeepsQuiet(s: State, i: nat, k: nat)
    requires Inv(s) && Quiet(s) && i < |s.completers|
    ensures Quiet(Apply(s, CompleterTurn(i, k)))
  {
    CompleterKeepsCounts(s, i, k);
    assert i < |s.outstanding|;
    hide Inv, WrapAdd, Low;
    var s', t := Apply(s, CompleterTurn(i, k)), s.completers[i];
    assert t in s.completers;
    forall u | u in s'.completers && u.at.Reap? && (s.sent == 0 || s.batch == 0)
      ensures u.at.limit == 0
    {
      if u !in s.completers {
        assert u == CompleterStep(s, i, t, k).1;
      }
    }
  }

  lemma StepKeepsQuiet(s: State, turn: Turn)
    requires Inv(s) && Quiet(s)
    ensures Quiet(Apply(s, turn))
  {
    match turn
    case SenderTurn(i, k) =>
      if i < |s.senders| {
        SenderKeepsBudget(s, i, k);
        hide Inv, SenderStep;
      }
    case CompleterTurn(i, k) =>
      if i < |s.completers| {
        CompleterKeepsQuiet(s, i, k);
      }
  }

  lemma {:induction false} QuietAlways(s: State, turns: seq<Turn>)
    requires Inv(s) && Quiet(s)
    ensures Quiet(Exec(s, turns))
    decreases |turns|
  {
    if turns == [] {
    } else {
      var before := turns[..|turns| - 1];
      QuietAlways(s, before);
      InvAlways(s, before);
      StepKeepsQuiet(Exec(s, before), turns[|turns| - 1]);
    }
  }

  lemma StaysBehind(total: U32, batch: U32, senders: nat, completers: nat, turns: seq<Turn>)
    requires completers <= 1 || senders <= 1 || batch == 0 || total <= 1
    ensures var s := Exec(Start(total, batch, senders, completers), turns);
            s.completed <= s.sent
  {
    var s0 := Start(total, batch, senders, completers);
    var s := Exec(s0, turns);
    if completers <= 1 || senders <= 1 {
      CompletedBehindSent(total, batch, senders, completers, turns);
    } else {
      StartInv(total, batch, senders, completers);
      InvAlways(s0, turns);
      QuietAlways(s0, turns);
      TotalKept(s0, turns);
      Within(s);
    }
  }

  // ---------- A run that overtakes, for all other parameters ----------

  /** One of the first two senders reserves and places one descriptor. */
  lemma PlacesOne(s0: State, s: State, i: nat) returns (s': State, batch: U32)
    requires Reaches(s0, s) && s.batch >= 1 && s.sent < s.total && s.reserved < s.total
    requires i < 2 <= |s.outstanding| && i < |s.senders| && s.senders[i].at == CheckSent
    ensures Reaches(s0, s') && batch >= 1 && s.reserved + batch < MODULUS
    ensures s' == s.(reserved := s.reserved + batch, committed := s.committed + 1,
                     outstanding := s.outstanding[i := s.outstanding[i] + 1],
                     senders := s.senders[i := s.senders[i].(at := Return(batch, 1))])
  {
    hide Low, WrapAdd, Reaches;
    batch := Grant(s);
    WrapExact(s.reserved, batch);
    var s1 := Apply(s, SenderTurn(i, 0));
    var s2 := Apply(s1, SenderTurn(i, 0));
    s' := Apply(s2, SenderTurn(i, 1));
    ReachesNext(s0, s, SenderTurn(i, 0));
    ReachesNext(s0, s1, SenderTurn(i, 0));
    ReachesNext(s0, s2, SenderTurn(i, 1));
  }

  /** The first sender returns what it did not use, publishes the one it placed, and counts it. */
  lemma PublishesOne(s0: State, s: State, batch: U32) returns (s': State)
    requires Reaches(s0, s) && batch >= 1 && s.sent == 0 && s.reserved == batch
    requires |s.senders| >= 1 && s.senders[0].at == Return(batch, 1)
    ensures Reaches(s0, s') && |s'.senders| == |s.senders|
    ensures s' == s.(reserved := 1, sent := 1, senders := s.senders[0 := s'.senders[0]])
  {
    WrapExact(batch, 1);
    WrapExact(batch, batch - 1);
    WrapExact(0, 1);
    hide Low, WrapAdd, WrapSub, Reaches;
    var s1 := Apply(s, SenderTurn(0, 0));
    var s2 := Apply(s1, SenderTurn(0, 0));
    s' := Apply(s2, SenderTurn(0, 0));
    ReachesNext(s0, s, SenderTurn(0, 0));
    ReachesNext(s0, s1, SenderTurn(0, 0));
    ReachesNext(s0, s2, SenderTurn(0, 0));
  }

  /** Completer `i` sees nothing completed and one descriptor published. */
  lemma Looks(s0: State, s: State, i: nat) returns (s': State)
    requires Reaches(s0, s) && s.batch >= 1 && s.total != 0 && s.completed == 0 && s.sent == 1
    requires i < |s.completers| && i < |s.outstanding| && s.completers[i].at == LoadCompleted
    ensures Reaches(s0, s')
    ensures s' == s.(completers := s.completers[i := s.completers[i].(at := Reap(1))])
  {
    hide Low, Reaches;
    var s1 := Apply(s, CompleterTurn(i, 0));
    s' := Apply(s1, CompleterTurn(i, 0));
    ReachesNext(s0, s, CompleterTurn(i, 0));
    ReachesNext(s0, s1, CompleterTurn(i, 0));
  }

  /** Completer `i` reaps one completion from its queue and publishes it. */
  lemma Adds(s0: State, s: State, i: nat) returns (s': State)
    requires Reaches(s0, s) && s.completed <= 1
    requires i < |s.completers| && i < |s.outstanding| && s.completers[i].at == Reap(1) && s.outstanding[i] >= 1
    ensures Reaches(s0, s')
    ensures s'.completed == s.completed + 1 && s'.sent == s.sent && |s'.completers| == |s.completers|
    ensures s'.completers == s.completers[i := s'.completers[i]]
    ensures s'.outstanding == s.outstanding[i := s.outstanding[i] - 1]
  {
    WrapExact(s.completed, 1);
    hide Low, WrapAdd, Reaches;
    var s1 := Apply(s, CompleterTurn(i, 1));
    s' := Apply(s1, CompleterTurn(i, 1));
    ReachesNext(s0, s, CompleterTurn(i, 1));
    ReachesNext(s0, s1, CompleterTurn(i, 1));
  }

  /**
   The first sender publishes one descriptor and the second places one, on another queue; the owners of
   both queues see the one published, and each reaps one.
   */
  lemma Overtakes(total: U32, batch: U32, senders: nat, completers: nat) returns (turns: seq<Turn>)
    requires completers >= 2 && senders >= 2 && batch >= 1 && total >= 2
    ensures var s := Exec(Start(total, batch, senders, completers), turns);
            s.completed == 2 && s.sent == 1
  {
    var s0 := Start(total, batch, senders, completers);
    ReachesItself(s0);
    hide Exec, Apply;
    var s1, g := PlacesOne(s0, s0, 0);
    var s2 := PublishesOne(s0, s1, g);
    var s3, h := PlacesOne(s0, s2, 1);
    var s4 := Looks(s0, s3, 0);
    var s5 := Looks(s0, s4, 1);
    var s6 := Adds(s0, s5, 0);
    var s7 := Adds(s0, s6, 1);
    turns :| Exec(s0, turns) == s7;
  }

  /**
   The published completions stay behind the published sends in every run exactly when there are fewer than
   two device queues, or fewer than two sockets, or nothing to send in a batch, or at most one packet in all.
   */
  lemma OvertakeExactly(total: U32, batch: U32, senders: nat, completers: nat)
    ensures (forall turns ::
               var s := Exec(Start(total, batch, senders, completers), turns);
               s.completed <= s.sent)
       <==> (completers <= 1 || senders <= 1 || batch == 0 || total <= 1)
  {
    hide Exec, Start;
    if completers <= 1 || senders <= 1 || batch == 0 || total <= 1 {
      forall turns
        ensures var s := Exec(Start(total, batch, senders, completers), turns);
                s.completed <= s.sent
      {
        StaysBehind(total, batch, senders, completers, turns);
      }
    } else {
      var turns := Overtakes(total, batch, senders, completers);
      assert Exec(Start(total, batch, senders, completers), turns).sent == 1;
    }
  }
}
