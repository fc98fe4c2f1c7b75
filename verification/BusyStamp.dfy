/**
 The stamp of src/context/MetalFrameGraph.mm: a buffer bound for the open command buffer is stamped
 submittedCount() + 1, and src/context/GLContext.mm takes stamp <= completedCount() to mean that
 this command buffer no longer reads it.  That is right exactly if no other command buffer is
 recorded as submitted between the stamp and the open one.
 */
module BusyStamp {
  import opened Arithmetic
  import opened SubmissionProtocol
  import opened SubmissionSafety
  import opened CompletionOrder

  // The runs on which completedCount is a busy test at all.
  predicate Orderly(bound: nat, actions: seq<Action>) { FifoRun(bound, actions) && NoOvertaking(bound, actions) }

  // The step is the recordSubmitted of a lease.
  predicate Records(s: State, a: Action) {
    a.Advance? && a.i < |s.actors| && s.actors[a.i].Lease? && s.actors[a.i].op.Recording?
  }

  // submittedCount moves by recordSubmitted and by nothing else.
  lemma OnlyRecordingCounts(s: State, a: Action)
    requires Inv(s)
    ensures var s' := Next(s, a);
            && s'.submitted == s.submitted + (if Records(s, a) then 1 else 0)
            && |s'.submissions| == |s.submissions| + (if Records(s, a) then 1 else 0)
            && (Records(s, a) ==> !s'.submissions[|s.submissions|])
  {
    if a.Advance? && a.i < |s.actors| {
      match s.actors[a.i]
      case Make(pc) => assert Next(s, a) == AdvanceMake(s, a.i, pc, a.ok);
      case Lease(f, op) => assert Next(s, a) == AdvanceLease(s, a.i, f, op, a.ok);
      case Handler(t, k, waits, stage) => assert Next(s, a) == AdvanceHandler(s, a.i, t, k, waits, stage);
      case Drain(pc) => assert Next(s, a) == AdvanceDrain(s, a.i, pc, a.ok);
      case Gone =>
    }
  }

  // No lease records in the part of the run between two points.
  predicate NoRecording(bound: nat, before: seq<Action>, between: seq<Action>) {
    between != [] ==>
      var n := |between| - 1;
      NoRecording(bound, before, between[..n]) && !Records(Run(bound, before + between[..n]), between[n])
  }

  lemma {:induction false} SubmittedBetween(bound: nat, before: seq<Action>, between: seq<Action>)
    ensures var s, s' := Run(bound, before), Run(bound, before + between);
            && s.submitted <= s'.submitted && |s.submissions| <= |s'.submissions|
            && (s'.submitted == s.submitted <==> NoRecording(bound, before, between))
  {
    hide Run, Next, Records;
    if between == [] {
      assert before + between == before;
    } else {
      var n := |between| - 1;
      SubmittedBetween(bound, before, between[..n]);
      Conservation(bound, before + between[..n]);
      RunExtended(bound, before + between[..n], between[n]);
      assert before + between == before + between[..n] + [between[n]];
      OnlyRecordingCounts(Run(bound, before + between[..n]), between[n]);
    }
  }

  // ----- an orderly queue can always go on -----

  // What is still to be completed comes after what has completed.
  lemma PendingIsLater(s: State, i: nat)
    requires Inv(s) && WatermarkExact(s.submissions) && i < |s.actors|
    ensures Committing(s.actors[i]) ==> s.completed <= s.actors[i].op.ordinal
    ensures Queued(s.actors[i]) ==> s.completed <= s.actors[i].ordinal
  {
    assert Shape(s, s.actors[i]);
    if Committing(s.actors[i]) {
      GaugeAtLeast(s, Ordinal(s.actors[i].op.ordinal), i);
    } else if Queued(s.actors[i]) {
      GaugeAtLeast(s, Ordinal(s.actors[i].ordinal), i);
    }
  }

  lemma OrderlyState(bound: nat, actions: seq<Action>)
    requires Orderly(bound, actions)
    ensures var s := Run(bound, actions); Inv(s) && QueueSorted(s) && WatermarkExact(s.submissions)
  {
    Conservation(bound, actions);
    SerialQueueKeepsOrder(bound, actions);
  }

  // The next submission in order is held by a commit in progress or queued.
  lemma NextHolder(s: State) returns (i: nat)
    requires Inv(s) && WatermarkExact(s.submissions) && s.completed < s.submitted
    ensures i < |s.actors|
    ensures (Committing(s.actors[i]) && s.actors[i].op.ordinal == s.completed)
            || (Queued(s.actors[i]) && s.actors[i].ordinal == s.completed)
  {
    var law := Ordinal(s.completed);
    assert !s.submissions[s.completed];
    HoldersFromTotal(s, law);
    i :| OnlyHolder(s, law, i);
  }

  // A commit of the next submission may be enqueued; its handler is the last actor.
  lemma EnqueueNext(bound: nat, actions: seq<Action>, i: nat)
    requires Orderly(bound, actions)
    requires var s := Run(bound, actions);
             i < |s.actors| && Committing(s.actors[i]) && s.actors[i].op.ordinal == s.completed
    ensures Orderly(bound, actions + [Advance(i, true)])
    ensures var s, s' := Run(bound, actions), Run(bound, actions + [Advance(i, true)]); var h := |s.actors|;
            && s'.completed == s.completed && s'.submitted == s.submitted
            && h < |s'.actors| && Queued(s'.actors[h]) && s'.actors[h].ordinal == s.completed
  {
    var s, a := Run(bound, actions), Advance(i, true);
    OrderlyState(bound, actions);
    RunExtended(bound, actions, a);
    assert Shape(s, s.actors[i]);
    assert Next(s, a) == AdvanceLease(s, i, s.actors[i].f, s.actors[i].op, true);
    forall j | 0 <= j < |s.actors| && Committing(s.actors[j]) ensures s.completed <= s.actors[j].op.ordinal {
      PendingIsLater(s, j);
    }
  }

  // A queued buffer of the next submission may complete.
  lemma CompleteQueued(bound: nat, actions: seq<Action>, i: nat)
    requires Orderly(bound, actions)
    requires var s := Run(bound, actions);
             i < |s.actors| && Queued(s.actors[i]) && s.actors[i].ordinal == s.completed
    ensures Orderly(bound, actions + [Advance(i, true)])
    ensures var s, s' := Run(bound, actions), Run(bound, actions + [Advance(i, true)]);
            s'.completed == s.completed + 1 && s'.submitted == s.submitted
  {
    var s, a := Run(bound, actions), Advance(i, true);
    OrderlyState(bound, actions);
    RunExtended(bound, actions, a);
    assert Shape(s, s.actors[i]);
    assert Next(s, a) == AdvanceHandler(s, i, s.actors[i].token, s.actors[i].ordinal, s.actors[i].waits, Pending);
    forall j | 0 <= j < i ensures !Queued(s.actors[j]) {
      if Queued(s.actors[j]) { PendingIsLater(s, j); }
    }
  }

  lemma CompleteNext(bound: nat, actions: seq<Action>) returns (more: seq<Action>)
    requires Orderly(bound, actions) && Run(bound, actions).completed < Run(bound, actions).submitted
    ensures Orderly(bound, actions + more)
    ensures var s, s' := Run(bound, actions), Run(bound, actions + more);
            s'.completed == s.completed + 1 && s'.submitted == s.submitted
  {
    hide Run, Next, FifoRun, NoOvertaking, Inv;
    var s := Run(bound, actions);
    OrderlyState(bound, actions);
    var i := NextHolder(s);
    if Queued(s.actors[i]) {
      more := [Advance(i, true)];
      CompleteQueued(bound, actions, i);
    } else {
      EnqueueNext(bound, actions, i);
      var first, second := Advance(i, true), Advance(|s.actors|, true);
      CompleteQueued(bound, actions + [first], |s.actors|);
      more := [first, second];
      assert actions + more == actions + [first] + [second];
    }
  }

  // Any number of submissions can be completed, in order.
  lemma {:induction false} CompleteUpTo(bound: nat, actions: seq<Action>, target: nat) returns (more: seq<Action>)
    requires Orderly(bound, actions) && target <= Run(bound, actions).submitted
    ensures Orderly(bound, actions + more)
    ensures var s, s' := Run(bound, actions), Run(bound, actions + more);
            s'.completed == Max(s.completed, target) && s'.submitted == s.submitted
    decreases target - Run(bound, actions).completed
  {
    hide Run, FifoRun, NoOvertaking;
    if Run(bound, actions).completed >= target {
      more := [];
      assert actions + more == actions;
    } else {
      var one := CompleteNext(bound, actions);
      var rest := CompleteUpTo(bound, actions + one, target);
      more := one + rest;
      assert actions + more == actions + one + rest;
    }
  }

  // ----- the stamp -----

  // In every orderly continuation the stamp says whether submission k has completed.
  ghost predicate StampExact(bound: nat, actions: seq<Action>, stamp: nat, k: nat) {
    forall more: seq<Action> :: Orderly(bound, actions + more) ==>
      var s := Run(bound, actions + more);
      k < |s.submissions| && (stamp <= s.completed <==> s.submissions[k])
  }

  lemma OwnOrdinalExact(bound: nat, actions: seq<Action>, k: nat)
    requires k < Run(bound, actions).submitted
    ensures StampExact(bound, actions, k + 1, k)
  {
    forall more: seq<Action> | Orderly(bound, actions + more)
      ensures var s := Run(bound, actions + more); k < |s.submissions| && (k + 1 <= s.completed <==> s.submissions[k])
    {
      OrderlyState(bound, actions + more);
      Conservation(bound, actions);
      SubmittedBetween(bound, actions, more);
    }
  }

  // An earlier stamp is reached while submission k, the newest, is still running.
  lemma EarlierStampEarly(bound: nat, actions: seq<Action>, stamp: nat, k: nat)
    requires Orderly(bound, actions) && Run(bound, actions).submitted == k + 1 && stamp <= k
    requires k < |Run(bound, actions).submissions| && !Run(bound, actions).submissions[k]
    ensures !StampExact(bound, actions, stamp, k)
  {
    var more := CompleteUpTo(bound, actions, stamp);
    OrderlyState(bound, actions);
    OrderlyState(bound, actions + more);
    assert Orderly(bound, actions + more);
  }

  /** A stamp is taken, then other things happen, then a lease records its submission.  In every
      orderly continuation the stamp tells exactly whether the buffer of that lease has completed,
      if and only if no other lease recorded in between. */
  lemma StampIff(bound: nat, before: seq<Action>, between: seq<Action>, a: Action)
    requires Orderly(bound, before + between + [a]) && Records(Run(bound, before + between), a)
    ensures StampExact(bound, before + between + [a], Run(bound, before).submitted + 1,
                       Run(bound, before + between).submitted)
            <==> NoRecording(bound, before, between)
  {
    hide Run, Next, Records, Orderly, StampExact, NoRecording;
    var s, k := Run(bound, before + between), Run(bound, before + between).submitted;
    SubmittedBetween(bound, before, between);
    Conservation(bound, before + between);
    RunExtended(bound, before + between, a);
    OnlyRecordingCounts(s, a);
    if NoRecording(bound, before, between) {
      OwnOrdinalExact(bound, before + between + [a], k);
    } else {
      EarlierStampEarly(bound, before + between + [a], Run(bound, before).submitted + 1, k);
    }
  }

  // One more action of an orderly run whose last state is known.
  lemma Step(actions: seq<Action>, s: State, a: Action, s': State)
    requires Run(2, actions) == s && Orderly(2, actions)
    requires Next(s, a) == s' && CompletesOldest(s, a) && !Overtakes(s, a)
    ensures Run(2, actions + [a]) == s' && Orderly(2, actions + [a])
  {
    hide Run, Next, CompletesOldest, Overtakes;
    Extend(2, actions, s, a, s');
  }

  function Spent(t: nat): Actor { Lease(LeaseFields(To(t), false, false, true, true), Ready) }

  // The second lease records, is enqueued and completes.
  lemma SecondCompletes(before: seq<Action>)
    requires Orderly(2, before) && Run(2, before) == TwoOut(0, 0, [], [Held(0, Ready), Held(1, Ready)])
    ensures var actions := before + [Commit(1, false)] + [Advance(1, true)] + [Advance(1, true)] + [Advance(2, true)];
            && Orderly(2, actions)
            && Run(2, actions) == TwoOut(1, 1, [true],
                                         [Held(0, Ready), Spent(1), Handler(1, 0, false, HandlerReleasing(Exchange))])
  {
    hide Run, Orderly;
    var recording, enqueuing := Held(1, Recording(false)), Held(1, Enqueuing(0, false));
    var queued, released := Handler(1, 0, false, Pending), Handler(1, 0, false, HandlerReleasing(Exchange));
    var s0 := TwoOut(0, 0, [], [Held(0, Ready), Held(1, Ready)]);
    var s1 := TwoOut(0, 0, [], [Held(0, Ready), recording]);
    var s2 := TwoOut(1, 0, [false], [Held(0, Ready), enqueuing]);
    var s3 := TwoOut(1, 0, [false], [Held(0, Ready), Spent(1), queued]);
    var s4 := TwoOut(1, 1, [true], [Held(0, Ready), Spent(1), released]);
    assert s0.actors[1 := recording] == s1.actors && s1.actors[1 := enqueuing] == s2.actors;
    assert [] + [false] == s2.submissions && s2.actors[1 := Spent(1)] + [queued] == s3.actors;
    assert s3.actors[2 := released] == s4.actors && [false][0 := true] == [true];
    Step(before, s0, Commit(1, false), s1);
    Step(before + [Commit(1, false)], s1, Advance(1, true), s2);
    Step(before + [Commit(1, false)] + [Advance(1, true)], s2, Advance(1, true), s3);
    Step(before + [Commit(1, false)] + [Advance(1, true)] + [Advance(1, true)], s3, Advance(2, true), s4);
  }

  /** A run in which the stamp misleads: with two open leases it is 1; the second lease records, is
      enqueued and completes, then the first one records.  The run is orderly, the stamp has been
      reached, and the buffer of the first lease is not even enqueued. */
  lemma StampMisleads() returns (before: seq<Action>, between: seq<Action>, a: Action)
    ensures Run(2, before) == TwoOut(0, 0, [], [Held(0, Ready), Held(1, Ready)])
    ensures Orderly(2, before + between + [a]) && Records(Run(2, before + between), a) && a.i == 0
    ensures var s := Run(2, before + between + [a]);
            s.completed == Run(2, before).submitted + 1 && s.submissions == [true, false]
    ensures !StampExact(2, before + between + [a], Run(2, before).submitted + 1, 1)
  {
    hide Run, StampExact;
    before := TwoLeases();
    SecondCompletes(before);
    var b := before + [Commit(1, false)] + [Advance(1, true)] + [Advance(1, true)] + [Advance(2, true)];
    var released := Handler(1, 0, false, HandlerReleasing(Exchange));
    var s4 := TwoOut(1, 1, [true], [Held(0, Ready), Spent(1), released]);
    var s5 := TwoOut(1, 1, [true], [Held(0, Recording(false)), Spent(1), released]);
    var s6 := TwoOut(2, 1, [true, false], [Held(0, Enqueuing(1, false)), Spent(1), released]);
    assert s4.actors[0 := Held(0, Recording(false))] == s5.actors;
    assert s5.actors[0 := Held(0, Enqueuing(1, false))] == s6.actors && [true] + [false] == s6.submissions;
    Step(b, s4, Commit(0, false), s5);
    between := [Commit(1, false), Advance(1, true), Advance(1, true), Advance(2, true), Commit(0, false)];
    a := Advance(0, true);
    assert before + between == b + [Commit(0, false)];
    Step(before + between, s5, a, s6);
    EarlierStampEarly(2, before + between + [a], 1, 1);
  }
}
