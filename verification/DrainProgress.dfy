/**
 When a drain can still succeed.  A drain takes the permits one by one and keeps them while it
 waits, so two drains that hold permits wait for each other and only a timeout ends them.  That is
 the only obstacle: in every other reachable state everything that holds a permit or a token can
 be brought to give it back, and the drain then takes them all.
 */
module DrainProgress {
  import opened SubmissionProtocol
  import opened SubmissionSafety

  // ----- steps that are no timeouts -----

  predicate TimesOut(s: State, a: Action) {
    a.Advance? && !a.ok && a.i < |s.actors| &&
    match s.actors[a.i]
    case Make(pc) => pc.Waiting?
    case Lease(_, op) => op.Awaiting?
    case Drain(pc) => pc.Acquire? && pc.acquired < s.bound
    case _ => false
  }

  function After(s: State, more: seq<Action>): State
    decreases |more|
  {
    if more == [] then s else After(Next(s, more[0]), more[1..])
  }

  // Nothing times out on the way.
  predicate Patient(s: State, more: seq<Action>)
    decreases |more|
  {
    more != [] ==> !TimesOut(s, more[0]) && Patient(Next(s, more[0]), more[1..])
  }

  lemma RunOneMore(bound: nat, actions: seq<Action>, a: Action)
    ensures Run(bound, actions + [a]) == Next(Run(bound, actions), a)
  {
    assert (actions + [a])[..|actions|] == actions;
  }

  lemma {:induction false} RunAfter(bound: nat, actions: seq<Action>, more: seq<Action>)
    ensures Run(bound, actions + more) == After(Run(bound, actions), more)
    decreases |more|
  {
    hide Next, Run;
    if more == [] {
      assert actions + more == actions;
    } else {
      RunOneMore(bound, actions, more[0]);
      RunAfter(bound, actions + [more[0]], more[1..]);
      assert actions + [more[0]] + more[1..] == actions + more;
    }
  }

  lemma {:induction false} AfterBoth(s: State, first: seq<Action>, second: seq<Action>)
    requires Patient(s, first) && Patient(After(s, first), second)
    ensures Patient(s, first + second) && After(s, first + second) == After(After(s, first), second)
    decreases |first|
  {
    hide Next, TimesOut;
    if first == [] {
      assert first + second == second;
    } else {
      AfterBoth(Next(s, first[0]), first[1..], second);
      assert (first + second)[1..] == first[1..] + second;
    }
  }

  lemma StepFirst(s: State, a: Action, rest: seq<Action>)
    requires !TimesOut(s, a) && Patient(Next(s, a), rest)
    ensures Patient(s, [a] + rest) && After(s, [a] + rest) == After(Next(s, a), rest)
  {
    hide Next, TimesOut;
    assert ([a] + rest)[1..] == rest;
  }

  // ----- giving everything back -----

  predicate Acquires(a: Actor) { a.Drain? && a.drain.Acquire? }

  function StageRank(r: ReleaseStage): nat {
    match r case Exchange => 3 case Subtract => 2 case Signal => 1
  }

  // An upper bound on the steps after which the actor, and the handler it may start, hold neither
  // a permit nor a token; a drain that is still acquiring keeps its permits.
  function Rank(a: Actor): nat {
    match a
    case Make(pc) =>
      (match pc
       case Waiting => 0
       case Acquired => 7
       case Counted(_) => 6
       case Allocating => 5
       case UndoCount => 2
       case UndoSignal => 1)
    case Lease(f, op) =>
      (match op
       case Ready => if OwnsToken(f) then 4 else 0
       case Recording(_) => 6
       case Enqueuing(_, _) => 5
       case Awaiting(_) => 0
       case Releasing(_, stage, _) => StageRank(stage)
       case ReleasingRecord(_, _) => 0
       case Finishing(_) => 0)
    case Handler(_, _, _, st) =>
      if st.Pending? then 4 else if st.HandlerReleasing? then StageRank(st.stage) else 0
    case Drain(pc) => if pc.GiveBack? && pc.given < pc.acquired then pc.acquired - pc.given else 0
    case Gone => 0
  }

  function TotalRank(actors: seq<Actor>): nat {
    if actors == [] then 0 else TotalRank(actors[..|actors| - 1]) + Rank(actors[|actors| - 1])
  }

  lemma {:induction false} RankUpdate(actors: seq<Actor>, i: nat, a: Actor)
    requires i < |actors|
    ensures TotalRank(actors[i := a]) == TotalRank(actors) - Rank(actors[i]) + Rank(a)
  {
    var n := |actors| - 1;
    if i == n {
      assert actors[i := a][..n] == actors[..n];
    } else {
      assert actors[i := a][..n] == actors[..n][i := a];
      RankUpdate(actors[..n], i, a);
    }
  }

  lemma {:induction false} NothingRanked(actors: seq<Actor>)
    ensures TotalRank(actors) == 0 <==> forall i :: 0 <= i < |actors| ==> Rank(actors[i]) == 0
  {
    if actors != [] { NothingRanked(actors[..|actors| - 1]); }
  }

  // The drains that are acquiring are the same, and hold what they held.
  predicate SameAcquirers(s: State, s': State) {
    && |s.actors| <= |s'.actors| && s'.bound == s.bound
    && (forall j :: 0 <= j < |s.actors| && Acquires(s.actors[j]) ==> s'.actors[j] == s.actors[j])
    && (forall j :: 0 <= j < |s'.actors| && Acquires(s'.actors[j]) ==> j < |s.actors| && s'.actors[j] == s.actors[j])
  }

  // The client abandons a lease it has not committed; everything else goes on by itself.
  function SettleAction(s: State, i: nat): Action {
    if ReadyLease(s, i) then Abandon(i) else Advance(i, true)
  }

  // Actor i has come closer to holding nothing; a commit has started the handler h.
  ghost predicate Closer(s: State, i: nat, s': State)
    requires i < |s.actors|
  {
    && i < |s'.actors| && !Acquires(s.actors[i]) && !Acquires(s'.actors[i]) && s'.bound == s.bound
    && (|| (s'.actors == s.actors[i := s'.actors[i]] && Rank(s'.actors[i]) < Rank(s.actors[i]))
        || exists h: Actor ::
             && s'.actors == s.actors[i := s'.actors[i]] + [h] && !Acquires(h)
             && Rank(s'.actors[i]) + Rank(h) < Rank(s.actors[i]))
  }

  lemma LeaseCloser(s: State, i: nat, f: LeaseFields, op: LeaseOp)
    requires Inv(s) && i < |s.actors| && s.actors[i] == Lease(f, op) && !op.Ready? && Rank(s.actors[i]) > 0
    ensures Closer(s, i, AdvanceLease(s, i, f, op, true))
  {
    hide Balanced;
    assert Shape(s, s.actors[i]);
    var s' := AdvanceLease(s, i, f, op, true);
    if op.Enqueuing? {
      var h := Handler(f.ptr.token, op.ordinal, op.waits, Pending);
      assert s'.actors == s.actors[i := s'.actors[i]] + [h];
    }
  }

  lemma OtherCloser(s: State, i: nat)
    requires Inv(s) && i < |s.actors| && !s.actors[i].Lease? && Rank(s.actors[i]) > 0
    ensures Closer(s, i, Next(s, Advance(i, true)))
  {
    hide Balanced;
    assert Shape(s, s.actors[i]);
    var s' := Next(s, Advance(i, true));
    match s.actors[i]
    case Make(pc) => assert s' == AdvanceMake(s, i, pc, true);
    case Handler(t, k, waits, st) => assert s' == AdvanceHandler(s, i, t, k, waits, st);
    case Drain(pc) => assert s' == AdvanceDrain(s, i, pc, true);
    case Gone =>
  }

  lemma SettleEffect(s: State, i: nat)
    requires Inv(s) && i < |s.actors| && Rank(s.actors[i]) > 0
    ensures Closer(s, i, Next(s, SettleAction(s, i))) && !TimesOut(s, SettleAction(s, i))
  {
    hide Balanced;
    assert Shape(s, s.actors[i]);
    if !s.actors[i].Lease? {
      OtherCloser(s, i);
    } else if !s.actors[i].op.Ready? {
      LeaseCloser(s, i, s.actors[i].f, s.actors[i].op);
    }
  }

  lemma SettleStep(s: State, i: nat)
    requires Inv(s) && i < |s.actors| && Rank(s.actors[i]) > 0
    ensures var a := SettleAction(s, i);
            && !TimesOut(s, a) && SameAcquirers(s, Next(s, a))
            && TotalRank(Next(s, a).actors) < TotalRank(s.actors)
  {
    hide Rank, Next, Inv, TimesOut;
    SettleEffect(s, i);
    var s' := Next(s, SettleAction(s, i));
    var updated := s.actors[i := s'.actors[i]];
    RankUpdate(s.actors, i, s'.actors[i]);
    if s'.actors != updated {
      var h: Actor :| s'.actors == updated + [h] && !Acquires(h) && Rank(s'.actors[i]) + Rank(h) < Rank(s.actors[i]);
      assert (updated + [h])[..|updated|] == updated;
    }
  }

  // Everything that does not acquire gives back what it holds.
  lemma Settle(s: State) returns (more: seq<Action>)
    requires Inv(s)
    ensures Patient(s, more) && Inv(After(s, more)) && SameAcquirers(s, After(s, more))
    ensures TotalRank(After(s, more).actors) == 0
    decreases TotalRank(s.actors)
  {
    hide Rank, Next, Inv, TimesOut;
    NothingRanked(s.actors);
    if TotalRank(s.actors) == 0 {
      more := [];
    } else {
      var i :| 0 <= i < |s.actors| && Rank(s.actors[i]) > 0;
      var a := SettleAction(s, i);
      SettleStep(s, i);
      NextInv(s, a);
      var rest := Settle(Next(s, a));
      StepFirst(s, a, rest);
      more := [a] + rest;
    }
  }

  // ----- one drain that holds permits -----

  predicate Holding(a: Actor) { Acquires(a) && a.drain.acquired > 0 }

  predicate AtMostOneHolding(s: State) {
    forall p, q :: 0 <= p < q < |s.actors| ==> !(Holding(s.actors[p]) && Holding(s.actors[q]))
  }

  lemma {:induction false} TotalOfOne(law: Law, actors: seq<Actor>, h: nat)
    requires forall j :: 0 <= j < |actors| && j != h ==> Weight(law, actors[j]) == 0
    ensures Total(law, actors) == if h < |actors| then Weight(law, actors[h]) else 0
  {
    if actors != [] { TotalOfOne(law, actors[..|actors| - 1], h); }
  }

  // With everything settled, what one drain does not hold is in the semaphore.
  lemma RestIsFree(s: State, h: nat)
    requires Inv(s) && TotalRank(s.actors) == 0 && h < |s.actors| && Acquires(s.actors[h])
    requires forall j :: 0 <= j < |s.actors| && Holding(s.actors[j]) ==> j == h
    ensures s.semaphore + s.actors[h].drain.acquired == s.bound
  {
    NothingRanked(s.actors);
    forall j | 0 <= j < |s.actors| && j != h
      ensures Weight(Permits, s.actors[j]) == 0 && Weight(Tokens, s.actors[j]) == 0
    {
      assert Rank(s.actors[j]) == 0 && Shape(s, s.actors[j]);
    }
    TotalOfOne(Permits, s.actors, h);
    TotalOfOne(Tokens, s.actors, h);
    assert Balanced(s, Permits) && Balanced(s, Tokens);
  }

  lemma {:induction false} GiveBackAll(s: State, i: nat) returns (more: seq<Action>)
    requires i < |s.actors| && s.actors[i].Drain? && s.actors[i].drain.GiveBack?
    requires s.actors[i].drain.given <= s.actors[i].drain.acquired
    ensures Patient(s, more)
    ensures var pc := s.actors[i].drain; var n := pc.acquired;
            After(s, more) == s.(semaphore := s.semaphore + n - pc.given,
                                 actors := s.actors[i := Drain(DrainDone(n == s.bound, n, n))])
    decreases s.actors[i].drain.acquired - s.actors[i].drain.given
  {
    var pc := s.actors[i].drain;
    var a := Advance(i, true);
    assert Next(s, a) == AdvanceDrain(s, i, pc, true);
    var rest := [];
    if pc.given < pc.acquired { rest := GiveBackAll(Next(s, a), i); }
    StepFirst(s, a, rest);
    more := [a] + rest;
  }

  lemma {:induction false} TakeAll(s: State, i: nat) returns (more: seq<Action>)
    requires i < |s.actors| && Acquires(s.actors[i]) && s.semaphore + s.actors[i].drain.acquired == s.bound
    requires s.semaphore >= 0
    ensures Patient(s, more)
    ensures After(s, more) == s.(semaphore := s.bound,
                                 actors := s.actors[i := Drain(DrainDone(true, s.bound, s.bound))])
    decreases s.semaphore
  {
    var n := s.actors[i].drain.acquired;
    var a := Advance(i, true);
    assert Next(s, a) == AdvanceDrain(s, i, Acquire(n), true);
    var rest;
    if n < s.bound {
      rest := TakeAll(Next(s, a), i);
    } else {
      rest := GiveBackAll(Next(s, a), i);
    }
    StepFirst(s, a, rest);
    more := [a] + rest;
  }

  predicate Succeeded(s: State, i: nat) {
    i < |s.actors| && s.actors[i].Drain? && s.actors[i].drain.DrainDone? && s.actors[i].drain.drained
  }

  // The drain that holds permits finishes first; then every permit is free.
  lemma OneHolderSucceeds(s: State, i: nat) returns (more: seq<Action>)
    requires Inv(s) && i < |s.actors| && Acquires(s.actors[i]) && AtMostOneHolding(s)
    ensures Patient(s, more) && Succeeded(After(s, more), i)
  {
    hide Next, Inv, TimesOut, TotalRank, Patient, After;
    more := Settle(s);
    var settled := After(s, more);
    var h := if exists j :: 0 <= j < |s.actors| && Holding(s.actors[j])
             then (var j :| 0 <= j < |s.actors| && Holding(s.actors[j]); j) else i;
    RestIsFree(settled, h);
    InvSemaphore(settled);
    var first := TakeAll(settled, h);
    AfterBoth(s, more, first);
    more := more + first;
    if h != i {
      var second := TakeAll(After(settled, first), i);
      AfterBoth(s, more, second);
      more := more + second;
    }
  }

  lemma InvSemaphore(s: State)
    requires Inv(s)
    ensures s.semaphore >= 0
  {
  }

  // ----- two drains that hold permits -----

  // While another drain holds a permit, drain i does not have them all.
  lemma NotAll(s: State, i: nat, p: nat)
    requires Inv(s) && i < |s.actors| && p < |s.actors| && i != p
    requires Acquires(s.actors[i]) && Holding(s.actors[p])
    ensures s.actors[i].drain.acquired < s.bound
  {
    var n := |s.actors|;
    assert s.actors[..n] == s.actors;
    TwoWeights(Permits, s, n, if i < p then i else p, if i < p then p else i);
    TotalNonNegative(Tokens, s, n);
    assert Balanced(s, Permits) && Balanced(s, Tokens);
  }

  // Actor i still waits for permits, and has not given any back.
  predicate StillAcquiring(s: State, s': State, i: nat)
    requires i < |s.actors| && Acquires(s.actors[i])
  {
    i < |s'.actors| && Acquires(s'.actors[i]) && s.actors[i].drain.acquired <= s'.actors[i].drain.acquired
  }

  lemma BlockedStep(s: State, a: Action, i: nat, p: nat)
    requires Inv(s) && i < |s.actors| && p < |s.actors| && i != p && !TimesOut(s, a)
    requires Acquires(s.actors[i]) && Holding(s.actors[p])
    ensures StillAcquiring(s, Next(s, a), i)
  {
    if OwnStep(a, i) {
      NotAll(s, i, p);
      assert Next(s, a) == AdvanceDrain(s, i, s.actors[i].drain, a.ok);
    } else {
      DrainUntouched(s, a, i);
    }
  }

  /** Two drains that each hold a permit stay where they are, whatever anybody does short of a
      timeout, and so does every other drain that waits for permits. */
  lemma {:induction false} TwoHoldersBlock(s: State, more: seq<Action>, p: nat, q: nat, i: nat)
    requires Inv(s) && p < |s.actors| && q < |s.actors| && p != q && i < |s.actors| && Patient(s, more)
    requires Holding(s.actors[p]) && Holding(s.actors[q]) && Acquires(s.actors[i])
    ensures var s' := After(s, more);
            StillAcquiring(s, s', p) && StillAcquiring(s, s', q) && StillAcquiring(s, s', i)
    decreases |more|
  {
    hide Next, Inv, TimesOut;
    if more != [] {
      BlockedStep(s, more[0], p, q);
      BlockedStep(s, more[0], q, p);
      BlockedStep(s, more[0], i, if i == p then q else p);
      NextInv(s, more[0]);
      TwoHoldersBlock(Next(s, more[0]), more[1..], p, q, i);
    }
  }

  // Some continuation without a timeout lets drain i return true.
  ghost predicate CanSucceed(bound: nat, actions: seq<Action>, i: nat) {
    exists more :: Patient(Run(bound, actions), more) && Succeeded(Run(bound, actions + more), i)
  }

  /** In every reachable state, a drain that waits for permits can still succeed without a timeout
      if and only if at most one drain that waits holds any.  Leases in use, completions and failed
      allocations are no obstacle. */
  lemma CanSucceedIff(bound: nat, actions: seq<Action>, i: nat)
    requires var s := Run(bound, actions); i < |s.actors| && Acquires(s.actors[i])
    ensures CanSucceed(bound, actions, i) <==> AtMostOneHolding(Run(bound, actions))
  {
    hide Run, Inv, Next, TimesOut;
    var s := Run(bound, actions);
    Conservation(bound, actions);
    if AtMostOneHolding(s) {
      var more := OneHolderSucceeds(s, i);
      RunAfter(bound, actions, more);
    } else {
      var p, q :| 0 <= p < q < |s.actors| && Holding(s.actors[p]) && Holding(s.actors[q]);
      forall more | Patient(s, more) ensures !Succeeded(Run(bound, actions + more), i) {
        RunAfter(bound, actions, more);
        TwoHoldersBlock(s, more, p, q, i);
      }
    }
  }

  /** With a bound of 0 or 1 a waiting drain can always succeed. */
  lemma SmallBoundNeverBlocks(bound: nat, actions: seq<Action>, i: nat)
    requires bound <= 1
    requires var s := Run(bound, actions); i < |s.actors| && Acquires(s.actors[i])
    ensures CanSucceed(bound, actions, i)
  {
    hide Run, Next;
    var s := Run(bound, actions);
    Conservation(bound, actions);
    forall p, q | 0 <= p < q < |s.actors| ensures !(Holding(s.actors[p]) && Holding(s.actors[q])) {
      if Holding(s.actors[p]) && Holding(s.actors[q]) { NotAll(s, p, q); }
    }
    CanSucceedIff(bound, actions, i);
  }

  lemma RunOfNothing(bound: nat)
    ensures Run(bound, []) == Init(bound)
  {
  }

  lemma Extended(bound: nat, actions: seq<Action>, s: State, a: Action, s': State) returns (longer: seq<Action>)
    requires Run(bound, actions) == s && Next(s, a) == s'
    ensures longer == actions + [a] && Run(bound, longer) == s'
  {
    longer := actions + [a];
    assert longer[..|actions|] == actions;
  }

  /** With every larger bound two drains can block each other although nothing is in flight. */
  lemma TwoDrainsBlock(bound: nat) returns (actions: seq<Action>)
    requires bound >= 2
    ensures Run(bound, actions) == State(bound, bound - 2, 0, 0, 0, [], [], [Drain(Acquire(1)), Drain(Acquire(1))])
    ensures !CanSucceed(bound, actions, 0) && !CanSucceed(bound, actions, 1)
  {
    hide Run, CanSucceed;
    var start, check := Drain(Acquire(0)), Drain(CheckIdle(true));
    var s0 := Init(bound);
    var s1 := s0.(actors := [check]);
    var s2 := s0.(actors := [check, check]);
    var s3 := s0.(actors := [start, check]);
    var s4 := s0.(actors := [start, start]);
    var s5 := s0.(semaphore := bound - 1, actors := [Drain(Acquire(1)), start]);
    var s6 := s0.(semaphore := bound - 2, actors := [Drain(Acquire(1)), Drain(Acquire(1))]);
    assert s0.actors + [check] == s1.actors && s1.actors + [check] == s2.actors;
    assert s2.actors[0 := start] == s3.actors && s3.actors[1 := start] == s4.actors;
    assert s4.actors[0 := Drain(Acquire(1))] == s5.actors && s5.actors[1 := Drain(Acquire(1))] == s6.actors;
    actions := [];
    RunOfNothing(bound);
    actions := Extended(bound, actions, s0, StartDrain(true), s1);
    actions := Extended(bound, actions, s1, StartDrain(true), s2);
    actions := Extended(bound, actions, s2, Advance(0, true), s3);
    actions := Extended(bound, actions, s3, Advance(1, true), s4);
    actions := Extended(bound, actions, s4, Advance(0, true), s5);
    actions := Extended(bound, actions, s5, Advance(1, true), s6);
    assert Holding(s6.actors[0]) && Holding(s6.actors[1]);
    CanSucceedIff(bound, actions, 0);
    CanSucceedIff(bound, actions, 1);
  }

  /** What the timeout is for: when two waiting drains hold permits, a timeout of one of them lets the
      other succeed. */
  lemma TimeoutUnblocks(bound: nat, actions: seq<Action>, p: nat, i: nat)
    requires var s := Run(bound, actions);
             && p < |s.actors| && i < |s.actors| && p != i && Acquires(s.actors[p]) && Acquires(s.actors[i])
             && forall j :: 0 <= j < |s.actors| && Holding(s.actors[j]) ==> j == p || j == i
    ensures CanSucceed(bound, actions + [Advance(p, false)], i)
  {
    hide Run, CanSucceed;
    var s := Run(bound, actions);
    var longer := Extended(bound, actions, s, Advance(p, false), Next(s, Advance(p, false)));
    assert Next(s, Advance(p, false)) == AdvanceDrain(s, p, s.actors[p].drain, false);
    CanSucceedIff(bound, longer, i);
  }
}
