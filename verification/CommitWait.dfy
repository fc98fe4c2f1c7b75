/**
 commitAndWait in the submission protocol: a wait is never left alone.  While a lease waits for the
 done semaphore of its command buffer, that semaphore has been signalled or the completion handler
 that will signal it is still to finish; so every wait can be brought to its end without a timeout.
 */
module CommitWait {
  import opened SubmissionProtocol
  import opened SubmissionSafety
  import opened DrainProgress

  // ----- who will signal -----

  predicate WaitsFor(a: Actor, t: nat) { a.Lease? && a.op == Awaiting(t) }

  // A handler of token t that has still to signal done.
  predicate WillSignal(a: Actor, t: nat) { a.Handler? && a.token == t && a.waits }

  predicate Promised(s: State, t: nat) {
    (t < |s.tokens| && s.tokens[t].done) || exists j :: 0 <= j < |s.actors| && WillSignal(s.actors[j], t)
  }

  ghost predicate WaitsPromised(s: State) {
    forall i, t: nat :: 0 <= i < |s.actors| && WaitsFor(s.actors[i], t) ==> Promised(s, t)
  }

  lemma LeaseLeavesHandler(s: State, i: nat, f: LeaseFields, op: LeaseOp, ok: bool, j: nat)
    requires i < |s.actors| && s.actors[i] == Lease(f, op) && j < |s.actors| && s.actors[j].Handler?
    ensures j < |AdvanceLease(s, i, f, op, ok).actors| && AdvanceLease(s, i, f, op, ok).actors[j] == s.actors[j]
  {
  }

  // A handler only changes by its own steps.
  lemma HandlerUntouched(s: State, a: Action, j: nat)
    requires j < |s.actors| && s.actors[j].Handler? && !OwnStep(a, j)
    ensures j < |Next(s, a).actors| && Next(s, a).actors[j] == s.actors[j]
  {
    if a.Advance? && a.i < |s.actors| {
      match s.actors[a.i]
      case Make(pc) => assert Next(s, a) == AdvanceMake(s, a.i, pc, a.ok);
      case Lease(f, op) => LeaseLeavesHandler(s, a.i, f, op, a.ok, j);
      case Handler(t, k, waits, stage) => assert Next(s, a) == AdvanceHandler(s, a.i, t, k, waits, stage);
      case Drain(pc) => assert Next(s, a) == AdvanceDrain(s, a.i, pc, a.ok);
      case Gone =>
    }
  }

  // Its own step leaves the handler there, or is the signal.
  lemma HandlerSignals(s: State, j: nat, ok: bool, t: nat)
    requires Inv(s) && j < |s.actors| && WillSignal(s.actors[j], t)
    ensures var s' := Next(s, Advance(j, ok));
            && j < |s'.actors| && t < |s'.tokens|
            && (WillSignal(s'.actors[j], t) || s'.tokens[t].done)
  {
    hide Balanced;
    var h := s.actors[j];
    assert Shape(s, h);
    assert Next(s, Advance(j, ok)) == AdvanceHandler(s, j, h.token, h.ordinal, h.waits, h.stage);
  }

  lemma DoneStays(s: State, a: Action, t: nat)
    requires Inv(s) && t < |s.tokens| && s.tokens[t].done
    ensures t < |Next(s, a).tokens| && Next(s, a).tokens[t].done
  {
    if !a.Advance? {
      ClientShaped(s, a);
    } else if a.i < |s.actors| {
      AdvanceShaped(s, a.i, a.ok);
    }
  }

  lemma PromiseKept(s: State, a: Action, t: nat)
    requires Inv(s) && Promised(s, t)
    ensures Promised(Next(s, a), t)
  {
    hide Next, Inv;
    if t < |s.tokens| && s.tokens[t].done {
      DoneStays(s, a, t);
    } else {
      var j: nat :| j < |s.actors| && WillSignal(s.actors[j], t);
      if OwnStep(a, j) {
        HandlerSignals(s, j, a.ok, t);
        assert a == Advance(j, a.ok);
        assert WillSignal(Next(s, a).actors[j], t) || Next(s, a).tokens[t].done;
      } else {
        HandlerUntouched(s, a, j);
        assert WillSignal(Next(s, a).actors[j], t);
      }
    }
  }

  predicate WaitsAt(s: State, i: nat, t: nat) { i < |s.actors| && WaitsFor(s.actors[i], t) }

  lemma ClientStartsNoWait(s: State, a: Action, i: nat, t: nat)
    requires !a.Advance? && WaitsAt(Next(s, a), i, t)
    ensures WaitsAt(s, i, t)
  {
  }

  lemma OthersStartNoWait(s: State, j: nat, ok: bool, i: nat, t: nat)
    requires j < |s.actors| && !s.actors[j].Lease? && WaitsAt(Next(s, Advance(j, ok)), i, t)
    ensures WaitsAt(s, i, t)
  {
    match s.actors[j]
    case Make(pc) => assert Next(s, Advance(j, ok)) == AdvanceMake(s, j, pc, ok);
    case Handler(u, k, waits, stage) => assert Next(s, Advance(j, ok)) == AdvanceHandler(s, j, u, k, waits, stage);
    case Drain(pc) => assert Next(s, Advance(j, ok)) == AdvanceDrain(s, j, pc, ok);
    case Gone =>
  }

  lemma EnqueuingPromises(s: State, j: nat, f: LeaseFields, op: LeaseOp, ok: bool, i: nat, t: nat)
    requires Inv(s) && j < |s.actors| && s.actors[j] == Lease(f, op)
    requires WaitsAt(AdvanceLease(s, j, f, op, ok), i, t) && !WaitsAt(s, i, t)
    ensures Promised(AdvanceLease(s, j, f, op, ok), t)
  {
    hide Balanced;
    assert Shape(s, s.actors[j]);
    if op.Enqueuing? { assert WillSignal(AdvanceLease(s, j, f, op, ok).actors[|s.actors|], t); }
  }

  // A new wait begins by the step that puts its handler on the queue.
  lemma NewWait(s: State, a: Action, i: nat, t: nat)
    requires Inv(s) && WaitsAt(Next(s, a), i, t) && !WaitsAt(s, i, t)
    ensures Promised(Next(s, a), t)
  {
    hide Inv, WaitsAt, Promised;
    if !a.Advance? {
      ClientStartsNoWait(s, a, i, t);
    } else if a.i < |s.actors| {
      if s.actors[a.i].Lease? {
        EnqueuingPromises(s, a.i, s.actors[a.i].f, s.actors[a.i].op, a.ok, i, t);
      } else {
        OthersStartNoWait(s, a.i, a.ok, i, t);
      }
    }
  }

  /** In every reachable state, what a commitAndWait waits for has been signalled, or its handler is
      still there to signal it. */
  lemma {:induction false} NoWaitIsForgotten(bound: nat, actions: seq<Action>)
    ensures WaitsPromised(Run(bound, actions))
  {
    if actions != [] {
      hide Next, Inv, Promised, WaitsFor;
      var n := |actions| - 1;
      var s := Run(bound, actions[..n]);
      NoWaitIsForgotten(bound, actions[..n]);
      Conservation(bound, actions[..n]);
      var s' := Next(s, actions[n]);
      forall i, t: nat | 0 <= i < |s'.actors| && WaitsFor(s'.actors[i], t) ensures Promised(s', t) {
        if WaitsAt(s, i, t) {
          PromiseKept(s, actions[n], t);
        } else {
          NewWait(s, actions[n], i, t);
        }
      }
    }
  }

  /** Once no handler of its command buffer is left, the wait ends at its next step; the lease is
      ready and keeps its fields. */
  lemma WaitEndsAfterHandler(bound: nat, actions: seq<Action>, i: nat, t: nat)
    requires var s := Run(bound, actions); i < |s.actors| && WaitsFor(s.actors[i], t)
    requires var s := Run(bound, actions); forall j :: 0 <= j < |s.actors| ==> !WillSignal(s.actors[j], t)
    ensures var s := Run(bound, actions);
            Next(s, Advance(i, true)) == s.(actors := s.actors[i := Lease(s.actors[i].f, Ready)])
  {
    NoWaitIsForgotten(bound, actions);
    assert Promised(Run(bound, actions), t);
  }

  // ----- bringing a wait to its end -----

  // The steps a waiting handler still has to take.
  function Left(st: HandlerStage): nat {
    match st
    case Pending => 6
    case HandlerReleasing(r) => 2 + StageRank(r)
    case HandlerReleasingRecord => 2
    case SignalDone => 1
  }

  lemma HandlerStep(s: State, j: nat, t: nat)
    requires Inv(s) && j < |s.actors| && WillSignal(s.actors[j], t)
    ensures var s' := Next(s, Advance(j, true));
            && s'.actors == s.actors[j := s'.actors[j]] && !TimesOut(s, Advance(j, true))
            && (if s.actors[j].stage.SignalDone? then
                  s'.actors[j] == Gone && t < |s'.tokens| && s'.tokens[t].done
                else
                  WillSignal(s'.actors[j], t) && Left(s'.actors[j].stage) < Left(s.actors[j].stage))
  {
    hide Balanced;
    var h := s.actors[j];
    assert Shape(s, h);
    assert Next(s, Advance(j, true)) == AdvanceHandler(s, j, h.token, h.ordinal, h.waits, h.stage);
  }

  // The handler runs to its end; no other actor moves.
  lemma FinishHandler(s: State, j: nat, t: nat) returns (more: seq<Action>)
    requires Inv(s) && j < |s.actors| && WillSignal(s.actors[j], t)
    ensures Patient(s, more) && Inv(After(s, more)) && After(s, more).actors == s.actors[j := Gone]
    ensures t < |After(s, more).tokens| && After(s, more).tokens[t].done
    decreases Left(s.actors[j].stage)
  {
    hide Next, Inv, TimesOut, After, Patient, Left;
    var a := Advance(j, true);
    HandlerStep(s, j, t);
    NextInv(s, a);
    var rest := [];
    if s.actors[j].stage.SignalDone? {
      NothingMore(Next(s, a));
    } else {
      rest := FinishHandler(Next(s, a), j, t);
    }
    StepFirst(s, a, rest);
    more := [a] + rest;
  }

  lemma NothingMore(s: State)
    ensures Patient(s, []) && After(s, []) == s
  {
  }

  // The wait of lease i has returned: the lease is spent and ready, and the command buffer's token
  // and record have been released.
  predicate WaitReturned(s: State, i: nat, f: LeaseFields, t: nat) {
    && i < |s.actors| && s.actors[i] == Lease(f, Ready)
    && t < |s.tokens| && s.tokens[t] == Token(true, true, true)
  }

  lemma LastStep(s: State, i: nat, f: LeaseFields, t: nat)
    requires Inv(s) && i < |s.actors| && s.actors[i] == Lease(f, Awaiting(t)) && t < |s.tokens| && s.tokens[t].done
    ensures !TimesOut(s, Advance(i, true)) && WaitReturned(Next(s, Advance(i, true)), i, f, t)
  {
    hide Balanced;
    assert DoneLast(s.tokens[t]);
    assert Next(s, Advance(i, true)) == AdvanceLease(s, i, f, Awaiting(t), true);
  }

  /** From every reachable state in which a commitAndWait is waiting, it can return without any
      timeout, and then token and retained objects of the command buffer have been released. */
  lemma WaitCanReturn(bound: nat, actions: seq<Action>, i: nat, t: nat) returns (more: seq<Action>)
    requires var s := Run(bound, actions); i < |s.actors| && WaitsFor(s.actors[i], t)
    ensures Patient(Run(bound, actions), more)
    ensures WaitReturned(Run(bound, actions + more), i, Run(bound, actions).actors[i].f, t)
  {
    hide Run, Next, Inv, TimesOut, After, Patient;
    var s := Run(bound, actions);
    Conservation(bound, actions);
    NoWaitIsForgotten(bound, actions);
    assert Promised(s, t);
    more := [];
    NothingMore(s);
    if !(t < |s.tokens| && s.tokens[t].done) {
      var j: nat :| j < |s.actors| && WillSignal(s.actors[j], t);
      more := FinishHandler(s, j, t);
    }
    var last := Advance(i, true);
    LastStep(After(s, more), i, s.actors[i].f, t);
    NothingMore(Next(After(s, more), last));
    StepFirst(After(s, more), last, []);
    assert [last] + [] == [last];
    AfterBoth(s, more, [last]);
    more := more + [last];
    RunAfter(bound, actions, more);
  }
}
