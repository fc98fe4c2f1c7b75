/**
 What each call of src/context/MetalCommandSubmission.h does when no other thread steps in between:
 the single steps of the protocol, put together, give the effect the call has as a whole.  These
 are the effects of the class methods in CommandBufferLease on the shared counters and flags.
 */
module CallsAlone {
  import opened SubmissionProtocol
  import opened DrainProgress

  // Nothing but steps of actor i.
  predicate OnlySteps(more: seq<Action>, i: nat) {
    forall k :: 0 <= k < |more| ==> more[k].Advance? && more[k].i == i
  }

  // Actor i can get from s to s' by its own steps.
  ghost predicate Gets(s: State, i: nat, s': State) {
    exists more :: OnlySteps(more, i) && After(s, more) == s'
  }

  lemma Here(s: State, i: nat)
    ensures Gets(s, i, s)
  {
    assert OnlySteps([], i) && After(s, []) == s;
  }

  // One more step in front.
  lemma FirstStep(s: State, i: nat, ok: bool, s': State)
    requires Gets(Next(s, Advance(i, ok)), i, s')
    ensures Gets(s, i, s')
  {
    hide Next;
    var a := Advance(i, ok);
    var rest :| OnlySteps(rest, i) && After(Next(s, a), rest) == s';
    assert ([a] + rest)[1..] == rest;
    assert OnlySteps([a] + rest, i) && After(s, [a] + rest) == s';
  }

  // ----- makeCommandBuffer -----

  // The state in which only the actors differ.
  function WithLease(s: State, f: LeaseFields): State { s.(actors := s.actors + [Lease(f, Ready)]) }

  // A make call that has got as far as pc.
  function Making(s: State, pc: MakePc): State { s.(actors := s.actors + [Make(pc)]) }

  lemma PutLast(s: State, pc: MakePc, a: Actor)
    ensures Making(s, pc).actors[|s.actors| := a] == s.actors + [a]
  {
  }

  /** A make call returns an empty lease and leaves everything else as it was if its wait times out,
      or if the command buffer it gets is nil; with a permit and a buffer it returns a live lease of
      a fresh token, which costs one permit and counts as in flight.  A lease made without a call is
      empty too. */
  lemma MakeAlone(s: State)
    ensures Next(s, DefaultLease) == WithLease(s, EMPTY_LEASE)
    ensures var i := |s.actors|; var s0 := Next(s, StartMake);
            && Gets(s0, i, WithLease(s, EMPTY_LEASE))
            && (s.semaphore > 0 ==>
                  Gets(s0, i, WithLease(s.(semaphore := s.semaphore - 1, inFlight := s.inFlight + 1,
                                           tokens := s.tokens + [Token(false, false, false)]),
                                        LeaseFields(To(|s.tokens|), true, true, false, false))))
  {
    hide Gets;
    var i := |s.actors|;
    TimesOutEmpty(s);
    if s.semaphore > 0 { MakeSucceeds(s); }
  }

  lemma TimesOutEmpty(s: State)
    ensures Gets(Next(s, StartMake), |s.actors|, WithLease(s, EMPTY_LEASE))
  {
    hide Gets;
    PutLast(s, Waiting, Lease(EMPTY_LEASE, Ready));
    Here(WithLease(s, EMPTY_LEASE), |s.actors|);
    FirstStep(Making(s, Waiting), |s.actors|, false, WithLease(s, EMPTY_LEASE));
  }

  // From the wait to the allocation: the permit is taken and the token counted.
  lemma ReachAllocation(s: State, s': State)
    requires s.semaphore > 0
    requires Gets(Making(s.(semaphore := s.semaphore - 1, inFlight := s.inFlight + 1), Allocating), |s.actors|, s')
    ensures Gets(Next(s, StartMake), |s.actors|, s')
  {
    hide Gets;
    var i := |s.actors|;
    var taken := s.(semaphore := s.semaphore - 1);
    var counted := taken.(inFlight := s.inFlight + 1);
    PutLast(s, Waiting, Make(Acquired));
    PutLast(s, Acquired, Make(Counted(s.inFlight + 1)));
    PutLast(s, Counted(s.inFlight + 1), Make(Allocating));
    FirstStep(Making(counted, Counted(s.inFlight + 1)), i, true, s');
    FirstStep(Making(taken, Acquired), i, true, s');
    FirstStep(Making(s, Waiting), i, true, s');
  }

  lemma MakeSucceeds(s: State)
    requires s.semaphore > 0
    ensures var f := LeaseFields(To(|s.tokens|), true, true, false, false);
            Gets(Next(s, StartMake), |s.actors|,
                 WithLease(s.(semaphore := s.semaphore - 1, inFlight := s.inFlight + 1,
                              tokens := s.tokens + [Token(false, false, false)]), f))
  {
    hide Gets;
    var i := |s.actors|;
    var f := LeaseFields(To(|s.tokens|), true, true, false, false);
    var counted := s.(semaphore := s.semaphore - 1, inFlight := s.inFlight + 1);
    var s' := WithLease(counted.(tokens := s.tokens + [Token(false, false, false)]), f);
    PutLast(s, Allocating, Lease(f, Ready));
    Here(s', i);
    FirstStep(Making(counted, Allocating), i, true, s');
    ReachAllocation(s, s');
  }

  /** A nil command buffer: permit and count are given back, and the lease is empty. */
  lemma NilBufferAlone(s: State)
    requires s.semaphore > 0
    ensures Next(Making(s, Allocating), Advance(|s.actors|, false)) == Making(s, UndoCount)
    ensures var counted := s.(semaphore := s.semaphore - 1, inFlight := s.inFlight + 1);
            Gets(Making(counted, UndoCount), |s.actors|, WithLease(s, EMPTY_LEASE))
  {
    hide Gets;
    var i := |s.actors|;
    PutLast(s, Allocating, Make(UndoCount));
    PutLast(s, UndoCount, Make(UndoSignal));
    PutLast(s, UndoSignal, Lease(EMPTY_LEASE, Ready));
    var undone := s.(semaphore := s.semaphore - 1);
    Here(WithLease(s, EMPTY_LEASE), i);
    FirstStep(Making(undone, UndoSignal), i, true, WithLease(s, EMPTY_LEASE));
    FirstStep(Making(undone.(inFlight := s.inFlight + 1), UndoCount), i, true, WithLease(s, EMPTY_LEASE));
  }

  // ----- abandon, destruction and move assignment -----

  // Token t and its record released.
  function Freed(s: State, t: nat): State
    requires t < |s.tokens|
  {
    s.(inFlight := s.inFlight - 1, semaphore := s.semaphore + 1,
       tokens := s.tokens[t := s.tokens[t].(released := true, recordReleased := true)])
  }

  // What abandon does to the shared state: a live lease gives back token and record.
  function Abandoned(s: State, f: LeaseFields): State {
    if f.ownsToken && f.ptr.To? && f.ptr.token < |s.tokens| then Freed(s, f.ptr.token) else s
  }

  // The lease i is at op.
  function At(s: State, i: nat, f: LeaseFields, op: LeaseOp): State
    requires i < |s.actors|
  {
    Put(s, i, Lease(f, op))
  }

  lemma PutTwice(s: State, i: nat, a: Actor, b: Actor)
    requires i < |s.actors|
    ensures Put(Put(s, i, a), i, b) == Put(s, i, b)
  {
  }

  lemma TokenTwice(ts: seq<Token>, t: nat)
    requires t < |ts|
    ensures ts[t := ts[t].(released := true)][t := ts[t].(released := true, recordReleased := true)]
            == ts[t := ts[t].(released := true, recordReleased := true)]
  {
  }

  // The releasing half of abandon, for a live lease.
  lemma ReleaseAlone(s: State, i: nat, f: LeaseFields, t: nat, next: Continuation, s': State)
    requires i < |s.actors| && LiveLease(f) && f.ptr == To(t) && t < |s.tokens| && !s.tokens[t].released
    requires Gets(At(Freed(s, t), i, f, Finishing(next)), i, s')
    ensures Gets(At(s, i, f, Releasing(t, Exchange, next)), i, s')
  {
    hide Gets, Put;
    var exchanged := s.(tokens := s.tokens[t := s.tokens[t].(released := true)]);
    var subtracted := exchanged.(inFlight := s.inFlight - 1);
    var signalled := subtracted.(semaphore := s.semaphore + 1);
    TokenTwice(s.tokens, t);
    RecordReleasing(signalled, i, f, t, next);
    FirstStep(At(signalled, i, f, ReleasingRecord(t, next)), i, true, s');
    StageStep(subtracted, i, f, t, Signal, next);
    FirstStep(At(subtracted, i, f, Releasing(t, Signal, next)), i, true, s');
    StageStep(exchanged, i, f, t, Subtract, next);
    FirstStep(At(exchanged, i, f, Releasing(t, Subtract, next)), i, true, s');
    StageStep(s, i, f, t, Exchange, next);
    FirstStep(At(s, i, f, Releasing(t, Exchange, next)), i, true, s');
  }

  lemma RecordReleasing(s: State, i: nat, f: LeaseFields, t: nat, next: Continuation)
    requires i < |s.actors| && t < |s.tokens|
    ensures Next(At(s, i, f, ReleasingRecord(t, next)), Advance(i, true))
            == At(s.(tokens := s.tokens[t := s.tokens[t].(recordReleased := true)]), i, f, Finishing(next))
  {
    PutTwice(s, i, Lease(f, ReleasingRecord(t, next)), Lease(f, Finishing(next)));
  }

  lemma StageStep(s: State, i: nat, f: LeaseFields, t: nat, stage: ReleaseStage, next: Continuation)
    requires i < |s.actors| && t < |s.tokens| && !f.retainedReleaseTransferred
    requires stage.Exchange? ==> !s.tokens[t].released
    ensures Next(At(s, i, f, Releasing(t, stage, next)), Advance(i, true))
            == (match stage
                case Exchange =>
                  At(s.(tokens := s.tokens[t := s.tokens[t].(released := true)]), i, f, Releasing(t, Subtract, next))
                case Subtract => At(s.(inFlight := s.inFlight - 1), i, f, Releasing(t, Signal, next))
                case Signal => At(s.(semaphore := s.semaphore + 1), i, f, ReleasingRecord(t, next)))
  {
    PutTwice(s, i, Lease(f, Releasing(t, stage, next)), Lease(f, Releasing(t, Subtract, next)));
  }

  // abandon as a whole, up to the reset of the fields.
  lemma ReachFinish(s: State, i: nat, next: Continuation, s': State)
    requires Inv(s) && ReadyLease(s, i)
    requires var f := s.actors[i].f; Gets(At(Abandoned(s, f), i, f, Finishing(next)), i, s')
    ensures var f := s.actors[i].f; Gets(At(s, i, f, StartAbandon(f, next)), i, s')
  {
    hide Gets, Put, Balanced;
    var f := s.actors[i].f;
    assert Shape(s, s.actors[i]);
    if LiveLease(f) {
      GaugeAtLeast(s, Claim(f.ptr.token), i);
      ReleaseAlone(s, i, f, f.ptr.token, next, s');
    }
  }

  lemma FinishStep(s: State, i: nat, f: LeaseFields, next: Continuation)
    requires i < |s.actors| && !next.TakeFrom?
    ensures Next(At(s, i, f, Finishing(next)), Advance(i, true))
            == Put(s, i, if next.Stay? then Lease(EMPTY_LEASE, Ready) else Gone)
  {
    PutTwice(s, i, Lease(f, Finishing(next)), Gone);
    PutTwice(s, i, Lease(f, Finishing(next)), Lease(EMPTY_LEASE, Ready));
  }

  /** abandon: a live lease gives back one permit, one count, its token and its record; any other
      lease gives nothing back.  The lease ends empty, or is gone when it was destroyed. */
  lemma AbandonAlone(s: State, i: nat)
    requires Inv(s) && ReadyLease(s, i)
    ensures Gets(Next(s, Abandon(i)), i, Put(Abandoned(s, s.actors[i].f), i, Lease(EMPTY_LEASE, Ready)))
    ensures Gets(Next(s, Destroy(i)), i, Put(Abandoned(s, s.actors[i].f), i, Gone))
  {
    hide Gets, Put, Inv;
    var f := s.actors[i].f;
    var freed := Abandoned(s, f);
    FinishStep(freed, i, f, Stay);
    Here(Put(freed, i, Lease(EMPTY_LEASE, Ready)), i);
    FirstStep(At(freed, i, f, Finishing(Stay)), i, true, Put(freed, i, Lease(EMPTY_LEASE, Ready)));
    ReachFinish(s, i, Stay, Put(freed, i, Lease(EMPTY_LEASE, Ready)));
    FinishStep(freed, i, f, Destroyed);
    Here(Put(freed, i, Gone), i);
    FirstStep(At(freed, i, f, Finishing(Destroyed)), i, true, Put(freed, i, Gone));
    ReachFinish(s, i, Destroyed, Put(freed, i, Gone));
  }

  lemma TakeStep(s: State, i: nat, f: LeaseFields, src: nat)
    requires i < |s.actors| && ReadyLease(s, src) && i != src
    ensures Next(At(s, i, f, Finishing(TakeFrom(src))), Advance(i, true))
            == Put(Put(s, i, Lease(s.actors[src].f, Ready)), src, Lease(EMPTY_LEASE, Ready))
  {
    PutTwice(s, i, Lease(f, Finishing(TakeFrom(src))), Lease(s.actors[src].f, Ready));
  }

  /** Move assignment: what the target held is given back as by abandon, then it has all fields of the
      source, and the source is empty. */
  lemma MoveAssignAlone(s: State, i: nat, src: nat)
    requires Inv(s) && ReadyLease(s, i) && ReadyLease(s, src) && i != src
    ensures Gets(Next(s, MoveAssign(i, src)), i,
                 Put(Put(Abandoned(s, s.actors[i].f), i, Lease(s.actors[src].f, Ready)), src,
                     Lease(EMPTY_LEASE, Ready)))
  {
    hide Gets, Inv;
    var f := s.actors[i].f;
    var freed := Abandoned(s, f);
    var s' := Put(Put(freed, i, Lease(s.actors[src].f, Ready)), src, Lease(EMPTY_LEASE, Ready));
    TakeStep(freed, i, f, src);
    Here(s', i);
    FirstStep(At(freed, i, f, Finishing(TakeFrom(src))), i, true, s');
    ReachFinish(s, i, TakeFrom(src), s');
  }

  /** Move construction: the new lease has all fields of the source, and the source is empty. */
  lemma MoveConstructAlone(s: State, src: nat)
    requires ReadyLease(s, src)
    ensures var s' := Next(s, MoveConstruct(src)); var n := |s.actors|;
            && s' == s.(actors := s'.actors) && |s'.actors| == n + 1
            && s'.actors[n] == s.actors[src] && s'.actors[src] == Lease(EMPTY_LEASE, Ready)
            && forall j :: 0 <= j < n && j != src ==> s'.actors[j] == s.actors[j]
  {
  }

  // ----- commit and completion -----

  /** Committing a live lease records one submission, starts one handler that will complete exactly
      that submission and release exactly that token, and leaves the lease spent: ready, or waiting
      for the handler.  Permits, counts in flight and tokens are as before. */
  lemma CommitAlone(s: State, i: nat, waits: bool)
    requires ReadyLease(s, i) && LiveLease(s.actors[i].f)
    ensures var t := s.actors[i].f.ptr.token; var spent := LeaseFields(To(t), false, false, true, true);
            Gets(Next(s, Commit(i, waits)), i,
                 s.(submitted := s.submitted + 1, submissions := s.submissions + [false],
                    actors := s.actors[i := Lease(spent, if waits then Awaiting(t) else Ready)]
                              + [Handler(t, |s.submissions|, waits, Pending)]))
  {
    hide Gets;
    var f, t, k := s.actors[i].f, s.actors[i].f.ptr.token, |s.submissions|;
    var spent := LeaseFields(To(t), false, false, true, true);
    var recorded := s.(submitted := s.submitted + 1, submissions := s.submissions + [false]);
    var op := if waits then Awaiting(t) else Ready;
    var s' := recorded.(actors := s.actors[i := Lease(spent, op)] + [Handler(t, k, waits, Pending)]);
    Here(s', i);
    PutTwice(recorded, i, Lease(f, Enqueuing(k, waits)), Lease(spent, op));
    FirstStep(At(recorded, i, f, Enqueuing(k, waits)), i, true, s');
    PutTwice(s, i, Lease(f, Recording(waits)), Lease(f, Enqueuing(k, waits)));
    FirstStep(At(s, i, f, Recording(waits)), i, true, s');
  }

  // Handler i of token t and submission k+1 is at stage st.
  function Running(s: State, i: nat, t: nat, k: nat, waits: bool, st: HandlerStage): State
    requires i < |s.actors|
  {
    Put(s, i, Handler(t, k, waits, st))
  }

  // What a completion handler does as a whole.
  function Completed(s: State, t: nat, k: nat, waits: bool): State
    requires t < |s.tokens| && k < |s.submissions|
  {
    s.(completed := s.completed + 1, submissions := s.submissions[k := true],
       inFlight := s.inFlight - 1, semaphore := s.semaphore + 1,
       tokens := s.tokens[t := Token(true, true, waits || s.tokens[t].done)])
  }

  lemma RunningStep(s: State, i: nat, t: nat, k: nat, waits: bool, st: HandlerStage)
    requires i < |s.actors| && t < |s.tokens| && k < |s.submissions|
    requires st == HandlerReleasing(Exchange) ==> !s.tokens[t].released
    ensures Next(Running(s, i, t, k, waits, st), Advance(i, true))
            == (match st
                case Pending =>
                  Running(s.(completed := s.completed + 1, submissions := s.submissions[k := true]), i, t, k, waits,
                          HandlerReleasing(Exchange))
                case HandlerReleasing(r) =>
                  Running(ReleaseEffect(s, t, r), i, t, k, waits,
                          if r.Exchange? then HandlerReleasing(Subtract)
                          else if r.Subtract? then HandlerReleasing(Signal)
                          else HandlerReleasingRecord)
                case HandlerReleasingRecord =>
                  var s' := s.(tokens := s.tokens[t := s.tokens[t].(recordReleased := true)]);
                  if waits then Running(s', i, t, k, waits, SignalDone) else Put(s', i, Gone)
                case SignalDone =>
                  Put(s.(tokens := s.tokens[t := s.tokens[t].(done := true)]), i, Gone))
  {
    PutTwice(s, i, Handler(t, k, waits, st), Gone);
    PutTwice(s, i, Handler(t, k, waits, st), Handler(t, k, waits, SignalDone));
  }

  lemma TokenSteps(ts: seq<Token>, t: nat)
    requires t < |ts|
    ensures var u := ts[t := ts[t].(released := true)];
            var v := u[t := u[t].(recordReleased := true)];
            && v == ts[t := Token(true, true, ts[t].done)]
            && v[t := v[t].(done := true)] == ts[t := Token(true, true, true)]
  {
  }

  /** The completion handler counts one completion, gives back one permit and one count, releases
      token and record, and, for commitAndWait, signals done; then it is gone. */
  lemma HandlerAlone(s: State, i: nat, t: nat, k: nat, waits: bool)
    requires Inv(s) && i < |s.actors| && s.actors[i] == Handler(t, k, waits, Pending)
    ensures t < |s.tokens| && k < |s.submissions|
    ensures Gets(s, i, Put(Completed(s, t, k, waits), i, Gone))
  {
    hide Gets, Put, Balanced;
    assert Shape(s, s.actors[i]);
    GaugeAtLeast(s, Claim(t), i);
    assert Running(s, i, t, k, waits, Pending) == s by { SamePut(s, i); }
    HandlerRuns(s, i, t, k, waits);
  }

  lemma SamePut(s: State, i: nat)
    requires i < |s.actors|
    ensures Put(s, i, s.actors[i]) == s
  {
  }

  lemma HandlerRuns(s: State, i: nat, t: nat, k: nat, waits: bool)
    requires i < |s.actors| && t < |s.tokens| && k < |s.submissions| && !s.tokens[t].released
    ensures Gets(Running(s, i, t, k, waits, Pending), i, Put(Completed(s, t, k, waits), i, Gone))
  {
    hide Gets, Put, Running, Next;
    var s' := Put(Completed(s, t, k, waits), i, Gone);
    var s1 := s.(completed := s.completed + 1, submissions := s.submissions[k := true]);
    var s2 := ReleaseEffect(s1, t, Exchange);
    var s3 := ReleaseEffect(s2, t, Subtract);
    var s4 := ReleaseEffect(s3, t, Signal);
    var s5 := s4.(tokens := s4.tokens[t := s4.tokens[t].(recordReleased := true)]);
    TokenSteps(s.tokens, t);
    Here(s', i);
    if waits {
      RunningStep(s5, i, t, k, waits, SignalDone);
      FirstStep(Running(s5, i, t, k, waits, SignalDone), i, true, s');
    }
    RunningStep(s4, i, t, k, waits, HandlerReleasingRecord);
    FirstStep(Running(s4, i, t, k, waits, HandlerReleasingRecord), i, true, s');
    RunningStep(s3, i, t, k, waits, HandlerReleasing(Signal));
    FirstStep(Running(s3, i, t, k, waits, HandlerReleasing(Signal)), i, true, s');
    RunningStep(s2, i, t, k, waits, HandlerReleasing(Subtract));
    FirstStep(Running(s2, i, t, k, waits, HandlerReleasing(Subtract)), i, true, s');
    RunningStep(s1, i, t, k, waits, HandlerReleasing(Exchange));
    FirstStep(Running(s1, i, t, k, waits, HandlerReleasing(Exchange)), i, true, s');
    RunningStep(s, i, t, k, waits, Pending);
    FirstStep(Running(s, i, t, k, waits, Pending), i, true, s');
  }

  /** A wait that times out returns the lease as it is. */
  lemma WaitTimesOut(s: State, i: nat)
    requires i < |s.actors| && s.actors[i].Lease? && s.actors[i].op.Awaiting?
    ensures Next(s, Advance(i, false)) == Put(s, i, Lease(s.actors[i].f, Ready))
  {
  }

  // ----- drainAllOutstanding -----

  function Draining(s: State, pc: DrainPc): State { s.(actors := s.actors + [Drain(pc)]) }

  lemma PutLastDrain(s: State, pc: DrainPc, a: Actor)
    ensures Draining(s, pc).actors[|s.actors| := a] == s.actors + [a]
  {
  }

  // The steps that give back, as a whole.
  lemma {:induction false} GivesBack(s: State, n: nat, given: nat)
    requires given <= n
    ensures Gets(Draining(s, GiveBack(n, given)), |s.actors|,
                 Draining(s.(semaphore := s.semaphore + n - given), DrainDone(n == s.bound, n, n)))
    decreases n - given
  {
    hide Gets;
    var i := |s.actors|;
    var s' := Draining(s.(semaphore := s.semaphore + n - given), DrainDone(n == s.bound, n, n));
    if given < n {
      PutLastDrain(s, GiveBack(n, given), Drain(GiveBack(n, given + 1)));
      GivesBack(s.(semaphore := s.semaphore + 1), n, given + 1);
    } else {
      PutLastDrain(s, GiveBack(n, given), Drain(DrainDone(n == s.bound, n, n)));
      Here(s', i);
    }
    FirstStep(Draining(s, GiveBack(n, given)), i, true, s');
  }

  // Taking what there is; a wait on an empty semaphore times out.
  lemma {:induction false} Takes(s: State, n: nat)
    requires 0 <= s.semaphore && s.semaphore + n <= s.bound
    ensures var all := s.semaphore + n;
            Gets(Draining(s, Acquire(n)), |s.actors|,
                 Draining(s.(semaphore := all), DrainDone(all == s.bound, all, all)))
    decreases s.semaphore
  {
    hide Gets;
    var i, all := |s.actors|, s.semaphore + n;
    var s' := Draining(s.(semaphore := all), DrainDone(all == s.bound, all, all));
    if s.semaphore > 0 {
      PutLastDrain(s, Acquire(n), Drain(Acquire(n + 1)));
      Takes(s.(semaphore := s.semaphore - 1), n + 1);
      FirstStep(Draining(s, Acquire(n)), i, true, s');
    } else {
      PutLastDrain(s, Acquire(n), Drain(GiveBack(n, 0)));
      GivesBack(s, n, 0);
      FirstStep(Draining(s, Acquire(n)), i, false, s');
    }
  }

  // What a drain returns when nobody else steps in.
  function DrainResult(s: State, recordWhenIdle: bool): DrainPc
    requires s.semaphore >= 0
  {
    if !recordWhenIdle && s.inFlight == 0 then DrainedIdle
    else DrainDone(s.semaphore == s.bound, s.semaphore, s.semaphore)
  }

  /** A drain returns true at once if it need not be recorded and nothing is in flight; otherwise it
      takes what permits there are, returns true if those are all, and gives them all back.  It
      leaves everything else as it was. */
  lemma DrainAlone(s: State, recordWhenIdle: bool)
    requires 0 <= s.semaphore <= s.bound
    ensures Gets(Next(s, StartDrain(recordWhenIdle)), |s.actors|, Draining(s, DrainResult(s, recordWhenIdle)))
  {
    hide Gets;
    var i := |s.actors|;
    var s' := Draining(s, DrainResult(s, recordWhenIdle));
    if !recordWhenIdle && s.inFlight == 0 {
      PutLastDrain(s, CheckIdle(recordWhenIdle), Drain(DrainedIdle));
      Here(s', i);
    } else {
      PutLastDrain(s, CheckIdle(recordWhenIdle), Drain(Acquire(0)));
      Takes(s, 0);
    }
    FirstStep(Draining(s, CheckIdle(recordWhenIdle)), i, true, s');
  }
}
