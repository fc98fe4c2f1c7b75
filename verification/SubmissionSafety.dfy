/**
 What the submission protocol guarantees in every run: the assertions of the source never
 fire, every token and every retained record has exactly one holder until it is released and
 is released once, and a drain that acquires every permit saw the pipeline empty and gives back
 what it took.
 */
module SubmissionSafety {
  import opened SubmissionProtocol

  // ----- the four assertions -----

  predicate StageAssertionFails(s: State, t: nat, stage: ReleaseStage) {
    match stage
    case Exchange => t < |s.tokens| && s.tokens[t].released   // "released more than once"
    case Subtract => s.inFlight <= 0                          // "in-flight count underflow"
    case Signal => false
  }

  // The next statement of actor i is an assertion of the source, or an atomic whose result
  // the source asserts about, and that assertion is false.
  predicate AssertionFails(s: State, i: nat) {
    i < |s.actors| &&
    match s.actors[i]
    case Make(pc) => (pc.Counted? && pc.after > s.bound) || (pc.UndoCount? && s.inFlight <= 0)
    case Lease(_, op) => op.Releasing? && StageAssertionFails(s, op.token, op.stage)
    case Handler(t, _, _, st) => st.HandlerReleasing? && StageAssertionFails(s, t, st.stage)
    case _ => false
  }

  /** In every interleaving no assertion of the protocol fires. */
  lemma AssertionsNeverFire(bound: nat, actions: seq<Action>, i: nat)
    ensures !AssertionFails(Run(bound, actions), i)
  {
    Conservation(bound, actions);
    var s := Run(bound, actions);
    if i < |s.actors| {
      assert Shape(s, s.actors[i]);
      GaugeAtLeast(s, Tokens, i);
      if s.actors[i].Lease? && s.actors[i].op.Releasing? { GaugeAtLeast(s, Claim(s.actors[i].op.token), i); }
      if s.actors[i].Handler? { GaugeAtLeast(s, Claim(s.actors[i].token), i); }
    }
  }

  // ----- permits and counters -----

  lemma {:induction false} TotalDominated(s: State, n: nat)
    requires n <= |s.actors| && forall j :: 0 <= j < |s.actors| ==> Shape(s, s.actors[j])
    ensures 0 <= Total(Outstanding, s.actors[..n]) <= Total(Tokens, s.actors[..n])
  {
    if n > 0 {
      assert s.actors[..n][..n - 1] == s.actors[..n - 1];
      assert Shape(s, s.actors[n - 1]);
      TotalDominated(s, n - 1);
    }
  }

  /** Permits are conserved, and the counters are ordered, in every state of every run. */
  lemma CountersBounded(bound: nat, actions: seq<Action>)
    ensures var s := Run(bound, actions);
            && s.semaphore + s.inFlight + Total(Permits, s.actors) == bound
            && s.submitted == |s.submissions| && s.completed == CountTrue(s.submissions)
            && 0 <= s.submitted - s.completed <= s.inFlight <= bound
            && 0 <= s.semaphore <= bound
  {
    Conservation(bound, actions);
    var s := Run(bound, actions);
    assert Balanced(s, Permits) && Balanced(s, Tokens) && Balanced(s, Outstanding);
    assert s.actors[..|s.actors|] == s.actors;
    TotalDominated(s, |s.actors|);
    TotalNonNegative(Permits, s, |s.actors|);
  }

  // Nothing is under way and nothing is owned: threads have returned, handlers have run,
  // and every lease is empty, committed or destroyed.
  predicate AtRest(a: Actor) {
    match a
    case Make(_) => false
    case Lease(f, op) => op.Ready? && !OwnsToken(f) && !OwnsRecord(f)
    case Handler(_, _, _, _) => false
    case Drain(pc) => pc.DrainedIdle? || pc.DrainDone?
    case Gone => true
  }

  lemma {:induction false} RestTotal(law: Law, actors: seq<Actor>)
    requires forall i :: 0 <= i < |actors| ==> AtRest(actors[i])
    ensures Total(law, actors) == 0
  {
    if actors != [] {
      var n := |actors| - 1;
      assert AtRest(actors[n]);
      RestTotal(law, actors[..n]);
    }
  }

  /** Once everything is at rest nothing has leaked: all permits are back, every token and every
      record has been released, and every submission has completed. */
  lemma NothingLeaks(bound: nat, actions: seq<Action>)
    requires var s := Run(bound, actions); forall i :: 0 <= i < |s.actors| ==> AtRest(s.actors[i])
    ensures var s := Run(bound, actions);
            && s.semaphore == bound && s.inFlight == 0 && s.submitted == s.completed
            && (forall t :: 0 <= t < |s.tokens| ==> s.tokens[t].released && s.tokens[t].recordReleased)
            && (forall k :: 0 <= k < |s.submissions| ==> s.submissions[k])
  {
    Conservation(bound, actions);
    var s := Run(bound, actions);
    forall law ensures Total(law, s.actors) == 0 && Balanced(s, law) { RestTotal(law, s.actors); }
    assert Balanced(s, Permits) && Balanced(s, Tokens) && Balanced(s, Outstanding);
    forall t | 0 <= t < |s.tokens| ensures s.tokens[t].released && s.tokens[t].recordReleased {
      assert Balanced(s, Claim(t)) && Balanced(s, Record(t));
    }
    forall k | 0 <= k < |s.submissions| ensures s.submissions[k] {
      assert Balanced(s, Ordinal(k));
    }
  }

  // ----- one holder, one release -----

  predicate Unit(law: Law) { law.Claim? || law.Record? || law.Ordinal? }

  // Actor a is the one that still has to release token t, release record t, or complete k.
  predicate Holds(law: Law, a: Actor)
    requires Unit(law)
  {
    Weight(law, a) == 1
  }

  predicate OnlyHolder(s: State, law: Law, i: nat)
    requires Unit(law)
  {
    i < |s.actors| && Holds(law, s.actors[i])
    && forall j :: 0 <= j < |s.actors| && j != i ==> !Holds(law, s.actors[j])
  }

  lemma {:induction false} HolderExists(law: Law, actors: seq<Actor>) returns (i: nat)
    requires Unit(law) && Total(law, actors) > 0
    ensures i < |actors| && Holds(law, actors[i])
  {
    var n := |actors| - 1;
    if Holds(law, actors[n]) {
      i := n;
    } else {
      i := HolderExists(law, actors[..n]);
    }
  }

  lemma {:induction false} TwoWeights(law: Law, s: State, n: nat, i: nat, j: nat)
    requires i < j < n <= |s.actors| && forall k :: 0 <= k < |s.actors| ==> Shape(s, s.actors[k])
    ensures Weight(law, s.actors[i]) + Weight(law, s.actors[j]) <= Total(law, s.actors[..n])
  {
    assert s.actors[..n][..n - 1] == s.actors[..n - 1];
    assert Shape(s, s.actors[n - 1]);
    if j == n - 1 {
      TotalAtLeast(law, s, n - 1, i);
    } else {
      TwoWeights(law, s, n - 1, i, j);
    }
  }

  lemma HoldersFromTotal(s: State, law: Law)
    requires Inv(s) && Unit(law) && Gauge(law, s) == 1
    ensures exists i: nat :: OnlyHolder(s, law, i)
  {
    assert Balanced(s, law);
    var i := HolderExists(law, s.actors);
    assert s.actors[..|s.actors|] == s.actors;
    forall j | 0 <= j < |s.actors| && j != i ensures !Holds(law, s.actors[j]) {
      if Holds(law, s.actors[j]) {
        TwoWeights(law, s, |s.actors|, if i < j then i else j, if i < j then j else i);
      }
    }
    assert OnlyHolder(s, law, i);
  }

  /** An acquired token is held by exactly one actor (a lease that owns it, a handler or a
      release in progress) until it is released, and by none afterwards; the same holds of its
      retained record and of an incomplete submission. */
  lemma ExclusiveOwnership(bound: nat, actions: seq<Action>, law: Law)
    requires Unit(law)
    ensures var s := Run(bound, actions);
            && (Gauge(law, s) == 1 ==> exists i: nat :: OnlyHolder(s, law, i))
            && (Gauge(law, s) != 1 ==> forall i :: 0 <= i < |s.actors| ==> !Holds(law, s.actors[i]))
  {
    Conservation(bound, actions);
    var s := Run(bound, actions);
    if Gauge(law, s) == 1 {
      HoldersFromTotal(s, law);
    } else {
      forall i | 0 <= i < |s.actors| ensures !Holds(law, s.actors[i]) { GaugeAtLeast(s, law, i); }
    }
  }

  // The number of steps of the run that execute released->exchange(true) on token t.
  function Exchanges(bound: nat, actions: seq<Action>, t: nat): nat {
    if actions == [] then 0
    else
      var n := |actions| - 1;
      var s := Run(bound, actions[..n]);
      Exchanges(bound, actions[..n], t) + (if ExchangesNow(s, actions[n], t) then 1 else 0)
  }

  predicate ExchangesNow(s: State, a: Action, t: nat) {
    a.Advance? && a.i < |s.actors| && t < |s.tokens| &&
    match s.actors[a.i]
    case Lease(_, op) => op.Releasing? && op.token == t && op.stage.Exchange?
    case Handler(u, k, _, st) => u == t && k < |s.submissions| && st.HandlerReleasing? && st.stage.Exchange?
    case _ => false
  }

  lemma ReleasedOnlyByExchange(s: State, a: Action, t: nat)
    requires Inv(s)
    ensures var s' := Next(s, a);
            (t < |s'.tokens| && s'.tokens[t].released)
            <==> (t < |s.tokens| && s.tokens[t].released) || ExchangesNow(s, a, t)
  {
    if a.Advance? && a.i < |s.actors| { assert Shape(s, s.actors[a.i]); }
  }

  /** Over a whole run the exchange of token t is executed once if t has been released, and never
      otherwise. */
  lemma {:induction false} ReleasedExactlyOnce(bound: nat, actions: seq<Action>, t: nat)
    ensures var s := Run(bound, actions);
            Exchanges(bound, actions, t) == if t < |s.tokens| && s.tokens[t].released then 1 else 0
  {
    if actions != [] {
      var n := |actions| - 1;
      ReleasedExactlyOnce(bound, actions[..n], t);
      Conservation(bound, actions[..n]);
      var s := Run(bound, actions[..n]);
      ReleasedOnlyByExchange(s, actions[n], t);
      if ExchangesNow(s, actions[n], t) { AssertionsNeverFire(bound, actions[..n], actions[n].i); }
    }
  }

  /** A commit or an abandon of a lease that has already been committed, abandoned or moved from
      changes no token, no counter and no permit, through to the end of the call. */
  lemma SecondCallIsNoOp(bound: nat, actions: seq<Action>, i: nat, waits: bool, ok: bool)
    requires ReadyLease(Run(bound, actions), i) && !Run(bound, actions).actors[i].f.ownsToken
    ensures var s := Run(bound, actions);
            && Next(s, Commit(i, waits)) == s
            && Next(Next(s, Abandon(i)), Advance(i, ok)) == s.(actors := s.actors[i := Lease(EMPTY_LEASE, Ready)])
  {
    Conservation(bound, actions);
    var s := Run(bound, actions);
    assert Shape(s, s.actors[i]);
  }

  /** When commitAndWait sees its done semaphore signalled, the token and the retained objects of
      that command buffer have been released. */
  lemma CommitAndWaitIsLast(bound: nat, actions: seq<Action>, i: nat)
    requires var s := Run(bound, actions); i < |s.actors| && s.actors[i].Lease? && s.actors[i].op.Awaiting?
    requires var s := Run(bound, actions); Next(s, Advance(i, true)) != s
    ensures var s := Run(bound, actions); var t := s.actors[i].op.token;
            t < |s.tokens| && s.tokens[t].released && s.tokens[t].recordReleased
  {
    Conservation(bound, actions);
    var s := Run(bound, actions);
    assert Shape(s, s.actors[i]);
    assert DoneLast(s.tokens[s.actors[i].op.token]);
  }

  // ----- draining -----

  // The instant a drain waits for: no permit is in use anywhere else.
  predicate Empty(s: State) {
    s.inFlight == 0 && s.semaphore == 0 && forall t :: 0 <= t < |s.tokens| ==> s.tokens[t].released
  }

  lemma NoTokensInFlight(s: State)
    requires Inv(s) && s.inFlight == 0
    ensures forall t :: 0 <= t < |s.tokens| ==> s.tokens[t].released
  {
    forall t | 0 <= t < |s.tokens| ensures s.tokens[t].released {
      if !s.tokens[t].released {
        HoldersFromTotal(s, Claim(t));
        var i: nat :| OnlyHolder(s, Claim(t), i);
        assert Shape(s, s.actors[i]);
        GaugeAtLeast(s, Tokens, i);
      }
    }
  }

  // Actor i has every permit, or has had every permit.
  predicate HadAllPermits(s: State, i: nat) {
    i < |s.actors| && s.actors[i].Drain? &&
    match s.actors[i].drain
    case Acquire(n) => n == s.bound
    case GiveBack(n, _) => n == s.bound
    case DrainDone(drained, _, _) => drained
    case _ => false
  }

  predicate IsDrain(s: State, i: nat) { i < |s.actors| && s.actors[i].Drain? }

  predicate OwnStep(a: Action, i: nat) { a.Advance? && a.i == i }

  // A drain only changes by its own steps, and starts at its first statement.
  lemma DrainUntouched(s: State, a: Action, i: nat)
    requires !OwnStep(a, i)
    ensures IsDrain(s, i) ==> i < |Next(s, a).actors| && Next(s, a).actors[i] == s.actors[i]
    ensures IsDrain(Next(s, a), i) && !IsDrain(s, i) ==> Next(s, a).actors[i].drain.CheckIdle?
  {
    if a.Advance? && a.i < |s.actors| {
      match s.actors[a.i]
      case Make(pc) => assert Next(s, a) == AdvanceMake(s, a.i, pc, a.ok);
      case Lease(f, op) =>
        LeaseUntouched(s, a.i, f, op, a.ok, i);
      case Handler(t, k, waits, stage) => assert Next(s, a) == AdvanceHandler(s, a.i, t, k, waits, stage);
      case Drain(pc) => assert Next(s, a) == AdvanceDrain(s, a.i, pc, a.ok);
      case Gone =>
    }
  }

  lemma LeaseUntouched(s: State, j: nat, f: LeaseFields, op: LeaseOp, ok: bool, i: nat)
    requires j < |s.actors| && s.actors[j] == Lease(f, op) && j != i
    ensures var s' := AdvanceLease(s, j, f, op, ok);
            && (IsDrain(s, i) ==> i < |s'.actors| && s'.actors[i] == s.actors[i])
            && (IsDrain(s', i) ==> IsDrain(s, i))
  {
  }

  // The step that takes the last permit.
  lemma DrainStep(s: State, a: Action, i: nat)
    requires Inv(s) && HadAllPermits(Next(s, a), i) && !HadAllPermits(s, i)
    ensures Next(s, a).actors[i] == Drain(Acquire(s.bound))
  {
    if !OwnStep(a, i) {
      DrainUntouched(s, a, i);
    } else if i < |s.actors| {
      assert Shape(s, s.actors[i]);
      if s.actors[i].Drain? {
        assert Next(s, a) == AdvanceDrain(s, i, s.actors[i].drain, a.ok);
      } else {
        OthersNeverBecomeDrains(s, i, a.ok);
      }
    }
  }

  lemma OthersNeverBecomeDrains(s: State, i: nat, ok: bool)
    requires i < |s.actors| && !s.actors[i].Drain?
    ensures !IsDrain(Next(s, Advance(i, ok)), i)
  {
    match s.actors[i]
    case Make(pc) => assert Next(s, Advance(i, ok)) == AdvanceMake(s, i, pc, ok);
    case Lease(f, op) => assert Next(s, Advance(i, ok)) == AdvanceLease(s, i, f, op, ok);
    case Handler(t, k, waits, stage) => assert Next(s, Advance(i, ok)) == AdvanceHandler(s, i, t, k, waits, stage);
    case Gone =>
  }

  lemma {:induction false} DrainWitness(bound: nat, actions: seq<Action>, i: nat) returns (c: nat)
    requires HadAllPermits(Run(bound, actions), i)
    ensures c <= |actions| && i < |Run(bound, actions[..c]).actors|
    ensures Run(bound, actions[..c]).actors[i] == Drain(Acquire(bound))
  {
    var n := |actions| - 1;
    Conservation(bound, actions[..n]);
    if HadAllPermits(Run(bound, actions[..n]), i) {
      c := DrainWitness(bound, actions[..n], i);
      assert actions[..n][..c] == actions[..c];
    } else {
      DrainStep(Run(bound, actions[..n]), actions[n], i);
      c := n + 1;
      assert actions[..c] == actions;
    }
  }

  lemma {:induction false} ActorsOnlyGrow(bound: nat, actions: seq<Action>, c: nat)
    requires c <= |actions|
    ensures |Run(bound, actions[..c]).actors| <= |Run(bound, actions).actors|
    ensures |Run(bound, actions[..c]).tokens| <= |Run(bound, actions).tokens|
  {
    if c == |actions| {
      assert actions[..c] == actions;
    } else {
      var n := |actions| - 1;
      ActorsOnlyGrow(bound, actions[..n], c);
      assert actions[..n][..c] == actions[..c];
      Conservation(bound, actions[..n]);
      if !actions[n].Advance? { ClientShaped(Run(bound, actions[..n]), actions[n]); }
      else if actions[n].i < |Run(bound, actions[..n]).actors| {
        AdvanceShaped(Run(bound, actions[..n]), actions[n].i, actions[n].ok);
      }
    }
  }

  // Actor i returned true without acquiring.
  predicate EndedIdle(s: State, i: nat) { IsDrain(s, i) && s.actors[i].drain.DrainedIdle? }

  // Actor i has returned true from drainAllOutstanding.
  predicate ReturnedTrue(s: State, i: nat) {
    EndedIdle(s, i) || (IsDrain(s, i) && s.actors[i].drain.DrainDone? && s.actors[i].drain.drained)
  }

  predicate NothingInFlight(s: State) {
    s.inFlight == 0 && forall t :: 0 <= t < |s.tokens| ==> s.tokens[t].released
  }

  // The step that returns early is taken with nothing in flight, and touches no permit.
  lemma IdleStep(s: State, a: Action, i: nat)
    requires Inv(s) && EndedIdle(Next(s, a), i) && !EndedIdle(s, i)
    ensures i < |s.actors| && s.actors[i] == Drain(CheckIdle(false)) && NothingInFlight(s)
    ensures Next(s, a).semaphore == s.semaphore
  {
    if !OwnStep(a, i) {
      DrainUntouched(s, a, i);
    } else if i < |s.actors| {
      if s.actors[i].Drain? {
        assert Next(s, a) == AdvanceDrain(s, i, s.actors[i].drain, a.ok);
        NoTokensInFlight(s);
      } else {
        OthersNeverBecomeDrains(s, i, a.ok);
      }
    }
  }

  lemma {:induction false} IdleWitness(bound: nat, actions: seq<Action>, i: nat) returns (c: nat)
    requires EndedIdle(Run(bound, actions), i)
    ensures c <= |actions| && IsDrain(Run(bound, actions[..c]), i) && NothingInFlight(Run(bound, actions[..c]))
  {
    var n := |actions| - 1;
    Conservation(bound, actions[..n]);
    if EndedIdle(Run(bound, actions[..n]), i) {
      c := IdleWitness(bound, actions[..n], i);
      assert actions[..n][..c] == actions[..c];
    } else {
      IdleStep(Run(bound, actions[..n]), actions[n], i);
      c := n;
    }
  }

  /** A drain that started after step `before` and returned true, early or from its loop, saw at some
      instant c inside the call nothing in flight and every token acquired before the call
      released; from its loop, with every permit in its hands.  Other drains and allocations may run
      concurrently. */
  lemma DrainSawPipelineEmpty(bound: nat, actions: seq<Action>, before: nat, i: nat) returns (c: nat)
    requires before <= |actions| && |Run(bound, actions[..before]).actors| <= i
    requires ReturnedTrue(Run(bound, actions), i)
    ensures before < c <= |actions|
    ensures NothingInFlight(Run(bound, actions[..c]))
    ensures !EndedIdle(Run(bound, actions), i) ==> Empty(Run(bound, actions[..c]))
    ensures |Run(bound, actions[..before]).tokens| <= |Run(bound, actions[..c]).tokens|
  {
    if EndedIdle(Run(bound, actions), i) {
      c := IdleWitness(bound, actions, i);
    } else {
      c := DrainWitness(bound, actions, i);
      AllPermitsAtOnce(bound, actions[..c], i);
    }
    if c <= before {
      assert actions[..before][..c] == actions[..c];
      ActorsOnlyGrow(bound, actions[..before], c);
      assert false;
    }
    ActorsOnlyGrow(bound, actions[..c], before);
    assert actions[..c][..before] == actions[..before];
  }

  lemma AllPermitsAtOnce(bound: nat, actions: seq<Action>, i: nat)
    requires i < |Run(bound, actions).actors| && Run(bound, actions).actors[i] == Drain(Acquire(bound))
    ensures Empty(Run(bound, actions)) && NothingInFlight(Run(bound, actions))
  {
    Conservation(bound, actions);
    var s := Run(bound, actions);
    GaugeAtLeast(s, Permits, i);
    GaugeAtLeast(s, Tokens, i);
    NoTokensInFlight(s);
  }

  // Actor i is a drain that has not returned early, and will not.
  predicate WillAcquire(s: State, i: nat) {
    IsDrain(s, i) && s.actors[i].drain != CheckIdle(false) && !s.actors[i].drain.DrainedIdle?
  }

  lemma WillAcquireStep(s: State, a: Action, i: nat)
    requires WillAcquire(s, i)
    ensures WillAcquire(Next(s, a), i)
  {
    if OwnStep(a, i) {
      assert Next(s, a) == AdvanceDrain(s, i, s.actors[i].drain, a.ok);
    } else {
      DrainUntouched(s, a, i);
    }
  }

  /** A drain that is to be recorded even when idle never returns early, so when it returns true it
      has had every permit. */
  lemma {:induction false} RecordedDrainAcquires(bound: nat, actions: seq<Action>, more: seq<Action>, i: nat)
    requires i < |Run(bound, actions).actors| && Run(bound, actions).actors[i] == Drain(CheckIdle(true))
    ensures WillAcquire(Run(bound, actions + more), i) && !EndedIdle(Run(bound, actions + more), i)
  {
    if more == [] {
      assert actions + more == actions;
    } else {
      hide Next, WillAcquire;
      var n := |more| - 1;
      assert (actions + more)[..|actions| + n] == actions + more[..n];
      RecordedDrainAcquires(bound, actions, more[..n], i);
      WillAcquireStep(Run(bound, actions + more[..n]), more[n], i);
      NotIdle(Run(bound, actions + more), i);
    }
  }

  lemma NotIdle(s: State, i: nat)
    requires WillAcquire(s, i)
    ensures !EndedIdle(s, i)
  {
  }

  // How many permits the steps of actor i as a drain took from, and gave to, the semaphore.
  function Taken(bound: nat, actions: seq<Action>, i: nat): nat {
    if actions == [] then 0
    else
      var n := |actions| - 1;
      var s := Run(bound, actions[..n]);
      Taken(bound, actions[..n], i)
      + (if IsDrain(s, i) && OwnStep(actions[n], i) && Next(s, actions[n]).semaphore < s.semaphore then 1 else 0)
  }

  function Given(bound: nat, actions: seq<Action>, i: nat): nat {
    if actions == [] then 0
    else
      var n := |actions| - 1;
      var s := Run(bound, actions[..n]);
      Given(bound, actions[..n], i)
      + (if IsDrain(s, i) && OwnStep(actions[n], i) && Next(s, actions[n]).semaphore > s.semaphore then 1 else 0)
  }

  function AcquiredSoFar(s: State, i: nat): nat {
    if !IsDrain(s, i) then 0
    else
      match s.actors[i].drain
      case Acquire(n) => n
      case GiveBack(n, _) => n
      case DrainDone(_, n, _) => n
      case _ => 0
  }

  function GivenSoFar(s: State, i: nat): nat {
    if !IsDrain(s, i) then 0
    else
      match s.actors[i].drain
      case GiveBack(_, g) => g
      case DrainDone(_, _, g) => g
      case _ => 0
  }

  lemma DrainAccountStep(s: State, a: Action, i: nat)
    requires Inv(s)
    ensures var s' := Next(s, a);
            var own := IsDrain(s, i) && OwnStep(a, i);
            && AcquiredSoFar(s', i) == AcquiredSoFar(s, i) + (if own && s'.semaphore < s.semaphore then 1 else 0)
            && GivenSoFar(s', i) == GivenSoFar(s, i) + (if own && s'.semaphore > s.semaphore then 1 else 0)
  {
    if !OwnStep(a, i) {
      DrainUntouched(s, a, i);
    } else if i < |s.actors| {
      assert Shape(s, s.actors[i]);
      if s.actors[i].Drain? {
        assert Next(s, a) == AdvanceDrain(s, i, s.actors[i].drain, a.ok);
      } else {
        OthersNeverBecomeDrains(s, i, a.ok);
      }
    }
  }

  lemma {:induction false} DrainAccounts(bound: nat, actions: seq<Action>, i: nat)
    ensures Taken(bound, actions, i) == AcquiredSoFar(Run(bound, actions), i)
    ensures Given(bound, actions, i) == GivenSoFar(Run(bound, actions), i)
  {
    if actions != [] {
      var n := |actions| - 1;
      DrainAccounts(bound, actions[..n], i);
      Conservation(bound, actions[..n]);
      DrainAccountStep(Run(bound, actions[..n]), actions[n], i);
    }
  }

  /** Success or timeout, a drain gives back exactly the permits it took, and it reports success
      exactly when it took all of them. */
  lemma DrainReturnsWhatItTook(bound: nat, actions: seq<Action>, i: nat)
    requires var s := Run(bound, actions); i < |s.actors| && s.actors[i].Drain? && s.actors[i].drain.DrainDone?
    ensures var pc := Run(bound, actions).actors[i].drain;
            && pc.given == pc.acquired && (pc.drained <==> pc.acquired == bound)
            && Taken(bound, actions, i) == pc.acquired && Given(bound, actions, i) == pc.given
  {
    Conservation(bound, actions);
    assert Shape(Run(bound, actions), Run(bound, actions).actors[i]);
    DrainAccounts(bound, actions, i);
  }
}
