/**
 submittedCount and completedCount as a busy test: "completedCount >= k" is meant to say that
 submission k has completed.  On a first-in first-out queue it does exactly as long as no commit is
 enqueued while one recorded earlier is still between recordSubmitted and [commandBuffer_ commit].
 */
module CompletionOrder {
  import opened SubmissionProtocol
  import opened SubmissionSafety

  // No submission has completed before an earlier one.
  predicate InOrder(bits: seq<bool>) {
    forall j, k :: 0 <= j < k < |bits| && bits[k] ==> bits[j]
  }

  // The number of completions answers the question "has submission k completed?" for every k.
  predicate WatermarkExact(bits: seq<bool>) {
    forall k :: 0 <= k < |bits| ==> (CountTrue(bits) >= k + 1 <==> bits[k])
  }

  lemma {:induction false} CountBounds(bits: seq<bool>)
    ensures CountTrue(bits) <= |bits|
    ensures (forall k :: 0 <= k < |bits| ==> bits[k]) ==> CountTrue(bits) == |bits|
  {
    if bits != [] { CountBounds(bits[..|bits| - 1]); }
  }

  /** The watermark is exact if and only if completions arrived in submission order. */
  lemma {:induction false} WatermarkIffInOrder(bits: seq<bool>)
    ensures WatermarkExact(bits) <==> InOrder(bits)
  {
    if InOrder(bits) && bits != [] {
      var n := |bits| - 1;
      CountBounds(bits);
      CountBounds(bits[..n]);
      WatermarkIffInOrder(bits[..n]);
      if !bits[n] {
        forall k | 0 <= k < |bits| ensures CountTrue(bits) >= k + 1 <==> bits[k] {
          assert k < n ==> bits[k] == bits[..n][k];
        }
      }
    }
  }

  /** On the counters themselves, in every run. */
  lemma BusyTestIffInOrder(bound: nat, actions: seq<Action>)
    ensures var s := Run(bound, actions);
            (forall k :: 0 <= k < s.submitted ==> k < |s.submissions| && (s.completed >= k + 1 <==> s.submissions[k]))
            <==> InOrder(s.submissions)
  {
    CountersBounded(bound, actions);
    WatermarkIffInOrder(Run(bound, actions).submissions);
  }

  // ----- a serial queue -----

  predicate Committing(a: Actor) { a.Lease? && a.op.Enqueuing? }
  predicate Queued(a: Actor) { a.Handler? && a.stage.Pending? }

  // The enqueue step of commit i overtakes: one with a smaller ordinal is not enqueued yet.
  predicate Overtakes(s: State, a: Action) {
    && a.Advance? && a.i < |s.actors| && Committing(s.actors[a.i])
    && exists j :: 0 <= j < |s.actors| && Committing(s.actors[j]) && s.actors[j].op.ordinal < s.actors[a.i].op.ordinal
  }

  predicate NoOvertaking(bound: nat, actions: seq<Action>) {
    actions != [] ==>
      var n := |actions| - 1;
      NoOvertaking(bound, actions[..n]) && !Overtakes(Run(bound, actions[..n]), actions[n])
  }

  // Handlers are appended when their buffer is enqueued: a first-in first-out queue completes the
  // oldest first.
  predicate CompletesOldest(s: State, a: Action) {
    a.Advance? && a.i < |s.actors| && Queued(s.actors[a.i]) ==>
      forall j :: 0 <= j < a.i ==> !Queued(s.actors[j])
  }

  predicate FifoRun(bound: nat, actions: seq<Action>) {
    actions != [] ==>
      var n := |actions| - 1;
      FifoRun(bound, actions[..n]) && CompletesOldest(Run(bound, actions[..n]), actions[n])
  }

  predicate QueueSorted(s: State) {
    && (forall i, j :: 0 <= i < j < |s.actors| && Queued(s.actors[i]) && Queued(s.actors[j]) ==>
          s.actors[i].ordinal < s.actors[j].ordinal)
    && (forall i, j :: 0 <= i < |s.actors| && 0 <= j < |s.actors| && Queued(s.actors[i]) && Committing(s.actors[j]) ==>
          s.actors[i].ordinal < s.actors[j].op.ordinal)
  }

  // The actors of s' that are queued or committing were so in s, unless i or the last is new.
  predicate QueueFrame(s: State, s': State, i: nat) {
    |s.actors| <= |s'.actors|
    && forall j :: 0 <= j < |s'.actors| && j != i && (Queued(s'.actors[j]) || Committing(s'.actors[j])) ==>
         j < |s.actors| && s'.actors[j] == s.actors[j]
  }

  lemma SortedRecording(s: State, i: nat, ok: bool)
    requires Inv(s) && QueueSorted(s) && i < |s.actors| && s.actors[i].Lease? && s.actors[i].op.Recording?
    ensures QueueSorted(Next(s, Advance(i, ok)))
  {
    var s' := AdvanceLease(s, i, s.actors[i].f, s.actors[i].op, ok);
    forall j, k | 0 <= j < |s'.actors| && 0 <= k < |s'.actors| && Queued(s'.actors[j]) && Committing(s'.actors[k])
      ensures s'.actors[j].ordinal < s'.actors[k].op.ordinal
    {
      assert Shape(s, s.actors[j]);
    }
  }

  // Two commits never have the same ordinal.
  lemma DistinctOrdinals(s: State, i: nat, j: nat)
    requires Inv(s) && i < |s.actors| && j < |s.actors| && i != j && Committing(s.actors[i]) && Committing(s.actors[j])
    ensures s.actors[i].op.ordinal != s.actors[j].op.ordinal
  {
    var law := Ordinal(s.actors[i].op.ordinal);
    assert Balanced(s, law);
    if Holds(law, s.actors[j]) {
      assert s.actors[..|s.actors|] == s.actors;
      TwoWeights(law, s, |s.actors|, if i < j then i else j, if i < j then j else i);
    }
  }

  lemma SortedEnqueuing(s: State, i: nat, ok: bool)
    requires Inv(s) && QueueSorted(s) && i < |s.actors| && Committing(s.actors[i]) && !Overtakes(s, Advance(i, ok))
    ensures QueueSorted(Next(s, Advance(i, ok)))
  {
    assert Shape(s, s.actors[i]);
    var s' := AdvanceLease(s, i, s.actors[i].f, s.actors[i].op, ok);
    var k := s.actors[i].op.ordinal;
    assert |s'.actors| == |s.actors| + 1 && Queued(s'.actors[|s.actors|]) && s'.actors[|s.actors|].ordinal == k;
    forall j | 0 <= j < |s'.actors| && Committing(s'.actors[j])
      ensures j < |s.actors| && s'.actors[j] == s.actors[j] && k < s.actors[j].op.ordinal
    {
      DistinctOrdinals(s, i, j);
    }
  }

  // Any other step only removes queued handlers and committing leases.
  lemma SortedOtherwise(s: State, s': State, i: nat)
    requires QueueSorted(s) && QueueFrame(s, s', i)
    requires i < |s'.actors| ==> !Queued(s'.actors[i]) && !Committing(s'.actors[i])
    ensures QueueSorted(s')
  {
  }

  lemma OtherAdvanceFrame(s: State, i: nat, ok: bool) returns (j: nat)
    requires Inv(s) && i < |s.actors|
    requires !(s.actors[i].Lease? && (s.actors[i].op.Recording? || s.actors[i].op.Enqueuing?))
    ensures var s' := Next(s, Advance(i, ok));
            QueueFrame(s, s', j) && (j < |s'.actors| ==> !Queued(s'.actors[j]) && !Committing(s'.actors[j]))
  {
    j := i;
    assert Shape(s, s.actors[i]);
    match s.actors[i]
    case Make(pc) => assert Next(s, Advance(i, ok)) == AdvanceMake(s, i, pc, ok);
    case Lease(f, op) => assert Next(s, Advance(i, ok)) == AdvanceLease(s, i, f, op, ok);
    case Handler(t, k, waits, stage) => assert Next(s, Advance(i, ok)) == AdvanceHandler(s, i, t, k, waits, stage);
    case Drain(pc) => assert Next(s, Advance(i, ok)) == AdvanceDrain(s, i, pc, ok);
    case Gone =>
  }

  lemma ClientFrame(s: State, a: Action) returns (j: nat)
    requires !a.Advance?
    ensures var s' := Next(s, a);
            QueueFrame(s, s', j) && (j < |s'.actors| ==> !Queued(s'.actors[j]) && !Committing(s'.actors[j]))
  {
    var i := if a.Commit? || a.Abandon? || a.Destroy? then a.i
             else if a.MoveAssign? then a.dst
             else if a.MoveConstruct? then a.src
             else |s.actors|;
    j := if ReadyLease(s, i) then i else |s.actors|;
  }

  lemma SortedStep(s: State, a: Action)
    requires Inv(s) && QueueSorted(s) && !Overtakes(s, a)
    ensures QueueSorted(Next(s, a))
  {
    if !a.Advance? {
      var j := ClientFrame(s, a);
      SortedOtherwise(s, Next(s, a), j);
    } else if a.i < |s.actors| {
      if s.actors[a.i].Lease? && s.actors[a.i].op.Recording? {
        SortedRecording(s, a.i, a.ok);
      } else if Committing(s.actors[a.i]) {
        SortedEnqueuing(s, a.i, a.ok);
      } else {
        var j := OtherAdvanceFrame(s, a.i, a.ok);
        SortedOtherwise(s, Next(s, a), j);
      }
    }
  }

  // The oldest queued handler has the smallest incomplete ordinal.
  lemma OldestIsNext(s: State, i: nat, j: nat)
    requires Inv(s) && QueueSorted(s) && i < |s.actors| && Queued(s.actors[i])
    requires forall m :: 0 <= m < i ==> !Queued(s.actors[m])
    requires j < s.actors[i].ordinal
    ensures j < |s.submissions| && s.submissions[j]
  {
    assert Shape(s, s.actors[i]);
    if !s.submissions[j] {
      HoldersFromTotal(s, Ordinal(j));
      var m: nat :| OnlyHolder(s, Ordinal(j), m);
    }
  }

  lemma InOrderStep(s: State, a: Action)
    requires Inv(s) && QueueSorted(s) && InOrder(s.submissions) && CompletesOldest(s, a)
    ensures InOrder(Next(s, a).submissions)
  {
    if a.Advance? && a.i < |s.actors| {
      assert Shape(s, s.actors[a.i]);
      if Queued(s.actors[a.i]) {
        var k := s.actors[a.i].ordinal;
        assert Next(s, a).submissions == s.submissions[k := true];
        forall j | 0 <= j < k ensures s.submissions[j] { OldestIsNext(s, a.i, j); }
      }
    }
  }

  /** On a first-in first-out queue the busy test is exact in every state, as long as no enqueue
      overtakes. */
  lemma {:induction false} SerialQueueKeepsOrder(bound: nat, actions: seq<Action>)
    requires FifoRun(bound, actions) && NoOvertaking(bound, actions)
    ensures QueueSorted(Run(bound, actions)) && InOrder(Run(bound, actions).submissions)
    ensures WatermarkExact(Run(bound, actions).submissions)
  {
    if actions != [] {
      var n := |actions| - 1;
      SerialQueueKeepsOrder(bound, actions[..n]);
      Conservation(bound, actions[..n]);
      SortedStep(Run(bound, actions[..n]), actions[n]);
      InOrderStep(Run(bound, actions[..n]), actions[n]);
    }
    WatermarkIffInOrder(Run(bound, actions).submissions);
  }

  // At most one commit is between recordSubmitted and [commandBuffer_ commit].
  predicate CommitsApart(s: State) {
    forall i, j :: 0 <= i < j < |s.actors| ==> !(Committing(s.actors[i]) && Committing(s.actors[j]))
  }

  /** A caller that keeps commits apart never overtakes. */
  lemma {:induction false} CommitsApartSuffice(bound: nat, actions: seq<Action>)
    requires forall c: nat :: c <= |actions| ==> CommitsApart(Run(bound, actions[..c]))
    ensures NoOvertaking(bound, actions)
  {
    if actions != [] {
      var n := |actions| - 1;
      forall c: nat | c <= n ensures CommitsApart(Run(bound, actions[..n][..c])) {
        assert actions[..n][..c] == actions[..c];
      }
      CommitsApartSuffice(bound, actions[..n]);
      assert CommitsApart(Run(bound, actions[..n]));
    }
  }

  // ----- overtaking breaks the busy test -----

  // The oldest queued buffer completes.
  predicate CompletesNow(s: State, a: Action) {
    a.Advance? && a.i < |s.actors| && Queued(s.actors[a.i]) && CompletesOldest(s, a)
  }

  // The queue completes buffers and nothing else happens.
  predicate OnlyCompletes(bound: nat, actions: seq<Action>, more: seq<Action>) {
    more != [] ==>
      var n := |more| - 1;
      OnlyCompletes(bound, actions, more[..n]) && CompletesNow(Run(bound, actions + more[..n]), more[n])
  }

  lemma RunExtended(bound: nat, actions: seq<Action>, a: Action)
    ensures Run(bound, actions + [a]) == Next(Run(bound, actions), a)
    ensures FifoRun(bound, actions + [a]) <==> FifoRun(bound, actions) && CompletesOldest(Run(bound, actions), a)
    ensures NoOvertaking(bound, actions + [a]) <==> NoOvertaking(bound, actions) && !Overtakes(Run(bound, actions), a)
  {
    assert (actions + [a])[..|actions|] == actions;
  }

  // Completing a queued buffer changes its own handler and sets its bit.
  lemma CompletionEffect(s: State, n: nat)
    requires Inv(s) && n < |s.actors| && Queued(s.actors[n])
    ensures var s' := Next(s, Advance(n, true)); var k := s.actors[n].ordinal;
            && k < |s.submissions| && s'.submissions == s.submissions[k := true]
            && |s'.actors| == |s.actors| && !Queued(s'.actors[n])
            && forall j :: 0 <= j < |s.actors| && j != n ==> s'.actors[j] == s.actors[j]
  {
    assert Shape(s, s.actors[n]);
  }

  // How far the queue has got: the first n actors are no queued handlers any more, the others and
  // all commits in progress are as they were.
  predicate CompletedUpTo(s: State, s': State, n: nat) {
    && |s'.actors| == |s.actors|
    && (forall j :: 0 <= j < |s.actors| && (j >= n || Committing(s.actors[j])) ==> s'.actors[j] == s.actors[j])
    && (forall j :: 0 <= j < |s.actors| && j < n ==> !Queued(s'.actors[j]))
    && (forall j :: 0 <= j < |s.actors| && j < n && Queued(s.actors[j]) ==>
          s.actors[j].ordinal < |s'.submissions| && s'.submissions[s.actors[j].ordinal])
  }

  lemma CompleteOne(s: State, s': State, n: nat)
    requires Inv(s') && CompletedUpTo(s, s', n) && n < |s.actors|
    ensures Queued(s.actors[n]) ==>
      CompletesNow(s', Advance(n, true)) && CompletedUpTo(s, Next(s', Advance(n, true)), n + 1)
    ensures !Queued(s.actors[n]) ==> CompletedUpTo(s, s', n + 1)
  {
    if Queued(s.actors[n]) {
      hide Next, Inv;
      CompletionEffect(s', n);
    }
  }

  lemma OneMoreCompletion(bound: nat, actions: seq<Action>, more: seq<Action>, a: Action)
    requires OnlyCompletes(bound, actions, more) && CompletesNow(Run(bound, actions + more), a)
    ensures OnlyCompletes(bound, actions, more + [a])
    ensures Run(bound, actions + (more + [a])) == Next(Run(bound, actions + more), a)
  {
    hide Next, CompletesNow;
    RunExtended(bound, actions + more, a);
    assert (more + [a])[..|more|] == more;
    assert actions + (more + [a]) == actions + more + [a];
  }

  // The queue can run until buffer h has completed; commits in progress stay where they are.
  lemma CompleteThrough(bound: nat, actions: seq<Action>, h: nat) returns (more: seq<Action>)
    requires h < |Run(bound, actions).actors|
    ensures OnlyCompletes(bound, actions, more)
    ensures CompletedUpTo(Run(bound, actions), Run(bound, actions + more), h + 1)
  {
    hide Run, Next, CompletedUpTo, CompletesNow, Inv;
    var s := Run(bound, actions);
    more := [];
    assert actions + more == actions;
    NothingCompleted(s);
    for n := 0 to h + 1
      invariant OnlyCompletes(bound, actions, more)
      invariant CompletedUpTo(s, Run(bound, actions + more), n)
    {
      Conservation(bound, actions + more);
      CompleteOne(s, Run(bound, actions + more), n);
      if Queued(s.actors[n]) {
        OneMoreCompletion(bound, actions, more, Advance(n, true));
        more := more + [Advance(n, true)];
      }
    }
  }

  lemma NothingCompleted(s: State)
    ensures CompletedUpTo(s, s, 0)
  {
  }

  /** As soon as an enqueue overtakes, the queue alone can bring about a state in which the busy test
      is wrong. */
  lemma OvertakingBreaks(bound: nat, actions: seq<Action>, a: Action) returns (more: seq<Action>)
    requires Overtakes(Run(bound, actions), a)
    ensures OnlyCompletes(bound, actions + [a], more)
    ensures !WatermarkExact(Run(bound, actions + [a] + more).submissions)
  {
    var s := Run(bound, actions);
    Conservation(bound, actions);
    assert Shape(s, s.actors[a.i]);
    var j :| 0 <= j < |s.actors| && Committing(s.actors[j]) && s.actors[j].op.ordinal < s.actors[a.i].op.ordinal;
    RunExtended(bound, actions, a);
    assert Next(s, a) == AdvanceLease(s, a.i, s.actors[a.i].f, s.actors[a.i].op, a.ok);
    more := CompleteThrough(bound, actions + [a], |s.actors|);
    Conservation(bound, actions + [a] + more);
    LaterFirst(Next(s, a), Run(bound, actions + [a] + more), j, |s.actors|);
  }

  // A buffer has completed whose ordinal is above that of a commit still in progress.
  lemma LaterFirst(s: State, s': State, j: nat, h: nat)
    requires Inv(s') && CompletedUpTo(s, s', h + 1) && j < h < |s.actors|
    requires Committing(s.actors[j]) && Queued(s.actors[h]) && s.actors[j].op.ordinal < s.actors[h].ordinal
    ensures !WatermarkExact(s'.submissions)
  {
    GaugeAtLeast(s', Ordinal(s.actors[j].op.ordinal), j);
    WatermarkIffInOrder(s'.submissions);
  }

  // Exact at every point of the run, and whatever the queue completes from there.
  ghost predicate ExactThroughout(bound: nat, actions: seq<Action>) {
    forall c: nat, more: seq<Action> :: c <= |actions| && OnlyCompletes(bound, actions[..c], more) ==>
      WatermarkExact(Run(bound, actions[..c] + more).submissions)
  }

  lemma {:induction false} PrefixOrderly(bound: nat, actions: seq<Action>, c: nat)
    requires c <= |actions|
    ensures FifoRun(bound, actions) ==> FifoRun(bound, actions[..c])
    ensures NoOvertaking(bound, actions) ==> NoOvertaking(bound, actions[..c])
  {
    if c == |actions| {
      assert actions[..c] == actions;
    } else {
      var n := |actions| - 1;
      assert actions[..n][..c] == actions[..c];
      PrefixOrderly(bound, actions[..n], c);
    }
  }

  lemma CompletionIsOrderly(s: State, a: Action)
    requires CompletesNow(s, a)
    ensures CompletesOldest(s, a) && !Overtakes(s, a)
  {
  }

  lemma {:induction false} CompletionsOrderly(bound: nat, actions: seq<Action>, more: seq<Action>)
    requires FifoRun(bound, actions) && NoOvertaking(bound, actions) && OnlyCompletes(bound, actions, more)
    ensures FifoRun(bound, actions + more) && NoOvertaking(bound, actions + more)
  {
    hide Run, Next, CompletesNow, CompletesOldest, Overtakes, FifoRun, NoOvertaking;
    if more == [] {
      assert actions + more == actions;
    } else {
      var n := |more| - 1;
      CompletionsOrderly(bound, actions, more[..n]);
      CompletionIsOrderly(Run(bound, actions + more[..n]), more[n]);
      RunExtended(bound, actions + more[..n], more[n]);
      assert actions + more == actions + more[..n] + [more[n]];
    }
  }

  // The first point at which a run overtakes.
  lemma {:induction false} OvertakingPoint(bound: nat, actions: seq<Action>) returns (c: nat)
    requires !NoOvertaking(bound, actions)
    ensures c < |actions| && Overtakes(Run(bound, actions[..c]), actions[c])
  {
    var n := |actions| - 1;
    if NoOvertaking(bound, actions[..n]) {
      c := n;
    } else {
      c := OvertakingPoint(bound, actions[..n]);
      assert actions[..n][..c] == actions[..c];
    }
  }

  /** On a first-in first-out queue the busy test is exact at every point of a run, and whatever the
      queue completes from there, if and only if no enqueue of the run overtakes. */
  lemma ExactIffNoOvertaking(bound: nat, actions: seq<Action>)
    requires FifoRun(bound, actions)
    ensures ExactThroughout(bound, actions) <==> NoOvertaking(bound, actions)
  {
    if NoOvertaking(bound, actions) {
      forall c: nat, more: seq<Action> | c <= |actions| && OnlyCompletes(bound, actions[..c], more)
        ensures WatermarkExact(Run(bound, actions[..c] + more).submissions)
      {
        PrefixOrderly(bound, actions, c);
        CompletionsOrderly(bound, actions[..c], more);
        SerialQueueKeepsOrder(bound, actions[..c] + more);
      }
    } else {
      var c := OvertakingPoint(bound, actions);
      var more := OvertakingBreaks(bound, actions[..c], actions[c]);
      assert actions[..c] + [actions[c]] == actions[..c + 1];
      assert OnlyCompletes(bound, actions[..c + 1], more);
    }
  }

  // ----- a concrete run -----

  // One more action of a first-in first-out run whose last state is known.
  lemma Extend(bound: nat, actions: seq<Action>, s: State, a: Action, s': State)
    requires Run(bound, actions) == s && FifoRun(bound, actions) && Next(s, a) == s' && CompletesOldest(s, a)
    ensures Run(bound, actions + [a]) == s' && FifoRun(bound, actions + [a])
    ensures NoOvertaking(bound, actions) && !Overtakes(s, a) ==> NoOvertaking(bound, actions + [a])
  {
    RunExtended(bound, actions, a);
  }

  function Fresh(t: nat): Actor { Lease(LeaseFields(To(t), true, true, false, false), Ready) }

  // Allocates one lease; no other actor moves.
  lemma AllocateLease(bound: nat, actions: seq<Action>, s: State) returns (more: seq<Action>)
    requires Run(bound, actions) == s && FifoRun(bound, actions) && s.semaphore > 0
    ensures FifoRun(bound, more) && (NoOvertaking(bound, actions) ==> NoOvertaking(bound, more))
    ensures Run(bound, more) == s.(semaphore := s.semaphore - 1, inFlight := s.inFlight + 1,
                                   tokens := s.tokens + [Token(false, false, false)],
                                   actors := s.actors + [Fresh(|s.tokens|)])
  {
    hide Run, FifoRun, NoOvertaking;
    var i := |s.actors|;
    var go := Advance(i, true);
    var taken := s.(semaphore := s.semaphore - 1);
    var counted := taken.(inFlight := s.inFlight + 1);
    var s0 := s.(actors := s.actors + [Make(Waiting)]);
    Extend(bound, actions, s, StartMake, s0);
    var s1 := taken.(actors := s.actors + [Make(Acquired)]);
    assert s0.actors[i := Make(Acquired)] == s1.actors;
    Extend(bound, actions + [StartMake], s0, go, s1);
    var s2 := counted.(actors := s.actors + [Make(Counted(s.inFlight + 1))]);
    assert s1.actors[i := Make(Counted(s.inFlight + 1))] == s2.actors;
    Extend(bound, actions + [StartMake] + [go], s1, go, s2);
    var s3 := counted.(actors := s.actors + [Make(Allocating)]);
    assert s2.actors[i := Make(Allocating)] == s3.actors;
    Extend(bound, actions + [StartMake] + [go] + [go], s2, go, s3);
    assert s3.actors[i := Fresh(|s.tokens|)] == s.actors + [Fresh(|s.tokens|)];
    Extend(bound, actions + [StartMake] + [go] + [go] + [go], s3, go, Next(s3, go));
    more := actions + [StartMake] + [go] + [go] + [go] + [go];
  }

  // Two tokens are out, none released.
  function TwoOut(submitted: nat, completed: nat, submissions: seq<bool>, actors: seq<Actor>): State {
    State(2, 0, 2, submitted, completed, [Token(false, false, false), Token(false, false, false)], submissions, actors)
  }

  lemma TwoLeases() returns (actions: seq<Action>)
    ensures FifoRun(2, actions) && NoOvertaking(2, actions)
    ensures Run(2, actions) == TwoOut(0, 0, [], [Fresh(0), Fresh(1)])
  {
    actions := AllocateLease(2, [], Init(2));
    actions := AllocateLease(2, actions, Run(2, actions));
  }

  function Held(t: nat, op: LeaseOp): Actor { Lease(Fresh(t).f, op) }

  lemma BothRecorded() returns (actions: seq<Action>)
    ensures FifoRun(2, actions)
    ensures Run(2, actions)
            == TwoOut(2, 0, [false, false], [Held(0, Enqueuing(0, false)), Held(1, Enqueuing(1, false))])
  {
    hide Run, FifoRun, NoOvertaking;
    var a := TwoLeases();
    var s0 := TwoOut(0, 0, [], [Held(0, Ready), Held(1, Ready)]);
    var s1 := TwoOut(0, 0, [], [Held(0, Recording(false)), Held(1, Ready)]);
    var s2 := TwoOut(0, 0, [], [Held(0, Recording(false)), Held(1, Recording(false))]);
    var s3 := TwoOut(1, 0, [false], [Held(0, Enqueuing(0, false)), Held(1, Recording(false))]);
    var s4 := TwoOut(2, 0, [false, false], [Held(0, Enqueuing(0, false)), Held(1, Enqueuing(1, false))]);
    assert s0.actors[0 := Held(0, Recording(false))] == s1.actors;
    assert s1.actors[1 := Held(1, Recording(false))] == s2.actors;
    assert s2.actors[0 := Held(0, Enqueuing(0, false))] == s3.actors && [] + [false] == s3.submissions;
    assert s3.actors[1 := Held(1, Enqueuing(1, false))] == s4.actors && [false] + [false] == s4.submissions;
    Extend(2, a, s0, Commit(0, false), s1);
    Extend(2, a + [Commit(0, false)], s1, Commit(1, false), s2);
    Extend(2, a + [Commit(0, false)] + [Commit(1, false)], s2, Advance(0, true), s3);
    Extend(2, a + [Commit(0, false)] + [Commit(1, false)] + [Advance(0, true)], s3, Advance(1, true), s4);
    actions := a + [Commit(0, false)] + [Commit(1, false)] + [Advance(0, true)] + [Advance(1, true)];
  }

  /** Two threads that both pass recordSubmitted before either reaches [commandBuffer_ commit]
      can be enqueued the other way round: a run of a first-in first-out queue whose last step but
      one overtakes and whose last step completes a buffer; one completion is recorded, and it is
      not that of submission 1. */
  lemma OverlappingCommitsBreakWatermark() returns (actions: seq<Action>)
    ensures FifoRun(2, actions) && |actions| >= 2
    ensures var n := |actions| - 2;
            && !CommitsApart(Run(2, actions[..n])) && Overtakes(Run(2, actions[..n]), actions[n])
            && CompletesNow(Run(2, actions[..n + 1]), actions[n + 1])
    ensures var s := Run(2, actions);
            s.submissions == [false, true] && s.completed == 1 && !WatermarkExact(s.submissions)
  {
    hide Run, FifoRun, NoOvertaking, WatermarkExact;
    var a := BothRecorded();
    var first := Held(0, Enqueuing(0, false));
    var second := Held(1, Enqueuing(1, false));
    var spent := Lease(LeaseFields(To(1), false, false, true, true), Ready);
    var queued := Handler(1, 1, false, Pending);
    var s4 := TwoOut(2, 0, [false, false], [first, second]);
    var s5 := TwoOut(2, 0, [false, false], [first, spent, queued]);
    var s6 := TwoOut(2, 1, [false, true], [first, spent, Handler(1, 1, false, HandlerReleasing(Exchange))]);
    assert Committing(s4.actors[0]) && Committing(s4.actors[1]);
    assert [first, second][1 := spent] + [queued] == s5.actors;
    Extend(2, a, s4, Advance(1, true), s5);
    assert [false, false][1 := true] == [false, true];
    Extend(2, a + [Advance(1, true)], s5, Advance(2, true), s6);
    actions := a + [Advance(1, true)] + [Advance(2, true)];
    assert actions[..|a|] == a && actions[..|a| + 1] == a + [Advance(1, true)];
    SecondFirst([false, true]);
  }

  lemma SecondFirst(bits: seq<bool>)
    requires |bits| == 2 && !bits[0] && bits[1]
    ensures !WatermarkExact(bits)
  {
    WatermarkIffInOrder(bits);
  }
}
