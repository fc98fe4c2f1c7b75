/**
 The command-buffer submission protocol of src/context/MetalCommandSubmission.h as a step
 system.  Every atomic operation of the source (semaphore wait and signal, fetch_add,
 fetch_sub, exchange, enqueueing on the Metal queue) is one step, and steps of any number of
 actors interleave freely.  An actor is a thread inside makeCommandBufferImpl, a lease object
 (with the operation a thread is running on it), a completion handler, or a thread inside
 drainAllOutstanding.  Timeouts and failed allocations are the nondeterministic argument `ok`
 of a step.

 The invariants are conservation laws: each law gives every program point a weight, and
 the sum of the weights of all actors balances a gauge on the shared atomics.
 */
module SubmissionProtocol {

  // ----- state -----

  // The three shared pointers of a lease (state_, released_, retainedObjects_) are set, moved
  // and reset together; a token index stands for what they point to.
  datatype Ptr = Null | To(token: nat)

  datatype LeaseFields = LeaseFields(
    ptr: Ptr,
    hasBuffer: bool,
    ownsToken: bool,
    tokenReleaseTransferred: bool,
    retainedReleaseTransferred: bool)

  const EMPTY_LEASE := LeaseFields(Null, false, false, false, false)

  // The atomic statements of releaseToken still to be executed, first one first.
  datatype ReleaseStage = Exchange | Subtract | Signal

  datatype MakePc =
    | Waiting             // before the semaphore wait
    | Acquired            // before inFlightCount.fetch_add
    | Counted(after: int) // before the bound assertion
    | Allocating          // before [commandQueue_ commandBuffer]
    | UndoCount           // nil buffer: before inFlightCount.fetch_sub
    | UndoSignal          // nil buffer: before the semaphore signal

  // What follows the reset of the fields at the end of abandon.
  datatype Continuation = Stay | Destroyed | TakeFrom(src: nat)

  datatype LeaseOp =
    | Ready
    | Recording(waits: bool)                 // commit: before recordSubmitted
    | Enqueuing(ordinal: nat, waits: bool)   // commit: before [commandBuffer_ commit]
    | Awaiting(token: nat)                   // commitAndWait: waiting for the done semaphore
    | Releasing(token: nat, stage: ReleaseStage, next: Continuation)
    | ReleasingRecord(token: nat, next: Continuation)
    | Finishing(next: Continuation)

  datatype HandlerStage =
    | Pending                                // before recordCompleted
    | HandlerReleasing(stage: ReleaseStage)
    | HandlerReleasingRecord
    | SignalDone

  datatype DrainPc =
    | CheckIdle(recordWhenIdle: bool)
    | Acquire(acquired: nat)
    | GiveBack(acquired: nat, given: nat)
    | DrainedIdle                            // returned true without acquiring
    | DrainDone(drained: bool, acquired: nat, given: nat)

  datatype Actor =
    | Make(pc: MakePc)
    | Lease(f: LeaseFields, op: LeaseOp)
    | Handler(token: nat, ordinal: nat, waits: bool, stage: HandlerStage)
    | Drain(drain: DrainPc)
    | Gone

  // What the shared pointers of one acquired token point to: the released_ flag, whether its
  // RetainedObjects record has been released, and the done semaphore of commitAndWait.
  datatype Token = Token(released: bool, recordReleased: bool, done: bool)

  datatype State = State(
    bound: nat,
    semaphore: int,
    inFlight: int,
    submitted: nat,
    completed: nat,
    tokens: seq<Token>,
    submissions: seq<bool>,  // history: submissions[k] says whether submission k+1 completed
    actors: seq<Actor>)

  function Init(bound: nat): State {
    State(bound, bound, 0, 0, 0, [], [], [])
  }

  // ----- steps -----

  datatype Action =
    | StartMake
    | StartDrain(recordWhenIdle: bool)
    | DefaultLease
    | MoveConstruct(src: nat)
    | MoveAssign(dst: nat, src: nat)
    | Commit(i: nat, waits: bool)
    | Abandon(i: nat)
    | Destroy(i: nat)
    | Advance(i: nat, ok: bool)

  predicate ReadyLease(s: State, i: nat) {
    i < |s.actors| && s.actors[i].Lease? && s.actors[i].op.Ready?
  }

  function Put(s: State, i: nat, a: Actor): State
    requires i < |s.actors|
  {
    s.(actors := s.actors[i := a])
  }

  // abandon tests both transfer flags before releasing anything; the fields are reset last.
  function StartAbandon(f: LeaseFields, next: Continuation): LeaseOp {
    if f.ownsToken && !f.tokenReleaseTransferred && f.ptr.To? then Releasing(f.ptr.token, Exchange, next)
    else if f.ptr.To? && !f.retainedReleaseTransferred then ReleasingRecord(f.ptr.token, next)
    else Finishing(next)
  }

  // A disabled action leaves the state as it is.
  function Next(s: State, a: Action): State {
    match a
    case StartMake => s.(actors := s.actors + [Make(Waiting)])
    case StartDrain(recordWhenIdle) => s.(actors := s.actors + [Drain(CheckIdle(recordWhenIdle))])
    case DefaultLease => s.(actors := s.actors + [Lease(EMPTY_LEASE, Ready)])
    case MoveConstruct(src) =>
      if !ReadyLease(s, src) then s
      else
        var moved := Put(s, src, Lease(EMPTY_LEASE, Ready));
        moved.(actors := moved.actors + [Lease(s.actors[src].f, Ready)])
    case MoveAssign(dst, src) =>
      if !ReadyLease(s, dst) || !ReadyLease(s, src) || dst == src then s
      else Put(s, dst, Lease(s.actors[dst].f, StartAbandon(s.actors[dst].f, TakeFrom(src))))
    case Commit(i, waits) =>
      if !ReadyLease(s, i) then s
      else
        var f := s.actors[i].f;
        if !f.hasBuffer || !f.ownsToken then s else Put(s, i, Lease(f, Recording(waits)))
    case Abandon(i) =>
      if !ReadyLease(s, i) then s else Put(s, i, Lease(s.actors[i].f, StartAbandon(s.actors[i].f, Stay)))
    case Destroy(i) =>
      if !ReadyLease(s, i) then s else Put(s, i, Lease(s.actors[i].f, StartAbandon(s.actors[i].f, Destroyed)))
    case Advance(i, ok) =>
      if i >= |s.actors| then s
      else
        match s.actors[i]
        case Make(pc) => AdvanceMake(s, i, pc, ok)
        case Lease(f, op) => AdvanceLease(s, i, f, op, ok)
        case Handler(t, k, waits, stage) => AdvanceHandler(s, i, t, k, waits, stage)
        case Drain(pc) => AdvanceDrain(s, i, pc, ok)
        case Gone => s
  }

  function AdvanceMake(s: State, i: nat, pc: MakePc, ok: bool): State
    requires i < |s.actors|
  {
    match pc
    case Waiting =>
      if !ok then Put(s, i, Lease(EMPTY_LEASE, Ready))   // timed out: an empty lease is returned
      else if s.semaphore <= 0 then s                    // still blocked
      else Put(s.(semaphore := s.semaphore - 1), i, Make(Acquired))
    case Acquired =>
      Put(s.(inFlight := s.inFlight + 1), i, Make(Counted(s.inFlight + 1)))
    case Counted(_) => Put(s, i, Make(Allocating))
    case Allocating =>
      if !ok then Put(s, i, Make(UndoCount))
      else
        Put(s.(tokens := s.tokens + [Token(false, false, false)]), i,
            Lease(LeaseFields(To(|s.tokens|), true, true, false, false), Ready))
    case UndoCount => Put(s.(inFlight := s.inFlight - 1), i, Make(UndoSignal))
    case UndoSignal => Put(s.(semaphore := s.semaphore + 1), i, Lease(EMPTY_LEASE, Ready))
  }

  // The shared-state effect of one statement of releaseToken.
  function ReleaseEffect(s: State, t: nat, stage: ReleaseStage): State
    requires t < |s.tokens|
  {
    match stage
    case Exchange => s.(tokens := s.tokens[t := s.tokens[t].(released := true)])
    case Subtract => s.(inFlight := s.inFlight - 1)
    case Signal => s.(semaphore := s.semaphore + 1)
  }

  // The statement after it, or None at the end; an exchange that returns true ends the call.
  datatype NextStage = Then(stage: ReleaseStage) | End

  function AfterStage(s: State, t: nat, stage: ReleaseStage): NextStage
    requires t < |s.tokens|
  {
    match stage
    case Exchange => if s.tokens[t].released then End else Then(Subtract)
    case Subtract => Then(Signal)
    case Signal => End
  }

  function AdvanceLease(s: State, i: nat, f: LeaseFields, op: LeaseOp, ok: bool): State
    requires i < |s.actors|
  {
    match op
    case Ready => s
    case Recording(waits) =>
      Put(s.(submitted := s.submitted + 1, submissions := s.submissions + [false]), i,
          Lease(f, Enqueuing(|s.submissions|, waits)))
    case Enqueuing(k, waits) =>
      if f.ptr.Null? then s
      else
        var t := f.ptr.token;
        var spent := LeaseFields(f.ptr, false, false, true, true);
        var enqueued := Put(s, i, Lease(spent, if waits then Awaiting(t) else Ready));
        enqueued.(actors := enqueued.actors + [Handler(t, k, waits, Pending)])
    case Awaiting(t) =>
      if !ok || (t < |s.tokens| && s.tokens[t].done) then Put(s, i, Lease(f, Ready)) else s
    case Releasing(t, stage, next) =>
      if t >= |s.tokens| then s
      else
        var s' := ReleaseEffect(s, t, stage);
        (match AfterStage(s, t, stage)
         case Then(stage') => Put(s', i, Lease(f, Releasing(t, stage', next)))
         case End =>
           Put(s', i, Lease(f, if f.retainedReleaseTransferred then Finishing(next) else ReleasingRecord(t, next))))
    case ReleasingRecord(t, next) =>
      if t >= |s.tokens| then s
      else Put(s.(tokens := s.tokens[t := s.tokens[t].(recordReleased := true)]), i, Lease(f, Finishing(next)))
    case Finishing(next) =>
      match next
      case Stay => Put(s, i, Lease(EMPTY_LEASE, Ready))
      case Destroyed => Put(s, i, Gone)
      case TakeFrom(src) =>
        if !ReadyLease(s, src) then s
        else Put(Put(s, i, Lease(s.actors[src].f, Ready)), src, Lease(EMPTY_LEASE, Ready))
  }

  function AdvanceHandler(s: State, i: nat, t: nat, k: nat, waits: bool, stage: HandlerStage): State
    requires i < |s.actors|
  {
    if t >= |s.tokens| || k >= |s.submissions| then s
    else
      match stage
      case Pending =>
        Put(s.(completed := s.completed + 1, submissions := s.submissions[k := true]), i,
            Handler(t, k, waits, HandlerReleasing(Exchange)))
      case HandlerReleasing(r) =>
        var s' := ReleaseEffect(s, t, r);
        (match AfterStage(s, t, r)
         case Then(r') => Put(s', i, Handler(t, k, waits, HandlerReleasing(r')))
         case End => Put(s', i, Handler(t, k, waits, HandlerReleasingRecord)))
      case HandlerReleasingRecord =>
        Put(s.(tokens := s.tokens[t := s.tokens[t].(recordReleased := true)]), i,
            if waits then Handler(t, k, waits, SignalDone) else Gone)
      case SignalDone =>
        Put(s.(tokens := s.tokens[t := s.tokens[t].(done := true)]), i, Gone)
  }

  function AdvanceDrain(s: State, i: nat, pc: DrainPc, ok: bool): State
    requires i < |s.actors|
  {
    match pc
    case CheckIdle(recordWhenIdle) =>
      Put(s, i, Drain(if !recordWhenIdle && s.inFlight == 0 then DrainedIdle else Acquire(0)))
    case Acquire(n) =>
      if n >= s.bound then Put(s, i, Drain(GiveBack(n, 0)))
      else if !ok then Put(s, i, Drain(GiveBack(n, 0)))   // timed out
      else if s.semaphore <= 0 then s                     // still blocked
      else Put(s.(semaphore := s.semaphore - 1), i, Drain(Acquire(n + 1)))
    case GiveBack(n, given) =>
      if given < n then Put(s.(semaphore := s.semaphore + 1), i, Drain(GiveBack(n, given + 1)))
      else Put(s, i, Drain(DrainDone(n == s.bound, n, given)))
    case DrainedIdle => s
    case DrainDone(_, _, _) => s
  }

  // The state after a whole run; every theorem below quantifies over all action sequences.
  function Run(bound: nat, actions: seq<Action>): State {
    if actions == [] then Init(bound)
    else Next(Run(bound, actions[..|actions| - 1]), actions[|actions| - 1])
  }

  // ----- conservation laws -----

  datatype Law =
    | Permits           // semaphore permits: every permit is somewhere
    | Tokens            // inFlightCount counts the holders of a token
    | Outstanding       // submitted - completed
    | Claim(t: nat)     // who will release token t
    | Record(t: nat)    // who will release the retained objects of token t
    | Ordinal(k: nat)   // who will complete submission k+1

  function StagePermits(r: ReleaseStage): int { if r.Signal? then 1 else 0 }
  function StageTokens(r: ReleaseStage): int { if r.Signal? then 0 else 1 }
  function StageClaim(r: ReleaseStage): int { if r.Exchange? then 1 else 0 }

  predicate OwnsToken(f: LeaseFields) { f.ownsToken && !f.tokenReleaseTransferred }
  predicate OwnsRecord(f: LeaseFields) { f.ptr.To? && !f.retainedReleaseTransferred }
  // The operation has not started to give anything away.
  predicate Keeps(op: LeaseOp) { op.Ready? || op.Recording? || op.Enqueuing? || op.Awaiting? }

  function One(b: bool): int { if b then 1 else 0 }

  function PermitWeight(a: Actor): int {
    match a
    case Make(pc) => One(pc.Acquired? || pc.UndoSignal?)
    case Lease(_, op) => if op.Releasing? then StagePermits(op.stage) else 0
    case Handler(_, _, _, st) => if st.HandlerReleasing? then StagePermits(st.stage) else 0
    case Drain(pc) => if pc.Acquire? then pc.acquired else if pc.GiveBack? then pc.acquired - pc.given else 0
    case Gone => 0
  }

  function TokenWeight(a: Actor): int {
    match a
    case Make(pc) => One(pc.Counted? || pc.Allocating? || pc.UndoCount?)
    case Lease(f, op) => if op.Releasing? then StageTokens(op.stage) else One(Keeps(op) && OwnsToken(f))
    case Handler(_, _, _, st) => if st.HandlerReleasing? then StageTokens(st.stage) else One(st.Pending?)
    case Drain(_) => 0
    case Gone => 0
  }

  function OutstandingWeight(a: Actor): int {
    match a
    case Lease(_, op) => One(op.Enqueuing?)
    case Handler(_, _, _, st) => One(st.Pending?)
    case _ => 0
  }

  function ClaimWeight(a: Actor, t: nat): int {
    match a
    case Lease(f, op) =>
      if op.Releasing? then (if op.token == t then StageClaim(op.stage) else 0)
      else One(Keeps(op) && OwnsToken(f) && f.ptr == To(t))
    case Handler(u, _, _, st) =>
      if u != t then 0 else if st.HandlerReleasing? then StageClaim(st.stage) else One(st.Pending?)
    case _ => 0
  }

  function RecordWeight(a: Actor, t: nat): int {
    match a
    case Lease(f, op) =>
      if op.ReleasingRecord? then One(op.token == t)
      else One(!op.Finishing? && OwnsRecord(f) && f.ptr == To(t))
    case Handler(u, _, _, st) => One(u == t && !st.SignalDone?)
    case _ => 0
  }

  function OrdinalWeight(a: Actor, k: nat): int {
    match a
    case Lease(_, op) => One(op.Enqueuing? && op.ordinal == k)
    case Handler(_, j, _, st) => One(j == k && st.Pending?)
    case _ => 0
  }

  function Weight(law: Law, a: Actor): int {
    match law
    case Permits => PermitWeight(a)
    case Tokens => TokenWeight(a)
    case Outstanding => OutstandingWeight(a)
    case Claim(t) => ClaimWeight(a, t)
    case Record(t) => RecordWeight(a, t)
    case Ordinal(k) => OrdinalWeight(a, k)
  }

  function Total(law: Law, actors: seq<Actor>): int {
    if actors == [] then 0 else Total(law, actors[..|actors| - 1]) + Weight(law, actors[|actors| - 1])
  }

  function Gauge(law: Law, s: State): int {
    match law
    case Permits => s.bound - s.semaphore - s.inFlight
    case Tokens => s.inFlight
    case Outstanding => s.submitted - s.completed
    case Claim(t) => One(t < |s.tokens| && !s.tokens[t].released)
    case Record(t) => One(t < |s.tokens| && !s.tokens[t].recordReleased)
    case Ordinal(k) => One(k < |s.submissions| && !s.submissions[k])
  }

  predicate Balanced(s: State, law: Law) {
    Total(law, s.actors) == Gauge(law, s)
  }

  // ----- shape of reachable actors -----

  predicate LiveLease(f: LeaseFields) {
    f.ptr.To? && f == LeaseFields(f.ptr, true, true, false, false)
  }
  predicate SpentLease(f: LeaseFields) {
    f.ptr.To? && f == LeaseFields(f.ptr, false, false, true, true)
  }

  predicate LeaseShape(f: LeaseFields, op: LeaseOp) {
    match op
    case Ready => f == EMPTY_LEASE || LiveLease(f) || SpentLease(f)
    case Recording(_) => LiveLease(f)
    case Enqueuing(_, _) => LiveLease(f)
    case Awaiting(t) => SpentLease(f) && f.ptr == To(t)
    case Releasing(t, _, _) => LiveLease(f) && f.ptr == To(t)
    case ReleasingRecord(t, _) => LiveLease(f) && f.ptr == To(t)
    case Finishing(_) => true
  }

  predicate Shape(s: State, a: Actor) {
    match a
    case Make(pc) => pc.Counted? ==> pc.after <= s.bound
    case Lease(f, op) =>
      LeaseShape(f, op) && (f.ptr.To? ==> f.ptr.token < |s.tokens|)
      && (op.Enqueuing? ==> op.ordinal < |s.submissions|)
    case Handler(t, k, _, stage) =>
      t < |s.tokens| && k < |s.submissions|
      && (stage.HandlerReleasing? && !stage.stage.Exchange? ==> s.tokens[t].released)
      && (stage.HandlerReleasingRecord? || stage.SignalDone? ==> s.tokens[t].released)
      && (stage.SignalDone? ==> s.tokens[t].recordReleased)
    case Drain(pc) =>
      (pc.Acquire? ==> pc.acquired <= s.bound)
      && (pc.GiveBack? ==> pc.given <= pc.acquired <= s.bound)
      && (pc.DrainDone? ==> pc.given == pc.acquired <= s.bound && (pc.drained <==> pc.acquired == s.bound))
    case Gone => true
  }

  // done is signalled last: by then the token and its record have been released.
  predicate DoneLast(t: Token) { t.done ==> t.released && t.recordReleased }

  function CountTrue(bits: seq<bool>): nat {
    if bits == [] then 0 else CountTrue(bits[..|bits| - 1]) + (if bits[|bits| - 1] then 1 else 0)
  }

  // submitted and completed count the history, and done semaphores are signalled last.
  predicate Recorded(s: State) {
    && s.submitted == |s.submissions|
    && s.completed == CountTrue(s.submissions)
    && forall t :: 0 <= t < |s.tokens| ==> DoneLast(s.tokens[t])
  }

  ghost predicate Inv(s: State) {
    && s.semaphore >= 0
    && Recorded(s)
    && (forall i :: 0 <= i < |s.actors| ==> Shape(s, s.actors[i]))
    && (forall law :: Balanced(s, law))
  }

  // ----- sums -----

  lemma {:induction false} TotalUpdate(law: Law, actors: seq<Actor>, i: nat, a: Actor)
    requires i < |actors|
    ensures Total(law, actors[i := a]) == Total(law, actors) - Weight(law, actors[i]) + Weight(law, a)
  {
    var n := |actors| - 1;
    if i == n {
      assert actors[i := a][..n] == actors[..n];
    } else {
      assert actors[i := a][..n] == actors[..n][i := a];
      TotalUpdate(law, actors[..n], i, a);
    }
  }

  lemma TotalAppend(law: Law, actors: seq<Actor>, a: Actor)
    ensures Total(law, actors + [a]) == Total(law, actors) + Weight(law, a)
  {
    assert (actors + [a])[..|actors|] == actors;
  }

  // Every weight of a reachable actor is non-negative, so a total is at least any one weight.
  lemma {:induction false} TotalAtLeast(law: Law, s: State, n: nat, i: nat)
    requires i < n <= |s.actors|
    requires forall j :: 0 <= j < |s.actors| ==> Shape(s, s.actors[j])
    ensures Weight(law, s.actors[i]) <= Total(law, s.actors[..n])
  {
    assert s.actors[..n][..n - 1] == s.actors[..n - 1];
    assert Shape(s, s.actors[n - 1]);
    if i < n - 1 {
      TotalAtLeast(law, s, n - 1, i);
    } else {
      TotalNonNegative(law, s, n - 1);
    }
  }

  lemma {:induction false} TotalNonNegative(law: Law, s: State, n: nat)
    requires n <= |s.actors|
    requires forall j :: 0 <= j < |s.actors| ==> Shape(s, s.actors[j])
    ensures 0 <= Total(law, s.actors[..n])
  {
    if n > 0 {
      assert s.actors[..n][..n - 1] == s.actors[..n - 1];
      assert Shape(s, s.actors[n - 1]);
      TotalNonNegative(law, s, n - 1);
    }
  }

  lemma GaugeAtLeast(s: State, law: Law, i: nat)
    requires Inv(s) && i < |s.actors|
    ensures 0 <= Weight(law, s.actors[i]) <= Gauge(law, s)
  {
    assert s.actors[..|s.actors|] == s.actors;
    assert Shape(s, s.actors[i]);
    TotalAtLeast(law, s, |s.actors|, i);
    assert Balanced(s, law);
  }

  // ----- every step keeps every law -----

  // A step of one actor that changes the gauge by as much as the actor's weight.
  lemma UpdateBalanced(s: State, s': State, i: nat, a: Actor, law: Law)
    requires Balanced(s, law) && i < |s.actors| && s'.actors == s.actors[i := a]
    requires Gauge(law, s') - Gauge(law, s) == Weight(law, a) - Weight(law, s.actors[i])
    ensures Balanced(s', law)
  {
    TotalUpdate(law, s.actors, i, a);
  }

  lemma MakeBalanced(s: State, i: nat, pc: MakePc, ok: bool, law: Law)
    requires Inv(s) && i < |s.actors| && s.actors[i] == Make(pc)
    ensures Balanced(AdvanceMake(s, i, pc, ok), law)
  {
    var s' := AdvanceMake(s, i, pc, ok);
    assert Balanced(s, law);
    UpdateBalanced(s, s', i, s'.actors[i], law);
  }

  lemma DrainBalanced(s: State, i: nat, pc: DrainPc, ok: bool, law: Law)
    requires Inv(s) && i < |s.actors| && s.actors[i] == Drain(pc)
    ensures Balanced(AdvanceDrain(s, i, pc, ok), law)
  {
    var s' := AdvanceDrain(s, i, pc, ok);
    assert Balanced(s, law);
    assert Shape(s, s.actors[i]);
    UpdateBalanced(s, s', i, s'.actors[i], law);
  }

  // The gauges move by the weights of the statement of releaseToken that is executed.
  lemma ReleaseGauge(s: State, t: nat, stage: ReleaseStage, law: Law)
    requires t < |s.tokens| && (stage.Exchange? ==> !s.tokens[t].released)
    ensures Gauge(law, ReleaseEffect(s, t, stage)) - Gauge(law, s)
            == if law.Permits? then (if stage.Subtract? then 1 else if stage.Signal? then -1 else 0)
               else if law.Tokens? then (if stage.Subtract? then -1 else 0)
               else if law == Claim(t) then (if stage.Exchange? then -1 else 0)
               else 0
    ensures AfterStage(s, t, stage)
            == if stage.Exchange? then Then(Subtract) else if stage.Subtract? then Then(Signal) else End
  {
  }

  lemma HandlerBalanced(s: State, i: nat, t: nat, k: nat, waits: bool, stage: HandlerStage, law: Law)
    requires Inv(s) && i < |s.actors| && s.actors[i] == Handler(t, k, waits, stage)
    ensures Balanced(AdvanceHandler(s, i, t, k, waits, stage), law)
  {
    hide Total, Recorded;
    var s' := AdvanceHandler(s, i, t, k, waits, stage);
    assert Balanced(s, law);
    assert Shape(s, s.actors[i]);
    match stage
    case Pending =>
      GaugeAtLeast(s, Ordinal(k), i);
      UpdateBalanced(s, s', i, s'.actors[i], law);
    case HandlerReleasing(r) =>
      GaugeAtLeast(s, Claim(t), i);
      ReleaseGauge(s, t, r, law);
      UpdateBalanced(s, s', i, s'.actors[i], law);
    case HandlerReleasingRecord =>
      GaugeAtLeast(s, Record(t), i);
      UpdateBalanced(s, s', i, s'.actors[i], law);
    case SignalDone =>
      UpdateBalanced(s, s', i, s'.actors[i], law);
  }

  // What the lease held, its handler holds.
  lemma EnqueueBalanced(s: State, i: nat, f: LeaseFields, op: LeaseOp, ok: bool, law: Law)
    requires Inv(s) && i < |s.actors| && s.actors[i] == Lease(f, op) && op.Enqueuing?
    ensures Balanced(AdvanceLease(s, i, f, op, ok), law)
  {
    var s' := AdvanceLease(s, i, f, op, ok);
    assert Balanced(s, law);
    assert Shape(s, s.actors[i]);
    TotalUpdate(law, s.actors, i, s'.actors[i]);
    TotalAppend(law, s.actors[i := s'.actors[i]], Handler(f.ptr.token, op.ordinal, op.waits, Pending));
  }

  lemma LeaseCommitBalanced(s: State, i: nat, f: LeaseFields, op: LeaseOp, ok: bool, law: Law)
    requires Inv(s) && i < |s.actors| && s.actors[i] == Lease(f, op) && Keeps(op) && !op.Enqueuing?
    ensures Balanced(AdvanceLease(s, i, f, op, ok), law)
  {
    var s' := AdvanceLease(s, i, f, op, ok);
    assert Balanced(s, law);
    assert Shape(s, s.actors[i]);
    UpdateBalanced(s, s', i, s'.actors[i], law);
  }

  lemma LeaseReleaseBalanced(s: State, i: nat, f: LeaseFields, op: LeaseOp, ok: bool, law: Law)
    requires Inv(s) && i < |s.actors| && s.actors[i] == Lease(f, op) && (op.Releasing? || op.ReleasingRecord?)
    ensures Balanced(AdvanceLease(s, i, f, op, ok), law)
  {
    var s' := AdvanceLease(s, i, f, op, ok);
    assert Balanced(s, law);
    assert Shape(s, s.actors[i]);
    if op.Releasing? {
      GaugeAtLeast(s, Claim(op.token), i);
      ReleaseGauge(s, op.token, op.stage, law);
    } else {
      GaugeAtLeast(s, Record(op.token), i);
    }
    UpdateBalanced(s, s', i, s'.actors[i], law);
  }

  lemma LeaseFinishBalanced(s: State, i: nat, f: LeaseFields, next: Continuation, ok: bool, law: Law)
    requires Inv(s) && i < |s.actors| && s.actors[i] == Lease(f, Finishing(next))
    ensures Balanced(AdvanceLease(s, i, f, Finishing(next), ok), law)
  {
    var s' := AdvanceLease(s, i, f, Finishing(next), ok);
    assert Balanced(s, law);
    if next.TakeFrom? {
      if ReadyLease(s, next.src) { TakeBalanced(s, i, next.src, law); }
    } else {
      UpdateBalanced(s, s', i, s'.actors[i], law);
    }
  }

  lemma TakeBalanced(s: State, i: nat, src: nat, law: Law)
    requires Inv(s) && i < |s.actors| && s.actors[i].Lease? && s.actors[i].op.Finishing? && ReadyLease(s, src)
    ensures Balanced(Put(Put(s, i, Lease(s.actors[src].f, Ready)), src, Lease(EMPTY_LEASE, Ready)), law)
  {
    assert Balanced(s, law);
    var taken := Lease(s.actors[src].f, Ready);
    TotalUpdate(law, s.actors, i, taken);
    TotalUpdate(law, s.actors[i := taken], src, Lease(EMPTY_LEASE, Ready));
    assert Weight(law, s.actors[i]) == 0 && Weight(law, Lease(EMPTY_LEASE, Ready)) == 0;
  }

  lemma AdvanceBalanced(s: State, i: nat, ok: bool, law: Law)
    requires Inv(s) && i < |s.actors|
    ensures Balanced(Next(s, Advance(i, ok)), law)
  {
    assert Balanced(s, law);
    match s.actors[i]
    case Make(pc) => MakeBalanced(s, i, pc, ok, law);
    case Lease(f, op) =>
      if op.Enqueuing? {
        EnqueueBalanced(s, i, f, op, ok, law);
      } else if Keeps(op) {
        LeaseCommitBalanced(s, i, f, op, ok, law);
      } else if op.Finishing? {
        LeaseFinishBalanced(s, i, f, op.next, ok, law);
      } else {
        LeaseReleaseBalanced(s, i, f, op, ok, law);
      }
    case Handler(t, k, waits, stage) => HandlerBalanced(s, i, t, k, waits, stage, law);
    case Drain(pc) => DrainBalanced(s, i, pc, ok, law);
    case Gone =>
  }

  // Starting an operation on a lease gives nothing away yet.
  lemma StartBalanced(s: State, i: nat, op: LeaseOp, law: Law)
    requires Inv(s) && ReadyLease(s, i)
    requires op.Recording? || exists next :: op == StartAbandon(s.actors[i].f, next)
    ensures Balanced(Put(s, i, Lease(s.actors[i].f, op)), law)
  {
    assert Balanced(s, law);
    assert Shape(s, s.actors[i]);
    TotalUpdate(law, s.actors, i, Lease(s.actors[i].f, op));
  }

  lemma SpawnBalanced(s: State, a: Actor, law: Law)
    requires Inv(s) && Weight(law, a) == 0
    ensures Balanced(s.(actors := s.actors + [a]), law)
  {
    assert Balanced(s, law);
    TotalAppend(law, s.actors, a);
  }

  lemma MoveConstructBalanced(s: State, src: nat, law: Law)
    requires Inv(s) && ReadyLease(s, src)
    ensures Balanced(Next(s, MoveConstruct(src)), law)
  {
    assert Balanced(s, law);
    TotalUpdate(law, s.actors, src, Lease(EMPTY_LEASE, Ready));
    TotalAppend(law, s.actors[src := Lease(EMPTY_LEASE, Ready)], Lease(s.actors[src].f, Ready));
  }

  lemma NextBalanced(s: State, a: Action, law: Law)
    requires Inv(s)
    ensures Balanced(Next(s, a), law)
  {
    if a.Advance? {
      if a.i < |s.actors| { AdvanceBalanced(s, a.i, a.ok, law); } else { assert Balanced(s, law); }
    } else {
      ClientBalanced(s, a, law);
    }
  }

  lemma ClientBalanced(s: State, a: Action, law: Law)
    requires Inv(s) && !a.Advance?
    ensures Balanced(Next(s, a), law)
  {
    assert Balanced(s, law);
    match a
    case StartMake => SpawnBalanced(s, Make(Waiting), law);
    case StartDrain(r) => SpawnBalanced(s, Drain(CheckIdle(r)), law);
    case DefaultLease => SpawnBalanced(s, Lease(EMPTY_LEASE, Ready), law);
    case MoveConstruct(src) =>
      if ReadyLease(s, src) { MoveConstructBalanced(s, src, law); }
    case MoveAssign(i, src) =>
      if ReadyLease(s, i) { StartBalanced(s, i, StartAbandon(s.actors[i].f, TakeFrom(src)), law); }
    case Commit(i, waits) =>
      if ReadyLease(s, i) { StartBalanced(s, i, Recording(waits), law); }
    case Abandon(i) =>
      if ReadyLease(s, i) { StartBalanced(s, i, StartAbandon(s.actors[i].f, Stay), law); }
    case Destroy(i) =>
      if ReadyLease(s, i) { StartBalanced(s, i, StartAbandon(s.actors[i].f, Destroyed), law); }
  }

  // ----- every step keeps the shapes -----

  // Flags of a token are never cleared.
  predicate TokenGrows(t: Token, t': Token) {
    (t.released ==> t'.released) && (t.recordReleased ==> t'.recordReleased) && (t.done ==> t'.done)
  }

  predicate Grows(s: State, s': State) {
    && s'.bound == s.bound && |s.actors| <= |s'.actors|
    && |s.tokens| <= |s'.tokens| && |s.submissions| <= |s'.submissions|
    && (forall t :: 0 <= t < |s.tokens| ==> TokenGrows(s.tokens[t], s'.tokens[t]))
  }

  // All actors of s' except i and j are actors of s at the same index.
  predicate SameElsewhere(s: State, s': State, i: nat, j: nat) {
    |s.actors| <= |s'.actors|
    && forall k :: 0 <= k < |s.actors| && k != i && k != j ==> s'.actors[k] == s.actors[k]
  }

  lemma ShapesKept(s: State, s': State, i: nat, j: nat)
    requires forall k :: 0 <= k < |s.actors| ==> Shape(s, s.actors[k])
    requires Grows(s, s') && SameElsewhere(s, s', i, j)
    requires forall k :: |s.actors| <= k < |s'.actors| ==> Shape(s', s'.actors[k])
    requires i < |s'.actors| ==> Shape(s', s'.actors[i])
    requires j < |s'.actors| ==> Shape(s', s'.actors[j])
    ensures forall k :: 0 <= k < |s'.actors| ==> Shape(s', s'.actors[k])
  {
    forall k | 0 <= k < |s'.actors| ensures Shape(s', s'.actors[k]) {
      if k < |s.actors| && k != i && k != j { assert Shape(s, s.actors[k]); }
    }
  }

  ghost predicate Shaped(s: State, s': State) {
    Grows(s, s') && s'.semaphore >= 0 && Recorded(s') && forall k :: 0 <= k < |s'.actors| ==> Shape(s', s'.actors[k])
  }

  lemma MakeShaped(s: State, i: nat, pc: MakePc, ok: bool)
    requires Inv(s) && i < |s.actors| && s.actors[i] == Make(pc)
    ensures Shaped(s, AdvanceMake(s, i, pc, ok))
  {
    assert Shape(s, s.actors[i]);
    GaugeAtLeast(s, Permits, i);
    ShapesKept(s, AdvanceMake(s, i, pc, ok), i, i);
  }

  lemma DrainShaped(s: State, i: nat, pc: DrainPc, ok: bool)
    requires Inv(s) && i < |s.actors| && s.actors[i] == Drain(pc)
    ensures Shaped(s, AdvanceDrain(s, i, pc, ok))
  {
    assert Shape(s, s.actors[i]);
    ShapesKept(s, AdvanceDrain(s, i, pc, ok), i, i);
  }

  lemma {:induction false} CountOneMore(bits: seq<bool>, k: nat)
    requires k < |bits| && !bits[k]
    ensures CountTrue(bits[k := true]) == CountTrue(bits) + 1
  {
    var n := |bits| - 1;
    if k == n {
      assert bits[k := true][..n] == bits[..n];
    } else {
      assert bits[k := true][..n] == bits[..n][k := true];
      CountOneMore(bits[..n], k);
    }
  }

  lemma HandlerShaped(s: State, i: nat, t: nat, k: nat, waits: bool, stage: HandlerStage)
    requires Inv(s) && i < |s.actors| && s.actors[i] == Handler(t, k, waits, stage)
    ensures Shaped(s, AdvanceHandler(s, i, t, k, waits, stage))
  {
    assert Shape(s, s.actors[i]);
    GaugeAtLeast(s, Ordinal(k), i);
    if stage.Pending? { CountOneMore(s.submissions, k); }
    ShapesKept(s, AdvanceHandler(s, i, t, k, waits, stage), i, i);
  }

  lemma CommitShaped(s: State, i: nat, f: LeaseFields, op: LeaseOp, ok: bool)
    requires Inv(s) && i < |s.actors| && s.actors[i] == Lease(f, op) && Keeps(op)
    ensures Shaped(s, AdvanceLease(s, i, f, op, ok))
  {
    hide Balanced;
    assert Shape(s, s.actors[i]);
    var s' := AdvanceLease(s, i, f, op, ok);
    if op.Recording? { assert s'.submissions[..|s.submissions|] == s.submissions; }
    ShapesKept(s, s', i, i);
  }

  lemma ReleaseShaped(s: State, i: nat, f: LeaseFields, op: LeaseOp, ok: bool)
    requires Inv(s) && i < |s.actors| && s.actors[i] == Lease(f, op) && (op.Releasing? || op.ReleasingRecord?)
    ensures Shaped(s, AdvanceLease(s, i, f, op, ok))
  {
    hide Balanced;
    assert Shape(s, s.actors[i]);
    ShapesKept(s, AdvanceLease(s, i, f, op, ok), i, i);
  }

  lemma FinishShaped(s: State, i: nat, f: LeaseFields, op: LeaseOp, ok: bool)
    requires Inv(s) && i < |s.actors| && s.actors[i] == Lease(f, op) && op.Finishing?
    ensures Shaped(s, AdvanceLease(s, i, f, op, ok))
  {
    hide Balanced;
    assert Shape(s, s.actors[i]);
    var j := if op.next.TakeFrom? && ReadyLease(s, op.next.src) then op.next.src else i;
    assert Shape(s, s.actors[j]);
    ShapesKept(s, AdvanceLease(s, i, f, op, ok), i, j);
  }

  lemma AdvanceShaped(s: State, i: nat, ok: bool)
    requires Inv(s) && i < |s.actors|
    ensures Shaped(s, Next(s, Advance(i, ok)))
  {
    match s.actors[i]
    case Make(pc) => MakeShaped(s, i, pc, ok);
    case Lease(f, op) =>
      if Keeps(op) {
        CommitShaped(s, i, f, op, ok);
      } else if op.Finishing? {
        FinishShaped(s, i, f, op, ok);
      } else {
        ReleaseShaped(s, i, f, op, ok);
      }
    case Handler(t, k, waits, stage) => HandlerShaped(s, i, t, k, waits, stage);
    case Drain(pc) => DrainShaped(s, i, pc, ok);
    case Gone =>
  }

  lemma ClientShaped(s: State, a: Action)
    requires Inv(s) && !a.Advance?
    ensures Shaped(s, Next(s, a))
  {
    hide Balanced;
    var i := if a.Commit? || a.Abandon? || a.Destroy? then a.i
             else if a.MoveAssign? then a.dst
             else if a.MoveConstruct? then a.src
             else |s.actors|;
    if i < |s.actors| { assert Shape(s, s.actors[i]); }
    ShapesKept(s, Next(s, a), i, i);
  }

  // One step from a state in which every law balances.
  lemma NextInv(s: State, a: Action)
    requires Inv(s)
    ensures Inv(Next(s, a)) && Next(s, a).bound == s.bound
  {
    hide Balanced;
    if !a.Advance? {
      ClientShaped(s, a);
    } else if a.i < |s.actors| {
      AdvanceShaped(s, a.i, a.ok);
    }
    forall law ensures Balanced(Next(s, a), law) { NextBalanced(s, a, law); }
  }

  /** Every law balances in every reachable state, whatever the interleaving. */
  lemma {:induction false} Conservation(bound: nat, actions: seq<Action>)
    ensures Inv(Run(bound, actions)) && Run(bound, actions).bound == bound
  {
    if actions == [] {
      forall law ensures Balanced(Init(bound), law) {}
    } else {
      var n := |actions| - 1;
      Conservation(bound, actions[..n]);
      NextInv(Run(bound, actions[..n]), actions[n]);
    }
  }
}
