/**
 The shared accounting of retained objects in src/context/MetalCommandSubmission.h: adopted,
 released, live and peak counters of objects, approximate bytes and command buffers, updated
 by any number of leases and completion handlers with single atomic operations and
 compare-exchange loops.  A call of the source is a list of atomic operations still to be
 executed; operations of different holders interleave freely, and a compare-exchange may fail
 spuriously (ok == false) or because another holder got there first.
 */
module RetainedLedger {

  datatype Account = Objects | Bytes | Buffers

  datatype Ledger = Ledger(adopted: nat, released: nat, live: nat, peak: nat)

  // One atomic operation on the ledger of account a.
  datatype Op =
    | AddAdopted(a: Account, v: nat)              // adopted.fetch_add(v)
    | AddLive(a: Account, v: nat)                 // live.fetch_add(v) + v, then updatePeak of the sum
    | PeakLoad(a: Account, v: nat)                // updatePeak: peak.load()
    | PeakExchange(a: Account, v: nat, seen: nat) // updatePeak: loop test and compare_exchange_weak
    | AddReleased(a: Account, v: nat)             // released.fetch_add(v)
    | SubLoad(a: Account, v: nat)                 // boundedSubtract: live.load()
    | SubExchange(a: Account, v: nat, seen: nat)  // boundedSubtract: loop test and compare_exchange_weak

  // The holder of one RetainedObjects record: its lease before the commit, then its handler.
  // `todo` is the rest of the call in progress.  `open` ends when the release call starts; `late`
  // says that something was adopted after that, through the pointer the lease still has.
  datatype Holder = Holder(objects: nat, bytes: nat, buffers: nat, open: bool, late: bool, todo: seq<Op>)

  datatype State = State(objects: Ledger, bytes: Ledger, buffers: Ledger, holders: seq<Holder>)

  function Get(s: State, a: Account): Ledger {
    match a case Objects => s.objects case Bytes => s.bytes case Buffers => s.buffers
  }

  function Set(s: State, a: Account, l: Ledger): State {
    match a
    case Objects => s.(objects := l)
    case Bytes => s.(bytes := l)
    case Buffers => s.(buffers := l)
  }

  // What the record of a holder contains, per account.
  function Content(h: Holder, a: Account): nat {
    match a case Objects => h.objects case Bytes => h.bytes case Buffers => h.buffers
  }

  const EMPTY := Ledger(0, 0, 0, 0)

  function Init(): State { State(EMPTY, EMPTY, EMPTY, []) }

  function AddOps(a: Account, v: nat): seq<Op> { [AddAdopted(a, v), AddLive(a, v)] }
  function TakeOps(a: Account, v: nat): seq<Op> {
    if v != 0 then [AddReleased(a, v), SubLoad(a, v)] else []
  }

  // The lease constructor retains its command buffer.  The source keeps no adopted counter for
  // buffers; here it counts the records created.
  function NewHolder(buffers: nat): Holder { Holder(0, 0, buffers, true, false, AddOps(Buffers, buffers)) }

  function AdoptOps(approxBytes: nat): seq<Op> {
    AddOps(Objects, 1) + if approxBytes != 0 then AddOps(Bytes, approxBytes) else []
  }

  function ReleaseOps(h: Holder): seq<Op> {
    (if h.objects != 0 then TakeOps(Objects, h.objects) + TakeOps(Bytes, h.bytes) else [])
    + TakeOps(Buffers, h.buffers)
  }

  datatype Action =
    | Create
    | Adopt(i: nat, approxBytes: nat)
    | Release(i: nat)
    | Advance(i: nat, ok: bool)

  predicate Idle(s: State, i: nat) { i < |s.holders| && s.holders[i].todo == [] }

  function AdoptInto(h: Holder, approxBytes: nat): Holder {
    h.(objects := h.objects + 1, bytes := h.bytes + approxBytes, late := h.late || !h.open,
       todo := AdoptOps(approxBytes))
  }

  function ReleaseFrom(h: Holder): Holder { Holder(0, 0, 0, false, false, ReleaseOps(h)) }

  function Put(s: State, i: nat, h: Holder): State
    requires i < |s.holders|
  {
    s.(holders := s.holders[i := h])
  }

  // A disabled action leaves the state as it is.  A record is released once.
  function Next(s: State, act: Action): State {
    match act
    case Create => s.(holders := s.holders + [NewHolder(1)])
    case Adopt(i, b) =>
      if !Idle(s, i) then s else Put(s, i, AdoptInto(s.holders[i], b))
    case Release(i) =>
      if !Idle(s, i) || !s.holders[i].open then s else Put(s, i, ReleaseFrom(s.holders[i]))
    case Advance(i, ok) =>
      if i >= |s.holders| || s.holders[i].todo == [] then s
      else
        var h := s.holders[i];
        var (l, more) := Execute(h.todo[0], Get(s, h.todo[0].a), ok);
        Put(Set(s, h.todo[0].a, l), i, h.(todo := more + h.todo[1..]))
  }

  // The effect of one atomic operation, and what it still has to do.
  function Execute(op: Op, l: Ledger, ok: bool): (Ledger, seq<Op>) {
    match op
    case AddAdopted(_, v) => (l.(adopted := l.adopted + v), [])
    case AddLive(a, v) => (l.(live := l.live + v), [PeakLoad(a, l.live + v)])
    case PeakLoad(a, v) => (l, [PeakExchange(a, v, l.peak)])
    case PeakExchange(a, v, seen) =>
      if v <= seen then (l, [])
      else if ok && l.peak == seen then (l.(peak := v), [])
      else (l, [PeakExchange(a, v, l.peak)])
    case AddReleased(_, v) => (l.(released := l.released + v), [])
    case SubLoad(a, v) => (l, if v == 0 then [] else [SubExchange(a, v, l.live)])
    case SubExchange(a, v, seen) =>
      if seen == 0 then (l, [])
      else if ok && l.live == seen then (l.(live := if seen > v then seen - v else 0), [])
      else (l, [SubExchange(a, v, l.live)])
  }

  function Run(actions: seq<Action>): State {
    if actions == [] then Init() else Next(Run(actions[..|actions| - 1]), actions[|actions| - 1])
  }

  // ----- conservation -----

  // What is still to be added to (negative: subtracted from) live and adopted - released.
  function LivePending(op: Op, a: Account): int {
    if op.a != a then 0 else if op.AddLive? then 0 - op.v else if op.SubLoad? || op.SubExchange? then op.v else 0
  }
  function NetPending(op: Op, a: Account): int {
    if op.a != a then 0 else if op.AddAdopted? then 0 - op.v else if op.AddReleased? then op.v else 0
  }

  function LiveSum(todo: seq<Op>, a: Account): int {
    if todo == [] then 0 else LivePending(todo[0], a) + LiveSum(todo[1..], a)
  }
  function NetSum(todo: seq<Op>, a: Account): int {
    if todo == [] then 0 else NetPending(todo[0], a) + NetSum(todo[1..], a)
  }

  // What a holder contributes to live, and to adopted - released.
  function LiveShare(h: Holder, a: Account): int { Content(h, a) + LiveSum(h.todo, a) }
  function NetShare(h: Holder, a: Account): int { Content(h, a) + NetSum(h.todo, a) }

  function LiveTotal(hs: seq<Holder>, a: Account): int {
    if hs == [] then 0 else LiveTotal(hs[..|hs| - 1], a) + LiveShare(hs[|hs| - 1], a)
  }
  function NetTotal(hs: seq<Holder>, a: Account): int {
    if hs == [] then 0 else NetTotal(hs[..|hs| - 1], a) + NetShare(hs[|hs| - 1], a)
  }

  // An operation that takes away; only a release call executes them.
  predicate Takes(op: Op) { op.AddReleased? || op.SubLoad? || op.SubExchange? }
  predicate Adds(op: Op) { op.AddAdopted? || op.AddLive? }

  // A subtraction is never of zero, and what it saw was enough.
  predicate Exact(op: Op) {
    (op.SubLoad? ==> op.v > 0) && (op.SubExchange? ==> 0 < op.v <= op.seen)
  }

  // Adoptions are in progress, if anything is; otherwise a release.
  predicate Grows(h: Holder) { h.open || h.late }

  predicate HolderShape(h: Holder) {
    && (forall k :: 0 <= k < |h.todo| ==>
          Exact(h.todo[k]) && (if Grows(h) then !Takes(h.todo[k]) else !Adds(h.todo[k])))
    && (!Grows(h) ==> h.objects == 0 && h.bytes == 0 && h.buffers == 0)
    && (Grows(h) ==> forall a :: LiveShare(h, a) >= 0)
    && (h.objects == 0 ==> h.bytes == 0)
  }

  ghost predicate Inv(s: State) {
    && (forall i :: 0 <= i < |s.holders| ==> HolderShape(s.holders[i]))
    && (forall a :: Get(s, a).live == LiveTotal(s.holders, a))
    && (forall a :: Get(s, a).adopted - Get(s, a).released == NetTotal(s.holders, a))
  }

  lemma {:induction false} TotalUpdate(hs: seq<Holder>, i: nat, h: Holder, a: Account)
    requires i < |hs|
    ensures LiveTotal(hs[i := h], a) == LiveTotal(hs, a) - LiveShare(hs[i], a) + LiveShare(h, a)
    ensures NetTotal(hs[i := h], a) == NetTotal(hs, a) - NetShare(hs[i], a) + NetShare(h, a)
  {
    var n := |hs| - 1;
    if i == n {
      assert hs[i := h][..n] == hs[..n];
    } else {
      assert hs[i := h][..n] == hs[..n][i := h];
      TotalUpdate(hs[..n], i, h, a);
    }
  }

  // A release call in progress owes at least what its remaining subtractions say.
  lemma {:induction false} ClosedSum(todo: seq<Op>, a: Account)
    requires forall k :: 0 <= k < |todo| ==> !Adds(todo[k])
    ensures LiveSum(todo, a) >= 0
  {
    if todo != [] { ClosedSum(todo[1..], a); }
  }

  lemma ShareNonNegative(h: Holder, a: Account)
    requires HolderShape(h)
    ensures LiveShare(h, a) >= 0
  {
    if !Grows(h) { ClosedSum(h.todo, a); }
  }

  lemma {:induction false} TotalAtLeast(hs: seq<Holder>, i: nat, a: Account)
    requires i < |hs| && forall j :: 0 <= j < |hs| ==> HolderShape(hs[j])
    ensures LiveShare(hs[i], a) <= LiveTotal(hs, a)
  {
    var n := |hs| - 1;
    if i < n {
      TotalAtLeast(hs[..n], i, a);
      ShareNonNegative(hs[n], a);
    } else {
      TotalNonNegative(hs[..n], a);
    }
  }

  lemma {:induction false} TotalNonNegative(hs: seq<Holder>, a: Account)
    requires forall j :: 0 <= j < |hs| ==> HolderShape(hs[j])
    ensures LiveTotal(hs, a) >= 0
  {
    if hs != [] {
      var n := |hs| - 1;
      TotalNonNegative(hs[..n], a);
      ShareNonNegative(hs[n], a);
    }
  }

  // A holder about to subtract v finds at least v in live.
  lemma EnoughLive(s: State, i: nat)
    requires Inv(s) && i < |s.holders| && s.holders[i].todo != []
    requires s.holders[i].todo[0].SubLoad? || s.holders[i].todo[0].SubExchange?
    ensures 0 < s.holders[i].todo[0].v <= Get(s, s.holders[i].todo[0].a).live
  {
    var h := s.holders[i];
    var op := h.todo[0];
    assert HolderShape(h) && Exact(op);
    ClosedSum(h.todo[1..], op.a);
    TotalAtLeast(s.holders, i, op.a);
    assert Get(s, op.a).live == LiveTotal(s.holders, op.a);
  }

  lemma {:induction false} SumConcat(p: seq<Op>, q: seq<Op>, a: Account)
    ensures LiveSum(p + q, a) == LiveSum(p, a) + LiveSum(q, a)
    ensures NetSum(p + q, a) == NetSum(p, a) + NetSum(q, a)
  {
    if p == [] {
      assert p + q == q;
    } else {
      assert (p + q)[1..] == p[1..] + q;
      SumConcat(p[1..], q, a);
    }
  }

  lemma SumPair(x: Op, y: Op, a: Account)
    ensures LiveSum([x, y], a) == LivePending(x, a) + LivePending(y, a)
    ensures NetSum([x, y], a) == NetPending(x, a) + NetPending(y, a)
  {
    assert [x, y][1..] == [y] && [y][1..] == [];
    assert LiveSum([y], a) == LivePending(y, a) && NetSum([y], a) == NetPending(y, a);
  }

  // What executing its first operation does to the shares of a holder.
  lemma ExecuteShares(h: Holder, l: Ledger, ok: bool, a: Account)
    requires h.todo != [] && Exact(h.todo[0]) && (h.todo[0].SubExchange? ==> h.todo[0].v <= l.live)
    ensures var (l', more) := Execute(h.todo[0], l, ok);
            var h' := h.(todo := more + h.todo[1..]);
            && LiveShare(h', a) - LiveShare(h, a) == (if h.todo[0].a == a then l'.live - l.live else 0)
            && NetShare(h', a) - NetShare(h, a)
               == (if h.todo[0].a == a then (l'.adopted - l'.released) - (l.adopted - l.released) else 0)
  {
    var (l', more) := Execute(h.todo[0], l, ok);
    SumConcat(more, h.todo[1..], a);
    assert more == [] || more[1..] == [];
  }

  lemma AdvanceShape(s: State, i: nat, ok: bool)
    requires Inv(s) && i < |s.holders| && s.holders[i].todo != []
    ensures HolderShape(Next(s, Advance(i, ok)).holders[i])
  {
    var h := s.holders[i];
    var op := h.todo[0];
    assert HolderShape(h) && Exact(op);
    if op.SubLoad? || op.SubExchange? { EnoughLive(s, i); }
    var (l, more) := Execute(op, Get(s, op.a), ok);
    var h' := h.(todo := more + h.todo[1..]);
    if Grows(h) {
      forall a ensures LiveShare(h', a) >= 0 {
        assert LiveShare(h, a) >= 0;
        ExecuteShares(h, Get(s, op.a), ok, a);
      }
    }
    forall k | 0 <= k < |h'.todo|
      ensures Exact(h'.todo[k]) && (if Grows(h) then !Takes(h'.todo[k]) else !Adds(h'.todo[k]))
    {
      if k >= |more| { assert h'.todo[k] == h.todo[k - |more| + 1]; }
    }
  }

  // The step touches one ledger and one holder.
  lemma StepFrame(s: State, i: nat, ok: bool)
    requires i < |s.holders| && s.holders[i].todo != []
    ensures var op := s.holders[i].todo[0];
            var (l, more) := Execute(op, Get(s, op.a), ok);
            var s' := Next(s, Advance(i, ok));
            && s'.holders == s.holders[i := s.holders[i].(todo := more + s.holders[i].todo[1..])]
            && forall a :: Get(s', a) == (if a == op.a then l else Get(s, a))
  {
  }

  lemma AdvanceTotals(s: State, i: nat, ok: bool, a: Account)
    requires Inv(s) && i < |s.holders| && s.holders[i].todo != []
    ensures var s' := Next(s, Advance(i, ok));
            && Get(s', a).live == LiveTotal(s'.holders, a)
            && Get(s', a).adopted - Get(s', a).released == NetTotal(s'.holders, a)
  {
    var h := s.holders[i];
    var op := h.todo[0];
    assert HolderShape(h) && Exact(op);
    if op.SubLoad? || op.SubExchange? { EnoughLive(s, i); }
    StepFrame(s, i, ok);
    ExecuteShares(h, Get(s, op.a), ok, a);
    TotalUpdate(s.holders, i, Next(s, Advance(i, ok)).holders[i], a);
    assert Get(s, a).live == LiveTotal(s.holders, a);
  }

  lemma AdvanceInv(s: State, i: nat, ok: bool)
    requires Inv(s) && i < |s.holders| && s.holders[i].todo != []
    ensures Inv(Next(s, Advance(i, ok)))
  {
    var s' := Next(s, Advance(i, ok));
    AdvanceShape(s, i, ok);
    StepFrame(s, i, ok);
    forall a
      ensures Get(s', a).live == LiveTotal(s'.holders, a)
      ensures Get(s', a).adopted - Get(s', a).released == NetTotal(s'.holders, a)
    {
      AdvanceTotals(s, i, ok, a);
    }
  }

  // Starting a call moves amounts between the record and the operations still to do.
  lemma AddSums(b: Account, v: nat, a: Account)
    ensures LiveSum(AddOps(b, v), a) == NetSum(AddOps(b, v), a) == (if a == b then -(v as int) else 0)
  {
    SumPair(AddAdopted(b, v), AddLive(b, v), a);
  }

  lemma TakeSums(b: Account, v: nat, a: Account)
    ensures LiveSum(TakeOps(b, v), a) == NetSum(TakeOps(b, v), a) == (if a == b then v else 0)
  {
    SumPair(AddReleased(b, v), SubLoad(b, v), a);
  }

  lemma AdoptShares(h: Holder, b: nat, a: Account)
    requires h.todo == []
    ensures var h' := AdoptInto(h, b);
            LiveShare(h', a) == LiveShare(h, a) && NetShare(h', a) == NetShare(h, a)
  {
    AddSums(Objects, 1, a);
    AddSums(Bytes, b, a);
    SumConcat(AddOps(Objects, 1), if b != 0 then AddOps(Bytes, b) else [], a);
  }

  lemma ReleaseSums(h: Holder, a: Account)
    requires h.objects == 0 ==> h.bytes == 0
    ensures LiveSum(ReleaseOps(h), a) == NetSum(ReleaseOps(h), a) == Content(h, a)
  {
    var os, ys, bs := TakeOps(Objects, h.objects), TakeOps(Bytes, h.bytes), TakeOps(Buffers, h.buffers);
    TakeSums(Objects, h.objects, a);
    TakeSums(Bytes, h.bytes, a);
    TakeSums(Buffers, h.buffers, a);
    assert os == [] ==> ys == [] && os + ys == [];
    SumConcat(os, ys, a);
    SumConcat(if h.objects != 0 then os + ys else [], bs, a);
  }

  lemma ReleaseShares(h: Holder, a: Account)
    requires h.todo == [] && (h.objects == 0 ==> h.bytes == 0)
    ensures var h' := ReleaseFrom(h);
            LiveShare(h', a) == LiveShare(h, a) && NetShare(h', a) == NetShare(h, a)
  {
    ReleaseSums(h, a);
  }

  // Replacing a holder by one with the same shares keeps the invariant.
  lemma SameShares(s: State, i: nat, h: Holder)
    requires Inv(s) && i < |s.holders| && HolderShape(h)
    requires forall a :: LiveShare(h, a) == LiveShare(s.holders[i], a) && NetShare(h, a) == NetShare(s.holders[i], a)
    ensures Inv(Put(s, i, h))
  {
    forall a
      ensures Get(Put(s, i, h), a).live == LiveTotal(Put(s, i, h).holders, a)
      ensures Get(Put(s, i, h), a).adopted - Get(Put(s, i, h), a).released == NetTotal(Put(s, i, h).holders, a)
    {
      TotalUpdate(s.holders, i, h, a);
    }
  }

  lemma NewHolderShares(v: nat, a: Account)
    ensures LiveShare(NewHolder(v), a) == 0 && NetShare(NewHolder(v), a) == 0
  {
    AddSums(Buffers, v, a);
  }

  // A new holder that contributes nothing yet.
  lemma SpawnInv(s: State, v: nat)
    requires Inv(s)
    ensures Inv(s.(holders := s.holders + [NewHolder(v)]))
  {
    var s' := s.(holders := s.holders + [NewHolder(v)]);
    forall a ensures LiveShare(NewHolder(v), a) >= 0 { NewHolderShares(v, a); }
    forall a
      ensures Get(s', a).live == LiveTotal(s'.holders, a)
      ensures Get(s', a).adopted - Get(s', a).released == NetTotal(s'.holders, a)
    {
      NewHolderShares(v, a);
      AppendTotals(s.holders, NewHolder(v), a);
      assert Get(s', a) == Get(s, a);
    }
  }

  lemma AppendTotals(hs: seq<Holder>, h: Holder, a: Account)
    ensures LiveTotal(hs + [h], a) == LiveTotal(hs, a) + LiveShare(h, a)
    ensures NetTotal(hs + [h], a) == NetTotal(hs, a) + NetShare(h, a)
  {
    assert (hs + [h])[..|hs|] == hs;
  }

  lemma CallInv(s: State, act: Action)
    requires Inv(s) && !act.Advance?
    ensures Inv(Next(s, act))
  {
    if act.Create? {
      SpawnInv(s, 1);
    } else if Idle(s, act.i) && (act.Release? ==> s.holders[act.i].open) {
      var h := s.holders[act.i];
      var h' := Next(s, act).holders[act.i];
      assert HolderShape(h);
      forall a ensures LiveShare(h, a) >= 0 { ShareNonNegative(h, a); }
      forall a ensures LiveShare(h', a) == LiveShare(h, a) && NetShare(h', a) == NetShare(h, a) {
        if act.Adopt? { AdoptShares(h, act.approxBytes, a); } else { ReleaseShares(h, a); }
      }
      SameShares(s, act.i, h');
    }
  }

  lemma {:induction false} Conservation(actions: seq<Action>)
    ensures Inv(Run(actions))
  {
    if actions != [] {
      var n := |actions| - 1;
      Conservation(actions[..n]);
      var s := Run(actions[..n]);
      if !actions[n].Advance? {
        CallInv(s, actions[n]);
      } else if actions[n].i < |s.holders| && s.holders[actions[n].i].todo != [] {
        AdvanceInv(s, actions[n].i, actions[n].ok);
      }
    }
  }

  // ----- main results -----

  /** boundedSubtract never clamps: at every iteration of its loop, in every interleaving, the
      value it has seen and the value it would replace are at least the amount. */
  lemma SubtractNeverClamps(actions: seq<Action>, i: nat)
    requires var s := Run(actions); i < |s.holders| && s.holders[i].todo != [] && s.holders[i].todo[0].SubExchange?
    ensures var s := Run(actions); var op := s.holders[i].todo[0];
            0 < op.v <= op.seen && op.v <= Get(s, op.a).live
  {
    Conservation(actions);
    var s := Run(actions);
    assert HolderShape(s.holders[i]) && Exact(s.holders[i].todo[0]);
    EnoughLive(s, i);
  }

  predicate Quiescent(s: State) {
    forall i :: 0 <= i < |s.holders| ==> s.holders[i].todo == []
  }

  // What the unreleased records contain, and what was put into released ones.
  function Held(hs: seq<Holder>, a: Account): nat {
    if hs == [] then 0
    else Held(hs[..|hs| - 1], a) + if hs[|hs| - 1].open then Content(hs[|hs| - 1], a) else 0
  }
  function HeldLate(hs: seq<Holder>, a: Account): nat {
    if hs == [] then 0
    else HeldLate(hs[..|hs| - 1], a) + if hs[|hs| - 1].open then 0 else Content(hs[|hs| - 1], a)
  }

  lemma {:induction false} QuietTotals(hs: seq<Holder>, a: Account)
    requires forall i :: 0 <= i < |hs| ==> hs[i].todo == []
    ensures LiveTotal(hs, a) == Held(hs, a) + HeldLate(hs, a) == NetTotal(hs, a)
  {
    if hs != [] { QuietTotals(hs[..|hs| - 1], a); }
  }

  // An adoption into a record that has been released.
  predicate AdoptsLate(s: State, act: Action) { act.Adopt? && Idle(s, act.i) && !s.holders[act.i].open }

  function Amount(approxBytes: nat, a: Account): nat {
    match a case Objects => 1 case Bytes => approxBytes case Buffers => 0
  }

  // What was adopted late over a run.
  function LateAdopted(actions: seq<Action>, a: Account): nat {
    if actions == [] then 0
    else
      var n := |actions| - 1;
      LateAdopted(actions[..n], a)
      + if AdoptsLate(Run(actions[..n]), actions[n]) then Amount(actions[n].approxBytes, a) else 0
  }

  lemma {:induction false} LateUpdate(hs: seq<Holder>, i: nat, h: Holder, a: Account)
    requires i < |hs|
    ensures HeldLate(hs[i := h], a) == HeldLate(hs, a)
            - (if hs[i].open then 0 else Content(hs[i], a)) + (if h.open then 0 else Content(h, a))
  {
    var n := |hs| - 1;
    if i == n {
      assert hs[i := h][..n] == hs[..n];
    } else {
      assert hs[i := h][..n] == hs[..n][i := h];
      LateUpdate(hs[..n], i, h, a);
    }
  }

  lemma LateStep(s: State, act: Action, a: Account)
    ensures HeldLate(Next(s, act).holders, a)
            == HeldLate(s.holders, a) + if AdoptsLate(s, act) then Amount(act.approxBytes, a) else 0
  {
    var s' := Next(s, act);
    if act.Create? {
      assert s'.holders[..|s.holders|] == s.holders;
    } else if act.i < |s.holders| {
      LateUpdate(s.holders, act.i, s'.holders[act.i], a);
      assert s'.holders == s.holders[act.i := s'.holders[act.i]];
    }
  }

  // What was adopted late is what the released records contain, at every point of every run.
  lemma {:induction false} LateIsHeld(actions: seq<Action>, a: Account)
    ensures HeldLate(Run(actions).holders, a) == LateAdopted(actions, a)
  {
    if actions != [] {
      LateIsHeld(actions[..|actions| - 1], a);
      LateStep(Run(actions[..|actions| - 1]), actions[|actions| - 1], a);
    }
  }

  /** Whenever no call is part-way through, live is what the unreleased records contain plus what was
      adopted late, and everything adopted is either released or live, on all three accounts. */
  lemma QuiescentBalance(actions: seq<Action>, a: Account)
    requires Quiescent(Run(actions))
    ensures var l := Get(Run(actions), a);
            && l.live == Held(Run(actions).holders, a) + LateAdopted(actions, a)
            && l.adopted == l.released + l.live
  {
    Conservation(actions);
    QuietTotals(Run(actions).holders, a);
    LateIsHeld(actions, a);
    assert Get(Run(actions), a).live == LiveTotal(Run(actions).holders, a);
  }

  lemma {:induction false} AllReleasedHoldNothing(hs: seq<Holder>, a: Account)
    requires forall i :: 0 <= i < |hs| ==> !hs[i].open
    ensures Held(hs, a) == 0
  {
    if hs != [] { AllReleasedHoldNothing(hs[..|hs| - 1], a); }
  }

  // No step of the run adopts late.
  predicate NoneLate(actions: seq<Action>) {
    actions != [] ==>
      var n := |actions| - 1;
      NoneLate(actions[..n]) && !AdoptsLate(Run(actions[..n]), actions[n])
  }

  lemma {:induction false} NoneLateIff(actions: seq<Action>)
    ensures LateAdopted(actions, Objects) == 0 <==> NoneLate(actions)
  {
    hide AdoptsLate;
    if actions != [] { NoneLateIff(actions[..|actions| - 1]); }
  }

  /** Once every record has been released and no call is part-way through, no object is live if and
      only if none was adopted into a record after its release, in every interleaving. */
  lemma NothingLiveIffNoneLate(actions: seq<Action>)
    requires Quiescent(Run(actions)) && forall i :: 0 <= i < |Run(actions).holders| ==> !Run(actions).holders[i].open
    ensures Run(actions).objects.live == 0 <==> NoneLate(actions)
  {
    hide NoneLate, LateAdopted;
    QuiescentBalance(actions, Objects);
    AllReleasedHoldNothing(Run(actions).holders, Objects);
    NoneLateIff(actions);
  }

  // ----- peaks -----

  // The largest value live has had so far.
  function MaxLive(actions: seq<Action>, a: Account): nat {
    var now := Get(Run(actions), a).live;
    if actions == [] then now
    else
      var before := MaxLive(actions[..|actions| - 1], a);
      if now > before then now else before
  }

  // Holder h is about to raise the peak of account a to v.
  predicate Raising(h: Holder, a: Account, v: nat) {
    h.todo != [] && (h.todo[0].PeakLoad? || h.todo[0].PeakExchange?) && h.todo[0].a == a && h.todo[0].v == v
  }

  // No operation still to be done claims more than the maximum, or saw more than the peak.
  predicate PeakOpBounded(op: Op, s: State, a: Account, m: nat) {
    (op.PeakLoad? || op.PeakExchange?) && op.a == a ==> op.v <= m && (op.PeakExchange? ==> op.seen <= Get(s, a).peak)
  }

  ghost predicate PeakInv(s: State, a: Account, m: nat) {
    && Get(s, a).live <= m && Get(s, a).peak <= m
    && (forall i, k :: 0 <= i < |s.holders| && 0 <= k < |s.holders[i].todo| ==>
          PeakOpBounded(s.holders[i].todo[k], s, a, m))
    && (Get(s, a).peak == m || exists i :: 0 <= i < |s.holders| && Raising(s.holders[i], a, m))
  }

  // One executed operation: the peak never falls, and what is left to do is bounded.
  lemma ExecutePeak(op: Op, l: Ledger, ok: bool, m: nat)
    requires l.live <= m && l.peak <= m
    requires op.PeakLoad? || op.PeakExchange? ==> op.v <= m && (op.PeakExchange? ==> op.seen <= l.peak)
    ensures var (l', more) := Execute(op, l, ok);
            var m' := if l'.live > m then l'.live else m;
            && l.peak <= l'.peak <= m'
            && forall k :: 0 <= k < |more| && (more[k].PeakLoad? || more[k].PeakExchange?) ==>
                 more[k].v <= m' && (more[k].PeakExchange? ==> more[k].seen <= l'.peak)
    ensures var (l', more) := Execute(op, l, ok); forall k :: 0 <= k < |more| ==> more[k].a == op.a
  {
  }

  lemma PeakBounds(s: State, i: nat, ok: bool, a: Account, m: nat, m': nat)
    requires PeakInv(s, a, m) && i < |s.holders| && s.holders[i].todo != []
    requires var s' := Next(s, Advance(i, ok)); m' == (if Get(s', a).live > m then Get(s', a).live else m)
    ensures var s' := Next(s, Advance(i, ok));
            && Get(s, a).peak <= Get(s', a).peak <= m'
            && (forall j, k :: 0 <= j < |s'.holders| && 0 <= k < |s'.holders[j].todo| ==>
                  PeakOpBounded(s'.holders[j].todo[k], s', a, m'))
  {
    var s' := Next(s, Advance(i, ok));
    var op, rest := s.holders[i].todo[0], s.holders[i].todo[1..];
    StepFrame(s, i, ok);
    assert PeakOpBounded(op, s, a, m);
    var (l, more) := Execute(op, Get(s, op.a), ok);
    if op.a == a { ExecutePeak(op, Get(s, a), ok, m); }
    assert forall k :: 0 <= k < |more| ==> more[k].a == op.a;
    forall j, k | 0 <= j < |s'.holders| && 0 <= k < |s'.holders[j].todo|
      ensures PeakOpBounded(s'.holders[j].todo[k], s', a, m')
    {
      if j != i {
        assert PeakOpBounded(s.holders[j].todo[k], s, a, m);
      } else if k >= |more| {
        assert s'.holders[i].todo[k] == rest[k - |more|] == s.holders[i].todo[k - |more| + 1];
        assert PeakOpBounded(s.holders[i].todo[k - |more| + 1], s, a, m);
      } else {
        assert s'.holders[i].todo[k] == more[k];
      }
    }
  }

  // Who will raise the peak to the maximum after the step, if it is not there yet.
  lemma PeakWitness(s: State, i: nat, ok: bool, a: Account, m: nat, m': nat)
    requires PeakInv(s, a, m) && i < |s.holders| && s.holders[i].todo != []
    requires var s' := Next(s, Advance(i, ok)); m' == (if Get(s', a).live > m then Get(s', a).live else m)
    ensures var s' := Next(s, Advance(i, ok));
            Get(s', a).peak == m' || exists j :: 0 <= j < |s'.holders| && Raising(s'.holders[j], a, m')
  {
    StepFrame(s, i, ok);
    var s' := Next(s, Advance(i, ok));
    var op := s.holders[i].todo[0];
    assert PeakOpBounded(op, s, a, m);
    if m' > m {
      assert Raising(s'.holders[i], a, m');
    } else if Get(s, a).peak != m {
      var j :| 0 <= j < |s.holders| && Raising(s.holders[j], a, m);
      if j != i || Get(s', a).peak != m {
        assert Raising(s'.holders[j], a, m);
      }
    } else if op.a == a {
      ExecutePeak(op, Get(s, a), ok, m);
    }
  }

  lemma PeakAdvance(s: State, i: nat, ok: bool, a: Account, m: nat, m': nat)
    requires PeakInv(s, a, m) && i < |s.holders| && s.holders[i].todo != []
    requires var s' := Next(s, Advance(i, ok)); m' == (if Get(s', a).live > m then Get(s', a).live else m)
    ensures PeakInv(Next(s, Advance(i, ok)), a, m')
  {
    PeakBounds(s, i, ok, a, m, m');
    PeakWitness(s, i, ok, a, m, m');
  }

  // The start of a call only adds operations that do not touch a peak yet.
  lemma CallFrame(s: State, act: Action)
    requires !act.Advance?
    ensures var s' := Next(s, act);
            && (forall a :: Get(s', a) == Get(s, a)) && |s.holders| <= |s'.holders|
            && (forall i :: 0 <= i < |s.holders| && s.holders[i].todo != [] ==> s'.holders[i] == s.holders[i])
            && forall i, k :: 0 <= i < |s'.holders| && 0 <= k < |s'.holders[i].todo| ==>
                 (i < |s.holders| && s.holders[i].todo != []) || PlainOp(s'.holders[i].todo[k])
  {
  }

  predicate PlainOp(op: Op) { !op.PeakLoad? && !op.PeakExchange? }

  lemma PeakCall(s: State, act: Action, a: Account, m: nat)
    requires PeakInv(s, a, m) && !act.Advance?
    ensures PeakInv(Next(s, act), a, m) && Get(Next(s, act), a) == Get(s, a)
  {
    hide Next;
    CallFrame(s, act);
    var s' := Next(s, act);
    forall i, k | 0 <= i < |s'.holders| && 0 <= k < |s'.holders[i].todo|
      ensures PeakOpBounded(s'.holders[i].todo[k], s', a, m)
    {
      assert PlainOp(s'.holders[i].todo[k]) || PeakOpBounded(s.holders[i].todo[k], s, a, m);
    }
    if Get(s, a).peak != m {
      var j :| 0 <= j < |s.holders| && Raising(s.holders[j], a, m);
      assert Raising(s'.holders[j], a, m);
    }
  }

  lemma {:induction false} PeakHolds(actions: seq<Action>, a: Account)
    ensures PeakInv(Run(actions), a, MaxLive(actions, a))
  {
    if actions != [] {
      var n := |actions| - 1;
      PeakHolds(actions[..n], a);
      var s, m := Run(actions[..n]), MaxLive(actions[..n], a);
      if !actions[n].Advance? {
        PeakCall(s, actions[n], a, m);
      } else if actions[n].i < |s.holders| && s.holders[actions[n].i].todo != [] {
        PeakAdvance(s, actions[n].i, actions[n].ok, a, m, MaxLive(actions, a));
      }
    }
  }

  /** Whenever no call is part-way through, peak is the running maximum of live, although many
      compare-exchange loops may have raced to raise it. */
  lemma PeakIsRunningMaximum(actions: seq<Action>, a: Account)
    requires Quiescent(Run(actions))
    ensures Get(Run(actions), a).peak == MaxLive(actions, a)
  {
    PeakHolds(actions, a);
  }
}
