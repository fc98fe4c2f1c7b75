/**
 The retained-object ledgers against the history of calls: at rest the counters are sums over the
 calls of the run, and from every reachable state everything can be released.
 */
module LedgerHistory {
  import opened RetainedLedger

  // ----- what the calls of a run adopted and released -----

  // What one call puts into a record: the command buffer of a new lease, or an adopted object.
  function PutIn(s: State, act: Action, a: Account): nat {
    match act
    case Create => if a == Buffers then 1 else 0
    case Adopt(i, approxBytes) =>
      if !Idle(s, i) then 0 else (match a case Objects => 1 case Bytes => approxBytes case Buffers => 0)
    case _ => 0
  }

  // What one release takes out.
  function TakenOut(s: State, act: Action, a: Account): nat {
    if act.Release? && Idle(s, act.i) && s.holders[act.i].open then Content(s.holders[act.i], a) else 0
  }

  function AdoptedOver(actions: seq<Action>, a: Account): nat {
    if actions == [] then 0
    else
      var n := |actions| - 1;
      AdoptedOver(actions[..n], a) + PutIn(Run(actions[..n]), actions[n], a)
  }

  function ReleasedOver(actions: seq<Action>, a: Account): nat {
    if actions == [] then 0
    else
      var n := |actions| - 1;
      ReleasedOver(actions[..n], a) + TakenOut(Run(actions[..n]), actions[n], a)
  }

  // ----- the records -----

  function InRecords(hs: seq<Holder>, a: Account): nat {
    if hs == [] then 0 else InRecords(hs[..|hs| - 1], a) + Content(hs[|hs| - 1], a)
  }

  lemma {:induction false} InRecordsUpdate(hs: seq<Holder>, i: nat, h: Holder, a: Account)
    requires i < |hs|
    ensures InRecords(hs[i := h], a) == InRecords(hs, a) - Content(hs[i], a) + Content(h, a)
  {
    var n := |hs| - 1;
    if i == n {
      assert hs[i := h][..n] == hs[..n];
    } else {
      assert hs[i := h][..n] == hs[..n][i := h];
      InRecordsUpdate(hs[..n], i, h, a);
    }
  }

  lemma RecordStep(s: State, act: Action, a: Account)
    ensures InRecords(Next(s, act).holders, a) + TakenOut(s, act, a) == InRecords(s.holders, a) + PutIn(s, act, a)
  {
    var s' := Next(s, act);
    if act.Create? {
      assert s'.holders[..|s.holders|] == s.holders;
    } else if act.i < |s.holders| {
      InRecordsUpdate(s.holders, act.i, s'.holders[act.i], a);
      assert s'.holders == s.holders[act.i := s'.holders[act.i]];
    }
  }

  /** At every point of every run the records contain exactly what was adopted and not released. */
  lemma {:induction false} RecordsAreHistory(actions: seq<Action>, a: Account)
    ensures InRecords(Run(actions).holders, a) + ReleasedOver(actions, a) == AdoptedOver(actions, a)
  {
    if actions != [] {
      hide Next, PutIn, TakenOut;
      var n := |actions| - 1;
      RecordsAreHistory(actions[..n], a);
      RecordStep(Run(actions[..n]), actions[n], a);
    }
  }

  lemma {:induction false} HeldOrLate(hs: seq<Holder>, a: Account)
    ensures InRecords(hs, a) == Held(hs, a) + HeldLate(hs, a)
  {
    if hs != [] { HeldOrLate(hs[..|hs| - 1], a); }
  }

  // ----- the adopted counters -----

  // What is still to be added to adopted.
  function ToAdd(todo: seq<Op>, a: Account): nat {
    if todo == [] then 0
    else (if todo[0].AddAdopted? && todo[0].a == a then todo[0].v else 0) + ToAdd(todo[1..], a)
  }

  function AllToAdd(hs: seq<Holder>, a: Account): nat {
    if hs == [] then 0 else AllToAdd(hs[..|hs| - 1], a) + ToAdd(hs[|hs| - 1].todo, a)
  }

  lemma {:induction false} ToAddConcat(p: seq<Op>, q: seq<Op>, a: Account)
    ensures ToAdd(p + q, a) == ToAdd(p, a) + ToAdd(q, a)
  {
    if p == [] {
      assert p + q == q;
    } else {
      assert (p + q)[1..] == p[1..] + q;
      ToAddConcat(p[1..], q, a);
    }
  }

  lemma {:induction false} AllToAddUpdate(hs: seq<Holder>, i: nat, h: Holder, a: Account)
    requires i < |hs|
    ensures AllToAdd(hs[i := h], a) == AllToAdd(hs, a) - ToAdd(hs[i].todo, a) + ToAdd(h.todo, a)
  {
    var n := |hs| - 1;
    if i == n {
      assert hs[i := h][..n] == hs[..n];
    } else {
      assert hs[i := h][..n] == hs[..n][i := h];
      AllToAddUpdate(hs[..n], i, h, a);
    }
  }

  lemma ToAddPair(x: Op, y: Op, a: Account)
    ensures ToAdd([x, y], a) == ToAdd([x], a) + ToAdd([y], a)
  {
    assert [x] + [y] == [x, y];
    ToAddConcat([x], [y], a);
  }

  lemma ToAddOne(x: Op, a: Account)
    ensures ToAdd([x], a) == if x.AddAdopted? && x.a == a then x.v else 0
  {
    assert [x][1..] == [];
  }

  lemma AddOpsAdd(b: Account, v: nat, a: Account)
    ensures ToAdd(AddOps(b, v), a) == if a == b then v else 0
    ensures ToAdd(TakeOps(b, v), a) == 0
  {
    ToAddPair(AddAdopted(b, v), AddLive(b, v), a);
    ToAddOne(AddAdopted(b, v), a);
    ToAddOne(AddLive(b, v), a);
    ToAddPair(AddReleased(b, v), SubLoad(b, v), a);
    ToAddOne(AddReleased(b, v), a);
    ToAddOne(SubLoad(b, v), a);
  }

  // Starting a call owes what it puts in; a release owes nothing.
  lemma CallAdds(s: State, act: Action, a: Account)
    requires !act.Advance?
    ensures AllToAdd(Next(s, act).holders, a) == AllToAdd(s.holders, a) + PutIn(s, act, a)
  {
    var s' := Next(s, act);
    match act
    case Create =>
      assert s'.holders[..|s.holders|] == s.holders;
      AddOpsAdd(Buffers, 1, a);
    case Adopt(i, b) =>
      if Idle(s, i) {
        AllToAddUpdate(s.holders, i, s'.holders[i], a);
        AddOpsAdd(Objects, 1, a);
        AddOpsAdd(Bytes, b, a);
        ToAddConcat(AddOps(Objects, 1), if b != 0 then AddOps(Bytes, b) else [], a);
      }
    case Release(i) =>
      if Idle(s, i) && s.holders[i].open {
        AllToAddUpdate(s.holders, i, s'.holders[i], a);
        ReleaseAdds(s.holders[i], a);
      }
  }

  lemma ReleaseAdds(h: Holder, a: Account)
    ensures ToAdd(ReleaseOps(h), a) == 0
  {
    var os, ys, bs := TakeOps(Objects, h.objects), TakeOps(Bytes, h.bytes), TakeOps(Buffers, h.buffers);
    AddOpsAdd(Objects, h.objects, a);
    AddOpsAdd(Bytes, h.bytes, a);
    AddOpsAdd(Buffers, h.buffers, a);
    ToAddConcat(os, ys, a);
    ToAddConcat(if h.objects != 0 then os + ys else [], bs, a);
  }

  lemma AdvanceAdds(s: State, i: nat, ok: bool, a: Account)
    requires i < |s.holders| && s.holders[i].todo != []
    ensures var s' := Next(s, Advance(i, ok));
            Get(s', a).adopted + AllToAdd(s'.holders, a) == Get(s, a).adopted + AllToAdd(s.holders, a)
  {
    hide Next;
    StepFrame(s, i, ok);
    var h := s.holders[i];
    var (l, more) := Execute(h.todo[0], Get(s, h.todo[0].a), ok);
    AllToAddUpdate(s.holders, i, h.(todo := more + h.todo[1..]), a);
    ToAddConcat(more, h.todo[1..], a);
    if more != [] {
      assert more == [more[0]];
      ToAddOne(more[0], a);
    }
  }

  lemma StepAdds(s: State, act: Action, a: Account)
    ensures var s' := Next(s, act);
            Get(s', a).adopted + AllToAdd(s'.holders, a)
            == Get(s, a).adopted + AllToAdd(s.holders, a) + PutIn(s, act, a)
  {
    hide Next, PutIn, AllToAdd, Get;
    if !act.Advance? {
      CallFrame(s, act);
      CallAdds(s, act, a);
    } else {
      NothingPutIn(s, act, a);
      if act.i < |s.holders| && s.holders[act.i].todo != [] {
        AdvanceAdds(s, act.i, act.ok, a);
      } else {
        NoAdvance(s, act);
      }
    }
  }

  lemma NoAdvance(s: State, act: Action)
    requires act.Advance? && (act.i >= |s.holders| || s.holders[act.i].todo == [])
    ensures Next(s, act) == s
  {
  }

  lemma {:induction false} AdoptedCounts(actions: seq<Action>, a: Account)
    ensures Get(Run(actions), a).adopted + AllToAdd(Run(actions).holders, a) == AdoptedOver(actions, a)
  {
    if actions != [] {
      hide PutIn, Next;
      var n := |actions| - 1;
      AdoptedCounts(actions[..n], a);
      StepAdds(Run(actions[..n]), actions[n], a);
    }
  }

  lemma NothingPutIn(s: State, act: Action, a: Account)
    requires act.Advance?
    ensures PutIn(s, act, a) == 0
  {
  }

  lemma {:induction false} NothingToAdd(hs: seq<Holder>, a: Account)
    requires forall i :: 0 <= i < |hs| ==> hs[i].todo == []
    ensures AllToAdd(hs, a) == 0
  {
    if hs != [] { NothingToAdd(hs[..|hs| - 1], a); }
  }

  /** Whenever no call is part-way through, every counter is a sum over the calls of the run: adopted is
      what was put in (one object and its size for each adoption, one command buffer for each lease
      created), released is what the releases took out, and live is the difference. */
  lemma CountersAreHistory(actions: seq<Action>, a: Account)
    requires Quiescent(Run(actions))
    ensures var l := Get(Run(actions), a);
            && l.adopted == AdoptedOver(actions, a) && l.released == ReleasedOver(actions, a)
            && l.live == AdoptedOver(actions, a) - ReleasedOver(actions, a)
  {
    hide Run;
    AdoptedCounts(actions, a);
    NothingToAdd(Run(actions).holders, a);
    RecordsAreHistory(actions, a);
    HeldOrLate(Run(actions).holders, a);
    QuiescentBalance(actions, a);
    LateIsHeld(actions, a);
  }

  // ----- everything can be released -----

  function After(s: State, more: seq<Action>): State
    decreases |more|
  {
    if more == [] then s else After(Next(s, more[0]), more[1..])
  }

  lemma RunOneMore(actions: seq<Action>, a: Action)
    ensures Run(actions + [a]) == Next(Run(actions), a)
  {
    assert (actions + [a])[..|actions|] == actions;
  }

  lemma {:induction false} RunAfter(actions: seq<Action>, more: seq<Action>)
    ensures Run(actions + more) == After(Run(actions), more)
    decreases |more|
  {
    hide Next, Run;
    if more == [] {
      assert actions + more == actions;
    } else {
      RunOneMore(actions, more[0]);
      RunAfter(actions + [more[0]], more[1..]);
      assert actions + [more[0]] + more[1..] == actions + more;
    }
  }

  lemma StepFirst(s: State, a: Action, rest: seq<Action>)
    ensures After(s, [a] + rest) == After(Next(s, a), rest)
  {
    hide Next;
    assert ([a] + rest)[1..] == rest;
  }

  lemma {:induction false} AfterBoth(s: State, first: seq<Action>, second: seq<Action>)
    ensures After(s, first + second) == After(After(s, first), second)
    decreases |first|
  {
    hide Next;
    if first == [] {
      assert first + second == second;
    } else {
      AfterBoth(Next(s, first[0]), first[1..], second);
      assert (first + second)[1..] == first[1..] + second;
    }
  }

  // Nothing new is created or adopted.
  predicate OnlyReleases(more: seq<Action>) {
    forall k :: 0 <= k < |more| ==> more[k].Release? || more[k].Advance?
  }

  // The steps an operation can still take when nobody interferes.
  function Cost(op: Op, l: Ledger): nat {
    match op
    case AddLive(_, _) => 4
    case PeakLoad(_, _) => 3
    case PeakExchange(_, v, seen) => if v <= seen || l.peak == seen then 1 else 2
    case SubLoad(_, _) => 3
    case SubExchange(_, _, seen) => if seen == 0 || l.live == seen then 1 else 2
    case _ => 1
  }

  function CallCost(s: State, todo: seq<Op>): nat {
    if todo == [] then 0 else 4 * (|todo| - 1) + Cost(todo[0], Get(s, todo[0].a))
  }

  lemma CostFalls(s: State, i: nat)
    requires i < |s.holders| && s.holders[i].todo != []
    ensures var s' := Next(s, Advance(i, true));
            && s'.holders == s.holders[i := s.holders[i].(todo := s'.holders[i].todo)]
            && CallCost(s', s'.holders[i].todo) < CallCost(s, s.holders[i].todo)
  {
    var op := s.holders[i].todo[0];
    StepFrame(s, i, true);
    var (l, more) := Execute(op, Get(s, op.a), true);
    if more != [] {
      assert Cost(more[0], l) < Cost(op, Get(s, op.a)) && more[0].a == op.a;
      assert Next(s, Advance(i, true)).holders[i].todo == [more[0]] + s.holders[i].todo[1..];
    }
  }

  // The call in progress at holder i runs to its end; the records stay as they are.
  lemma {:induction false} FinishCall(s: State, i: nat) returns (more: seq<Action>)
    requires i < |s.holders|
    ensures OnlyReleases(more)
    ensures After(s, more).holders == s.holders[i := s.holders[i].(todo := [])]
    decreases CallCost(s, s.holders[i].todo)
  {
    hide Next, CallCost;
    if s.holders[i].todo == [] {
      more := [];
      assert s.holders[i].(todo := []) == s.holders[i];
      assert s.holders[i := s.holders[i]] == s.holders;
    } else {
      var a := Advance(i, true);
      CostFalls(s, i);
      var rest := FinishCall(Next(s, a), i);
      StepFirst(s, a, rest);
      more := [a] + rest;
    }
  }

  // Nothing is going on at holder i, and its record has been released.
  predicate Closed(h: Holder) { h.todo == [] && !h.open }

  // The call in progress ends, and the record is released if it was not.
  lemma CloseHolder(s: State, i: nat) returns (more: seq<Action>)
    requires i < |s.holders|
    ensures OnlyReleases(more)
    ensures var t := After(s, more);
            i < |t.holders| && t.holders == s.holders[i := t.holders[i]] && Closed(t.holders[i])
  {
    more := FinishCall(s, i);
    var t := After(s, more);
    if t.holders[i].open {
      var a := Release(i);
      var rest := FinishCall(Next(t, a), i);
      StepFirst(t, a, rest);
      AfterBoth(s, more, [a] + rest);
      more := more + ([a] + rest);
    }
  }

  lemma CloseAll(s: State) returns (more: seq<Action>)
    ensures OnlyReleases(more)
    ensures forall i :: 0 <= i < |After(s, more).holders| ==> Closed(After(s, more).holders[i])
  {
    hide Next, Closed;
    more := [];
    for i := 0 to |s.holders|
      invariant OnlyReleases(more) && |After(s, more).holders| == |s.holders|
      invariant forall j :: 0 <= j < i ==> Closed(After(s, more).holders[j])
    {
      var next := CloseHolder(After(s, more), i);
      AfterBoth(s, more, next);
      more := more + next;
    }
  }

  lemma {:induction false} ReleasesAdoptNothing(actions: seq<Action>, more: seq<Action>, a: Account)
    requires OnlyReleases(more)
    ensures LateAdopted(actions + more, a) == LateAdopted(actions, a)
  {
    if more == [] {
      assert actions + more == actions;
    } else {
      hide Run;
      var n := |more| - 1;
      assert (actions + more)[..|actions| + n] == actions + more[..n];
      ReleasesAdoptNothing(actions, more[..n], a);
    }
  }

  /** From every reachable state the calls in progress can end and every unreleased record be released;
      then live is exactly what had been adopted late, on all three accounts. */
  lemma EverythingCanBeReleased(actions: seq<Action>) returns (more: seq<Action>)
    ensures OnlyReleases(more) && Quiescent(Run(actions + more))
    ensures forall i :: 0 <= i < |Run(actions + more).holders| ==> !Run(actions + more).holders[i].open
    ensures forall a :: Get(Run(actions + more), a).live == LateAdopted(actions, a)
  {
    hide Run, LateAdopted;
    more := CloseAll(Run(actions));
    RunAfter(actions, more);
    forall a ensures Get(Run(actions + more), a).live == LateAdopted(actions, a) {
      QuiescentBalance(actions + more, a);
      ReleasesAdoptNothing(actions, more, a);
      AllReleasedHoldNothing(Run(actions + more).holders, a);
    }
  }
}
