/**
 Every interleaving of mark* calls on the store of src/debug/CoverageStore.cpp, one atomic load,
 store or lock operation at a time.  Each call enters a log once: when it takes the lock, or when
 its fast path decides to skip.  Replaying the log with the always-locked implementation is the
 sequential execution the store is compared with.
 */
module CoverageInterleaving {
  import opened CoverageLattice

  // What the lock holder does next.
  datatype Pc = WriteState | WriteTest | WriteNote | StoreNotesFlag | StoreState

  datatype Lock = Free | Held(owner: nat, pc: Pc, previous: Coverage)

  // A call: its mark, and how far it has come.  `at` is its place in the log.
  datatype Call =
    | LoadState(m: Mark)
    | LoadNotes(m: Mark)
    | WaitLock(m: Mark)
    | Inside(m: Mark, at: nat)
    | Returned(m: Mark, at: nat)

  datatype Logged = Logged(call: nat, m: Mark, skipped: bool)

  datatype System = System(entries: seq<Entry>, calls: seq<Call>, lock: Lock, log: seq<Logged>)

  function Init(functions: nat): System { System(seq(functions, _ => FRESH), [], Free, []) }

  datatype Action = Start(m: Mark) | Advance(i: nat)

  predicate Admitted(s: System, m: Mark) { Proper(m) && m.id < |s.entries| }

  // Call i decides on its fast path.
  function Skip(s: System, i: nat, m: Mark): System
    requires i < |s.calls|
  {
    s.(calls := s.calls[i := Returned(m, |s.log|)], log := s.log + [Logged(i, m, true)])
  }

  function Move(s: System, i: nat, c: Call): System
    requires i < |s.calls|
  {
    s.(calls := s.calls[i := c])
  }

  function Acquire(s: System, i: nat, m: Mark): System
    requires i < |s.calls|
  {
    s.(calls := s.calls[i := Inside(m, |s.log|)], lock := Held(i, WriteState, Unimplemented),
       log := s.log + [Logged(i, m, false)])
  }

  function NextPc(pc: Pc): Pc
    requires !pc.StoreState?
  {
    match pc
    case WriteState => WriteTest
    case WriteTest => WriteNote
    case WriteNote => StoreNotesFlag
    case StoreNotesFlag => StoreState
  }

  // The entry after one write of the lock holder.
  function Written(e: Entry, m: Mark, pc: Pc, previous: Coverage): Entry {
    match pc
    case WriteState => e.(core := WithState(e.core, m))
    case WriteTest => e.(core := WithTest(e.core, m))
    case WriteNote => e.(core := WithNote(e.core, previous, m))
    case StoreNotesFlag => e.(notesPublished := e.notesPublished || e.core.notes != "")
    case StoreState => e.(published := Value(e.core.state))
  }

  // The state found by the first write decides about the note.
  function Remembered(e: Entry, lock: Lock): Coverage
    requires lock.Held?
  {
    if lock.pc.WriteState? then e.core.state else lock.previous
  }

  // One write of the lock holder; the last one is followed by the release.
  function Work(s: System, i: nat, m: Mark, at: nat): System
    requires i < |s.calls| && m.id < |s.entries| && s.lock.Held?
  {
    var e := s.entries[m.id];
    var t := s.(entries := s.entries[m.id := Written(e, m, s.lock.pc, s.lock.previous)]);
    if s.lock.pc.StoreState? then t.(lock := Free, calls := s.calls[i := Returned(m, at)])
    else t.(lock := Held(i, NextPc(s.lock.pc), Remembered(e, s.lock)))
  }

  function Next(s: System, a: Action): System {
    match a
    case Start(m) => if Admitted(s, m) then s.(calls := s.calls + [LoadState(m)]) else s
    case Advance(i) =>
      if i >= |s.calls| || s.calls[i].m.id >= |s.entries| then s
      else
        var m := s.calls[i].m;
        var e := s.entries[m.id];
        match s.calls[i]
        case LoadState(_) =>
          if e.published < Value(m.level) then Move(s, i, WaitLock(m))
          else if m.note != "" && e.published == Value(m.level) then Move(s, i, LoadNotes(m))
          else Skip(s, i, m)
        case LoadNotes(_) => if e.notesPublished then Skip(s, i, m) else Move(s, i, WaitLock(m))
        case WaitLock(_) => if s.lock.Free? then Acquire(s, i, m) else s
        case Inside(_, at) => if s.lock.Held? then Work(s, i, m, at) else s
        case Returned(_, _) => s
  }

  function Run(functions: nat, actions: seq<Action>): System {
    if actions == [] then Init(functions)
    else Next(Run(functions, actions[..|actions| - 1]), actions[|actions| - 1])
  }

  // ----- the sequential, always-locked execution -----

  function Replay(log: seq<Logged>, id: nat): Core {
    if log == [] then EMPTY
    else
      var n := |log| - 1;
      var before := Replay(log[..n], id);
      if log[n].m.id == id then Apply(before, log[n].m) else before
  }

  predicate AllProper(log: seq<Logged>) { forall j :: 0 <= j < |log| ==> Proper(log[j].m) }

  lemma ReplayOneMore(log: seq<Logged>, x: Logged, id: nat)
    ensures Replay(log + [x], id) == if x.m.id == id then Apply(Replay(log, id), x.m) else Replay(log, id)
  {
    assert (log + [x])[..|log|] == log;
  }

  // Nothing that was reached is lost again.
  lemma {:induction false} ReplayGrows(log: seq<Logged>, k: nat, id: nat, m: Mark)
    requires AllProper(log) && k <= |log|
    ensures Value(Replay(log[..k], id).state) <= Value(Replay(log, id).state)
    ensures Tested(Replay(log, id))
    ensures Covers(Replay(log[..k], id), m) ==> Covers(Replay(log, id), m)
    decreases |log|
  {
    if log == [] {
    } else if k == |log| {
      assert log[..k] == log;
      var n := |log| - 1;
      ReplayGrows(log[..n], n, id, m);
      if log[n].m.id == id { CoveredForGood(Replay(log[..n], id), m, log[n].m); }
    } else {
      var n := |log| - 1;
      assert log[..n][..k] == log[..k];
      ReplayGrows(log[..n], k, id, m);
      if log[n].m.id == id { CoveredForGood(Replay(log[..n], id), m, log[n].m); }
    }
  }

  // ----- the invariant -----

  // Calls and log entries correspond one to one.
  predicate Places(s: System) {
    && (forall i :: 0 <= i < |s.calls| ==> Admitted(s, s.calls[i].m))
    && (forall i :: 0 <= i < |s.calls| && (s.calls[i].Inside? || s.calls[i].Returned?) ==>
          s.calls[i].at < |s.log| && s.log[s.calls[i].at].call == i && s.log[s.calls[i].at].m == s.calls[i].m)
    && (forall j :: 0 <= j < |s.log| ==>
          && s.log[j].call < |s.calls|
          && (s.calls[s.log[j].call].Inside? || s.calls[s.log[j].call].Returned?)
          && s.calls[s.log[j].call].at == j)
  }

  // The lock has one owner.
  predicate Exclusive(s: System) {
    && (s.lock.Held? ==> s.lock.owner < |s.calls| && s.calls[s.lock.owner].Inside?)
    && (forall i :: 0 <= i < |s.calls| && s.calls[i].Inside? ==> s.lock.Held? && s.lock.owner == i)
  }

  // A skip was a no-op where it entered the log.
  predicate SkipsCovered(log: seq<Logged>) {
    forall j :: 0 <= j < |log| && log[j].skipped ==> Covers(Replay(log[..j], log[j].m.id), log[j].m)
  }

  // The state loaded by a call that still has to look at the notes flag.
  predicate Loaded(s: System) {
    forall i :: 0 <= i < |s.calls| && s.calls[i].LoadNotes? ==>
      Value(Replay(s.log, s.calls[i].m.id).state) >= Value(s.calls[i].m.level)
  }

  predicate BeingWritten(s: System, id: nat) {
    s.lock.Held? && s.lock.owner < |s.calls| && s.calls[s.lock.owner].m.id == id
  }

  // What the entry will hold when the lock is released.
  function Final(c: Core, m: Mark, pc: Pc, previous: Coverage): Core {
    match pc
    case WriteState => Apply(c, m)
    case WriteTest => WithNote(WithTest(c, m), previous, m)
    case WriteNote => WithNote(c, previous, m)
    case _ => c
  }

  // An entry on its way to what the replay already holds.
  predicate Halfway(e: Entry, m: Mark, pc: Pc, previous: Coverage, replay: Core) {
    && replay == Final(e.core, m, pc, previous)
    && e.published <= Value(e.core.state)
    && (e.notesPublished ==> e.core.notes != "")
    && (pc.StoreState? && e.core.notes != "" ==> e.notesPublished)
  }

  predicate EntryInv(s: System, id: nat)
    requires id < |s.entries|
  {
    if BeingWritten(s, id) then
      Halfway(s.entries[id], s.calls[s.lock.owner].m, s.lock.pc, s.lock.previous, Replay(s.log, id))
    else
      s.entries[id].core == Replay(s.log, id) && Settled(s.entries[id])
  }

  // One write keeps its promise for the entry, the last one settles it.
  lemma WriteKeeps(e: Entry, m: Mark, lock: Lock, replay: Core)
    requires lock.Held? && Halfway(e, m, lock.pc, lock.previous, replay) && Tested(replay)
    ensures var f := Written(e, m, lock.pc, lock.previous);
            if lock.pc.StoreState? then f.core == replay && Settled(f)
            else Halfway(f, m, NextPc(lock.pc), Remembered(e, lock), replay)
  {
  }

  predicate EntriesInv(s: System) { forall id :: 0 <= id < |s.entries| ==> EntryInv(s, id) }

  ghost predicate Inv(s: System) {
    Places(s) && Exclusive(s) && SkipsCovered(s.log) && Loaded(s) && EntriesInv(s) && AllProper(s.log)
  }

  // The published atomics never promise more than the replay holds.
  lemma PublishedBelow(s: System, id: nat)
    requires Inv(s) && id < |s.entries|
    ensures var e, c := s.entries[id], Replay(s.log, id);
            e.published <= Value(c.state) && (e.notesPublished ==> c.notes != "") && Tested(c)
  {
    assert EntryInv(s, id);
    ReplayGrows(s.log, 0, id, Mark(id, Stubbed, "", ""));
  }

  // The heart of it: what the fast path loaded is enough for the replay to cover the mark.
  lemma SkipCovered(s: System, i: nat)
    requires Inv(s) && i < |s.calls|
    requires var m := s.calls[i].m; var e := s.entries[m.id];
             || (s.calls[i].LoadState? && e.published >= Value(m.level)
                 && (m.note == "" || e.published != Value(m.level)))
             || (s.calls[i].LoadNotes? && e.notesPublished)
    ensures Covers(Replay(s.log, s.calls[i].m.id), s.calls[i].m)
  {
    PublishedBelow(s, s.calls[i].m.id);
  }

  // A covered mark may enter the log without changing the replay.
  lemma ReplaySkip(log: seq<Logged>, x: Logged, id: nat)
    requires Proper(x.m) && Covers(Replay(log, x.m.id), x.m)
    ensures Replay(log + [x], id) == Replay(log, id)
  {
    ReplayOneMore(log, x, id);
    CoversIff(Replay(log, x.m.id), x.m);
  }

  lemma LogOneMore(log: seq<Logged>, x: Logged)
    requires SkipsCovered(log) && AllProper(log) && Proper(x.m)
    requires x.skipped ==> Covers(Replay(log, x.m.id), x.m)
    ensures SkipsCovered(log + [x]) && AllProper(log + [x])
  {
    forall j | 0 <= j < |log + [x]| && (log + [x])[j].skipped
      ensures Covers(Replay((log + [x])[..j], (log + [x])[j].m.id), (log + [x])[j].m)
    {
      if j < |log| { assert (log + [x])[..j] == log[..j]; } else { assert (log + [x])[..j] == log; }
    }
  }

  lemma SkipStep(s: System, i: nat)
    requires Inv(s) && i < |s.calls| && (s.calls[i].LoadState? || s.calls[i].LoadNotes?)
    requires Covers(Replay(s.log, s.calls[i].m.id), s.calls[i].m)
    ensures Inv(Skip(s, i, s.calls[i].m))
  {
    hide Halfway, Settled, Replay, Covers, SkipsCovered, AllProper;
    var m := s.calls[i].m;
    var x := Logged(i, m, true);
    var t := Skip(s, i, m);
    assert Proper(m);
    LogOneMore(s.log, x);
    forall id: nat ensures Replay(t.log, id) == Replay(s.log, id) { ReplaySkip(s.log, x, id); }
    forall id | 0 <= id < |t.entries| ensures EntryInv(t, id) { assert EntryInv(s, id); }
  }

  lemma AcquireStep(s: System, i: nat)
    requires Inv(s) && i < |s.calls| && s.calls[i].WaitLock? && s.lock.Free?
    ensures Inv(Acquire(s, i, s.calls[i].m))
  {
    var m := s.calls[i].m;
    var x := Logged(i, m, false);
    var t := Acquire(s, i, m);
    LogOneMore(s.log, x);
    forall id: nat
      ensures Replay(t.log, id) == if m.id == id then Apply(Replay(s.log, id), m) else Replay(s.log, id)
      ensures Value(Replay(s.log, id).state) <= Value(Replay(t.log, id).state)
    {
      ReplayOneMore(s.log, x, id);
      CoveredForGood(Replay(s.log, id), m, m);
    }
    forall id | 0 <= id < |t.entries| ensures EntryInv(t, id) { assert EntryInv(s, id); }
  }

  lemma WorkEntry(s: System, i: nat, id: nat)
    requires Inv(s) && i < |s.calls| && s.calls[i].Inside? && id < |s.entries|
    ensures EntryInv(Work(s, i, s.calls[i].m, s.calls[i].at), id)
  {
    hide Written, Halfway, Settled;
    var m := s.calls[i].m;
    assert EntryInv(s, id);
    if id == m.id {
      ReplayGrows(s.log, 0, id, m);
      WriteKeeps(s.entries[id], m, s.lock, Replay(s.log, id));
    }
  }

  lemma WorkStep(s: System, i: nat)
    requires Inv(s) && i < |s.calls| && s.calls[i].Inside?
    ensures Inv(Work(s, i, s.calls[i].m, s.calls[i].at))
  {
    hide EntryInv, Written, Replay;
    var t := Work(s, i, s.calls[i].m, s.calls[i].at);
    forall id | 0 <= id < |t.entries| ensures EntryInv(t, id) { WorkEntry(s, i, id); }
  }

  lemma MoveStep(s: System, i: nat, c: Call)
    requires Inv(s) && i < |s.calls| && (s.calls[i].LoadState? || s.calls[i].LoadNotes?) && c.m == s.calls[i].m
    requires c.WaitLock? || (c.LoadNotes? && s.entries[c.m.id].published >= Value(c.m.level))
    ensures Inv(Move(s, i, c))
  {
    var t := Move(s, i, c);
    PublishedBelow(s, c.m.id);
    forall id | 0 <= id < |t.entries| ensures EntryInv(t, id) { assert EntryInv(s, id); }
  }

  lemma StartStep(s: System, m: Mark)
    requires Inv(s)
    ensures Inv(Next(s, Start(m)))
  {
    hide Halfway, Settled, Replay;
    var t := Next(s, Start(m));
    forall id | 0 <= id < |t.entries| ensures EntryInv(t, id) { assert EntryInv(s, id); }
  }

  lemma NextKeeps(s: System, a: Action)
    requires Inv(s)
    ensures Inv(Next(s, a)) && |Next(s, a).entries| == |s.entries| && s.log <= Next(s, a).log
  {
    match a {
      case Start(m) => StartStep(s, m);
      case Advance(i) =>
        if i < |s.calls| {
          var m := s.calls[i].m;
          var e := s.entries[m.id];
          match s.calls[i] {
            case LoadState(_) =>
              if e.published < Value(m.level) { MoveStep(s, i, WaitLock(m)); }
              else if m.note != "" && e.published == Value(m.level) { MoveStep(s, i, LoadNotes(m)); }
              else { SkipCovered(s, i); SkipStep(s, i); }
            case LoadNotes(_) =>
              if e.notesPublished { SkipCovered(s, i); SkipStep(s, i); } else { MoveStep(s, i, WaitLock(m)); }
            case WaitLock(_) => if s.lock.Free? { AcquireStep(s, i); }
            case Inside(_, _) => WorkStep(s, i);
            case Returned(_, _) =>
          }
        }
    }
  }

  /** Every reachable state keeps the invariant. */
  lemma {:induction false} Reachable(functions: nat, actions: seq<Action>)
    ensures Inv(Run(functions, actions)) && |Run(functions, actions).entries| == functions
  {
    if actions != [] {
      var n := |actions| - 1;
      Reachable(functions, actions[..n]);
      NextKeeps(Run(functions, actions[..n]), actions[n]);
    }
  }

  /** Whoever holds the lock to read sees exactly what replaying all calls logged so far with the
      always-locked implementation gives, and the atomics agree with it. */
  lemma ReaderSeesReplay(functions: nat, actions: seq<Action>, id: nat)
    requires id < functions && Run(functions, actions).lock.Free?
    ensures var s := Run(functions, actions);
            id < |s.entries| && s.entries[id].core == Replay(s.log, id) && Settled(s.entries[id])
  {
    Reachable(functions, actions);
    assert EntryInv(Run(functions, actions), id);
  }

  /** Each call that has decided is in the log once, every other call is not. */
  lemma LoggedOnce(functions: nat, actions: seq<Action>, i: nat)
    requires i < |Run(functions, actions).calls|
    ensures var s := Run(functions, actions); var c := s.calls[i];
            if c.Inside? || c.Returned? then
              && c.at < |s.log| && s.log[c.at].call == i && s.log[c.at].m == c.m
              && forall j :: 0 <= j < |s.log| && j != c.at ==> s.log[j].call != i
            else
              forall j :: 0 <= j < |s.log| ==> s.log[j].call != i
  {
    Reachable(functions, actions);
  }

  lemma RunOneMore(functions: nat, actions: seq<Action>, a: Action)
    ensures Run(functions, actions + [a]) == Next(Run(functions, actions), a)
  {
    assert (actions + [a])[..|actions|] == actions;
  }

  lemma {:induction false} LogExtends(functions: nat, actions: seq<Action>, more: seq<Action>)
    ensures Run(functions, actions).log <= Run(functions, actions + more).log
  {
    if more == [] {
      assert actions + more == actions;
    } else {
      hide Run, Next, Inv;
      var n := |more| - 1;
      assert actions + more[..n] + [more[n]] == actions + more;
      RunOneMore(functions, actions + more[..n], more[n]);
      LogExtends(functions, actions, more[..n]);
      Reachable(functions, actions + more[..n]);
      NextKeeps(Run(functions, actions + more[..n]), more[n]);
    }
  }

  // A returned call stays as it is.
  lemma ReturnedStays(s: System, a: Action, i: nat)
    requires i < |s.calls| && s.calls[i].Returned?
    ensures |s.calls| <= |Next(s, a).calls| && Next(s, a).calls[i] == s.calls[i]
  {
  }

  lemma {:induction false} ReturnedForGood(functions: nat, actions: seq<Action>, more: seq<Action>, i: nat)
    requires i < |Run(functions, actions).calls| && Run(functions, actions).calls[i].Returned?
    ensures var t := Run(functions, actions + more); i < |t.calls| && t.calls[i] == Run(functions, actions).calls[i]
  {
    if more == [] {
      assert actions + more == actions;
    } else {
      hide Run, Next;
      var n := |more| - 1;
      assert actions + more[..n] + [more[n]] == actions + more;
      RunOneMore(functions, actions + more[..n], more[n]);
      ReturnedForGood(functions, actions, more[..n], i);
      ReturnedStays(Run(functions, actions + more[..n]), more[n], i);
    }
  }

  /** The log keeps the order of real time: a call that returned before another one started comes
      first.  With ReaderSeesReplay, the store is linearizable. */
  lemma LogKeepsRealTime(functions: nat, actions: seq<Action>, more: seq<Action>, i: nat, j: nat)
    requires var s := Run(functions, actions); i < |s.calls| <= j && s.calls[i].Returned?
    requires var t := Run(functions, actions + more); j < |t.calls| && (t.calls[j].Inside? || t.calls[j].Returned?)
    ensures var t := Run(functions, actions + more);
            i < |t.calls| && t.calls[i].Returned? && t.calls[i].at < t.calls[j].at
  {
    hide Run, Next;
    var s, t := Run(functions, actions), Run(functions, actions + more);
    Reachable(functions, actions);
    Reachable(functions, actions + more);
    ReturnedForGood(functions, actions, more, i);
    LogExtends(functions, actions, more);
    assert forall p :: 0 <= p < |s.log| ==> t.log[p] == s.log[p] && s.log[p].call < |s.calls|;
  }

  /** Whenever the fast path skips, the locked path run then or at any later time would leave the
      entry exactly as it is. */
  lemma SkipIsNoOp(functions: nat, actions: seq<Action>, more: seq<Action>, j: nat)
    requires j < |Run(functions, actions).log| && Run(functions, actions).log[j].skipped
    ensures var s := Run(functions, actions + more); var m := Run(functions, actions).log[j].m;
            && m.id < |s.entries|
            && Apply(Replay(s.log, m.id), m) == Replay(s.log, m.id)
            && (s.lock.Free? ==> LockedMark(s.entries[m.id], m) == s.entries[m.id])
  {
    var s := Run(functions, actions + more);
    LogExtends(functions, actions, more);
    Reachable(functions, actions + more);
    var m := s.log[j].m;
    assert s.calls[s.log[j].call].m == m;
    ReplayGrows(s.log, j, m.id, m);
    CoversIff(Replay(s.log, m.id), m);
    assert EntryInv(s, m.id);
  }

  // The log without the calls that skipped.
  function LockedOnly(log: seq<Logged>): seq<Logged> {
    if log == [] then []
    else
      var n := |log| - 1;
      LockedOnly(log[..n]) + if log[n].skipped then [] else [log[n]]
  }

  lemma {:induction false} SkipsDropped(log: seq<Logged>, id: nat)
    requires SkipsCovered(log) && AllProper(log)
    ensures Replay(LockedOnly(log), id) == Replay(log, id)
  {
    if log != [] {
      var n := |log| - 1;
      assert forall j :: 0 <= j < n ==> log[..n][..j] == log[..j];
      SkipsDropped(log[..n], id);
      if log[n].skipped {
        if log[n].m.id == id { CoversIff(Replay(log[..n], id), log[n].m); }
        assert LockedOnly(log) == LockedOnly(log[..n]);
      } else {
        ReplayOneMore(LockedOnly(log[..n]), log[n], id);
      }
    }
  }

  /** The store equals the sequential execution of all calls, and equally of only those that took
      the lock: the fast path cannot be told from its absence. */
  lemma SkippingIsInvisible(functions: nat, actions: seq<Action>, id: nat)
    requires id < functions
    ensures var s := Run(functions, actions);
            && id < |s.entries| && Replay(LockedOnly(s.log), id) == Replay(s.log, id)
            && (s.lock.Free? ==> s.entries[id].core == Replay(LockedOnly(s.log), id))
  {
    Reachable(functions, actions);
    SkipsDropped(Run(functions, actions).log, id);
    assert EntryInv(Run(functions, actions), id);
  }

  /** Coverage is monotone over a run. */
  lemma StatesGrow(functions: nat, actions: seq<Action>, more: seq<Action>, id: nat)
    requires id < functions && Run(functions, actions).lock.Free? && Run(functions, actions + more).lock.Free?
    ensures var s, t := Run(functions, actions), Run(functions, actions + more);
            && id < |s.entries| && id < |t.entries|
            && Value(s.entries[id].core.state) <= Value(t.entries[id].core.state)
  {
    var s, t := Run(functions, actions), Run(functions, actions + more);
    Reachable(functions, actions + more);
    LogExtends(functions, actions, more);
    ReaderSeesReplay(functions, actions, id);
    ReaderSeesReplay(functions, actions + more, id);
    assert t.log[..|s.log|] == s.log;
    ReplayGrows(t.log, |s.log|, id, Mark(id, Stubbed, "", ""));
  }
}
