/**
 What the store holds after any interleaving of marks, told from the calls alone, and that every
 call gets there: the lock is always given back, no call is stuck, and a call skips the lock exactly
 when the entry already holds what it would add.
 */
module CoverageProgress {
  import opened CoverageLattice
  import opened CoverageInterleaving

  // ----- what the log says -----

  // Entry j of the log is about function id.
  predicate About(log: seq<Logged>, j: nat, id: nat) { j < |log| && log[j].m.id == id }

  // ... and came with a test.
  predicate Tests(log: seq<Logged>, j: nat, id: nat) {
    About(log, j, id) && log[j].m.level in {SmokeTested, ScenarioTested}
  }

  /** The level of a function is the highest that any call marked, and unimplemented if none did. */
  lemma {:induction false} LevelIsHighest(log: seq<Logged>, id: nat)
    ensures forall j: nat :: About(log, j, id) ==> Value(log[j].m.level) <= Value(Replay(log, id).state)
    ensures Replay(log, id).state == Unimplemented
            || exists j: nat :: About(log, j, id) && log[j].m.level == Replay(log, id).state
  {
    if log != [] {
      var n := |log| - 1;
      var before := log[..n];
      LevelIsHighest(before, id);
      ApplyMeans(Replay(before, id), log[n].m);
      forall j: nat | About(log, j, id) ensures Value(log[j].m.level) <= Value(Replay(log, id).state) {
        if j < n { assert About(before, j, id) && before[j] == log[j]; }
      }
      if Replay(log, id).state != Unimplemented {
        if Replay(before, id).state == Replay(log, id).state {
          var j: nat :| About(before, j, id) && before[j].m.level == Replay(before, id).state;
          assert About(log, j, id) && log[j] == before[j];
        } else {
          assert About(log, n, id);
        }
      }
    }
  }

  // Entry j is the first with a test of function id.
  predicate FirstTest(log: seq<Logged>, j: nat, id: nat) {
    Tests(log, j, id) && forall k: nat :: k < j ==> !Tests(log, k, id)
  }

  /** The test ID is that of the first call that marked the function tested, and empty if none did. */
  lemma {:induction false} TestIdIsFirst(log: seq<Logged>, id: nat)
    requires AllProper(log)
    ensures Replay(log, id).testId == "" ==> forall j: nat :: !Tests(log, j, id)
    ensures Replay(log, id).testId != "" ==>
              exists j: nat :: FirstTest(log, j, id) && log[j].m.testId == Replay(log, id).testId
  {
    if log != [] {
      var n := |log| - 1;
      var before := log[..n];
      TestIdIsFirst(before, id);
      ApplyMeans(Replay(before, id), log[n].m);
      assert forall k: nat :: k < n ==> (Tests(before, k, id) <==> Tests(log, k, id));
      if Replay(before, id).testId != "" {
        var j: nat :| FirstTest(before, j, id) && before[j].m.testId == Replay(before, id).testId;
        assert FirstTest(log, j, id);
      } else if Tests(log, n, id) {
        assert FirstTest(log, n, id);
      }
    }
  }

  // Entry j brings a note, and a level at least as high as any before it.
  predicate BringsNote(log: seq<Logged>, j: nat, id: nat) {
    About(log, j, id) && log[j].m.note != ""
    && forall k: nat :: k < j && About(log, k, id) ==> Value(log[k].m.level) <= Value(log[j].m.level)
  }

  /** The note comes from a call that brought a note with the highest level so far; it is empty only if
      there was no such call. */
  lemma {:induction false} NoteIsBrought(log: seq<Logged>, id: nat)
    requires AllProper(log)
    ensures Replay(log, id).notes != "" ==>
              exists j: nat :: BringsNote(log, j, id) && log[j].m.note == Replay(log, id).notes
    ensures Replay(log, id).notes == "" ==> forall j: nat :: !BringsNote(log, j, id)
  {
    if log != [] {
      var n := |log| - 1;
      var before := log[..n];
      NoteIsBrought(before, id);
      LevelIsHighest(before, id);
      ApplyMeans(Replay(before, id), log[n].m);
      forall j: nat | j < n ensures BringsNote(before, j, id) <==> BringsNote(log, j, id) {
        assert forall k: nat :: k < n ==> before[k] == log[k];
      }
      if About(log, n, id) && log[n].m.note != "" { NoteAtEnd(log, id); }
      if Replay(log, id).notes != "" && Replay(log, id).notes == Replay(before, id).notes {
        var j: nat :| BringsNote(before, j, id) && before[j].m.note == Replay(before, id).notes;
        assert BringsNote(log, j, id);
      }
    }
  }

  // Whether the last call brings a note can be seen from the state it finds.
  lemma NoteAtEnd(log: seq<Logged>, id: nat)
    requires AllProper(log) && log != [] && About(log, |log| - 1, id) && log[|log| - 1].m.note != ""
    ensures var n := |log| - 1;
            BringsNote(log, n, id) <==> Value(Replay(log[..n], id).state) <= Value(log[n].m.level)
  {
    var n := |log| - 1;
    var before := log[..n];
    LevelIsHighest(before, id);
    forall k: nat | k < n && About(log, k, id)
      ensures Value(log[k].m.level) <= Value(Replay(before, id).state)
    {
      assert About(before, k, id) && before[k] == log[k];
    }
    if BringsNote(log, n, id) && Replay(before, id).state != Unimplemented {
      var j: nat :| About(before, j, id) && before[j].m.level == Replay(before, id).state;
      assert About(log, j, id) && log[j] == before[j];
    }
  }

  /** In every interleaving, whoever holds the lock to read finds for each function the highest level
      marked so far, the test ID of the first test and a note brought with the highest level. */
  lemma StoreMeans(functions: nat, actions: seq<Action>, id: nat)
    requires id < functions && Run(functions, actions).lock.Free?
    ensures var s := Run(functions, actions); var log := s.log;
            && id < |s.entries|
            && (var c := s.entries[id].core;
                && (forall j: nat :: About(log, j, id) ==> Value(log[j].m.level) <= Value(c.state))
                && (c.state == Unimplemented || exists j: nat :: About(log, j, id) && log[j].m.level == c.state)
                && (c.testId == "" ==> forall j: nat :: !Tests(log, j, id))
                && (c.testId != "" ==> exists j: nat :: FirstTest(log, j, id) && log[j].m.testId == c.testId)
                && (c.notes != "" ==> exists j: nat :: BringsNote(log, j, id) && log[j].m.note == c.notes)
                && (c.notes == "" ==> forall j: nat :: !BringsNote(log, j, id)))
  {
    hide Run, Replay;
    Reachable(functions, actions);
    ReaderSeesReplay(functions, actions, id);
    var log := Run(functions, actions).log;
    LevelIsHighest(log, id);
    TestIdIsFirst(log, id);
    NoteIsBrought(log, id);
  }

  // ----- every call can return -----

  function After(s: System, more: seq<Action>): System
    decreases |more|
  {
    if more == [] then s else After(Next(s, more[0]), more[1..])
  }

  lemma {:induction false} RunAfter(functions: nat, actions: seq<Action>, more: seq<Action>)
    ensures Run(functions, actions + more) == After(Run(functions, actions), more)
    decreases |more|
  {
    hide Next, Run;
    if more == [] {
      assert actions + more == actions;
    } else {
      RunOneMore(functions, actions, more[0]);
      RunAfter(functions, actions + [more[0]], more[1..]);
      assert actions + [more[0]] + more[1..] == actions + more;
    }
  }

  lemma StepFirst(s: System, a: Action, rest: seq<Action>)
    ensures After(s, [a] + rest) == After(Next(s, a), rest)
  {
    hide Next;
    assert ([a] + rest)[1..] == rest;
  }

  lemma {:induction false} AfterBoth(s: System, first: seq<Action>, second: seq<Action>)
    ensures After(s, first + second) == After(After(s, first), second)
    decreases |first|
  {
    hide Next;
    if first == [] {
      assert first + second == second;
    } else {
      AfterBoth(Next(s, first[0]), first[1..], second);
      assert (first + second)[1..] == first[1..] + second;
    }
  }

  function WritesLeft(pc: Pc): nat {
    match pc
    case WriteState => 4
    case WriteTest => 3
    case WriteNote => 2
    case StoreNotesFlag => 1
    case StoreState => 0
  }

  // The call that holds the lock goes on by itself, and gives it back; no other call moves.
  lemma {:induction false} HolderReturns(s: System) returns (more: seq<Action>)
    requires Inv(s) && s.lock.Held?
    ensures var t := After(s, more); var i := s.lock.owner;
            && Inv(t) && t.lock.Free? && |t.calls| == |s.calls| && i < |t.calls| && t.calls[i].Returned?
            && forall j :: 0 <= j < |s.calls| && j != i ==> t.calls[j] == s.calls[j]
    decreases WritesLeft(s.lock.pc)
  {
    hide Written, Replay, EntryInv;
    var i := s.lock.owner;
    var a := Advance(i);
    NextKeeps(s, a);
    assert Next(s, a) == Work(s, i, s.calls[i].m, s.calls[i].at);
    var rest := [];
    if !s.lock.pc.StoreState? { rest := HolderReturns(Next(s, a)); }
    StepFirst(s, a, rest);
    more := [a] + rest;
  }

  predicate Decided(c: Call) { c.Inside? || c.Returned? }

  // With the lock free, an undecided call decides in at most three steps.
  lemma UndecidedDecides(s: System, i: nat) returns (more: seq<Action>)
    requires Inv(s) && s.lock.Free? && i < |s.calls| && !Decided(s.calls[i])
    ensures var t := After(s, more);
            && Inv(t) && |t.calls| == |s.calls| && Decided(t.calls[i])
            && (t.calls[i].Inside? ==> t.lock.Held? && t.lock.owner == i)
    decreases if s.calls[i].LoadState? then 2 else if s.calls[i].LoadNotes? then 1 else 0
  {
    hide Replay, EntryInv, Settled;
    var a := Advance(i);
    NextKeeps(s, a);
    var rest := [];
    if !Decided(Next(s, a).calls[i]) { rest := UndecidedDecides(Next(s, a), i); }
    StepFirst(s, a, rest);
    more := [a] + rest;
  }

  /** From every reachable state every call can return, and the lock can be given back: nobody is stuck. */
  lemma EveryCallCanReturn(functions: nat, actions: seq<Action>, i: nat) returns (more: seq<Action>)
    requires i < |Run(functions, actions).calls|
    ensures var t := Run(functions, actions + more); t.lock.Free? && i < |t.calls| && t.calls[i].Returned?
  {
    hide Run, Next, Inv;
    var s := Run(functions, actions);
    Reachable(functions, actions);
    more := [];
    if s.lock.Held? { more := HolderReturns(s); }
    var t := After(s, more);
    OnlyHolderInside(t);
    if !t.calls[i].Returned? {
      var decide := UndecidedDecides(t, i);
      AfterBoth(s, more, decide);
      more := more + decide;
      var u := After(t, decide);
      OnlyHolderInside(u);
      if u.lock.Held? {
        var finish := HolderReturns(u);
        AfterBoth(s, more, finish);
        more := more + finish;
      }
    }
    RunAfter(functions, actions, more);
  }

  lemma OnlyHolderInside(s: System)
    requires Inv(s)
    ensures forall i :: 0 <= i < |s.calls| && s.calls[i].Inside? ==> s.lock.Held? && s.lock.owner == i
  {
  }

  /** A mark that has returned has taken effect, whether it took the lock or skipped it: from then on
      the entry covers it. */
  lemma ReturnedIsCovered(functions: nat, actions: seq<Action>, i: nat)
    requires var s := Run(functions, actions); s.lock.Free? && i < |s.calls| && s.calls[i].Returned?
    ensures var s := Run(functions, actions); var m := s.calls[i].m;
            m.id < |s.entries| && Covers(s.entries[m.id].core, m)
  {
    hide Run;
    var s := Run(functions, actions);
    var m, at := s.calls[i].m, s.calls[i].at;
    Reachable(functions, actions);
    ReaderSeesReplay(functions, actions, m.id);
    assert s.log[..at + 1][..at] == s.log[..at];
    MarkCovers(Replay(s.log[..at], m.id), m);
    ReplayGrows(s.log, at + 1, m.id, m);
  }

  /** Every mark that the assertions admit can be called at any time, return, and be in effect then. */
  lemma MarkTakesEffect(functions: nat, actions: seq<Action>, m: Mark) returns (more: seq<Action>)
    requires Proper(m) && m.id < functions
    ensures var t := Run(functions, actions + [Start(m)] + more);
            t.lock.Free? && m.id < |t.entries| && Covers(t.entries[m.id].core, m)
  {
    hide Run, Inv;
    var s := Run(functions, actions);
    var started := actions + [Start(m)];
    Reachable(functions, actions);
    StartsCall(functions, actions, m);
    more := EveryCallCanReturn(functions, started, |s.calls|);
    MarkStays(Run(functions, started), more, |s.calls|);
    RunAfter(functions, started, more);
    ReturnedIsCovered(functions, started + more, |s.calls|);
  }

  lemma StartsCall(functions: nat, actions: seq<Action>, m: Mark)
    requires Proper(m) && m.id < |Run(functions, actions).entries|
    ensures var s, t := Run(functions, actions), Run(functions, actions + [Start(m)]);
            t.calls == s.calls + [LoadState(m)]
  {
    RunOneMore(functions, actions, Start(m));
  }

  lemma CallKeepsMark(s: System, a: Action, i: nat)
    requires i < |s.calls|
    ensures i < |Next(s, a).calls| && Next(s, a).calls[i].m == s.calls[i].m
  {
  }

  lemma {:induction false} MarkStays(s: System, more: seq<Action>, i: nat)
    requires i < |s.calls|
    ensures i < |After(s, more).calls| && After(s, more).calls[i].m == s.calls[i].m
    decreases |more|
  {
    hide Next;
    if more != [] {
      CallKeepsMark(s, more[0], i);
      MarkStays(Next(s, more[0]), more[1..], i);
    }
  }

  // ----- when the lock is skipped -----

  /** With nobody in the lock, a call that runs by itself returns without taking it exactly when the
      entry covers its mark; then it takes at most two loads and changes no entry. */
  lemma SkipsIffCovered(functions: nat, actions: seq<Action>, i: nat)
    requires var s := Run(functions, actions); s.lock.Free? && i < |s.calls| && s.calls[i].LoadState?
    ensures var s := Run(functions, actions); var m := s.calls[i].m;
            var one := Next(s, Advance(i)); var two := Next(one, Advance(i));
            && m.id < |s.entries|
            && (two.calls[i].Returned? <==> Covers(s.entries[m.id].core, m))
            && (two.calls[i].Returned? ==> two.entries == s.entries && two.lock.Free?)
            && (!two.calls[i].Returned? ==> one.calls[i].LoadNotes? || two.lock == Held(i, WriteState, Unimplemented))
  {
    hide Run, Replay;
    var s := Run(functions, actions);
    Reachable(functions, actions);
    ReaderSeesReplay(functions, actions, s.calls[i].m.id);
  }
}
