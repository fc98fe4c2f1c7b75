/**
 The coverage store of src/debug/CoverageStore.cpp as an object: monotone per-function states with a
 fast path, and what a mark does to an entry.
 */
module CoverageLattice {
  datatype Coverage =
    | Unimplemented
    | Stubbed
    | Implemented
    | SmokeTested
    | ScenarioTested
    | PerformanceTested
    | Blocked

  function Value(c: Coverage): nat {
    match c
    case Unimplemented => 0
    case Stubbed => 1
    case Implemented => 2
    case SmokeTested => 3
    case ScenarioTested => 4
    case PerformanceTested => 5
    case Blocked => 6
  }

  function MaxState(x: Coverage, y: Coverage): Coverage { if Value(x) > Value(y) then x else y }

  // The fields of an entry that are guarded by the mutex.
  datatype Core = Core(state: Coverage, testId: string, benchmarkId: string, notes: string)

  const EMPTY := Core(Unimplemented, "", "", "")

  // An entry with its two published atomics.
  datatype Entry = Entry(core: Core, published: nat, notesPublished: bool)

  const FRESH := Entry(EMPTY, 0, false)

  // One call of a mark* function on function `id`.
  datatype Mark = Mark(id: nat, level: Coverage, testId: string, note: string)

  predicate NeedsTest(level: Coverage) { level.SmokeTested? || level.ScenarioTested? }

  // What the mark* functions are called with: one of their four levels, and the test ID that the
  // assertions of markSmokeTested and markScenarioTested demand.
  predicate Proper(m: Mark) {
    && (m.level.Stubbed? || m.level.Implemented? || NeedsTest(m.level))
    && (NeedsTest(m.level) ==> m.testId != "")
  }

  predicate FastPathSatisfied(e: Entry, level: Coverage, note: string) {
    e.published >= Value(level) && (note == "" || e.published != Value(level) || e.notesPublished)
  }

  predicate ShouldStoreNote(notes: string, previous: Coverage, level: Coverage, note: string) {
    note != "" && (Value(previous) < Value(level) || (previous == level && notes == ""))
  }

  // The three writes made under the lock.
  function WithState(c: Core, m: Mark): Core { c.(state := MaxState(c.state, m.level)) }
  function WithTest(c: Core, m: Mark): Core {
    if NeedsTest(m.level) && c.testId == "" then c.(testId := m.testId) else c
  }
  function WithNote(c: Core, previous: Coverage, m: Mark): Core {
    if ShouldStoreNote(c.notes, previous, m.level, m.note) then c.(notes := m.note) else c
  }

  // A whole locked call.
  function Apply(c: Core, m: Mark): Core { WithNote(WithTest(WithState(c, m), m), c.state, m) }

  function Published(e: Entry): Entry {
    e.(published := Value(e.core.state), notesPublished := e.notesPublished || e.core.notes != "")
  }

  // The always-locked implementation, on one entry.
  function LockedMark(e: Entry, m: Mark): Entry { Published(e.(core := Apply(e.core, m))) }

  // Smoke-tested or better implies a test ID is set.
  predicate Tested(c: Core) { Value(c.state) >= 3 ==> c.testId != "" }

  // An entry nobody is updating.
  predicate Settled(e: Entry) {
    Tested(e.core) && e.published == Value(e.core.state) && e.notesPublished == (e.core.notes != "")
  }

  // What the fast path relies on: the core already holds everything the mark would add.
  predicate Covers(c: Core, m: Mark) {
    && Value(c.state) >= Value(m.level)
    && (NeedsTest(m.level) ==> c.testId != "")
    && (m.note == "" || c.state != m.level || c.notes != "")
  }

  /** The levels rise in this order. */
  lemma ValueOrder()
    ensures Value(Unimplemented) < Value(Stubbed) < Value(Implemented) < Value(SmokeTested) < Value(ScenarioTested)
            < Value(PerformanceTested) < Value(Blocked)
  {
  }

  /** What a mark leaves behind: the higher of the two levels; the test ID that is there, or the one
      that came with a test; and the new note if it came with a higher level, or with the same level
      when there was none yet. */
  lemma ApplyMeans(c: Core, m: Mark)
    ensures var d := Apply(c, m);
            && d.state in {c.state, m.level} && Value(d.state) >= Value(c.state) && Value(d.state) >= Value(m.level)
            && d.testId == (if c.testId == "" && m.level in {SmokeTested, ScenarioTested} then m.testId else c.testId)
            && d.notes == (if m.note != "" && (Value(c.state) < Value(m.level) || (m.level == c.state && c.notes == ""))
                           then m.note else c.notes)
            && d.benchmarkId == c.benchmarkId
  {
  }

  /** A mark changes nothing exactly when the entry covers it. */
  lemma CoversIff(c: Core, m: Mark)
    requires Proper(m)
    ensures Apply(c, m) == c <==> Covers(c, m)
  {
  }

  /** A mark covers itself. */
  lemma MarkCovers(c: Core, m: Mark)
    requires Proper(m)
    ensures Covers(Apply(c, m), m)
  {
  }

  /** Once covered, covered for good: later marks never undo it, keep test IDs and notes, and touch no
      benchmark ID. */
  lemma CoveredForGood(c: Core, m: Mark, later: Mark)
    requires Proper(later)
    ensures Covers(c, m) ==> Covers(Apply(c, later), m)
    ensures Tested(c) ==> Tested(Apply(c, later))
    ensures Value(c.state) <= Value(Apply(c, later).state)
    ensures c.notes != "" ==> Apply(c, later).notes != ""
    ensures Apply(c, later).benchmarkId == c.benchmarkId
  {
  }

  /** On a settled entry the fast path skips exactly the marks the locked path would not act on,
      and the locked path would then leave the whole entry as it is. */
  lemma FastPathIff(e: Entry, m: Mark)
    requires Settled(e) && Proper(m)
    ensures FastPathSatisfied(e, m.level, m.note) <==> LockedMark(e, m) == e
    ensures Settled(LockedMark(e, m))
  {
    CoversIff(e.core, m);
    CoveredForGood(e.core, m, m);
  }

  // ----- the store as an object -----

  // What a snapshot says about one function.
  datatype Status = Status(core: Core, callCount: nat, unimplementedHitCount: nat)

  // PerformanceTested and Blocked are never set by a mark.
  class Store {
    var entries: array<Entry>
    var calls: array<nat>
    var unimplementedHits: array<nat>

    constructor (functions: nat)
      ensures Valid() && entries.Length == functions && fresh(entries) && fresh(calls) && fresh(unimplementedHits)
      ensures forall id :: 0 <= id < functions ==> entries[id] == FRESH && calls[id] == 0 == unimplementedHits[id]
    {
      entries := new Entry[functions](_ => FRESH);
      calls := new nat[functions](_ => 0);
      unimplementedHits := new nat[functions](_ => 0);
    }

    ghost predicate Valid()
      reads this, entries
    {
      && entries.Length == calls.Length == unimplementedHits.Length && calls != unimplementedHits
      && forall id :: 0 <= id < entries.Length ==> Settled(entries[id])
    }

    method RecordCall(id: nat)
      requires Valid() && id < entries.Length
      modifies calls
      ensures calls[..] == old(calls[..])[id := old(calls[id]) + 1]
    {
      calls[id] := calls[id] + 1;
    }

    method RecordUnimplementedHit(id: nat)
      requires Valid() && id < entries.Length
      modifies unimplementedHits
      ensures unimplementedHits[..] == old(unimplementedHits[..])[id := old(unimplementedHits[id]) + 1]
    {
      unimplementedHits[id] := unimplementedHits[id] + 1;
    }

    // publishStateLocked
    method Publish(id: nat)
      requires id < entries.Length
      modifies entries
      ensures entries[..] == old(entries[..])[id := Published(old(entries[id]))]
    {
      if entries[id].core.notes != "" {
        entries[id] := entries[id].(notesPublished := true);
      }
      entries[id] := entries[id].(published := Value(entries[id].core.state));
    }

    /** markImplemented: the fast path cannot be told from always taking the lock.  So for the
        three marks below. */
    method MarkImplemented(id: nat, note: string)
      requires Valid() && id < entries.Length
      modifies entries
      ensures Valid()
      ensures entries[..] == old(entries[..])[id := LockedMark(old(entries[id]), Mark(id, Implemented, "", note))]
    {
      ghost var m := Mark(id, Implemented, "", note);
      FastPathIff(entries[id], m);
      if FastPathSatisfied(entries[id], Implemented, note) { return; }
      var status := entries[id].core;
      var previous := status.state;
      status := status.(state := MaxState(status.state, Implemented));
      if ShouldStoreNote(status.notes, previous, Implemented, note) {
        status := status.(notes := note);
      }
      entries[id] := entries[id].(core := status);
      Publish(id);
    }

    method MarkStubbed(id: nat, note: string)
      requires Valid() && id < entries.Length
      modifies entries
      ensures Valid()
      ensures entries[..] == old(entries[..])[id := LockedMark(old(entries[id]), Mark(id, Stubbed, "", note))]
    {
      ghost var m := Mark(id, Stubbed, "", note);
      FastPathIff(entries[id], m);
      if FastPathSatisfied(entries[id], Stubbed, note) { return; }
      var status := entries[id].core;
      var previous := status.state;
      status := status.(state := MaxState(status.state, Stubbed));
      if ShouldStoreNote(status.notes, previous, Stubbed, note) {
        status := status.(notes := note);
      }
      entries[id] := entries[id].(core := status);
      Publish(id);
    }

    method MarkSmokeTested(id: nat, testId: string, note: string)
      requires Valid() && id < entries.Length && testId != ""
      modifies entries
      ensures Valid()
      ensures entries[..] == old(entries[..])[id := LockedMark(old(entries[id]), Mark(id, SmokeTested, testId, note))]
    {
      ghost var m := Mark(id, SmokeTested, testId, note);
      FastPathIff(entries[id], m);
      if FastPathSatisfied(entries[id], SmokeTested, note) { return; }
      var status := entries[id].core;
      var previous := status.state;
      status := status.(state := MaxState(status.state, SmokeTested));
      if status.testId == "" {
        status := status.(testId := testId);
      }
      if ShouldStoreNote(status.notes, previous, SmokeTested, note) {
        status := status.(notes := note);
      }
      entries[id] := entries[id].(core := status);
      Publish(id);
    }

    method MarkScenarioTested(id: nat, testId: string, note: string)
      requires Valid() && id < entries.Length && testId != ""
      modifies entries
      ensures Valid()
      ensures entries[..]
              == old(entries[..])[id := LockedMark(old(entries[id]), Mark(id, ScenarioTested, testId, note))]
    {
      ghost var m := Mark(id, ScenarioTested, testId, note);
      FastPathIff(entries[id], m);
      if FastPathSatisfied(entries[id], ScenarioTested, note) { return; }
      var status := entries[id].core;
      var previous := status.state;
      status := status.(state := MaxState(status.state, ScenarioTested));
      if status.testId == "" {
        status := status.(testId := testId);
      }
      if ShouldStoreNote(status.notes, previous, ScenarioTested, note) {
        status := status.(notes := note);
      }
      entries[id] := entries[id].(core := status);
      Publish(id);
    }

    /** snapshotStatuses: the guarded fields and the two counters of every function. */
    method SnapshotStatuses() returns (snapshot: seq<Status>)
      requires Valid()
      ensures |snapshot| == entries.Length
      ensures forall id :: 0 <= id < entries.Length ==>
                snapshot[id] == Status(entries[id].core, calls[id], unimplementedHits[id])
    {
      snapshot := [];
      for id := 0 to entries.Length
        invariant |snapshot| == id
        invariant forall j :: 0 <= j < id ==> snapshot[j] == Status(entries[j].core, calls[j], unimplementedHits[j])
      {
        snapshot := snapshot + [Status(entries[id].core, calls[id], unimplementedHits[id])];
      }
    }
  }
}
