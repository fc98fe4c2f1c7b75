/**
 The memory-pressure machine of src/context/MetalMemoryPressure.h: a four-state machine with
 separate enter and exit watermarks, its transition counters, and the fixed-point ratio it
 compares.
 */
module MemoryPressure {
  import opened Arithmetic

  const U64_MAX: nat := 0xffff_ffff_ffff_ffff

  type U64 = x: nat | x <= 0xffff_ffff_ffff_ffff

  datatype State = Idle | Soft | Hard | Critical

  datatype OsLevel = None | Warning | CriticalOs

  datatype WorkingSetClass = UnknownClass | LowClass | MidClass | HighClass

  datatype Watermarks = Watermarks(softTarget: U64, hardTarget: U64, criticalTarget: U64,
                                   softExit: U64, hardExit: U64, criticalExit: U64)

  // The inputs the machine reads.
  datatype Inputs = Inputs(allocatedBytes: U64, recommendedBytes: U64, recommendedAvailable: U64, osPressure: U64)

  function OsLevelOf(v: U64): OsLevel {
    if v >= 2 then CriticalOs else if v == 1 then Warning else None
  }

  // ----- the ratio -----

  function Permyriad(numerator: U64, denominator: U64): U64 {
    if denominator == 0 then 0
    else
      var scaled := numerator * 10000 / denominator;
      if scaled > U64_MAX then U64_MAX else scaled
  }

  /** Comparing the rounded and saturated ratio with any threshold is exact: it decides
      10000 * numerator >= threshold * denominator. */
  lemma PermyriadExact(numerator: U64, denominator: U64, threshold: U64)
    requires denominator > 0
    ensures Permyriad(numerator, denominator) >= threshold <==> 10000 * numerator >= threshold * denominator
  {
    QuotientAtLeast(numerator * 10000, denominator, threshold);
  }

  // ----- the tables -----

  function ClassFor(recommended: U64, available: bool): WorkingSetClass {
    if !available || recommended == 0 then UnknownClass
    else if recommended < 8 * 0x4000_0000 then LowClass
    else if recommended >= 24 * 0x4000_0000 then HighClass
    else MidClass
  }

  function WatermarksFor(c: WorkingSetClass): Watermarks {
    match c
    case LowClass => Watermarks(7000, 9000, 10000, 6200, 8000, 9000)
    case HighClass => Watermarks(8800, 11000, 12500, 8000, 10000, 11000)
    case _ => Watermarks(8000, 10000, 11000, 7200, 9000, 10000)
  }

  // ----- the machine -----

  function NextState(current: State, os: OsLevel, w: Watermarks, ratio: U64, valid: bool): State {
    if os.CriticalOs? then Critical
    else if !valid then (if os.Warning? then Soft else Idle)
    else
      match current
      case Critical =>
        if ratio >= w.criticalExit then Critical
        else if ratio >= w.hardExit then Hard
        else if ratio >= w.softExit || os.Warning? then Soft
        else Idle
      case Hard =>
        if ratio >= w.criticalTarget then Critical
        else if ratio >= w.hardExit then Hard
        else if ratio >= w.softExit || os.Warning? then Soft
        else Idle
      case Soft =>
        if ratio >= w.criticalTarget then Critical
        else if ratio >= w.hardTarget then Hard
        else if ratio >= w.softExit || os.Warning? then Soft
        else Idle
      case Idle =>
        if ratio >= w.criticalTarget then Critical
        else if ratio >= w.hardTarget then Hard
        else if ratio >= w.softTarget || os.Warning? then Soft
        else Idle
  }

  // ----- three Schmitt triggers -----

  type Level = k: int | 1 <= k <= 3 witness 1

  function Rank(s: State): int {
    match s
    case Idle => 0
    case Soft => 1
    case Hard => 2
    case Critical => 3
  }

  // The thermometer code of a state: its lowest Rank(s) levels are on.
  predicate On(s: State, k: Level) { Rank(s) >= k }

  function Target(w: Watermarks, k: Level): U64 {
    if k == 1 then w.softTarget else if k == 2 then w.hardTarget else w.criticalTarget
  }

  function Exit(w: Watermarks, k: Level): U64 {
    if k == 1 then w.softExit else if k == 2 then w.hardExit else w.criticalExit
  }

  // A Schmitt trigger: switched on at the target, off below the exit.
  predicate Trigger(on: bool, w: Watermarks, k: Level, ratio: U64) {
    ratio >= if on then Exit(w, k) else Target(w, k)
  }

  // Each sequence of watermarks rises, and no lower exit exceeds a higher target.
  predicate Rising(w: Watermarks) {
    && w.softTarget <= w.hardTarget <= w.criticalTarget
    && w.softExit <= w.hardExit <= w.criticalExit
    && w.softExit <= w.hardTarget && w.hardExit <= w.criticalTarget
  }

  // No level is left only above where it is entered.
  predicate Hysteresis(w: Watermarks) { forall k: Level :: Exit(w, k) <= Target(w, k) }

  // Without an OS level every bit of the next state is an independent trigger.
  ghost predicate IsThreeTriggers(w: Watermarks) {
    forall s: State, ratio: U64, k: Level ::
      On(NextState(s, None, w, ratio, true), k) <==> Trigger(On(s, k), w, k, ratio)
  }

  lemma TriggerStep(w: Watermarks, s: State, ratio: U64, k: Level)
    requires Rising(w)
    ensures On(NextState(s, None, w, ratio, true), k) <==> Trigger(On(s, k), w, k, ratio)
  {
  }

  // One instance of IsThreeTriggers.
  lemma Instance(w: Watermarks, s: State, ratio: U64, k: Level)
    requires IsThreeTriggers(w)
    ensures On(NextState(s, None, w, ratio, true), k) <==> Trigger(On(s, k), w, k, ratio)
  {
  }

  /** The machine is three independent Schmitt triggers exactly when its watermarks rise. */
  lemma ThreeTriggersIff(w: Watermarks)
    ensures IsThreeTriggers(w) <==> Rising(w)
  {
    if Rising(w) {
      forall s: State, ratio: U64, k: Level
        ensures On(NextState(s, None, w, ratio, true), k) <==> Trigger(On(s, k), w, k, ratio)
      {
        TriggerStep(w, s, ratio, k);
      }
    }
    if IsThreeTriggers(w) { TriggersRise(w); }
  }

  // Each pair of watermarks, seen from a state in which the higher one is tested first.
  lemma TriggersRise(w: Watermarks)
    requires IsThreeTriggers(w)
    ensures Rising(w)
  {
    hide IsThreeTriggers;
    Instance(w, Idle, w.hardTarget, 1);
    Instance(w, Idle, w.criticalTarget, 2);
    Instance(w, Critical, w.hardExit, 1);
    Instance(w, Critical, w.criticalExit, 2);
    Instance(w, Soft, w.hardTarget, 1);
    Instance(w, Hard, w.criticalTarget, 2);
  }

  /** The OS override on top: a warning keeps the soft level on, a critical OS level all three, and
      an unknown ratio none. */
  lemma TriggersWithOverride(s: State, os: OsLevel, w: Watermarks, ratio: U64, valid: bool, k: Level)
    requires Rising(w)
    ensures On(NextState(s, os, w, ratio, valid), k)
            <==> os.CriticalOs? || (os.Warning? && k == 1) || (valid && Trigger(On(s, k), w, k, ratio))
  {
    ThreeTriggersIff(w);
    if valid && os.Warning? {
      assert On(NextState(s, None, w, ratio, true), k) <==> Trigger(On(s, k), w, k, ratio);
      assert On(NextState(s, None, w, ratio, true), 1) <==> Trigger(On(s, 1), w, 1, ratio);
    }
  }

  function Severity(os: OsLevel): nat {
    match os
    case None => 0
    case Warning => 1
    case CriticalOs => 2
  }

  // The test of level k in state s: its trigger, or the warning for the soft level.
  predicate Passes(s: State, os: OsLevel, w: Watermarks, ratio: U64, k: Level) {
    Trigger(On(s, k), w, k, ratio) || (os.Warning? && k == 1)
  }

  /** For any watermarks whatever, rising or not: the next state is the highest level whose test
      passes, and idle if none does. */
  lemma HighestTestWins(s: State, os: OsLevel, w: Watermarks, ratio: U64, k: Level)
    requires !os.CriticalOs?
    ensures Rank(NextState(s, os, w, ratio, true)) == k
            <==> Passes(s, os, w, ratio, k) && forall j: Level :: j > k ==> !Passes(s, os, w, ratio, j)
  {
    assert Trigger(On(s, 2), w, 2, ratio) == Passes(s, os, w, ratio, 2);
    assert Trigger(On(s, 3), w, 3, ratio) == Passes(s, os, w, ratio, 3);
  }

  // A higher state, ratio or OS level never gives a lower next state.
  ghost predicate Monotone(w: Watermarks) {
    forall s: State, t: State, r: U64, q: U64, os: OsLevel, os': OsLevel
      {:trigger NextState(s, os, w, r, true), NextState(t, os', w, q, true)} ::
      Rank(s) <= Rank(t) && r <= q && Severity(os) <= Severity(os') ==>
        Rank(NextState(s, os, w, r, true)) <= Rank(NextState(t, os', w, q, true))
  }

  // A second sample with the same input changes nothing.
  ghost predicate Idempotent(w: Watermarks) {
    forall s: State, r: U64, os: OsLevel {:trigger NextState(s, os, w, r, true)} ::
      NextState(NextState(s, os, w, r, true), os, w, r, true) == NextState(s, os, w, r, true)
  }

  /** For rising watermarks, monotonicity and idempotence under constant input both hold exactly
      when every level has its exit at or below its target. */
  lemma StableIff(w: Watermarks)
    requires Rising(w)
    ensures Monotone(w) <==> Hysteresis(w)
    ensures Idempotent(w) <==> Hysteresis(w)
  {
    if Hysteresis(w) {
      forall s: State, t: State, r: U64, q: U64, os: OsLevel, os': OsLevel
        | Rank(s) <= Rank(t) && r <= q && Severity(os) <= Severity(os')
        ensures Rank(NextState(s, os, w, r, true)) <= Rank(NextState(t, os', w, q, true))
      {
        MonotoneStep(w, s, t, r, q, os, os');
      }
      forall s: State, r: U64, os: OsLevel
        ensures NextState(NextState(s, os, w, r, true), os, w, r, true) == NextState(s, os, w, r, true)
      {
        IdempotentStep(w, s, r, os);
      }
    } else {
      var k: Level :| Exit(w, k) > Target(w, k);
      var r := Target(w, k);
      TriggersWithOverride(Idle, None, w, r, true, k);
      TriggersWithOverride(Critical, None, w, r, true, k);
      assert !Monotone(w) by {
        assert Rank(NextState(Idle, None, w, r, true)) > Rank(NextState(Critical, None, w, r, true));
      }
      var s := NextState(Idle, None, w, r, true);
      TriggersWithOverride(s, None, w, r, true, k);
      assert NextState(s, None, w, r, true) != s;
    }
  }

  // A state is below another when each of its levels is.
  lemma BelowByLevels(s: State, t: State)
    requires forall k: Level :: On(s, k) ==> On(t, k)
    ensures Rank(s) <= Rank(t)
  {
    assert (On(s, 1) ==> On(t, 1)) && (On(s, 2) ==> On(t, 2)) && (On(s, 3) ==> On(t, 3));
  }

  lemma MonotoneStep(w: Watermarks, s: State, t: State, r: U64, q: U64, os: OsLevel, os': OsLevel)
    requires Rising(w) && Hysteresis(w) && Rank(s) <= Rank(t) && r <= q && Severity(os) <= Severity(os')
    ensures Rank(NextState(s, os, w, r, true)) <= Rank(NextState(t, os', w, q, true))
  {
    forall k: Level ensures On(NextState(s, os, w, r, true), k) ==> On(NextState(t, os', w, q, true), k) {
      TriggersWithOverride(s, os, w, r, true, k);
      TriggersWithOverride(t, os', w, q, true, k);
      assert Exit(w, k) <= Target(w, k);
    }
    BelowByLevels(NextState(s, os, w, r, true), NextState(t, os', w, q, true));
  }

  lemma IdempotentStep(w: Watermarks, s: State, r: U64, os: OsLevel)
    requires Rising(w) && Hysteresis(w)
    ensures NextState(NextState(s, os, w, r, true), os, w, r, true) == NextState(s, os, w, r, true)
  {
    var t := NextState(s, os, w, r, true);
    forall k: Level ensures On(NextState(t, os, w, r, true), k) <==> On(t, k) {
      TriggersWithOverride(s, os, w, r, true, k);
      TriggersWithOverride(t, os, w, r, true, k);
      assert Exit(w, k) <= Target(w, k);
    }
    BelowByLevels(t, NextState(t, os, w, r, true));
    BelowByLevels(NextState(t, os, w, r, true), t);
  }

  // The shipped watermarks in percent of the recommended working set, below 8 GiB, from 24 GiB on, and
  // in between: where level k is left, and where it is entered.
  function Percent(recommended: nat, k: Level, on: bool): nat {
    var small, large := recommended < 8 * 1024 * 1024 * 1024, recommended >= 24 * 1024 * 1024 * 1024;
    match k
    case 1 => if on then (if small then 62 else if large then 80 else 72)
              else (if small then 70 else if large then 88 else 80)
    case 2 => if on then (if small then 80 else if large then 100 else 90)
              else (if small then 90 else if large then 110 else 100)
    case _ => if on then (if small then 90 else if large then 110 else 100)
              else (if small then 100 else if large then 125 else 110)
  }

  lemma ShippedPercent(recommended: U64, k: Level)
    requires recommended > 0
    ensures var w := WatermarksFor(ClassFor(recommended, true));
            Exit(w, k) == 100 * Percent(recommended, k, true) && Target(w, k) == 100 * Percent(recommended, k, false)
  {
  }

  /** Every shipped table rises and has hysteresis, of at least 800 permyriad at every level. */
  lemma ShippedTables(recommended: U64, available: bool, k: Level)
    ensures var w := WatermarksFor(ClassFor(recommended, available));
            Rising(w) && Hysteresis(w) && Exit(w, k) + 800 <= Target(w, k)
  {
  }

  // ----- counters -----

  datatype Counts = Counts(state: State, transitions: nat, toSoft: nat, toHard: nat, toCritical: nat)

  function Recorded(c: Counts, next: State): (c': Counts)
    ensures c'.state == next
    ensures c'.transitions == c.transitions + if next == c.state then 0 else 1
  {
    if next == c.state then c
    else
      Counts(next, c.transitions + 1,
             c.toSoft + (if next.Soft? then 1 else 0),
             c.toHard + (if next.Hard? then 1 else 0),
             c.toCritical + (if next.Critical? then 1 else 0))
  }

  predicate RatioValid(i: Inputs) { i.recommendedAvailable != 0 && i.recommendedBytes != 0 }

  function Ratio(i: Inputs): U64 { if RatioValid(i) then Permyriad(i.allocatedBytes, i.recommendedBytes) else 0 }

  function Next(s: State, i: Inputs, w: Watermarks): State {
    NextState(s, OsLevelOf(i.osPressure), w, Ratio(i), RatioValid(i))
  }

  /** What a sample decides, with no rounding left in it: each level compares the exact ratio of the
      byte counts with its exit or target watermark. */
  lemma SampleDecides(s: State, i: Inputs, w: Watermarks, k: Level)
    requires Rising(w)
    ensures On(Next(s, i, w), k) <==>
            || i.osPressure >= 2
            || (i.osPressure == 1 && k == 1)
            || (i.recommendedAvailable != 0 && i.recommendedBytes != 0
                && 10000 * i.allocatedBytes >= (if On(s, k) then Exit(w, k) else Target(w, k)) * i.recommendedBytes)
  {
    TriggersWithOverride(s, OsLevelOf(i.osPressure), w, Ratio(i), RatioValid(i), k);
    if RatioValid(i) {
      PermyriadExact(i.allocatedBytes, i.recommendedBytes, if On(s, k) then Exit(w, k) else Target(w, k));
    }
  }

  lemma Hundredfold(x: nat, y: nat, p: nat)
    ensures 10000 * x >= 100 * p * y <==> 100 * x >= p * y
  {
    assert 100 * p * y == 100 * (p * y);
  }

  /** The shipped machine in bytes: with the watermarks of its working-set class, level k is on after a
      sample exactly when the OS says so or the allocation is at least the percentage of the
      recommended working set that is shipped for that size. */
  lemma ShippedSample(s: State, i: Inputs, k: Level)
    requires i.recommendedAvailable != 0 && i.recommendedBytes != 0
    ensures On(Next(s, i, WatermarksFor(ClassFor(i.recommendedBytes, true))), k) <==>
            || i.osPressure >= 2
            || (i.osPressure == 1 && k == 1)
            || 100 * i.allocatedBytes >= Percent(i.recommendedBytes, k, On(s, k)) * i.recommendedBytes
  {
    hide Next, Percent, WatermarksFor;
    ShippedTables(i.recommendedBytes, true, k);
    ShippedPercent(i.recommendedBytes, k);
    SampleDecides(s, i, WatermarksFor(ClassFor(i.recommendedBytes, true)), k);
    Hundredfold(i.allocatedBytes, i.recommendedBytes, Percent(i.recommendedBytes, k, On(s, k)));
  }

  /** Without a usable recommendation only the OS level counts, and the watermarks are those of a
      working set between 8 and 24 GiB. */
  lemma UnknownRatioSample(s: State, i: Inputs, w: Watermarks, mid: U64)
    requires i.recommendedAvailable == 0 || i.recommendedBytes == 0
    requires 8 * 1024 * 1024 * 1024 <= mid < 24 * 1024 * 1024 * 1024
    ensures Next(s, i, w) == (if i.osPressure >= 2 then Critical else if i.osPressure == 1 then Soft else Idle)
    ensures WatermarksFor(ClassFor(i.recommendedBytes, i.recommendedAvailable != 0))
            == WatermarksFor(ClassFor(mid, true))
  {
  }

  datatype Snapshot = Snapshot(inputs: Inputs, watermarks: Watermarks, ratio: U64, valid: bool, workingSetRatio: real,
                               counts: Counts)

  // The ratio for display, without the rounding of a double.
  function WorkingSetRatio(i: Inputs): real {
    if RatioValid(i) then i.allocatedBytes as real / i.recommendedBytes as real else 0.0
  }

  /** The displayed ratio is the exact quotient of the byte counts, 0 if there is none. */
  lemma WorkingSetRatioExact(i: Inputs)
    ensures i.recommendedAvailable != 0 && i.recommendedBytes != 0 ==>
              WorkingSetRatio(i) * i.recommendedBytes as real == i.allocatedBytes as real
    ensures i.recommendedAvailable == 0 || i.recommendedBytes == 0 ==> WorkingSetRatio(i) == 0.0
  {
  }

  class Machine {
    var state: State
    var transitions: nat
    var toSoft: nat
    var toHard: nat
    var toCritical: nat

    constructor ()
      ensures Value() == Counts(Idle, 0, 0, 0, 0)
    {
      state, transitions, toSoft, toHard, toCritical := Idle, 0, 0, 0, 0;
    }

    function Value(): Counts
      reads this
    {
      Counts(state, transitions, toSoft, toHard, toCritical)
    }

    method RecordTransition(previous: State, next: State)
      modifies this`transitions, this`toSoft, this`toHard, this`toCritical
      ensures Value().(state := next) == Recorded(old(Value()).(state := previous), next)
    {
      if previous == next { return; }
      transitions := transitions + 1;
      match next {
        case Soft => toSoft := toSoft + 1;
        case Hard => toHard := toHard + 1;
        case Critical => toCritical := toCritical + 1;
        case Idle =>
      }
    }

    /** sampleMetalMemoryPressure. */
    method Sample(i: Inputs, w: Watermarks) returns (snapshot: Snapshot)
      modifies this
      ensures Value() == Recorded(old(Value()), Next(old(state), i, w))
      ensures snapshot == Snapshot(i, w, Ratio(i), RatioValid(i), WorkingSetRatio(i), Value())
    {
      var valid := i.recommendedAvailable != 0 && i.recommendedBytes != 0;
      var ratio := if valid then Permyriad(i.allocatedBytes, i.recommendedBytes) else 0;
      var previous := state;
      var next := NextState(previous, OsLevelOf(i.osPressure), w, ratio, valid);
      RecordTransition(previous, next);
      state := next;
      var workingSetRatio := if valid then i.allocatedBytes as real / i.recommendedBytes as real else 0.0;
      snapshot := Snapshot(i, w, ratio, valid, workingSetRatio, Value());
    }
  }

  // ----- whole runs -----

  // The machine after a sequence of samples.
  function After(c: Counts, run: seq<Inputs>, w: Watermarks): Counts {
    if run == [] then c
    else var p := After(c, run[..|run| - 1], w); Recorded(p, Next(p.state, run[|run| - 1], w))
  }

  // The states it goes through.
  function Trace(c: Counts, run: seq<Inputs>, w: Watermarks): (states: seq<State>)
    ensures |states| == |run| + 1 && states[0] == c.state && states[|run|] == After(c, run, w).state
  {
    if run == [] then [c.state]
    else Trace(c, run[..|run| - 1], w) + [After(c, run, w).state]
  }

  // The number of times a trace enters one of the given states from another state.
  function Entries(states: seq<State>, into: set<State>): nat {
    if |states| < 2 then 0
    else
      var n := |states| - 1;
      Entries(states[..n], into) + if states[n] in into && states[n] != states[n - 1] then 1 else 0
  }

  /** The counters count exactly the state changes of the run, in total and by state entered. */
  lemma {:induction false} CountersCountChanges(c: Counts, run: seq<Inputs>, w: Watermarks)
    ensures var d := After(c, run, w); var states := Trace(c, run, w);
            && d.transitions == c.transitions + Entries(states, {Idle, Soft, Hard, Critical})
            && d.toSoft == c.toSoft + Entries(states, {Soft})
            && d.toHard == c.toHard + Entries(states, {Hard})
            && d.toCritical == c.toCritical + Entries(states, {Critical})
  {
    if run != [] {
      var n := |run| - 1;
      CountersCountChanges(c, run[..n], w);
      assert Trace(c, run, w)[..n + 1] == Trace(c, run[..n], w);
    }
  }

  // ----- no chatter -----

  // All samples have a known ratio and the same OS level, which is not critical.
  predicate Steady(run: seq<Inputs>, os: OsLevel) {
    !os.CriticalOs? && forall j :: 0 <= j < |run| ==> RatioValid(run[j]) && OsLevelOf(run[j].osPressure) == os
  }

  // No sample reaches the target of level k, or none is below its exit.
  predicate NeverReaches(run: seq<Inputs>, w: Watermarks, k: Level) {
    forall j :: 0 <= j < |run| ==> Ratio(run[j]) < Target(w, k)
  }
  predicate NeverLeaves(run: seq<Inputs>, w: Watermarks, k: Level) {
    forall j :: 0 <= j < |run| ==> Ratio(run[j]) >= Exit(w, k)
  }

  // A warning keeps the soft level on, whatever the ratio.
  predicate KeptOn(k: Level, os: OsLevel) { k == 1 && os.Warning? }

  // The run holds no crossing pair of any level that the ratio decides.
  predicate NoCrossing(run: seq<Inputs>, os: OsLevel, w: Watermarks) {
    forall k: Level :: KeptOn(k, os) || NeverReaches(run, w, k) || NeverLeaves(run, w, k)
  }

  // 1 when level k can still flip: on, though its target is never reached, or off, though its
  // exit is never undercut.
  function CanFlip(s: State, k: Level, os: OsLevel, down: bool): nat {
    if KeptOn(k, os) then (if On(s, k) then 0 else 1)
    else if down == On(s, k) then 1 else 0
  }

  function Flips(s: State, os: OsLevel, down: Level -> bool): nat {
    CanFlip(s, 1, os, down(1)) + CanFlip(s, 2, os, down(2)) + CanFlip(s, 3, os, down(3))
  }

  // Every change of state uses up a flip.
  lemma FlipStep(s: State, i: Inputs, os: OsLevel, w: Watermarks, down: Level -> bool)
    requires Rising(w) && Hysteresis(w) && RatioValid(i) && OsLevelOf(i.osPressure) == os && !os.CriticalOs?
    requires forall k: Level :: KeptOn(k, os) || if down(k) then Ratio(i) < Target(w, k) else Ratio(i) >= Exit(w, k)
    ensures Flips(Next(s, i, w), os, down) + (if Next(s, i, w) == s then 0 else 1) <= Flips(s, os, down)
  {
    var t := Next(s, i, w);
    forall k: Level
      ensures CanFlip(t, k, os, down(k)) + (if On(t, k) == On(s, k) then 0 else 1) <= CanFlip(s, k, os, down(k))
    {
      TriggersWithOverride(s, os, w, Ratio(i), true, k);
      assert Exit(w, k) <= Target(w, k);
    }
    if t != s {
      assert On(t, 1) != On(s, 1) || On(t, 2) != On(s, 2) || On(t, 3) != On(s, 3);
    }
  }

  lemma {:induction false} FlipsBound(c: Counts, run: seq<Inputs>, os: OsLevel, w: Watermarks, down: Level -> bool)
    requires Rising(w) && Hysteresis(w) && Steady(run, os)
    requires forall k: Level :: KeptOn(k, os) || if down(k) then NeverReaches(run, w, k) else NeverLeaves(run, w, k)
    ensures var d := After(c, run, w);
            d.transitions - c.transitions + Flips(d.state, os, down) <= Flips(c.state, os, down)
  {
    if run != [] {
      var n := |run| - 1;
      FlipsBound(c, run[..n], os, w, down);
      FlipStep(After(c, run[..n], w).state, run[n], os, w, down);
    }
  }

  /** However long the run: if its ratios hold no crossing pair of any level (of the hard and the
      critical level, under a warning), there are at most three transitions. */
  lemma NoChatter(c: Counts, run: seq<Inputs>, os: OsLevel, w: Watermarks)
    requires Rising(w) && Hysteresis(w) && Steady(run, os) && NoCrossing(run, os, w)
    ensures c.transitions <= After(c, run, w).transitions <= c.transitions + 3
  {
    var down := (k: Level) => NeverReaches(run, w, k);
    FlipsBound(c, run, os, w, down);
    TransitionsGrow(c, run, w);
  }

  lemma {:induction false} TransitionsGrow(c: Counts, run: seq<Inputs>, w: Watermarks)
    ensures c.transitions <= After(c, run, w).transitions
  {
    if run != [] { TransitionsGrow(c, run[..|run| - 1], w); }
  }

  /** For the shipped tables any window of ratios at most 800 permyriad wide will do. */
  lemma NarrowWindowIsQuiet(c: Counts, run: seq<Inputs>, os: OsLevel, low: U64, recommended: U64, available: bool)
    requires Steady(run, os)
    requires forall j :: 0 <= j < |run| ==> low <= Ratio(run[j]) <= low + 800
    ensures After(c, run, WatermarksFor(ClassFor(recommended, available))).transitions <= c.transitions + 3
  {
    var w := WatermarksFor(ClassFor(recommended, available));
    forall k: Level ensures NeverReaches(run, w, k) || NeverLeaves(run, w, k) {
      ShippedTables(recommended, available, k);
    }
    ShippedTables(recommended, available, 1);
    NoChatter(c, run, os, w);
  }

  /** The condition is tight: two inputs that do cross a level the ratio decides make every sample of
      their alternation a transition. */
  lemma {:induction false} CrossingChatters(
      c: Counts, up: Inputs, dn: Inputs, os: OsLevel, w: Watermarks, k: Level, run: seq<Inputs>)
    requires Rising(w) && Hysteresis(w) && Steady([up, dn], os) && !KeptOn(k, os)
    requires Ratio(up) >= Target(w, k) && Ratio(dn) < Exit(w, k) && !On(c.state, k)
    requires forall j :: 0 <= j < |run| ==> run[j] == if j % 2 == 0 then up else dn
    ensures After(c, run, w).transitions == c.transitions + |run|
    ensures On(After(c, run, w).state, k) <==> |run| % 2 == 1
  {
    hide NextState, Permyriad, Next, Ratio, Hysteresis;
    assert [up, dn][0] == up && [up, dn][1] == dn;
    if run != [] {
      var n := |run| - 1;
      CrossingChatters(c, up, dn, os, w, k, run[..n]);
      assert [up, dn][n % 2] == run[n];
      LevelFollows(After(c, run[..n], w).state, run[n], os, w, k);
    }
  }

  // An input above the target turns the level on, one below the exit turns it off.
  lemma LevelFollows(s: State, i: Inputs, os: OsLevel, w: Watermarks, k: Level)
    requires Rising(w) && Hysteresis(w) && RatioValid(i) && OsLevelOf(i.osPressure) == os
    requires !os.CriticalOs? && !KeptOn(k, os)
    ensures Ratio(i) >= Target(w, k) ==> On(Next(s, i, w), k)
    ensures Ratio(i) < Exit(w, k) ==> !On(Next(s, i, w), k)
  {
    TriggersWithOverride(s, os, w, Ratio(i), true, k);
    assert Exit(w, k) <= Target(w, k);
  }
}
