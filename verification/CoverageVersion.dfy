/**
 The version walk of src/debug/CoverageStore.cpp: the highest core version all of whose entry
 points have been smoke-tested.
 */
module CoverageVersion {
  import opened CoverageLattice
  import I = CoverageInterleaving

  // The order in which std::string_view compares.
  predicate AtMost(x: string, y: string) {
    x == "" || (y != "" && (x[0] < y[0] || (x[0] == y[0] && AtMost(x[1..], y[1..]))))
  }

  lemma {:induction false} AtMostTransitive(x: string, y: string, z: string)
    requires AtMost(x, y) && AtMost(y, z)
    ensures AtMost(x, z)
  {
    if x != "" && x[0] == y[0] && y[0] == z[0] { AtMostTransitive(x[1..], y[1..], z[1..]); }
  }

  // x comes before y in a dictionary, or is y.
  predicate InDictionaryOrder(x: string, y: string) {
    x <= y || exists k :: 0 <= k < |x| && k < |y| && x[..k] == y[..k] && x[k] < y[k]
  }

  /** The comparison is the order of a dictionary, character by character. */
  lemma {:induction false} AtMostIff(x: string, y: string)
    ensures AtMost(x, y) <==> InDictionaryOrder(x, y)
  {
    if x != "" && y != "" {
      AtMostIff(x[1..], y[1..]);
      if x[0] == y[0] {
        SameFirst(x, y);
      } else {
        DifferentFirst(x, y);
      }
    }
  }

  lemma SameFirst(x: string, y: string)
    requires x != "" && y != "" && x[0] == y[0]
    ensures InDictionaryOrder(x, y) <==> InDictionaryOrder(x[1..], y[1..])
  {
    assert x == [x[0]] + x[1..] && y == [y[0]] + y[1..];
    if k :| 0 <= k < |x| && k < |y| && x[..k] == y[..k] && x[k] < y[k] {
      assert k > 0 && x[1..][..k - 1] == x[..k][1..] && y[1..][..k - 1] == y[..k][1..];
      assert x[1..][k - 1] < y[1..][k - 1];
    }
    if k :| 0 <= k < |x| - 1 && k < |y| - 1 && x[1..][..k] == y[1..][..k] && x[1..][k] < y[1..][k] {
      assert x[..k + 1] == [x[0]] + x[1..][..k] && y[..k + 1] == [y[0]] + y[1..][..k];
      assert x[k + 1] < y[k + 1];
    }
  }

  lemma DifferentFirst(x: string, y: string)
    requires x != "" && y != "" && x[0] != y[0]
    ensures InDictionaryOrder(x, y) <==> x[0] < y[0]
  {
    if x[0] < y[0] { assert x[..0] == y[..0]; }
  }

  /** It is a total order. */
  lemma {:induction false} AtMostTotal(x: string, y: string)
    ensures AtMost(x, y) || AtMost(y, x)
    ensures AtMost(x, y) && AtMost(y, x) ==> x == y
  {
    if x != "" && y != "" && x[0] == y[0] {
      AtMostTotal(x[1..], y[1..]);
      assert x == [x[0]] + x[1..] && y == [y[0]] + y[1..];
    }
  }

  const RULES: seq<string> := ["3.3", "4.1", "4.3", "4.5", "4.6"]

  function ClaimedString(rank: nat): string
    requires rank <= 5
  {
    if rank == 0 then "0.0 AppGL (no coverage)" else RULES[rank - 1] + " AppGL core"
  }

  predicate AtLeastImplemented(c: Coverage) { Value(c) >= 2 }
  predicate AtLeastSmokeTested(c: Coverage) { Value(c) >= 3 }

  // Every entry point introduced by `version` is implemented and smoke-tested.
  predicate Qualifies(introduced: seq<string>, statuses: seq<Core>, version: string)
    requires |introduced| == |statuses|
  {
    forall index :: 0 <= index < |introduced| && AtMost(introduced[index], version) ==>
      AtLeastImplemented(statuses[index].state) && AtLeastSmokeTested(statuses[index].state)
  }

  method CheckRule(introduced: seq<string>, statuses: seq<Core>, version: string) returns (ok: bool)
    requires |introduced| == |statuses|
    ensures ok == Qualifies(introduced, statuses, version)
  {
    for index := 0 to |introduced|
      invariant forall j :: 0 <= j < index && AtMost(introduced[j], version) ==>
                  AtLeastImplemented(statuses[j].state) && AtLeastSmokeTested(statuses[j].state)
    {
      if !AtMost(introduced[index], version) { continue; }
      if !AtLeastImplemented(statuses[index].state) { return false; }
      if !AtLeastSmokeTested(statuses[index].state) { return false; }
    }
    return true;
  }

  // The number of the highest version that qualifies, 0 for none.
  function Rank(introduced: seq<string>, statuses: seq<Core>): (rank: nat)
    requires |introduced| == |statuses|
    ensures rank <= 5
  {
    Highest(introduced, statuses, 5)
  }

  function Highest(introduced: seq<string>, statuses: seq<Core>, n: nat): (rank: nat)
    requires |introduced| == |statuses| && n <= 5
    ensures rank <= n
  {
    if n == 0 || Qualifies(introduced, statuses, RULES[n - 1]) then n else Highest(introduced, statuses, n - 1)
  }

  /** fullyImplementedVersionForSnapshot: from the highest rule down. */
  method FullyImplementedVersion(introduced: seq<string>, statuses: seq<Core>) returns (claimed: string)
    requires |introduced| == |statuses|
    ensures claimed == ClaimedString(Rank(introduced, statuses))
  {
    var n := 5;
    while n > 0
      invariant 0 <= n <= 5 && Rank(introduced, statuses) == Highest(introduced, statuses, n)
    {
      var ok := CheckRule(introduced, statuses, RULES[n - 1]);
      if ok { return RULES[n - 1] + " AppGL core"; }
      n := n - 1;
    }
    return "0.0 AppGL (no coverage)";
  }

  lemma RulesRise(j: nat, k: nat)
    requires j <= k < 5
    ensures AtMost(RULES[j], RULES[k])
  {
    forall i: nat | i < 5 ensures |RULES[i]| == 3 && RULES[i][1..][1..][1..] == "" {}
  }

  /** A version qualifies exactly when the walk reports it or a higher one: the versions are nested. */
  lemma {:induction false} RankIff(introduced: seq<string>, statuses: seq<Core>, k: nat, n: nat)
    requires |introduced| == |statuses| && k < n <= 5
    ensures Highest(introduced, statuses, n) > k
            <==> exists j :: k <= j < n && Qualifies(introduced, statuses, RULES[j])
    ensures Qualifies(introduced, statuses, RULES[k])
            <==> exists j :: k <= j < n && Qualifies(introduced, statuses, RULES[j])
  {
    forall j | k <= j < n && Qualifies(introduced, statuses, RULES[j])
      ensures Qualifies(introduced, statuses, RULES[k])
    {
      RulesRise(k, j);
      forall index | 0 <= index < |introduced| && AtMost(introduced[index], RULES[k])
        ensures AtMost(introduced[index], RULES[j])
      {
        AtMostTransitive(introduced[index], RULES[k], RULES[j]);
      }
    }
    if !Qualifies(introduced, statuses, RULES[n - 1]) && k < n - 1 {
      RankIff(introduced, statuses, k, n - 1);
    }
  }

  /** So the reported version is at least version k exactly when every entry point up to version k
      has been smoke-tested. */
  lemma ReportedIff(introduced: seq<string>, statuses: seq<Core>, k: nat)
    requires |introduced| == |statuses| && k < 5
    ensures Rank(introduced, statuses) > k <==> Qualifies(introduced, statuses, RULES[k])
  {
    RankIff(introduced, statuses, k, 5);
  }

  // Everything introduced up to a version has been smoke-tested or better.
  ghost predicate TestedUpTo(introduced: seq<string>, statuses: seq<Core>, version: string)
    requires |introduced| == |statuses|
  {
    forall index :: 0 <= index < |introduced| && InDictionaryOrder(introduced[index], version) ==>
      statuses[index].state !in {Unimplemented, Stubbed, Implemented}
  }

  lemma QualifiesIff(introduced: seq<string>, statuses: seq<Core>, version: string)
    requires |introduced| == |statuses|
    ensures Qualifies(introduced, statuses, version) <==> TestedUpTo(introduced, statuses, version)
  {
    forall index | 0 <= index < |introduced|
      ensures AtMost(introduced[index], version) <==> InDictionaryOrder(introduced[index], version)
    {
      AtMostIff(introduced[index], version);
    }
  }

  /** What is reported, word for word: the highest of the five versions up to which everything has been
      smoke-tested, or the sentinel. */
  lemma ClaimIff(introduced: seq<string>, statuses: seq<Core>)
    requires |introduced| == |statuses|
    ensures var claimed := ClaimedString(Rank(introduced, statuses));
            && (claimed == "4.6 AppGL core" <==> TestedUpTo(introduced, statuses, "4.6"))
            && (claimed == "4.5 AppGL core" <==>
                  TestedUpTo(introduced, statuses, "4.5") && !TestedUpTo(introduced, statuses, "4.6"))
            && (claimed == "4.3 AppGL core" <==>
                  TestedUpTo(introduced, statuses, "4.3") && !TestedUpTo(introduced, statuses, "4.5"))
            && (claimed == "4.1 AppGL core" <==>
                  TestedUpTo(introduced, statuses, "4.1") && !TestedUpTo(introduced, statuses, "4.3"))
            && (claimed == "3.3 AppGL core" <==>
                  TestedUpTo(introduced, statuses, "3.3") && !TestedUpTo(introduced, statuses, "4.1"))
            && (claimed == "0.0 AppGL (no coverage)" <==> !TestedUpTo(introduced, statuses, "3.3"))
  {
    hide Qualifies, TestedUpTo, Rank;
    forall k: nat | k < 5
      ensures Rank(introduced, statuses) > k <==> TestedUpTo(introduced, statuses, RULES[k])
    {
      ReportedIff(introduced, statuses, k);
      QualifiesIff(introduced, statuses, RULES[k]);
    }
    ClaimsDiffer(Rank(introduced, statuses));
    var r := Rank(introduced, statuses);
    assert r > 0 <==> TestedUpTo(introduced, statuses, RULES[0]);
    assert r > 1 <==> TestedUpTo(introduced, statuses, RULES[1]);
    assert r > 2 <==> TestedUpTo(introduced, statuses, RULES[2]);
    assert r > 3 <==> TestedUpTo(introduced, statuses, RULES[3]);
    assert r > 4 <==> TestedUpTo(introduced, statuses, RULES[4]);
  }

  lemma ClaimsDiffer(rank: nat)
    requires rank <= 5
    ensures var claimed := ClaimedString(rank);
            && (claimed == "4.6 AppGL core" <==> rank == 5) && (claimed == "4.5 AppGL core" <==> rank == 4)
            && (claimed == "4.3 AppGL core" <==> rank == 3) && (claimed == "4.1 AppGL core" <==> rank == 2)
            && (claimed == "3.3 AppGL core" <==> rank == 1) && (claimed == "0.0 AppGL (no coverage)" <==> rank == 0)
  {
    hide ClaimedString;
    ClaimStart(rank);
    if rank > 0 { ClaimText(rank); }
  }

  // The first and third character tell the claims apart.
  lemma ClaimStart(rank: nat)
    requires rank <= 5
    ensures var claimed := ClaimedString(rank);
            && |claimed| >= 3 && claimed[0] == (if rank == 0 then '0' else if rank == 1 then '3' else '4')
            && claimed[2] == "031356"[rank] && (rank == 0 ==> claimed == "0.0 AppGL (no coverage)")
  {
    if rank > 0 { assert ClaimedString(rank)[..3] == RULES[rank - 1]; }
  }

  lemma ClaimText(rank: nat)
    requires 0 < rank <= 5
    ensures ClaimedString(rank)
            == if rank == 1 then "3.3 AppGL core" else if rank == 2 then "4.1 AppGL core"
               else if rank == 3 then "4.3 AppGL core" else if rank == 4 then "4.5 AppGL core"
               else "4.6 AppGL core"
  {
    assert RULES[rank - 1] + " AppGL core" == ClaimedString(rank);
    assert "3.3" + " AppGL core" == "3.3 AppGL core" && "4.1" + " AppGL core" == "4.1 AppGL core";
    assert "4.3" + " AppGL core" == "4.3 AppGL core" && "4.5" + " AppGL core" == "4.5 AppGL core";
    assert "4.6" + " AppGL core" == "4.6 AppGL core";
  }

  lemma RankMonotone(introduced: seq<string>, before: seq<Core>, after: seq<Core>)
    requires |introduced| == |before| == |after|
    requires forall id :: 0 <= id < |before| ==> Value(before[id].state) <= Value(after[id].state)
    ensures Rank(introduced, before) <= Rank(introduced, after)
  {
    var r := Rank(introduced, before);
    if r > 0 {
      ReportedIff(introduced, before, r - 1);
      ReportedIff(introduced, after, r - 1);
    }
  }

  // What a reader that holds the lock collects.
  function Statuses(s: I.System): (statuses: seq<Core>)
    ensures |statuses| == |s.entries| && forall id :: 0 <= id < |statuses| ==> statuses[id] == s.entries[id].core
  {
    seq(|s.entries|, id requires 0 <= id < |s.entries| => s.entries[id].core)
  }

  /** Over any run of concurrent marks the reported version never decreases. */
  lemma VersionNeverDecreases(introduced: seq<string>, actions: seq<I.Action>, more: seq<I.Action>)
    requires I.Run(|introduced|, actions).lock.Free? && I.Run(|introduced|, actions + more).lock.Free?
    ensures var s, t := I.Run(|introduced|, actions), I.Run(|introduced|, actions + more);
            && |s.entries| == |introduced| == |t.entries|
            && Rank(introduced, Statuses(s)) <= Rank(introduced, Statuses(t))
  {
    var n := |introduced|;
    I.Reachable(n, actions);
    I.Reachable(n, actions + more);
    var s, t := I.Run(n, actions), I.Run(n, actions + more);
    forall id | 0 <= id < n ensures Value(Statuses(s)[id].state) <= Value(Statuses(t)[id].state) {
      I.StatesGrow(n, actions, more, id);
    }
    RankMonotone(introduced, Statuses(s), Statuses(t));
  }
}
