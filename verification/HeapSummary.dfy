/**
 The counters of the R8 heap segmentation and the object that streams records into them:
 accumulateR8HeapSegmentationRecord and finalizeR8HeapSegmentationSummary of
 src/context/MetalResourceResidency.h.
 */
module HeapSummary {
  import opened Arithmetic
  import opened ResidencyClasses
  import opened HeapSegmentation

  datatype ByAuthority = ByAuthority(authoritative: Tally, reconstructable: Tally, transient: Tally,
                                     sparseSpecial: Tally, unknown: Tally)

  datatype Exclusions = Exclusions(frameGraphTransient: Tally, sparseSpecial: Tally, unknownKind: Tally,
                                   unknownAuthority: Tally, authoritative: Tally)

  datatype Candidates = Candidates(all: Tally, metalBytes: nat, hostBytes: nat, unbucketed: Tally, inFlight: Tally,
                                   unknownLifetime: Tally, hot: Tally, warm: Tally, cold: Tally,
                                   compatibilityUnknown: Tally)

  datatype BucketCounts = BucketCounts(records: nat, bytes: nat, purgeableMetalBytes: nat,
                                       rowsTruncated: nat, bytesTruncated: nat)

  const NO_EXCLUSIONS := Exclusions(NOTHING, NOTHING, NOTHING, NOTHING, NOTHING)
  const NO_CANDIDATES :=
    Candidates(NOTHING, 0, 0, NOTHING, NOTHING, NOTHING, NOTHING, NOTHING, NOTHING, NOTHING)

  // ----- counting the whole sequence at once -----

  // The sets of rows the summary counts.
  datatype Part =
    | RowsWithAuthority(a: Authority)
    | OnHeap(h: Heap)
    | EndedAs(o: Outcome)
    | AllCandidates
    | AllUnbucketed
    | Aged(l: Lifetime)

  predicate InPart(x: Row, p: Part) {
    var o := Classify(x.r, x.boundary);
    match p
    case RowsWithAuthority(a) => x.r.authority == a
    case OnHeap(h) => x.r.heap == h
    case EndedAs(o') => o == o'
    case AllCandidates => !Excluded(o)
    case AllUnbucketed => o.NoMetal? || o.StillInFlight? || o.LifetimeUnknown? || o.NotCompatible?
    case Aged(l) => (o.NotCompatible? || o.Eligible?) && LifetimeOf(x.r, x.boundary) == l
  }

  function TallyOf(rows: seq<Row>, p: Part): Tally {
    if rows == [] then NOTHING
    else
      var n := |rows| - 1;
      if InPart(rows[n], p) then Add(TallyOf(rows[..n], p), rows[n].r) else TallyOf(rows[..n], p)
  }

  // Metal and host bytes of the candidates.
  function CandidateMetal(rows: seq<Row>): nat {
    if rows == [] then 0
    else
      var n := |rows| - 1;
      CandidateMetal(rows[..n]) + if InPart(rows[n], AllCandidates) then rows[n].r.metalBytes else 0
  }
  function CandidateHost(rows: seq<Row>): nat {
    if rows == [] then 0
    else
      var n := |rows| - 1;
      CandidateHost(rows[..n]) + if InPart(rows[n], AllCandidates) then rows[n].r.hostBytes else 0
  }

  function AuthorityOf(rows: seq<Row>): ByAuthority {
    ByAuthority(TallyOf(rows, RowsWithAuthority(Authoritative)), TallyOf(rows, RowsWithAuthority(Reconstructable)),
                TallyOf(rows, RowsWithAuthority(Transient)), TallyOf(rows, RowsWithAuthority(SparseSpecial)),
                TallyOf(rows, RowsWithAuthority(UnknownAuthority)))
  }

  function HeapOf(rows: seq<Row>): ByHeap<Tally> {
    ByHeap(TallyOf(rows, OnHeap(HostHeap)), TallyOf(rows, OnHeap(MetalDevice)), TallyOf(rows, OnHeap(FrameGraphHeap)),
           TallyOf(rows, OnHeap(Cache)), TallyOf(rows, OnHeap(Sidecar)), TallyOf(rows, OnHeap(Sparse)),
           TallyOf(rows, OnHeap(UnknownHeap)))
  }

  function ExclusionsOf(rows: seq<Row>): Exclusions {
    Exclusions(TallyOf(rows, EndedAs(ExcludedTransient)), TallyOf(rows, EndedAs(ExcludedSparse)),
               TallyOf(rows, EndedAs(ExcludedUnknownKind)), TallyOf(rows, EndedAs(ExcludedUnknownAuthority)),
               TallyOf(rows, EndedAs(ExcludedAuthoritative)))
  }

  function CandidatesOf(rows: seq<Row>): Candidates {
    Candidates(TallyOf(rows, AllCandidates), CandidateMetal(rows), CandidateHost(rows), TallyOf(rows, AllUnbucketed),
               TallyOf(rows, EndedAs(StillInFlight)), TallyOf(rows, EndedAs(LifetimeUnknown)),
               TallyOf(rows, Aged(Hot)), TallyOf(rows, Aged(Warm)), TallyOf(rows, Aged(Cold)),
               TallyOf(rows, EndedAs(NotCompatible)))
  }

  // What the buckets of a sequence of eligible rows hold, and what came too late.
  function BucketTotals(e: seq<Row>, limit: nat): BucketCounts {
    var bs, t := Buckets(e, limit), Truncated(e, limit, |e|);
    BucketCounts(SumRecords(bs), SumMetal(bs), SumMetal(bs), |t|, Metal(t))
  }

  function BucketCountsOf(rows: seq<Row>, limit: nat): BucketCounts { BucketTotals(Eligibles(rows), limit) }

  // ----- one more row -----

  lemma TallyOneMoreRow(rows: seq<Row>, x: Row, p: Part)
    ensures TallyOf(rows + [x], p) == if InPart(x, p) then Add(TallyOf(rows, p), x.r) else TallyOf(rows, p)
  {
    assert (rows + [x])[..|rows|] == rows;
  }

  function CountAuthority(c: ByAuthority, r: Record): ByAuthority {
    match r.authority
    case Authoritative => c.(authoritative := Add(c.authoritative, r))
    case Reconstructable => c.(reconstructable := Add(c.reconstructable, r))
    case Transient => c.(transient := Add(c.transient, r))
    case SparseSpecial => c.(sparseSpecial := Add(c.sparseSpecial, r))
    case UnknownAuthority => c.(unknown := Add(c.unknown, r))
  }

  function CountHeap(c: ByHeap<Tally>, r: Record): ByHeap<Tally> {
    SetHeap(c, r.heap, Add(AtHeap(c, r.heap), r))
  }

  function CountExclusion(c: Exclusions, x: Row): Exclusions {
    match Classify(x.r, x.boundary)
    case ExcludedTransient => c.(frameGraphTransient := Add(c.frameGraphTransient, x.r))
    case ExcludedSparse => c.(sparseSpecial := Add(c.sparseSpecial, x.r))
    case ExcludedUnknownKind => c.(unknownKind := Add(c.unknownKind, x.r))
    case ExcludedUnknownAuthority => c.(unknownAuthority := Add(c.unknownAuthority, x.r))
    case ExcludedAuthoritative => c.(authoritative := Add(c.authoritative, x.r))
    case _ => c
  }

  function CountAge(c: Candidates, r: Record, l: Lifetime): Candidates {
    match l
    case Hot => c.(hot := Add(c.hot, r))
    case Warm => c.(warm := Add(c.warm, r))
    case Cold => c.(cold := Add(c.cold, r))
    case _ => c
  }

  function CountCandidate(c: Candidates, x: Row): Candidates {
    var r, o := x.r, Classify(x.r, x.boundary);
    if Excluded(o) then c
    else
      var d := c.(all := Add(c.all, r), metalBytes := c.metalBytes + r.metalBytes,
                  hostBytes := c.hostBytes + r.hostBytes);
      match o
      case NoMetal => d.(unbucketed := Add(d.unbucketed, r))
      case StillInFlight => d.(inFlight := Add(d.inFlight, r), unbucketed := Add(d.unbucketed, r))
      case LifetimeUnknown => d.(unknownLifetime := Add(d.unknownLifetime, r), unbucketed := Add(d.unbucketed, r))
      case NotCompatible =>
        CountAge(d, r, LifetimeOf(r, x.boundary)).(compatibilityUnknown := Add(d.compatibilityUnknown, r),
                                                   unbucketed := Add(d.unbucketed, r))
      case Eligible => CountAge(d, r, LifetimeOf(r, x.boundary))
  }

  function CountBucketed(c: BucketCounts, r: Record, accepted: bool): BucketCounts {
    if accepted then
      c.(records := c.records + 1, bytes := c.bytes + r.metalBytes,
         purgeableMetalBytes := c.purgeableMetalBytes + r.metalBytes)
    else c.(rowsTruncated := c.rowsTruncated + 1, bytesTruncated := c.bytesTruncated + r.metalBytes)
  }

  lemma OccupancyOneMore(rows: seq<Row>, x: Row)
    ensures AuthorityOf(rows + [x]) == CountAuthority(AuthorityOf(rows), x.r)
    ensures HeapOf(rows + [x]) == CountHeap(HeapOf(rows), x.r)
  {
    hide TallyOf, Add, Classify, LifetimeOf;
    forall p: Part { TallyOneMoreRow(rows, x, p); }
  }

  lemma ExclusionsOneMore(rows: seq<Row>, x: Row)
    ensures ExclusionsOf(rows + [x]) == CountExclusion(ExclusionsOf(rows), x)
  {
    hide TallyOf, Add, Classify, LifetimeOf;
    forall p: Part { TallyOneMoreRow(rows, x, p); }
  }

  lemma CandidatesOneMore(rows: seq<Row>, x: Row)
    ensures CandidatesOf(rows + [x]) == CountCandidate(CandidatesOf(rows), x)
  {
    hide TallyOf, Add;
    forall p: Part { TallyOneMoreRow(rows, x, p); }
    assert (rows + [x])[..|rows|] == rows;
  }

  lemma EligiblesOneMore(rows: seq<Row>, x: Row)
    ensures Eligibles(rows + [x]) == Eligibles(rows) + if IsEligible(x) then [x] else []
  {
    assert (rows + [x])[..|rows|] == rows;
  }

  lemma BucketTotalsOneMore(e: seq<Row>, x: Row, limit: nat)
    ensures BucketTotals(e + [x], limit)
            == CountBucketed(BucketTotals(e, limit), x.r, Accepted(Buckets(e, limit), limit, x))
  {
    hide KeyOf, Appended, Accepted, Keys, Buckets, Metal, SumRecords, SumMetal, Truncated;
    AppendedIsBatch(e, x, limit);
    AppendedSums(Buckets(e, limit), limit, x);
    TruncatedGrows(e, x, limit);
    var t := Truncated(e, limit, |e|);
    MetalOneMore(t, x);
    assert t + [] == t;
  }

  lemma BucketCountsOneMore(rows: seq<Row>, x: Row, limit: nat)
    ensures BucketCountsOf(rows + [x], limit)
            == if IsEligible(x) then
                 CountBucketed(BucketCountsOf(rows, limit), x.r, Accepted(Buckets(Eligibles(rows), limit), limit, x))
               else BucketCountsOf(rows, limit)
  {
    hide BucketTotals, Accepted, Buckets, Eligibles, Classify, IsEligible;
    EligiblesOneMore(rows, x);
    if IsEligible(x) { BucketTotalsOneMore(Eligibles(rows), x, limit); }
    assert Eligibles(rows) + [] == Eligibles(rows);
  }

  // One more tally entry for x if b.
  predicate Gains(before: Tally, after: Tally, b: bool, r: Record) { after == Both(before, Once(b, r)) }

  /** One more row, in its fields: which authority, heap and exclusion it is counted under ... */
  lemma OccupancyCounts(rows: seq<Row>, x: Row)
    ensures var a, b := AuthorityOf(rows), AuthorityOf(rows + [x]); var r := x.r;
            && Gains(a.authoritative, b.authoritative, r.authority == Authoritative, r)
            && Gains(a.reconstructable, b.reconstructable, r.authority == Reconstructable, r)
            && Gains(a.transient, b.transient, r.authority == Transient, r)
            && Gains(a.sparseSpecial, b.sparseSpecial, r.authority == SparseSpecial, r)
            && Gains(a.unknown, b.unknown, r.authority == UnknownAuthority, r)
    ensures var a, b := HeapOf(rows), HeapOf(rows + [x]); var r := x.r;
            && Gains(a.host, b.host, r.heap == HostHeap, r)
            && Gains(a.metalDevice, b.metalDevice, r.heap == MetalDevice, r)
            && Gains(a.frameGraph, b.frameGraph, r.heap == FrameGraphHeap, r)
            && Gains(a.cache, b.cache, r.heap == Cache, r) && Gains(a.sidecar, b.sidecar, r.heap == Sidecar, r)
            && Gains(a.sparse, b.sparse, r.heap == Sparse, r)
            && Gains(a.unknown, b.unknown, r.heap == UnknownHeap, r)
  {
    hide TallyOf, Classify, LifetimeOf;
    forall p: Part { TallyOneMoreRow(rows, x, p); }
  }

  lemma ExclusionCounts(rows: seq<Row>, x: Row)
    ensures var a, b := ExclusionsOf(rows), ExclusionsOf(rows + [x]); var r := x.r;
            var other := !FrameGraphRecord(r) && !SparseRecord(r);
            && Gains(a.frameGraphTransient, b.frameGraphTransient, FrameGraphRecord(r), r)
            && Gains(a.sparseSpecial, b.sparseSpecial, SparseRecord(r) && !FrameGraphRecord(r), r)
            && Gains(a.unknownKind, b.unknownKind, other && r.kind == UnknownKind, r)
            && Gains(a.unknownAuthority, b.unknownAuthority,
                       other && r.kind != UnknownKind && r.authority == UnknownAuthority, r)
            && Gains(a.authoritative, b.authoritative,
                       other && r.kind != UnknownKind && r.authority == Authoritative, r)
  {
    hide TallyOf, Classify, LifetimeOf, FrameGraphRecord, SparseRecord;
    OutcomeIff(x.r, x.boundary);
    forall p: Part { TallyOneMoreRow(rows, x, p); }
  }

  /** ... and, of a candidate, its bytes, its age if it has Metal bytes and a known use, and why it is
      left unbucketed. */
  lemma CandidateCounts(rows: seq<Row>, x: Row)
    ensures var a, b := CandidatesOf(rows), CandidatesOf(rows + [x]); var r := x.r;
            var metal := Admissible(r) && r.metalBytes > 0; var aged := metal && !Ageless(r, x.boundary);
            var known := r.compatibilityKnown != 0 && r.layout.resourceClass != NoResource;
            && Gains(a.all, b.all, Admissible(r), r)
            && b.metalBytes - a.metalBytes == (if Admissible(r) then r.metalBytes else 0)
            && b.hostBytes - a.hostBytes == (if Admissible(r) then r.hostBytes else 0)
            && Gains(a.inFlight, b.inFlight, metal && r.inFlightSerial > 0, r)
            && Gains(a.unknownLifetime, b.unknownLifetime,
                       metal && r.inFlightSerial == 0 && Ageless(r, x.boundary), r)
            && Gains(a.hot, b.hot, aged && x.boundary <= r.lastUseFrame + 2, r)
            && Gains(a.warm, b.warm, aged && r.lastUseFrame + 2 < x.boundary <= r.lastUseFrame + 8, r)
            && Gains(a.cold, b.cold, aged && r.lastUseFrame + 8 < x.boundary, r)
            && Gains(a.compatibilityUnknown, b.compatibilityUnknown, aged && !known, r)
            && Gains(a.unbucketed, b.unbucketed, Admissible(r) && !(aged && known), r)
  {
    hide TallyOf, Classify, LifetimeOf, FrameGraphRecord, SparseRecord, Admissible;
    OutcomeIff(x.r, x.boundary);
    OutcomeAdmissible(x.r, x.boundary);
    LifetimeIff(x.r, x.boundary);
    forall p: Part { TallyOneMoreRow(rows, x, p); }
    assert (rows + [x])[..|rows|] == rows;
  }

  lemma OutcomeAdmissible(r: Record, boundary: nat)
    ensures !Excluded(Classify(r, boundary)) <==> Admissible(r)
    ensures Classify(r, boundary).Eligible? <==>
              Admissible(r) && r.metalBytes > 0 && !Ageless(r, boundary)
              && r.compatibilityKnown != 0 && r.layout.resourceClass != NoResource
  {
  }

  // Excluded rows are no candidates, and candidates are not excluded.
  lemma ExcludedNotCounted(c: Exclusions, d: Candidates, x: Row)
    ensures Candidate(x.r, x.boundary) ==> CountExclusion(c, x) == c
    ensures !Candidate(x.r, x.boundary) ==> CountCandidate(d, x) == d && !IsEligible(x)
  {
  }

  // ----- conservation -----

  function AuthorityTotal(c: ByAuthority): Tally {
    Tally(c.authoritative.records + c.reconstructable.records + c.transient.records + c.sparseSpecial.records
          + c.unknown.records,
          c.authoritative.bytes + c.reconstructable.bytes + c.transient.bytes + c.sparseSpecial.bytes + c.unknown.bytes)
  }

  function HeapTotal(c: ByHeap<Tally>): Tally {
    Tally(c.host.records + c.metalDevice.records + c.frameGraph.records + c.cache.records + c.sidecar.records
          + c.sparse.records + c.unknown.records,
          c.host.bytes + c.metalDevice.bytes + c.frameGraph.bytes + c.cache.bytes + c.sidecar.bytes
          + c.sparse.bytes + c.unknown.bytes)
  }

  function ExcludedTotal(c: Exclusions): Tally {
    Tally(c.frameGraphTransient.records + c.sparseSpecial.records + c.unknownKind.records + c.unknownAuthority.records
          + c.authoritative.records,
          c.frameGraphTransient.bytes + c.sparseSpecial.bytes + c.unknownKind.bytes + c.unknownAuthority.bytes
          + c.authoritative.bytes)
  }

  lemma OccupancyStep(a: ByAuthority, h: ByHeap<Tally>, r: Record)
    ensures AuthorityTotal(CountAuthority(a, r)) == Add(AuthorityTotal(a), r)
    ensures HeapTotal(CountHeap(h, r)) == Add(HeapTotal(h), r)
  {
  }

  lemma OutcomeStep(e: Exclusions, c: Candidates, x: Row)
    ensures var before, after := ExcludedTotal(e), ExcludedTotal(CountExclusion(e, x));
            var all := CountCandidate(c, x).all;
            && after.records + all.records == before.records + c.all.records + 1
            && after.bytes + all.bytes == before.bytes + c.all.bytes + x.r.retainedBytes
  {
  }

  lemma NoTally(rows: seq<Row>, p: Part)
    requires rows == []
    ensures TallyOf(rows, p) == NOTHING
  {
  }

  lemma NoRows(rows: seq<Row>)
    requires rows == []
    ensures AuthorityOf(rows) == ByAuthority(NOTHING, NOTHING, NOTHING, NOTHING, NOTHING)
    ensures HeapOf(rows) == ByHeap(NOTHING, NOTHING, NOTHING, NOTHING, NOTHING, NOTHING, NOTHING)
    ensures ExclusionsOf(rows) == NO_EXCLUSIONS && CandidatesOf(rows) == NO_CANDIDATES
  {
    hide TallyOf;
    forall p: Part { NoTally(rows, p); }
  }

  lemma NoAuthority(c: ByAuthority, t: Tally)
    requires t == NOTHING && c == ByAuthority(t, t, t, t, t)
    ensures AuthorityTotal(c) == t
  {
  }

  lemma NoHeap(c: ByHeap<Tally>, t: Tally)
    requires t == NOTHING && c == ByHeap(t, t, t, t, t, t, t)
    ensures HeapTotal(c) == t
  {
  }

  lemma NoExclusion(c: Exclusions, t: Tally)
    requires t == NOTHING && c == Exclusions(t, t, t, t, t)
    ensures ExcludedTotal(c) == t
  {
  }

  /** Every row seen is counted, with its bytes, under one authority, on one heap, and either in one
      of the five exclusions or as a candidate. */
  lemma {:induction false} RowsConserved(rows: seq<Row>)
    ensures AuthorityTotal(AuthorityOf(rows)) == Tally(|rows|, Retained(rows))
    ensures HeapTotal(HeapOf(rows)) == Tally(|rows|, Retained(rows))
    ensures ExcludedTotal(ExclusionsOf(rows)).records + CandidatesOf(rows).all.records == |rows|
    ensures ExcludedTotal(ExclusionsOf(rows)).bytes + CandidatesOf(rows).all.bytes == Retained(rows)
  {
    hide AuthorityOf, HeapOf, ExclusionsOf, CandidatesOf, Classify, CountAuthority, CountHeap, CountExclusion;
    hide CountCandidate, AuthorityTotal, HeapTotal, ExcludedTotal;
    if rows == [] {
      NoRows(rows);
      NoAuthority(AuthorityOf(rows), NOTHING);
      NoHeap(HeapOf(rows), NOTHING);
      NoExclusion(ExclusionsOf(rows), NOTHING);
    } else {
      var n := |rows| - 1;
      var h, x := rows[..n], rows[n];
      assert h + [x] == rows;
      RowsConserved(h);
      OccupancyOneMore(h, x);
      ExclusionsOneMore(h, x);
      CandidatesOneMore(h, x);
      OccupancyStep(AuthorityOf(h), HeapOf(h), x.r);
      OutcomeStep(ExclusionsOf(h), CandidatesOf(h), x);
    }
  }

  // Where the candidates went; metal is the Metal bytes of those that reached the buckets.
  predicate Accounted(c: Candidates, b: BucketCounts, metal: nat) {
    && c.all.records == c.unbucketed.records + b.records + b.rowsTruncated
    && c.hot.records + c.warm.records + c.cold.records
       == c.compatibilityUnknown.records + b.records + b.rowsTruncated
    && c.inFlight.records + c.unknownLifetime.records + c.compatibilityUnknown.records <= c.unbucketed.records
    && c.inFlight.bytes + c.unknownLifetime.bytes + c.compatibilityUnknown.bytes <= c.unbucketed.bytes
    && c.unbucketed.bytes <= c.all.bytes
    && b.bytes + b.bytesTruncated == metal <= c.metalBytes
    && b.purgeableMetalBytes == b.bytes
  }

  lemma NoBuckets(rows: seq<Row>, limit: nat)
    requires rows == []
    ensures Accounted(NO_CANDIDATES, BucketCountsOf(rows, limit), Metal(Eligibles(rows)))
  {
  }

  lemma AccountedStep(c: Candidates, b: BucketCounts, metal: nat, x: Row, accepted: bool)
    requires Accounted(c, b, metal)
    ensures Accounted(CountCandidate(c, x), if IsEligible(x) then CountBucketed(b, x.r, accepted) else b,
                      metal + if IsEligible(x) then x.r.metalBytes else 0)
  {
  }

  /** Every candidate is left unbucketed, bucketed or truncated; those whose lifetime was looked at
      are incompatible, bucketed or truncated; and the bytes in the buckets, which are the purgeable
      bytes, and the truncated bytes are all Metal bytes of the eligible rows. */
  lemma {:induction false} CandidatesConserved(rows: seq<Row>, limit: nat)
    ensures Accounted(CandidatesOf(rows), BucketCountsOf(rows, limit), Metal(Eligibles(rows)))
  {
    hide CandidatesOf, BucketCountsOf, Accepted, Buckets, Accounted, CountCandidate, CountBucketed, IsEligible;
    hide Eligibles, Metal, Candidate, Classify;
    if rows == [] {
      NoRows(rows);
      NoBuckets(rows, limit);
    } else {
      var n := |rows| - 1;
      var h, x := rows[..n], rows[n];
      assert h + [x] == rows;
      CandidatesConserved(h, limit);
      CandidatesOneMore(h, x);
      BucketCountsOneMore(h, x, limit);
      EligiblesOneMore(h, x);
      MetalOneMore(Eligibles(h), x);
      assert Eligibles(h) + [] == Eligibles(h);
      AccountedStep(CandidatesOf(h), BucketCountsOf(h, limit), Metal(Eligibles(h)), x,
                    Accepted(Buckets(Eligibles(h), limit), limit, x));
    }
  }

  // The share of the bucketable rows that was truncated, in permyriad.
  function Truncation(c: BucketCounts): nat
    requires c.records + c.rowsTruncated != 0
  {
    c.rowsTruncated * 10000 / (c.records + c.rowsTruncated)
  }

  /** The share is exact when it is compared with any threshold; it is at most 10000, and 10000 only when
      nothing was bucketed at all. */
  lemma TruncationBounded(c: BucketCounts, threshold: nat)
    requires c.records + c.rowsTruncated != 0
    ensures Truncation(c) >= threshold <==> 10000 * c.rowsTruncated >= threshold * (c.records + c.rowsTruncated)
    ensures Truncation(c) <= 10000 && (Truncation(c) == 10000 <==> c.records == 0)
  {
    QuotientAtLeast(c.rowsTruncated * 10000, c.records + c.rowsTruncated, threshold);
    var d := c.records + c.rowsTruncated;
    QuotientAtLeast(c.rowsTruncated * 10000, d, 10001);
    QuotientAtLeast(c.rowsTruncated * 10000, d, 10000);
  }

  // ----- the streaming object -----

  class Segmentation {
    const limit: nat
    var rowsSeen: nat
    var rowsClassified: nat
    var authority: ByAuthority
    var heap: ByHeap<Tally>
    var excluded: Exclusions
    var candidates: Candidates
    var bucketCounts: BucketCounts
    var buckets: seq<Bucket>
    var bucketCount: nat
    var truncationPermyriad: nat

    // The rows accumulated so far.
    ghost var rows: seq<Row>

    // Streaming agrees with counting and grouping all rows at once.
    ghost predicate Valid()
      reads this
    {
      && rowsSeen == rowsClassified == |rows|
      && authority == AuthorityOf(rows) && heap == HeapOf(rows)
      && excluded == ExclusionsOf(rows) && candidates == CandidatesOf(rows)
      && buckets == Buckets(Eligibles(rows), limit)
      && bucketCounts == BucketCountsOf(rows, limit)
    }

    constructor (limit: nat)
      ensures Valid() && rows == [] && this.limit == limit && bucketCount == 0 == truncationPermyriad
    {
      this.limit := limit;
      rowsSeen, rowsClassified, bucketCount, truncationPermyriad := 0, 0, 0, 0;
      authority := ByAuthority(NOTHING, NOTHING, NOTHING, NOTHING, NOTHING);
      heap := ByHeap(NOTHING, NOTHING, NOTHING, NOTHING, NOTHING, NOTHING, NOTHING);
      excluded, candidates, bucketCounts := NO_EXCLUSIONS, NO_CANDIDATES, BucketCounts(0, 0, 0, 0, 0);
      buckets, rows := [], [];
    }

    // metalR8RecordAuthorityAndHeapOccupancy
    method RecordOccupancy(r: Record)
      modifies this`authority, this`heap
      ensures authority == CountAuthority(old(authority), r) && heap == CountHeap(old(heap), r)
    {
      match r.authority {
        case Reconstructable => authority := authority.(reconstructable := Add(authority.reconstructable, r));
        case Transient => authority := authority.(transient := Add(authority.transient, r));
        case SparseSpecial => authority := authority.(sparseSpecial := Add(authority.sparseSpecial, r));
        case UnknownAuthority => authority := authority.(unknown := Add(authority.unknown, r));
        case Authoritative => authority := authority.(authoritative := Add(authority.authoritative, r));
      }
      match r.heap {
        case HostHeap => heap := heap.(host := Add(heap.host, r));
        case MetalDevice => heap := heap.(metalDevice := Add(heap.metalDevice, r));
        case FrameGraphHeap => heap := heap.(frameGraph := Add(heap.frameGraph, r));
        case Cache => heap := heap.(cache := Add(heap.cache, r));
        case Sidecar => heap := heap.(sidecar := Add(heap.sidecar, r));
        case Sparse => heap := heap.(sparse := Add(heap.sparse, r));
        case UnknownHeap => heap := heap.(unknown := Add(heap.unknown, r));
      }
    }

    // The exclusion rules, in order; false when none applies.
    method Exclude(r: Record, boundary: nat) returns (out: bool)
      modifies this`excluded
      ensures out == !Candidate(r, boundary)
      ensures excluded == CountExclusion(old(excluded), Row(r, boundary))
    {
      if IsFrameGraphTransient(r) {
        excluded := excluded.(frameGraphTransient := Add(excluded.frameGraphTransient, r));
        return true;
      }
      if IsSparseSpecial(r) {
        excluded := excluded.(sparseSpecial := Add(excluded.sparseSpecial, r));
        return true;
      }
      if !KnownKind(r.kind) {
        excluded := excluded.(unknownKind := Add(excluded.unknownKind, r));
        return true;
      }
      if r.authority.UnknownAuthority? {
        excluded := excluded.(unknownAuthority := Add(excluded.unknownAuthority, r));
        return true;
      }
      if !r.authority.Reconstructable? {
        excluded := excluded.(authoritative := Add(excluded.authoritative, r));
        return true;
      }
      return false;
    }

    method LeaveUnbucketed(r: Record)
      modifies this`candidates
      ensures candidates == old(candidates).(unbucketed := Add(old(candidates).unbucketed, r))
    {
      candidates := candidates.(unbucketed := Add(candidates.unbucketed, r));
    }

    // A candidate, up to the point where it is offered to the buckets.
    method RecordCandidate(r: Record, boundary: nat) returns (bucketable: bool)
      requires Candidate(r, boundary)
      modifies this`candidates
      ensures bucketable == IsEligible(Row(r, boundary))
      ensures candidates == CountCandidate(old(candidates), Row(r, boundary))
    {
      candidates := candidates.(all := Add(candidates.all, r));
      candidates := candidates.(metalBytes := candidates.metalBytes + r.metalBytes);
      candidates := candidates.(hostBytes := candidates.hostBytes + r.hostBytes);
      if r.metalBytes == 0 {
        LeaveUnbucketed(r);
        return false;
      }
      match LifetimeOf(r, boundary) {
        case InFlight =>
          candidates := candidates.(inFlight := Add(candidates.inFlight, r));
          LeaveUnbucketed(r);
          return false;
        case UnknownLifetime =>
          candidates := candidates.(unknownLifetime := Add(candidates.unknownLifetime, r));
          LeaveUnbucketed(r);
          return false;
        case Hot => candidates := candidates.(hot := Add(candidates.hot, r));
        case Warm => candidates := candidates.(warm := Add(candidates.warm, r));
        case Cold => candidates := candidates.(cold := Add(candidates.cold, r));
      }
      if r.compatibilityKnown == 0 || r.layout.resourceClass.NoResource? {
        candidates := candidates.(compatibilityUnknown := Add(candidates.compatibilityUnknown, r));
        LeaveUnbucketed(r);
        return false;
      }
      return true;
    }

    /** metalR8AppendProspectiveBucketRecord: linear search, then accumulate, open or truncate. */
    method AppendBucketRecord(x: Row) returns (accepted: bool)
      modifies this`buckets, this`bucketCounts
      ensures buckets == Appended(old(buckets), limit, x)
      ensures accepted == Accepted(old(buckets), limit, x)
      ensures bucketCounts
              == if accepted then old(bucketCounts) else CountBucketed(old(bucketCounts), x.r, false)
    {
      var size := SizeBucketForBytes(x.r.metalBytes);
      var key := Key(x.r.layout, LifetimeOf(x.r, x.boundary), size);
      var i := 0;
      while i < |buckets|
        invariant 0 <= i <= |buckets| && buckets == old(buckets) && bucketCounts == old(bucketCounts)
        invariant forall j :: 0 <= j < i ==> buckets[j].key != key
      {
        if buckets[i].key == key {
          buckets := buckets[i := Accumulated(buckets[i], x.r)];
          return true;
        }
        i := i + 1;
      }
      if |buckets| >= limit {
        bucketCounts := bucketCounts.(rowsTruncated := bucketCounts.rowsTruncated + 1,
                                      bytesTruncated := bucketCounts.bytesTruncated + x.r.metalBytes);
        return false;
      }
      buckets := buckets + [Accumulated(EmptyBucket(|buckets| + 1, key), x.r)];
      return true;
    }

    /** accumulateR8HeapSegmentationRecord: after any sequence of calls every counter and every
        bucket is what the whole sequence gives at once. */
    method Accumulate(r: Record, boundary: nat)
      requires Valid()
      modifies this
      ensures Valid() && rows == old(rows) + [Row(r, boundary)]
    {
      hide CountAuthority, CountHeap, CountExclusion, CountCandidate, AuthorityOf, HeapOf, ExclusionsOf, CandidatesOf;
      hide BucketCountsOf, Appended, Accepted, Buckets, Eligibles, Classify, Add;
      ghost var x := Row(r, boundary);
      OccupancyOneMore(rows, x);
      ExclusionsOneMore(rows, x);
      CandidatesOneMore(rows, x);
      BucketCountsOneMore(rows, x, limit);
      EligiblesOneMore(rows, x);
      AppendedIsBatch(Eligibles(rows), x, limit);
      ExcludedNotCounted(excluded, candidates, x);
      assert Eligibles(rows) + [] == Eligibles(rows);
      rows := rows + [x];
      rowsSeen := rowsSeen + 1;
      rowsClassified := rowsClassified + 1;
      RecordOccupancy(r);
      var out := Exclude(r, boundary);
      if out { return; }
      var bucketable := RecordCandidate(r, boundary);
      if !bucketable { return; }
      var accepted := AppendBucketRecord(Row(r, boundary));
      if accepted {
        bucketCounts := bucketCounts.(records := bucketCounts.records + 1);
        bucketCounts := bucketCounts.(bytes := bucketCounts.bytes + r.metalBytes);
        bucketCounts := bucketCounts.(purgeableMetalBytes := bucketCounts.purgeableMetalBytes + r.metalBytes);
      }
    }

    /** finalizeR8HeapSegmentationSummary. */
    method Finalize()
      requires Valid()
      modifies this`bucketCount, this`truncationPermyriad
      ensures Valid() && bucketCount == |buckets|
      ensures var considered := bucketCounts.records + bucketCounts.rowsTruncated;
              truncationPermyriad == if considered == 0 then old(truncationPermyriad)
                                     else Truncation(bucketCounts)
    {
      hide AuthorityOf, HeapOf, ExclusionsOf, CandidatesOf, BucketCountsOf, Buckets, Eligibles;
      bucketCount := |buckets|;
      var considered := bucketCounts.records + bucketCounts.rowsTruncated;
      if considered != 0 {
        truncationPermyriad := bucketCounts.rowsTruncated * 10000 / considered;
      }
    }
  }
}
