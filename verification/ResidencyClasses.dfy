/**
 Residency records of src/context/MetalResourceResidency.h and the predicates that classify them:
 the R8 candidate rules, the R5 dry-run class and eviction scope, the R5 eviction order, and the
 size and lifetime buckets.
 */
module ResidencyClasses {
  import opened Arithmetic

  datatype Owner = UnknownOwner | Buffer | Texture | Renderbuffer | Shader | Program | FrameGraphOwner | SparseTexture

  datatype Kind =
    | UnknownKind
    | MetalBuffer
    | MetalTexture
    | TextureView
    | Sampler
    | RenderPipeline
    | ComputePipeline
    | Function
    | Library
    | HostShadow
    | ShaderSource
    | ShaderSpirv
    | ProgramMslSource
    | MslLibraryCacheSource
    | MslLibraryCacheSourceKey
    | MslLibraryCompileTransientSource
    | ExpandedIndexCache
    | Fp64SidecarCpu
    | Fp64SidecarMetal
    | TextureBufferExpansion
    | ImageAtomicSidecar
    | SparsePageTable
    | SparseHeap
    | SparseStorageSidecar
    | MultisampleStorageSidecar
    | FrameGraphResource

  datatype Authority = Authoritative | Reconstructable | Transient | SparseSpecial | UnknownAuthority

  datatype Heap = HostHeap | MetalDevice | FrameGraphHeap | Cache | Sidecar | Sparse | UnknownHeap

  datatype ResourceClass = NoResource | BufferResource | TextureResource

  datatype TextureClass =
    | UnknownTexture
    | Color
    | DepthStencil
    | Compressed
    | Multisample
    | BufferExpansionTexture
    | SidecarTexture
    | Fp64SidecarTexture

  datatype Lifetime = UnknownLifetime | InFlight | Hot | Warm | Cold

  // The compatibility fields a producer may attach to a record.
  datatype Layout = Layout(resourceClass: ResourceClass, textureClass: TextureClass, storageMode: nat,
                           cpuCacheMode: nat, hazardTrackingMode: nat, resourceOptions: nat,
                           textureUsage: nat, textureType: nat, pixelFormat: nat, sampleCount: nat,
                           mipmapLevels: nat, arrayLength: nat)

  datatype Record = Record(recordId: nat, owner: Owner, kind: Kind, authority: Authority, heap: Heap,
                           retainedBytes: nat, metalBytes: nat, hostBytes: nat,
                           lastUseFrame: nat, lastUseCommandSerial: nat, inFlightSerial: nat,
                           diagnosticBucketId: nat, compatibilityKnown: nat, layout: Layout)

  // ----- size and lifetime buckets -----

  function BitLength(n: nat): nat { if n == 0 then 0 else BitLength(n / 2) + 1 }

  function SizeBucket(bytes: nat): nat { if bytes == 0 then 0 else BitLength(bytes - 1) }

  lemma {:induction false} BitLengthBounds(n: nat)
    ensures n < Pow2(BitLength(n))
    ensures n > 0 ==> BitLength(n) > 0 && Pow2(BitLength(n) - 1) <= n
  {
    if n > 0 { BitLengthBounds(n / 2); }
  }

  /** The size bucket of a non-empty allocation is the least b with bytes <= 2^b. */
  lemma SizeBucketIsCeilLog2(bytes: nat, b: nat)
    requires bytes > 0
    ensures bytes <= Pow2(b) <==> SizeBucket(bytes) <= b
  {
    BitLengthBounds(bytes - 1);
    if SizeBucket(bytes) <= b {
      Pow2Monotone(SizeBucket(bytes), b);
    } else {
      Pow2Monotone(b, SizeBucket(bytes) - 1);
    }
  }

  /** metalR8SizeBucketForBytes: the shift loop. */
  method SizeBucketForBytes(bytes: nat) returns (bucket: nat)
    ensures bucket == SizeBucket(bytes)
    ensures bytes > 0 ==> bytes <= Pow2(bucket) && (bucket > 0 ==> Pow2(bucket - 1) < bytes)
  {
    if bytes == 0 { return 0; }
    bucket := 0;
    var rest: nat := bytes - 1;
    while rest != 0
      invariant BitLength(rest) + bucket == SizeBucket(bytes)
    {
      rest := rest / 2;
      bucket := bucket + 1;
    }
    SizeBucketIsCeilLog2(bytes, bucket);
    if bucket > 0 { SizeBucketIsCeilLog2(bytes, bucket - 1); }
  }

  function LifetimeOf(r: Record, boundary: nat): Lifetime {
    if r.inFlightSerial != 0 then InFlight
    else if r.lastUseCommandSerial == 0 || r.lastUseFrame == 0 || boundary == 0 then UnknownLifetime
    else if r.lastUseFrame >= boundary then Hot
    else if boundary - r.lastUseFrame <= 2 then Hot
    else if boundary - r.lastUseFrame <= 8 then Warm
    else Cold
  }

  // In flight, or never used as far as is known.
  predicate Ageless(r: Record, boundary: nat) {
    r.inFlightSerial != 0 || r.lastUseCommandSerial == 0 || r.lastUseFrame == 0 || boundary == 0
  }

  /** A record of known use is hot up to 2 boundaries after its last use, warm up to 8, then cold. */
  lemma LifetimeIff(r: Record, boundary: nat)
    ensures LifetimeOf(r, boundary).InFlight? <==> r.inFlightSerial > 0
    ensures LifetimeOf(r, boundary).UnknownLifetime? <==> r.inFlightSerial == 0 && Ageless(r, boundary)
    ensures LifetimeOf(r, boundary).Hot? <==> !Ageless(r, boundary) && boundary <= r.lastUseFrame + 2
    ensures LifetimeOf(r, boundary).Warm?
            <==> !Ageless(r, boundary) && r.lastUseFrame + 2 < boundary <= r.lastUseFrame + 8
    ensures LifetimeOf(r, boundary).Cold? <==> !Ageless(r, boundary) && r.lastUseFrame + 8 < boundary
  {
  }

  function Coolness(l: Lifetime): nat {
    match l
    case Hot => 1
    case Warm => 2
    case Cold => 3
    case _ => 0
  }

  /** A record that is not used again only cools as boundaries pass, and being in flight or of unknown
      use does not depend on the boundary. */
  lemma LifetimeOnlyCools(r: Record, boundary: nat, later: nat)
    requires 0 < boundary <= later
    ensures var l, m := LifetimeOf(r, boundary), LifetimeOf(r, later);
            && (l.InFlight? <==> m.InFlight?) && (l.UnknownLifetime? <==> m.UnknownLifetime?)
            && Coolness(l) <= Coolness(m)
    ensures LifetimeOf(r, boundary).Hot? && later <= boundary + 6 ==> !LifetimeOf(r, later).Cold?
  {
  }

  // ----- R8 -----

  predicate KnownKind(k: Kind) { !k.UnknownKind? }

  predicate IsFrameGraphTransient(r: Record) {
    r.kind.FrameGraphResource? || r.heap.FrameGraphHeap? || r.authority.Transient?
  }

  predicate IsSparseSpecial(r: Record) {
    || r.kind.SparsePageTable? || r.kind.SparseHeap? || r.kind.SparseStorageSidecar?
    || r.owner.SparseTexture? || r.heap.Sparse? || r.authority.SparseSpecial?
  }

  // Where a record ends up, in the order in which the rules are tried.
  datatype Outcome =
    | ExcludedTransient
    | ExcludedSparse
    | ExcludedUnknownKind
    | ExcludedUnknownAuthority
    | ExcludedAuthoritative
    | NoMetal
    | StillInFlight
    | LifetimeUnknown
    | NotCompatible
    | Eligible

  function Classify(r: Record, boundary: nat): Outcome {
    if IsFrameGraphTransient(r) then ExcludedTransient
    else if IsSparseSpecial(r) then ExcludedSparse
    else if !KnownKind(r.kind) then ExcludedUnknownKind
    else if r.authority.UnknownAuthority? then ExcludedUnknownAuthority
    else if !r.authority.Reconstructable? then ExcludedAuthoritative
    else if r.metalBytes == 0 then NoMetal
    else if LifetimeOf(r, boundary).InFlight? then StillInFlight
    else if LifetimeOf(r, boundary).UnknownLifetime? then LifetimeUnknown
    else if r.compatibilityKnown == 0 || r.layout.resourceClass.NoResource? then NotCompatible
    else Eligible
  }

  predicate Excluded(o: Outcome) {
    || o.ExcludedTransient? || o.ExcludedSparse? || o.ExcludedUnknownKind?
    || o.ExcludedUnknownAuthority? || o.ExcludedAuthoritative?
  }

  predicate Candidate(r: Record, boundary: nat) { !Excluded(Classify(r, boundary)) }

  /** Fail-closed: whatever a producer writes into the compatibility fields, it cannot turn a record
      into a candidate or keep it from being one; it can only take an eligible record out. */
  lemma CompatibilityOnlyNarrows(r: Record, s: Record, boundary: nat)
    requires s == r.(compatibilityKnown := s.compatibilityKnown, layout := s.layout)
    ensures Candidate(r, boundary) == Candidate(s, boundary)
    ensures Classify(r, boundary) == Classify(s, boundary)
            || (Classify(r, boundary).Eligible? && Classify(s, boundary).NotCompatible?)
            || (Classify(r, boundary).NotCompatible? && Classify(s, boundary).Eligible?)
  {
  }

  // Belongs to the frame graph, in the fields themselves; sparse likewise.
  predicate FrameGraphRecord(r: Record) {
    r.kind == FrameGraphResource || r.heap == FrameGraphHeap || r.authority == Transient
  }
  predicate SparseRecord(r: Record) {
    r.kind in {SparsePageTable, SparseHeap, SparseStorageSidecar} || r.owner == SparseTexture || r.heap == Sparse
    || r.authority == SparseSpecial
  }
  // What the rules admit as a candidate.
  predicate Admissible(r: Record) {
    !FrameGraphRecord(r) && !SparseRecord(r) && r.kind != UnknownKind && r.authority == Reconstructable
  }

  /** Each outcome in the fields of the record: the rules are tried in this order, so a record that is
      both transient and sparse counts as transient, and so on. */
  lemma OutcomeIff(r: Record, boundary: nat)
    ensures var o := Classify(r, boundary);
            && (o.ExcludedTransient? <==> FrameGraphRecord(r))
            && (o.ExcludedSparse? <==> SparseRecord(r) && !FrameGraphRecord(r))
            && (o.ExcludedUnknownKind? <==> r.kind == UnknownKind && !SparseRecord(r) && !FrameGraphRecord(r))
            && (o.ExcludedUnknownAuthority? <==>
                  r.authority == UnknownAuthority && r.kind != UnknownKind && !SparseRecord(r) && !FrameGraphRecord(r))
            && (o.ExcludedAuthoritative? <==>
                  r.authority == Authoritative && r.kind != UnknownKind && !SparseRecord(r) && !FrameGraphRecord(r))
            && (o.NoMetal? <==> Admissible(r) && r.metalBytes == 0)
            && (o.StillInFlight? <==> Admissible(r) && r.metalBytes > 0 && r.inFlightSerial > 0)
            && (o.LifetimeUnknown? <==>
                  Admissible(r) && r.metalBytes > 0 && r.inFlightSerial == 0 && Ageless(r, boundary))
            && (o.NotCompatible? <==>
                  Admissible(r) && r.metalBytes > 0 && !Ageless(r, boundary)
                  && (r.compatibilityKnown == 0 || r.layout.resourceClass == NoResource))
  {
  }

  /** A record is eligible for a bucket exactly when every one of these was proved of it. */
  lemma EligibleIff(r: Record, boundary: nat)
    ensures Classify(r, boundary).Eligible? <==>
            && r.authority == Reconstructable
            && r.kind !in {UnknownKind, FrameGraphResource, SparsePageTable, SparseHeap, SparseStorageSidecar}
            && r.owner != SparseTexture && r.heap != FrameGraphHeap && r.heap != Sparse
            && r.metalBytes > 0 && r.inFlightSerial == 0
            && r.lastUseCommandSerial > 0 && r.lastUseFrame > 0 && boundary > 0
            && r.compatibilityKnown != 0 && r.layout.resourceClass != NoResource
  {
  }

  // ----- R5 -----

  datatype EvictionScope = NoScope | TextureViewScope | ExpandedIndexScope | PrimaryTextureScope

  function ScopeOf(r: Record): EvictionScope {
    if !r.authority.Reconstructable? then NoScope
    else if r.owner.Texture? && r.kind.TextureView?
            && (r.diagnosticBucketId == 1 || r.diagnosticBucketId == 2 || r.diagnosticBucketId == 5)
      then TextureViewScope
    else if r.owner.Buffer? && r.kind.ExpandedIndexCache? && r.diagnosticBucketId == 3 then ExpandedIndexScope
    else if r.owner.Texture? && r.kind.MetalTexture? && r.diagnosticBucketId == 4 then PrimaryTextureScope
    else NoScope
  }

  /** The eviction scope of a record, in its fields. */
  lemma ScopeIff(r: Record)
    ensures ScopeOf(r).TextureViewScope? <==>
            r.authority == Reconstructable && r.owner == Texture && r.kind == TextureView
            && r.diagnosticBucketId in {1, 2, 5}
    ensures ScopeOf(r).ExpandedIndexScope? <==>
            r.authority == Reconstructable && r.owner == Buffer && r.kind == ExpandedIndexCache
            && r.diagnosticBucketId == 3
    ensures ScopeOf(r).PrimaryTextureScope? <==>
            r.authority == Reconstructable && r.owner == Texture && r.kind == MetalTexture
            && r.diagnosticBucketId == 4
  {
  }

  predicate R5Reconstructable(r: Record) { KnownKind(r.kind) && r.authority.Reconstructable? }

  /** Whatever R8 would bucket and whatever R5 would evict, the dry run already calls reconstructable. */
  lemma BothWithinDryRun(r: Record, boundary: nat)
    ensures Candidate(r, boundary) ==> R5Reconstructable(r)
    ensures !ScopeOf(r).NoScope? ==> R5Reconstructable(r)
    ensures Candidate(r, boundary) <==> R5Reconstructable(r) && !IsFrameGraphTransient(r) && !IsSparseSpecial(r)
  {
  }

  // metalR5OrderingRecordLess: least recently used first, unknown last use at the end.
  predicate OrderingLess(x: Record, y: Record) {
    var xKnown, yKnown := x.lastUseCommandSerial != 0, y.lastUseCommandSerial != 0;
    if xKnown != yKnown then xKnown
    else if xKnown && x.lastUseCommandSerial != y.lastUseCommandSerial
      then x.lastUseCommandSerial < y.lastUseCommandSerial
    else if x.lastUseFrame != y.lastUseFrame then x.lastUseFrame < y.lastUseFrame
    else if x.retainedBytes != y.retainedBytes then x.retainedBytes > y.retainedBytes
    else x.recordId < y.recordId
  }

  /** The eviction order is a strict total order on records with different ids, so sorting by it is
      well defined and deterministic. */
  lemma OrderingIsTotal(x: Record, y: Record, z: Record)
    ensures !OrderingLess(x, x)
    ensures OrderingLess(x, y) && OrderingLess(y, z) ==> OrderingLess(x, z)
    ensures x.recordId != y.recordId ==> OrderingLess(x, y) != OrderingLess(y, x)
  {
  }

  /** What the order puts first: known last use before unknown, older use before newer by serial and
      then by frame, then larger before smaller, then the lower id. */
  lemma OrderingPrefers(x: Record, y: Record)
    ensures x.lastUseCommandSerial > 0 && y.lastUseCommandSerial == 0 ==> OrderingLess(x, y)
    ensures 0 < x.lastUseCommandSerial < y.lastUseCommandSerial ==> OrderingLess(x, y)
    ensures x.lastUseCommandSerial == y.lastUseCommandSerial && x.lastUseFrame < y.lastUseFrame ==> OrderingLess(x, y)
    ensures (x.lastUseCommandSerial == y.lastUseCommandSerial && x.lastUseFrame == y.lastUseFrame
             && x.retainedBytes > y.retainedBytes)
            ==> OrderingLess(x, y)
    ensures (x.lastUseCommandSerial == y.lastUseCommandSerial && x.lastUseFrame == y.lastUseFrame
             && x.retainedBytes == y.retainedBytes && x.recordId < y.recordId)
            ==> OrderingLess(x, y)
  {
  }

  // ----- tallies -----

  // A number of records and the sum of their retained bytes.
  datatype Tally = Tally(records: nat, bytes: nat)

  const NOTHING := Tally(0, 0)

  function Add(t: Tally, r: Record): Tally { Tally(t.records + 1, t.bytes + r.retainedBytes) }

  // One value for each heap class.
  datatype ByHeap<T> = ByHeap(host: T, metalDevice: T, frameGraph: T, cache: T, sidecar: T, sparse: T, unknown: T)

  function AtHeap<T>(b: ByHeap<T>, h: Heap): T {
    match h
    case HostHeap => b.host
    case MetalDevice => b.metalDevice
    case FrameGraphHeap => b.frameGraph
    case Cache => b.cache
    case Sidecar => b.sidecar
    case Sparse => b.sparse
    case UnknownHeap => b.unknown
  }

  function SetHeap<T>(b: ByHeap<T>, h: Heap, t: T): (b': ByHeap<T>)
    ensures forall g :: AtHeap(b', g) == if g == h then t else AtHeap(b, g)
  {
    match h
    case HostHeap => b.(host := t)
    case MetalDevice => b.(metalDevice := t)
    case FrameGraphHeap => b.(frameGraph := t)
    case Cache => b.(cache := t)
    case Sidecar => b.(sidecar := t)
    case Sparse => b.(sparse := t)
    case UnknownHeap => b.(unknown := t)
  }

  // ----- the R5 dry run -----

  predicate FuturePurgeableKind(k: Kind) {
    k.MetalBuffer? || k.MetalTexture? || k.TextureView? || k.Fp64SidecarMetal? || k.TextureBufferExpansion?
  }

  // The sets of records the dry run counts.
  datatype Category = Kept | Refused | OfUnknownKind | WithAuthority(a: Authority) | KeptOnHeap(h: Heap) | Purgeable

  predicate In(r: Record, c: Category) {
    match c
    case Kept => R5Reconstructable(r)
    case Refused => !R5Reconstructable(r)
    case OfUnknownKind => !KnownKind(r.kind)
    case WithAuthority(a) => r.authority == a
    case KeptOnHeap(h) => R5Reconstructable(r) && r.heap == h
    case Purgeable => R5Reconstructable(r) && r.metalBytes != 0 && FuturePurgeableKind(r.kind)
  }

  function TallyIn(rs: seq<Record>, c: Category): Tally {
    if rs == [] then NOTHING
    else
      var n := |rs| - 1;
      if In(rs[n], c) then Add(TallyIn(rs[..n], c), rs[n]) else TallyIn(rs[..n], c)
  }

  function MetalIn(rs: seq<Record>, c: Category): nat {
    if rs == [] then 0
    else
      var n := |rs| - 1;
      MetalIn(rs[..n], c) + if In(rs[n], c) then rs[n].metalBytes else 0
  }

  function HostIn(rs: seq<Record>, c: Category): nat {
    if rs == [] then 0
    else
      var n := |rs| - 1;
      HostIn(rs[..n], c) + if In(rs[n], c) then rs[n].hostBytes else 0
  }

  lemma TallyOneMore(rs: seq<Record>, r: Record, c: Category)
    ensures TallyIn(rs + [r], c) == if In(r, c) then Add(TallyIn(rs, c), r) else TallyIn(rs, c)
    ensures MetalIn(rs + [r], c) == MetalIn(rs, c) + if In(r, c) then r.metalBytes else 0
    ensures HostIn(rs + [r], c) == HostIn(rs, c) + if In(r, c) then r.hostBytes else 0
  {
    assert (rs + [r])[..|rs|] == rs;
  }

  // The conserved quantities of the dry run, for one set of counts.
  predicate Conserves(n: nat, kept: Tally, refused: Tally, purgeable: Tally, keptMetal: nat, purgeableMetal: nat) {
    && kept.records + refused.records == n
    && purgeable.records <= kept.records && purgeable.bytes <= kept.bytes && purgeableMetal <= keptMetal
  }

  /** Every record is kept or refused, and the purgeable ones are among the kept. */
  lemma {:induction false} DryRunConserves(rs: seq<Record>)
    ensures Conserves(|rs|, TallyIn(rs, Kept), TallyIn(rs, Refused), TallyIn(rs, Purgeable),
                      MetalIn(rs, Kept), MetalIn(rs, Purgeable))
  {
    if rs != [] { DryRunConserves(rs[..|rs| - 1]); }
  }

  /** The kept bytes are spread over the seven heap classes. */
  lemma {:induction false} KeptBytesByHeap(rs: seq<Record>)
    ensures TallyIn(rs, Kept).bytes
            == TallyIn(rs, KeptOnHeap(HostHeap)).bytes + TallyIn(rs, KeptOnHeap(MetalDevice)).bytes
               + TallyIn(rs, KeptOnHeap(FrameGraphHeap)).bytes + TallyIn(rs, KeptOnHeap(Cache)).bytes
               + TallyIn(rs, KeptOnHeap(Sidecar)).bytes + TallyIn(rs, KeptOnHeap(Sparse)).bytes
               + TallyIn(rs, KeptOnHeap(UnknownHeap)).bytes
  {
    if rs != [] { KeptBytesByHeap(rs[..|rs| - 1]); }
  }

  /** The transient, sparse and unknown records are among the refused. */
  lemma {:induction false} ExcludedAreRefused(rs: seq<Record>)
    ensures TallyIn(rs, WithAuthority(Transient)).records + TallyIn(rs, WithAuthority(SparseSpecial)).records
            + TallyIn(rs, WithAuthority(UnknownAuthority)).records <= TallyIn(rs, Refused).records
  {
    if rs != [] { ExcludedAreRefused(rs[..|rs| - 1]); }
  }

  // The retained bytes of the kept records, by heap class.
  function KeptByHeap(rs: seq<Record>): ByHeap<nat> {
    ByHeap(TallyIn(rs, KeptOnHeap(HostHeap)).bytes, TallyIn(rs, KeptOnHeap(MetalDevice)).bytes,
           TallyIn(rs, KeptOnHeap(FrameGraphHeap)).bytes, TallyIn(rs, KeptOnHeap(Cache)).bytes,
           TallyIn(rs, KeptOnHeap(Sidecar)).bytes, TallyIn(rs, KeptOnHeap(Sparse)).bytes,
           TallyIn(rs, KeptOnHeap(UnknownHeap)).bytes)
  }

  lemma KeptOneMore(rs: seq<Record>, r: Record)
    ensures KeptByHeap(rs + [r])
            == if R5Reconstructable(r)
               then SetHeap<nat>(KeptByHeap(rs), r.heap, AtHeap<nat>(KeptByHeap(rs), r.heap) + r.retainedBytes)
               else KeptByHeap(rs)
  {
    hide TallyIn;
    forall h: Heap { TallyOneMore(rs, r, KeptOnHeap(h)); }
  }

  // What the dry run counts.
  datatype Counts = Counts(reconstructable: Tally, authoritative: Tally, unknownKind: Tally, unknownAuthority: Tally,
                           transientExcluded: Tally, sparseExcluded: Tally, candidates: Tally,
                           candidateHostBytes: nat, candidateMetalBytes: nat, candidateHeapBytes: ByHeap<nat>,
                           futurePurgeableRecords: nat, futurePurgeableBytes: nat)

  function CountsOf(rs: seq<Record>): Counts {
    Counts(TallyIn(rs, Kept), TallyIn(rs, Refused), TallyIn(rs, OfUnknownKind),
           TallyIn(rs, WithAuthority(UnknownAuthority)), TallyIn(rs, WithAuthority(Transient)),
           TallyIn(rs, WithAuthority(SparseSpecial)), TallyIn(rs, Kept),
           HostIn(rs, Kept), MetalIn(rs, Kept), KeptByHeap(rs),
           TallyIn(rs, Purgeable).records, MetalIn(rs, Purgeable))
  }

  function AddIf(t: Tally, r: Record, c: Category): Tally { if In(r, c) then Add(t, r) else t }

  // The counts after one more record.
  function Counted(c: Counts, r: Record): Counts {
    var kept := R5Reconstructable(r);
    Counts(AddIf(c.reconstructable, r, Kept), AddIf(c.authoritative, r, Refused),
           AddIf(c.unknownKind, r, OfUnknownKind),
           AddIf(c.unknownAuthority, r, WithAuthority(UnknownAuthority)),
           AddIf(c.transientExcluded, r, WithAuthority(Transient)),
           AddIf(c.sparseExcluded, r, WithAuthority(SparseSpecial)), AddIf(c.candidates, r, Kept),
           c.candidateHostBytes + (if kept then r.hostBytes else 0),
           c.candidateMetalBytes + (if kept then r.metalBytes else 0),
           if kept
           then SetHeap<nat>(c.candidateHeapBytes, r.heap, AtHeap<nat>(c.candidateHeapBytes, r.heap) + r.retainedBytes)
           else c.candidateHeapBytes,
           c.futurePurgeableRecords + (if In(r, Purgeable) then 1 else 0),
           c.futurePurgeableBytes + if In(r, Purgeable) then r.metalBytes else 0)
  }

  lemma CountsOneMore(rs: seq<Record>, r: Record)
    ensures CountsOf(rs + [r]) == Counted(CountsOf(rs), r)
  {
    hide TallyIn, MetalIn, HostIn, AtHeap, SetHeap, KeptByHeap;
    forall c: Category { TallyOneMore(rs, r, c); }
    KeptOneMore(rs, r);
  }

  // ----- the counts are sums over the records -----

  function Both(t: Tally, u: Tally): Tally { Tally(t.records + u.records, t.bytes + u.bytes) }

  lemma {:induction false} TallyAdds(rs: seq<Record>, more: seq<Record>, c: Category)
    ensures TallyIn(rs + more, c) == Both(TallyIn(rs, c), TallyIn(more, c))
    ensures MetalIn(rs + more, c) == MetalIn(rs, c) + MetalIn(more, c)
    ensures HostIn(rs + more, c) == HostIn(rs, c) + HostIn(more, c)
  {
    if more == [] {
      assert rs + more == rs;
    } else {
      var n := |more| - 1;
      assert (rs + more)[..|rs| + n] == rs + more[..n];
      TallyAdds(rs, more[..n], c);
    }
  }

  function TwoHeaps(b: ByHeap<nat>, c: ByHeap<nat>): ByHeap<nat> {
    ByHeap(b.host + c.host, b.metalDevice + c.metalDevice, b.frameGraph + c.frameGraph, b.cache + c.cache,
           b.sidecar + c.sidecar, b.sparse + c.sparse, b.unknown + c.unknown)
  }

  function BothCounts(c: Counts, d: Counts): Counts {
    Counts(Both(c.reconstructable, d.reconstructable), Both(c.authoritative, d.authoritative),
           Both(c.unknownKind, d.unknownKind), Both(c.unknownAuthority, d.unknownAuthority),
           Both(c.transientExcluded, d.transientExcluded), Both(c.sparseExcluded, d.sparseExcluded),
           Both(c.candidates, d.candidates), c.candidateHostBytes + d.candidateHostBytes,
           c.candidateMetalBytes + d.candidateMetalBytes, TwoHeaps(c.candidateHeapBytes, d.candidateHeapBytes),
           c.futurePurgeableRecords + d.futurePurgeableRecords, c.futurePurgeableBytes + d.futurePurgeableBytes)
  }

  /** The counts of two sequences of records add up ... */
  lemma CountsAdd(rs: seq<Record>, more: seq<Record>)
    ensures CountsOf(rs + more) == BothCounts(CountsOf(rs), CountsOf(more))
  {
    hide TallyIn, MetalIn, HostIn;
    forall c: Category { TallyAdds(rs, more, c); }
  }

  function Once(b: bool, r: Record): Tally { if b then Tally(1, r.retainedBytes) else Tally(0, 0) }

  /** ... and one record counts as its fields say: with CountsAdd this fixes every counter. */
  lemma CountsOfOne(r: Record)
    ensures var c := CountsOf([r]); var kept := r.kind != UnknownKind && r.authority == Reconstructable;
            var h := c.candidateHeapBytes;
            && c.reconstructable == c.candidates == Once(kept, r) && c.authoritative == Once(!kept, r)
            && c.unknownKind == Once(r.kind == UnknownKind, r)
            && c.unknownAuthority == Once(r.authority == UnknownAuthority, r)
            && c.transientExcluded == Once(r.authority == Transient, r)
            && c.sparseExcluded == Once(r.authority == SparseSpecial, r)
            && c.candidateHostBytes == (if kept then r.hostBytes else 0)
            && c.candidateMetalBytes == (if kept then r.metalBytes else 0)
            && h.host == Once(kept && r.heap == HostHeap, r).bytes
            && h.metalDevice == Once(kept && r.heap == MetalDevice, r).bytes
            && h.frameGraph == Once(kept && r.heap == FrameGraphHeap, r).bytes
            && h.cache == Once(kept && r.heap == Cache, r).bytes
            && h.sidecar == Once(kept && r.heap == Sidecar, r).bytes
            && h.sparse == Once(kept && r.heap == Sparse, r).bytes
            && h.unknown == Once(kept && r.heap == UnknownHeap, r).bytes
    ensures var c := CountsOf([r]);
            var purgeable := r.kind in {MetalBuffer, MetalTexture, TextureView, Fp64SidecarMetal,
                                        TextureBufferExpansion}
                             && r.authority == Reconstructable && r.metalBytes > 0;
            && c.futurePurgeableRecords == (if purgeable then 1 else 0)
            && c.futurePurgeableBytes == (if purgeable then r.metalBytes else 0)
  {
    hide TallyIn, MetalIn, HostIn;
    forall c: Category { OneRecord(r, c); }
  }

  lemma OneRecord(r: Record, c: Category)
    ensures TallyIn([r], c) == Once(In(r, c), r)
    ensures MetalIn([r], c) == (if In(r, c) then r.metalBytes else 0)
    ensures HostIn([r], c) == (if In(r, c) then r.hostBytes else 0)
  {
    assert [r][..0] == [];
    assert TallyIn([], c) == NOTHING;
  }

  class DryRun {
    var recordsSeen: nat
    var counts: Counts

    // The records accumulated so far.
    ghost var seen: seq<Record>

    // Every counter is what counting the records seen gives.
    ghost predicate Valid()
      reads this
    {
      recordsSeen == |seen| && counts == CountsOf(seen)
    }

    constructor ()
      ensures Valid() && seen == []
    {
      recordsSeen := 0;
      counts := Counts(NOTHING, NOTHING, NOTHING, NOTHING, NOTHING, NOTHING, NOTHING, 0, 0,
                       ByHeap(0, 0, 0, 0, 0, 0, 0), 0, 0);
      seen := [];
    }

    /** accumulateR5ResidencyDryRunRecord. */
    method Accumulate(r: Record)
      requires Valid()
      modifies this
      ensures Valid() && seen == old(seen) + [r]
    {
      hide CountsOf, AtHeap, SetHeap;
      CountsOneMore(seen, r);
      seen := seen + [r];
      recordsSeen := recordsSeen + 1;
      if !KnownKind(r.kind) { counts := counts.(unknownKind := Add(counts.unknownKind, r)); }
      if r.authority.UnknownAuthority? { counts := counts.(unknownAuthority := Add(counts.unknownAuthority, r)); }
      if r.authority.Transient? { counts := counts.(transientExcluded := Add(counts.transientExcluded, r)); }
      if r.authority.SparseSpecial? { counts := counts.(sparseExcluded := Add(counts.sparseExcluded, r)); }
      if R5Reconstructable(r) {
        counts := counts.(reconstructable := Add(counts.reconstructable, r));
        counts := counts.(candidates := Add(counts.candidates, r));
        counts := counts.(candidateHostBytes := counts.candidateHostBytes + r.hostBytes);
        counts := counts.(candidateMetalBytes := counts.candidateMetalBytes + r.metalBytes);
        var there := AtHeap<nat>(counts.candidateHeapBytes, r.heap);
        counts := counts.(candidateHeapBytes :=
          SetHeap<nat>(counts.candidateHeapBytes, r.heap, there + r.retainedBytes));
        if r.metalBytes != 0 && FuturePurgeableKind(r.kind) {
          counts := counts.(futurePurgeableRecords := counts.futurePurgeableRecords + 1);
          counts := counts.(futurePurgeableBytes := counts.futurePurgeableBytes + r.metalBytes);
        }
      } else {
        counts := counts.(authoritative := Add(counts.authoritative, r));
      }
    }
  }
}
