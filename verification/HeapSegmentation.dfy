/**
 The buckets of the R8 heap segmentation in src/context/MetalResourceResidency.h: a truncating
 group-by, one record at a time, is the group-by of the whole record sequence.
 */
module HeapSegmentation {
  import opened Arithmetic
  import opened ResidencyClasses

  // A record with the boundary serial it was accumulated at.
  datatype Row = Row(r: Record, boundary: nat)

  // The fields metalR8BucketKeyEquals compares; lifetime and size bucket are computed.
  datatype Key = Key(layout: Layout, lifetime: Lifetime, sizeBucket: nat)

  function KeyOf(x: Row): Key { Key(x.r.layout, LifetimeOf(x.r, x.boundary), SizeBucket(x.r.metalBytes)) }

  // ----- buckets -----

  datatype Bucket = Bucket(bucketId: nat, key: Key, records: nat, retainedBytes: nat, metalBytes: nat, hostBytes: nat,
                           oldestLastUse: nat, newestLastUse: nat, inFlightRecords: nat)

  function EmptyBucket(bucketId: nat, key: Key): Bucket { Bucket(bucketId, key, 0, 0, 0, 0, 0, 0, 0) }

  // metalR8AccumulateBucketRecord
  function Accumulated(b: Bucket, r: Record): Bucket {
    var s := r.lastUseCommandSerial;
    Bucket(b.bucketId, b.key, b.records + 1,
           b.retainedBytes + r.retainedBytes, b.metalBytes + r.metalBytes, b.hostBytes + r.hostBytes,
           if s != 0 && (b.oldestLastUse == 0 || s < b.oldestLastUse) then s else b.oldestLastUse,
           if s > b.newestLastUse then s else b.newestLastUse,
           b.inFlightRecords + if r.inFlightSerial != 0 then 1 else 0)
  }

  function Aggregate(bucketId: nat, key: Key, group: seq<Row>): (b: Bucket)
    ensures b.bucketId == bucketId && b.key == key
  {
    if group == [] then EmptyBucket(bucketId, key)
    else Accumulated(Aggregate(bucketId, key, group[..|group| - 1]), group[|group| - 1].r)
  }

  // ----- the batch view -----

  predicate IsEligible(x: Row) { Classify(x.r, x.boundary).Eligible? }

  // The rows that reach the buckets, in order.
  function Eligibles(rows: seq<Row>): (e: seq<Row>)
    ensures forall j :: 0 <= j < |e| ==> IsEligible(e[j])
  {
    if rows == [] then []
    else
      var n := |rows| - 1;
      Eligibles(rows[..n]) + if IsEligible(rows[n]) then [rows[n]] else []
  }

  // The distinct keys in order of first appearance.
  function Keys(e: seq<Row>): (ks: seq<Key>)
    ensures forall i, j :: 0 <= i < j < |ks| ==> ks[i] != ks[j]
  {
    if e == [] then []
    else
      var n := |e| - 1;
      var ks := Keys(e[..n]);
      if KeyOf(e[n]) in ks then ks else ks + [KeyOf(e[n])]
  }

  // All rows with a given key.
  function Group(e: seq<Row>, k: Key): (g: seq<Row>)
    ensures forall j :: 0 <= j < |g| ==> g[j] in e && KeyOf(g[j]) == k
  {
    if e == [] then []
    else
      var n := |e| - 1;
      assert forall x :: x in e[..n] ==> x in e;
      Group(e[..n], k) + if KeyOf(e[n]) == k then [e[n]] else []
  }

  // The first `limit` groups, numbered from 1.
  function Buckets(e: seq<Row>, limit: nat): (bs: seq<Bucket>)
    ensures |bs| == Min(limit, |Keys(e)|)
  {
    seq(Min(limit, |Keys(e)|), i requires 0 <= i < Min(limit, |Keys(e)|) =>
      Aggregate(i + 1, Keys(e)[i], Group(e, Keys(e)[i])))
  }

  predicate Placed(e: seq<Row>, limit: nat, k: Key) { k in Keys(e)[..Min(limit, |Keys(e)|)] }

  // The eligible rows whose key came too late for a bucket.
  function Truncated(e: seq<Row>, limit: nat, upTo: nat): (t: seq<Row>)
    requires upTo <= |e|
  {
    if upTo == 0 then []
    else Truncated(e, limit, upTo - 1) + if Placed(e, limit, KeyOf(e[upTo - 1])) then [] else [e[upTo - 1]]
  }

  // ----- which rows share a bucket -----

  // Two rows that heaps could hold side by side: the same twelve compatibility fields, the same
  // lifetime, and Metal sizes between the same powers of two.
  ghost predicate Alike(x: Row, y: Row) {
    var l, m := x.r.layout, y.r.layout;
    && l.resourceClass == m.resourceClass && l.textureClass == m.textureClass && l.storageMode == m.storageMode
    && l.cpuCacheMode == m.cpuCacheMode && l.hazardTrackingMode == m.hazardTrackingMode
    && l.resourceOptions == m.resourceOptions && l.textureUsage == m.textureUsage
    && l.textureType == m.textureType && l.pixelFormat == m.pixelFormat && l.sampleCount == m.sampleCount
    && l.mipmapLevels == m.mipmapLevels && l.arrayLength == m.arrayLength
    && LifetimeOf(x.r, x.boundary) == LifetimeOf(y.r, y.boundary)
    && forall b: nat :: x.r.metalBytes <= Pow2(b) <==> y.r.metalBytes <= Pow2(b)
  }

  /** Two rows have the same key exactly when they are alike. */
  lemma KeyOfIff(x: Row, y: Row)
    requires x.r.metalBytes > 0 && y.r.metalBytes > 0
    ensures KeyOf(x) == KeyOf(y) <==> Alike(x, y)
  {
    var i, j := SizeBucket(x.r.metalBytes), SizeBucket(y.r.metalBytes);
    forall b: nat
      ensures x.r.metalBytes <= Pow2(b) <==> i <= b
      ensures y.r.metalBytes <= Pow2(b) <==> j <= b
    {
      SizeBucketIsCeilLog2(x.r.metalBytes, b);
      SizeBucketIsCeilLog2(y.r.metalBytes, b);
    }
    if Alike(x, y) {
      assert x.r.metalBytes <= Pow2(i) && y.r.metalBytes <= Pow2(j);
      assert i == j;
      assert x.r.layout == y.r.layout;
    }
  }

  lemma {:induction false} GroupHas(e: seq<Row>, k: Key, x: Row)
    ensures x in Group(e, k) <==> x in e && KeyOf(x) == k
  {
    if e != [] {
      var n := |e| - 1;
      GroupHas(e[..n], k, x);
      assert e == e[..n] + [e[n]];
    }
  }

  /** Two eligible rows of a sequence end up in one group exactly when they are alike. */
  lemma SameGroupIff(e: seq<Row>, x: Row, y: Row)
    requires x in e && y in e && IsEligible(x) && IsEligible(y)
    ensures (exists k :: x in Group(e, k) && y in Group(e, k)) <==> Alike(x, y)
  {
    hide KeyOf, Alike, Group;
    EligibleIff(x.r, x.boundary);
    EligibleIff(y.r, y.boundary);
    KeyOfIff(x, y);
    forall k ensures (x in Group(e, k) <==> KeyOf(x) == k) && (y in Group(e, k) <==> KeyOf(y) == k) {
      GroupHas(e, k, x);
      GroupHas(e, k, y);
    }
    if Alike(x, y) { assert x in Group(e, KeyOf(x)) && y in Group(e, KeyOf(x)); }
  }

  /** Keys come in order of first appearance: an earlier one has a row before any row of a later one. */
  lemma {:induction false} FirstAppearance(e: seq<Row>, i: nat, j: nat) returns (p: nat)
    requires i < j < |Keys(e)|
    ensures p < |e| && KeyOf(e[p]) == Keys(e)[i] && forall q :: 0 <= q <= p ==> KeyOf(e[q]) != Keys(e)[j]
  {
    var n := |e| - 1;
    if j < |Keys(e[..n])| {
      p := FirstAppearance(e[..n], i, j);
    } else {
      assert e[..n] + [e[n]] == e;
      KeysOneMore(e[..n], e[n]);
      KeysComplete(e[..n], Keys(e)[i]);
      KeysComplete(e[..n], Keys(e)[j]);
      p :| 0 <= p < n && KeyOf(e[..n][p]) == Keys(e)[i];
      forall q | 0 <= q <= p ensures KeyOf(e[q]) != Keys(e)[j] { assert e[..n][q] == e[q]; }
    }
  }

  // ----- one more row -----

  lemma KeysOneMore(e: seq<Row>, x: Row)
    ensures Keys(e + [x]) == if KeyOf(x) in Keys(e) then Keys(e) else Keys(e) + [KeyOf(x)]
  {
    assert (e + [x])[..|e|] == e;
  }

  lemma GroupOneMore(e: seq<Row>, x: Row, k: Key)
    ensures Group(e + [x], k) == Group(e, k) + if KeyOf(x) == k then [x] else []
  {
    assert (e + [x])[..|e|] == e;
  }

  lemma AggregateOneMore(id: nat, k: Key, g: seq<Row>, x: Row)
    ensures Aggregate(id, k, g + [x]) == Accumulated(Aggregate(id, k, g), x.r)
  {
    assert (g + [x])[..|g|] == g;
  }

  /** The keys are exactly those of the rows. */
  lemma {:induction false} KeysComplete(e: seq<Row>, k: Key)
    ensures k in Keys(e) <==> exists j :: 0 <= j < |e| && KeyOf(e[j]) == k
  {
    if e != [] {
      var n := |e| - 1;
      assert e[..n] + [e[n]] == e;
      KeysOneMore(e[..n], e[n]);
      KeysComplete(e[..n], k);
    }
  }

  // A key that has not appeared has an empty group.
  lemma {:induction false} NewKeyNoGroup(e: seq<Row>, k: Key)
    requires k !in Keys(e)
    ensures Group(e, k) == []
  {
    if e != [] {
      var n := |e| - 1;
      KeysOneMore(e[..n], e[n]);
      assert e[..n] + [e[n]] == e;
      NewKeyNoGroup(e[..n], k);
    }
  }

  // The position of a key in a list of buckets, or its length.
  function Find(bs: seq<Bucket>, k: Key): (i: nat)
    ensures i <= |bs| && (i < |bs| ==> bs[i].key == k) && forall j :: 0 <= j < i ==> bs[j].key != k
  {
    if bs == [] then 0
    else
      var n := |bs| - 1;
      var i := Find(bs[..n], k);
      assert forall j :: 0 <= j < i ==> bs[..n][j] == bs[j];
      if i < n then i else if bs[n].key == k then n else n + 1
  }

  // metalR8AppendProspectiveBucketRecord, on the bucket list.
  function Appended(bs: seq<Bucket>, limit: nat, x: Row): seq<Bucket> {
    var i := Find(bs, KeyOf(x));
    if i < |bs| then bs[i := Accumulated(bs[i], x.r)]
    else if |bs| >= limit then bs
    else bs + [Accumulated(EmptyBucket(|bs| + 1, KeyOf(x)), x.r)]
  }

  predicate Accepted(bs: seq<Bucket>, limit: nat, x: Row) { Find(bs, KeyOf(x)) < |bs| || |bs| < limit }

  lemma BucketAt(e: seq<Row>, limit: nat, i: nat)
    requires i < limit && i < |Keys(e)|
    ensures i < |Buckets(e, limit)| && Buckets(e, limit)[i] == Aggregate(i + 1, Keys(e)[i], Group(e, Keys(e)[i]))
  {
    hide Keys, Group, Aggregate;
  }

  lemma KeyStays(e: seq<Row>, x: Row, i: nat)
    requires i < |Keys(e)|
    ensures i < |Keys(e + [x])| && Keys(e + [x])[i] == Keys(e)[i]
  {
    KeysOneMore(e, x);
  }

  // A group of rows with one key, after one more row.
  lemma GroupAggregate(e: seq<Row>, x: Row, id: nat, k: Key)
    ensures var b := Aggregate(id, k, Group(e, k));
            Aggregate(id, k, Group(e + [x], k)) == if KeyOf(x) == k then Accumulated(b, x.r) else b
  {
    hide Aggregate, Group, Accumulated, KeyOf;
    GroupOneMore(e, x, k);
    AggregateOneMore(id, k, Group(e, k), x);
    assert Group(e, k) + [] == Group(e, k);
  }

  // A bucket that stays in place gains the row if the row has its key.
  lemma BucketOneMore(e: seq<Row>, x: Row, limit: nat, i: nat)
    requires i < |Buckets(e, limit)|
    ensures i < |Buckets(e + [x], limit)|
    ensures var b := Buckets(e, limit)[i];
            Buckets(e + [x], limit)[i] == if b.key == KeyOf(x) then Accumulated(b, x.r) else b
  {
    hide Aggregate, Group, Accumulated, KeyOf, Keys, Buckets;
    KeyStays(e, x, i);
    BucketAt(e, limit, i);
    BucketAt(e + [x], limit, i);
    GroupAggregate(e, x, i + 1, Keys(e)[i]);
  }

  // A bucket is opened for a new key while there is room.
  lemma BucketOpened(e: seq<Row>, x: Row, limit: nat)
    requires KeyOf(x) !in Keys(e) && |Keys(e)| < limit
    ensures var n := |Keys(e)|;
            && |Buckets(e + [x], limit)| == n + 1
            && Buckets(e + [x], limit)[n] == Accumulated(EmptyBucket(n + 1, KeyOf(x)), x.r)
  {
    hide KeyOf, Accumulated, Keys, Group, Buckets;
    var n, k := |Keys(e)|, KeyOf(x);
    KeysOneMore(e, x);
    assert Keys(e + [x])[n] == k;
    BucketAt(e + [x], limit, n);
    NewKeyNoGroup(e, k);
    GroupOneMore(e, x, k);
    AggregateOneMore(n + 1, k, [], x);
    assert [] + [x] == [x];
  }

  /** Appending one row to the buckets of a prefix gives the buckets of the longer sequence; the row
      is accepted exactly when its key is among the first `limit`. */
  lemma AppendedIsBatch(e: seq<Row>, x: Row, limit: nat)
    ensures Appended(Buckets(e, limit), limit, x) == Buckets(e + [x], limit)
    ensures Accepted(Buckets(e, limit), limit, x) == Placed(e + [x], limit, KeyOf(x))
  {
    hide KeyOf, Accumulated, Aggregate, Group, Keys, Buckets;
    var bs, cs, k := Buckets(e, limit), Buckets(e + [x], limit), KeyOf(x);
    KeysOneMore(e, x);
    FindIsKey(e, limit, k);
    FindIsKey(e + [x], limit, k);
    OnlyFound(bs, k);
    forall i: nat | i < |bs|
      ensures i < |cs| && cs[i] == if i == Find(bs, k) then Accumulated(bs[i], x.r) else bs[i]
    {
      BucketOneMore(e, x, limit, i);
    }
    if k !in Keys(e) && |Keys(e)| < limit {
      BucketOpened(e, x, limit);
      LastPlaced(e, x, limit);
    } else if k in Keys(e) {
      PlacesStay(e, x, limit, k);
    } else {
      LastPlaced(e, x, limit);
    }
    assert Appended(bs, limit, x) == cs;
  }

  lemma LastPlaced(e: seq<Row>, x: Row, limit: nat)
    requires KeyOf(x) !in Keys(e)
    ensures Placed(e + [x], limit, KeyOf(x)) <==> |Keys(e)| < limit
    ensures !Placed(e, limit, KeyOf(x))
  {
    KeysOneMore(e, x);
    var ls, n := Keys(e + [x]), |Keys(e)|;
    assert ls[n] == KeyOf(x);
    if n < limit {
      assert ls[..Min(limit, n + 1)][n] == KeyOf(x);
    }
  }

  // The bucket of a key is at the position of the key.
  lemma FindIsKey(e: seq<Row>, limit: nat, k: Key)
    ensures Find(Buckets(e, limit), k) < |Buckets(e, limit)| <==> Placed(e, limit, k)
    ensures forall i, j :: 0 <= i < j < |Buckets(e, limit)| ==> Buckets(e, limit)[i].key != Buckets(e, limit)[j].key
  {
    var bs := Buckets(e, limit);
    assert forall i :: 0 <= i < |bs| ==> bs[i].key == Keys(e)[i] == Keys(e)[..|bs|][i];
  }

  lemma OnlyFound(bs: seq<Bucket>, k: Key)
    requires forall i, j :: 0 <= i < j < |bs| ==> bs[i].key != bs[j].key
    ensures forall i :: 0 <= i < |bs| ==> (bs[i].key == k <==> i == Find(bs, k))
  {
  }

  // Places are never lost: the first `limit` keys stay the first `limit` keys.
  lemma PlacesStay(e: seq<Row>, x: Row, limit: nat, k: Key)
    requires k in Keys(e)
    ensures Placed(e + [x], limit, k) == Placed(e, limit, k)
  {
    KeysOneMore(e, x);
    var ks, ls := Keys(e), Keys(e + [x]);
    var n := Min(limit, |ks|);
    assert ls[..n] == ks[..n];
    if |ls| > |ks| && limit > |ks| { assert ks[..n] == ks; }
  }

  lemma {:induction false} TruncatedOneMore(e: seq<Row>, x: Row, limit: nat, upTo: nat)
    requires upTo <= |e|
    ensures Truncated(e + [x], limit, upTo) == Truncated(e, limit, upTo)
  {
    if upTo > 0 {
      TruncatedOneMore(e, x, limit, upTo - 1);
      KeysComplete(e, KeyOf(e[upTo - 1]));
      PlacesStay(e, x, limit, KeyOf(e[upTo - 1]));
    }
  }

  lemma TruncatedGrows(e: seq<Row>, x: Row, limit: nat)
    ensures Truncated(e + [x], limit, |e| + 1)
            == Truncated(e, limit, |e|) + if Accepted(Buckets(e, limit), limit, x) then [] else [x]
  {
    TruncatedOneMore(e, x, limit, |e|);
    AppendedIsBatch(e, x, limit);
  }

  // ----- what a bucket holds -----

  function Retained(g: seq<Row>): nat { if g == [] then 0 else Retained(g[..|g| - 1]) + g[|g| - 1].r.retainedBytes }
  function Metal(g: seq<Row>): nat { if g == [] then 0 else Metal(g[..|g| - 1]) + g[|g| - 1].r.metalBytes }
  function Host(g: seq<Row>): nat { if g == [] then 0 else Host(g[..|g| - 1]) + g[|g| - 1].r.hostBytes }

  /** The bucket of a group of eligible rows: their number, byte sums, and earliest and latest last
      use, all known; no row of it is in flight. */
  lemma {:induction false} AggregateMeans(id: nat, k: Key, g: seq<Row>)
    requires forall j :: 0 <= j < |g| ==> IsEligible(g[j])
    ensures var b := Aggregate(id, k, g);
            && b.records == |g| && b.retainedBytes == Retained(g) && b.metalBytes == Metal(g) && b.hostBytes == Host(g)
            && b.inFlightRecords == 0
            && (forall j :: 0 <= j < |g| ==> 0 < b.oldestLastUse <= g[j].r.lastUseCommandSerial <= b.newestLastUse)
            && (g != [] ==> (exists j :: 0 <= j < |g| && g[j].r.lastUseCommandSerial == b.oldestLastUse)
                            && exists j :: 0 <= j < |g| && g[j].r.lastUseCommandSerial == b.newestLastUse)
            && (g == [] ==> b.oldestLastUse == 0 == b.newestLastUse)
  {
    if g != [] {
      var n := |g| - 1;
      var h := g[..n];
      AggregateMeans(id, k, h);
      var a, b := Aggregate(id, k, h), Aggregate(id, k, g);
      assert IsEligible(g[n]);
      assert forall j :: 0 <= j < n ==> h[j] == g[j];
      assert b.oldestLastUse == g[n].r.lastUseCommandSerial || (n > 0 && b.oldestLastUse == a.oldestLastUse);
      assert b.newestLastUse == g[n].r.lastUseCommandSerial || (n > 0 && b.newestLastUse == a.newestLastUse);
    }
  }

  /** The buckets after any sequence: for each of the first min(limit, number of distinct keys) keys
      in order of first appearance, one bucket numbered by its position, holding all eligible rows
      with that key. */
  lemma BucketsMean(e: seq<Row>, limit: nat, i: nat)
    requires i < |Buckets(e, limit)| && forall j :: 0 <= j < |e| ==> IsEligible(e[j])
    ensures var b := Buckets(e, limit)[i]; var g := Group(e, b.key);
            && |Buckets(e, limit)| == Min(limit, |Keys(e)|)
            && b.bucketId == i + 1 && b.key == Keys(e)[i] && g != []
            && b.records == |g| && b.retainedBytes == Retained(g) && b.metalBytes == Metal(g) && b.hostBytes == Host(g)
            && b.inFlightRecords == 0
            && (forall j :: 0 <= j < |g| ==> 0 < b.oldestLastUse <= g[j].r.lastUseCommandSerial <= b.newestLastUse)
            && (exists j :: 0 <= j < |g| && g[j].r.lastUseCommandSerial == b.oldestLastUse)
            && exists j :: 0 <= j < |g| && g[j].r.lastUseCommandSerial == b.newestLastUse
  {
    hide Aggregate, Retained, Metal, Host, Classify, KeyOf;
    var k := Keys(e)[i];
    forall j | 0 <= j < |Group(e, k)| ensures IsEligible(Group(e, k)[j]) {
      assert Group(e, k)[j] in e;
    }
    AggregateMeans(i + 1, k, Group(e, k));
    KeyHasGroup(e, k);
  }

  lemma {:induction false} KeyHasGroup(e: seq<Row>, k: Key)
    requires k in Keys(e)
    ensures Group(e, k) != []
  {
    if e != [] {
      var n := |e| - 1;
      assert e[..n] + [e[n]] == e;
      KeysOneMore(e[..n], e[n]);
      if KeyOf(e[n]) != k { KeyHasGroup(e[..n], k); }
    }
  }

  lemma {:induction false} EligibleIsRow(rows: seq<Row>, x: Row)
    requires x in Eligibles(rows)
    ensures x in rows
  {
    if rows != [] {
      var n := |rows| - 1;
      if x != rows[n] { EligibleIsRow(rows[..n], x); }
    }
  }

  /** Only proven rows are bucketed: reconstructable, of known kind, neither of the frame graph nor
      sparse, with Metal bytes, not in flight, of known last use and known compatibility. */
  lemma BucketedAreProven(rows: seq<Row>, k: Key, j: nat)
    requires j < |Group(Eligibles(rows), k)|
    ensures var x := Group(Eligibles(rows), k)[j]; var r := x.r;
            && x in rows && r.authority == Reconstructable
            && r.kind !in {UnknownKind, FrameGraphResource, SparsePageTable, SparseHeap, SparseStorageSidecar}
            && r.owner != SparseTexture && r.heap != FrameGraphHeap && r.heap != Sparse
            && r.metalBytes > 0 && r.inFlightSerial == 0 && r.lastUseCommandSerial > 0 && r.lastUseFrame > 0
            && r.compatibilityKnown != 0 && r.layout.resourceClass != NoResource
  {
    var x := Group(Eligibles(rows), k)[j];
    EligibleIsRow(rows, x);
    assert IsEligible(x);
    EligibleIff(x.r, x.boundary);
  }

  /** ... and every row that is proven reaches its group. */
  lemma ProvenAreGrouped(rows: seq<Row>, x: Row)
    requires x in rows && IsEligible(x)
    ensures x in Group(Eligibles(rows), KeyOf(x))
  {
    EligibleIsKept(rows, x);
    GroupHas(Eligibles(rows), KeyOf(x), x);
  }

  lemma {:induction false} EligibleIsKept(rows: seq<Row>, x: Row)
    requires x in rows && IsEligible(x)
    ensures x in Eligibles(rows)
  {
    var n := |rows| - 1;
    assert rows == rows[..n] + [rows[n]];
    if x in rows[..n] { EligibleIsKept(rows[..n], x); }
  }

  // ----- sums over all buckets -----

  function SumRecords(bs: seq<Bucket>): nat {
    if bs == [] then 0 else SumRecords(bs[..|bs| - 1]) + bs[|bs| - 1].records
  }

  function SumMetal(bs: seq<Bucket>): nat {
    if bs == [] then 0 else SumMetal(bs[..|bs| - 1]) + bs[|bs| - 1].metalBytes
  }

  lemma {:induction false} SumsOneMore(bs: seq<Bucket>, i: nat, r: Record)
    requires i < |bs|
    ensures SumRecords(bs[i := Accumulated(bs[i], r)]) == SumRecords(bs) + 1
    ensures SumMetal(bs[i := Accumulated(bs[i], r)]) == SumMetal(bs) + r.metalBytes
  {
    var n := |bs| - 1;
    var cs := bs[i := Accumulated(bs[i], r)];
    if i < n {
      assert cs[..n] == bs[..n][i := Accumulated(bs[i], r)];
      SumsOneMore(bs[..n], i, r);
    } else {
      assert cs[..n] == bs[..n];
    }
  }

  lemma AppendedSums(bs: seq<Bucket>, limit: nat, x: Row)
    ensures var cs := Appended(bs, limit, x);
            && SumRecords(cs) == SumRecords(bs) + (if Accepted(bs, limit, x) then 1 else 0)
            && SumMetal(cs) == SumMetal(bs) + if Accepted(bs, limit, x) then x.r.metalBytes else 0
  {
    hide KeyOf;
    var i := Find(bs, KeyOf(x));
    if i < |bs| {
      SumsOneMore(bs, i, x.r);
    } else if |bs| < limit {
      var b := Accumulated(EmptyBucket(|bs| + 1, KeyOf(x)), x.r);
      assert (bs + [b])[..|bs|] == bs;
    }
  }

  lemma MetalOneMore(t: seq<Row>, x: Row)
    ensures Metal(t + [x]) == Metal(t) + x.r.metalBytes
  {
    assert (t + [x])[..|t|] == t;
  }

  lemma NothingEligible(e: seq<Row>, limit: nat)
    requires e == []
    ensures SumRecords(Buckets(e, limit)) == 0 == SumMetal(Buckets(e, limit))
    ensures Truncated(e, limit, |e|) == [] && Metal(Truncated(e, limit, |e|)) == 0 == Metal(e)
  {
  }

  /** Nothing is lost: the buckets and the truncated rows together hold all eligible rows and all
      their Metal bytes. */
  lemma {:induction false} BucketsAndTruncatedAreAll(e: seq<Row>, limit: nat)
    ensures SumRecords(Buckets(e, limit)) + |Truncated(e, limit, |e|)| == |e|
    ensures SumMetal(Buckets(e, limit)) + Metal(Truncated(e, limit, |e|)) == Metal(e)
  {
    hide Appended, Accepted, Buckets, Truncated, Metal, SumRecords, SumMetal;
    if e == [] {
      NothingEligible(e, limit);
    } else {
      var n := |e| - 1;
      var h, x := e[..n], e[n];
      assert h + [x] == e;
      BucketsAndTruncatedAreAll(h, limit);
      AppendedIsBatch(h, x, limit);
      AppendedSums(Buckets(h, limit), limit, x);
      TruncatedGrows(h, x, limit);
      var t := Truncated(h, limit, n);
      MetalOneMore(t, x);
      MetalOneMore(h, x);
      assert t + [] == t;
    }
  }
}
