/**
 The lease objects of src/context/MetalCommandSubmission.h with their shared pointers, run one
 call at a time.  Moves, commits and abandons share the released flag and the RetainedObjects
 record by reference, so aliasing after a commit is visible: a lease keeps its pointer to the
 record, and an object adopted through it after the completion handler has run is never
 released.
 */
module CommandBufferLease {
  import opened Arithmetic
  import opened RetainedLedger

  function BoundedSub(x: nat, v: nat): nat { if x > v then x - v else 0 }

  // What one uninterrupted adopt or release does to a ledger.
  function Adopted(l: Ledger, v: nat): Ledger {
    Ledger(l.adopted + v, l.released, l.live + v, Max(l.peak, l.live + v))
  }
  function Released(l: Ledger, v: nat): Ledger {
    l.(released := l.released + v, live := BoundedSub(l.live, v))
  }

  /** The atomics of one account.  `spurious` bounds how often compare_exchange_weak fails for
      no reason. */
  class LedgerCells {
    var adopted: nat
    var released: nat
    var live: nat
    var peak: nat

    constructor ()
      ensures View() == EMPTY
    {
      adopted, released, live, peak := 0, 0, 0, 0;
    }

    function View(): Ledger reads this { Ledger(adopted, released, live, peak) }

    method UpdatePeak(value: nat, spurious: nat)
      modifies this`peak
      ensures peak == Max(old(peak), value)
    {
      var observed, failures, stored := peak, spurious, false;
      while value > observed && !stored
        invariant stored ==> peak == value > old(peak)
        invariant !stored ==> observed == peak == old(peak)
        decreases failures, !stored
      {
        if failures > 0 {
          failures := failures - 1;
          observed := peak;
        } else {
          peak := value;
          stored := true;
        }
      }
    }

    method BoundedSubtract(amount: nat, spurious: nat)
      modifies this`live
      ensures live == BoundedSub(old(live), amount)
    {
      if amount == 0 { return; }
      var observed, failures, stored := live, spurious, false;
      while observed != 0 && !stored
        invariant stored ==> live == BoundedSub(old(live), amount)
        invariant !stored ==> observed == live == old(live)
        decreases failures, !stored
      {
        var next := if observed > amount then observed - amount else 0;
        if failures > 0 {
          failures := failures - 1;
          observed := live;
        } else {
          live := next;
          stored := true;
        }
      }
    }

    method RecordAdopted(v: nat, spurious: nat)
      modifies this
      ensures View() == Adopted(old(View()), v)
    {
      adopted := adopted + v;
      live := live + v;
      UpdatePeak(live, spurious);
    }

    method RecordReleased(v: nat, spurious: nat)
      modifies this
      ensures View() == Released(old(View()), v)
    {
      released := released + v;
      BoundedSubtract(v, spurious);
    }
  }

  class SharedState {
    const bound: nat
    var semaphore: int
    var inFlight: int
    var submitted: nat
    var completed: nat
    const objects: LedgerCells
    const bytes: LedgerCells
    const buffers: LedgerCells

    constructor (requested: nat)
      ensures Valid() && fresh(Cells()) && bound == (if requested == 0 then 1 else requested)
      ensures semaphore == bound && inFlight == 0 && submitted == completed == 0
      ensures objects.View() == bytes.View() == buffers.View() == EMPTY
    {
      bound := if requested == 0 then 1 else requested;
      semaphore := if requested == 0 then 1 else requested;
      inFlight, submitted, completed := 0, 0, 0;
      objects := new LedgerCells();
      bytes := new LedgerCells();
      buffers := new LedgerCells();
    }

    ghost function Cells(): set<object> { {this, objects, bytes, buffers} }

    ghost predicate Valid() {
      objects != bytes && objects != buffers && bytes != buffers
    }
  }

  class AtomicFlag {
    var value: bool
    constructor () ensures !value { value := false; }
  }

  // What a caller may pass to adoptRetainedObject: nil, or an object of some approximate size.
  datatype Object = Nil | Resource(approxBytes: nat)

  class RetainedObjects {
    const state: SharedState?       // a weak pointer: null once the state has expired
    var objects: seq<nat>           // approximate size of each adopted object
    var adoptedObjectCount: nat
    var adoptedApproxBytes: nat
    var commandBuffer: bool

    constructor (state: SharedState?)
      ensures this.state == state && Empty() && !commandBuffer
    {
      this.state := state;
      objects, adoptedObjectCount, adoptedApproxBytes, commandBuffer := [], 0, 0, false;
    }

    // The counts describe the objects held.
    ghost predicate Valid() reads this {
      adoptedObjectCount == |objects| && adoptedApproxBytes == Sum(objects) && (state != null ==> state.Valid())
    }

    // The ledgers it reports to, if its state is still there.
    ghost function Ledgers(): set<object> {
      if state == null then {} else {state.objects, state.bytes, state.buffers}
    }

    ghost predicate Empty() reads this { objects == [] && adoptedObjectCount == 0 && adoptedApproxBytes == 0 }
  }

  function Sum(xs: seq<nat>): nat {
    if xs == [] then 0 else Sum(xs[..|xs| - 1]) + xs[|xs| - 1]
  }

  lemma {:induction false} SumConcat(xs: seq<nat>, ys: seq<nat>)
    ensures Sum(xs + ys) == Sum(xs) + Sum(ys)
  {
    if ys == [] {
      assert xs + ys == xs;
    } else {
      assert (xs + ys)[..|xs + ys| - 1] == xs + ys[..|ys| - 1];
      SumConcat(xs, ys[..|ys| - 1]);
    }
  }

  // The whole of releaseToken, uninterrupted; a null argument or an already released token
  // changes nothing.
  method ReleaseToken(state: SharedState?, released: AtomicFlag?)
    modifies state, released
    ensures released != null && state != null ==>
      && released.value
      && state.inFlight == old(state.inFlight) - (if old(released.value) then 0 else 1)
      && state.semaphore == old(state.semaphore) + (if old(released.value) then 0 else 1)
      && state.submitted == old(state.submitted) && state.completed == old(state.completed)
    ensures released == null && state != null ==> unchanged(state)
    ensures state == null && released != null ==> unchanged(released)
  {
    if state == null || released == null { return; }
    var wasReleased := released.value;
    released.value := true;
    if wasReleased { return; }
    state.inFlight := state.inFlight - 1;
    state.semaphore := state.semaphore + 1;
  }

  // The whole of releaseRetainedObjects: the record is emptied, and the ledgers, if they are still
  // there, give up what it contained.
  method ReleaseRetainedObjects(r: RetainedObjects?, spurious: nat)
    requires r != null ==> r.Valid()
    modifies r, if r == null then {} else r.Ledgers()
    ensures r != null ==> r.Valid() && r.Empty() && !r.commandBuffer
    ensures r != null && r.state != null ==>
      && r.state.objects.View() == Released(old(r.state.objects.View()), old(|r.objects|))
      && r.state.bytes.View() == Released(old(r.state.bytes.View()), old(Sum(r.objects)))
      && r.state.buffers.View() == Released(old(r.state.buffers.View()), if old(r.commandBuffer) then 1 else 0)
  {
    if r == null { return; }
    var state := r.state;
    var releaseCount, releaseBytes := r.adoptedObjectCount, r.adoptedApproxBytes;
    r.objects, r.adoptedObjectCount, r.adoptedApproxBytes := [], 0, 0;
    if state != null && releaseCount != 0 {
      state.objects.RecordReleased(releaseCount, spurious);
      if releaseBytes != 0 {
        state.bytes.RecordReleased(releaseBytes, spurious);
      }
    }
    if r.commandBuffer {
      r.commandBuffer := false;
      if state != null {
        state.buffers.RecordReleased(1, spurious);
      }
    }
  }

  // The completion block of one commit: what it captured.
  class Handler {
    const state: SharedState
    const released: AtomicFlag
    const retained: RetainedObjects

    constructor (state: SharedState, released: AtomicFlag, retained: RetainedObjects)
      ensures this.state == state && this.released == released && this.retained == retained
    {
      this.state, this.released, this.retained := state, released, retained;
    }

    method Run(spurious: nat)
      requires state.Valid() && retained.state == state && retained.Valid()
      modifies state, released, retained, state.objects, state.bytes, state.buffers
      ensures released.value && retained.Valid() && retained.Empty() && !retained.commandBuffer
      ensures state.completed == old(state.completed) + 1 && state.submitted == old(state.submitted)
      ensures state.inFlight == old(state.inFlight) - (if old(released.value) then 0 else 1)
      ensures state.semaphore == old(state.semaphore) + (if old(released.value) then 0 else 1)
      ensures state.objects.View() == Released(old(state.objects.View()), old(|retained.objects|))
      ensures state.bytes.View() == Released(old(state.bytes.View()), old(Sum(retained.objects)))
      ensures state.buffers.View() == Released(old(state.buffers.View()), if old(retained.commandBuffer) then 1 else 0)
    {
      state.completed := state.completed + 1;
      ReleaseToken(state, released);
      ReleaseRetainedObjects(retained, spurious);
    }
  }

  class Lease {
    var state: SharedState?
    var released: AtomicFlag?
    var retained: RetainedObjects?
    var commandBuffer: bool
    var ownsToken: bool
    var tokenReleaseTransferred: bool
    var retainedReleaseTransferred: bool

    constructor Empty()
      ensures IsEmpty()
    {
      state, released, retained := null, null, null;
      commandBuffer, ownsToken, tokenReleaseTransferred, retainedReleaseTransferred := false, false, false, false;
    }

    // The lease of a freshly allocated, non-nil command buffer.
    constructor (s: SharedState, spurious: nat)
      requires s.Valid()
      modifies s.buffers
      ensures IsLive() && state == s && fresh(released) && fresh(retained) && retained.Empty() && !released.value
      ensures s.buffers.View() == Adopted(old(s.buffers.View()), 1)
    {
      state := s;
      released := new AtomicFlag();
      var r := new RetainedObjects(s);
      retained := r;
      commandBuffer, ownsToken, tokenReleaseTransferred, retainedReleaseTransferred := true, true, false, false;
      new;
      r.commandBuffer := true;
      s.buffers.RecordAdopted(1, spurious);
    }

    ghost predicate IsEmpty() reads this {
      state == null && released == null && retained == null && !commandBuffer && !ownsToken
      && !tokenReleaseTransferred && !retainedReleaseTransferred
    }
    ghost predicate Linked() reads this, retained {
      && state != null && released != null && retained != null
      && state.Valid() && retained.state == state && retained.Valid()
    }
    // Owns its token and its record.
    ghost predicate IsLive() reads this, retained {
      Linked() && commandBuffer && ownsToken && !tokenReleaseTransferred && !retainedReleaseTransferred
      && retained.commandBuffer
    }
    // Committed: the handler owns token and record, but the pointers are still here.
    ghost predicate IsSpent() reads this, retained {
      Linked() && !commandBuffer && !ownsToken && tokenReleaseTransferred && retainedReleaseTransferred
    }
    ghost predicate Valid() reads this, retained { IsEmpty() || IsLive() || IsSpent() }

    ghost function Frame(): set<object> reads this {
      {this} + (if released != null then {released} else {}) + (if retained != null then {retained} else {})
      + (if state != null then state.Cells() else {})
    }

    method Abandon(spurious: nat)
      requires Valid()
      modifies Frame()
      ensures IsEmpty()
      ensures old(IsLive()) ==>
        && old(released).value && old(retained).Empty() && old(retained).Valid()
        && old(state).inFlight == old(state.inFlight) - (if old(released.value) then 0 else 1)
        && old(state).semaphore == old(state.semaphore) + (if old(released.value) then 0 else 1)
        && old(state).objects.View() == Released(old(state.objects.View()), old(|retained.objects|))
        && old(state).bytes.View() == Released(old(state.bytes.View()), old(Sum(retained.objects)))
        && old(state).buffers.View() == Released(old(state.buffers.View()), 1)
      ensures !old(IsLive()) ==> forall o :: o in old(Frame()) && o != this ==> unchanged(o)
    {
      if ownsToken && !tokenReleaseTransferred {
        ReleaseToken(state, released);
      }
      if retained != null && !retainedReleaseTransferred {
        ReleaseRetainedObjects(retained, spurious);
      }
      commandBuffer, ownsToken, tokenReleaseTransferred, retainedReleaseTransferred := false, false, false, false;
      state, released, retained := null, null, null;
    }

    method MoveFrom(other: Lease)
      requires other != this && other.Valid()
      modifies this, other
      ensures other.IsEmpty()
      ensures state == old(other.state) && released == old(other.released) && retained == old(other.retained)
      ensures old(other.IsLive()) ==> IsLive()
      ensures old(other.IsSpent()) ==> IsSpent()
      ensures old(other.IsEmpty()) ==> IsEmpty()
    {
      state, released, retained := other.state, other.released, other.retained;
      commandBuffer, ownsToken := other.commandBuffer, other.ownsToken;
      tokenReleaseTransferred := other.tokenReleaseTransferred;
      retainedReleaseTransferred := other.retainedReleaseTransferred;
      other.state, other.released, other.retained := null, null, null;
      other.commandBuffer, other.ownsToken := false, false;
      other.tokenReleaseTransferred, other.retainedReleaseTransferred := false, false;
    }

    // A nil object, or a lease without a record, is ignored.
    method AdoptRetainedObject(item: Object, spurious: nat)
      requires retained != null ==> Linked()
      modifies retained, if retained == null then {} else retained.Ledgers()
      ensures item.Nil? && retained != null ==> unchanged(retained) && unchanged(retained.Ledgers())
      ensures item.Resource? && retained != null ==>
        && Linked() && retained.objects == old(retained.objects) + [item.approxBytes]
        && retained.commandBuffer == old(retained.commandBuffer)
        && state.objects.View() == Adopted(old(state.objects.View()), 1)
        && state.bytes.View() == (if item.approxBytes == 0 then old(state.bytes.View())
                                  else Adopted(old(state.bytes.View()), item.approxBytes))
        && unchanged(state.buffers)
    {
      if item.Nil? || retained == null { return; }
      var r, approxBytes := retained, item.approxBytes;
      r.objects := r.objects + [approxBytes];
      assert r.objects[..|r.objects| - 1] == old(retained.objects);
      r.adoptedObjectCount := r.adoptedObjectCount + 1;
      r.adoptedApproxBytes := r.adoptedApproxBytes + approxBytes;
      r.state.objects.RecordAdopted(1, spurious);
      if approxBytes != 0 {
        r.state.bytes.RecordAdopted(approxBytes, spurious);
      }
    }

    // Returns the handler put on the queue, or null if there was nothing to commit.
    method Commit() returns (h: Handler?)
      requires Valid()
      modifies this, state
      ensures state == old(state) && released == old(released) && retained == old(retained)
      ensures old(IsLive()) ==>
        && h != null && fresh(h) && IsSpent()
        && h.state == state && h.released == released && h.retained == retained
        && state.submitted == old(state.submitted) + 1 && state.completed == old(state.completed)
        && state.inFlight == old(state.inFlight) && state.semaphore == old(state.semaphore)
      ensures !old(IsLive()) ==> h == null && unchanged(this) && (state != null ==> unchanged(state))
    {
      if !commandBuffer || !ownsToken { return null; }
      h := new Handler(state, released, retained);
      state.submitted := state.submitted + 1;
      tokenReleaseTransferred, retainedReleaseTransferred := true, true;
      commandBuffer, ownsToken := false, false;
    }
  }

  // `lease = std::move(other)`: the old token is released and the new one moves; nothing happens on
  // self-assignment.  Leases never share a token or a record.
  method MoveAssign(lease: Lease, other: Lease, spurious: nat)
    requires lease.Valid() && other.Valid()
    requires lease != other && other.retained != null ==> other.retained != lease.retained
    requires lease != other && other.released != null ==> other.released != lease.released
    modifies lease.Frame(), other
    ensures lease == other ==> forall o :: o in old(lease.Frame()) ==> unchanged(o)
    ensures lease != other ==>
      && other.IsEmpty()
      && lease.state == old(other.state) && lease.released == old(other.released)
      && lease.retained == old(other.retained)
      && (old(other.IsLive()) ==> lease.IsLive())
      && (old(other.IsSpent()) ==> lease.IsSpent())
      && (old(other.IsEmpty()) ==> lease.IsEmpty())
    ensures lease != other && !old(lease.IsLive()) ==>
      forall o :: o in old(lease.Frame()) && o != lease && o != other ==> unchanged(o)
    ensures lease != other && old(lease.IsLive()) ==>
      && old(lease.released).value && old(lease.retained).Empty()
      && old(lease.state).inFlight == old(lease.state.inFlight) - (if old(lease.released.value) then 0 else 1)
      && old(lease.state).semaphore == old(lease.state.semaphore) + (if old(lease.released.value) then 0 else 1)
      && old(lease.state).objects.View() == Released(old(lease.state.objects.View()), old(|lease.retained.objects|))
      && old(lease.state).bytes.View() == Released(old(lease.state.bytes.View()), old(Sum(lease.retained.objects)))
      && old(lease.state).buffers.View() == Released(old(lease.state.buffers.View()), 1)
  {
    if lease != other {
      lease.Abandon(spurious);
      lease.MoveFrom(other);
    }
  }

  // drainAllOutstanding with nobody else running: it succeeds exactly when every permit is there,
  // and the semaphore ends as it began.
  method DrainAllOutstanding(s: SharedState, recordWhenIdle: bool) returns (drained: bool)
    requires 0 <= s.semaphore <= s.bound
    modifies s`semaphore
    ensures s.semaphore == old(s.semaphore)
    ensures drained <==> (!recordWhenIdle && s.inFlight == 0) || old(s.semaphore) == s.bound
  {
    if !recordWhenIdle && s.inFlight == 0 { return true; }
    var acquired := 0;
    while acquired < s.bound && s.semaphore > 0   // a wait on an empty semaphore times out
      invariant 0 <= acquired <= s.bound && s.semaphore >= 0 && s.semaphore + acquired == old(s.semaphore)
    {
      s.semaphore := s.semaphore - 1;
      acquired := acquired + 1;
    }
    var i := 0;
    while i < acquired
      invariant 0 <= i <= acquired && s.semaphore + acquired - i == old(s.semaphore)
    {
      s.semaphore := s.semaphore + 1;
      i := i + 1;
    }
    drained := acquired == s.bound;
  }

  // The peak after n more objects were adopted on top of `live` ones.
  function Peaked(peak: nat, live: nat, n: nat): nat { if n == 0 then peak else Max(peak, live + n) }

  method AdoptAll(lease: Lease, sizes: seq<nat>, spurious: nat)
    requires lease.Linked()
    modifies lease.retained, lease.retained.Ledgers()
    ensures lease.Linked() && lease.retained.objects == old(lease.retained.objects) + sizes
    ensures lease.retained.commandBuffer == old(lease.retained.commandBuffer)
    ensures lease.state.objects.live == old(lease.state.objects.live) + |sizes|
    ensures lease.state.bytes.live == old(lease.state.bytes.live) + Sum(sizes)
    ensures lease.state.objects.adopted == old(lease.state.objects.adopted) + |sizes|
    ensures lease.state.bytes.adopted == old(lease.state.bytes.adopted) + Sum(sizes)
    ensures lease.state.objects.released == old(lease.state.objects.released)
    ensures lease.state.bytes.released == old(lease.state.bytes.released)
    ensures lease.state.objects.peak == Peaked(old(lease.state.objects.peak), old(lease.state.objects.live), |sizes|)
    ensures unchanged(lease.state.buffers)
  {
    var k := 0;
    while k < |sizes|
      invariant 0 <= k <= |sizes| && lease.Linked()
      invariant lease.retained.objects == old(lease.retained.objects) + sizes[..k]
      invariant lease.retained.commandBuffer == old(lease.retained.commandBuffer)
      invariant lease.state.objects.live == old(lease.state.objects.live) + k
      invariant lease.state.bytes.live == old(lease.state.bytes.live) + Sum(sizes[..k])
      invariant lease.state.objects.adopted == old(lease.state.objects.adopted) + k
      invariant lease.state.bytes.adopted == old(lease.state.bytes.adopted) + Sum(sizes[..k])
      invariant lease.state.objects.released == old(lease.state.objects.released)
      invariant lease.state.bytes.released == old(lease.state.bytes.released)
      invariant lease.state.objects.peak == Peaked(old(lease.state.objects.peak), old(lease.state.objects.live), k)
      invariant unchanged(lease.state.buffers)
    {
      lease.AdoptRetainedObject(Resource(sizes[k]), spurious);
      assert sizes[..k + 1][..k] == sizes[..k];
      k := k + 1;
    }
    assert sizes[..k] == sizes;
  }

  // The life of one lease up to the completion of its command buffer: objects adopted before the
  // commit, the commit, objects adopted through the same lease while the buffer runs, the handler.
  // All of them are released.
  method LifeUntilCompleted(s: SharedState, before: seq<nat>, during: seq<nat>, spurious: nat) returns (lease: Lease)
    requires s.Valid()
    modifies s, s.objects, s.bytes, s.buffers
    ensures fresh(lease) && fresh(lease.retained) && fresh(lease.released)
    ensures lease.IsSpent() && lease.state == s && lease.retained.Empty() && !lease.retained.commandBuffer
    ensures s.objects.live == old(s.objects.live) && s.bytes.live == old(s.bytes.live)
    ensures s.buffers.live == old(s.buffers.live)
    ensures s.objects.adopted - old(s.objects.adopted) == |before| + |during|
    ensures s.objects.released - old(s.objects.released) == |before| + |during|
    ensures s.bytes.adopted - old(s.bytes.adopted) == Sum(before) + Sum(during)
    ensures s.bytes.released - old(s.bytes.released) == Sum(before) + Sum(during)
    ensures s.buffers.adopted == old(s.buffers.adopted) + 1 && s.buffers.released == old(s.buffers.released) + 1
    ensures s.objects.peak == Peaked(old(s.objects.peak), old(s.objects.live), |before| + |during|)
    ensures s.submitted == old(s.submitted) + 1 && s.completed == old(s.completed) + 1
    ensures s.inFlight == old(s.inFlight) - 1 && s.semaphore == old(s.semaphore) + 1
  {
    hide Sum;
    lease := new Lease(s, spurious);
    AdoptAll(lease, before, spurious);
    assert lease.retained.objects == before;
    var h := lease.Commit();
    AdoptAll(lease, during, spurious);
    SumConcat(before, during);
    h.Run(spurious);
  }

  /** The whole life of one lease: adoption before the commit and while the buffer runs, the
      completion handler, objects adopted after it, and destruction.  What is still live at the end
      is exactly what was adopted after the handler had released the record, so the ledgers are
      back where they started if and only if nothing was. */
  method Lifecycle(s: SharedState, before: seq<nat>, during: seq<nat>, after: seq<nat>, spurious: nat)
    requires s.Valid()
    modifies s, s.objects, s.bytes, s.buffers
    ensures s.objects.live == old(s.objects.live) + |after|
    ensures s.bytes.live == old(s.bytes.live) + Sum(after)
    ensures s.objects.live == old(s.objects.live) <==> after == []
    ensures s.buffers.live == old(s.buffers.live)
    ensures s.objects.adopted - old(s.objects.adopted) == |before| + |during| + |after|
    ensures s.objects.released - old(s.objects.released) == |before| + |during|
    ensures s.bytes.adopted - old(s.bytes.adopted) == Sum(before) + Sum(during) + Sum(after)
    ensures s.bytes.released - old(s.bytes.released) == Sum(before) + Sum(during)
    ensures s.buffers.adopted == old(s.buffers.adopted) + 1 && s.buffers.released == old(s.buffers.released) + 1
    ensures s.objects.peak
            == Peaked(old(s.objects.peak), old(s.objects.live), Max(|before| + |during|, |after|))
    ensures s.submitted == old(s.submitted) + 1 && s.completed == old(s.completed) + 1
    ensures s.inFlight == old(s.inFlight) - 1 && s.semaphore == old(s.semaphore) + 1
  {
    var lease := LifeUntilCompleted(s, before, during, spurious);
    AdoptAll(lease, after, spurious);
    lease.Abandon(spurious);
  }
}
