/**
  What each call of the block-device registry leaves behind: where a registered device lies,
  what a claim, a ticket or a scan stores, whom it then keeps out, and what reaping marks.
 */
module BlockAccessEffects {
  import opened Common
  import opened BlockAccess
  import opened BlockAccessRuns

  // ------------------------------------------------------------ registrations

  /** The byte of a disk incarnation at a position belongs to the extent exactly from `first` on for `bytes` bytes. */
  ghost predicate Spans(e: Extent, physical: u32, generation: u64, first: nat, bytes: nat) {
    forall p: u32, g: u64, position: nat ::
      Covers(e, p, g, position) <==> p == physical && g == generation && first <= position < first + bytes
  }

  /** Only one slot of the device table differs, and the tables of accesses are as before. */
  predicate OneDevice(s: State, t: State, device: nat)
    requires Shaped(s) && Shaped(t)
  {
    && (forall i :: 0 <= i < DEVICES && i != device ==> t.devices[i] == s.devices[i])
    && t.leases == s.leases && t.tickets == s.tickets && t.management == s.management && t.depth == s.depth
    && t.abandoned == s.abandoned
  }

  /** A registered disk is its own bytes from zero on, under a generation never used before, and not yet published. */
  lemma WholeLies(s: State, device: u32, bytes: u64, flush: bool, task: Task)
    requires Inv(s)
    ensures RegisterWhole(s, device, bytes, flush, task).status == OK <==>
            device < 256 && bytes != 0 && !s.devices[device].valid && s.next < TOP - 1
    ensures var o := RegisterWhole(s, device, bytes, flush, task);
            o.status == OK ==>
              && Shaped(o.state) && OneDevice(s, o.state, device) && o.state.next == s.next + 1
              && var d := o.state.devices[device];
                 && d.valid && !d.published && d.flush == flush && d.extent.device == device
                 && d.extent.generation == d.extent.physicalGeneration == s.next
                 && Spans(d.extent, device, s.next, 0, bytes)
    ensures RegisterWhole(s, device, bytes, flush, task).status != OK ==>
              RegisterWhole(s, device, bytes, flush, task).state == s
  {}

  /** Byte k of a registered slice is byte offset + k of its parent, on the same disk, and it has no others. */
  lemma SliceLies(s: State, device: u32, parent: u32, offset: u64, bytes: u64, task: Task)
    requires Inv(s) && RegisterSlice(s, device, parent, offset, bytes, task).status == OK
    ensures parent < 256 && s.devices[parent].valid && s.devices[parent].published
    ensures var t, p := RegisterSlice(s, device, parent, offset, bytes, task).state, s.devices[parent].extent;
            && Shaped(t) && OneDevice(s, t, device) && t.next == s.next + 1
            && var d := t.devices[device];
               && d.valid && !d.published && !d.flush && d.extent.device == device && d.extent.generation == s.next
               && offset + bytes <= p.bytes
               && Spans(d.extent, p.physical, p.physicalGeneration, p.start + offset, bytes)
  {
    ResolveIffPublished(s, parent, 0);
    ResolvedFits(s, parent, 0);
  }

  /** A slice is registered exactly in a published parent where nothing but the caller's own scan is in the way. */
  lemma SliceSucceedsIff(s: State, device: u32, parent: u32, offset: u64, bytes: u64, task: Task)
    requires Inv(s)
    ensures RegisterSlice(s, device, parent, offset, bytes, task).status == OK <==>
            && device < 256 && bytes != 0 && !s.devices[device].valid
            && parent < 256 && s.devices[parent].valid && s.devices[parent].published
            && offset + bytes <= s.devices[parent].extent.bytes && s.next < TOP - 1
            && OnlyOwnScan(s, Window(s.devices[parent].extent, offset, bytes), task)
    ensures RegisterSlice(s, device, parent, offset, bytes, task).status != OK ==>
              RegisterSlice(s, device, parent, offset, bytes, task).state == s
  {
    ResolveIffPublished(s, parent, 0);
    if Resolve(s, parent, 0).Some? && offset + bytes <= s.devices[parent].extent.bytes {
      ResolvedFits(s, parent, 0);
      var r := s.devices[parent].extent;
      FreeIff(s, Extent(device, r.physical, 0, r.physicalGeneration, Add(r.start, offset), bytes),
              Window(r, offset, bytes), task);
    }
  }

  /** No ticket touches the extent, and a lease that does is an unpoisoned scan of the task that contains it. */
  predicate OnlyOwnScan(s: State, e: Extent, task: Task) {
    && (forall i :: 0 <= i < |s.tickets| && s.tickets[i].token != 0 ==> !Overlaps(s.tickets[i].extent, e))
    && (forall i :: 0 <= i < |s.leases| && s.leases[i].token != 0 && Overlaps(s.leases[i].extent, e) ==>
          && !s.leases[i].poisoned && s.leases[i].scan && OwnedBy(s.leases[i], task) && Contains(s.leases[i].extent, e))
  }

  lemma FreeIff(s: State, w: Extent, e: Extent, task: Task)
    requires Shaped(s) && SameDisk(w, e) && w.start == e.start && w.bytes == e.bytes
    ensures Available(s, w, true, task) == OK <==> OnlyOwnScan(s, e, task)
  {
    assert forall i :: 0 <= i < LEASES ==> (Matches(Blocking(w, true, task), s.leases[i]) <==>
      && s.leases[i].token != 0 && Overlaps(s.leases[i].extent, e)
      && !(&& !s.leases[i].poisoned && s.leases[i].scan && OwnedBy(s.leases[i], task)
           && Contains(s.leases[i].extent, e)));
    assert forall i :: 0 <= i < TICKETS ==> (Matches(Overlapping(w), s.tickets[i]) <==>
      s.tickets[i].token != 0 && Overlaps(s.tickets[i].extent, e));
  }

  /** Publishing under the right generation, and only that, makes a lookup give exactly the registered extent. */
  lemma PublishedResolves(s: State, device: u32, generation: u64)
    requires Inv(s)
    ensures Publish(s, device, generation).status == OK <==>
            device < 256 && s.devices[device].valid && s.devices[device].extent.generation == generation
    ensures var o := Publish(s, device, generation);
            if o.status == OK then
              && Inv(o.state) && OneDevice(s, o.state, device) && o.state.next == s.next
              && o.state.devices[device] == s.devices[device].(published := true)
              && Resolve(o.state, device, generation) == Resolve(o.state, device, 0) == Some(s.devices[device].extent)
            else o.state == s
  {
    PublishInv(s, device, generation);
    ResolveIffPublished(Publish(s, device, generation).state, device, generation);
    ResolveIffPublished(Publish(s, device, generation).state, device, 0);
  }

  /** A withdrawal takes the device and, if it is a whole disk, every device of that incarnation, and nothing else. */
  lemma WithdrawnAre(s: State, device: u32, task: Task)
    requires Inv(s)
    ensures var o := Unregister(s, device, task);
            if o.status != OK then o.state == s
            else
              && Shaped(o.state) && o.state == s.(devices := o.state.devices)
              && forall i :: 0 <= i < DEVICES ==>
                   o.state.devices[i] ==
                     if i == device || (&& s.devices[device].extent.device == s.devices[device].extent.physical
                                        && s.devices[i].valid
                                        && SameDisk(s.devices[i].extent, s.devices[device].extent))
                     then s.devices[i].(valid := false, published := false) else s.devices[i]
  {}

  // ------------------------------------------------------------------ tickets

  /** Exactly one free slot of a table was filled. */
  predicate Filled(before: seq<Access>, after: seq<Access>, i: nat) {
    && i < |before| == |after| && before[i].token == 0
    && forall j :: 0 <= j < |before| && j != i ==> after[j] == before[j]
  }

  /** A ticket names the caller and exactly the bytes asked for, counted from where the device lies on its disk. */
  lemma TicketStores(s: State, device: u32, generation: u64, offset: u64, bytes: u64, task: Task)
    requires Inv(s)
    ensures var o := IoBegin(s, device, generation, offset, bytes, task);
            if o.status != OK then o == Fail(s, o.status)
            else
              && o.token == s.next && o.state == s.(tickets := o.state.tickets, next := s.next + 1)
              && device < 256
              && exists i :: && 0 <= i < |o.state.tickets| && Filled(s.tickets, o.state.tickets, i)
                             && TicketIs(o.state.tickets[i], s.devices[device].extent, offset, bytes, o.token, task)
  {
    ResolveIffPublished(s, device, generation);
    var o := IoBegin(s, device, generation, offset, bytes, task);
    if o.status == OK {
      ResolvedFits(s, device, generation);
      var i := First(s.tickets, Free);
      assert Filled(s.tickets, o.state.tickets, i);
      assert TicketIs(o.state.tickets[i], s.devices[device].extent, offset, bytes, o.token, task);
    }
  }

  ghost predicate TicketIs(a: Access, d: Extent, offset: u64, bytes: u64, token: u64, task: Task) {
    && a.token == token && a.owner == task.ptr && a.tid == task.Id() && !a.exclusive && !a.scan && !a.poisoned
    && a.extent.device == d.device && a.extent.generation == d.generation
    && Spans(a.extent, d.physical, d.physicalGeneration, d.start + offset, bytes)
  }

  // ------------------------------------------------------------------- claims

  /** The lease a claim made: its extent, token, kind and, if it is exclusive, the caller. */
  predicate LeaseIs(a: Access, e: Extent, token: u64, exclusive: bool, scan: bool, task: Task) {
    && a.extent == e && a.token == token && a.exclusive == exclusive && a.scan == scan && !a.poisoned
    && (exclusive ==> a.owner == task.ptr && a.tid == task.Id()) && (!exclusive ==> a.owner == 0 && a.tid == 0)
  }

  lemma ClaimStores(s: State, e: Extent, exclusive: bool, scan: bool, task: Task) returns (i: nat)
    requires Inv(s) && ClaimWith(s, e, exclusive, scan, task).status == OK
    ensures var o := ClaimWith(s, e, exclusive, scan, task);
            && o.token == s.next > 0 && o.state == s.(leases := o.state.leases, next := s.next + 1)
            && Inv(o.state) && Filled(s.leases, o.state.leases, i)
            && LeaseIs(o.state.leases[i], e, o.token, exclusive, scan, task)
  {
    ClaimInv(s, e, exclusive, scan, task);
    i := First(s.leases, Free);
  }

  /** The registry after a claim. */
  function Claimed(s: State, e: Extent, exclusive: bool, scan: bool, task: Task): (t: State)
    requires Inv(s)
    ensures Inv(t) && t == ClaimWith(s, e, exclusive, scan, task).state
  {
    ClaimInv(s, e, exclusive, scan, task);
    ClaimWith(s, e, exclusive, scan, task).state
  }

  predicate SameTask(a: Task, b: Task) { a.ptr == b.ptr && a.Id() == b.Id() }

  /**
    After a task's exclusive claim or scan, over every run and as long as its token is live: no other task's I/O
    that shares a byte with it succeeds, nor does any claim, scan or withdrawal, nor a slice outside a scan.
   */
  lemma ClaimExcludes(s: State, e: Extent, scan: bool, task: Task, run: seq<(Task, Call)>, other: Task, call: Call)
    requires Inv(s) && ClaimWith(s, e, true, scan, task).status == OK
    requires !TokenAbsent(s.next, Exec(Claimed(s, e, true, scan, task), run).leases)
    requires var t := Exec(Claimed(s, e, true, scan, task), run);
             && Wanted(t, call).Some? && Overlaps(e, Wanted(t, call).value)
             && (call.CallIoBegin? ==> !SameTask(task, other)) && (call.CallRegisterSlice? ==> !scan)
    ensures ClaimWith(s, e, true, scan, task).token == s.next
    ensures Do(Exec(Claimed(s, e, true, scan, task), run), other, call).status != OK
  {
    var o := ClaimWith(s, e, true, scan, task);
    var i := ClaimStores(s, e, true, scan, task);
    hide ClaimWith, Do, Inv, Overlaps;
    var t := Exec(o.state, run);
    LeaseLasts(o.state, run, i);
    DeadIsAbsent(t, o.token);
    IntruderRefused(t, i, other, call);
  }

  lemma DeadIsAbsent(s: State, token: u64)
    ensures Dead(s, token) ==> TokenAbsent(token, s.leases)
  {}

  /** A claim keeps the claimant's own I/O inside it possible. */
  lemma ClaimAdmitsOwner(s: State, e: Extent, exclusive: bool, scan: bool, task: Task, w: Extent)
    requires Inv(s) && ClaimWith(s, e, exclusive, scan, task).status == OK && Fits(w) && Contains(e, w)
    ensures Admits(ClaimWith(s, e, exclusive, scan, task).state, w, task)
  {
    var o := ClaimWith(s, e, exclusive, scan, task);
    var i := ClaimStores(s, e, exclusive, scan, task);
    ResolvedFits(s, e.device, e.generation);
    NoMatchIsFree(s.leases, e);
    NoMatchIsFree(s.tickets, e);
    TableExtentsFit(s);
    forall j | 0 <= j < LEASES && o.state.leases[j].token != 0 && Overlaps(o.state.leases[j].extent, w) ensures j == i {
      OverlapGrows(o.state.leases[j].extent, e, w);
    }
    forall j | 0 <= j < TICKETS && s.tickets[j].token != 0 ensures !Overlaps(s.tickets[j].extent, w) {
      if Overlaps(s.tickets[j].extent, w) { OverlapGrows(s.tickets[j].extent, e, w); }
    }
  }

  lemma OverlapGrows(a: Extent, e: Extent, w: Extent)
    requires Fits(a) && Fits(e) && Fits(w) && Contains(e, w) && Overlaps(a, w)
    ensures Overlaps(a, e)
  {}

  /** A shared claim refuses nobody's I/O. */
  lemma SharedClaimRefusesNothing(s: State, e: Extent, task: Task, w: Extent, other: Task)
    requires Inv(s) && ClaimWith(s, e, false, false, task).status == OK
    ensures Admits(ClaimWith(s, e, false, false, task).state, w, other) <==> Admits(s, w, other)
  {
    var i := ClaimStores(s, e, false, false, task);
    var t := ClaimWith(s, e, false, false, task).state;
    hide ClaimWith, Inv, Overlaps, Contains;
    assert forall j :: 0 <= j < LEASES && j != i ==> t.leases[j] == s.leases[j];
  }

  // --------------------------------------------------------------- validation

  /** Nothing poisoned shares a byte with the extent. */
  predicate Unpoisoned(s: State, e: Extent) {
    && (forall i :: 0 <= i < |s.leases| && s.leases[i].token != 0 && s.leases[i].poisoned ==>
          !Overlaps(s.leases[i].extent, e))
    && (forall i :: 0 <= i < |s.tickets| && s.tickets[i].token != 0 && s.tickets[i].poisoned ==>
          !Overlaps(s.tickets[i].extent, e))
  }

  lemma UnpoisonedIff(s: State, e: Extent)
    ensures Unpoisoned(s, e) <==>
            && First(s.leases, PoisonedOverlapping(e)) == |s.leases|
            && First(s.tickets, PoisonedOverlapping(e)) == |s.tickets|
  {
    assert forall i :: 0 <= i < |s.leases| ==> (Matches(PoisonedOverlapping(e), s.leases[i]) <==>
      s.leases[i].token != 0 && s.leases[i].poisoned && Overlaps(s.leases[i].extent, e));
    assert forall i :: 0 <= i < |s.tickets| ==> (Matches(PoisonedOverlapping(e), s.tickets[i]) <==>
      s.tickets[i].token != 0 && s.tickets[i].poisoned && Overlaps(s.tickets[i].extent, e));
  }

  /** A registered, published whole disk. */
  predicate IsDisk(s: State, e: Extent) {
    && Registered(s.devices, e) && e.device == e.physical && e.start == 0 && e.generation == e.physicalGeneration
  }

  /** An exclusive claim of the extent that no scan took, under the token. */
  predicate HoldsExclusive(s: State, i: nat, token: u64, e: Extent) {
    && i < |s.leases| && s.leases[i].token == token && s.leases[i].exclusive && !s.leases[i].scan
    && s.leases[i].extent == e
  }

  lemma ExactIsEqual(s: State, whole: Extent)
    requires Inv(s)
    ensures whole.generation != 0 ==>
            (IsDisk(s, whole) <==>
               && Resolve(s, whole.device, whole.generation).Some?
               && Exact(whole, Resolve(s, whole.device, whole.generation).value)
               && whole.device == whole.physical && whole.start == 0 && whole.generation == whole.physicalGeneration)
    ensures whole.generation == 0 ==> !IsDisk(s, whole)
  {
    ResolveIffPublished(s, whole.device, whole.generation);
    if whole.device < DEVICES && s.devices[whole.device].valid { assert DeviceOk(s.devices, whole.device); }
  }

  /** An owned window is validated exactly for aligned bytes of a clean disk that the live caller holds alone. */
  lemma ValidateOwnedIff(s: State, token: u64, whole: Extent, offset: u64, bytes: u64, task: Task, terminal: bool)
    requires Inv(s)
    ensures ValidateOwned(s, token, whole, offset, bytes, task, terminal) == OK <==>
            && token != 0 && bytes != 0 && offset % 512 == 0 && bytes % 512 == 0 && whole.bytes % 512 == 0
            && offset + bytes <= whole.bytes && !s.abandoned && IsDisk(s, whole) && Unpoisoned(s, whole)
            && task.ptr != 0 && !terminal
            && exists i :: 0 <= i < LEASES && HoldsExclusive(s, i, token, whole) && OwnedBy(s.leases[i], task)
  {
    InvShaped(s);
    ExactIsEqual(s, whole);
    UnpoisonedIff(s, whole);
    ResolveGeneration(s, whole);
    if token != 0 { NamedIsUnique(s, token); }
  }

  /** Validation of a retained lease succeeds exactly for a clean disk that a live owner holds alone. */
  lemma ValidateRetainedIff(s: State, token: u64, whole: Extent, ownerTid: u64, terminal: bool)
    requires Inv(s)
    ensures ValidateRetained(s, token, whole, ownerTid, terminal) == OK <==>
            && token != 0 && whole.bytes != 0 && !s.abandoned && IsDisk(s, whole) && Unpoisoned(s, whole) && !terminal
            && exists i :: && 0 <= i < LEASES && HoldsExclusive(s, i, token, whole)
                           && s.leases[i].owner != 0 && s.leases[i].tid == ownerTid
  {
    InvShaped(s);
    ExactIsEqual(s, whole);
    UnpoisonedIff(s, whole);
    ResolveGeneration(s, whole);
    if token != 0 { NamedIsUnique(s, token); }
  }

  lemma ResolveGeneration(s: State, whole: Extent)
    requires Inv(s)
    ensures Resolve(s, whole.device, whole.generation).Some? ==>
              Resolve(s, whole.device, whole.generation).value.generation != 0
  {
    if Resolve(s, whole.device, whole.generation).Some? { ResolvedFits(s, whole.device, whole.generation); }
  }

  lemma NamedIsUnique(s: State, token: u64)
    requires Inv(s) && token != 0
    ensures forall i :: 0 <= i < LEASES && s.leases[i].token == token ==> i == First(s.leases, Named(token))
    ensures First(s.leases, Named(token)) < LEASES ==> s.leases[First(s.leases, Named(token))].token == token
  {
    forall i | 0 <= i < LEASES && s.leases[i].token == token ensures i == First(s.leases, Named(token)) {
      FirstUnique(s.leases, Named(token), i);
    }
  }

  /**
    A claim of a whole disk validates: over every run, while its token is live and nothing is abandoned or poisoned
    there, every sector-aligned window of it is validated for the claimant.
   */
  lemma ClaimValidates(s: State, e: Extent, task: Task, run: seq<(Task, Call)>, offset: u64, bytes: u64)
    requires Inv(s) && ClaimWith(s, e, true, false, task).status == OK
    requires IsDisk(s, e) && e.bytes % 512 == 0 && offset % 512 == 0 && bytes % 512 == 0
    requires 0 < bytes && offset + bytes <= e.bytes
    requires var t := Exec(Claimed(s, e, true, false, task), run);
             !TokenAbsent(s.next, t.leases) && !t.abandoned && Unpoisoned(t, e)
    ensures ValidateOwned(Exec(Claimed(s, e, true, false, task), run), s.next, e, offset, bytes, task, false) == OK
  {
    var o := ClaimWith(s, e, true, false, task);
    var i := ClaimStores(s, e, true, false, task);
    ClaimSucceedsIff(s, e, true, task);
    hide ClaimWith;
    var t := Exec(o.state, run);
    LeaseLasts(o.state, run, i);
    DeadIsAbsent(t, o.token);
    assert Registered(t.devices, e);
    assert HoldsExclusive(t, i, o.token, e);
    ValidateOwnedIff(t, o.token, e, offset, bytes, task, false);
  }

  // -------------------------------------------------------------------- scans

  /** A scan claims the whole disk exclusively for its caller, whose slices of it can then be registered. */
  lemma ScanStores(s: State, device: u32, task: Task)
    requires Inv(s) && ScanBegin(s, device, task).status == OK
    ensures device < 256 && s.devices[device].extent.physical == device
    ensures var o := ScanBegin(s, device, task);
            && o.token == s.next && o.state == s.(leases := o.state.leases, next := s.next + 1)
            && exists i :: && 0 <= i < |o.state.leases| && Filled(s.leases, o.state.leases, i)
                           && LeaseIs(o.state.leases[i], s.devices[device].extent, o.token, true, true, task)
  {
    ResolveIffPublished(s, device, 0);
    ResolvedFits(s, device, 0);
    var i := ClaimStores(s, s.devices[device].extent, true, true, task);
  }

  lemma ScanAdmitsSlices(s: State, device: u32, task: Task, w: Extent)
    requires Inv(s) && ScanBegin(s, device, task).status == OK
    requires Fits(w) && Contains(s.devices[if device < 256 then device else 0].extent, w)
    ensures OnlyOwnScan(ScanBegin(s, device, task).state, w, task)
  {
    ResolveIffPublished(s, device, 0);
    ResolvedFits(s, device, 0);
    var e := s.devices[device].extent;
    var o := ScanBegin(s, device, task);
    var i := ClaimStores(s, e, true, true, task);
    NoMatchIsFree(s.leases, e);
    NoMatchIsFree(s.tickets, e);
    TableExtentsFit(s);
    forall j | 0 <= j < LEASES && o.state.leases[j].token != 0 && Overlaps(o.state.leases[j].extent, w) ensures j == i {
      OverlapGrows(o.state.leases[j].extent, e, w);
    }
    forall j | 0 <= j < TICKETS && s.tickets[j].token != 0 ensures !Overlaps(s.tickets[j].extent, w) {
      if Overlaps(s.tickets[j].extent, w) { OverlapGrows(s.tickets[j].extent, e, w); }
    }
  }

  // --------------------------------------------------------- abandoned owners

  /** Which entries a sweep over dead owners marks: exclusive leases, every ticket, and the management claim. */
  ghost predicate Marked(s: State, t: State, dead: Access -> bool)
    requires Shaped(s) && Shaped(t)
  {
    && (forall i :: 0 <= i < LEASES ==>
          t.leases[i] == if s.leases[i].token != 0 && s.leases[i].exclusive && dead(s.leases[i])
                         then s.leases[i].(poisoned := true) else s.leases[i])
    && (forall i :: 0 <= i < TICKETS ==>
          t.tickets[i] == if s.tickets[i].token != 0 && dead(s.tickets[i])
                          then s.tickets[i].(poisoned := true) else s.tickets[i])
    && t.management == (if s.management.token != 0 && dead(s.management)
                        then s.management.(poisoned := true) else s.management)
    && t.devices == s.devices && t.next == s.next && t.depth == s.depth
  }

  /** Reaping marks what stopped owners held and nothing else; a ticket among it fences the registry. */
  lemma ReapMarks(s: State, stopped: set<nat>)
    requires Inv(s)
    ensures Shaped(Reap(s, stopped)) && Marked(s, Reap(s, stopped), (a: Access) => a.owner != 0 && a.owner in stopped)
    ensures Reap(s, stopped).abandoned <==>
            || s.abandoned
            || exists i :: && 0 <= i < TICKETS && s.tickets[i].token != 0 && !s.tickets[i].poisoned
                           && s.tickets[i].owner != 0 && s.tickets[i].owner in stopped
  {
    InvShaped(s);
    hide Inv;
    forall i | 0 <= i < TICKETS
      ensures Matches(Stopped(stopped), s.tickets[i]) <==>
              && s.tickets[i].token != 0 && !s.tickets[i].poisoned && s.tickets[i].owner != 0
              && s.tickets[i].owner in stopped
    {}
  }

  /** Abandoning one task marks what it held and nothing else. */
  lemma AbandonMarks(s: State, ptr: nat, tid: u64)
    requires Inv(s) && ptr != 0
    ensures Shaped(Abandon(s, ptr, tid))
    ensures Marked(s, Abandon(s, ptr, tid), (a: Access) => a.owner == ptr && a.tid == tid)
    ensures Abandon(s, ptr, tid).abandoned <==>
            || s.abandoned
            || exists i :: && 0 <= i < TICKETS && s.tickets[i].token != 0
                           && s.tickets[i].owner == ptr && s.tickets[i].tid == tid
  {
    InvShaped(s);
    hide Inv;
    forall i | 0 <= i < TICKETS
      ensures Matches(AnyOf(ptr, tid), s.tickets[i]) <==>
              s.tickets[i].token != 0 && s.tickets[i].owner == ptr && s.tickets[i].tid == tid
    {}
  }

  /** Reaping a stopped owner with I/O in flight fences every later claim and ticket, in every continuation. */
  lemma ReapedIoFencesAll(s: State, stopped: set<nat>, i: nat, run: seq<(Task, Call)>, task: Task,
                          e: Extent, exclusive: bool, device: u32, generation: u64, offset: u64, bytes: u64)
    requires Inv(s) && i < TICKETS && s.tickets[i].token != 0 && !s.tickets[i].poisoned
    requires s.tickets[i].owner != 0 && s.tickets[i].owner in stopped
    ensures Inv(Reap(s, stopped))
    ensures var t := Exec(Reap(s, stopped), run);
            && t.tickets[i] == s.tickets[i].(poisoned := true)
            && ClaimWith(t, e, exclusive, false, task).status == EIO
            && IoBegin(t, device, generation, offset, bytes, task).status == EIO
  {
    ReapMarks(s, stopped);
    ReapInv(s, stopped);
    PoisonIsForever(Reap(s, stopped), run);
  }

  // ------------------------------------------------------- the management claim

  /** A free management claim goes to whoever asks first, at depth one and under a fresh token. */
  lemma ManagementGrants(s: State, task: Task)
    requires Inv(s) && s.management.token == 0
    ensures var o := ManagementBegin(s, task);
            if s.next == TOP - 1 then o == Fail(s, EOVERFLOW)
            else && o.status == OK && o.token == s.next == o.state.management.token && OwnedBy(o.state.management, task)
                 && !o.state.management.poisoned && o.state.depth == 1 && o.state.next == s.next + 1
                 && o.state == s.(management := o.state.management, depth := 1, next := s.next + 1)
  {
    assert !s.management.poisoned by { assert [s.management][0] == s.management; }
  }

  /** Its owner may begin again; each begin counts one more and returns the same token. */
  lemma ManagementNests(s: State, task: Task)
    requires Inv(s) && s.management.token != 0 && !s.management.poisoned && OwnedBy(s.management, task)
    ensures ManagementBegin(s, task) ==
            if s.depth == 0xFFFF_FFFF then Fail(s, EOVERFLOW)
            else Outcome(s.(depth := s.depth + 1), OK, s.management.token)
    ensures s.depth > 0 ==>
            ManagementEnd(s, s.management.token, task) ==
            if s.depth == 1 then s.(management := NO_ACCESS, depth := 0) else s.(depth := s.depth - 1)
  {}

  // -------------------------------------------------------- what callers are told

  ghost predicate Any(t: seq<Access>, hit: Access -> bool) { exists i :: 0 <= i < |t| && hit(t[i]) }

  /** The status is that of some access in the way: EIO if it is poisoned, EBUSY if it is not. */
  ghost predicate Tells(t: seq<Access>, hit: Access -> bool, status: Status) {
    exists i :: 0 <= i < |t| && hit(t[i]) && status == if t[i].poisoned then EIO else EBUSY
  }

  lemma FirstTells(t: seq<Access>, q: Query, hit: Access -> bool)
    requires forall i :: 0 <= i < |t| ==> (Matches(q, t[i]) <==> hit(t[i]))
    ensures First(t, q) < |t| <==> Any(t, hit)
    ensures First(t, q) < |t| ==> Tells(t, hit, Refusal(t[First(t, q)]))
  {
    if i :| 0 <= i < |t| && hit(t[i]) { assert Matches(q, t[i]); }
  }

  function Touching(e: Extent): Access -> bool { (a: Access) => a.token != 0 && Overlaps(a.extent, e) }

  function Poisoning(e: Extent): Access -> bool { (a: Access) => a.token != 0 && a.poisoned && Overlaps(a.extent, e) }

  function Vacant(): Access -> bool { (a: Access) => a.token == 0 }

  /** Leases that forbid a task's I/O on an extent. */
  function Forbidding(e: Extent, task: Task): Access -> bool {
    (a: Access) => && a.token != 0 && Overlaps(a.extent, e)
                   && (a.poisoned || (a.exclusive && !(OwnedBy(a, task) && Contains(a.extent, e))))
  }

  lemma TouchingTells(t: seq<Access>, e: Extent, task: Task)
    ensures First(t, Overlapping(e)) < |t| <==> Any(t, Touching(e))
    ensures First(t, Overlapping(e)) < |t| ==> Tells(t, Touching(e), Refusal(t[First(t, Overlapping(e))]))
    ensures First(t, Blocking(e, false, task)) < |t| <==> Any(t, Touching(e))
    ensures First(t, Blocking(e, false, task)) < |t| ==>
              Tells(t, Touching(e), Refusal(t[First(t, Blocking(e, false, task))]))
  {
    FirstTells(t, Overlapping(e), Touching(e));
    FirstTells(t, Blocking(e, false, task), Touching(e));
  }

  lemma VacantTells(t: seq<Access>)
    ensures First(t, Free) < |t| <==> Any(t, Vacant())
  {
    FirstTells(t, Free, Vacant());
  }

  lemma ForbiddingTells(t: seq<Access>, e: Extent, task: Task)
    ensures First(t, RefusingIo(e, task)) < |t| <==> Any(t, Forbidding(e, task))
    ensures First(t, RefusingIo(e, task)) < |t| ==>
              Tells(t, Forbidding(e, task), Refusal(t[First(t, RefusingIo(e, task))]))
    ensures First(t, PoisonedOverlapping(e)) < |t| <==> Any(t, Poisoning(e))
  {
    FirstTells(t, RefusingIo(e, task), Forbidding(e, task));
    FirstTells(t, PoisonedOverlapping(e), Poisoning(e));
  }

  lemma RegisteredIff(s: State, e: Extent)
    requires Inv(s)
    ensures var r := Resolve(s, e.device, e.generation); r.Some? && Exact(e, r.value) <==> Registered(s.devices, e)
  {
    ResolveIffPublished(s, e.device, e.generation);
    if e.device < DEVICES && s.devices[e.device].valid { assert DeviceOk(s.devices, e.device); }
  }

  lemma ResolvedIs(s: State, device: u32, generation: u64)
    requires Inv(s)
    ensures Resolve(s, device, generation) ==
            if InPublished(s, device, generation, 0, 0) then Some(s.devices[device].extent) else None
  {
    ResolveIffPublished(s, device, generation);
  }

  lemma ClaimStatus(s: State, e: Extent, exclusive: bool, task: Task)
    requires Inv(s)
    ensures var status := ClaimWith(s, e, exclusive, false, task).status;
            if s.abandoned then status == EIO
            else if !Registered(s.devices, e) then status == ENODEV
            else if exclusive && task.ptr == 0 then status == EPERM
            else if Any(s.leases, Touching(e)) then Tells(s.leases, Touching(e), status)
            else if Any(s.tickets, Touching(e)) then Tells(s.tickets, Touching(e), status)
            else status == if !Any(s.leases, Vacant()) then ENOSPC else if s.next == TOP - 1 then EOVERFLOW else OK
  {
    hide Inv, Any, Tells, Overlaps, First, Matches, Exact, Resolve, Registered;
    InvShaped(s);
    RegisteredIff(s, e);
    TouchingTells(s.leases, e, task);
    TouchingTells(s.tickets, e, task);
    VacantTells(s.leases);
  }

  lemma IoStatus(s: State, device: u32, generation: u64, offset: u64, bytes: u64, task: Task)
    requires Inv(s)
    ensures var status := IoBegin(s, device, generation, offset, bytes, task).status;
            if s.abandoned then status == EIO
            else if !InPublished(s, device, generation, 0, 0) then status == ENODEV
            else if !InPublished(s, device, generation, offset, bytes) then status == EINVAL
            else
              var w := Window(s.devices[device].extent, offset, bytes);
              if Any(s.leases, Forbidding(w, task)) then Tells(s.leases, Forbidding(w, task), status)
              else if Any(s.tickets, Poisoning(w)) then status == EIO
              else status == if !Any(s.tickets, Vacant()) then ENOSPC else if s.next == TOP - 1 then EOVERFLOW else OK
  {
    hide Inv, Any, Tells, Overlaps, First, Matches, Contains, Resolve;
    InvShaped(s);
    ResolvedIs(s, device, generation);
    if InPublished(s, device, generation, offset, bytes) {
      var w := Window(s.devices[device].extent, offset, bytes);
      ForbiddingTells(s.leases, w, task);
      ForbiddingTells(s.tickets, w, task);
    }
    VacantTells(s.tickets);
  }

  lemma ReleaseStatus(s: State, token: u64, task: Task)
    requires Inv(s)
    ensures var status := Release(s, token, task).status;
            if token == 0 || TokenAbsent(token, s.leases) then status == EINVAL
            else forall i :: 0 <= i < LEASES && s.leases[i].token == token ==>
                   status == if s.leases[i].poisoned then EIO
                             else if s.leases[i].exclusive && !OwnedBy(s.leases[i], task) then EPERM else OK
  {
    InvShaped(s);
    if token != 0 { NamedIsUnique(s, token); }
  }

  /** Withdrawing a device, or registering one again, is refused for whatever touches it. */
  lemma DeviceStatus(s: State, device: u32, bytes: u64, flush: bool, task: Task)
    requires Inv(s)
    ensures var status := Unregister(s, device, task).status;
            if device >= 256 || !s.devices[device].valid then status == ENODEV
            else
              var e := s.devices[device].extent;
              if Any(s.leases, Touching(e)) then Tells(s.leases, Touching(e), status)
              else if Any(s.tickets, Touching(e)) then Tells(s.tickets, Touching(e), status) else status == OK
    ensures var status := RegisterWhole(s, device, bytes, flush, task).status;
            if device >= 256 || bytes == 0 then status == EINVAL
            else if s.devices[device].valid then
              status == if Unregister(s, device, task).status == OK then EEXIST else Unregister(s, device, task).status
            else status == if s.next == TOP - 1 then EOVERFLOW else OK
  {
    hide Inv, Any, Tells, Overlaps, First, Matches, Contains;
    InvShaped(s);
    if device < DEVICES {
      TouchingTells(s.leases, s.devices[device].extent, task);
      TouchingTells(s.tickets, s.devices[device].extent, task);
    }
  }
}
