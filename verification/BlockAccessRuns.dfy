/**
  Every run of the block-device registry: the invariant holds in every reachable
  state, poison is permanent and fails closed, and identities are never reused.
 */
module BlockAccessRuns {
  import opened Common
  import opened BlockAccess

  datatype Call =
    | CallRegisterWhole(device: u32, bytes: u64, flush: bool)
    | CallRegisterSlice(device: u32, parent: u32, offset: u64, bytes: u64)
    | CallPublish(device: u32, generation: u64)
    | CallUnregister(device: u32)
    | CallClaim(extent: Extent, exclusive: bool)
    | CallRelease(token: u64)
    | CallPoison(token: u64)
    | CallIoBegin(device: u32, generation: u64, offset: u64, bytes: u64)
    | CallIoEnd(token: u64)
    | CallAbandon(ptr: nat, tid: u64)
    | CallReap(stopped: set<nat>)
    | CallScanBegin(device: u32)
    | CallManagementBegin
    | CallManagementEnd(token: u64)

  function Initial(): State {
    State(seq(DEVICES, _ => NO_DEVICE), seq(LEASES, _ => NO_ACCESS), seq(TICKETS, _ => NO_ACCESS),
          NO_ACCESS, 0, 1, false)
  }

  /** One locked entry point, called by `task`. */
  function Do(s: State, task: Task, call: Call): Outcome
    requires Inv(s)
  {
    match call
    case CallRegisterWhole(device, bytes, flush) => RegisterWhole(s, device, bytes, flush, task)
    case CallRegisterSlice(device, parent, offset, bytes) => RegisterSlice(s, device, parent, offset, bytes, task)
    case CallPublish(device, generation) => Publish(s, device, generation)
    case CallUnregister(device) => Unregister(s, device, task)
    case CallClaim(extent, exclusive) => ClaimWith(s, extent, exclusive, false, task)
    case CallRelease(token) => Release(s, token, task)
    case CallPoison(token) => Outcome(Poison(s, token), OK, 0)
    case CallIoBegin(device, generation, offset, bytes) => IoBegin(s, device, generation, offset, bytes, task)
    case CallIoEnd(token) => Outcome(IoEnd(s, token), OK, 0)
    case CallAbandon(ptr, tid) => Outcome(Abandon(s, ptr, tid), OK, 0)
    case CallReap(stopped) => Outcome(Reap(s, stopped), OK, 0)
    case CallScanBegin(device) => ScanBegin(s, device, task)
    case CallManagementBegin => ManagementBegin(s, task)
    case CallManagementEnd(token) => Outcome(ManagementEnd(s, token, task), OK, 0)
  }

  // ------------------------------------------------ each step keeps the invariant

  lemma InitialInv()
    ensures Inv(Initial())
  {}

  lemma InvShaped(s: State)
    requires Inv(s)
    ensures Shaped(s) && s.next > 0
    ensures PoisonedLive(s.leases) && PoisonedLive(s.tickets) && PoisonedLive([s.management])
  {}

  /** A resolved extent is one of the registered ones and its end fits in 64 bits. */
  lemma ResolvedFits(s: State, device: u32, generation: u64)
    requires Inv(s) && Resolve(s, device, generation).Some?
    ensures var e := Resolve(s, device, generation).value;
            Registered(s.devices, e) && Fits(e) && e.device == device && e.bytes != 0
  {}

  /** The physical re-check never rejects a published registration, in any reachable state. */
  lemma ResolveIffPublished(s: State, device: u32, generation: u64)
    requires Inv(s)
    ensures Resolve(s, device, generation).Some? <==>
            && device < DEVICES && s.devices[device].valid && s.devices[device].published
            && (generation == 0 || generation == s.devices[device].extent.generation)
  {
    if device < DEVICES && s.devices[device].valid { assert DeviceOk(s.devices, device); }
  }

  /** Every extent the tables hold fits, so no addition made by an overlap test wraps. */
  lemma TableExtentsFit(s: State)
    requires Inv(s)
    ensures forall i :: 0 <= i < DEVICES && s.devices[i].valid ==> Fits(s.devices[i].extent)
    ensures forall i ::
              0 <= i < LEASES && s.leases[i].token != 0 ==> Fits(s.leases[i].extent) && s.leases[i].extent.bytes != 0
    ensures forall i :: 0 <= i < TICKETS && s.tickets[i].token != 0 ==> Fits(s.tickets[i].extent)
  {
    forall i | 0 <= i < DEVICES && s.devices[i].valid
      ensures Fits(s.devices[i].extent)
    {
      assert DeviceOk(s.devices, i);
    }
    forall i | 0 <= i < LEASES && s.leases[i].token != 0
      ensures Fits(s.leases[i].extent) && s.leases[i].extent.bytes != 0
    {
      assert DeviceOk(s.devices, s.leases[i].extent.device);
    }
  }

  lemma LeaseStored(s: State, slot: nat, entry: Access)
    requires Inv(s) && slot < LEASES && entry.token == s.next < TOP - 1 && !entry.poisoned
    requires Registered(s.devices, entry.extent)
    requires TokenFree(s.leases, entry.extent) && TokenFree(s.tickets, entry.extent)
    ensures Inv(s.(leases := s.leases[slot := entry], next := s.next + 1))
  {}

  /** Nothing live in the table touches the extent, from either side of the overlap test. */
  predicate TokenFree(t: seq<Access>, e: Extent) {
    forall i :: 0 <= i < |t| && t[i].token != 0 ==> !Overlaps(t[i].extent, e) && !Overlaps(e, t[i].extent)
  }

  lemma NoMatchIsFree(t: seq<Access>, e: Extent)
    requires First(t, Overlapping(e)) == |t|
    ensures TokenFree(t, e)
  {}

  lemma ClaimInv(s: State, e: Extent, exclusive: bool, scan: bool, task: Task)
    requires Inv(s)
    ensures Inv(ClaimWith(s, e, exclusive, scan, task).state)
  {
    var o := ClaimWith(s, e, exclusive, scan, task);
    if o.status == OK {
      ResolvedFits(s, e.device, e.generation);
      NoMatchIsFree(s.leases, e);
      NoMatchIsFree(s.tickets, e);
      var slot := First(s.leases, Free);
      LeaseStored(s, slot, o.state.leases[slot]);
    }
  }

  lemma DeviceStored(s: State, device: nat, entry: Registration)
    requires Inv(s) && device < DEVICES && !s.devices[device].valid && s.next < TOP - 1
    requires entry.extent.generation == s.next
    requires DeviceOk(s.devices[device := entry], device)
    ensures Inv(s.(devices := s.devices[device := entry], next := s.next + 1))
  {}

  lemma RegisterSliceInv(s: State, device: u32, parent: u32, offset: u64, bytes: u64, task: Task)
    requires Inv(s)
    ensures Inv(RegisterSlice(s, device, parent, offset, bytes, task).state)
  {
    var o := RegisterSlice(s, device, parent, offset, bytes, task);
    if o.status == OK {
      assert DeviceOk(s.devices, parent);
      DeviceStored(s, device, o.state.devices[device]);
    }
  }

  lemma PublishInv(s: State, device: u32, generation: u64)
    requires Inv(s)
    ensures Inv(Publish(s, device, generation).state)
  {}

  /** Nothing live lies on a device that may be withdrawn. */
  lemma AvailableMeansFree(s: State, e: Extent, task: Task)
    requires Available(s, e, false, task) == OK
    ensures TokenFree(s.leases, e) && TokenFree(s.tickets, e)
  {}

  lemma UnregisterInv(s: State, device: u32, task: Task)
    requires Inv(s)
    ensures Inv(Unregister(s, device, task).state)
  {
    var o := Unregister(s, device, task);
    if o.status == OK {
      var e := s.devices[device].extent;
      AvailableMeansFree(s, e, task);
      WithdrawInv(s, device);
    }
  }

  lemma WithdrawInv(s: State, device: nat)
    requires Inv(s) && device < DEVICES && s.devices[device].valid
    requires TokenFree(s.leases, s.devices[device].extent) && TokenFree(s.tickets, s.devices[device].extent)
    ensures Inv(s.(devices := Withdraw(s.devices, device)))
  {}

  lemma LeaseCleared(s: State, i: nat)
    requires Inv(s) && i < LEASES
    ensures Inv(s.(leases := s.leases[i := NO_ACCESS]))
  {}

  lemma TicketStored(s: State, slot: nat, entry: Access)
    requires Inv(s) && slot < TICKETS && entry.token == s.next < TOP - 1 && !entry.poisoned
    requires TicketPinned(s.devices, entry.extent)
    requires forall j :: 0 <= j < LEASES ==> Inside(entry, s.leases[j])
    ensures Inv(s.(tickets := s.tickets[slot := entry], next := s.next + 1))
  {}

  lemma IoBeginInv(s: State, device: u32, generation: u64, offset: u64, bytes: u64, task: Task)
    requires Inv(s)
    ensures Inv(IoBegin(s, device, generation, offset, bytes, task).state)
  {
    var o := IoBegin(s, device, generation, offset, bytes, task);
    if o.status == OK {
      ResolvedFits(s, device, generation);
      var r := Resolve(s, device, generation).value;
      var e := r.(start := Add(r.start, offset), bytes := bytes);
      var slot := First(s.tickets, Free);
      forall j | 0 <= j < LEASES ensures Inside(o.state.tickets[slot], s.leases[j]) {
        assert !Matches(RefusingIo(e, task), s.leases[j]);
      }
      TicketStored(s, slot, o.state.tickets[slot]);
    }
  }

  /** Setting poison flags of live entries keeps the invariant. */
  lemma FlagsInv(s: State, t: State)
    requires Inv(s) && Shaped(t) && t.devices == s.devices && t.next == s.next
    requires forall i :: 0 <= i < LEASES ==> t.leases[i] == s.leases[i].(poisoned := t.leases[i].poisoned)
    requires forall i :: 0 <= i < TICKETS ==> t.tickets[i] == s.tickets[i].(poisoned := t.tickets[i].poisoned)
    requires t.management == s.management.(poisoned := t.management.poisoned)
    requires PoisonedLive(t.leases) && PoisonedLive(t.tickets) && PoisonedLive([t.management])
    ensures Inv(t)
  {}

  lemma ManagementInv(s: State, t: State)
    requires Inv(s) && t == s.(management := t.management, depth := t.depth, next := t.next)
    requires || (t.next == s.next && (t.management.token == s.management.token || t.management.token == 0))
             || (t.next == s.next + 1 && t.management.token == s.next)
    requires PoisonedLive([t.management])
    ensures Inv(t)
  {}

  lemma RegisterWholeInv(s: State, device: u32, bytes: u64, flush: bool, task: Task)
    requires Inv(s)
    ensures Inv(RegisterWhole(s, device, bytes, flush, task).state)
  {
    var o := RegisterWhole(s, device, bytes, flush, task);
    if o.status == OK { DeviceStored(s, device, o.state.devices[device]); }
  }

  lemma ReleaseInv(s: State, token: u64, task: Task)
    requires Inv(s)
    ensures Inv(Release(s, token, task).state)
  {
    if Release(s, token, task).status == OK { LeaseCleared(s, First(s.leases, Named(token))); }
  }

  lemma IoEndInv(s: State, token: u64)
    requires Inv(s)
    ensures Inv(IoEnd(s, token))
  {}

  lemma MarkingKeepsPoisonLive(t: seq<Access>, q: Query)
    requires PoisonedLive(t) && !q.Free?
    ensures PoisonedLive(PoisonWhere(t, q))
  {}

  lemma PoisonInv(s: State, token: u64)
    requires Inv(s)
    ensures Inv(Poison(s, token))
  {
    InvShaped(s);
    hide Inv;
    MarkingKeepsPoisonLive(s.leases, Named(token));
    MarkingKeepsPoisonLive(s.tickets, Named(token));
    FlagsInv(s, Poison(s, token));
  }

  lemma AbandonInv(s: State, ptr: nat, tid: u64)
    requires Inv(s)
    ensures Inv(Abandon(s, ptr, tid))
  {
    InvShaped(s);
    hide Inv;
    MarkingKeepsPoisonLive(s.leases, ExclusiveOf(ptr, tid));
    MarkingKeepsPoisonLive(s.tickets, AnyOf(ptr, tid));
    FlagsInv(s, Abandon(s, ptr, tid));
  }

  lemma ReapInv(s: State, stopped: set<nat>)
    requires Inv(s)
    ensures Inv(Reap(s, stopped))
  {
    InvShaped(s);
    hide Inv;
    MarkingKeepsPoisonLive(s.leases, StoppedExclusive(stopped));
    MarkingKeepsPoisonLive(s.tickets, Stopped(stopped));
    FlagsInv(s, Reap(s, stopped));
  }

  lemma ManagementCallsInv(s: State, token: u64, task: Task)
    requires Inv(s)
    ensures Inv(ManagementBegin(s, task).state) && Inv(ManagementEnd(s, token, task))
  {
    ManagementInv(s, ManagementBegin(s, task).state);
    ManagementInv(s, ManagementEnd(s, token, task));
  }

  lemma ScanBeginInv(s: State, device: u32, task: Task)
    requires Inv(s)
    ensures Inv(ScanBegin(s, device, task).state)
  {
    var r := Resolve(s, device, 0);
    if r.Some? { ClaimInv(s, r.value, true, true, task); }
  }

  lemma StepInv(s: State, task: Task, call: Call)
    requires Inv(s)
    ensures Inv(Do(s, task, call).state)
  {
    hide Inv;
    hide RegisterWhole;
    hide RegisterSlice;
    hide Publish;
    hide Unregister;
    hide ClaimWith;
    hide Release;
    hide Poison;
    hide IoBegin;
    hide IoEnd;
    hide Abandon;
    hide Reap;
    hide ScanBegin;
    hide ManagementBegin;
    hide ManagementEnd;
    match call
    case CallRegisterWhole(device, bytes, flush) => RegisterWholeInv(s, device, bytes, flush, task);
    case CallRegisterSlice(device, parent, offset, bytes) => RegisterSliceInv(s, device, parent, offset, bytes, task);
    case CallPublish(device, generation) => PublishInv(s, device, generation);
    case CallUnregister(device) => UnregisterInv(s, device, task);
    case CallClaim(extent, exclusive) => ClaimInv(s, extent, exclusive, false, task);
    case CallRelease(token) => ReleaseInv(s, token, task);
    case CallPoison(token) => PoisonInv(s, token);
    case CallIoBegin(device, generation, offset, bytes) => IoBeginInv(s, device, generation, offset, bytes, task);
    case CallIoEnd(token) => IoEndInv(s, token);
    case CallAbandon(ptr, tid) => AbandonInv(s, ptr, tid);
    case CallReap(stopped) => ReapInv(s, stopped);
    case CallScanBegin(device) => ScanBeginInv(s, device, task);
    case CallManagementBegin => ManagementCallsInv(s, 0, task);
    case CallManagementEnd(token) => ManagementCallsInv(s, token, task);
  }

  // -------------------------------------------------------------- whole runs

  /** The state after any sequence of entry points by any tasks. */
  function Exec(s: State, run: seq<(Task, Call)>): (t: State)
    requires Inv(s)
    ensures Inv(t)
    decreases |run|
  {
    if run == [] then s
    else
      StepInv(s, run[0].0, run[0].1);
      Exec(Do(s, run[0].0, run[0].1).state, run[1..])
  }

  function Reached(run: seq<(Task, Call)>): (s: State)
    ensures Inv(s)
  {
    InitialInv();
    Exec(Initial(), run)
  }

  /** No two live leases share a byte of one disk incarnation, after any run. */
  lemma LeasesExclude(run: seq<(Task, Call)>, i: nat, j: nat, physical: u32, generation: u64, position: nat)
    requires i < LEASES && j < LEASES
    requires var s := Reached(run);
             && s.leases[i].token != 0 && Covers(s.leases[i].extent, physical, generation, position)
             && s.leases[j].token != 0 && Covers(s.leases[j].extent, physical, generation, position)
    ensures i == j
  {
    var s := Reached(run);
    TableExtentsFit(s);
    OverlapsIsSharedByte(s.leases[i].extent, s.leases[j].extent);
    OverlapsIsSharedByte(s.leases[j].extent, s.leases[i].extent);
  }

  /** A live ticket that shares a byte with a live exclusive lease is its owner's and lies wholly inside it. */
  lemma TicketsRespectExclusive(run: seq<(Task, Call)>, i: nat, j: nat, position: nat)
    requires i < TICKETS && j < LEASES
    requires var s := Reached(run); var t, l := s.tickets[i], s.leases[j];
             && t.token != 0 && l.token != 0 && l.exclusive
             && Covers(t.extent, t.extent.physical, t.extent.physicalGeneration, position)
             && Covers(l.extent, t.extent.physical, t.extent.physicalGeneration, position)
    ensures var s := Reached(run); var t, l := s.tickets[i], s.leases[j];
            && t.owner == l.owner && t.tid == l.tid
            && forall p :: Covers(t.extent, t.extent.physical, t.extent.physicalGeneration, p) ==>
                 Covers(l.extent, t.extent.physical, t.extent.physicalGeneration, p)
  {
    var s := Reached(run);
    var t, l := s.tickets[i], s.leases[j];
    TableExtentsFit(s);
    OverlapsIsSharedByte(l.extent, t.extent);
    assert Inside(t, l);
    ContainsIsInclusion(l.extent, t.extent);
  }

  /** Leases, nonempty tickets and slices are pinned to live registrations, after any run. */
  lemma AccessesPinned(run: seq<(Task, Call)>)
    ensures var s := Reached(run);
            && (forall i :: 0 <= i < LEASES && s.leases[i].token != 0 ==> Registered(s.devices, s.leases[i].extent))
            && (forall i :: 0 <= i < TICKETS && s.tickets[i].token != 0 && s.tickets[i].extent.bytes != 0 ==>
                  var e := s.tickets[i].extent;
                  && e.device < DEVICES && s.devices[e.device].valid && s.devices[e.device].published
                  && e.physical < DEVICES && s.devices[e.physical].valid && s.devices[e.physical].published
                  && s.devices[e.physical].extent.generation == e.physicalGeneration
                  && Contains(s.devices[e.device].extent, e))
            && (forall i :: 0 <= i < DEVICES && s.devices[i].valid ==>
                  var e := s.devices[i].extent;
                  && e.physical < DEVICES && s.devices[e.physical].valid && Contains(s.devices[e.physical].extent, e)
                  && Resolve(s, i, 0).Some? == s.devices[i].published)
  {
    var s := Reached(run);
    forall i | 0 <= i < DEVICES && s.devices[i].valid
      ensures var e := s.devices[i].extent;
              && e.physical < DEVICES && s.devices[e.physical].valid && Contains(s.devices[e.physical].extent, e)
              && Resolve(s, i, 0).Some? == s.devices[i].published
    {
      assert DeviceOk(s.devices, i);
    }
    forall i | 0 <= i < TICKETS && s.tickets[i].token != 0 && s.tickets[i].extent.bytes != 0
      ensures var e := s.tickets[i].extent;
              && e.physical < DEVICES && s.devices[e.physical].valid && s.devices[e.physical].published
              && s.devices[e.physical].extent.generation == e.physicalGeneration
    {
      assert DeviceOk(s.devices, s.tickets[i].extent.device);
    }
  }

  // ------------------------------------------------------- poison is forever

  /** What no step may undo. */
  predicate Preserves(s: State, t: State)
    requires Shaped(s) && Shaped(t)
  {
    && (forall i :: 0 <= i < LEASES && s.leases[i].poisoned ==> t.leases[i] == s.leases[i])
    && (forall i :: 0 <= i < TICKETS && s.tickets[i].poisoned ==> t.tickets[i] == s.tickets[i])
    && (s.management.poisoned ==> t.management == s.management)
    && (s.abandoned ==> t.abandoned)
    && s.next <= t.next
    && (forall i :: 0 <= i < DEVICES ==>
          t.devices[i].extent == s.devices[i].extent || t.devices[i].extent.generation >= s.next)
  }

  /**
    How one step may change a slot: not at all, or, unless poisoned, flag it, clear it or fill it with a fresh
    identity.
   */
  predicate SlotEvolves(a: Access, b: Access, next: u64) {
    b == a || (!a.poisoned && (b == a.(poisoned := true) || b == NO_ACCESS || (a.token == 0 && b.token == next)))
  }

  predicate Evolves(s: State, t: State)
    requires Shaped(s) && Shaped(t)
  {
    && (forall i :: 0 <= i < LEASES ==> SlotEvolves(s.leases[i], t.leases[i], s.next))
    && (forall i :: 0 <= i < TICKETS ==> SlotEvolves(s.tickets[i], t.tickets[i], s.next))
    && SlotEvolves(s.management, t.management, s.next)
    && (s.abandoned ==> t.abandoned)
    && s.next <= t.next
    && (forall i :: 0 <= i < DEVICES ==>
          t.devices[i].extent == s.devices[i].extent || t.devices[i].extent.generation == s.next)
  }

  lemma ClaimEvolves(s: State, e: Extent, exclusive: bool, scan: bool, task: Task)
    requires Inv(s)
    ensures var t := ClaimWith(s, e, exclusive, scan, task).state; Shaped(t) && Evolves(s, t)
  {}

  lemma WholeEvolves(s: State, device: u32, bytes: u64, flush: bool, task: Task)
    requires Inv(s)
    ensures var t := RegisterWhole(s, device, bytes, flush, task).state; Shaped(t) && Evolves(s, t)
  {
    hide Available;
  }

  lemma SliceEvolves(s: State, device: u32, bytes: u64, parent: u32, offset: u64, task: Task)
    requires Inv(s)
    ensures var t := RegisterSlice(s, device, parent, offset, bytes, task).state; Shaped(t) && Evolves(s, t)
  {
    hide Available;
    hide Resolve;
  }

  lemma IoBeginEvolves(s: State, device: u32, generation: u64, offset: u64, bytes: u64, task: Task)
    requires Inv(s)
    ensures var t := IoBegin(s, device, generation, offset, bytes, task).state; Shaped(t) && Evolves(s, t)
  {}

  lemma PoisonEvolves(s: State, token: u64)
    requires Inv(s)
    ensures Shaped(Poison(s, token)) && Evolves(s, Poison(s, token))
  {}

  lemma AbandonEvolves(s: State, ptr: nat, tid: u64)
    requires Inv(s)
    ensures Shaped(Abandon(s, ptr, tid)) && Evolves(s, Abandon(s, ptr, tid))
  {}

  lemma ReapEvolves(s: State, stopped: set<nat>)
    requires Inv(s)
    ensures Shaped(Reap(s, stopped)) && Evolves(s, Reap(s, stopped))
  {}

  lemma ScanEvolves(s: State, device: u32, task: Task)
    requires Inv(s)
    ensures var t := ScanBegin(s, device, task).state; Shaped(t) && Evolves(s, t)
  {}

  lemma DeviceEvolves(s: State, device: u32, generation: u64, task: Task)
    requires Inv(s)
    ensures Shaped(Publish(s, device, generation).state) && Evolves(s, Publish(s, device, generation).state)
    ensures Shaped(Unregister(s, device, task).state) && Evolves(s, Unregister(s, device, task).state)
  {}

  lemma ReleaseEvolves(s: State, token: u64, task: Task)
    requires Inv(s)
    ensures Shaped(Release(s, token, task).state) && Evolves(s, Release(s, token, task).state)
  {}

  lemma IoEndEvolves(s: State, token: u64)
    requires Inv(s)
    ensures Shaped(IoEnd(s, token)) && Evolves(s, IoEnd(s, token))
  {}

  lemma ManagementEvolves(s: State, token: u64, task: Task)
    requires Inv(s)
    ensures Shaped(ManagementBegin(s, task).state) && Evolves(s, ManagementBegin(s, task).state)
    ensures Shaped(ManagementEnd(s, token, task)) && Evolves(s, ManagementEnd(s, token, task))
  {}

  lemma StepEvolves(s: State, task: Task, call: Call)
    requires Inv(s)
    ensures Shaped(Do(s, task, call).state) && Evolves(s, Do(s, task, call).state)
  {
    hide RegisterWhole;
    hide RegisterSlice;
    hide Publish;
    hide Unregister;
    hide ClaimWith;
    hide Release;
    hide Poison;
    hide IoBegin;
    hide IoEnd;
    hide Abandon;
    hide Reap;
    hide ScanBegin;
    hide ManagementBegin;
    hide ManagementEnd;
    hide Evolves;
    match call
    case CallClaim(e, exclusive) => ClaimEvolves(s, e, exclusive, false, task);
    case CallScanBegin(device) => ScanEvolves(s, device, task);
    case CallRegisterWhole(device, bytes, flush) => WholeEvolves(s, device, bytes, flush, task);
    case CallRegisterSlice(device, parent, offset, bytes) => SliceEvolves(s, device, bytes, parent, offset, task);
    case CallIoBegin(device, generation, offset, bytes) => IoBeginEvolves(s, device, generation, offset, bytes, task);
    case CallPoison(token) => PoisonEvolves(s, token);
    case CallAbandon(ptr, tid) => AbandonEvolves(s, ptr, tid);
    case CallReap(stopped) => ReapEvolves(s, stopped);
    case CallPublish(device, generation) => DeviceEvolves(s, device, generation, task);
    case CallUnregister(device) => DeviceEvolves(s, device, 0, task);
    case CallRelease(token) => ReleaseEvolves(s, token, task);
    case CallIoEnd(token) => IoEndEvolves(s, token);
    case CallManagementBegin => ManagementEvolves(s, 0, task);
    case CallManagementEnd(token) => ManagementEvolves(s, token, task);
  }

  /** Tombstones survive every run unchanged, abandonment stays set and identities only grow. */
  lemma {:induction false} PoisonIsForever(s: State, run: seq<(Task, Call)>)
    requires Inv(s)
    ensures Preserves(s, Exec(s, run))
    decreases |run|
  {
    if run != [] {
      StepInv(s, run[0].0, run[0].1);
      StepEvolves(s, run[0].0, run[0].1);
      PoisonIsForever(Do(s, run[0].0, run[0].1).state, run[1..]);
    }
  }

  /** The extent that a call would newly use or withdraw, when the registry lets it. */
  function Wanted(s: State, call: Call): Option<Extent>
    requires Inv(s)
  {
    match call
    case CallClaim(extent, _) => Some(extent)
    case CallScanBegin(device) => Resolve(s, device, 0)
    case CallIoBegin(device, generation, offset, bytes) =>
      var r := Resolve(s, device, generation);
      if r.Some? then Some(r.value.(start := Add(r.value.start, offset), bytes := bytes)) else None
    case CallRegisterSlice(device, parent, offset, bytes) =>
      var r := Resolve(s, parent, 0);
      if r.Some? then Some(r.value.(start := Add(r.value.start, offset), bytes := bytes)) else None
    case CallUnregister(device) =>
      if device < DEVICES && s.devices[device].valid then Some(s.devices[device].extent) else None
    case _ => None
  }

  predicate Tombstone(s: State, e: Extent) {
    || (exists i :: 0 <= i < |s.leases| && s.leases[i].poisoned && s.leases[i].extent == e)
    || (exists i :: 0 <= i < |s.tickets| && s.tickets[i].poisoned && s.tickets[i].extent == e)
  }

  /** A poisoned entry in either table makes every scan for the extent stop at some entry. */
  lemma PoisonStopsScans(s: State, e: Extent, w: Extent, registration: bool, task: Task)
    requires PoisonedLive(s.leases) && PoisonedLive(s.tickets) && Tombstone(s, e) && Overlaps(e, w)
    ensures Available(s, w, registration, task) != OK
    ensures First(s.leases, Overlapping(w)) < |s.leases| || First(s.tickets, Overlapping(w)) < |s.tickets|
    ensures First(s.leases, RefusingIo(w, task)) < |s.leases| || First(s.tickets, PoisonedOverlapping(w)) < |s.tickets|
  {
    if i :| 0 <= i < |s.leases| && s.leases[i].poisoned && s.leases[i].extent == e {
      assert Matches(Overlapping(w), s.leases[i]) && Matches(RefusingIo(w, task), s.leases[i]);
      assert Matches(Blocking(w, registration, task), s.leases[i]);
    } else {
      var i :| 0 <= i < |s.tickets| && s.tickets[i].poisoned && s.tickets[i].extent == e;
      assert Matches(Overlapping(w), s.tickets[i]) && Matches(PoisonedOverlapping(w), s.tickets[i]);
    }
  }

  lemma ClaimRefused(s: State, w: Extent, exclusive: bool, scan: bool, task: Task, e: Extent)
    requires Inv(s) && Tombstone(s, e) && Overlaps(e, w)
    ensures ClaimWith(s, w, exclusive, scan, task).status != OK
  {}

  lemma ScanRefused(s: State, device: u32, task: Task, e: Extent)
    requires Inv(s) && Tombstone(s, e)
    requires Resolve(s, device, 0).Some? && Overlaps(e, Resolve(s, device, 0).value)
    ensures ScanBegin(s, device, task).status != OK
  {}

  lemma SliceRefused(s: State, call: Call, task: Task, e: Extent)
    requires Inv(s) && Tombstone(s, e) && call.CallRegisterSlice?
    requires Wanted(s, call).Some? && Overlaps(e, Wanted(s, call).value)
    ensures RegisterSlice(s, call.device, call.parent, call.offset, call.bytes, task).status != OK
  {
    InvShaped(s);
    hide Inv;
    hide Resolve;
    hide Tombstone;
    var r := Resolve(s, call.parent, 0).value;
    var w := Extent(call.device, r.physical, 0, r.physicalGeneration, Add(r.start, call.offset), call.bytes);
    assert Overlaps(e, w);
    PoisonStopsScans(s, e, w, true, task);
  }

  lemma IoRefused(s: State, call: Call, task: Task, e: Extent)
    requires Inv(s) && Tombstone(s, e) && call.CallIoBegin?
    requires Wanted(s, call).Some? && Overlaps(e, Wanted(s, call).value)
    ensures IoBegin(s, call.device, call.generation, call.offset, call.bytes, task).status != OK
  {
    InvShaped(s);
    hide Inv;
    hide Overlaps, Contains, IoBegin;
    IoBeginSucceedsIff(s, call.device, call.generation, call.offset, call.bytes, task);
  }

  lemma UnregisterRefused(s: State, device: u32, task: Task, e: Extent)
    requires Inv(s) && Tombstone(s, e) && device < DEVICES && Overlaps(e, s.devices[device].extent)
    ensures Unregister(s, device, task).status != OK
  {}

  lemma TombstoneRefuses(s: State, task: Task, call: Call, e: Extent)
    requires Inv(s) && Tombstone(s, e) && Wanted(s, call).Some? && Overlaps(e, Wanted(s, call).value)
    ensures Do(s, task, call).status != OK
  {
    match call
    case CallClaim(w, exclusive) => ClaimRefused(s, w, exclusive, false, task, e);
    case CallScanBegin(device) => ScanRefused(s, device, task, e);
    case CallRegisterSlice(_, _, _, _) => SliceRefused(s, call, task, e);
    case CallUnregister(device) => UnregisterRefused(s, device, task, e);
    case CallIoBegin(_, _, _, _) => IoRefused(s, call, task, e);
  }

  /** After a tombstone appears, no later claim, scan, ticket, slice or unregister that overlaps it succeeds. */
  lemma PoisonFailsClosed(s: State, run: seq<(Task, Call)>, task: Task, call: Call, e: Extent)
    requires Inv(s) && Tombstone(s, e)
    requires var t := Exec(s, run); Wanted(t, call).Some? && Overlaps(e, Wanted(t, call).value)
    ensures Do(Exec(s, run), task, call).status != OK
  {
    PoisonIsForever(s, run);
    TombstoneRefuses(Exec(s, run), task, call, e);
  }

  // -------------------------------------------------------- tokens are unique

  predicate Dead(s: State, token: u64) {
    TokenAbsent(token, s.leases) && TokenAbsent(token, s.tickets) && s.management.token != token
  }

  /** A step never brings an already issued identity back to life. */
  lemma StepKeepsDead(s: State, task: Task, call: Call, token: u64)
    requires Inv(s) && 0 < token < s.next && Dead(s, token)
    ensures Dead(Do(s, task, call).state, token) && s.next <= Do(s, task, call).state.next
  {
    StepEvolves(s, task, call);
    EvolvesKeepsDead(s, Do(s, task, call).state, token);
  }

  lemma EvolvesKeepsDead(s: State, t: State, token: u64)
    requires Shaped(s) && Shaped(t) && Evolves(s, t) && 0 < token < s.next && Dead(s, token)
    ensures Dead(t, token)
  {}

  lemma {:induction false} DeadForever(s: State, run: seq<(Task, Call)>, token: u64)
    requires Inv(s) && 0 < token < s.next && Dead(s, token)
    ensures Dead(Exec(s, run), token)
    decreases |run|
  {
    if run != [] {
      StepInv(s, run[0].0, run[0].1);
      StepKeepsDead(s, run[0].0, run[0].1, token);
      DeadForever(Do(s, run[0].0, run[0].1).state, run[1..], token);
    }
  }

  /** A stale token changes nothing, however long it is kept and whatever ran in between. */
  lemma StaleTokenIsInert(s: State, run: seq<(Task, Call)>, token: u64, task: Task)
    requires Inv(s) && 0 < token < s.next && Dead(s, token)
    ensures var t := Exec(s, run);
            && Release(t, token, task) == Outcome(t, EINVAL, 0)
            && Poison(t, token) == t && IoEnd(t, token) == t && ManagementEnd(t, token, task) == t
  {
    DeadForever(s, run, token);
    var t := Exec(s, run);
    assert Poison(t, token).leases == t.leases && Poison(t, token).tickets == t.tickets;
  }

  /** A live lease token names one slot, and acting on it leaves every other slot alone. */
  lemma TokenNamesOneSlot(s: State, token: u64, task: Task, i: nat)
    requires Inv(s) && i < LEASES && s.leases[i].token == token != 0
    ensures Poison(s, token) == s.(leases := s.leases[i := s.leases[i].(poisoned := true)])
    ensures Release(s, token, task).status == OK ==>
              Release(s, token, task).state == s.(leases := s.leases[i := NO_ACCESS])
    ensures Release(s, token, task).status == OK <==>
            !s.leases[i].poisoned && (s.leases[i].exclusive ==> OwnedBy(s.leases[i], task))
    ensures IoEnd(s, token) == s
  {
    FirstUnique(s.leases, Named(token), i);
    var p := Poison(s, token);
    assert p.leases == s.leases[i := s.leases[i].(poisoned := true)];
    assert p.tickets == s.tickets;
  }

  /** So does a live ticket token: it is no lease token, and ending it clears its slot unless it is poisoned. */
  lemma TicketNamesOneSlot(s: State, token: u64, task: Task, i: nat)
    requires Inv(s) && i < TICKETS && s.tickets[i].token == token != 0
    ensures Poison(s, token) == s.(tickets := s.tickets[i := s.tickets[i].(poisoned := true)])
    ensures IoEnd(s, token) == if s.tickets[i].poisoned then s else s.(tickets := s.tickets[i := NO_ACCESS])
    ensures Release(s, token, task) == Outcome(s, EINVAL, 0)
  {
    if !s.tickets[i].poisoned { FirstUnique(s.tickets, Endable(token), i); }
    var p := Poison(s, token);
    assert p.leases == s.leases;
    assert p.tickets == s.tickets[i := s.tickets[i].(poisoned := true)];
  }

  // -------------------------------------------------- the management claim

  /** In every reachable state the claim is live exactly when its depth is not zero. */
  predicate DepthOk(s: State) { s.management.token != 0 <==> s.depth != 0 }

  predicate TouchesManagement(call: Call) {
    call.CallManagementBegin? || call.CallManagementEnd? || call.CallAbandon? || call.CallReap?
  }

  lemma OthersLeaveManagement(s: State, task: Task, call: Call)
    requires Inv(s) && !TouchesManagement(call)
    ensures Do(s, task, call).state.management == s.management && Do(s, task, call).state.depth == s.depth
  {
    hide Inv, Available, Resolve, PoisonWhere, Withdraw, First, Matches;
  }

  lemma StepDepth(s: State, task: Task, call: Call)
    requires Inv(s) && DepthOk(s)
    ensures DepthOk(Do(s, task, call).state)
  {
    InvShaped(s);
    if !TouchesManagement(call) {
      hide Do;
      OthersLeaveManagement(s, task, call);
    } else {
      hide Inv, PoisonWhere, First;
    }
  }

  lemma {:induction false} DepthCounts(s: State, run: seq<(Task, Call)>)
    requires Inv(s) && DepthOk(s)
    ensures DepthOk(Exec(s, run))
    decreases |run|
  {
    if run != [] {
      StepInv(s, run[0].0, run[0].1);
      StepDepth(s, run[0].0, run[0].1);
      DepthCounts(Do(s, run[0].0, run[0].1).state, run[1..]);
    }
  }

  /** One call's effect on the number of begins its owner has not ended yet. */
  function Counted(m: Access, n: u32, task: Task, call: Call): u32
    requires n > 0
  {
    if !OwnedBy(m, task) then n
    else
      match call
      case CallManagementBegin => if n == 0xFFFF_FFFF then n else n + 1
      case CallManagementEnd(token) => if token == m.token then n - 1 else n
      case _ => n
  }

  /** Owner begins less owner ends over a run, starting from n; once zero it stays zero. */
  function Open(m: Access, n: u32, run: seq<(Task, Call)>): u32
    decreases |run|
  {
    if n == 0 || run == [] then n else Open(m, Counted(m, n, run[0].0, run[0].1), run[1..])
  }

  lemma {:induction false} OpenIgnoresPoison(m: Access, poisoned: bool, n: u32, run: seq<(Task, Call)>)
    ensures Open(m.(poisoned := poisoned), n, run) == Open(m, n, run)
    decreases |run|
  {
    if n != 0 && run != [] { OpenIgnoresPoison(m, poisoned, Counted(m, n, run[0].0, run[0].1), run[1..]); }
  }

  lemma ManagementStep(s: State, task: Task, call: Call)
    requires Inv(s) && s.management.token != 0 && !s.management.poisoned && s.depth != 0
    ensures var t, n := Do(s, task, call).state, Counted(s.management, s.depth, task, call);
            if n == 0 then t.management == NO_ACCESS
            else t.management == s.management.(poisoned := t.management.poisoned) && t.depth == n
  {
    if !TouchesManagement(call) {
      hide Do;
      OthersLeaveManagement(s, task, call);
    } else {
      hide Inv, PoisonWhere, First;
    }
  }

  /** Once the last end has cleared the claim, its identity is dead. */
  lemma ManagementGone(s: State, task: Task, call: Call)
    requires Inv(s) && s.management.token != 0 && Do(s, task, call).state.management == NO_ACCESS
    ensures var t := Do(s, task, call).state; Inv(t) && s.management.token < t.next && Dead(t, s.management.token)
  {
    hide Do;
    StepInv(s, task, call);
    StepEvolves(s, task, call);
  }

  lemma NotManagement(s: State, token: u64)
    requires Dead(s, token)
    ensures s.management.token != token
  {}

  /**
    A held management claim: over every run it stays with its owner until the owner's ends equal
    its begins or it is poisoned, and in the meantime every other task is refused.
   */
  lemma {:induction false} ManagementLasts(s: State, run: seq<(Task, Call)>, other: Task)
    requires Inv(s) && s.management.token != 0 && s.depth != 0 && !OwnedBy(s.management, other)
    ensures var t, m, n := Exec(s, run), s.management, Open(s.management, s.depth, run);
            && (n > 0 ==> t.management.token == m.token)
            && (t.management.token == m.token ==>
                  && t.management == m.(poisoned := t.management.poisoned)
                  && (!t.management.poisoned ==> t.depth == n > 0)
                  && ManagementBegin(t, other) == Fail(t, if t.management.poisoned then EIO else EBUSY))
    decreases |run|
  {
    hide Do;
    hide Inv;
    hide Dead;
    if run != [] {
      var t := Do(s, run[0].0, run[0].1).state;
      StepInv(s, run[0].0, run[0].1);
      if s.management.poisoned {
        PoisonIsForever(s, run);
      } else {
        ManagementStep(s, run[0].0, run[0].1);
        var n := Counted(s.management, s.depth, run[0].0, run[0].1);
        if n == 0 {
          ManagementGone(s, run[0].0, run[0].1);
          DeadForever(t, run[1..], s.management.token);
          NotManagement(Exec(t, run[1..]), s.management.token);
        } else {
          OpenIgnoresPoison(s.management, t.management.poisoned, n, run[1..]);
          ManagementLasts(t, run[1..], other);
        }
      }
    }
  }

  // ------------------------------------------------------ when a call succeeds

  /**
    A claim succeeds exactly when the registration is current, nothing live shares a byte and a slot and an
    identity remain.
   */
  lemma ClaimSucceedsIff(s: State, e: Extent, exclusive: bool, task: Task)
    requires Inv(s)
    ensures ClaimWith(s, e, exclusive, false, task).status == OK <==>
            && !s.abandoned && e.device < DEVICES && Registered(s.devices, e) && (exclusive ==> task.ptr != 0)
            && TokenFree(s.leases, e) && TokenFree(s.tickets, e)
            && (exists i :: 0 <= i < LEASES && s.leases[i].token == 0)
            && s.next < TOP - 1
  {
    ResolveIffPublished(s, e.device, e.generation);
    assert forall i :: 0 <= i < LEASES ==>
      (Matches(Overlapping(e), s.leases[i]) <==> s.leases[i].token != 0 && Overlaps(s.leases[i].extent, e));
    assert forall i :: 0 <= i < TICKETS ==>
      (Matches(Overlapping(e), s.tickets[i]) <==> s.tickets[i].token != 0 && Overlaps(s.tickets[i].extent, e));
    assert forall i :: 0 <= i < LEASES ==> (Matches(Free, s.leases[i]) <==> s.leases[i].token == 0);
    if e.device < DEVICES && s.devices[e.device].valid { assert DeviceOk(s.devices, e.device); }
  }

  /** A withdrawal succeeds exactly when the slot is registered and nothing live shares a byte with it. */
  lemma UnregisterSucceedsIff(s: State, device: u32, task: Task)
    requires Inv(s)
    ensures Unregister(s, device, task).status == OK <==>
            && device < DEVICES && s.devices[device].valid
            && TokenFree(s.leases, s.devices[device].extent) && TokenFree(s.tickets, s.devices[device].extent)
  {
    if device < DEVICES && s.devices[device].valid {
      var e := s.devices[device].extent;
      if Available(s, e, false, task) == OK { AvailableMeansFree(s, e, task); }
    }
  }

  lemma Validated(s: State, token: u64, whole: Extent, offset: u64, bytes: u64, task: Task)
    requires Inv(s) && ValidateOwned(s, token, whole, offset, bytes, task, false) == OK
    ensures !s.abandoned && Resolve(s, whole.device, whole.generation).Some?
    ensures var r := Resolve(s, whole.device, whole.generation).value;
            && r.start == 0 && offset <= r.bytes && bytes <= r.bytes - offset && bytes != 0
            && First(s.leases, PoisonedOverlapping(r)) == LEASES && First(s.tickets, PoisonedOverlapping(r)) == TICKETS
            && exists k ::
              0 <= k < LEASES && s.leases[k].token != 0 && Exact(s.leases[k].extent, r) && OwnedBy(s.leases[k], task)
  {
    var k := First(s.leases, Named(token));
    assert k < LEASES && s.leases[k].token != 0;
  }

  // ------------------------------------------------------- retained leases

  /** As long as a lease is live its entry only ever gets poisoned. */
  lemma {:induction false} LeaseLasts(s: State, run: seq<(Task, Call)>, i: nat)
    requires Inv(s) && i < LEASES && s.leases[i].token != 0
    ensures var t := Exec(s, run);
            if t.leases[i].token == s.leases[i].token then t.leases[i] == s.leases[i].(poisoned := t.leases[i].poisoned)
            else Dead(t, s.leases[i].token)
    decreases |run|
  {
    hide Do;
    if run != [] {
      var t := Do(s, run[0].0, run[0].1).state;
      StepInv(s, run[0].0, run[0].1);
      StepEvolves(s, run[0].0, run[0].1);
      if t.leases[i].token == s.leases[i].token {
        LeaseLasts(t, run[1..], i);
      } else {
        LeaseGone(s, t, i);
        DeadForever(t, run[1..], s.leases[i].token);
        assert Dead(Exec(t, run[1..]), s.leases[i].token);
      }
    }
  }

  lemma LeaseGone(s: State, t: State, i: nat)
    requires Inv(s) && Shaped(t) && Evolves(s, t) && i < LEASES && s.leases[i].token != 0
    requires t.leases[i].token != s.leases[i].token
    ensures Dead(t, s.leases[i].token) && 0 < s.leases[i].token < t.next
  {}

  /** A call that would use or withdraw bytes of a lease, other than I/O of its owner. */
  predicate Intrudes(s: State, lease: Access, task: Task, call: Call)
    requires Inv(s)
  {
    && Wanted(s, call).Some? && Overlaps(lease.extent, Wanted(s, call).value)
    && (call.CallIoBegin? ==> !OwnedBy(lease, task))
  }

  lemma IntruderRefused(s: State, i: nat, task: Task, call: Call)
    requires Inv(s) && i < LEASES && s.leases[i].token != 0 && s.leases[i].exclusive
    requires Intrudes(s, s.leases[i], task, call) && (call.CallRegisterSlice? ==> !s.leases[i].scan)
    ensures Do(s, task, call).status != OK
  {
    InvShaped(s);
    hide Inv;
    hide Resolve;
    hide Overlaps;
    hide Contains;
    var a, w := s.leases[i], Wanted(s, call).value;
    assert Matches(Overlapping(w), a) && Matches(Blocking(w, false, task), a);
    match call
    case CallClaim(_, _) =>
    case CallScanBegin(_) =>
    case CallUnregister(_) =>
    case CallIoBegin(_, _, _, _) => assert Matches(RefusingIo(w, task), a);
    case CallRegisterSlice(device, parent, offset, bytes) => SliceIntrudes(s, i, task, call);
  }

  lemma SliceIntrudes(s: State, i: nat, task: Task, call: Call)
    requires Inv(s) && i < LEASES && s.leases[i].token != 0 && !s.leases[i].scan && call.CallRegisterSlice?
    requires Wanted(s, call).Some? && Overlaps(s.leases[i].extent, Wanted(s, call).value)
    ensures RegisterSlice(s, call.device, call.parent, call.offset, call.bytes, task).status != OK
  {
    InvShaped(s);
    hide Inv;
    hide Resolve;
    var r := Resolve(s, call.parent, 0).value;
    var w := Extent(call.device, r.physical, 0, r.physicalGeneration, Add(r.start, call.offset), call.bytes);
    assert Matches(Blocking(w, true, task), s.leases[i]);
  }

  /**
    Once a retained lease was validated nobody else gets at its disk: whatever runs, as long as the lease is
    live every overlapping claim, scan, slice and withdrawal and every other task's I/O is refused.
   */
  lemma RetainedExcludes(s: State, token: u64, whole: Extent, ownerTid: u64, terminal: bool, i: nat,
                         run: seq<(Task, Call)>, task: Task, call: Call)
    requires Inv(s) && ValidateRetained(s, token, whole, ownerTid, terminal) == OK
    requires i < LEASES && s.leases[i].token == token
    ensures Exact(s.leases[i].extent, whole) && s.leases[i].tid == ownerTid
    ensures var t := Exec(s, run);
            t.leases[i].token == token && Intrudes(t, s.leases[i], task, call) ==> Do(t, task, call).status != OK
  {
    Retained(s, token, whole, ownerTid, terminal, i);
    hide ValidateRetained;
    hide Do;
    hide Inv;
    hide Overlaps;
    var t := Exec(s, run);
    LeaseLasts(s, run, i);
    if t.leases[i].token == token && Intrudes(t, s.leases[i], task, call) {
      IntruderRefused(t, i, task, call);
    }
  }

  lemma Retained(s: State, token: u64, whole: Extent, ownerTid: u64, terminal: bool, i: nat)
    requires Inv(s) && ValidateRetained(s, token, whole, ownerTid, terminal) == OK
    requires i < LEASES && s.leases[i].token == token
    ensures token != 0 && s.leases[i].exclusive && !s.leases[i].scan
    ensures Exact(s.leases[i].extent, whole) && s.leases[i].tid == ownerTid
  {
    FirstUnique(s.leases, Named(token), i);
  }

  /** The bytes of an extent from an offset on. */
  function Window(e: Extent, offset: u64, bytes: u64): Extent { e.(start := Add(e.start, offset), bytes := bytes) }

  /** No tombstone touches the extent, and an exclusive lease that does is the task's own and contains it. */
  predicate Admits(s: State, e: Extent, task: Task) {
    && (forall i :: 0 <= i < |s.leases| && s.leases[i].token != 0 && Overlaps(s.leases[i].extent, e) ==>
          && !s.leases[i].poisoned
          && (s.leases[i].exclusive ==> OwnedBy(s.leases[i], task) && Contains(s.leases[i].extent, e)))
    && (forall i :: 0 <= i < |s.tickets| && s.tickets[i].token != 0 && s.tickets[i].poisoned ==>
          !Overlaps(s.tickets[i].extent, e))
  }

  lemma AdmitsIff(s: State, e: Extent, task: Task)
    ensures Admits(s, e, task) <==>
            && First(s.leases, RefusingIo(e, task)) == |s.leases|
            && First(s.tickets, PoisonedOverlapping(e)) == |s.tickets|
  {
    assert forall i :: 0 <= i < |s.leases| ==> (Matches(RefusingIo(e, task), s.leases[i]) <==>
      && s.leases[i].token != 0 && Overlaps(s.leases[i].extent, e)
      && !(&& !s.leases[i].poisoned
           && (s.leases[i].exclusive ==> OwnedBy(s.leases[i], task) && Contains(s.leases[i].extent, e))));
  }

  /** A nonempty extent inside a lease touches no other lease. */
  lemma OneLeaseTouches(s: State, k: nat, i: nat, e: Extent)
    requires Inv(s) && k < LEASES && i < LEASES && s.leases[k].token != 0 && s.leases[i].token != 0
    requires Fits(e) && Contains(s.leases[k].extent, e) && Overlaps(s.leases[i].extent, e)
    ensures i == k
  {
    TableExtentsFit(s);
  }

  lemma ValidatedAdmits(s: State, token: u64, whole: Extent, offset: u64, bytes: u64, task: Task)
    requires Inv(s) && ValidateOwned(s, token, whole, offset, bytes, task, false) == OK
    ensures Resolve(s, whole.device, whole.generation).Some?
    ensures Admits(s, Window(Resolve(s, whole.device, whole.generation).value, offset, bytes), task)
  {
    hide ValidateOwned;
    Validated(s, token, whole, offset, bytes, task);
    var r := Resolve(s, whole.device, whole.generation).value;
    TableExtentsFit(s);
    var k :| 0 <= k < LEASES && s.leases[k].token != 0 && Exact(s.leases[k].extent, r) && OwnedBy(s.leases[k], task);
    forall i | 0 <= i < LEASES && s.leases[i].token != 0 && Overlaps(s.leases[i].extent, Window(r, offset, bytes))
      ensures i == k && !s.leases[i].poisoned && Contains(s.leases[i].extent, Window(r, offset, bytes))
    {
      OneLeaseTouches(s, k, i, Window(r, offset, bytes));
      assert !Matches(PoisonedOverlapping(r), s.leases[i]);
    }
    forall i | 0 <= i < TICKETS && s.tickets[i].token != 0 && s.tickets[i].poisoned
      ensures !Overlaps(s.tickets[i].extent, Window(r, offset, bytes))
    {
      assert !Matches(PoisonedOverlapping(r), s.tickets[i]);
    }
  }

  /** A validated exclusive window admits the same task's I/O; only slot or identity exhaustion can still refuse it. */
  lemma ValidatedWindowAdmitsIo(s: State, token: u64, whole: Extent, offset: u64, bytes: u64, task: Task)
    requires Inv(s) && ValidateOwned(s, token, whole, offset, bytes, task, false) == OK
    ensures IoBegin(s, whole.device, whole.generation, offset, bytes, task).status ==
            if forall i :: 0 <= i < TICKETS ==> s.tickets[i].token != 0 then ENOSPC
            else if s.next == TOP - 1 then EOVERFLOW else OK
  {
    InvShaped(s);
    hide Inv;
    hide ValidateOwned;
    hide Admits;
    hide Overlaps;
    hide Resolve;
    Validated(s, token, whole, offset, bytes, task);
    ValidatedAdmits(s, token, whole, offset, bytes, task);
    AdmitsIff(s, Window(Resolve(s, whole.device, whole.generation).value, offset, bytes), task);
    if i :| 0 <= i < TICKETS && s.tickets[i].token == 0 { assert Matches(Free, s.tickets[i]); }
  }

  lemma WindowFits(s: State, device: u32, offset: u64, bytes: u64)
    requires Inv(s) && device < DEVICES && s.devices[device].valid && offset + bytes <= s.devices[device].extent.bytes
    ensures s.devices[device].extent.start + offset + bytes < TOP
  {
    assert DeviceOk(s.devices, device);
  }

  predicate InPublished(s: State, device: u32, generation: u64, offset: u64, bytes: u64)
    requires Shaped(s)
  {
    && device < DEVICES && s.devices[device].valid && s.devices[device].published
    && (generation == 0 || generation == s.devices[device].extent.generation)
    && offset + bytes <= s.devices[device].extent.bytes
  }

  /** Ordinary I/O is admitted exactly when its range lies in a published device and nothing forbids it. */
  lemma IoBeginSucceedsIff(s: State, device: u32, generation: u64, offset: u64, bytes: u64, task: Task)
    requires Inv(s)
    ensures IoBegin(s, device, generation, offset, bytes, task).status == OK <==>
            && InPublished(s, device, generation, offset, bytes)
            && Admits(s, Window(s.devices[device].extent, offset, bytes), task)
            && !s.abandoned && s.next < TOP - 1 && (exists i :: 0 <= i < TICKETS && s.tickets[i].token == 0)
  {
    hide Inv;
    hide Admits;
    hide Overlaps;
    assert Shaped(s) by { InvShaped(s); }
    ResolveIffPublished(s, device, generation);
    assert forall i :: 0 <= i < TICKETS ==> (Matches(Free, s.tickets[i]) <==> s.tickets[i].token == 0);
    if InPublished(s, device, generation, offset, bytes) {
      WindowFits(s, device, offset, bytes);
      AdmitsIff(s, Window(s.devices[device].extent, offset, bytes), task);
    }
  }

  /** Abandoning a task with I/O in flight fences every later claim and ticket, in every continuation. */
  lemma AbandonedIoFencesAll(s: State, ptr: nat, tid: u64, i: nat, run: seq<(Task, Call)>, task: Task,
                             e: Extent, exclusive: bool, device: u32, generation: u64, offset: u64, bytes: u64)
    requires Inv(s) && ptr != 0 && i < TICKETS
    requires s.tickets[i].token != 0 && s.tickets[i].owner == ptr && s.tickets[i].tid == tid
    ensures Inv(Abandon(s, ptr, tid))
    ensures var t := Exec(Abandon(s, ptr, tid), run);
            && t.tickets[i] == s.tickets[i].(poisoned := true)
            && ClaimWith(t, e, exclusive, false, task).status == EIO
            && IoBegin(t, device, generation, offset, bytes, task).status == EIO
  {
    assert Matches(AnyOf(ptr, tid), s.tickets[i]);
    AbandonInv(s, ptr, tid);
    PoisonIsForever(Abandon(s, ptr, tid), run);
  }

  /**
    A generation names one registration for ever: I/O under a generation resolved earlier reaches the very same
    extent.
   */
  lemma GenerationAuthenticates(s: State, run: seq<(Task, Call)>, device: u32, generation: u64)
    requires Inv(s) && Resolve(s, device, generation).Some?
    ensures var e := Resolve(s, device, generation).value;
            var later := Resolve(Exec(s, run), device, e.generation);
            later.Some? ==> later.value == e
  {
    ResolvedFits(s, device, generation);
    PoisonIsForever(s, run);
  }

  /** The two-step flush: whatever runs between its steps, a ticket it gets covers the whole extent it resolved. */
  lemma FlushAuthenticates(s: State, run: seq<(Task, Call)>, device: u32, generation: u64, task: Task)
    requires Inv(s) && Resolve(s, device, generation).Some?
    ensures var e := Resolve(s, device, generation).value;
            var o := IoBegin(Exec(s, run), device, e.generation, 0, e.bytes, task);
            o.status == OK ==> exists i ::
              0 <= i < |o.state.tickets| && o.state.tickets[i].token == o.token != 0 && o.state.tickets[i].extent == e
  {
    GenerationAuthenticates(s, run, device, generation);
    ResolvedFits(s, device, generation);
    var e := Resolve(s, device, generation).value;
    var t := Exec(s, run);
    var o := IoBegin(t, device, e.generation, 0, e.bytes, task);
    if o.status == OK {
      var i := First(t.tickets, Free);
      assert o.state.tickets[i].token == o.token && o.state.tickets[i].extent == e;
    }
  }

  /** An empty ticket pins nothing: a device that only empty tickets use may be withdrawn under them. */
  lemma EmptyTicketPinsNothing(s: State, device: u32, task: Task)
    requires Inv(s) && device < DEVICES && s.devices[device].valid
    requires forall i :: 0 <= i < LEASES && s.leases[i].token != 0 ==>
               !Overlaps(s.leases[i].extent, s.devices[device].extent)
    requires forall i :: 0 <= i < TICKETS && s.tickets[i].token != 0 ==>
               s.tickets[i].extent.bytes == 0 || !Overlaps(s.tickets[i].extent, s.devices[device].extent)
    ensures var o := Unregister(s, device, task);
            o.status == OK && o.state.tickets == s.tickets && !o.state.devices[device].valid
  {
    UnregisterSucceedsIff(s, device, task);
  }

  /** A disk of one sector, published. */
  function OneDisk(task: Task): (s: State)
    ensures Inv(s) && !s.abandoned && s.next == 2
    ensures s.leases == Initial().leases && s.tickets == Initial().tickets
    ensures s.devices[0] == Registration(Extent(0, 0, 1, 1, 0, 512), true, true, false)
  {
    InitialInv();
    var a := RegisterWhole(Initial(), 0, 512, false, task).state;
    PublishInv(a, 0, 1);
    Publish(a, 0, 1).state
  }

  lemma OneEmptyTicket(s: State, task: Task)
    requires Inv(s) && !s.abandoned && s.next == 2 && s.tickets == Initial().tickets && s.leases == Initial().leases
    requires s.devices[0] == Registration(Extent(0, 0, 1, 1, 0, 512), true, true, false)
    ensures var o := IoBegin(s, 0, 1, 0, 0, task);
            && Inv(o.state) && o.state.leases == s.leases && o.state.devices == s.devices
            && o.state.tickets[0] == Access(Extent(0, 0, 1, 1, 0, 0), 2, task.ptr, task.Id(), false, false, false)
            && forall i :: 0 < i < TICKETS ==> o.state.tickets[i] == NO_ACCESS
  {
    IoBeginInv(s, 0, 1, 0, 0, task);
    ResolveIffPublished(s, 0, 1);
    FirstUnique(s.tickets, Free, 0);
    var e := Extent(0, 0, 1, 1, 0, 0);
    FirstUnique(s.leases, RefusingIo(e, task), LEASES);
    FirstUnique(s.tickets, PoisonedOverlapping(e), TICKETS);
  }

  /** A concrete run: the ticket of an empty transfer is live before and after its device is withdrawn. */
  lemma WithdrawnUnderTicket(task: Task)
    ensures var s := Exec(Initial(), Opening(task));
            var t := Unregister(s, 0, task);
            && s.devices[0].valid && s.tickets[0].token == 2 && t.status == OK
            && !t.state.devices[0].valid && t.state.tickets == s.tickets
  {
    hide IoBegin;
    hide Unregister;
    hide Inv;
    var run := Opening(task);
    InitialInv();
    var a := RegisterWhole(Initial(), 0, 512, false, task).state;
    StepInv(Initial(), task, run[0].1);
    assert Exec(Initial(), run) == Exec(a, run[1..]);
    assert Exec(a, run[1..]) == Exec(OneDisk(task), run[2..]);
    assert Exec(OneDisk(task), run[2..]) == IoBegin(OneDisk(task), 0, 1, 0, 0, task).state;
    OneEmptyTicket(OneDisk(task), task);
    EmptyTicketPinsNothing(IoBegin(OneDisk(task), 0, 1, 0, 0, task).state, 0, task);
  }

  function Opening(task: Task): seq<(Task, Call)> {
    [(task, CallRegisterWhole(0, 512, false)), (task, CallPublish(0, 1)), (task, CallIoBegin(0, 1, 0, 0))]
  }
}
