/**
  The registry as the driver keeps it: fixed tables that the entry points scan and
  update in place. Every method is proved against the state machine of BlockAccess.
 */
module BlockRegistry {
  import opened Common
  import opened BlockAccess
  import opened BlockAccessRuns

  class Registry {
    const devices: array<Registration>
    const leases: array<Access>
    const tickets: array<Access>
    var management: Access
    var depth: u32
    var next: u64
    var abandoned: bool

    ghost predicate Valid()
      reads this, devices, leases, tickets
    {
      && devices.Length == DEVICES && leases.Length == LEASES && tickets.Length == TICKETS
      && leases != tickets && Inv(View())
    }

    ghost function View(): State
      reads this, devices, leases, tickets
    {
      State(devices[..], leases[..], tickets[..], management, depth, next, abandoned)
    }

    constructor ()
      ensures Valid() && fresh(devices) && fresh(leases) && fresh(tickets)
      ensures View() == Initial()
    {
      devices := new Registration[DEVICES](_ => NO_DEVICE);
      leases := new Access[LEASES](_ => NO_ACCESS);
      tickets := new Access[TICKETS](_ => NO_ACCESS);
      management, depth, next, abandoned := NO_ACCESS, 0, 1, false;
      new;
      assert devices[..] == Initial().devices && leases[..] == Initial().leases && tickets[..] == Initial().tickets;
      InitialInv();
    }

    method Lookup(device: u32, generation: u64) returns (r: Option<Extent>)
      requires Valid()
      ensures r == Resolve(View(), device, generation)
    {
      if device >= DEVICES || !devices[device].valid || !devices[device].published { return None; }
      var e := devices[device].extent;
      if generation != 0 && e.generation != generation { return None; }
      assert DeviceOk(devices[..], device);
      var p := devices[e.physical];
      if !p.valid || !p.published || p.extent.generation != e.physicalGeneration { return None; }
      return Some(e);
    }

    /** Whether nothing live stands in the way of registering or withdrawing the extent. */
    method IsAvailable(e: Extent, registration: bool, task: Task) returns (r: Status)
      requires Valid()
      ensures r == Available(View(), e, registration, task)
    {
      ghost var q := Blocking(e, registration, task);
      for i := 0 to LEASES
        invariant forall j :: 0 <= j < i ==> !Matches(q, leases[j])
      {
        if leases[i].token != 0 && Overlaps(leases[i].extent, e) {
          if leases[i].poisoned { FirstUnique(leases[..], q, i); return EIO; }
          if !registration || !leases[i].scan || !OwnedBy(leases[i], task) || !Contains(leases[i].extent, e) {
            FirstUnique(leases[..], q, i);
            return EBUSY;
          }
        }
      }
      FirstUnique(leases[..], q, LEASES);
      r := ScanTickets(e);
    }

    /** One pass over the leases: the first overlap refuses, otherwise the first free slot (or none) is reported. */
    method ScanLeases(e: Extent) returns (status: Status, slot: nat)
      requires Valid()
      ensures var l := First(leases[..], Overlapping(e));
              status == if l < LEASES then Refusal(leases[l]) else OK
      ensures status == OK ==> slot == First(leases[..], Free)
    {
      slot := LEASES;
      for i := 0 to LEASES
        invariant forall j :: 0 <= j < i ==> !Matches(Overlapping(e), leases[j])
        invariant slot == LEASES ==> forall j :: 0 <= j < i ==> leases[j].token != 0
        invariant slot != LEASES ==>
                  slot < i && leases[slot].token == 0 && forall j :: 0 <= j < slot ==> leases[j].token != 0
      {
        if leases[i].token == 0 && slot == LEASES { slot := i; }
        if leases[i].token != 0 && Overlaps(leases[i].extent, e) {
          FirstUnique(leases[..], Overlapping(e), i);
          return if leases[i].poisoned then EIO else EBUSY, slot;
        }
      }
      FirstUnique(leases[..], Overlapping(e), LEASES);
      FirstUnique(leases[..], Free, slot);
      status := OK;
    }

    method ScanTickets(e: Extent) returns (status: Status)
      requires Valid()
      ensures var t := First(tickets[..], Overlapping(e));
              status == if t < TICKETS then Refusal(tickets[t]) else OK
    {
      for i := 0 to TICKETS
        invariant forall j :: 0 <= j < i ==> !Matches(Overlapping(e), tickets[j])
      {
        if tickets[i].token != 0 && Overlaps(tickets[i].extent, e) {
          FirstUnique(tickets[..], Overlapping(e), i);
          return if tickets[i].poisoned then EIO else EBUSY;
        }
      }
      FirstUnique(tickets[..], Overlapping(e), TICKETS);
      status := OK;
    }

    method ClaimAs(e: Extent, exclusive: bool, scan: bool, task: Task) returns (status: Status, token: u64)
      requires Valid()
      modifies this, leases
      ensures Valid()
      ensures Outcome(View(), status, token) == ClaimWith(old(View()), e, exclusive, scan, task)
    {
      hide Inv;
      hide First;
      hide Resolve;
      hide Exact;
      ClaimInv(View(), e, exclusive, scan, task);
      if abandoned { return EIO, 0; }
      var current := Lookup(e.device, e.generation);
      if current.None? || !Exact(e, current.value) { return ENODEV, 0; }
      if exclusive && !scan && task.ptr == 0 { return EPERM, 0; }
      var slot;
      status, slot := ScanLeases(e);
      if status != OK { return status, 0; }
      status := ScanTickets(e);
      if status != OK { return status, 0; }
      if slot == LEASES { return ENOSPC, 0; }
      if next == TOP - 1 { return EOVERFLOW, 0; }
      token := next;
      next := next + 1;
      leases[slot] := Access(e, token, if exclusive then task.ptr else 0, if exclusive then task.Id() else 0,
                             exclusive, false, scan);
      assert leases[..] == old(leases[..])[slot := leases[slot]];
    }

    method Whole(device: u32, bytes: u64, flush: bool, task: Task) returns (status: Status)
      requires Valid()
      modifies this, devices
      ensures Valid()
      ensures Outcome(View(), status, 0) == RegisterWhole(old(View()), device, bytes, flush, task)
    {
      RegisterWholeInv(View(), device, bytes, flush, task);
      if device >= DEVICES || bytes == 0 { return EINVAL; }
      if devices[device].valid {
        status := IsAvailable(devices[device].extent, false, task);
        if status == OK { status := EEXIST; }
        return;
      }
      if next == TOP - 1 { return EOVERFLOW; }
      devices[device] := Registration(Extent(device, device, next, next, 0, bytes), true, false, flush);
      assert devices[..] == old(devices[..])[device := devices[device]];
      next := next + 1;
      status := OK;
    }

    method Slice(device: u32, parent: u32, offset: u64, bytes: u64, task: Task) returns (status: Status)
      requires Valid()
      modifies this, devices
      ensures Valid()
      ensures Outcome(View(), status, 0) == RegisterSlice(old(View()), device, parent, offset, bytes, task)
    {
      hide Inv;
      hide Available;
      hide Resolve;
      RegisterSliceInv(View(), device, parent, offset, bytes, task);
      if device >= DEVICES || bytes == 0 { return EINVAL; }
      if devices[device].valid { return EEXIST; }
      var base := Lookup(parent, 0);
      if base.None? { return ENODEV; }
      if offset > base.value.bytes || bytes > base.value.bytes - offset { return EINVAL; }
      var e := Extent(device, base.value.physical, 0, base.value.physicalGeneration, Add(base.value.start, offset),
                      bytes);
      status := IsAvailable(e, true, task);
      if status != OK { return; }
      if next == TOP - 1 { return EOVERFLOW; }
      devices[device] := Registration(e.(generation := next), true, false, false);
      assert devices[..] == old(devices[..])[device := devices[device]];
      next := next + 1;
    }

    method PublishDevice(device: u32, generation: u64) returns (status: Status)
      requires Valid()
      modifies devices
      ensures Valid()
      ensures Outcome(View(), status, 0) == Publish(old(View()), device, generation)
    {
      PublishInv(View(), device, generation);
      if device >= DEVICES || !devices[device].valid || devices[device].extent.generation != generation {
        return ENODEV;
      }
      devices[device] := devices[device].(published := true);
      assert devices[..] == old(devices[..])[device := devices[device]];
      return OK;
    }

    method UnregisterDevice(device: u32, task: Task) returns (status: Status)
      requires Valid()
      modifies devices
      ensures Valid()
      ensures Outcome(View(), status, 0) == Unregister(old(View()), device, task)
    {
      hide Inv;
      hide Available;
      UnregisterInv(View(), device, task);
      if device >= DEVICES || !devices[device].valid { return ENODEV; }
      var e := devices[device].extent;
      status := IsAvailable(e, false, task);
      if status != OK { return; }
      devices[device] := devices[device].(valid := false, published := false);
      ghost var goal := Withdraw(old(devices[..]), device);
      if e.device == e.physical {
        for i := 0 to DEVICES
          invariant forall j :: 0 <= j < i ==> devices[j] == goal[j]
          invariant forall j :: i <= j < DEVICES ==>
            devices[j] == if j == device then old(devices[j]).(valid := false, published := false) else old(devices[j])
        {
          if devices[i].valid && SameDisk(devices[i].extent, e) {
            devices[i] := devices[i].(valid := false, published := false);
          }
        }
      }
      assert devices[..] == goal;
    }

    method ReleaseLease(token: u64, task: Task) returns (status: Status)
      requires Valid()
      modifies leases
      ensures Valid()
      ensures Outcome(View(), status, 0) == Release(old(View()), token, task)
    {
      ReleaseInv(View(), token, task);
      for i := 0 to LEASES
        invariant View() == old(View())
        invariant forall j :: 0 <= j < i ==> !Matches(Named(token), leases[j])
      {
        if leases[i].token == token && token != 0 {
          FirstUnique(leases[..], Named(token), i);
          if leases[i].poisoned { return EIO; }
          if leases[i].exclusive && !OwnedBy(leases[i], task) { return EPERM; }
          leases[i] := NO_ACCESS;
          assert leases[..] == old(leases[..])[i := NO_ACCESS];
          return OK;
        }
      }
      FirstUnique(leases[..], Named(token), LEASES);
      return EINVAL;
    }

    /** Flags every entry of one table that the query selects. */
    static method Mark(t: array<Access>, q: Query)
      modifies t
      ensures t[..] == PoisonWhere(old(t[..]), q)
    {
      for i := 0 to t.Length
        invariant forall j ::
                  0 <= j < i ==> t[j] == if Matches(q, old(t[j])) then old(t[j]).(poisoned := true) else old(t[j])
        invariant forall j :: i <= j < t.Length ==> t[j] == old(t[j])
      {
        if Matches(q, t[i]) { t[i] := t[i].(poisoned := true); }
      }
      assert forall j :: 0 <= j < t.Length ==> t[..][j] == PoisonWhere(old(t[..]), q)[j];
    }

    method PoisonToken(token: u64)
      requires Valid()
      modifies leases, tickets
      ensures Valid()
      ensures View() == Poison(old(View()), token)
    {
      PoisonInv(View(), token);
      Mark(leases, Named(token));
      Mark(tickets, Named(token));
    }

    method AdmitsIo(e: Extent, task: Task) returns (status: Status)
      requires Valid()
      ensures var l := First(leases[..], RefusingIo(e, task));
              status == if l < LEASES then Refusal(leases[l]) else OK
    {
      ghost var q := RefusingIo(e, task);
      for i := 0 to LEASES
        invariant forall j :: 0 <= j < i ==> !Matches(q, leases[j])
      {
        if leases[i].token != 0 && Overlaps(leases[i].extent, e) {
          if leases[i].poisoned { FirstUnique(leases[..], q, i); return EIO; }
          if leases[i].exclusive && (!OwnedBy(leases[i], task) || !Contains(leases[i].extent, e)) {
            FirstUnique(leases[..], q, i);
            return EBUSY;
          }
        }
      }
      FirstUnique(leases[..], q, LEASES);
      status := OK;
    }

    /** One pass over the tickets: a tombstone in the way refuses, otherwise the first free slot (or none). */
    method TicketSlot(e: Extent) returns (status: Status, slot: nat)
      requires Valid()
      ensures status == if First(tickets[..], PoisonedOverlapping(e)) < TICKETS then EIO else OK
      ensures status == OK ==> slot == First(tickets[..], Free)
    {
      slot := TICKETS;
      for i := 0 to TICKETS
        invariant forall j :: 0 <= j < i ==> !Matches(PoisonedOverlapping(e), tickets[j])
        invariant slot == TICKETS ==> forall j :: 0 <= j < i ==> tickets[j].token != 0
        invariant slot != TICKETS ==>
                  slot < i && tickets[slot].token == 0 && forall j :: 0 <= j < slot ==> tickets[j].token != 0
      {
        if tickets[i].token == 0 && slot == TICKETS { slot := i; }
        if tickets[i].token != 0 && tickets[i].poisoned && Overlaps(tickets[i].extent, e) {
          FirstUnique(tickets[..], PoisonedOverlapping(e), i);
          return EIO, slot;
        }
      }
      FirstUnique(tickets[..], PoisonedOverlapping(e), TICKETS);
      FirstUnique(tickets[..], Free, slot);
      status := OK;
    }

    method BeginIo(device: u32, generation: u64, offset: u64, bytes: u64, task: Task)
      returns (status: Status, token: u64)
      requires Valid()
      modifies this, tickets
      ensures Valid()
      ensures Outcome(View(), status, token) == IoBegin(old(View()), device, generation, offset, bytes, task)
    {
      IoBeginInv(View(), device, generation, offset, bytes, task);
      if abandoned { return EIO, 0; }
      var r := Lookup(device, generation);
      if r.None? { return ENODEV, 0; }
      if offset > r.value.bytes || bytes > r.value.bytes - offset { return EINVAL, 0; }
      var e := r.value.(start := Add(r.value.start, offset), bytes := bytes);
      status := AdmitsIo(e, task);
      if status != OK { return status, 0; }
      var slot;
      status, slot := TicketSlot(e);
      if status != OK { return status, 0; }
      if slot == TICKETS { return ENOSPC, 0; }
      if next == TOP - 1 { return EOVERFLOW, 0; }
      token := next;
      next := next + 1;
      tickets[slot] := Access(e, token, task.ptr, task.Id(), false, false, false);
      assert tickets[..] == old(tickets[..])[slot := tickets[slot]];
    }

    method EndIo(token: u64)
      requires Valid()
      modifies tickets
      ensures Valid()
      ensures View() == IoEnd(old(View()), token)
    {
      IoEndInv(View(), token);
      for i := 0 to TICKETS
        invariant View() == old(View())
        invariant forall j :: 0 <= j < i ==> !Matches(Endable(token), tickets[j])
      {
        if tickets[i].token == token && token != 0 && !tickets[i].poisoned {
          FirstUnique(tickets[..], Endable(token), i);
          tickets[i] := NO_ACCESS;
          assert tickets[..] == old(tickets[..])[i := NO_ACCESS];
          return;
        }
      }
      FirstUnique(tickets[..], Endable(token), TICKETS);
    }

    method AbandonOwner(ptr: nat, tid: u64)
      requires Valid()
      modifies this, leases, tickets
      ensures Valid()
      ensures View() == Abandon(old(View()), ptr, tid)
    {
      AbandonInv(View(), ptr, tid);
      if ptr == 0 { return; }
      Mark(leases, ExclusiveOf(ptr, tid));
      FlagTickets(AnyOf(ptr, tid));
      if management.token != 0 && management.owner == ptr && management.tid == tid {
        management := management.(poisoned := true);
      }
    }

    /** Poisons the selected tickets; any hit stops new requests for good. */
    method FlagTickets(q: Query)
      modifies tickets, `abandoned
      ensures tickets[..] == PoisonWhere(old(tickets[..]), q)
      ensures abandoned == (old(abandoned) || First(old(tickets[..]), q) < tickets.Length)
    {
      ghost var hit := First(tickets[..], q);
      for i := 0 to tickets.Length
        invariant forall j :: 0 <= j < i ==>
                    tickets[j] == if Matches(q, old(tickets[j])) then old(tickets[j]).(poisoned := true)
                                  else old(tickets[j])
        invariant forall j :: i <= j < tickets.Length ==> tickets[j] == old(tickets[j])
        invariant abandoned == (old(abandoned) || hit < i)
      {
        if Matches(q, tickets[i]) {
          tickets[i] := tickets[i].(poisoned := true);
          abandoned := true;
        }
      }
      assert forall j :: 0 <= j < tickets.Length ==> tickets[..][j] == PoisonWhere(old(tickets[..]), q)[j];
    }

    method ReapAbandoned(stopped: set<nat>)
      requires Valid()
      modifies this, leases, tickets
      ensures Valid()
      ensures View() == Reap(old(View()), stopped)
    {
      ReapInv(View(), stopped);
      Mark(leases, StoppedExclusive(stopped));
      FlagTickets(Stopped(stopped));
      if Matches(Stopped(stopped), management) { management := management.(poisoned := true); }
    }

    method BeginScan(device: u32, task: Task) returns (status: Status, token: u64)
      requires Valid()
      modifies this, leases
      ensures Valid()
      ensures Outcome(View(), status, token) == ScanBegin(old(View()), device, task)
    {
      var r := Lookup(device, 0);
      if r.None? { return ENODEV, 0; }
      if r.value.device != r.value.physical { return EINVAL, 0; }
      status, token := ClaimAs(r.value, true, true, task);
    }

    method BeginManagement(task: Task) returns (status: Status, token: u64)
      requires Valid()
      modifies this
      ensures Valid()
      ensures Outcome(View(), status, token) == ManagementBegin(old(View()), task)
    {
      ManagementCallsInv(View(), 0, task);
      if management.poisoned { return EIO, 0; }
      if management.token != 0 {
        if !OwnedBy(management, task) { return EBUSY, 0; }
        if depth == 0xFFFF_FFFF { return EOVERFLOW, 0; }
        depth := depth + 1;
      } else {
        if next == TOP - 1 { return EOVERFLOW, 0; }
        management := Access(NO_EXTENT, next, task.ptr, task.Id(), true, false, false);
        next := next + 1;
        depth := 1;
      }
      return OK, management.token;
    }

    method EndManagement(token: u64, task: Task)
      requires Valid()
      modifies this
      ensures Valid()
      ensures View() == ManagementEnd(old(View()), token, task)
    {
      ManagementCallsInv(View(), token, task);
      if token != 0 && management.token == token && !management.poisoned && OwnedBy(management, task) && depth != 0 {
        depth := depth - 1;
        if depth == 0 { management := NO_ACCESS; }
      }
    }

    /** Two locked steps, here with nothing in between; `FlushAuthenticates` covers every interleaving. */
    method BeginFlush(device: u32, generation: u64, task: Task) returns (status: Status, token: u64)
      requires Valid()
      modifies this, tickets
      ensures Valid()
      ensures var r := Resolve(old(View()), device, generation);
              Outcome(View(), status, token) ==
              if r.None? then Fail(old(View()), ENODEV)
              else IoBegin(old(View()), device, r.value.generation, 0, r.value.bytes, task)
    {
      var r := Lookup(device, generation);
      if r.None? { return ENODEV, 0; }
      status, token := BeginIo(device, r.value.generation, 0, r.value.bytes, task);
    }
  }
}
