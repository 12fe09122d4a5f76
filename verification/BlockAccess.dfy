/**
  The block-device lifetime registry as a state machine: fixed tables of device
  registrations, leases and in-flight I/O tickets plus one recursive management
  claim. Each entry point holds the registry lock, so it is one atomic step.
 */
module BlockAccess {
  import opened Common

  const DEVICES := 256
  const LEASES := 64
  const TICKETS := 128

  type u32 = x: int | 0 <= x < 0x1_0000_0000

  /** Unsigned 64-bit addition, which wraps. */
  function Add(a: u64, b: u64): u64 {
    if a + b < TOP then a + b else a + b - TOP
  }

  datatype Status = OK | EPERM | EIO | EBUSY | EEXIST | ENODEV | EINVAL | ENOSPC | EOVERFLOW

  /** The current task: a thread pointer (0 when there is none) and its monotonic id. */
  datatype Task = Task(ptr: nat, tid: u64) {
    function Id(): u64 { if ptr == 0 then 0 else tid }
  }

  datatype Extent = Extent(device: u32, physical: u32, generation: u64, physicalGeneration: u64, start: u64, bytes: u64)

  datatype Registration = Registration(extent: Extent, valid: bool, published: bool, flush: bool)

  datatype Access = Access(extent: Extent, token: u64, owner: nat, tid: u64, exclusive: bool, poisoned: bool,
                           scan: bool)

  const NO_EXTENT := Extent(0, 0, 0, 0, 0, 0)
  const NO_ACCESS := Access(NO_EXTENT, 0, 0, 0, false, false, false)
  const NO_DEVICE := Registration(NO_EXTENT, false, false, false)

  datatype State = State(devices: seq<Registration>, leases: seq<Access>, tickets: seq<Access>,
                         management: Access, depth: u32, next: u64, abandoned: bool)

  // ---------------------------------------------------------------- intervals

  predicate SameDisk(a: Extent, b: Extent) {
    a.physical == b.physical && a.physicalGeneration == b.physicalGeneration
  }

  predicate Overlaps(a: Extent, b: Extent) {
    && SameDisk(a, b) && a.bytes != 0 && b.bytes != 0
    && a.start < Add(b.start, b.bytes) && b.start < Add(a.start, a.bytes)
  }

  predicate Contains(a: Extent, b: Extent) {
    && SameDisk(a, b) && b.start >= a.start && b.start - a.start <= a.bytes
    && b.bytes <= a.bytes - (b.start - a.start)
  }

  predicate Exact(a: Extent, b: Extent) {
    && a.device == b.device && a.generation == b.generation && SameDisk(a, b)
    && a.start == b.start && a.bytes == b.bytes
  }

  predicate OwnedBy(a: Access, task: Task) {
    a.owner == task.ptr && a.tid == task.Id()
  }

  /** The end of the extent is representable, so no 64-bit sum over it wraps. */
  predicate Fits(e: Extent) {
    e.start + e.bytes < TOP
  }

  /** Reference meaning of an extent: the bytes of one disk incarnation it names. */
  ghost predicate Covers(e: Extent, physical: u32, generation: u64, position: nat) {
    e.physical == physical && e.physicalGeneration == generation && e.start <= position < e.start + e.bytes
  }

  /** On extents that fit, the wrapping comparison is exactly "some byte is shared". */
  lemma OverlapsIsSharedByte(a: Extent, b: Extent)
    requires Fits(a) && Fits(b)
    ensures Overlaps(a, b) <==>
            exists p :: Covers(a, a.physical, a.physicalGeneration, p) && Covers(b, a.physical, a.physicalGeneration, p)
  {
    if Overlaps(a, b) {
      var p := if a.start < b.start then b.start else a.start;
      assert Covers(a, a.physical, a.physicalGeneration, p) && Covers(b, a.physical, a.physicalGeneration, p);
    }
  }

  /** On nonempty extents that fit, containment is exactly inclusion of bytes. */
  lemma ContainsIsInclusion(a: Extent, b: Extent)
    requires Fits(a) && Fits(b) && b.bytes != 0
    ensures Contains(a, b) <==>
            forall p ::
              Covers(b, b.physical, b.physicalGeneration, p) ==> Covers(a, b.physical, b.physicalGeneration, p)
  {
    assert Covers(b, b.physical, b.physicalGeneration, b.start);
    assert Covers(b, b.physical, b.physicalGeneration, b.start + b.bytes - 1);
  }

  // ------------------------------------------------------------ table scans

  /** What a slot-scanning loop is looking for. */
  datatype Query =
    | Free
    | Named(token: u64)
    | Overlapping(e: Extent)
    | PoisonedOverlapping(e: Extent)
    | Blocking(e: Extent, registration: bool, task: Task)
    | RefusingIo(e: Extent, task: Task)
    | Endable(token: u64)
    | ExclusiveOf(ptr: nat, tid: u64)
    | AnyOf(ptr: nat, tid: u64)
    | StoppedExclusive(stopped: set<nat>)
    | Stopped(stopped: set<nat>)

  predicate Matches(q: Query, a: Access) {
    match q
    case Free => a.token == 0
    case Named(token) => a.token == token && token != 0
    case Overlapping(e) => a.token != 0 && Overlaps(a.extent, e)
    case PoisonedOverlapping(e) => a.token != 0 && a.poisoned && Overlaps(a.extent, e)
    case Blocking(e, registration, task) =>
      && a.token != 0 && Overlaps(a.extent, e)
      && (a.poisoned || !registration || !a.scan || !OwnedBy(a, task) || !Contains(a.extent, e))
    case RefusingIo(e, task) =>
      && a.token != 0 && Overlaps(a.extent, e)
      && (a.poisoned || (a.exclusive && (!OwnedBy(a, task) || !Contains(a.extent, e))))
    case Endable(token) => a.token == token && token != 0 && !a.poisoned
    case ExclusiveOf(ptr, tid) => a.token != 0 && a.exclusive && a.owner == ptr && a.tid == tid
    case AnyOf(ptr, tid) => a.token != 0 && a.owner == ptr && a.tid == tid
    case StoppedExclusive(stopped) => a.exclusive && a.token != 0 && !a.poisoned && a.owner != 0 && a.owner in stopped
    case Stopped(stopped) => a.token != 0 && !a.poisoned && a.owner != 0 && a.owner in stopped
  }

  /** The least slot that matches, or the table length. */
  function First(t: seq<Access>, q: Query): (i: nat)
    ensures i <= |t|
    ensures forall j :: 0 <= j < i ==> !Matches(q, t[j])
    ensures i < |t| ==> Matches(q, t[i])
  {
    if t == [] then 0 else if Matches(q, t[0]) then 0 else 1 + First(t[1..], q)
  }

  lemma FirstUnique(t: seq<Access>, q: Query, i: nat)
    requires i <= |t|
    requires forall j :: 0 <= j < i ==> !Matches(q, t[j])
    requires i < |t| ==> Matches(q, t[i])
    ensures i == First(t, q)
  {}

  /** Marks every matching entry poisoned. */
  function PoisonWhere(t: seq<Access>, q: Query): (r: seq<Access>)
    ensures |r| == |t|
    ensures forall i :: 0 <= i < |t| ==> r[i] == if Matches(q, t[i]) then t[i].(poisoned := true) else t[i]
  {
    if t == [] then []
    else [if Matches(q, t[0]) then t[0].(poisoned := true) else t[0]] + PoisonWhere(t[1..], q)
  }

  function Refusal(a: Access): Status { if a.poisoned then EIO else EBUSY }

  // ------------------------------------------------------------- operations

  datatype Outcome = Outcome(state: State, status: Status, token: u64)

  function Fail(s: State, e: Status): Outcome { Outcome(s, e, 0) }

  predicate Shaped(s: State) {
    |s.devices| == DEVICES && |s.leases| == LEASES && |s.tickets| == TICKETS
  }

  /** Identities are handed out in increasing order and run out at 2^64 - 1. */
  predicate Exhausted(s: State) { s.next == TOP - 1 }

  function Resolve(s: State, device: u32, generation: u64): Option<Extent>
    requires Shaped(s) && forall i :: 0 <= i < DEVICES && s.devices[i].valid ==> s.devices[i].extent.physical < DEVICES
  {
    if device >= DEVICES || !s.devices[device].valid || !s.devices[device].published then None
    else
      var e := s.devices[device].extent;
      if generation != 0 && e.generation != generation then None
      else
        var p := s.devices[e.physical];
        if !p.valid || !p.published || p.extent.generation != e.physicalGeneration then None
        else Some(e)
  }

  function Available(s: State, e: Extent, registration: bool, task: Task): Status {
    var l := First(s.leases, Blocking(e, registration, task));
    if l < |s.leases| then Refusal(s.leases[l])
    else
      var t := First(s.tickets, Overlapping(e));
      if t < |s.tickets| then Refusal(s.tickets[t]) else OK
  }

  function ClaimWith(s: State, e: Extent, exclusive: bool, scan: bool, task: Task): Outcome
    requires Inv(s)
  {
    if s.abandoned then Fail(s, EIO)
    else
      var current := Resolve(s, e.device, e.generation);
      if current.None? || !Exact(e, current.value) then Fail(s, ENODEV)
      else if exclusive && !scan && task.ptr == 0 then Fail(s, EPERM)
      else
        var l := First(s.leases, Overlapping(e));
        if l < |s.leases| then Fail(s, Refusal(s.leases[l]))
        else
          var t := First(s.tickets, Overlapping(e));
          if t < |s.tickets| then Fail(s, Refusal(s.tickets[t]))
          else
            var slot := First(s.leases, Free);
            if slot == |s.leases| then Fail(s, ENOSPC)
            else if Exhausted(s) then Fail(s, EOVERFLOW)
            else
              var entry := Access(e, s.next, if exclusive then task.ptr else 0, if exclusive then task.Id() else 0,
                                  exclusive, false, scan);
              Outcome(s.(leases := s.leases[slot := entry], next := s.next + 1), OK, s.next)
  }

  function RegisterWhole(s: State, device: u32, bytes: u64, flush: bool, task: Task): Outcome
    requires Inv(s)
  {
    if device >= DEVICES || bytes == 0 then Fail(s, EINVAL)
    else if s.devices[device].valid then
      var a := Available(s, s.devices[device].extent, false, task);
      Fail(s, if a != OK then a else EEXIST)
    else if Exhausted(s) then Fail(s, EOVERFLOW)
    else
      var entry := Registration(Extent(device, device, s.next, s.next, 0, bytes), true, false, flush);
      Outcome(s.(devices := s.devices[device := entry], next := s.next + 1), OK, 0)
  }

  function RegisterSlice(s: State, device: u32, parent: u32, offset: u64, bytes: u64, task: Task): Outcome
    requires Inv(s)
  {
    if device >= DEVICES || bytes == 0 then Fail(s, EINVAL)
    else if s.devices[device].valid then Fail(s, EEXIST)
    else
      var base := Resolve(s, parent, 0);
      if base.None? then Fail(s, ENODEV)
      else if offset > base.value.bytes || bytes > base.value.bytes - offset then Fail(s, EINVAL)
      else
        var e := Extent(device, base.value.physical, 0, base.value.physicalGeneration, Add(base.value.start, offset),
                        bytes);
        var a := Available(s, e, true, task);
        if a != OK then Fail(s, a)
        else if Exhausted(s) then Fail(s, EOVERFLOW)
        else
          var entry := Registration(e.(generation := s.next), true, false, false);
          Outcome(s.(devices := s.devices[device := entry], next := s.next + 1), OK, 0)
  }

  function Publish(s: State, device: u32, generation: u64): Outcome
    requires Shaped(s)
  {
    if device >= DEVICES || !s.devices[device].valid || s.devices[device].extent.generation != generation then
      Fail(s, ENODEV)
    else
      Outcome(s.(devices := s.devices[device := s.devices[device].(published := true)]), OK, 0)
  }

  /** The device table after slot `device` goes, with every slice of it when it is a whole disk. */
  function Withdraw(devices: seq<Registration>, device: nat): (r: seq<Registration>)
    requires device < |devices|
    ensures |r| == |devices|
  {
    var e := devices[device].extent;
    seq(|devices|, i requires 0 <= i < |devices| =>
      if i == device || (e.device == e.physical && devices[i].valid && SameDisk(devices[i].extent, e))
      then devices[i].(valid := false, published := false) else devices[i])
  }

  function Unregister(s: State, device: u32, task: Task): Outcome
    requires Shaped(s)
  {
    if device >= DEVICES || !s.devices[device].valid then Fail(s, ENODEV)
    else
      var a := Available(s, s.devices[device].extent, false, task);
      if a != OK then Fail(s, a)
      else Outcome(s.(devices := Withdraw(s.devices, device)), OK, 0)
  }

  function Release(s: State, token: u64, task: Task): Outcome {
    var i := First(s.leases, Named(token));
    if i == |s.leases| then Fail(s, EINVAL)
    else if s.leases[i].poisoned then Fail(s, EIO)
    else if s.leases[i].exclusive && !OwnedBy(s.leases[i], task) then Fail(s, EPERM)
    else Outcome(s.(leases := s.leases[i := NO_ACCESS]), OK, 0)
  }

  function Poison(s: State, token: u64): State {
    s.(leases := PoisonWhere(s.leases, Named(token)), tickets := PoisonWhere(s.tickets, Named(token)))
  }

  function ValidateOwned(s: State, token: u64, whole: Extent, offset: u64, bytes: u64, task: Task,
                         terminal: bool): Status
    requires Inv(s)
  {
    if || token == 0 || bytes == 0 || offset % 512 != 0 || bytes % 512 != 0 || whole.bytes % 512 != 0
       || offset > whole.bytes || bytes > whole.bytes - offset then EINVAL
    else if s.abandoned then EIO
    else
      var r := Resolve(s, whole.device, whole.generation);
      if r.None? || !Exact(whole, r.value) then ENODEV
      else
        var current := r.value;
        if current.device != current.physical || current.start != 0 || current.generation != current.physicalGeneration
        then EINVAL
        else if || First(s.leases, PoisonedOverlapping(current)) < |s.leases|
                || First(s.tickets, PoisonedOverlapping(current)) < |s.tickets| then EIO
        else
          var i := First(s.leases, Named(token));
          if i == |s.leases| then EINVAL
          else if !s.leases[i].exclusive || s.leases[i].scan then EPERM
          else if !Exact(s.leases[i].extent, current) then EINVAL
          else if task.ptr == 0 || !OwnedBy(s.leases[i], task) then EPERM
          else if terminal then EIO else OK
  }

  /** `ownerTid` and `terminal` are what the retained owner's thread record says at the call. */
  function ValidateRetained(s: State, token: u64, whole: Extent, ownerTid: u64, terminal: bool): Status
    requires Inv(s)
  {
    if || token == 0 || whole.bytes == 0 || whole.device != whole.physical || whole.start != 0
       || whole.generation != whole.physicalGeneration then EINVAL
    else if s.abandoned then EIO
    else
      var r := Resolve(s, whole.device, whole.generation);
      if r.None? || !Exact(whole, r.value) then ENODEV
      else if || First(s.leases, PoisonedOverlapping(r.value)) < |s.leases|
              || First(s.tickets, PoisonedOverlapping(r.value)) < |s.tickets| then EIO
      else
        var i := First(s.leases, Named(token));
        if i == |s.leases| then EINVAL
        else if !s.leases[i].exclusive || s.leases[i].scan || s.leases[i].owner == 0 then EPERM
        else if !Exact(s.leases[i].extent, r.value) then EINVAL
        else if ownerTid != s.leases[i].tid || terminal then EIO else OK
  }

  function IoBegin(s: State, device: u32, generation: u64, offset: u64, bytes: u64, task: Task): Outcome
    requires Inv(s)
  {
    if s.abandoned then Fail(s, EIO)
    else
      var r := Resolve(s, device, generation);
      if r.None? then Fail(s, ENODEV)
      else if offset > r.value.bytes || bytes > r.value.bytes - offset then Fail(s, EINVAL)
      else
        var e := r.value.(start := Add(r.value.start, offset), bytes := bytes);
        var l := First(s.leases, RefusingIo(e, task));
        if l < |s.leases| then Fail(s, Refusal(s.leases[l]))
        else if First(s.tickets, PoisonedOverlapping(e)) < |s.tickets| then Fail(s, EIO)
        else
          var slot := First(s.tickets, Free);
          if slot == |s.tickets| then Fail(s, ENOSPC)
          else if Exhausted(s) then Fail(s, EOVERFLOW)
          else
            var entry := Access(e, s.next, task.ptr, task.Id(), false, false, false);
            Outcome(s.(tickets := s.tickets[slot := entry], next := s.next + 1), OK, s.next)
  }

  function IoEnd(s: State, token: u64): State {
    var i := First(s.tickets, Endable(token));
    if i == |s.tickets| then s else s.(tickets := s.tickets[i := NO_ACCESS])
  }

  function Abandon(s: State, ptr: nat, tid: u64): State {
    if ptr == 0 then s
    else
      var m := s.management;
      s.(leases := PoisonWhere(s.leases, ExclusiveOf(ptr, tid)),
         tickets := PoisonWhere(s.tickets, AnyOf(ptr, tid)),
         abandoned := s.abandoned || First(s.tickets, AnyOf(ptr, tid)) < |s.tickets|,
         management := if Matches(AnyOf(ptr, tid), m) then m.(poisoned := true) else m)
  }

  /** `stopped` holds the owners whose threads are terminal and off every CPU. */
  function Reap(s: State, stopped: set<nat>): State {
    var m := s.management;
    s.(leases := PoisonWhere(s.leases, StoppedExclusive(stopped)),
       tickets := PoisonWhere(s.tickets, Stopped(stopped)),
       abandoned := s.abandoned || First(s.tickets, Stopped(stopped)) < |s.tickets|,
       management := if Matches(Stopped(stopped), m) then m.(poisoned := true) else m)
  }

  function ScanBegin(s: State, device: u32, task: Task): Outcome
    requires Inv(s)
  {
    var r := Resolve(s, device, 0);
    if r.None? then Fail(s, ENODEV)
    else if r.value.device != r.value.physical then Fail(s, EINVAL)
    else ClaimWith(s, r.value, true, true, task)
  }

  function ManagementBegin(s: State, task: Task): Outcome {
    if s.management.poisoned then Fail(s, EIO)
    else if s.management.token != 0 then
      if !OwnedBy(s.management, task) then Fail(s, EBUSY)
      else if s.depth == 0xFFFF_FFFF then Fail(s, EOVERFLOW)
      else Outcome(s.(depth := s.depth + 1), OK, s.management.token)
    else if Exhausted(s) then Fail(s, EOVERFLOW)
    else
      var m := Access(NO_EXTENT, s.next, task.ptr, task.Id(), true, false, false);
      Outcome(s.(management := m, depth := 1, next := Add(s.next, 1)), OK, s.next)
  }

  function ManagementEnd(s: State, token: u64, task: Task): State {
    if token != 0 && s.management.token == token && !s.management.poisoned && OwnedBy(s.management, task)
       && s.depth != 0 then
      if s.depth == 1 then s.(management := NO_ACCESS, depth := 0) else s.(depth := s.depth - 1)
    else s
  }

  // -------------------------------------------------------------- invariant

  /** A valid registration is a nonempty interval inside a valid whole disk that still has the recorded generation. */
  predicate DeviceOk(devices: seq<Registration>, i: nat)
    requires i < |devices|
  {
    var e := devices[i].extent;
    && e.device == i && e.bytes != 0 && 0 < e.generation && e.physical < |devices|
    && var p := devices[e.physical];
    && p.valid && p.extent.device == p.extent.physical == e.physical && p.extent.start == 0
    && p.extent.generation == p.extent.physicalGeneration == e.physicalGeneration
    && e.start + e.bytes <= p.extent.bytes
    && (e.physical != i ==> p.published)
  }

  predicate DevicesOk(devices: seq<Registration>) {
    forall i :: 0 <= i < |devices| && devices[i].valid ==> DeviceOk(devices, i)
  }

  predicate GenerationsBelow(devices: seq<Registration>, bound: u64) {
    forall i :: 0 <= i < |devices| && devices[i].valid ==> devices[i].extent.generation < bound
  }

  /** The registration an access names is valid, published and is exactly the given extent. */
  predicate Registered(devices: seq<Registration>, e: Extent) {
    e.device < |devices| && devices[e.device].valid && devices[e.device].published && devices[e.device].extent == e
  }

  predicate LeasesPinned(devices: seq<Registration>, leases: seq<Access>) {
    forall i :: 0 <= i < |leases| && leases[i].token != 0 ==> Registered(devices, leases[i].extent)
  }

  /** A ticket's extent is a window of some published registration, or is empty. */
  predicate TicketPinned(devices: seq<Registration>, e: Extent) {
    && Fits(e)
    && (e.bytes != 0 ==>
          && e.device < |devices| && devices[e.device].valid && devices[e.device].published
          && devices[e.device].extent.generation == e.generation && Contains(devices[e.device].extent, e))
  }

  predicate TicketsPinned(devices: seq<Registration>, tickets: seq<Access>) {
    forall i :: 0 <= i < |tickets| && tickets[i].token != 0 ==> TicketPinned(devices, tickets[i].extent)
  }

  predicate LeasesDisjoint(leases: seq<Access>) {
    forall i, j :: 0 <= i < |leases| && 0 <= j < |leases| && i != j && leases[i].token != 0 && leases[j].token != 0 ==>
      !Overlaps(leases[i].extent, leases[j].extent)
  }

  /** A ticket that touches an exclusive lease belongs to the lease's owner and stays inside the lease. */
  predicate Inside(ticket: Access, lease: Access) {
    ticket.token != 0 && lease.token != 0 && lease.exclusive && Overlaps(lease.extent, ticket.extent) ==>
      ticket.owner == lease.owner && ticket.tid == lease.tid && Contains(lease.extent, ticket.extent)
  }

  predicate TicketsInside(tickets: seq<Access>, leases: seq<Access>) {
    forall i, j :: 0 <= i < |tickets| && 0 <= j < |leases| ==> Inside(tickets[i], leases[j])
  }

  predicate TokensBelow(t: seq<Access>, bound: u64) {
    forall i :: 0 <= i < |t| ==> t[i].token < bound
  }

  predicate TokensDistinct(t: seq<Access>) {
    forall i, j :: 0 <= i < |t| && 0 <= j < |t| && i != j && t[i].token != 0 ==> t[i].token != t[j].token
  }

  predicate TokensApart(t: seq<Access>, u: seq<Access>) {
    forall i, j :: 0 <= i < |t| && 0 <= j < |u| && t[i].token != 0 ==> t[i].token != u[j].token
  }

  predicate TokenAbsent(token: u64, t: seq<Access>) {
    forall i :: 0 <= i < |t| ==> t[i].token != token
  }

  predicate TokensOk(leases: seq<Access>, tickets: seq<Access>, management: u64, next: u64) {
    && 0 < next && management < next
    && TokensBelow(leases, next) && TokensBelow(tickets, next)
    && TokensDistinct(leases) && TokensDistinct(tickets) && TokensApart(leases, tickets)
    && (management != 0 ==> TokenAbsent(management, leases) && TokenAbsent(management, tickets))
  }

  /** Only live entries are ever poisoned, so a free slot never hides a tombstone. */
  predicate PoisonedLive(t: seq<Access>) {
    forall i :: 0 <= i < |t| && t[i].poisoned ==> t[i].token != 0
  }

  predicate Inv(s: State) {
    && Shaped(s)
    && DevicesOk(s.devices) && GenerationsBelow(s.devices, s.next)
    && LeasesPinned(s.devices, s.leases) && TicketsPinned(s.devices, s.tickets)
    && LeasesDisjoint(s.leases) && TicketsInside(s.tickets, s.leases)
    && TokensOk(s.leases, s.tickets, s.management.token, s.next)
    && PoisonedLive(s.leases) && PoisonedLive(s.tickets) && PoisonedLive([s.management])
  }
}
