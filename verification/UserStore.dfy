/**
  The learning store of an input method: a two-slot journal with serials and
  generations, migrated from an older location. A crash or I/O failure inside a slot
  write leaves the old record, the new record or an unreadable slot, and a read can fail
  on a good slot.
 */
module UserStore {
  import opened Common

  const LAST: u64 := 0xFFFF_FFFF_FFFF_FFFF
  const USER_DATA_LIMIT := 1048576

  /** A 32-bit flag word as the set of its bit numbers: `*` is bitwise and, `<=` is "no bit outside". */
  type Flags = set<nat>

  const ENABLED_BIT := 0
  const ASYNC_BIT := 1
  const PENDING_BIT := 2
  const RESERVED_BITS: Flags := {ENABLED_BIT, ASYNC_BIT, PENDING_BIT}

  datatype Status = OK | EIO | EPERM | ESTALE | EOVERFLOW | ENOSPC | ENODEV

  datatype Record = Record(version: nat, enabled: bool, generation: u64, serial: u64, options: Flags, data: seq<byte>)

  /** A slot whose checksum does not hold is corrupt; a missing file is too. */
  datatype Slot = Corrupt | Stored(record: Record)

  /** What the installed policy says about one engine's data. */
  datatype Policy = Policy(mask: Flags, defaults: Flags, relocated: bool)

  datatype Operation = Info | Load(capacity: nat) | Save(generation: u64, data: seq<byte>) | Clear
                     | SetEnabled(flags: Flags) | SetOptions(generation: u64, flags: Flags)

  /** The user-visible content of the store. */
  datatype Snapshot = Snapshot(enabled: bool, options: Flags, generation: u64, serial: u64, data: seq<byte>)

  predicate Readable(r: Record, mask: Flags) {
    && (r.version == 1 || r.version == 2) && |r.data| <= USER_DATA_LIMIT && r.generation != 0 && r.serial != 0
    && r.options <= mask && (r.version == 1 ==> r.options == {})
  }

  /** The read-back after a write accepts any option bits but the reserved ones. */
  predicate Verifies(r: Record) { Readable(r, r.options) && r.options !! RESERVED_BITS }

  predicate Valid(s: Slot, mask: Flags) { s.Stored? && Readable(s.record, mask) }

  /** The newest readable record; equal serials prefer slot 0. */
  function Newest(a: Slot, b: Slot, mask: Flags): Option<Record> {
    if Valid(b, mask) && (!Valid(a, mask) || b.record.serial > a.record.serial) then Some(b.record)
    else if Valid(a, mask) then Some(a.record) else None
  }

  function Content(r: Record, policy: Policy): Snapshot {
    Snapshot(r.enabled, if r.version == 1 then policy.defaults * policy.mask else r.options, r.generation, r.serial,
             r.data)
  }

  /** The on-disk state: the journal at its place and, for relocated data, at the older place. */
  datatype Disk = Disk(slots: (Slot, Slot), legacy: (Slot, Slot))

  /** What a transaction started on this disk works with. */
  function View(d: Disk, policy: Policy): Snapshot {
    var here := Newest(d.slots.0, d.slots.1, policy.mask);
    var there := Newest(d.legacy.0, d.legacy.1, policy.mask);
    if here.Some? then Content(here.value, policy)
    else if policy.relocated && there.Some? then Content(there.value, policy)
    else Snapshot(ENABLED_BIT in policy.defaults, policy.defaults * policy.mask, 1, 0, [])
  }

  predicate Mutates(op: Operation) { op.Save? || op.Clear? || op.SetEnabled? || op.SetOptions? }

  predicate ChangesGeneration(op: Operation) { op.Clear? || op.SetEnabled? || op.SetOptions? }

  /** Why an operation is refused on a snapshot, or OK. */
  function Refusal(v: Snapshot, op: Operation): Status {
    match op
    case Save(generation, _) =>
      if generation != v.generation then ESTALE else if !v.enabled then EPERM
      else if v.serial == LAST then EOVERFLOW else OK
    case SetOptions(generation, _) =>
      if generation != v.generation then ESTALE else if v.generation == LAST || v.serial == LAST then EOVERFLOW else OK
    case Clear => if v.generation == LAST || v.serial == LAST then EOVERFLOW else OK
    case SetEnabled(_) => if v.generation == LAST || v.serial == LAST then EOVERFLOW else OK
    case Load(capacity) => if capacity < |v.data| then ENOSPC else OK
    case Info => OK
  }

  /** The snapshot that a successful operation commits. */
  function Commit(v: Snapshot, op: Operation, mask: Flags): (w: Snapshot)
    requires Refusal(v, op) == OK
    ensures Mutates(op) ==> w.serial == v.serial + 1
    ensures w.generation == v.generation + (if ChangesGeneration(op) then 1 else 0)
  {
    match op
    case Save(_, data) => v.(data := data, serial := v.serial + 1)
    case Clear => v.(data := [], generation := v.generation + 1, serial := v.serial + 1)
    case SetEnabled(flags) =>
      v.(enabled := ENABLED_BIT in flags, generation := v.generation + 1, serial := v.serial + 1)
    case SetOptions(_, flags) =>
      v.(enabled := ENABLED_BIT in flags, options := flags * mask, generation := v.generation + 1,
         serial := v.serial + 1)
    case Load(_) => v
    case Info => v
  }

  /** The request checks made before a transaction. */
  predicate WellFormed(op: Operation) { op.Save? ==> |op.data| <= USER_DATA_LIMIT }

  function ToRecord(v: Snapshot): Record { Record(2, v.enabled, v.generation, v.serial, v.options, v.data) }

  // ------------------------------------------------------------------ lemmas

  /** What is read back passes the reader's checks again. */
  lemma ViewReadable(d: Disk, policy: Policy)
    ensures var v := View(d, policy);
            v.generation != 0 && v.options <= policy.mask && |v.data| <= USER_DATA_LIMIT
  {
  }

  lemma CommitReadable(d: Disk, policy: Policy, op: Operation)
    requires WellFormed(op) && Mutates(op) && Refusal(View(d, policy), op) == OK
    ensures var w := Commit(View(d, policy), op, policy.mask);
            Readable(ToRecord(w), policy.mask) && Content(ToRecord(w), policy) == w
  {
    ViewReadable(d, policy);
  }

  /** What a successful operation leaves of each field; flag 0 of a request says whether learning is on. */
  ghost predicate Effect(v: Snapshot, op: Operation, mask: Flags, w: Snapshot) {
    match op
    case Info => w == v
    case Load(_) => w == v
    case Save(_, data) =>
      && w.data == data && w.enabled == v.enabled && w.options == v.options
      && w.generation == v.generation && w.serial == v.serial + 1
    case Clear =>
      && w.data == [] && w.enabled == v.enabled && w.options == v.options
      && w.generation == v.generation + 1 && w.serial == v.serial + 1
    case SetEnabled(flags) =>
      && w.data == v.data && w.enabled == (0 in flags) && w.options == v.options
      && w.generation == v.generation + 1 && w.serial == v.serial + 1
    case SetOptions(_, flags) =>
      && w.data == v.data && w.enabled == (0 in flags)
      && (forall bit :: bit in w.options <==> bit in flags && bit in mask)
      && w.generation == v.generation + 1 && w.serial == v.serial + 1
  }

  lemma CommitMeans(v: Snapshot, op: Operation, mask: Flags)
    requires Refusal(v, op) == OK
    ensures Effect(v, op, mask, Commit(v, op, mask))
  {}

  predicate Shows(v: Snapshot, r: Record, policy: Policy) {
    && v.data == r.data && v.enabled == r.enabled && v.generation == r.generation && v.serial == r.serial
    && v.options == if r.version == 1 then policy.defaults * policy.mask else r.options
  }

  /** A readable record with the greatest serial, the first of two equals. */
  predicate IsNewest(slots: (Slot, Slot), mask: Flags, r: Record) {
    || (slots.0 == Stored(r) && Valid(slots.0, mask) && (Valid(slots.1, mask) ==> slots.1.record.serial <= r.serial))
    || (slots.1 == Stored(r) && Valid(slots.1, mask) && (Valid(slots.0, mask) ==> slots.0.record.serial < r.serial))
  }

  /** A reader sees the newest readable record, of the older place only if the new one has none, or the defaults. */
  lemma ViewIsNewest(d: Disk, policy: Policy)
    ensures var v := View(d, policy);
            if Valid(d.slots.0, policy.mask) || Valid(d.slots.1, policy.mask)
            then exists r :: IsNewest(d.slots, policy.mask, r) && Shows(v, r, policy)
            else if policy.relocated && (Valid(d.legacy.0, policy.mask) || Valid(d.legacy.1, policy.mask))
            then exists r :: IsNewest(d.legacy, policy.mask, r) && Shows(v, r, policy)
            else v.data == [] && v.generation == 1 && v.serial == 0 && v.enabled == (0 in policy.defaults)
                 && v.options == policy.defaults * policy.mask
  {
    var here, there := Newest(d.slots.0, d.slots.1, policy.mask), Newest(d.legacy.0, d.legacy.1, policy.mask);
    if here.Some? {
      assert IsNewest(d.slots, policy.mask, here.value) && Shows(View(d, policy), here.value, policy);
    } else if policy.relocated && there.Some? {
      assert IsNewest(d.legacy, policy.mask, there.value) && Shows(View(d, policy), there.value, policy);
    }
  }

  /** Generations never go back, and a committed clear or preference change moves them on. */
  lemma GenerationsGrow(v: Snapshot, op: Operation, mask: Flags)
    requires Refusal(v, op) == OK
    ensures Commit(v, op, mask).generation >= v.generation
    ensures ChangesGeneration(op) ==> Commit(v, op, mask).generation > v.generation
  {}

  /** One step of a run: the operation commits, or leaves the snapshot as it was. */
  predicate Step(v: Snapshot, w: Snapshot, op: Operation, mask: Flags) {
    w == v || (Refusal(v, op) == OK && w == Commit(v, op, mask))
  }

  predicate Run(vs: seq<Snapshot>, ops: seq<Operation>, mask: Flags) {
    |vs| == |ops| + 1 && forall i :: 0 <= i < |ops| ==> Step(vs[i], vs[i + 1], ops[i], mask)
  }

  lemma {:induction false} RunGenerationsGrow(vs: seq<Snapshot>, ops: seq<Operation>, mask: Flags, i: nat, j: nat)
    requires Run(vs, ops, mask) && i <= j <= |ops|
    ensures vs[i].generation <= vs[j].generation
    decreases j - i
  {
    if i < j {
      RunGenerationsGrow(vs, ops, mask, i, j - 1);
      assert Step(vs[j - 1], vs[j - 1 + 1], ops[j - 1], mask);
    }
  }

  /**
    A save that carries the generation seen at step `seen` is refused once a clear or a
    preference change has been committed since, however long it was delayed.
   */
  lemma DelayedSaveIsStale(vs: seq<Snapshot>, ops: seq<Operation>, mask: Flags, seen: nat, changed: nat, late: nat,
                           data: seq<byte>)
    requires Run(vs, ops, mask) && seen <= changed < late <= |ops|
    requires ChangesGeneration(ops[changed]) && Refusal(vs[changed], ops[changed]) == OK
    requires vs[changed + 1] == Commit(vs[changed], ops[changed], mask)
    ensures Refusal(vs[late], Save(vs[seen].generation, data)) == ESTALE
  {
    RunGenerationsGrow(vs, ops, mask, seen, changed);
    RunGenerationsGrow(vs, ops, mask, changed + 1, late);
  }

  /** Two equal good slots survive the loss of either. */
  lemma TwinsSurviveLoss(s: Slot, legacy: (Slot, Slot), policy: Policy, lost: Slot)
    requires Valid(s, policy.mask) && !Valid(lost, policy.mask)
    ensures View(Disk((s, lost), legacy), policy) == View(Disk((lost, s), legacy), policy)
            == View(Disk((s, s), legacy), policy) == Content(s.record, policy)
  {}

  // ---------------------------------------------------------- reads that fail

  /** Which good slots a transaction failed to read, for want of memory or by an I/O error. */
  datatype Missed = Missed(slots: (bool, bool), legacy: (bool, bool))

  const NONE_MISSED := Missed((false, false), (false, false))

  function Hidden(s: Slot, missed: bool): Slot { if missed then Corrupt else s }

  /** The disk as the transaction sees it. */
  function Seen(d: Disk, m: Missed): Disk {
    Disk((Hidden(d.slots.0, m.slots.0), Hidden(d.slots.1, m.slots.1)),
         (Hidden(d.legacy.0, m.legacy.0), Hidden(d.legacy.1, m.legacy.1)))
  }

  /** The slot the newest readable record is in, or 2. */
  function Picked(slots: (Slot, Slot), mask: Flags): (i: nat)
    ensures i <= 2 && (i == 0 ==> Valid(slots.0, mask)) && (i == 1 ==> Valid(slots.1, mask))
    ensures Newest(slots.0, slots.1, mask) ==
            if i == 0 then Some(slots.0.record) else if i == 1 then Some(slots.1.record) else None
  {
    if Valid(slots.1, mask) && (!Valid(slots.0, mask) || slots.1.record.serial > slots.0.record.serial) then 1
    else if Valid(slots.0, mask) then 0 else 2
  }

  /** A legacy record as it is copied to its new place. */
  function Migrated(r: Record, policy: Policy): Record {
    r.(version := 2, options := if r.version == 1 then policy.defaults * policy.mask else r.options)
  }

  /** The record a transaction would migrate: some legacy slot is seen and no slot at the new place is. */
  function Moving(d: Disk, m: Missed, policy: Policy): Option<Record> {
    var e := Seen(d, m);
    if policy.relocated && Picked(e.slots, policy.mask) == 2 && Picked(e.legacy, policy.mask) != 2
    then Some(Migrated(Newest(e.legacy.0, e.legacy.1, policy.mask).value, policy)) else None
  }

  /** A slot before and after a write that may have been torn. */
  predicate Wrote(before: Slot, after: Slot, r: Record) { after == before || after == Stored(r) || after == Corrupt }

  predicate Dropped(before: (Slot, Slot), after: (Slot, Slot)) {
    (after.0 == before.0 || after.0 == Corrupt) && (after.1 == before.1 || after.1 == Corrupt)
  }

  /** A migration that stopped somewhere. */
  predicate Migrating(d: Disk, after: Disk, r: Record) {
    || (after.legacy == d.legacy && after.slots.1 == d.slots.1 && Wrote(d.slots.0, after.slots.0, r))
    || (after.legacy == d.legacy && after.slots.0 == Stored(r) && Wrote(d.slots.1, after.slots.1, r))
    || (Dropped(d.legacy, after.legacy) && after.slots == (Stored(r), Stored(r)))
  }

  /** What a call leaves: the disk, and whether it reported success. */
  datatype Outcome = Outcome(disk: Disk, done: bool)

  function At(slots: (Slot, Slot), i: nat): Slot { if i == 0 then slots.0 else slots.1 }

  function With(slots: (Slot, Slot), i: nat, s: Slot): (Slot, Slot) {
    if i == 0 then (s, slots.1) else (slots.0, s)
  }

  /** The operation on snapshot v read from slot `selected`: the other slot is overwritten, and by a clear both. */
  predicate Committing(d: Disk, selected: nat, v: Snapshot, op: Operation, mask: Flags, o: Outcome) {
    if Refusal(v, op) != OK then o == Outcome(d, false)
    else if !Mutates(op) then o.disk == d
    else
      var r, dest := ToRecord(Commit(v, op, mask)), if selected == 0 then 1 else 0;
      && o.disk.legacy == d.legacy
      && (if At(o.disk.slots, 1 - dest) == At(d.slots, 1 - dest)
          then Wrote(At(d.slots, dest), At(o.disk.slots, dest), r) && (o.done ==> At(o.disk.slots, dest) == Stored(r))
          else && op.Clear? && At(o.disk.slots, dest) == Stored(r)
               && Wrote(At(d.slots, 1 - dest), At(o.disk.slots, 1 - dest), r))
  }

  /** Everything a call may leave, given what it failed to read: it may stop at any point. */
  predicate Possible(d: Disk, m: Missed, policy: Policy, op: Operation, o: Outcome) {
    var v, r := View(Seen(d, m), policy), Moving(d, m, policy);
    if r.None? then
      Committing(d, Picked(Seen(d, m).slots, policy.mask), v, op, policy.mask, o) || o == Outcome(d, false)
    else
      || (!o.done && Migrating(d, o.disk, r.value))
      || (Dropped(d.legacy, o.disk.legacy) &&
          var moved := Disk((Stored(r.value), Stored(r.value)), o.disk.legacy);
          exists k | k in [0, 1] :: Committing(moved, k, v, op, policy.mask, o))
  }

  /** What the store promises of a call: the old or the committed snapshot, and the committed one on success. */
  predicate Promised(d: Disk, m: Missed, policy: Policy, op: Operation, o: Outcome) {
    var v, w := View(d, policy), View(o.disk, policy);
    && Step(v, w, op, policy.mask)
    && (o.done ==> Refusal(v, op) == OK && w == Commit(v, op, policy.mask)
                   && Refusal(View(Seen(d, m), policy), op) == OK
                   && Commit(View(Seen(d, m), policy), op, policy.mask) == w)
  }

  /** What was read is what the disk holds, and a migration does not start from a slot it needs. */
  predicate Faithful(d: Disk, m: Missed, policy: Policy) {
    && View(Seen(d, m), policy) == View(d, policy)
    && (Moving(d, m, policy).Some? ==> View(d.(slots := (Corrupt, d.slots.1)), policy) == View(d, policy))
  }

  lemma NothingMissed(d: Disk, policy: Policy)
    ensures Seen(d, NONE_MISSED) == d && Faithful(d, NONE_MISSED, policy)
  {}

  lemma Untouched(d: Disk, m: Missed, policy: Policy, op: Operation)
    ensures Possible(d, m, policy, op, Outcome(d, false))
  {}

  /** The disk once everything is read and, if need be, moved. */
  predicate Ready(d: Disk, m: Missed, policy: Policy, e: Disk, selected: nat) {
    var r := Moving(d, m, policy);
    if r.None? then e == d && selected == Picked(Seen(d, m).slots, policy.mask)
    else selected < 2 && Dropped(d.legacy, e.legacy) && e.slots == (Stored(r.value), Stored(r.value))
  }

  /** The disk when a migration gave up. */
  predicate Stopped(d: Disk, m: Missed, policy: Policy, e: Disk) {
    Moving(d, m, policy).Some? && Migrating(d, e, Moving(d, m, policy).value)
  }

  lemma StoppedEarly(d: Disk, m: Missed, policy: Policy, op: Operation, e: Disk)
    requires Stopped(d, m, policy, e)
    ensures Possible(d, m, policy, op, Outcome(e, false))
  {}

  lemma ReadyThenApplied(d: Disk, m: Missed, policy: Policy, e: Disk, selected: nat, op: Operation, o: Outcome)
    requires Ready(d, m, policy, e, selected)
    requires Committing(e, selected, View(Seen(d, m), policy), op, policy.mask, o) || o == Outcome(e, false)
    ensures Possible(d, m, policy, op, o)
  {
    hide View;
    if Moving(d, m, policy).Some? && Committing(e, selected, View(Seen(d, m), policy), op, policy.mask, o) {
      assert o.disk.legacy == e.legacy;
      assert selected in [0, 1];
    }
  }

  /** A record that was just written is found again. */
  lemma CommittedKeeps(d: Disk, selected: nat, v: Snapshot, op: Operation, policy: Policy, o: Outcome)
    requires WellFormed(op) && v == View(d, policy) && Committing(d, selected, v, op, policy.mask, o)
    requires selected <= 2
    requires selected == 2 ==> Newest(d.slots.0, d.slots.1, policy.mask).None?
    requires selected == 0 ==> Valid(d.slots.0, policy.mask) && v == Content(d.slots.0.record, policy)
    requires selected == 1 ==> Valid(d.slots.1, policy.mask) && v == Content(d.slots.1.record, policy)
    ensures Step(v, View(o.disk, policy), op, policy.mask)
    ensures o.done ==> Refusal(v, op) == OK && View(o.disk, policy) == Commit(v, op, policy.mask)
  {
    ViewReadable(d, policy);
    if Refusal(v, op) == OK && Mutates(op) { CommitReadable(d, policy, op); }
  }

  lemma MigratingKeeps(d: Disk, after: Disk, m: Missed, policy: Policy)
    requires Faithful(d, m, policy) && Moving(d, m, policy).Some? && Migrating(d, after, Moving(d, m, policy).value)
    ensures View(after, policy) == View(d, policy)
  {
    var r := Moving(d, m, policy).value;
    assert Readable(r, policy.mask) && Content(r, policy) == View(Seen(d, m), policy);
  }

  /** A migration that read everything and overwrites nothing readable keeps the view wherever it stops. */
  lemma MigrationKeeps(d: Disk, policy: Policy)
    requires policy.relocated
    ensures var l := Newest(d.legacy.0, d.legacy.1, policy.mask);
            Newest(d.slots.0, d.slots.1, policy.mask).None? && l.Some? ==>
              forall e | Migrating(d, e, Migrated(l.value, policy)) :: View(e, policy) == View(d, policy)
  {
    NothingMissed(d, policy);
    forall e | Moving(d, NONE_MISSED, policy).Some? && Migrating(d, e, Moving(d, NONE_MISSED, policy).value)
      ensures View(e, policy) == View(d, policy)
    {
      MigratingKeeps(d, e, NONE_MISSED, policy);
    }
  }

  /** With a faithful view every way the call can end keeps the promise. */
  lemma FaithfulKeeps(d: Disk, m: Missed, policy: Policy, op: Operation, o: Outcome)
    requires WellFormed(op) && Faithful(d, m, policy) && Possible(d, m, policy, op, o)
    ensures Promised(d, m, policy, op, o)
  {
    hide Committing, Migrating;
    var e, r := Seen(d, m), Moving(d, m, policy);
    var v := View(e, policy);
    if r.None? {
      if Committing(d, Picked(e.slots, policy.mask), v, op, policy.mask, o) {
        CommittedKeeps(d, Picked(e.slots, policy.mask), v, op, policy, o);
      }
    } else if !o.done && Migrating(d, o.disk, r.value) {
      MigratingKeeps(d, o.disk, m, policy);
    } else {
      var moved := Disk((Stored(r.value), Stored(r.value)), o.disk.legacy);
      assert Readable(r.value, policy.mask) && Content(r.value, policy) == v;
      var k :| k in [0, 1] && Committing(moved, k, v, op, policy.mask, o);
      CommittedKeeps(moved, k, v, op, policy, o);
    }
  }

  /** The promise is kept for every operation and every way it can end exactly when the view was faithful. */
  lemma KeepsPromiseIff(d: Disk, m: Missed, policy: Policy)
    ensures (forall op, o | WellFormed(op) && Possible(d, m, policy, op, o) :: Promised(d, m, policy, op, o)) <==>
            Faithful(d, m, policy)
  {
    if Faithful(d, m, policy) {
      forall op, o | WellFormed(op) && Possible(d, m, policy, op, o) ensures Promised(d, m, policy, op, o) {
        FaithfulKeeps(d, m, policy, op, o);
      }
    } else {
      UnfaithfulBreaks(d, m, policy);
    }
  }

  lemma UnfaithfulBreaks(d: Disk, m: Missed, policy: Policy)
    requires !Faithful(d, m, policy)
    ensures exists o :: Possible(d, m, policy, Info, o) && !Promised(d, m, policy, Info, o)
  {
    var r := Moving(d, m, policy);
    var o := if r.None? then Outcome(d, true)
             else if View(Seen(d, m), policy) != View(d, policy)
             then Outcome(Disk((Stored(r.value), Stored(r.value)), d.legacy), true)
             else Outcome(d.(slots := (Corrupt, d.slots.1)), false);
    assert r.Some? && o.done ==> Committing(o.disk, 0, View(Seen(d, m), policy), Info, policy.mask, o);
    assert Possible(d, m, policy, Info, o);
  }

  /**
    A change made after the newest record was missed: torn, it leaves the older record, and completed it leaves the
    change of the older record; either way the newest is gone.
   */
  lemma MissedNewestIsLost(d: Disk, m: Missed, policy: Policy, op: Operation)
    requires WellFormed(op) && Mutates(op) && Refusal(View(Seen(d, m), policy), op) == OK
    requires Picked(Seen(d, m).slots, policy.mask) != 2 && View(Seen(d, m), policy) != View(d, policy)
    ensures var v := View(Seen(d, m), policy);
            exists torn, full ::
              && Possible(d, m, policy, op, Outcome(torn, false)) && View(torn, policy) == v
              && !Step(View(d, policy), v, op, policy.mask)
              && Possible(d, m, policy, op, Outcome(full, true)) && View(full, policy) == Commit(v, op, policy.mask)
  {
    var e := Seen(d, m);
    var v, selected := View(e, policy), Picked(e.slots, policy.mask);
    CommitReadable(e, policy, op);
    var r, dest := ToRecord(Commit(v, op, policy.mask)), if selected == 0 then 1 else 0;
    var torn, full := d.(slots := With(d.slots, dest, Corrupt)), d.(slots := With(d.slots, dest, Stored(r)));
    assert Possible(d, m, policy, op, Outcome(torn, false)) && Possible(d, m, policy, op, Outcome(full, true));
    assert v.serial <= View(d, policy).serial;
  }

  const ORDINARY := Policy({}, {ENABLED_BIT}, false)

  /** A preference change while the read of slot 1 fails: the store goes back to the older data. */
  lemma DataGoesBack(legacy: (Slot, Slot))
    ensures var a, b := Record(2, true, 1, 5, {}, [97]), Record(2, true, 1, 6, {}, [98]);
            var d, m := Disk((Stored(a), Stored(b)), legacy), Missed((false, true), (false, false));
            var after := Disk((Stored(a), Stored(Record(2, false, 2, 6, {}, [97]))), legacy);
            && View(d, ORDINARY).data == [98] && View(after, ORDINARY).data == [97]
            && Possible(d, m, ORDINARY, SetEnabled({}), Outcome(after, true))
            && !Step(View(d, ORDINARY), View(after, ORDINARY), SetEnabled({}), {})
  {}

  /**
    A save with a generation from before a clear whose second write failed: it is accepted if the slot with the
    cleared record is missed.
   */
  lemma DelayedSaveSlipsIn(legacy: (Slot, Slot))
    ensures var before, cleared := Record(2, true, 1, 5, {}, [97]), Record(2, true, 2, 6, {}, []);
            var d, m := Disk((Stored(before), Stored(cleared)), legacy), Missed((false, true), (false, false));
            var after := Disk((Stored(before), Stored(Record(2, true, 1, 6, {}, [99]))), legacy);
            && View(d, ORDINARY).generation == 2 && Refusal(View(d, ORDINARY), Save(1, [99])) == ESTALE
            && Possible(d, m, ORDINARY, Save(1, [99]), Outcome(after, true)) && View(after, ORDINARY).data == [99]
  {}

  class Store {
    ghost var faults: nat   // good slots that could not be read and slot writes that did not succeed
    const slots: array<Slot>
    const legacy: array<Slot>

    ghost predicate Shaped()
      reads this
    {
      slots.Length == 2 && legacy.Length == 2 && slots != legacy
    }

    ghost function Contents(): Disk
      reads this, slots, legacy
      requires Shaped()
    {
      Disk((slots[0], slots[1]), (legacy[0], legacy[1]))
    }

    constructor (slots: array<Slot>, legacy: array<Slot>)
      requires slots.Length == 2 && legacy.Length == 2 && slots != legacy
      ensures Shaped() && this.slots == slots && this.legacy == legacy
    {
      this.slots, this.legacy := slots, legacy;
    }

    /** Reads one slot; a good record can be missed for want of memory or by a failing read. */
    method ReadSlot(s: Slot, mask: Flags) returns (got: bool, ghost missed: bool)
      modifies `faults
      ensures got == Valid(Hidden(s, missed), mask)
      ensures faults == if missed then old(faults) + 1 else old(faults)
    {
      got, missed := Valid(s, mask), false;
      if * {
        if got {
          got, missed := false, true;
          faults := faults + 1;
        }
      }
    }

    /** Writes one slot and reads it back; a crash or failure anywhere leaves it old, new or corrupt. */
    method WriteSlot(files: array<Slot>, i: nat, r: Record) returns (ok: bool, crashed: bool)
      requires i < files.Length
      modifies files, `faults
      ensures Wrote(old(files[i]), files[i], r)
      ensures forall k :: 0 <= k < files.Length && k != i ==> files[k] == old(files[k])
      ensures ok ==> !crashed && files[i] == Stored(r) && Verifies(r)
      ensures faults == if ok then old(faults) else old(faults) + 1
    {
      crashed := *;
      if {
        case true => ok := false;
        case true => files[i] := Corrupt; ok := false;
        case true => files[i] := Stored(r); ok := !crashed && Verifies(r); if * { ok := false; }
      }
      if !ok { faults := faults + 1; }
    }

    /** Picks the newest slot that was read, preferring slot 0 when serials tie; 2 when neither was. */
    method Select(files: array<Slot>, mask: Flags) returns (selected: nat, ghost missed: (bool, bool))
      requires files.Length == 2
      modifies `faults
      ensures selected <= 2 && selected == Picked((Hidden(files[0], missed.0), Hidden(files[1], missed.1)), mask)
      ensures var n := Newest(Hidden(files[0], missed.0), Hidden(files[1], missed.1), mask);
              if selected == 2 then n.None? else Valid(files[selected], mask) && n == Some(files[selected].record)
      ensures selected == 1 && !missed.0 ==> Valid(files[0], mask) ==> files[0].record.serial < files[1].record.serial
      ensures faults >= old(faults) && (faults == old(faults) ==> missed == (false, false))
    {
      var first, second;
      ghost var m0, m1;
      first, m0 := ReadSlot(files[0], mask);
      second, m1 := ReadSlot(files[1], mask);
      missed := (m0, m1);
      selected := if first then 0 else 2;
      if second && (selected == 2 || files[1].record.serial > files[0].record.serial) { selected := 1; }
    }

    /** Copies the newest legacy record it can read to both slots before removing either old file. */
    method Migrate(policy: Policy) returns (status: Status, selected: nat, crashed: bool, ghost missed: (bool, bool))
      requires Shaped() && policy.relocated
      modifies slots, legacy, `faults
      ensures var d := old(Contents());
              var l := Newest(Hidden(d.legacy.0, missed.0), Hidden(d.legacy.1, missed.1), policy.mask);
              && (l.None? ==> Contents() == d && status == OK && selected == 2 && !crashed)
              && (l.Some? ==> Migrating(d, Contents(), Migrated(l.value, policy)))
              && (l.Some? && !crashed && status == OK ==>
                    && selected < 2 && Dropped(d.legacy, Contents().legacy)
                    && Contents().slots == (Stored(Migrated(l.value, policy)), Stored(Migrated(l.value, policy))))
      ensures old(Newest(slots[0], slots[1], policy.mask)).None? && missed == (false, false) ==>
                View(Contents(), policy) == View(old(Contents()), policy)
      ensures faults >= old(faults) && (faults == old(faults) ==> missed == (false, false))
      ensures !crashed && faults == old(faults) ==> status == OK
      ensures status == OK || status == EIO
    {
      hide View;
      MigrationKeeps(Contents(), policy);
      crashed := false;
      var found;
      found, missed := Select(legacy, policy.mask);
      if found == 2 { return OK, 2, false, missed; }
      var migrated := Migrated(legacy[found].record, policy);
      var ok;
      ok, crashed := WriteSlot(slots, 0, migrated);
      if crashed || !ok { return EIO, 2, crashed, missed; }
      ok, crashed := WriteSlot(slots, 1, migrated);
      if crashed || !ok { return EIO, 2, crashed, missed; }
      crashed := *;
      if * { legacy[0] := Corrupt; }
      if crashed { return EIO, 2, true, missed; }
      var first, _ := ReadSlot(slots[0], policy.mask);
      crashed := *;
      if * { legacy[1] := Corrupt; }
      if crashed { return EIO, 2, true, missed; }
      var second, _ := ReadSlot(slots[1], policy.mask);
      selected := if first then 0 else if second then 1 else 2;
      status := if selected == 2 then EIO else OK;
    }

    /** The operation on the snapshot it read from slot `selected`, overwriting the other slot. */
    method Apply(op: Operation, policy: Policy, selected: nat, v: Snapshot, stillAuthorized: Status)
      returns (status: Status, current: Snapshot, crashed: bool)
      requires Shaped()
      modifies slots, `faults
      ensures Committing(old(Contents()), selected, v, op, policy.mask, Outcome(Contents(), !crashed && status == OK))
              || (Contents() == old(Contents()) && status != OK)
      ensures !crashed && status == OK ==> Refusal(v, op) == OK && current == Commit(v, op, policy.mask)
      ensures faults >= old(faults)
      ensures !crashed && faults == old(faults) ==>
                status == if stillAuthorized != OK then stillAuthorized else Refusal(v, op)
      ensures !crashed && status !in {OK, EIO} && stillAuthorized == OK ==> status == Refusal(v, op)
      ensures !crashed && status == OK && op.Clear? && faults == old(faults) ==>
                slots[0] == slots[1] == Stored(ToRecord(current))
    {
      current, crashed, status := v, false, stillAuthorized;
      if status != OK { return; }
      status := Refusal(v, op);
      if status != OK || !Mutates(op) { return; }
      current := Commit(v, op, policy.mask);
      // Overwrite the older slot, retaining the newest verified snapshot.
      var destination := if selected == 0 then 1 else 0;
      var ok;
      ok, crashed := WriteSlot(slots, destination, ToRecord(current));
      if crashed || !ok { return EIO, current, crashed; }
      if op.Clear? { ok, crashed := WriteSlot(slots, 1 - destination, ToRecord(current)); }
    }

    /** Reads what there is, migrating it first if only legacy data was found. */
    method Gather(policy: Policy)
      returns (status: Status, selected: nat, current: Snapshot, crashed: bool, ghost missed: Missed)
      requires Shaped()
      modifies slots, legacy, `faults
      ensures faults >= old(faults) && (faults == old(faults) ==> missed == NONE_MISSED)
      ensures !crashed && faults == old(faults) ==> status == OK
      ensures status == OK || status == EIO
      ensures if !crashed && status == OK
              then current == View(Seen(old(Contents()), missed), policy)
                   && Ready(old(Contents()), missed, policy, Contents(), selected)
              else Stopped(old(Contents()), missed, policy, Contents())
    {
      hide Migrating;
      crashed, current, status := false, Snapshot(false, {}, 1, 0, []), OK;
      ghost var here, there := (false, false), (false, false);
      selected, here := Select(slots, policy.mask);
      if policy.relocated && selected == 2 {
        status, selected, crashed, there := Migrate(policy);
      }
      missed := Missed(here, there);
      if crashed || status != OK { return; }
      if selected == 2 {
        current := Snapshot(ENABLED_BIT in policy.defaults, policy.defaults * policy.mask, 1, 0, []);
      } else {
        current := Content(slots[selected].record, policy);
      }
    }

    /** Reads, migrates if need be, and applies. */
    method Carry(op: Operation, policy: Policy, stillAuthorized: Status)
      returns (status: Status, current: Snapshot, crashed: bool, ghost missed: Missed)
      requires Shaped()
      modifies slots, legacy, `faults
      ensures faults >= old(faults) && (faults == old(faults) ==> missed == NONE_MISSED)
      ensures Possible(old(Contents()), missed, policy, op, Outcome(Contents(), !crashed && status == OK))
      ensures !crashed && status == OK ==>
                var v := View(Seen(old(Contents()), missed), policy);
                Refusal(v, op) == OK && current == Commit(v, op, policy.mask)
      ensures !crashed && faults == old(faults) ==>
                status == if stillAuthorized != OK then stillAuthorized
                          else Refusal(View(Seen(old(Contents()), missed), policy), op)
      ensures !crashed && status !in {OK, EIO} && stillAuthorized == OK ==>
                status == Refusal(View(Seen(old(Contents()), missed), policy), op)
      ensures !crashed && status == OK && op.Clear? && faults == old(faults) ==>
                slots[0] == slots[1] == Stored(ToRecord(current))
    {
      hide Committing, Migrating, Possible, View, Ready;
      ghost var d := Contents();
      var selected;
      status, selected, current, crashed, missed := Gather(policy);
      if crashed || status != OK {
        StoppedEarly(d, missed, policy, op, Contents());
        return;
      }
      ghost var e := Contents();
      status, current, crashed := Apply(op, policy, selected, current, stillAuthorized);
      ReadyThenApplied(d, missed, policy, e, selected, op, Outcome(Contents(), !crashed && status == OK));
    }

    /**
      One transaction under the store lock. Whatever fails and wherever it stops, it leaves one of the
      possible outcomes; while what it read was faithful, the snapshot found afterwards is the one before
      it or the one it commits.
     */
    method Transaction(op: Operation, policy: Policy, authorized: Status, directories: bool, stillAuthorized: Status)
      returns (status: Status, current: Snapshot, crashed: bool, ghost missed: Missed)
      requires Shaped() && WellFormed(op)
      modifies slots, legacy, `faults
      ensures Shaped() && faults >= old(faults) && (faults == old(faults) ==> missed == NONE_MISSED)
      ensures Possible(old(Contents()), missed, policy, op, Outcome(Contents(), !crashed && status == OK))
      ensures Faithful(old(Contents()), missed, policy) ==>
                && Step(View(old(Contents()), policy), View(Contents(), policy), op, policy.mask)
                && (!Mutates(op) ==> View(Contents(), policy) == View(old(Contents()), policy))
      ensures !crashed && status == OK ==>
                var v := View(Seen(old(Contents()), missed), policy);
                Refusal(v, op) == OK && current == Commit(v, op, policy.mask)
      ensures !crashed && status == OK ==>
                var v := View(Seen(old(Contents()), missed), policy);
                && Effect(v, op, policy.mask, current)
                && (op.Save? ==> v.enabled && op.generation == v.generation)
                && (op.SetOptions? ==> op.generation == v.generation) && (op.Load? ==> |v.data| <= op.capacity)
      ensures !crashed && status == OK && Faithful(old(Contents()), missed, policy) ==>
                var v := View(old(Contents()), policy);
                && Refusal(v, op) == OK && View(Contents(), policy) == Commit(v, op, policy.mask) == current
                && Effect(v, op, policy.mask, View(Contents(), policy))
      ensures !crashed && faults == old(faults) && authorized == OK == stillAuthorized && directories ==>
                var v := View(old(Contents()), policy);
                && (op.Save? ==>
                      status == if op.generation != v.generation then ESTALE else if !v.enabled then EPERM
                                else if v.serial == 0xFFFF_FFFF_FFFF_FFFF then EOVERFLOW else OK)
                && (op.Clear? || op.SetEnabled? || (op.SetOptions? && op.generation == v.generation) ==>
                      (status == EOVERFLOW <==> 0xFFFF_FFFF_FFFF_FFFF in {v.generation, v.serial})
                      && (status == OK <==> 0xFFFF_FFFF_FFFF_FFFF !in {v.generation, v.serial}))
                && (op.SetOptions? && op.generation != v.generation ==> status == ESTALE)
                && (op.Load? ==> status == if op.capacity < |v.data| then ENOSPC else OK) && (op.Info? ==> status == OK)
      ensures !crashed && faults == old(faults) ==>
                status == if authorized != OK then authorized else if !directories then EIO
                          else if stillAuthorized != OK then stillAuthorized
                          else Refusal(View(old(Contents()), policy), op)
      ensures !crashed && status !in {OK, EIO} && authorized == OK == stillAuthorized && directories ==>
                status == Refusal(View(Seen(old(Contents()), missed), policy), op)
      ensures !crashed && status == OK && op.Clear? && faults == old(faults) ==>
                slots[0] == slots[1] == Stored(ToRecord(View(Contents(), policy)))
    {
      hide Committing, Migrating, Possible, Faithful, View;
      ghost var d := Contents();
      NothingMissed(d, policy);
      Untouched(d, NONE_MISSED, policy, op);
      crashed, missed := false, NONE_MISSED;
      current := Snapshot(false, {}, 1, 0, []);
      status := authorized;
      if status == OK && !directories { status := EIO; }
      if status == OK {
        status, current, crashed, missed := Carry(op, policy, stillAuthorized);
      }
      if !crashed && status == OK { CommitMeans(View(Seen(d, missed), policy), op, policy.mask); }
      if Faithful(d, missed, policy) {
        FaithfulKeeps(d, missed, policy, op, Outcome(Contents(), !crashed && status == OK));
      }
    }
  }
}
