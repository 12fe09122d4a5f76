# Kernel protocols and data structures, modelled and proved in Dafny

The project models the parts of the OpenXJ380 kernel where correctness depends on many
operations keeping a shared invariant: who may touch which byte of a disk, what an input
method may do to a stream of keys, how user data survives crashes, where a shared object
may write, and the queues, trees and number routines underneath. Every locked section is
one atomic step; whatever lies outside the modelled code (files, fresh page contents,
device faults, symbol addresses, scheduling) is left free, so the results hold for every
behaviour of it.

Code that changes state in place is a class with arrays, linked nodes or fields and
methods with loops; each method is proved against functions on values, and the properties
are proved about those functions, over all inputs, all reachable states or all runs.

| files | what they model |
|---|---|
| BlockAccess, BlockAccessRuns, BlockAccessEffects, BlockRegistry | the block-device registry: devices, leases, I/O tickets, poison, as functions, over every run, by what each call leaves behind, and on its tables |
| BlockIo | byte reads and writes over a sector device through direct spans and a bounce buffer |
| Utf8, InputMethod, ShiftTap, InputMethodService | text checks, what a key log means, when Shift was tapped alone, and the ring of pending input-method events |
| UserStore, SaveWorker | the two-slot learning store under crashes, and its asynchronous save worker |
| RedBlack, RedBlackIndex | the string index: red-black trees with parent pointers and collision lists |
| ElfImage, Relocation, LoaderSteps, LoaderFacts, Loader | checking, mapping, linking and relocating shared objects |
| SampleFiles | two concrete shared objects: one with a segment that wraps, one that needs itself |
| AtomQueue, LockQueue | the byte ring between two threads, and the indexed linked queue |
| ScreenCapture, ScreenList | exclusion between screen capture and secret processes |
| Numbers | the number writer and the number parser |
| Common | shared definitions and arithmetic facts |

Six promises turn out not to hold as one might state them. Each has a concrete input, and all
but the one about libraries that need each other have the exact condition under which they hold:

* Inserting into the string index under a hash that is already present builds a list node and
  drops it, so the first value stays. `RedBlack.AgreesThroughoutIff` says when a run still
  behaves like a newest-first list; `ReinsertionIsLost` and `CollisionIsLost` are concrete.
* The size comparison made after mapping a shared object is not redundant: it fails exactly
  when some segment's end, rounded up to a page, wraps past 2^64
  (`ElfImage.SizeCheckFiresIffWraps`). `SampleFiles.AcceptedAndWraps` gives an accepted file that
  does, and `SampleFiles.FailsAfterWriting` shows its load given up after a byte far from every
  address taken was written; without wrapping, no load changes a byte outside the addresses it takes.
* Libraries that need each other never load, because an object is listed only after what it needs
  (`LoaderFacts.CycleNeverLoads`). A concrete module that needs itself is accepted at every page
  (`SampleFiles.SelfAccepted`); loading it nests until the whole kernel window is taken
  (`SampleFiles.UsesUpWindow`), and no module that is not listed can be loaded any more
  (`SampleFiles.EndsModuleLoading`).
* The learning store keeps its promise, the old snapshot or the committed one, while what a
  transaction read is what the disk holds. A read that fails on the newest slot makes it work on
  the older one and overwrite the newest (`UserStore.KeepsPromiseIff`; `DataGoesBack` and
  `DelayedSaveSlipsIn` are concrete).
* A value printed as unsigned comes back from the parser clamped when its top bit is set
  (`Numbers.RoundTripIff`, `Numbers.UnsignedIsClamped`).
* A ticket of no bytes does not keep its device registered
  (`BlockAccessRuns.EmptyTicketPinsNothing`; `WithdrawnUnderTicket` is a concrete run).

## Model

| member | source | states |
|---|---|---|
| BlockAccess.OverlapsIsSharedByte | driver/block_access.cpp:60-68 | on extents whose end fits in 64 bits the wrapping comparison holds exactly when some byte of one disk incarnation belongs to both |
| BlockAccess.ContainsIsInclusion | driver/block_access.cpp:70-74 | on nonempty extents that fit, containment is exactly inclusion of the byte sets |
| BlockAccess.First | driver/block_access.cpp:131-143 | the least matching slot: everything before it does not match, and the table length when nothing does |
| BlockAccessRuns.ResolveIffPublished | driver/block_access.cpp:92-101 | in every state that keeps the invariant the physical re-check never rejects a published entry: a lookup succeeds exactly for a valid, published slot under its generation or none |
| BlockAccessRuns.TableExtentsFit | driver/block_access.cpp:65-74 | every extent in the tables ends below 2^64, so the additions of the overlap test never wrap |
| BlockAccessRuns.StepInv | driver/block_access.cpp:124-444 | every entry point, by any task with any arguments, keeps the registry invariant |
| BlockAccessRuns.Exec | driver/block_access.cpp:124-444 | the state after any sequence of calls keeps the invariant |
| BlockAccessRuns.LeasesExclude | driver/block_access.cpp:124-150 | after any run no two live leases share a byte of one disk incarnation |
| BlockAccessRuns.TicketsRespectExclusive | driver/block_access.cpp:324-355 | after any run a live ticket sharing a byte with a live exclusive lease has its owner and thread id and lies wholly inside it |
| BlockAccessRuns.AccessesPinned | driver/block_access.cpp:154-208 | after any run every live lease's extent is a valid published registration, every nonempty live ticket's incarnation is registered, and every valid slice lies inside its valid disk |
| BlockAccessRuns.StepEvolves | driver/block_access.cpp:54-58 | no call clears a poisoned entry, resets abandonment or moves identities back, and new entries carry fresh identities |
| BlockAccessRuns.PoisonIsForever | driver/block_access.cpp:245-264 | over every run a poisoned entry survives unchanged, abandonment stays set and identities only grow |
| BlockAccessRuns.TombstoneRefuses | driver/block_access.cpp:109-150 | in a state with a poisoned entry no claim, scan, ticket, slice or withdrawal that overlaps it succeeds |
| BlockAccessRuns.PoisonFailsClosed | driver/block_access.cpp:109-150 | the same, after any continuation of the run in which the poison appeared |
| BlockAccessRuns.DeadForever | driver/block_access.cpp:364-401 | an identity that is issued and no longer live never becomes live again |
| BlockAccessRuns.StaleTokenIsInert | driver/block_access.cpp:245-264 | release, poison and end of I/O under such a token change nothing, whatever ran in between |
| BlockAccessRuns.TokenNamesOneSlot | driver/block_access.cpp:245-264 | a live lease token names one slot: poison and release change exactly it, release succeeds exactly for an unpoisoned lease of the caller, and ending I/O under it does nothing |
| BlockAccessRuns.TicketNamesOneSlot | driver/block_access.cpp:364-369 | a live ticket token names one slot: poison and end of I/O change exactly it, a poisoned ticket cannot be ended, and it cannot be released as a lease |
| BlockAccessRuns.DepthCounts | driver/block_access.cpp:414-444 | over every run the management claim is live exactly when its depth is not zero |
| BlockAccessRuns.ManagementLasts | driver/block_access.cpp:414-444 | over every run a held management claim stays with its owner until the owner has ended it as often as begun, or for ever once poisoned; its depth is the number of begins not ended, and meanwhile every other task gets EBUSY, or EIO when poisoned |
| BlockAccessRuns.ClaimSucceedsIff | driver/block_access.cpp:124-150 | a claim succeeds if and only if the registration is current, the caller may own it, nothing live shares a byte, and a slot and an identity are left |
| BlockAccessRuns.UnregisterSucceedsIff | driver/block_access.cpp:196-208 | a withdrawal succeeds if and only if the slot is registered and nothing live shares a byte with it |
| BlockAccessRuns.ValidatedWindowAdmitsIo | driver/block_access.cpp:266-295 | if validation of an exclusively owned window succeeds, the same task's I/O on it fails only for want of a ticket slot or an identity |
| BlockAccessRuns.LeaseLasts | driver/block_access.cpp:54-58 | over every run a live lease's entry only ever gets poisoned, and once it is gone its identity is dead |
| BlockAccessRuns.RetainedExcludes | driver/block_access.cpp:297-322 | after a retained lease was validated, over every run and as long as the lease is live, every claim, scan, slice and withdrawal that overlaps it and every other task's overlapping I/O is refused |
| BlockAccessRuns.IoBeginSucceedsIff | driver/block_access.cpp:324-355 | ordinary I/O is admitted if and only if nothing is abandoned, the range is inside a published device, no poison and no foreign or straddled exclusive lease is touched, and a slot and an identity are left |
| BlockAccessRuns.AbandonedIoFencesAll | driver/block_access.cpp:371-401 | abandoning a task with I/O in flight makes every later claim and ticket fail, in every continuation |
| BlockAccessRuns.GenerationAuthenticates | driver/block_access.cpp:92-101 | I/O under a generation resolved earlier reaches the very registration it was resolved from, whatever ran in between |
| BlockAccessRuns.FlushAuthenticates | driver/block_access.cpp:357-362 | the two locked steps of a flush: whatever runs between them, a ticket it gets covers the whole extent resolved first |
| BlockAccessRuns.EmptyTicketPinsNothing | driver/block_access.cpp:196-208 | a device that no live lease and only tickets of no bytes use can be withdrawn under them, whatever goes on elsewhere |
| BlockAccessRuns.WithdrawnUnderTicket | driver/block_access.cpp:196-208 | a concrete run: a disk is registered and published, a transfer of no bytes begins, and its ticket is live before and after the disk is withdrawn |
| BlockAccessEffects.ClaimStores | driver/block_access.cpp:124-150 | a successful claim fills exactly one free slot with the extent, the returned token, the kind and, if exclusive, the caller, and changes nothing else |
| BlockAccessEffects.ClaimExcludes | driver/block_access.cpp:124-150 | after an exclusive claim or scan, over every run and while its token is live, every other task's I/O that shares a byte with it fails, and so does every claim, scan and withdrawal, and every slice unless it was a scan |
| BlockAccessEffects.ClaimAdmitsOwner | driver/block_access.cpp:324-355 | a claim keeps the claimant's own I/O inside it admissible |
| BlockAccessEffects.SharedClaimRefusesNothing | driver/block_access.cpp:337-342 | a shared claim refuses nobody's I/O |
| BlockAccessEffects.ClaimValidates | driver/block_access.cpp:266-295 | over every run, while the token of an exclusive claim of a whole disk is live and nothing is abandoned or poisoned there, every aligned window of it validates for the claimant |
| BlockAccessEffects.ClaimStatus | driver/block_access.cpp:124-150 | the status of a claim in each case, in the order the reasons are looked at; what is in the way gives EIO when poisoned and EBUSY otherwise |
| BlockAccessEffects.WholeLies | driver/block_access.cpp:154-168 | a registered disk is its own bytes from zero on under a fresh generation, unpublished, with the flush flag given, and no other slot changes; registered exactly for a free slot and a nonzero size |
| BlockAccessEffects.SliceLies | driver/block_access.cpp:170-185 | byte k of a registered slice is byte offset + k of its parent on the same disk incarnation and it has no others; its generation is fresh, it is unpublished and no other slot changes |
| BlockAccessEffects.SliceSucceedsIff | driver/block_access.cpp:170-185 | a slice is registered if and only if it lies in a published parent, the slot is free and nothing but the caller's own scan touches it |
| BlockAccessEffects.PublishedResolves | driver/block_access.cpp:187-194 | publishing succeeds exactly under the slot's generation, and then a lookup gives exactly the registered extent |
| BlockAccessEffects.WithdrawnAre | driver/block_access.cpp:196-208 | a withdrawal takes the device and, for a whole disk, every device of that incarnation, and nothing else |
| BlockAccessEffects.DeviceStatus | driver/block_access.cpp:154-208 | the status of withdrawing or re-registering a device in each case |
| BlockAccessEffects.TicketStores | driver/block_access.cpp:324-355 | a ticket fills one free slot with the caller and exactly the bytes asked for, counted from where the device lies on its disk |
| BlockAccessEffects.IoStatus | driver/block_access.cpp:324-355 | the status of beginning I/O in each case |
| BlockAccessEffects.ReleaseStatus | driver/block_access.cpp:245-256 | the status of a release in each case |
| BlockAccessEffects.ScanStores | driver/block_access.cpp:403-412 | a scan claims a whole disk exclusively for its caller |
| BlockAccessEffects.ScanAdmitsSlices | driver/block_access.cpp:109-122 | inside a scan of its own a task can register slices |
| BlockAccessEffects.ValidateOwnedIff | driver/block_access.cpp:266-295 | an owned window validates if and only if it is aligned, the disk is published, clean and not abandoned, and the live caller holds it exclusively |
| BlockAccessEffects.ValidateRetainedIff | driver/block_access.cpp:297-322 | a retained lease validates if and only if the disk is published, clean and not abandoned, and a live owner holds it exclusively |
| BlockAccessEffects.ReapMarks | driver/block_access.cpp:389-401 | reaping poisons the exclusive leases, tickets and management claim of stopped owners and nothing else, and abandons exactly when a ticket is among them |
| BlockAccessEffects.AbandonMarks | driver/block_access.cpp:371-387 | abandoning a task does the same for what that task holds |
| BlockAccessEffects.ReapedIoFencesAll | driver/block_access.cpp:389-401 | reaping a stopped owner with I/O in flight makes every later claim and ticket fail, in every continuation |
| BlockAccessEffects.ManagementGrants | driver/block_access.cpp:414-436 | a free management claim goes to the caller at depth one under a fresh token |
| BlockAccessEffects.ManagementNests | driver/block_access.cpp:414-444 | its owner's further begins and ends move the depth by one and the last end frees it |
| BlockRegistry.Registry.Lookup | driver/block_access.cpp:92-101 | the lookup on the device table is Resolve |
| BlockRegistry.Registry.IsAvailable | driver/block_access.cpp:109-122 | the two scans compute Available |
| BlockRegistry.Registry.ScanLeases | driver/block_access.cpp:131-139 | one pass reports the first overlap's refusal, or the first free slot |
| BlockRegistry.Registry.ClaimAs | driver/block_access.cpp:124-150 | the claim on the tables has the outcome and the new state of ClaimWith and keeps the invariant |
| BlockRegistry.Registry.Whole | driver/block_access.cpp:154-168 | registering a disk on the tables is RegisterWhole and keeps the invariant |
| BlockRegistry.Registry.Slice | driver/block_access.cpp:170-185 | registering a slice on the tables is RegisterSlice and keeps the invariant |
| BlockRegistry.Registry.PublishDevice | driver/block_access.cpp:187-194 | publishing on the tables is Publish and keeps the invariant |
| BlockRegistry.Registry.UnregisterDevice | driver/block_access.cpp:196-208 | the loop that withdraws a disk with its slices is Unregister and keeps the invariant |
| BlockRegistry.Registry.ReleaseLease | driver/block_access.cpp:245-257 | releasing on the tables is Release and keeps the invariant |
| BlockRegistry.Registry.PoisonToken | driver/block_access.cpp:259-264 | poisoning on both tables is Poison and keeps the invariant |
| BlockRegistry.Registry.BeginIo | driver/block_access.cpp:324-355 | admitting I/O on the tables is IoBegin and keeps the invariant |
| BlockRegistry.Registry.EndIo | driver/block_access.cpp:364-369 | ending I/O on the tables is IoEnd and keeps the invariant |
| BlockRegistry.Registry.AbandonOwner | driver/block_access.cpp:371-387 | the loops that abandon an owner are Abandon and keep the invariant |
| BlockRegistry.Registry.ReapAbandoned | driver/block_access.cpp:389-401 | the loops that reap stopped owners are Reap and keep the invariant |
| BlockRegistry.Registry.BeginScan | driver/block_access.cpp:403-412 | starting a scan on the tables is ScanBegin and keeps the invariant |
| BlockRegistry.Registry.BeginManagement | driver/block_access.cpp:414-436 | entering management is ManagementBegin and keeps the invariant |
| BlockRegistry.Registry.EndManagement | driver/block_access.cpp:438-444 | leaving management is ManagementEnd and keeps the invariant |
| BlockRegistry.Registry.BeginFlush | driver/block_access.cpp:357-362 | a flush ticket covers the whole resolved extent |
| BlockIo.Device.AcquireBounce | driver/device.cpp:95-106 | a bounce buffer has at least the requested size, or the request counts as a fault |
| BlockIo.Device.MaxSectors | driver/device.cpp:35-44 | the sectors of one bounce transfer always fit the bounce buffer |
| BlockIo.Device.Read | driver/device.cpp:373-473 | for every offset, length, sector size, window and choice of direct spans a successful read returns exactly the disk's bytes of the range and touches nothing behind them, and it fails exactly on a refused, unreadable or faulting request |
| BlockIo.Device.Write | driver/device.cpp:475-594 | a successful write turns the disk into old prefix, source, old suffix; a failed one leaves every byte outside the range as it was and every byte inside old or new; a nonempty write fails if and only if it is refused, a fault occurs, or a sector is only partly covered and cannot be read first |
| BlockIo.Device.PatchSector | driver/device.cpp:513-531 | the read-modify-write of one sector extends the written range by exactly the bytes meant |
| BlockIo.Device.WriteThenRead | driver/device.cpp:373-594 | reading the range just written returns the bytes written |
| Utf8.ScalarLenSound | include/ime_utf8.h:8-24 | the byte syntax accepts only encodings of nonzero scalars, and decoding loses nothing |
| Utf8.ScalarLenComplete | include/ime_utf8.h:8-24 | it accepts every encoding of a nonzero scalar whatever follows, and decoding inverts encoding |
| Utf8.DecodingUnique | include/ime_utf8.h:8-36 | two decodings of one buffer agree |
| Utf8.ScalarBytes | include/ime_utf8.h:8-24 | the loop computes the scalar length at a position, reading no byte behind the first that is not a tail |
| Utf8.Valid | include/ime_utf8.h:26-36 | a buffer is accepted if and only if it holds a NUL-terminated sequence of encoded nonzero scalars (section 4 of RFC 3629) |
| Utf8.UnpackPack | include/ime_utf8.h:38-44 | a packed scalar of one to four nonzero bytes unpacks to its bytes |
| Utf8.PackBytes | include/ime_utf8.h:38-44 | the accumulating loop computes the packed value |
| Utf8.Previous | include/ime_utf8.h:46-53 | the search finds the nearest earlier byte that is not a tail |
| Utf8.PreviousIsBoundary | include/ime_utf8.h:46-53 | on valid text that is exactly the boundary before the preceding scalar |
| Utf8.CopyLabel | kernel/input_method.cpp:409-420 | the copied label is whole scalars of the text with a terminator, and it stops only at the end, at a malformed byte or where the next scalar no longer fits |
| Utf8.LabelIsLongest | kernel/input_method.cpp:409-420 | on valid text that is the longest prefix of whole scalars that fits |
| InputMethod.Conservation | kernel/input_method.cpp:349-382 | what was emitted and what the queue still owes make up the rendering of all queued events, in order |
| InputMethod.QueueStep | kernel/input_method.cpp:274-294 | queueing one event keeps queue and log consistent |
| InputMethod.DecideStep | kernel/input_method.cpp:714-737 | deciding the first unanswered event keeps them consistent |
| InputMethod.FetchStep | kernel/input_method.cpp:673-713 | handing out the first unanswered event keeps them consistent |
| InputMethod.CharStep | kernel/input_method.cpp:360-368 | delivering one scalar of a committed text is one step of its rendering |
| InputMethod.PopStep | kernel/input_method.cpp:369-382 | retiring the head emits exactly what it still owes: the original message, or nothing |
| InputMethod.OpenStep | kernel/input_method.cpp:88-109 | losing the engine turns only unanswered events into PASS and changes neither what was nor what will be delivered |
| InputMethod.CommitGivesBackText | kernel/input_method.cpp:360-368 | the packed values of a committed text, unpacked and joined, are its bytes, one value for each scalar |
| InputMethod.CommitTypes | kernel/input_method.cpp:360-368 | a committed text is delivered as character messages, one for each scalar, whose values unpack to the encodings of the text's scalars in order |
| InputMethod.ValidIsText | include/ime_utf8.h:26-36 | text that validation accepts is read scalar by scalar to its end |
| InputMethodService.Ime.Balance | kernel/input_method.cpp:349-382 | in every valid state emitted deliveries plus the queue's rendering equal the rendering of all events since the last reset |
| InputMethodService.Ime.AnsweredPrefix | kernel/input_method.cpp:694-736 | replied events form a prefix, only the next one may be with the engine, and without a session every event, the first included, is replied |
| InputMethodService.Ime.Reset | kernel/input_method.cpp:66-78 | everything queued is dropped and the context number moves on |
| InputMethodService.Ime.Detach | kernel/input_method.cpp:80-86 | a reset that also ends the session |
| InputMethodService.Ime.FailOpen | kernel/input_method.cpp:88-109 | the ring after session loss: every unanswered key is to be delivered as it came, answers, order and the log's rendering are kept |
| InputMethodService.Ime.QueueEvent | kernel/input_method.cpp:274-294 | an event is appended under the next number unless only the reserved slot is left |
| InputMethodService.Ime.Filter | kernel/input_method.cpp:296-347 | a message is taken if and only if it is a key message for the focused control and either a solo Shift release or a key without chord while the engine is in use; a taken one joins the log exactly once, unanswered and marked when it is a tap, or, on overflow, unmarked with everything answered PASS; a chord over a visible list resets, anything else changes nothing |
| InputMethodService.Ime.TrackShift | kernel/input_method.cpp:305-329 | the release of Shift toggles exactly when the whole history of messages, modifier updates and resets ends in a Shift pressed alone and left alone; the flags are those the history gives |
| InputMethodService.Ime.SetModifiers | kernel/input_method.cpp:259-265 | a modifier update is one more step of that history and spoils a tap when it is a chord |
| ShiftTap.TapIffSolo | kernel/input_method.cpp:259-329 | after every history the tap flag is set exactly when Shift went down with no key held and no chord and only key repeats, its own character form and chordless modifier updates followed; the down flag, the held keys and the chord are likewise those the history shows |
| InputMethodService.Ime.TakeDelivery | kernel/input_method.cpp:349-382 | each call emits the next delivery of the log's rendering or nothing is due |
| InputMethodService.Ime.Attach | kernel/input_method.cpp:648-672 | which status each case gives, unreadable requests and unknown capabilities included; a session starts only for an authorized engine and none attached, on an empty queue under a fresh number |
| InputMethodService.Ime.GetEvent | kernel/input_method.cpp:673-713 | which status each case gives; the engine gets the first unanswered event, once; outdated pointer events before it are consumed and nothing else changes |
| InputMethodService.Ime.Reply | kernel/input_method.cpp:714-737 | which status each case gives; an answer is taken if and only if it is well formed and for the event the engine holds, under its session, context and number; then reply code 0 makes the application receive that key as it came, 1 nothing, 2 one character for each scalar of the text and then a tapped Shift release, and no other entry of the log changes |
| InputMethodService.Printable | kernel/input_method.cpp:724-725 | accepts exactly text without control characters before its terminator |
| InputMethodService.Ime.SetFocus | kernel/input_method.cpp:241-257 | a focus change drops what was queued for the old context |
| InputMethodService.Ime.UiAction | kernel/input_method.cpp:447-462 | a pointer event is queued if and only if it is for the visible list revision and a slot is free |
| UserStore.ViewReadable | kernel/ime_user_store.cpp:125-148 | whatever the disk holds, what a reader is given passes the reader's own checks |
| UserStore.ViewIsNewest | kernel/ime_user_store.cpp:219-262 | a reader sees the readable record with the greatest serial, the first of two equals, from the older place only if the new one has none, and otherwise the policy's defaults |
| UserStore.CommitReadable | kernel/ime_user_store.cpp:259-297 | the record a permitted operation writes is readable and reads back as the committed snapshot |
| UserStore.GenerationsGrow | kernel/ime_user_store.cpp:265-297 | generations never go back, and a clear or preference change moves them on |
| UserStore.RunGenerationsGrow | kernel/ime_user_store.cpp:265-297 | the same over every run of transactions that keep the promise |
| UserStore.DelayedSaveIsStale | kernel/ime_user_store.cpp:265-297 | in such a run a save carrying a generation read before a committed clear or preference change is refused in every later state |
| UserStore.TwinsSurviveLoss | kernel/ime_user_store.cpp:219-224 | two equal good slots show the same snapshot after the loss of either |
| UserStore.KeepsPromiseIff | kernel/ime_user_store.cpp:218-297 | every operation, however it ends, leaves the old or the committed snapshot and reports success only for the committed one, if and only if the view through the reads that failed equals the disk's and, where a migration starts, survives the loss of slot 0 |
| UserStore.FaithfulKeeps | kernel/ime_user_store.cpp:218-297 | with such a view each possible outcome of each operation keeps the promise |
| UserStore.MissedNewestIsLost | kernel/ime_user_store.cpp:291-295 | a change made when the newest slot was not read overwrites it: torn it leaves the older record, completed the change of the older record |
| UserStore.DataGoesBack | kernel/ime_user_store.cpp:125-148 | a concrete preference change with one failed read brings older data back |
| UserStore.DelayedSaveSlipsIn | kernel/ime_user_store.cpp:259-297 | a concrete save from before a clear is accepted when the cleared slot cannot be read |
| UserStore.Store.WriteSlot | kernel/ime_user_store.cpp:150-168 | a slot write ends old, new or corrupt and touches no other slot; reported success means it was read back, anything else counts as a fault |
| UserStore.Store.Select | kernel/ime_user_store.cpp:219-224 | the chosen slot is the newest one that was read, slot 1 only if slot 0 was not read or has a smaller serial; a good slot that was not read counts as a fault |
| UserStore.Store.Migrate | kernel/ime_user_store.cpp:225-258 | wherever it stops, migration leaves one of the states Migrating describes; if every legacy slot was read and no slot at the new place is good, the readable snapshot is unchanged; without a fault it succeeds |
| UserStore.Store.Transaction | kernel/ime_user_store.cpp:178-312 | with a crash, a failed read or a failed write at any point the outcome is one of Possible; success leaves, field by field, no data after a clear, exactly the request's data after a save, the request's bit and the masked options after a preference change, and everything else as it was; if what was read is faithful the snapshot afterwards is exactly the one before or the committed one; without a fault the status is exactly that of the first check that refuses, a stale or disabled save among them; a clear whose two writes succeed leaves equal slots |
| SaveWorker.MovesAreSafe | kernel/ime_user_store.cpp:326-406 | in every invariant state no enabled move follows a freed job or frees a freed buffer |
| SaveWorker.StepInv | kernel/ime_user_store.cpp:326-406 | every move of a client or the worker, status calls included, keeps the invariant |
| SaveWorker.Exec | kernel/ime_user_store.cpp:326-406 | so does every interleaving of any number of clients with the worker |
| SaveWorker.EachJobRunsOnce | kernel/ime_user_store.cpp:326-391 | in every interleaving an accepted job is run exactly once by the time it completes or is freed, and a refused one never |
| SaveWorker.StatusIsTruthful | kernel/ime_user_store.cpp:393-406 | in every interleaving a published job that a status call reports as done has been run once and left by the worker, and one reported pending still has its data |
| SaveWorker.RunAccounted | kernel/ime_user_store.cpp:353-391 | in every interleaving each live buffer is owned by the job slot or by one client |
| SaveWorker.NothingLeaks | kernel/ime_user_store.cpp:353-391 | when all clients have returned and no job is pending no buffer is left |
| RedBlack.FixBalanced | include/rbtree-strptr.h:291-330 | from a red node below any balanced context the fixup ends with a black root, no red-red edge and equal black heights |
| RedBlack.InsertedBalanced | include/rbtree-strptr.h:332-364 | insertion keeps that shape |
| RedBlack.BstIffSorted | include/rbtree-strptr.h:332-364 | search order is exactly sortedness of the in-order sequence |
| RedBlack.FixInorder | include/rbtree-strptr.h:291-330 | the fixup neither adds, drops nor reorders nodes |
| RedBlack.FindIffMember | include/rbtree-strptr.h:205-214 | the walk down finds exactly the entries of the tree |
| RedBlack.InsertedFind | include/rbtree-strptr.h:332-364 | after inserting a new hash every search answers as before, except that hash, which finds the new entry |
| RedBlack.InsertionTakesEffectIff | include/rbtree-strptr.h:332-364 | one insertion acts like prepending to an association list exactly when its hash is new or the index already gives its value |
| RedBlack.AgreesThroughoutIff | include/rbtree-strptr.h:332-364 | lookups agree with a newest-first list throughout a run exactly when every insertion in it is of that kind |
| RedBlack.ReinsertionIsLost | include/rbtree-strptr.h:332-364 | a second value under a key is lost |
| RedBlack.CollisionIsLost | include/rbtree-strptr.h:332-364 | two keys with one hash: the later one is never found |
| RedBlackIndex.LeftRotate | include/rbtree-strptr.h:236-255 | the pointer writes turn memory holding a tree in its context into memory holding the rotated tree, parent pointers included |
| RedBlackIndex.RightRotate | include/rbtree-strptr.h:257-276 | likewise for the mirror image |
| RedBlackIndex.Repaint | include/rbtree-strptr.h:295-299 | the red-uncle case repaints three nodes and moves up two levels |
| RedBlackIndex.Rebalance | include/rbtree-strptr.h:300-308 | the black-uncle case ends in the settled tree |
| RedBlackIndex.InsertFixup | include/rbtree-strptr.h:291-330 | the loop ends, and memory then holds the balanced tree Fix describes, made of the same nodes |
| RedBlackIndex.ListGet | include/slist-strptr.h:189-194 | the first match of a collision list |
| RedBlackIndex.ListPrepend | include/slist-strptr.h:179-187 | the pair in front of the list |
| RedBlackIndex.Attach | include/rbtree-strptr.h:355-361 | a fresh node is linked below the end of the walk |
| RedBlackIndex.Index.GetNode | include/rbtree-strptr.h:205-214 | the node of a hash if and only if it is in the tree |
| RedBlackIndex.Index.Insert | include/rbtree-strptr.h:332-364 | search order, pointer agreement, shape and the record of insertions are kept; a hash already present leaves the tree as it was |
| RedBlackIndex.Index.Get | include/rbtree-strptr.h:194-203 | after any insertions a lookup gives the first value stored under the key's hash, if that was this key |
| ElfImage.UpCases | include/krlibc.h:248-249 | rounding up gives the next page boundary, or zero when the sum wraps |
| ElfImage.FindTerminator | kernel/dlinker.cpp:275-278 | the loop finds whether the table has a terminating entry |
| ElfImage.TableContained | kernel/dlinker.cpp:287-299 | the loop finds whether some load segment contains the table |
| ElfImage.ScanHeaders | kernel/dlinker.cpp:255-280 | one pass accepts exactly well-formed headers and computes their lowest and highest page |
| ElfImage.Validate | kernel/dlinker.cpp:246-310 | a file is accepted at a base if and only if the whole condition holds, and the size is the highest page less the base |
| ElfImage.ReadableMeans | kernel/dlinker.cpp:249-252 | byte by byte which files have a usable header: the magic, a shared object for a supported machine, the sizes, and a header table inside the file |
| ElfImage.AcceptedTables | kernel/dlinker.cpp:270-300 | every byte of a dynamic table of an accepted file is loaded and some table has a terminator in the file |
| ElfImage.AcceptedRange | kernel/dlinker.cpp:301-306 | the loaded bytes of an accepted file that does not wrap lie in the module space or in the shared-object space |
| ElfImage.ImageHolds | kernel/dlinker.cpp:281-309 | accepted headers give a nonempty run of whole pages inside the window that holds every segment not wrapping |
| ElfImage.SizeCheckFiresIffWraps | kernel/dlinker.cpp:1202-1205 | the comparison after mapping fails if and only if some segment's rounded end wraps |
| SampleFiles.AcceptedAndWraps | kernel/dlinker.cpp:246-310 | a concrete file of 248 bytes is accepted at the start of the kernel window although its second segment wraps |
| SampleFiles.FailsAfterWriting | kernel/dlinker.cpp:1194-1205 | loading that file as the first kernel module returns nothing and takes no addresses, but its first byte is left in the last page of memory |
| ElfImage.SmallFilesNeverWrap | kernel/dlinker.cpp:265-268 | a file whose segments end within a gigabyte less a page of its base never wraps, wherever it is placed |
| Relocation.HandleRangeLoaded | kernel/dlinker.cpp:312-326 | the loop decides whether one load segment covers a nonempty range |
| Relocation.StoreInOneSegment | kernel/dlinker.cpp:1331-1349 | a relocation changes only bytes of its checked target range, and one load segment of the same object covers that range |
| Relocation.RelocatedConfined | kernel/dlinker.cpp:1331-1456 | entries of both tables change only bytes covered by the object's own load segments |
| Relocation.NumberReadsBack | kernel/dlinker.cpp:1351-1431 | what a kind of entry stores reads back undamaged from its place |
| Relocation.RelativeMeans | kernel/dlinker.cpp:1365-1367 | a relative entry leaves base plus addend modulo 2^64 at its place and changes nothing else; a resolver entry leaves what the resolver returned |
| Relocation.LongMeans | kernel/dlinker.cpp:1354-1426 | eight-byte kinds leave symbol plus addend, the symbol's address, its distance from the place, or its size plus addend, modulo 2^64, and change nothing else |
| Relocation.ShortMeans | kernel/dlinker.cpp:1388-1421 | four-byte kinds leave the same modulo 2^32 and change nothing else |
| Relocation.NothingStored | kernel/dlinker.cpp:1351-1353 | nothing is stored for an empty entry, for a kind that needs a symbol and has none, or for a copy of an undefined symbol |
| Relocation.RelocatedIff | kernel/dlinker.cpp:1331-1436 | an entry is accepted if and only if its place is loaded, its symbol exists, its kind is known and a strong symbol is defined |
| Relocation.LinkedMeans | kernel/dlinker.cpp:1439-1458 | an entry of the linkage table leaves its symbol's address at its place and changes nothing else; the exact condition for accepting it |
| Relocation.PcRelative | kernel/dlinker.cpp:1388-1406 | a program-counter relative field plus its own address is the symbol plus the addend |
| Relocation.CopyCopies | kernel/dlinker.cpp:1377-1387 | a copy relocation makes the target equal to the symbol's bytes |
| Loader.TiledDisjoint | kernel/dlinker.cpp:1150-1212 | images handed out one after the other are page aligned, inside the range and pairwise disjoint |
| LoaderSteps.SegmentShape | kernel/dlinker.cpp:328-357 | a mapped segment holds the file's bytes followed by zeros, and only its pages change |
| LoaderSteps.SegmentsFrame | kernel/dlinker.cpp:363-387 | mapping segments that do not wrap changes only the image |
| LoaderSteps.Load | kernel/dlinker.cpp:1100-1282 | a load is defined for every dependency graph, cycles included, because each nested load starts with strictly less of a finite window; no load gives room back |
| LoaderSteps.LoadedTwice | kernel/dlinker.cpp:1104-1117 | loading a path again gives the same object and changes only its reference count |
| LoaderFacts.LoadCounts | kernel/dlinker.cpp:1104-1117 | a new object starts with one reference; loading a listed path adds one to its count and changes nothing else |
| LoaderFacts.CycleNeverLoads | kernel/dlinker.cpp:1253-1278 | if every object with a path in a set needs one with a path in the set, none of them ever loads or is listed, from any state that lists none, however other libraries come in between |
| SampleFiles.SelfNeverLoads | kernel/dlinker.cpp:919-970 | where every file whose path contains its name is this one, it never loads from any state that lists none |
| SampleFiles.SelfAccepted | kernel/dlinker.cpp:246-310 | a concrete file of 242 bytes whose needed name leads back to it is accepted at every page of the kernel window, takes one page and does not wrap |
| SampleFiles.UsesUpWindow | kernel/dlinker.cpp:890-970 | loading it as a kernel module fails, lists nothing and leaves no room in the kernel window |
| SampleFiles.EndsModuleLoading | kernel/dlinker.cpp:1150-1282 | after that, whatever is loaded in between, only listed modules can be loaded |
| LoaderFacts.LastPickIsLast | kernel/dlinker.cpp:823-851 | of the entries of a kind in a dynamic table, or of those that name a readable string, the value taken is that of the last by position, and none exactly when there is no such entry |
| LoaderFacts.SymbolsAreLast | kernel/dlinker.cpp:823-851 | symbol table, string table and its size come from the last entries of their kinds wherever they stand |
| LoaderFacts.TablesAreLast | kernel/dlinker.cpp:1285-1316 | so do the relocation tables, their sizes and their form |
| LoaderFacts.TooManyIff | kernel/dlinker.cpp:893-900 | an object is refused for too many needs exactly when its table has more than 64 needed entries |
| LoaderFacts.StringMeans | kernel/dlinker.cpp:912-916 | a name is read exactly when it lies wholly inside the string table, terminator included |
| LoaderFacts.DescribedMeans | kernel/dlinker.cpp:1223-1250 | what a load records of an object: its tables and the search path named in its own string table |
| LoaderFacts.SearchPathIsLast | kernel/dlinker.cpp:1231-1250 | the search path is the last readable run path; only when no run path is readable it is the last readable library path |
| LoaderFacts.SoughtIsFirst | kernel/dlinker.cpp:931-953 | the path sought is the first of the candidates (the name itself, the module directory, the search path, the library directory) that is there, or the last one, cut to 383 bytes |
| LoaderFacts.NeededOnce | kernel/dlinker.cpp:919-970 | a needed library that was loaded under a path not cut counts as loaded from then on, whatever is loaded later |
| LoaderFacts.AllLoadedKeeps | kernel/dlinker.cpp:1100-1282 | over any loads listed objects stay listed in their order and no window gets room back |
| LoaderFacts.NoRoomForGood | kernel/dlinker.cpp:1150-1212 | once a window has no room, from then on exactly the listed paths can be loaded into it |
| LoaderSteps.RunConfined | kernel/dlinker.cpp:1331-1459 | a whole table, however it rewrites itself, changes only the object's own segments |
| LoaderFacts.EntryReads | kernel/dlinker.cpp:1333-1337 | a table entry is read as its offset, its kind and symbol packed in one word, and its addend |
| LoaderFacts.LinkageApplied | kernel/dlinker.cpp:1439-1459 | after a whole linkage table whose places do not overlap, every place holds the address found for its symbol |
| LoaderFacts.RelativeApplied | kernel/dlinker.cpp:1331-1367 | after a whole general table whose places do not overlap, every relative place holds base plus addend |
| LoaderFacts.LinkingApplied | kernel/dlinker.cpp:1285-1462 | the same after both tables of an object |
| LoaderFacts.LinkingRefuses | kernel/dlinker.cpp:1317-1328 | tables of another entry size or form, of a broken length or not loaded are refused before anything is stored |
| Loader.Linker.LoadSegment | kernel/dlinker.cpp:328-357 | the pages, bytes and zeros written are those of SegmentMapped |
| Loader.Linker.MapSegments | kernel/dlinker.cpp:363-387 | the loop maps as SegmentsMapped does, reports the distance between first and last byte, and fails exactly when there is nothing to load |
| Loader.Linker.RelocateTable | kernel/dlinker.cpp:1331-1459 | memory, clock and outcome are those of Run, also where it stops at a refused entry, and only the object's segments change |
| Loader.Linker.Relocate | kernel/dlinker.cpp:1285-1462 | on every outcome only the object's own segments change; memory and outcome are those of applying the two tables found, in order, if they are well formed and loaded |
| Loader.Linker.ReadSymbols | kernel/dlinker.cpp:823-851 | the loop takes the addresses given by the last entries of each kind, whatever came before |
| Loader.Linker.ReadSearchPath | kernel/dlinker.cpp:1231-1250 | the loop finds the string named by the last readable run path entry, or else by the last readable library path entry |
| Loader.Linker.FullPath | kernel/dlinker.cpp:931-953 | the result is the first candidate present when it was tried, or the last one, at most 383 bytes long, and ends in the needed name unless it was cut |
| Loader.Linker.IsLoaded | kernel/dlinker.cpp:919-928 | a dependency counts as loaded exactly when its name occurs in a listed path |
| Loader.Linker.Dependencies | kernel/dlinker.cpp:890-970 | finds or loads every needed library as Needs does, ends for every graph, keeps the state sound and writes only newly taken addresses |
| Loader.Linker.Load | kernel/dlinker.cpp:1100-1282 | state and result are those of LoaderSteps.Load; every load ends; images stay page aligned, disjoint and inside their window; listed objects have distinct images; memory changes only in newly taken addresses unless a segment wrapped |
| Loader.Linker.MapFile | kernel/dlinker.cpp:1150-1205 | a file is refused or mapped at the next free address as Mapped does, changing only its image unless the run is marked as spilled, which happens exactly at an accepted file with a wrapping segment |
| Loader.Linker.Take | kernel/dlinker.cpp:1207-1212 | the next free address moves past the image and all earlier objects lie below it |
| Loader.GrownKeeps | kernel/dlinker.cpp:1100-1282 | a load, with all it pulls in, changes no byte of any image placed before |
| Loader.Linker.LoadAll | kernel/dlinker.cpp:1100-1282 | over any sequence of loads the state is that of AllLoaded, images stay page aligned, disjoint and in their windows, and unless a segment wrapped every image keeps, from the request that placed it to the end, its bytes and every object its place in the list; with small files none wraps |
| AtomQueue.MaskIsModulo | kernel/atom_queue.cpp:54-73 | masking with a power of two less one is the remainder |
| AtomQueue.TestIsPower | kernel/atom_queue.cpp:27-28 | the creation test accepts exactly powers of two |
| AtomQueue.StepKeeps | kernel/atom_queue.cpp:54-73 | every single load, buffer access and store of either side keeps the ring's invariant |
| AtomQueue.RingIsFifo | kernel/atom_queue.cpp:54-73 | on every interleaving the bytes popped followed by those in the ring are the bytes pushed, and the ring holds at most size - 1 |
| AtomQueue.StepRefines | kernel/atom_queue.cpp:54-73 | each step is one append, one removal of the first byte, or no change of a bounded queue |
| AtomQueue.Refusals | kernel/atom_queue.cpp:54-68 | at its deciding load a push is refused exactly when the ring is full, a pop exactly when it is empty |
| AtomQueue.WriteOverwritesNothing | kernel/atom_queue.cpp:59 | a buffer write never lands on a byte still to be read |
| AtomQueue.Init | kernel/atom_queue.cpp:27-36 | a ring is created exactly for nonempty power-of-two buffers, and is empty |
| AtomQueue.Ring.Push | kernel/atom_queue.cpp:54-63 | an uninterrupted push appends unless the ring is full |
| AtomQueue.Ring.Pop | kernel/atom_queue.cpp:65-73 | an uninterrupted pop takes the oldest byte, -1 exactly when empty |
| LockQueue.AllTaken | kernel/lock_queue.cpp:139-153 | if every index below n is in use there are at least n nodes |
| LockQueue.Queue.constructor | kernel/lock_queue.cpp:59-74 | a new queue is empty and well formed |
| LockQueue.Queue.Append | kernel/lock_queue.cpp:4-24 | linking at the end keeps an acyclic doubly linked list of exactly size nodes and sets an unset cursor to the first |
| LockQueue.Queue.Unlink | kernel/lock_queue.cpp:222-238 | unlinking any node keeps the list, takes out exactly that item and moves the cursor to the next node, or the first |
| LockQueue.Queue.RemoveLocked | kernel/lock_queue.cpp:26-57 | the same with the item's pointer returned and an unset cursor set on the way |
| LockQueue.Queue.Publish | kernel/lock_queue.cpp:200-219 | a caller's node is appended under the next index, which then moves on; refused exactly when indices are used up |
| LockQueue.Queue.Enqueue | kernel/lock_queue.cpp:103-126 | the same with a fresh node |
| LockQueue.Queue.EnqueueRef | kernel/lock_queue.cpp:169-197 | the same, handing out the node |
| LockQueue.Queue.LowestFree | kernel/lock_queue.cpp:139-153 | the search ends with the least index not in use, at most the number of nodes |
| LockQueue.Queue.EnqueueLowest | kernel/lock_queue.cpp:128-167 | a fresh node is appended under that index and the next index stays above all |
| LockQueue.Queue.EnqueueId | kernel/lock_queue.cpp:240-267 | a chosen index is accepted exactly when it is not in use and not the failure value, and then a fresh node is appended under it |
| LockQueue.Queue.Get | kernel/lock_queue.cpp:269-286 | the pointer queued under an index, null when there is none |
| LockQueue.Queue.RemoveAt | kernel/lock_queue.cpp:288-306 | exactly the node with the index is taken out and its pointer returned, or nothing changes |
| LockQueue.Queue.RemoveData | kernel/lock_queue.cpp:308-326 | exactly the first node carrying the pointer is taken out, or nothing changes |
| LockQueue.Queue.RemoveNode | kernel/lock_queue.cpp:328-343 | exactly the given node is removed if it is queued, or nothing changes |
| LockQueue.Queue.DetachPreallocated | kernel/lock_queue.cpp:222-238 | the node comes back with cleared links exactly when it was queued |
| LockQueue.Queue.Dequeue | kernel/lock_queue.cpp:345-366 | the oldest node is taken out and its pointer returned; all others stay in order |
| LockQueue.Queue.Copy | kernel/lock_queue.cpp:368-415 | a well-formed second queue of fresh nodes with the same indices in order, copied pointers and an unset cursor |
| LockQueue.FirstInFirstOut | kernel/lock_queue.cpp:103-126 | over every sequence of enqueues and dequeues the pointers handed back followed by those queued are the pointers accepted, and queued nodes are numbered consecutively |
| LockQueue.Perform | kernel/lock_queue.cpp:103-126 | one enqueue or dequeue on a real queue is one step of the trace |
| LockQueue.RunCalls | kernel/lock_queue.cpp:103-126 | any sequence of calls made on a real queue of linked nodes leaves the items, the next index and the returned pointers of that trace, so pointers leave it in the order they came |
| ScreenCapture.RetireKeeps | kernel/screen_capture.cpp:66-83 | retirement keeps counters, flags and list in agreement |
| ScreenCapture.ActivateKeeps | kernel/screen_capture.cpp:95-117 | so does activation, which is refused exactly while mappings exist and the process is not secret already |
| ScreenCapture.RegisterMappingKeeps | kernel/screen_capture.cpp:139-153 | so does registering a mapping where no process is secret |
| ScreenCapture.RegisterMappingKeepsIff | kernel/screen_capture.cpp:139-153 | registering a mapping keeps the policy if and only if no process is secret, which is what holding the gate guarantees |
| ScreenCapture.InheritKeeps | kernel/screen_capture.cpp:155-173 | so does inheritance; the child has exactly its own and its parent's flags, and no secret appears from nowhere |
| ScreenCapture.ExitKeeps | kernel/screen_capture.cpp:175-189 | so does exit, after which the process is off the list |
| ScreenCapture.StepKeeps | kernel/screen_capture.cpp:95-189 | every atomic step of every thread, and every scheduling event, keeps the protocol's invariant |
| ScreenCapture.CountersExact | kernel/screen_capture.cpp:50-83 | in every interleaving the counters equal the numbers of flagged processes, which are the listed ones, once each, and are never both positive |
| ScreenCapture.NoSecretWhileCapturing | kernel/screen_capture.cpp:119-137 | in every interleaving no process is secret while a thread that passed begin holds the gate, and a capturing thread that can still run holds it |
| ScreenCapture.SecretLasts | kernel/screen_capture.cpp:95-117 | secrecy ends only by the process's teardown or after all its threads have stopped |
| ScreenCapture.MappingLasts | kernel/screen_capture.cpp:66-83 | a mapped process stays mapped until its own teardown or until all its threads have stopped |
| ScreenCapture.SecretComes | kernel/screen_capture.cpp:95-117 | a process becomes secret only by its own activation with no live mapping left, or as the child of a secret one |
| ScreenCapture.MappingComes | kernel/screen_capture.cpp:139-173 | a process becomes mapped only by its own capturing thread, or as the child of a mapped one |
| ScreenCapture.ActivatedIff | kernel/screen_capture.cpp:95-117 | activation takes effect if and only if every mapped process has finished or the process is secret already |
| ScreenCapture.CaptureGrantedIff | kernel/screen_capture.cpp:119-137 | the check under the gate lets a thread capture if and only if every secret process has finished |
| ScreenCapture.CallsTakeEffect | kernel/screen_capture.cpp:139-189 | a capturing thread's mapping is recorded and teardown leaves nothing of the process |
| ScreenCapture.FinishedStays | kernel/screen_capture.cpp:66-83 | a process that retirement may drop never runs again |
| ScreenList.Registry.RegisterLocked | kernel/screen_capture.cpp:50-55 | the intrusive list after registration is Register |
| ScreenList.Registry.ReleaseLocked | kernel/screen_capture.cpp:57-64 | flags and counters after release are Release |
| ScreenList.Registry.RetireStopped | kernel/screen_capture.cpp:66-83 | one walk over the list is Retire and keeps it linked, unrepeated and counted |
| ScreenList.Registry.Blocked | kernel/screen_capture.cpp:85-92 | the answer is whether a secret process is left after retirement |
| ScreenList.Registry.SetSecret | kernel/screen_capture.cpp:103-114 | the locked part of activation is Retire then Activate |
| ScreenList.Registry.AddMapping | kernel/screen_capture.cpp:139-153 | registering a mapping in memory is RegisterMapping in every state, and keeps the policy exactly when no process is secret |
| ScreenList.Registry.InheritFlags | kernel/screen_capture.cpp:155-173 | inheritance in memory is Inherit |
| ScreenList.Registry.ExitProcess | kernel/screen_capture.cpp:184-188 | the process is unlinked wherever it is and left without flags |
| Numbers.ReadDigits | kernel/krlibc.cpp:332-351 | the overflow flag is set exactly when the digits' mathematical value exceeds the limit; otherwise the value is exact |
| Numbers.ReadBase | kernel/krlibc.cpp:318-330 | a hexadecimal prefix is skipped only before a hexadecimal digit, and the base is settled |
| Numbers.StrToL | kernel/krlibc.cpp:291-364 | the result is the mathematical value of the digits clamped to 64 signed bits and the position behind them, or zero and the start when there is no number |
| Numbers.DigitsValue | kernel/krlibc.cpp:570-575 | the digits printed for a number have that number as their value |
| Numbers.NoLeadingZero | kernel/krlibc.cpp:570-575 | a positive number is printed without leading zeros |
| Numbers.CollectDigits | kernel/krlibc.cpp:570-575 | the digit loop never needs more than 64 of its 65 places |
| Numbers.WNumber | kernel/krlibc.cpp:537-613 | the loops write exactly the arranged field and report its length; bad bases write nothing |
| Numbers.WidthIsMaximum | kernel/krlibc.cpp:577-582 | the field has the requested width, or its content's if that is larger; a content of 2^64 places or more is padded as if 2^64 more were requested |
| Numbers.PaddingStands | kernel/krlibc.cpp:577-612 | padding goes behind a left-aligned number and otherwise in front of it, as zeros between prefix and digits or as spaces before the sign |
| Numbers.LetterCase | kernel/krlibc.cpp:570-575 | digits above nine are letters of the case asked for |
| Numbers.PrintThenParse | kernel/krlibc.cpp:291-613 | for every number, base, width, precision and flags, parsing what was printed gives the clamped number and ends behind its digits |
| Numbers.AutoBase | kernel/krlibc.cpp:318-330 | with base 0 the prefix that was printed tells the base, and the number comes back clamped |
| Numbers.LeadingSpace | kernel/krlibc.cpp:299-303 | each of the six white-space characters in front of a text is skipped |
| Numbers.RoundTripIff | kernel/krlibc.cpp:291-613 | the signed value comes back if and only if it was printed as signed or its top bit is clear |
| Numbers.UnsignedIsClamped | kernel/krlibc.cpp:359-364 | printed as unsigned, 2^63 comes back as the largest signed value |

## Left out

- Locks: spin locks, interrupt flags and memory barriers; each locked section is one atomic step, and the ring's loads and stores are sequentially consistent as the locked instructions make them.
- Registry null out-pointers: calls that only reject a null token or extent pointer are not modelled.
- The registry's question whether a disk supports flushing (driver/block_access.cpp:224-236).
- Device streams and frame buffers: only block devices are modelled, and user-pointer checks are one permission flag.
- Backend devices: a transfer that reports fewer sectors may leave each addressed byte old or new; other device behaviour is not modelled.
- Input method: wire versions, user copies, process launch, candidate windows and mode notices; modifier chords are one flag, and sequence and context numbers do not wrap.
- Input method engine authorization, apart from an attached session, is a parameter of each call.
- User store: path encoding, directory creation and account lookup are status parameters; the checksum is taken to detect every torn or foreign record.
- Save worker: creating the kernel thread and allocating memory succeed or fail freely; memory is a set of live identifiers.
- Red-black deletion and its fixup, transplant, iteration and printing.
- Memory allocation of list nodes and queue nodes always succeeds in the models of the index and of the linked queue.
- Loader memory: one flat address space in which every address can be read and written; page directories, page flags, page faults and freeing of files are not modelled, and a table scan that never meets its terminator ends at the top of memory.
- Loader symbols: symbol counts, export tables and symbol resolution are answers from outside, one per question; finalizers, unloading and the dependency arrays are not modelled.
- Initializers, indirect-function resolvers and module entry points are foreign code taken to change no modelled memory.
- ATOM ring size counter and the multi-producer ring: the counter is racy and the compare-and-swap never reports its result.
- LockQueue.Queue.Publish: a node that is already queued is excluded while indices are left, since linking it again would cut the list off behind it; its callers hand over newly allocated or detached nodes (kernel/task/pcb.cpp:3010-3017, kernel/task/kernel_worker.cpp:67-73).
- Destroying and iterating a queue.
- Screen capture: kernel threads, which the calls reject, and the notice sent to the user; a mapping is registered only by a thread that holds the gate after begin, as the source requires of its callers.
- Numbers: null strings and writers, the writer's callback, and the other format conversions.
- String, path and memory helpers, drawing, audio, network, installer and power code.
