/**
  The one-job asynchronous save worker: any number of clients publish jobs under a spin
  lock while a single worker thread takes, runs and completes them. Each constructor of
  Move is one atomic step, so a run is any interleaving.
 */
module SaveWorker {
  import opened Common

  type Id = nat

  datatype Progress = Queued | Running | Complete

  /** A published job record; `buffer` is the data it owns until the worker frees it. */
  datatype Job = Job(state: Progress, buffer: Option<Id>)

  /** Where a client stands inside `queue_save`; `buffer` is the incoming data. */
  datatype Client =
    | Creating(buffer: Id)
    | Allocating(buffer: Id)
    | Publishing(job: Id, buffer: Id)
    | Replacing(previous: Option<Id>)
    | Refused(buffer: Id)
    | Finished

  datatype Worker = Absent | Idle | Busy(job: Id) | Ran(job: Id) | Freed(job: Id)

  datatype Starting = Stopped | Starting | Ready

  datatype State = State(
    starting: Starting,
    slot: Option<Id>,                 // save_job
    jobs: map<Id, Job>,               // allocated job records
    buffers: set<Id>,                 // allocated data buffers
    clients: map<Id, Client>,
    worker: Worker,
    accepted: set<Id>,                // jobs ever put into the slot
    runs: map<Id, nat>,               // transactions run for each job ever allocated
    next: Id)                         // fresh identities for clients, jobs and buffers

  datatype Move =
    | Enter                           // a client calls queue_save with a fresh buffer
    | CreateWorker(client: Id, created: bool)
    | Allocate(client: Id, granted: bool)
    | Publish(client: Id)
    | FreeOld(client: Id)
    | Reject(client: Id)              // the caller frees the refused buffer
    | Poll                            // store_status reads the published job
    | Take
    | Execute
    | FreeData
    | Conclude

  const INITIAL := State(Stopped, None, map[], {}, map[], Absent, {}, map[], 0)

  /** The memory a move reads or writes through a pointer, besides what it allocates. */
  function Touches(s: State, m: Move): set<Id> {
    match m
    case Publish(c) =>
      if c in s.clients && s.clients[c].Publishing? then
        {s.clients[c].job} + (if s.slot.Some? then {s.slot.value} else {})
      else {}
    case FreeOld(c) =>
      if c in s.clients && s.clients[c].Replacing? && s.clients[c].previous.Some? then {s.clients[c].previous.value}
      else {}
    case Poll => if s.slot.Some? then {s.slot.value} else {}
    case Take => if s.slot.Some? then {s.slot.value} else {}
    case Execute => if s.worker.Busy? then {s.worker.job} else {}
    case FreeData => if s.worker.Ran? then {s.worker.job} else {}
    case Conclude => if s.worker.Freed? then {s.worker.job} else {}
    case _ => {}
  }

  /** Whether a move can be made: its actor stands at that step. */
  predicate Enabled(s: State, m: Move) {
    match m
    case Enter => true
    case Poll => true
    case CreateWorker(c, _) => c in s.clients && s.clients[c].Creating?
    case Allocate(c, _) => c in s.clients && s.clients[c].Allocating?
    case Publish(c) => c in s.clients && s.clients[c].Publishing?
    case FreeOld(c) => c in s.clients && s.clients[c].Replacing?
    case Reject(c) => c in s.clients && s.clients[c].Refused?
    case Take => s.worker.Idle?
    case Execute => s.worker.Busy?
    case FreeData => s.worker.Ran?
    case Conclude => s.worker.Freed?
  }

  function Next(s: State, m: Move): State
    requires Enabled(s, m) && Touches(s, m) <= s.jobs.Keys
    requires m.FreeData? ==> s.jobs[s.worker.job].buffer.Some?
  {
    match m
    case Enter =>
      var buffer := s.next;
      var c := s.next + 1;
      var t := s.(buffers := s.buffers + {buffer}, next := s.next + 2);
      if s.starting == Stopped then t.(starting := Starting, clients := s.clients[c := Creating(buffer)])
      else if s.starting == Ready then t.(clients := s.clients[c := Allocating(buffer)])
      else t.(clients := s.clients[c := Refused(buffer)])
    case CreateWorker(c, created) =>
      var buffer := s.clients[c].buffer;
      if created then s.(starting := Ready, worker := if s.worker.Absent? then Idle else s.worker,
                         clients := s.clients[c := Allocating(buffer)])
      else s.(starting := Stopped, clients := s.clients[c := Refused(buffer)])
    case Allocate(c, granted) =>
      var buffer := s.clients[c].buffer;
      if granted then
        s.(jobs := s.jobs[s.next := Job(Queued, Some(buffer))], runs := s.runs[s.next := 0],
           clients := s.clients[c := Publishing(s.next, buffer)], next := s.next + 1)
      else s.(clients := s.clients[c := Refused(buffer)])
    case Publish(c) =>
      var Publishing(job, buffer) := s.clients[c];
      if s.slot.Some? && s.jobs[s.slot.value].state != Complete then
        s.(jobs := s.jobs - {job}, clients := s.clients[c := Refused(buffer)])
      else
        s.(slot := Some(job), accepted := s.accepted + {job}, clients := s.clients[c := Replacing(s.slot)])
    case FreeOld(c) =>
      var previous := s.clients[c].previous;
      s.(jobs := if previous.Some? then s.jobs - {previous.value} else s.jobs, clients := s.clients[c := Finished])
    case Reject(c) =>
      s.(buffers := s.buffers - {s.clients[c].buffer}, clients := s.clients[c := Finished])
    case Poll => s
    case Take =>
      if s.slot.Some? && s.jobs[s.slot.value].state == Queued then
        s.(jobs := s.jobs[s.slot.value := s.jobs[s.slot.value].(state := Running)], worker := Busy(s.slot.value))
      else s
    case Execute =>
      var j := s.worker.job;
      s.(runs := s.runs[j := (if j in s.runs then s.runs[j] else 0) + 1], worker := Ran(j))
    case FreeData =>
      var j := s.worker.job;
      s.(buffers := s.buffers - {s.jobs[j].buffer.value}, worker := Freed(j))
    case Conclude =>
      var j := s.worker.job;
      s.(jobs := s.jobs[j := Job(Complete, None)], worker := Idle)
  }

  // ---------------------------------------------------------------- invariant

  predicate Holds(c: Client) { c.Creating? || c.Allocating? || c.Publishing? || c.Refused? }

  function InHand(s: State): Option<Id> {
    if s.worker.Busy? || s.worker.Ran? || s.worker.Freed? then Some(s.worker.job) else None
  }

  predicate Fresh(s: State) {
    && (forall j :: j in s.jobs ==> j < s.next) && (forall b :: b in s.buffers ==> b < s.next)
    && (forall c :: c in s.clients ==> c < s.next) && (forall j :: j in s.accepted ==> j < s.next)
    && (forall j :: j in s.runs ==> j < s.next)
  }

  /** At most one thread creates the worker, and it exists exactly once creation succeeded. */
  predicate OneWorker(s: State) {
    && (s.worker.Absent? <==> s.starting != Ready)
    && (forall c :: c in s.clients && s.clients[c].Creating? ==> s.starting == Starting)
    && (forall c, d :: c in s.clients && d in s.clients && s.clients[c].Creating? && s.clients[d].Creating? ==> c == d)
  }

  /** The slot holds the only accepted job that is not complete, and the worker works on nothing else. */
  predicate SlotOk(s: State) {
    && (s.slot.Some? ==> s.slot.value in s.jobs && s.slot.value in s.accepted)
    && (forall j :: j in s.jobs && j in s.accepted && s.slot != Some(j) ==> s.jobs[j].state == Complete)
    && (InHand(s).Some? ==> s.slot == InHand(s))
    && (s.slot.Some? && s.slot.value in s.jobs ==> (s.jobs[s.slot.value].state == Running <==> InHand(s) == s.slot))
  }

  predicate ClientOk(s: State, c: Client) {
    && (Holds(c) ==> c.buffer in s.buffers)
    && (c.Publishing? ==> c.job in s.jobs && c.job !in s.accepted && s.jobs[c.job] == Job(Queued, Some(c.buffer)))
    && (c.Replacing? && c.previous.Some? ==>
          var j := c.previous.value; j in s.jobs && j in s.accepted && s.jobs[j].state == Complete && s.slot != Some(j))
  }

  /** No two clients own one buffer, one unpublished job or one replaced job. */
  predicate Apart(c: Client, d: Client) {
    && (Holds(c) && Holds(d) ==> c.buffer != d.buffer)
    && (c.Publishing? && d.Publishing? ==> c.job != d.job)
    && (c.Replacing? && d.Replacing? && c.previous.Some? ==> c.previous != d.previous)
  }

  predicate ClientsOk(s: State) {
    && (forall c :: c in s.clients ==> ClientOk(s, s.clients[c]))
    && (forall c, d :: c in s.clients && d in s.clients && c != d ==> Apart(s.clients[c], s.clients[d]))
  }

  /** The buffer of the job in the slot, until the worker frees it. */
  function SlotBuffer(s: State): Option<Id> {
    if s.slot.Some? && s.slot.value in s.jobs && !(s.worker.Freed? && s.worker.job == s.slot.value)
    then s.jobs[s.slot.value].buffer else None
  }

  predicate BuffersOk(s: State) {
    && (SlotBuffer(s).Some? ==> SlotBuffer(s).value in s.buffers)
    && (forall c :: c in s.clients && Holds(s.clients[c]) ==> SlotBuffer(s) != Some(s.clients[c].buffer))
    && (s.slot.Some? && s.slot.value in s.jobs ==>
          (s.jobs[s.slot.value].buffer.Some? <==> s.jobs[s.slot.value].state != Complete))
  }

  predicate Owns(s: State, c: Id, b: Id) { c in s.clients && Holds(s.clients[c]) && s.clients[c].buffer == b }

  /** Every live buffer still has somebody who will free it. */
  ghost predicate Accounted(s: State) {
    forall b :: b in s.buffers ==> SlotBuffer(s) == Some(b) || exists c :: Owns(s, c, b)
  }

  /** A job has been run exactly when the worker has passed it. */
  predicate RunsOk(s: State) {
    && (forall j :: j in s.accepted ==> j in s.runs) && (forall j :: j in s.jobs ==> j in s.runs)
    && (forall j :: j in s.runs ==>
          s.runs[j] == if j !in s.accepted then 0
                       else if j !in s.jobs then 1
                       else if s.jobs[j].state == Complete then 1
                       else if (s.worker.Ran? || s.worker.Freed?) && s.worker.job == j then 1 else 0)
  }

  predicate Inv(s: State) {
    Fresh(s) && OneWorker(s) && SlotOk(s) && ClientsOk(s) && BuffersOk(s) && RunsOk(s)
  }

  /** No move follows a freed job or frees a freed buffer. */
  lemma MovesAreSafe(s: State, m: Move)
    requires Inv(s) && Enabled(s, m)
    ensures Touches(s, m) <= s.jobs.Keys
    ensures m.FreeData? ==> s.jobs[s.worker.job].buffer.Some? && s.jobs[s.worker.job].buffer.value in s.buffers
    ensures m.Reject? ==> s.clients[m.client].buffer in s.buffers
  {
    match m
    case Publish(c) => assert ClientOk(s, s.clients[c]);
    case FreeOld(c) => assert ClientOk(s, s.clients[c]);
    case Reject(c) => assert ClientOk(s, s.clients[c]);
    case Execute => assert s.slot == InHand(s);
    case FreeData => assert s.slot == InHand(s);
    case Conclude => assert s.slot == InHand(s);
    case _ =>
  }

  lemma EnterInv(s: State)
    requires Inv(s)
    ensures Inv(Next(s, Enter))
  {
    hide Fresh;
    hide OneWorker;
    hide SlotOk;
    hide ClientsOk;
    hide BuffersOk;
    hide RunsOk;
    EnterClients(s);
    EnterBuffers(s);
    EnterOthers(s);
  }

  lemma EnterOthers(s: State)
    requires Inv(s)
    ensures var t := Next(s, Enter); Fresh(t) && OneWorker(t) && SlotOk(t) && RunsOk(t)
  {}

  lemma EnterClients(s: State)
    requires Inv(s)
    ensures ClientsOk(Next(s, Enter))
  {}

  lemma EnterBuffers(s: State)
    requires Inv(s)
    ensures BuffersOk(Next(s, Enter))
  {}

  lemma CreateWorkerInv(s: State, c: Id, created: bool)
    requires Inv(s) && Enabled(s, CreateWorker(c, created))
    ensures Inv(Next(s, CreateWorker(c, created)))
  {}

  lemma AllocateInv(s: State, c: Id, granted: bool)
    requires Inv(s) && Enabled(s, Allocate(c, granted))
    ensures Inv(Next(s, Allocate(c, granted)))
  {
    hide Fresh;
    hide OneWorker;
    hide SlotOk;
    hide ClientsOk;
    hide BuffersOk;
    hide RunsOk;
    AllocateClients(s, c, granted);
    AllocateBuffers(s, c, granted);
    AllocateOthers(s, c, granted);
  }

  lemma AllocateOthers(s: State, c: Id, granted: bool)
    requires Inv(s) && Enabled(s, Allocate(c, granted))
    ensures var t := Next(s, Allocate(c, granted)); Fresh(t) && OneWorker(t) && SlotOk(t) && RunsOk(t)
  {}

  lemma AllocateClients(s: State, c: Id, granted: bool)
    requires Inv(s) && Enabled(s, Allocate(c, granted))
    ensures ClientsOk(Next(s, Allocate(c, granted)))
  {}

  lemma AllocateBuffers(s: State, c: Id, granted: bool)
    requires Inv(s) && Enabled(s, Allocate(c, granted))
    ensures BuffersOk(Next(s, Allocate(c, granted)))
  {}

  lemma PublishInv(s: State, c: Id)
    requires Inv(s) && Enabled(s, Publish(c)) && Touches(s, Publish(c)) <= s.jobs.Keys
    ensures Inv(Next(s, Publish(c)))
  {
    assert ClientOk(s, s.clients[c]);
    if s.slot.Some? && s.jobs[s.slot.value].state != Complete {
      PublishRefusedInv(s, c);
    } else {
      PublishAcceptedInv(s, c);
    }
  }

  lemma PublishRefusedInv(s: State, c: Id)
    requires Inv(s) && Enabled(s, Publish(c)) && Touches(s, Publish(c)) <= s.jobs.Keys
    requires s.slot.Some? && s.jobs[s.slot.value].state != Complete
    ensures Inv(Next(s, Publish(c)))
  {}

  lemma PublishAcceptedInv(s: State, c: Id)
    requires Inv(s) && Enabled(s, Publish(c)) && Touches(s, Publish(c)) <= s.jobs.Keys
    requires s.slot.Some? ==> s.jobs[s.slot.value].state == Complete
    ensures Inv(Next(s, Publish(c)))
  {}

  lemma FreeOldInv(s: State, c: Id)
    requires Inv(s) && Enabled(s, FreeOld(c)) && Touches(s, FreeOld(c)) <= s.jobs.Keys
    ensures Inv(Next(s, FreeOld(c)))
  {
    hide Fresh;
    hide OneWorker;
    hide SlotOk;
    hide ClientsOk;
    hide BuffersOk;
    hide RunsOk;
    FreeOldClients(s, c);
    FreeOldOthers(s, c);
  }

  lemma FreeOldClients(s: State, c: Id)
    requires Inv(s) && Enabled(s, FreeOld(c)) && Touches(s, FreeOld(c)) <= s.jobs.Keys
    ensures ClientsOk(Next(s, FreeOld(c))) && BuffersOk(Next(s, FreeOld(c)))
  {}

  lemma FreeOldOthers(s: State, c: Id)
    requires Inv(s) && Enabled(s, FreeOld(c)) && Touches(s, FreeOld(c)) <= s.jobs.Keys
    ensures var t := Next(s, FreeOld(c)); Fresh(t) && OneWorker(t) && SlotOk(t) && RunsOk(t)
  {}

  lemma RejectInv(s: State, c: Id)
    requires Inv(s) && Enabled(s, Reject(c))
    ensures Inv(Next(s, Reject(c)))
  {}

  lemma TakeInv(s: State)
    requires Inv(s) && Enabled(s, Take) && Touches(s, Take) <= s.jobs.Keys
    ensures Inv(Next(s, Take))
  {}

  lemma ExecuteInv(s: State)
    requires Inv(s) && Enabled(s, Execute) && Touches(s, Execute) <= s.jobs.Keys
    ensures Inv(Next(s, Execute))
  {}

  lemma FreeDataInv(s: State)
    requires Inv(s) && Enabled(s, FreeData) && Touches(s, FreeData) <= s.jobs.Keys && s.jobs[s.worker.job].buffer.Some?
    ensures Inv(Next(s, FreeData))
  {}

  lemma ConcludeInv(s: State)
    requires Inv(s) && Enabled(s, Conclude) && Touches(s, Conclude) <= s.jobs.Keys
    ensures Inv(Next(s, Conclude))
  {}

  /** A move keeps every live buffer owned. */
  lemma AccountedStep(s: State, m: Move)
    requires Inv(s) && Accounted(s) && Enabled(s, m) && Touches(s, m) <= s.jobs.Keys
    requires m.FreeData? ==> s.jobs[s.worker.job].buffer.Some?
    ensures Accounted(Next(s, m))
  {
    var t := Next(s, m);
    forall b | b in t.buffers ensures SlotBuffer(t) == Some(b) || exists c :: Owns(t, c, b) {
      if m.Enter? && b == s.next {
        assert Owns(t, s.next + 1, b);
      } else if SlotBuffer(s) == Some(b) {
        StillInSlot(s, m, b);
      } else {
        var c :| Owns(s, c, b);
        StillOwned(s, m, b, c);
      }
    }
  }

  lemma StillInSlot(s: State, m: Move, b: Id)
    requires Inv(s) && Enabled(s, m) && Touches(s, m) <= s.jobs.Keys && SlotBuffer(s) == Some(b)
    requires m.FreeData? ==> s.jobs[s.worker.job].buffer.Some?
    requires b in Next(s, m).buffers
    ensures SlotBuffer(Next(s, m)) == Some(b)
  {}

  lemma StillOwned(s: State, m: Move, b: Id, c: Id)
    requires Inv(s) && Enabled(s, m) && Touches(s, m) <= s.jobs.Keys && Owns(s, c, b)
    requires m.FreeData? ==> s.jobs[s.worker.job].buffer.Some?
    requires b in Next(s, m).buffers
    ensures Owns(Next(s, m), c, b) || SlotBuffer(Next(s, m)) == Some(b)
  {
    assert ClientOk(s, s.clients[c]);
  }

  // --------------------------------------------------------------------- runs

  lemma StepInv(s: State, m: Move)
    requires Inv(s) && Enabled(s, m)
    ensures Touches(s, m) <= s.jobs.Keys && (m.FreeData? ==> s.jobs[s.worker.job].buffer.Some?)
    ensures Inv(Next(s, m))
  {
    hide Inv;
    MovesAreSafe(s, m);
    match m
    case Enter => EnterInv(s);
    case Poll =>
    case CreateWorker(c, created) => CreateWorkerInv(s, c, created);
    case Allocate(c, granted) => AllocateInv(s, c, granted);
    case Publish(c) => PublishInv(s, c);
    case FreeOld(c) => FreeOldInv(s, c);
    case Reject(c) => RejectInv(s, c);
    case Take => TakeInv(s);
    case Execute => ExecuteInv(s);
    case FreeData => FreeDataInv(s);
    case Conclude => ConcludeInv(s);
  }

  /** Any interleaving: a move whose actor is elsewhere does nothing. */
  function Exec(s: State, run: seq<Move>): (t: State)
    requires Inv(s)
    ensures Inv(t)
    decreases |run|
  {
    if run == [] then s
    else if Enabled(s, run[0]) then
      StepInv(s, run[0]);
      Exec(Next(s, run[0]), run[1..])
    else Exec(s, run[1..])
  }

  /** What a status call reports about the published job. */
  predicate ReportsPending(s: State) {
    s.slot.Some? && s.slot.value in s.jobs && s.jobs[s.slot.value].state != Complete
  }

  /**
    A published job reported as done has been run and left by the worker; one reported pending still has its
    data record.
   */
  lemma StatusIsTruthful(run: seq<Move>)
    ensures var s := Exec(INITIAL, run);
            s.slot.Some? ==>
              && s.slot.value in s.jobs && s.slot.value in s.runs
              && (if ReportsPending(s) then s.jobs[s.slot.value].buffer.Some?
                  else s.runs[s.slot.value] == 1 && InHand(s) != s.slot)
  {}

  lemma {:induction false} RunAccounted(s: State, run: seq<Move>)
    requires Inv(s) && Accounted(s)
    ensures Accounted(Exec(s, run))
    decreases |run|
  {
    hide Inv;
    if run != [] {
      if Enabled(s, run[0]) {
        StepInv(s, run[0]);
        AccountedStep(s, run[0]);
        RunAccounted(Next(s, run[0]), run[1..]);
      } else {
        RunAccounted(s, run[1..]);
      }
    }
  }

  /** In every interleaving each accepted job is run once and only once, and a refused one never. */
  lemma EachJobRunsOnce(run: seq<Move>, j: Id)
    ensures var s := Exec(INITIAL, run);
            && (j in s.runs ==> s.runs[j] <= 1)
            && (j in s.accepted && (j !in s.jobs || s.jobs[j].state == Complete) ==> j in s.runs && s.runs[j] == 1)
            && (j in s.runs && j !in s.accepted ==> s.runs[j] == 0)
  {}

  /** Once every caller has returned and the worker is idle with nothing queued, every buffer has been freed. */
  lemma NothingLeaks(run: seq<Move>)
    requires var s := Exec(INITIAL, run);
             && (forall c :: c in s.clients ==> s.clients[c].Finished?)
             && (s.slot.Some? && s.slot.value in s.jobs ==> s.jobs[s.slot.value].state == Complete)
    ensures Exec(INITIAL, run).buffers == {}
  {
    RunAccounted(INITIAL, run);
    var s := Exec(INITIAL, run);
    forall b: Id ensures b !in s.buffers {
      assert forall c :: !Owns(s, c, b);
    }
  }
}
