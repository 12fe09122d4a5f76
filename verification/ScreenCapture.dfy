/**
  Screen-capture exclusion: a process that declared itself secret is never captured, and a
  capture in progress keeps processes from becoming secret. The policy is first given as
  functions on its state, then run by any number of threads whose steps interleave.
 */
module ScreenCapture {
  import opened Common

  // ------------------------------------------------------------------- policy

  /** The registered list, the per-process flags and the two counters. */
  datatype Policy<!P> = Policy(list: seq<P>, secret: set<P>, mapped: set<P>, secrets: int, maps: int)

  ghost predicate NoDup<P>(s: seq<P>) { forall i, j | 0 <= i < j < |s| :: s[i] != s[j] }

  /** The counters count the flagged processes, which are exactly those listed, once each; never both kinds. */
  ghost predicate PolicyOk<P>(s: Policy<P>) {
    && NoDup(s.list) && (forall p <- s.list :: p in s.secret + s.mapped)
    && (forall p <- s.secret + s.mapped :: p in s.list)
    && s.secrets == |s.secret| && s.maps == |s.mapped|
    && (s.secret == {} || s.mapped == {})
  }

  function Register<P(==)>(s: Policy<P>, p: P): Policy<P> {
    if p in s.secret || p in s.mapped then s else s.(list := [p] + s.list)
  }

  function Release<P(==)>(s: Policy<P>, p: P): Policy<P> {
    Policy(s.list, s.secret - {p}, s.mapped - {p}, if p in s.secret then s.secrets - 1 else s.secrets,
           if p in s.mapped then s.maps - 1 else s.maps)
  }

  /** The list without the processes of a set. */
  function Outside<P(==)>(list: seq<P>, gone: set<P>): (r: seq<P>)
    ensures (forall p <- r :: p in list && p !in gone) && forall p <- list :: p !in gone ==> p in r
  {
    if list == [] then []
    else if list[0] in gone then Outside(list[1..], gone)
    else [list[0]] + Outside(list[1..], gone)
  }

  /** Drops every stopped process, with its flags and its share of the counters. */
  function Retire<P(==)>(s: Policy<P>, stopped: set<P>): Policy<P> {
    Policy(Outside(s.list, stopped), s.secret - stopped, s.mapped - stopped, |s.secret - stopped|, |s.mapped - stopped|)
  }

  function TakeSecret<P(==)>(s: Policy<P>, yes: bool, p: P): Policy<P> {
    if yes && p !in s.secret then s.(secret := s.secret + {p}, secrets := s.secrets + 1) else s
  }

  function TakeMapped<P(==)>(s: Policy<P>, yes: bool, p: P): Policy<P> {
    if yes && p !in s.mapped then s.(mapped := s.mapped + {p}, maps := s.maps + 1) else s
  }

  datatype Answer = Granted | Busy

  /** Activation, after retirement: granted again to a secret process, refused while raw mappings exist. */
  function Activate<P(==)>(s: Policy<P>, p: P): (Policy<P>, Answer) {
    if p in s.secret then (s, Granted)
    else if s.maps != 0 then (s, Busy)
    else (TakeSecret(Register(s, p), true, p), Granted)
  }

  function RegisterMapping<P(==)>(s: Policy<P>, p: P): Policy<P> {
    if p in s.mapped then s else TakeMapped(Register(s, p), true, p)
  }

  /** A child is registered if its parent is flagged, and takes over the parent's flags. */
  function Inherit<P(==)>(s: Policy<P>, parent: P, child: P): Policy<P> {
    var r := if parent in s.secret || parent in s.mapped then Register(s, child) else s;
    TakeMapped(TakeSecret(r, parent in s.secret, child), parent in s.mapped, child)
  }

  /** Exit takes the process off the list and drops its flags. */
  function Exit<P(==)>(s: Policy<P>, p: P): Policy<P> {
    Release(s.(list := Outside(s.list, {p})), p)
  }

  // ------------------------------------------------- the policy keeps its shape

  lemma {:induction false} OutsideNoDup<P>(list: seq<P>, gone: set<P>)
    requires NoDup(list)
    ensures NoDup(Outside(list, gone))
  {
    if list != [] {
      OutsideNoDup(list[1..], gone);
      assert list[0] !in list[1..];
    }
  }

  lemma RetireKeeps<P>(s: Policy<P>, stopped: set<P>)
    requires PolicyOk(s)
    ensures PolicyOk(Retire(s, stopped))
  {
    OutsideNoDup(s.list, stopped);
  }

  lemma RegisterNew<P>(s: Policy<P>, p: P)
    requires PolicyOk(s) && p !in s.secret && p !in s.mapped
    ensures NoDup(Register(s, p).list)
  {
    assert p !in s.list;
  }

  lemma ActivateKeeps<P>(s: Policy<P>, p: P)
    requires PolicyOk(s)
    ensures PolicyOk(Activate(s, p).0)
    ensures Activate(s, p).1 == Granted <==> p in Activate(s, p).0.secret
    ensures Activate(s, p).1 == Busy <==> s.mapped != {}  && p !in s.secret
  {
    if p !in s.secret && p !in s.mapped { RegisterNew(s, p); }
  }

  /** A mapping may be registered only where no process is secret. */
  lemma RegisterMappingKeeps<P>(s: Policy<P>, p: P)
    requires PolicyOk(s) && s.secret == {}
    ensures PolicyOk(RegisterMapping(s, p)) && p in RegisterMapping(s, p).mapped && RegisterMapping(s, p).secret == {}
  {
    if p !in s.mapped { RegisterNew(s, p); }
  }

  /** Without the gate's protection a mapping would break the policy exactly when some process is secret. */
  lemma RegisterMappingKeepsIff<P>(s: Policy<P>, p: P)
    requires PolicyOk(s)
    ensures PolicyOk(RegisterMapping(s, p)) <==> s.secret == {}
  {
    if s.secret == {} {
      RegisterMappingKeeps(s, p);
    } else {
      assert s.mapped == {};
      assert p in RegisterMapping(s, p).mapped;
    }
  }

  lemma InheritKeeps<P>(s: Policy<P>, parent: P, child: P)
    requires PolicyOk(s)
    ensures PolicyOk(Inherit(s, parent, child))
    ensures s.secret == {} ==> Inherit(s, parent, child).secret == {}
    ensures child in Inherit(s, parent, child).secret <==> child in s.secret || parent in s.secret
    ensures child in Inherit(s, parent, child).mapped <==> child in s.mapped || parent in s.mapped
  {
    if child !in s.secret && child !in s.mapped { RegisterNew(s, child); }
  }

  lemma ExitKeeps<P>(s: Policy<P>, p: P)
    requires PolicyOk(s)
    ensures PolicyOk(Exit(s, p)) && p !in Exit(s, p).list && (s.secret == {} ==> Exit(s, p).secret == {})
  {
    OutsideNoDup(s.list, {p});
  }

  // ------------------------------------------------------------------ threads

  /** Where a thread is inside the capture calls. */
  datatype Place =
    | Elsewhere
    | WantsSecret      // waits for the gate to become secret
    | ActivatesSecret  // holds the gate, about to change the policy
    | LeavesSecret     // holds the gate, about to release it
    | ChecksFirst      // looks before waiting
    | WantsCapture     // waits for the gate to capture
    | ChecksAgain      // holds the gate, looks again
    | GivesUp          // holds the gate, about to release it
    | Capturing        // holds the gate, begin returned success

  predicate Holds(p: Place) { p in {ActivatesSecret, LeavesSecret, ChecksAgain, GivesUp, Capturing} }

  /** The machine: the policy, the gate's owner, and which threads and processes run or are finished. */
  datatype World = World(policy: Policy<nat>, gate: Option<nat>, at: map<nat, Place>,
                         cpu: set<nat>, dead: set<nat>, terminal: set<nat>)

  function At(w: World, t: nat): Place { if t in w.at then w.at[t] else Elsewhere }

  function Move(w: World, t: nat, p: Place): World { w.(at := w.at[t := p]) }

  /** A thread that is over and off every processor; it never runs again. */
  predicate Stopped(w: World, t: nat) { t in w.dead && t !in w.cpu }

  /** Processes that are over and have no thread on a processor. */
  function Finished(w: World, group: nat -> nat): (r: set<nat>)
    ensures forall p :: p in r <==> p in w.terminal && forall t <- w.cpu :: group(t) != p
  {
    set p | p in w.terminal && forall t <- w.cpu :: group(t) != p
  }

  datatype Step =
    | Schedule(t: nat) | Deschedule(t: nat) | EndThread(t: nat) | EndProcess(p: nat)
    | BeginSecret(t: nat) | BeginCapture(t: nat) | CheckFirst(t: nat) | Acquire(t: nat)
    | ActivateSecret(t: nat) | CheckAgain(t: nat) | Unlock(t: nat) | AddMapping(t: nat)
    | Fork(t: nat, child: nat) | AbortGate(p: nat) | ReleaseProcess(p: nat)

  /**
    Acquiring the gate: a free one is taken, one left by a stopped thread is taken over, a second acquisition
    fails.
   */
  function Acquired(w: World, t: nat): World {
    if !(At(w, t) == WantsSecret || At(w, t) == WantsCapture) then w
    else if w.gate == Some(t) then Move(w, t, Elsewhere)
    else if w.gate.Some? && !Stopped(w, w.gate.value) then w
    else Move(w.(gate := Some(t)), t, if At(w, t) == WantsSecret then ActivatesSecret else ChecksAgain)
  }

  function Unlocked(w: World, t: nat): World {
    if At(w, t) !in {LeavesSecret, GivesUp, Capturing} then w
    else Move(if w.gate == Some(t) then w.(gate := None) else w, t, Elsewhere)
  }

  function Checked(w: World, group: nat -> nat, t: nat, yes: Place, no: Place): World {
    var r := w.(policy := Retire(w.policy, Finished(w, group)));
    Move(r, t, if r.policy.secrets != 0 then no else yes)
  }

  /** One atomic step. Only threads on a processor act; finished ones are never put on one again. */
  function Next(w: World, group: nat -> nat, s: Step): World {
    match s
    case Schedule(t) => if t in w.dead || group(t) in w.terminal then w else w.(cpu := w.cpu + {t})
    case Deschedule(t) => w.(cpu := w.cpu - {t})
    case EndThread(t) => w.(dead := w.dead + {t})
    case EndProcess(p) => w.(terminal := w.terminal + {p})
    case BeginSecret(t) =>
      if t in w.cpu && At(w, t) == Elsewhere && group(t) !in w.terminal then Move(w, t, WantsSecret) else w
    case BeginCapture(t) =>
      if t in w.cpu && At(w, t) == Elsewhere && group(t) !in w.terminal then Move(w, t, ChecksFirst) else w
    case CheckFirst(t) =>
      if t in w.cpu && At(w, t) == ChecksFirst then Checked(w, group, t, WantsCapture, Elsewhere) else w
    case Acquire(t) => if t in w.cpu then Acquired(w, t) else w
    case ActivateSecret(t) =>
      if t in w.cpu && At(w, t) == ActivatesSecret
      then Move(w.(policy := Activate(Retire(w.policy, Finished(w, group)), group(t)).0), t, LeavesSecret)
      else w
    case CheckAgain(t) => if t in w.cpu && At(w, t) == ChecksAgain then Checked(w, group, t, Capturing, GivesUp) else w
    case Unlock(t) => if t in w.cpu then Unlocked(w, t) else w
    case AddMapping(t) =>
      if t in w.cpu && At(w, t) == Capturing && group(t) !in w.terminal
      then w.(policy := RegisterMapping(w.policy, group(t))) else w
    case Fork(t, child) => if t in w.cpu then w.(policy := Inherit(w.policy, group(t), child)) else w
    case AbortGate(p) =>
      if w.gate.Some? && group(w.gate.value) == p && Stopped(w, w.gate.value) then w.(gate := None) else w
    case ReleaseProcess(p) => w.(policy := Exit(w.policy, p))
  }

  function Boot(): World { World(Policy([], {}, {}, 0, 0), None, map[], {}, {}, {}) }

  function Exec(group: nat -> nat, steps: seq<Step>): World {
    if steps == [] then Boot() else Next(Exec(group, steps[..|steps|-1]), group, steps[|steps|-1])
  }

  // ---------------------------------------------------------------- invariant

  /** A thread inside the gate owns it, unless it stopped and lost it. */
  ghost predicate GateOk(w: World) {
    forall t: nat :: t in w.at && Holds(w.at[t]) ==> w.gate == Some(t) || Stopped(w, t)
  }

  ghost predicate Inv(w: World) {
    && PolicyOk(w.policy) && GateOk(w)
    && (w.gate.Some? && At(w, w.gate.value) == Capturing ==> w.policy.secret == {})
  }

  lemma CheckedKeeps(w: World, group: nat -> nat, t: nat, yes: Place, no: Place)
    requires Inv(w) && t in w.cpu && no != Capturing
    requires Holds(yes) || Holds(no) ==> Holds(At(w, t))
    ensures Inv(Checked(w, group, t, yes, no))
  {
    hide PolicyOk;
    hide Outside;
    hide Finished;
    RetireKeeps(w.policy, Finished(w, group));
    NoneCounted(Retire(w.policy, Finished(w, group)));
  }

  lemma NoneCounted<P>(s: Policy<P>)
    requires PolicyOk(s)
    ensures s.secrets == 0 <==> s.secret == {}
    ensures s.maps == 0 <==> s.mapped == {}
  {}

  lemma ActivateStep(w: World, group: nat -> nat, t: nat)
    requires Inv(w) && t in w.cpu && At(w, t) == ActivatesSecret
    ensures Inv(Next(w, group, ActivateSecret(t)))
  {
    hide PolicyOk;
    hide Retire;
    hide Activate;
    hide Finished;
    var r := Retire(w.policy, Finished(w, group));
    RetireKeeps(w.policy, Finished(w, group));
    ActivateKeeps(r, group(t));
  }

  lemma PolicySteps(w: World, group: nat -> nat, s: Step)
    requires Inv(w) && (s.AddMapping? || s.Fork? || s.ReleaseProcess?)
    ensures Inv(Next(w, group, s))
  {
    hide PolicyOk;
    hide RegisterMapping;
    hide Inherit;
    hide Exit;
    match s
    case AddMapping(t) =>
      if t in w.cpu && At(w, t) == Capturing { RegisterMappingKeeps(w.policy, group(t)); }
    case Fork(t, child) => InheritKeeps(w.policy, group(t), child);
    case ReleaseProcess(p) => ExitKeeps(w.policy, p);
  }

  lemma StepKeeps(w: World, group: nat -> nat, s: Step)
    requires Inv(w)
    ensures Inv(Next(w, group, s))
  {
    hide PolicyOk, GateOk, Checked, Activate, Retire, RegisterMapping, Inherit, Exit;
    match s
    case CheckFirst(t) =>
      if t in w.cpu && At(w, t) == ChecksFirst { CheckedKeeps(w, group, t, WantsCapture, Elsewhere); }
    case CheckAgain(t) => if t in w.cpu && At(w, t) == ChecksAgain { CheckedKeeps(w, group, t, Capturing, GivesUp); }
    case ActivateSecret(t) => if t in w.cpu && At(w, t) == ActivatesSecret { ActivateStep(w, group, t); }
    case AddMapping(_) => PolicySteps(w, group, s);
    case Fork(_, _) => PolicySteps(w, group, s);
    case ReleaseProcess(_) => PolicySteps(w, group, s);
    case _ => ScheduleSteps(w, group, s);
  }

  /** Steps that change only where threads are and who holds the gate. */
  lemma ScheduleSteps(w: World, group: nat -> nat, s: Step)
    requires Inv(w) && !s.CheckFirst? && !s.CheckAgain? && !s.ActivateSecret?
    requires !s.AddMapping? && !s.Fork? && !s.ReleaseProcess?
    ensures Inv(Next(w, group, s))
  {
    hide PolicyOk;
  }

  lemma {:induction false} Reached(group: nat -> nat, steps: seq<Step>)
    ensures Inv(Exec(group, steps))
  {
    if steps != [] {
      Reached(group, steps[..|steps|-1]);
      StepKeeps(Exec(group, steps[..|steps|-1]), group, steps[|steps|-1]);
    }
  }

  // ------------------------------------------------------------- main results

  /**
    In every reachable state the counters are exact, the list has no repeats, and secrets and mappings never
    coexist.
   */
  lemma CountersExact(group: nat -> nat, steps: seq<Step>)
    ensures var s := Exec(group, steps).policy;
            && NoDup(s.list) && s.secrets == |s.secret| && s.maps == |s.mapped| && !(s.secrets > 0 && s.maps > 0)
            && forall p :: p in s.list <==> p in s.secret || p in s.mapped
  {
    Reached(group, steps);
    var s := Exec(group, steps).policy;
    if s.secret == {} { assert |s.secret| == 0; } else { assert |s.mapped| == 0; }
  }

  /**
    While a thread that passed begin holds the gate no process is secret, and a capturing thread that can still
    run does hold it.
   */
  lemma NoSecretWhileCapturing(group: nat -> nat, steps: seq<Step>, t: nat)
    requires At(Exec(group, steps), t) == Capturing
    ensures var w := Exec(group, steps); w.gate == Some(t) ==> w.policy.secret == {}
    ensures var w := Exec(group, steps); !Stopped(w, t) ==> w.gate == Some(t)
  {
    Reached(group, steps);
  }

  lemma RetiredFlags<P>(s: Policy<P>, stopped: set<P>)
    ensures Retire(s, stopped).secret == s.secret - stopped && Retire(s, stopped).mapped == s.mapped - stopped
  {}

  /** The flags of each policy change a step can make. */
  lemma FlagsAfter(w: World, group: nat -> nat, s: Step)
    requires Inv(w)
    ensures var r := Retire(w.policy, Finished(w, group));
            r.secret == w.policy.secret - Finished(w, group) && r.mapped == w.policy.mapped - Finished(w, group)
    ensures s.ActivateSecret? ==>
            var q, p := Activate(Retire(w.policy, Finished(w, group)), group(s.t)).0, group(s.t);
            && (p in q.secret <==> w.policy.mapped <= Finished(w, group) || p in w.policy.secret - Finished(w, group))
            && (forall x | x != p :: x in q.secret <==> x in w.policy.secret - Finished(w, group))
            && q.mapped == w.policy.mapped - Finished(w, group)
    ensures s.AddMapping? ==>
            var q, p := RegisterMapping(w.policy, group(s.t)), group(s.t);
            q.secret == w.policy.secret && p in q.mapped && forall x | x != p :: x in q.mapped <==> x in w.policy.mapped
    ensures s.Fork? ==>
            var q, p := Inherit(w.policy, group(s.t), s.child), group(s.t);
            && (s.child in q.secret <==> s.child in w.policy.secret || p in w.policy.secret)
            && (s.child in q.mapped <==> s.child in w.policy.mapped || p in w.policy.mapped)
            && (forall x | x != s.child :: x in q.secret <==> x in w.policy.secret)
            && (forall x | x != s.child :: x in q.mapped <==> x in w.policy.mapped)
    ensures s.ReleaseProcess? ==>
            var q := Exit(w.policy, s.p);
            && s.p !in q.secret && s.p !in q.mapped
            && (forall x | x != s.p :: x in q.secret <==> x in w.policy.secret)
            && (forall x | x != s.p :: x in q.mapped <==> x in w.policy.mapped)
  {
    hide PolicyOk, GateOk, Finished, Retire, Activate, RegisterMapping, Inherit, Exit;
    RetiredFlags(w.policy, Finished(w, group));
    match s
    case ActivateSecret(t) => ActivatedFlags(w.policy, Finished(w, group), group(t));
    case AddMapping(t) => MappingRecorded(w.policy, group(t));
    case Fork(t, child) =>
      InheritKeeps(w.policy, group(t), child);
      InheritedFlags(w.policy, group(t), child);
    case ReleaseProcess(p) => NothingLeft(w.policy, p);
    case _ =>
  }

  lemma InheritedFlags<P>(s: Policy<P>, parent: P, child: P)
    ensures forall x | x != child :: x in Inherit(s, parent, child).secret <==> x in s.secret
    ensures forall x | x != child :: x in Inherit(s, parent, child).mapped <==> x in s.mapped
  {}

  /** Secrecy lasts: no step ends it but the process's own teardown or retirement after all its threads have stopped. */
  lemma SecretLasts(w: World, group: nat -> nat, s: Step, p: nat)
    requires Inv(w) && p in w.policy.secret
    ensures p in Next(w, group, s).policy.secret || s == ReleaseProcess(p) || p in Finished(w, group)
  {
    hide PolicyOk, GateOk, Finished, Retire, Activate, RegisterMapping, Inherit, Exit;
    FlagsAfter(w, group, s);
  }

  /** So do mappings. */
  lemma MappingLasts(w: World, group: nat -> nat, s: Step, p: nat)
    requires Inv(w) && p in w.policy.mapped
    ensures p in Next(w, group, s).policy.mapped || s == ReleaseProcess(p) || p in Finished(w, group)
  {
    hide PolicyOk, GateOk, Finished, Retire, Activate, RegisterMapping, Inherit, Exit;
    FlagsAfter(w, group, s);
  }

  /** A process becomes secret only by its own activation with no live mapping left, or as the child of a secret one. */
  lemma SecretComes(w: World, group: nat -> nat, s: Step, p: nat)
    requires Inv(w) && p !in w.policy.secret && p in Next(w, group, s).policy.secret
    ensures || (s.Fork? && s.t in w.cpu && s.child == p && group(s.t) in w.policy.secret)
            || (s.ActivateSecret? && s.t in w.cpu && group(s.t) == p && w.policy.mapped <= Finished(w, group))
  {
    hide PolicyOk, GateOk, Finished, Retire, Activate, RegisterMapping, Inherit, Exit;
    FlagsAfter(w, group, s);
  }

  /** A process becomes mapped only by its own capturing thread, or as the child of a mapped one. */
  lemma MappingComes(w: World, group: nat -> nat, s: Step, p: nat)
    requires Inv(w) && p !in w.policy.mapped && p in Next(w, group, s).policy.mapped
    ensures || (s.Fork? && s.t in w.cpu && s.child == p && group(s.t) in w.policy.mapped)
            || (s.AddMapping? && s.t in w.cpu && group(s.t) == p && At(w, s.t) == Capturing)
  {
    hide PolicyOk, GateOk, Finished, Retire, Activate, RegisterMapping, Inherit, Exit;
    FlagsAfter(w, group, s);
  }

  lemma NoneLeft<P>(a: set<P>, b: set<P>)
    ensures a - b == {} <==> a <= b
  {
    if a - b == {} {
      forall x | x in a ensures x in b { assert x !in a - b; }
    }
  }

  /** What activation after retirement does to the flags. */
  lemma ActivatedFlags<P>(s: Policy<P>, stopped: set<P>, p: P)
    requires PolicyOk(s)
    ensures var q := Activate(Retire(s, stopped), p).0;
            && (p in q.secret <==> s.mapped <= stopped || p in s.secret - stopped)
            && (forall x | x != p :: x in q.secret <==> x in s.secret - stopped) && q.mapped == s.mapped - stopped
  {
    hide PolicyOk, Outside;
    var r := Retire(s, stopped);
    RetireKeeps(s, stopped);
    NoneCounted(r);
    NoneLeft(s.mapped, stopped);
  }

  /** Activation takes effect unless a live mapping stands against it. */
  lemma ActivatedIff(w: World, group: nat -> nat, t: nat)
    requires Inv(w) && t in w.cpu && At(w, t) == ActivatesSecret
    ensures group(t) in Next(w, group, ActivateSecret(t)).policy.secret <==>
            w.policy.mapped <= Finished(w, group) || group(t) in w.policy.secret - Finished(w, group)
  {
    hide PolicyOk, Retire, Activate, GateOk, Finished;
    ActivatedFlags(w.policy, Finished(w, group), group(t));
  }

  /** A capturing thread's mapping is recorded, and teardown leaves nothing of a process. */
  lemma CallsTakeEffect(w: World, group: nat -> nat, t: nat, p: nat)
    requires Inv(w) && t in w.cpu
    ensures At(w, t) == Capturing && group(t) !in w.terminal ==>
            group(t) in Next(w, group, AddMapping(t)).policy.mapped
    ensures var q := Next(w, group, ReleaseProcess(p)).policy; p !in q.secret && p !in q.mapped && p !in q.list
  {
    hide PolicyOk, GateOk, RegisterMapping, Exit, Finished;
    MappingRecorded(w.policy, group(t));
    NothingLeft(w.policy, p);
  }

  lemma MappingRecorded<P>(s: Policy<P>, p: P)
    ensures p in RegisterMapping(s, p).mapped
    ensures forall x | x != p :: x in RegisterMapping(s, p).mapped <==> x in s.mapped
    ensures RegisterMapping(s, p).secret == s.secret
  {}

  lemma NothingLeft<P>(s: Policy<P>, p: P)
    ensures p !in Exit(s, p).secret && p !in Exit(s, p).mapped && p !in Exit(s, p).list
    ensures forall x | x != p :: x in Exit(s, p).secret <==> x in s.secret
    ensures forall x | x != p :: x in Exit(s, p).mapped <==> x in s.mapped
  {}

  /** The second check lets a thread capture exactly when every secret process has finished. */
  lemma CaptureGrantedIff(w: World, group: nat -> nat, t: nat)
    requires Inv(w) && t in w.cpu && At(w, t) == ChecksAgain
    ensures At(Next(w, group, CheckAgain(t)), t) == Capturing <==> w.policy.secret <= Finished(w, group)
  {
    hide PolicyOk, Retire, GateOk, Finished, Activate, RegisterMapping, Inherit, Exit;
    var r := Retire(w.policy, Finished(w, group));
    RetiredFlags(w.policy, Finished(w, group));
    RetireKeeps(w.policy, Finished(w, group));
    NoneCounted(r);
    NoneLeft(w.policy.secret, Finished(w, group));
  }

  /** A finished process stays finished, so what retirement drops never comes back by itself. */
  lemma FinishedStays(w: World, group: nat -> nat, s: Step, p: nat)
    requires p in Finished(w, group)
    ensures p in Finished(Next(w, group, s), group)
  {}
}
