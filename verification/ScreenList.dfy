/**
  The capture policy as the kernel keeps it: flags and an intrusive next pointer in each
  process, two counters and a list head, changed under one lock and proved against the
  policy functions of ScreenCapture.
 */
module ScreenList {
  import opened ScreenCapture

  class Process {
    var terminal: bool
    var secret: bool
    var mapped: bool
    var next: Process?
  }

  /** The i-th listed process points at the one after it. */
  ghost predicate LinkAt(list: seq<Process>, i: nat)
    requires i < |list|
    reads list`next
  {
    list[i].next == if i + 1 < |list| then list[i + 1] else null
  }

  ghost predicate Chain(list: seq<Process>, first: Process?)
    reads list`next
  {
    first == (if list == [] then null else list[0]) && forall i | 0 <= i < |list| :: LinkAt(list, i)
  }

  ghost predicate Flagged(all: set<Process>, secret: set<Process>, mapped: set<Process>)
    reads all`secret, all`mapped
  {
    forall p <- all :: (p.secret <==> p in secret) && (p.mapped <==> p in mapped)
  }

  class Registry {
    var registered: Process?
    var secrets: int
    var maps: int
    ghost var list: seq<Process>
    ghost var secretSet: set<Process>
    ghost var mappedSet: set<Process>
    ghost const all: set<Process>   // every process there is

    ghost function View(): Policy<Process>
      reads this
    {
      Policy(list, secretSet, mappedSet, secrets, maps)
    }

    ghost predicate Valid()
      reads this, all
    {
      && PolicyOk(View()) && (forall p <- list :: p in all) && secretSet + mappedSet <= all
      && Chain(list, registered) && Flagged(all, secretSet, mappedSet)
    }

    constructor (ghost all: set<Process>)
      requires forall p <- all :: !p.secret && !p.mapped
      ensures Valid() && this.all == all && View() == Policy([], {}, {}, 0, 0)
    {
      this.all := all;
      registered, secrets, maps, list, secretSet, mappedSet := null, 0, 0, [], {}, {};
    }

    /** Puts an unflagged process at the head of the list. */
    method RegisterLocked(p: Process)
      requires Valid() && p in all
      modifies this`registered, this`list, p`next
      ensures (forall q <- list :: q in all) && Chain(list, registered) && Flagged(all, secretSet, mappedSet)
      ensures View() == Register(old(View()), p)
    {
      if p.secret || p.mapped { return; }
      assert p !in list;
      p.next := registered;
      registered := p;
      list := [p] + list;
      forall i | 0 <= i < |list| ensures LinkAt(list, i) {
        assert i > 0 ==> old(LinkAt(list, i - 1));
      }
    }

    /** Unlinks the k-th process, whose predecessor is known, and drops its flags. */
    method Unhook(prev: Process?, p: Process, ghost k: nat)
      requires Valid() && k < |list| && list[k] == p && prev == (if k == 0 then null else list[k - 1])
      modifies this`registered, this`secrets, this`maps, this`list, this`secretSet, this`mappedSet
      modifies all`secret, all`mapped, all`next
      ensures Valid() && View() == Exit(old(View()), p) && list == old(list)[..k] + old(list)[k + 1..]
    {
      hide PolicyOk;
      hide NoDup;
      hide Chain;
      hide Flagged;
      hide Outside;
      OkNoDup(View());
      ExitKeeps(View(), p);
      DropOne(list, k);
      Relink(prev, p, k);
      ReleaseLocked(p);
    }

    method Relink(prev: Process?, p: Process, ghost k: nat)
      requires NoDup(list) && (forall q <- list :: q in all) && Chain(list, registered)
      requires Flagged(all, secretSet, mappedSet)
      requires k < |list| && list[k] == p && prev == (if k == 0 then null else list[k - 1])
      modifies this`registered, this`list, all`next
      ensures Chain(list, registered) && Flagged(all, secretSet, mappedSet)
      ensures list == old(list)[..k] + old(list)[k + 1..] && forall q <- list :: q in all
    {
      assert LinkAt(list, k);
      if prev == null { registered := p.next; } else { prev.next := p.next; }
      ghost var was := list;
      list := list[..k] + list[k + 1..];
      forall i | 0 <= i < |list| ensures LinkAt(list, i) {
        var j := if i < k then i else i + 1;
        assert list[i] == was[j] && old(LinkAt(list, j));
        assert k > 0 && j != k - 1 ==> was[j] != was[k - 1];
      }
    }

    method ReleaseLocked(p: Process)
      requires p in all && p !in list && Chain(list, registered) && (forall q <- list :: q in all)
      requires Flagged(all, secretSet, mappedSet)
      modifies this`secrets, this`maps, this`secretSet, this`mappedSet, p`secret, p`mapped, p`next
      ensures View() == Release(old(View()), p) && Chain(list, registered) && Flagged(all, secretSet, mappedSet)
      ensures p.next == null
    {
      if p.secret { secrets := secrets - 1; }
      if p.mapped { maps := maps - 1; }
      p.secret, p.mapped, p.next := false, false, null;
      secretSet, mappedSet := secretSet - {p}, mappedSet - {p};
      forall i | 0 <= i < |list| ensures LinkAt(list, i) {
        assert old(LinkAt(list, i));
      }
    }

    /** Walks the list once and drops every process that is over and on no processor. */
    method RetireStopped(onCpu: set<Process>)
      requires Valid()
      modifies this`registered, this`secrets, this`maps, this`list, this`secretSet, this`mappedSet
      modifies all`secret, all`mapped, all`next
      ensures Valid() && View() == Retire(old(View()), Over(all, onCpu))
    {
      hide PolicyOk;
      hide Chain;
      hide Flagged;
      hide Partly;
      hide Exit;
      hide Retire;
      ghost var stopped := Over(all, onCpu);
      ghost var k, kept := 0, 0;
      var prev: Process?, p := null, registered;
      PartlyStart(View(), stopped);
      ChainAt(list, registered, 0);
      while p != null
        invariant Valid() && Partly(old(View()), View(), stopped, k, kept) && kept <= |list| && k <= |old(list)|
        invariant p == (if kept < |list| then list[kept] else null)
        invariant prev == (if kept == 0 then null else list[kept - 1])
        decreases |old(list)| - k
      {
        ghost var before := View();
        assert p in list && (p in stopped <==> p.terminal && p !in onCpu);
        ChainAt(list, registered, kept);
        var next := p.next;
        if p.terminal && p !in onCpu {
          Unhook(prev, p, kept);
          PartlyDrop(old(View()), before, View(), stopped, k, kept);
        } else {
          PartlyKeep(old(View()), View(), stopped, k, kept);
          prev, kept := p, kept + 1;
        }
        p, k := next, k + 1;
      }
      PartlyEnd(old(View()), View(), stopped, k, kept);
    }

    /** The answer of a check: some process is secret once the stopped ones are dropped. */
    method Blocked(onCpu: set<Process>) returns (r: bool)
      requires Valid()
      modifies this`registered, this`secrets, this`maps, this`list, this`secretSet, this`mappedSet
      modifies all`secret, all`mapped, all`next
      ensures Valid() && View() == Retire(old(View()), Over(all, onCpu)) && (r <==> View().secret != {})
    {
      RetireStopped(onCpu);
      NoneCounted(View());
      r := secrets != 0;
    }

    method MarkSecret(yes: bool, p: Process)
      requires p in all && Flagged(all, secretSet, mappedSet)
      modifies this`secrets, this`secretSet, p`secret
      ensures Flagged(all, secretSet, mappedSet) && View() == TakeSecret(old(View()), yes, p)
    {
      if yes && !p.secret {
        p.secret := true;
        secrets := secrets + 1;
        secretSet := secretSet + {p};
      }
    }

    method MarkMapped(yes: bool, p: Process)
      requires p in all && Flagged(all, secretSet, mappedSet)
      modifies this`maps, this`mappedSet, p`mapped
      ensures Flagged(all, secretSet, mappedSet) && View() == TakeMapped(old(View()), yes, p)
    {
      if yes && !p.mapped {
        p.mapped := true;
        maps := maps + 1;
        mappedSet := mappedSet + {p};
      }
    }

    /** The policy change of a set-secret call, made while its thread holds the gate. */
    method SetSecret(p: Process, onCpu: set<Process>) returns (busy: bool)
      requires Valid() && p in all
      modifies this`registered, this`secrets, this`maps, this`list, this`secretSet, this`mappedSet
      modifies all`secret, all`mapped, all`next
      ensures Valid() && (View(), if busy then Busy else Granted) == Activate(Retire(old(View()), Over(all, onCpu)), p)
    {
      hide PolicyOk;
      hide Chain;
      hide Flagged;
      hide Retire;
      hide Over;
      hide Activate;
      RetireStopped(onCpu);
      busy := Grant(p);
    }

    method Grant(p: Process) returns (busy: bool)
      requires Valid() && p in all
      modifies this`registered, this`secrets, this`list, this`secretSet, all`secret, all`next
      ensures Valid() && (View(), if busy then Busy else Granted) == Activate(old(View()), p)
    {
      hide PolicyOk;
      hide Chain;
      hide Flagged;
      hide Register;
      hide TakeSecret;
      FlagsOf(all, secretSet, mappedSet, p);
      if p.secret { return false; }
      if maps != 0 { return true; }
      ActivateKeeps(View(), p);
      RegisterLocked(p);
      MarkSecret(true, p);
      OkListed(View());
      busy := false;
    }

    /** Registers a raw mapping of the capturing process; the policy is kept exactly when no process is secret. */
    method AddMapping(p: Process)
      requires Valid() && p in all
      modifies this`registered, this`maps, this`list, this`mappedSet, all`mapped, all`next
      ensures View() == RegisterMapping(old(View()), p) && Chain(list, registered) && Flagged(all, secretSet, mappedSet)
      ensures Valid() <==> old(View()).secret == {}
    {
      hide PolicyOk;
      hide Chain;
      hide Flagged;
      hide Register;
      hide TakeMapped;
      FlagsOf(all, secretSet, mappedSet, p);
      RegisterMappingKeepsIff(View(), p);
      if p.mapped { return; }
      RegisterLocked(p);
      MarkMapped(true, p);
      if PolicyOk(View()) { OkListed(View()); }
    }

    /** A forked child takes over its parent's flags before it first runs. */
    method InheritFlags(parent: Process, child: Process)
      requires Valid() && parent in all && child in all
      modifies this`registered, this`secrets, this`maps, this`list, this`secretSet, this`mappedSet
      modifies all`secret, all`mapped, all`next
      ensures Valid() && View() == Inherit(old(View()), parent, child)
    {
      hide PolicyOk;
      hide Chain;
      hide Flagged;
      hide Register;
      hide TakeSecret;
      hide TakeMapped;
      InheritKeeps(View(), parent, child);
      FlagsOf(all, secretSet, mappedSet, parent);
      var secret, mapped := parent.secret, parent.mapped;
      if secret || mapped { RegisterLocked(child); }
      MarkSecret(secret, child);
      MarkMapped(mapped, child);
      OkListed(View());
    }

    /** Walks to a process and its predecessor. */
    method FindLink(p: Process) returns (prev: Process?, q: Process?, ghost k: nat)
      requires Chain(list, registered)
      ensures q != null ==> q == p && k < |list| && list[k] == p && prev == (if k == 0 then null else list[k - 1])
      ensures q == null <==> p !in list
    {
      prev, q, k := null, registered, 0;
      while q != null && q != p
        invariant 0 <= k <= |list| && p !in list[..k]
        invariant q == (if k < |list| then list[k] else null) && prev == (if k == 0 then null else list[k - 1])
        decreases |list| - k
      {
        assert LinkAt(list, k);
        prev, q, k := q, q.next, k + 1;
      }
    }

    /** Takes an exiting process off the list, wherever it is, and drops its flags. */
    method ExitProcess(p: Process)
      requires Valid() && p in all
      modifies this`registered, this`secrets, this`maps, this`list, this`secretSet, this`mappedSet
      modifies all`secret, all`mapped, all`next
      ensures Valid() && View() == Exit(old(View()), p) && p !in list && !p.secret && !p.mapped
    {
      hide PolicyOk;
      hide Chain;
      hide Flagged;
      hide Outside;
      ExitKeeps(View(), p);
      assert allocated(all);
      var prev, q, k := FindLink(p);
      if q != null {
        Unhook(prev, p, k);
      } else {
        DropNone(list, p);
        ReleaseLocked(p);
      }
      FlagsOf(all, secretSet, mappedSet, p);
    }
  }

  lemma FlagsOf(all: set<Process>, secret: set<Process>, mapped: set<Process>, p: Process)
    requires Flagged(all, secret, mapped) && p in all
    ensures (p.secret <==> p in secret) && (p.mapped <==> p in mapped)
  {}

  /** The first k processes of the list have been looked at, and `kept` of them stayed. */
  ghost predicate Partly(s: Policy<Process>, r: Policy<Process>, stopped: set<Process>, k: nat, kept: nat) {
    && k <= |s.list| && r.list == Outside(s.list[..k], stopped) + s.list[k..] && kept == |Outside(s.list[..k], stopped)|
    && r.secret == s.secret - Gone(s.list[..k], stopped) && r.mapped == s.mapped - Gone(s.list[..k], stopped)
  }

  lemma PartlyStart(s: Policy<Process>, stopped: set<Process>)
    ensures Partly(s, s, stopped, 0, 0)
  {}

  lemma PartlyKeep(s: Policy<Process>, r: Policy<Process>, stopped: set<Process>, k: nat, kept: nat)
    requires Partly(s, r, stopped, k, kept) && kept < |r.list| && r.list[kept] !in stopped
    ensures Partly(s, r, stopped, k + 1, kept + 1) && k < |s.list|
  {
    hide Outside;
    Splits(s.list, k, stopped);
  }

  lemma PartlyDrop(s: Policy<Process>, r: Policy<Process>, q: Policy<Process>, stopped: set<Process>, k: nat, kept: nat)
    requires Partly(s, r, stopped, k, kept) && kept < |r.list| && r.list[kept] in stopped
    requires q == Exit(r, r.list[kept]) && q.list == r.list[..kept] + r.list[kept + 1..]
    ensures Partly(s, q, stopped, k + 1, kept) && k < |s.list|
  {
    hide Outside;
    Splits(s.list, k, stopped);
  }

  lemma PartlyEnd(s: Policy<Process>, r: Policy<Process>, stopped: set<Process>, k: nat, kept: nat)
    requires Partly(s, r, stopped, k, kept) && kept == |r.list| && PolicyOk(s) && PolicyOk(r)
    ensures r == Retire(s, stopped)
  {
    hide Outside;
    hide NoDup;
    assert |r.list| == kept + |s.list[k..]|;
    assert k == |s.list| && s.list[..k] == s.list && s.list[k..] == [];
    GoneFlags(s, stopped);
  }

  /** Only listed processes carry flags, so dropping the stopped listed ones drops all stopped ones. */
  lemma GoneFlags(s: Policy<Process>, stopped: set<Process>)
    requires PolicyOk(s)
    ensures s.secret - Gone(s.list, stopped) == s.secret - stopped
    ensures s.mapped - Gone(s.list, stopped) == s.mapped - stopped
  {
    hide NoDup;
  }

  /** Processes that are over and have no thread on a processor. */
  ghost function Over(all: set<Process>, onCpu: set<Process>): set<Process>
    reads all`terminal
  {
    set p | p in all && p.terminal && p !in onCpu
  }

  ghost function Gone(list: seq<Process>, stopped: set<Process>): set<Process> { set p | p in list && p in stopped }

  lemma ChainAt(list: seq<Process>, first: Process?, k: nat)
    requires Chain(list, first)
    ensures k < |list| ==> LinkAt(list, k)
    ensures first == if list == [] then null else list[0]
  {}

  /** One more element of the list seen. */
  lemma Splits(list: seq<Process>, k: nat, stopped: set<Process>)
    requires k <= |list|
    ensures Outside([], stopped) == [] && list[..0] == [] && list[0..] == list && Gone([], stopped) == {}
    ensures k < |list| ==> list[..k + 1] == list[..k] + [list[k]] && list[k..] == [list[k]] + list[k + 1..]
    ensures k < |list| ==>
              Outside(list[..k + 1], stopped)
              == Outside(list[..k], stopped) + if list[k] in stopped then [] else [list[k]]
    ensures k < |list| ==>
              Gone(list[..k + 1], stopped) == Gone(list[..k], stopped) + if list[k] in stopped then {list[k]} else {}
  {
    if k < |list| {
      assert list[..k + 1] == list[..k] + [list[k]];
      OutsideJoin(list[..k], list[k], stopped);
    }
  }

  lemma {:induction false} OutsideJoin(list: seq<Process>, p: Process, stopped: set<Process>)
    ensures Outside(list + [p], stopped) == Outside(list, stopped) + if p in stopped then [] else [p]
  {
    if list == [] {
      assert [p][1..] == [];
    } else {
      assert (list + [p])[1..] == list[1..] + [p];
      OutsideJoin(list[1..], p, stopped);
    }
  }

  lemma OkListed(s: Policy<Process>)
    requires PolicyOk(s)
    ensures forall p <- s.secret + s.mapped :: p in s.list
  {}

  lemma OkNoDup(s: Policy<Process>)
    requires PolicyOk(s)
    ensures NoDup(s.list)
  {}

  /** Taking one process off a list without repeats takes out its one place. */
  lemma {:induction false} DropOne(list: seq<Process>, k: nat)
    requires NoDup(list) && k < |list|
    ensures Outside(list, {list[k]}) == list[..k] + list[k + 1..] && list[k] !in list[..k] + list[k + 1..]
  {
    if k == 0 {
      DropNone(list[1..], list[0]);
    } else {
      DropOne(list[1..], k - 1);
      assert list[..k] + list[k + 1..] == [list[0]] + (list[1..][..k - 1] + list[1..][k..]);
    }
  }

  lemma {:induction false} DropNone(list: seq<Process>, p: Process)
    requires p !in list
    ensures Outside(list, {p}) == list
  {
    if list != [] { DropNone(list[1..], p); }
  }
}
