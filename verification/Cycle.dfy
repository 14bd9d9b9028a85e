/**
  internal/observer/observer.go:122-165: one check cycle as a concurrent protocol. Each group is a process
  whose store accesses are single atomic steps (the store's mutex); a bounded pool starts the groups in key
  order. Registry requests and pure computation happen between those steps.
*/
module Cycle {
  import opened Prelude
  import opened Policies
  import opened States
  import opened Registries
  import opened Groups
  import opened Detection
  import opened Checks

  datatype Env = Env(base: Policy, registries: string -> Option<RegistryView>)

  // -------------------------------------------------------------- the protocol

  datatype Phase =
    | Waiting
    | Reading(view: RegistryView)
    | Resolving(view: RegistryView, previous: Option<Observation>)
    | Storing(view: RegistryView, previous: Option<Observation>, m: Manifest)
    | Detecting(view: RegistryView, previous: Option<Observation>, m: Manifest)
    | StaleReading(err: CheckError)
    | StaleWriting(err: CheckError, previous: Option<Observation>)
    | Finished(result: CheckResult)
  {
    predicate Active()
    {
      !Waiting? && !Finished?
    }
  }

  datatype World = World(store: Observations, phases: seq<Phase>)

  /** The next step of a group: its next phase, and the store after it. */
  ghost function Advance(env: Env, job: Job, phase: Phase, store: Observations): (Phase, Observations)
    requires !phase.Finished?
  {
    match phase
    case Waiting =>
      var registry := env.registries(job.key.registry);
      (if registry.None? then StaleReading(UnresolvedRegistry(job.key.registry)) else Reading(registry.value), store)
    case Reading(view) =>
      (Resolving(view, Lookup(store, job.key)), store)
    case Resolving(view, previous) =>
      (match view.resolve(job.key.repository, job.key.tag, job.key.platform)
       case Failure(message) => StaleReading(ResolveFailed(message))
       case Success(m) => Storing(view, previous, m),
       store)
    case Storing(view, previous, m) =>
      var obs := FreshObservation(job.key, m, job.now);
      (Detecting(view, previous, m), store[obs.key := obs])
    case Detecting(view, previous, m) =>
      var (events, partial) := GroupEvents(view, job, previous, m);
      var initial := InitialResult(env.base, job.key, job.members);
      (Finished(initial.(servedDigest := Served(m), events := events, partial := partial)), store)
    case StaleReading(err) =>
      (StaleWriting(err, Lookup(store, job.key)), store)
    case StaleWriting(err, previous) =>
      var obs := StaleObservation(job.key, previous, err.Text(), job.now);
      var initial := InitialResult(env.base, job.key, job.members);
      (Finished(initial.(err := Some(err), stale := err.ResolveFailed?)), store[obs.key := obs])
  }

  function ActiveCount(phases: seq<Phase>): nat
  {
    if phases == [] then 0
    else ActiveCount(phases[..|phases| - 1]) + if phases[|phases| - 1].Active() then 1 else 0
  }

  /** A started group can always step; the next group in order can start when the pool has room. */
  ghost predicate Enabled(limit: nat, w: World, i: nat)
  {
    && i < |w.phases| && !w.phases[i].Finished?
    && (w.phases[i].Waiting? ==> ActiveCount(w.phases) < limit && forall j | 0 <= j < i :: !w.phases[j].Waiting?)
  }

  ghost function Step(env: Env, jobs: seq<Job>, w: World, i: nat): World
    requires |jobs| == |w.phases| && i < |jobs| && !w.phases[i].Finished?
  {
    var (phase, store) := Advance(env, jobs[i], w.phases[i], w.store);
    World(store, w.phases[i := phase])
  }

  function Start(store: Observations, n: nat): World
  {
    World(store, seq(n, _ => Waiting))
  }

  ghost predicate IsStep(env: Env, jobs: seq<Job>, limit: nat, w: World, w': World)
  {
    |w.phases| == |jobs| && exists i: nat :: Enabled(limit, w, i) && w' == Step(env, jobs, w, i)
  }

  ghost predicate IsRun(env: Env, jobs: seq<Job>, limit: nat, store: Observations, run: seq<World>)
  {
    && |run| >= 1 && run[0] == Start(store, |jobs|)
    && forall k | 0 <= k < |run| - 1 :: IsStep(env, jobs, limit, run[k], run[k + 1])
  }

  ghost predicate AllFinished(w: World)
  {
    forall i | 0 <= i < |w.phases| :: w.phases[i].Finished?
  }

  // -------------------------------------------------- the sequential reference

  ghost function StoreAfter(env: Env, job: Job, store: Observations): Observations
  {
    store[job.key := Written(env.registries(job.key.registry), job.key, job.now, Lookup(store, job.key))]
  }

  /** The store after running the groups one after the other. */
  ghost function SequentialStore(env: Env, jobs: seq<Job>, store: Observations): Observations
  {
    if jobs == [] then store
    else StoreAfter(env, jobs[|jobs| - 1], SequentialStore(env, jobs[..|jobs| - 1], store))
  }

  /** What group i reports when the groups before it have already run. */
  ghost function SequentialResult(env: Env, jobs: seq<Job>, store: Observations, i: nat): CheckResult
    requires i < |jobs|
  {
    GroupResult(env.base, env.registries(jobs[i].key.registry), jobs[i],
      Lookup(SequentialStore(env, jobs[..i], store), jobs[i].key))
  }

  ghost predicate DistinctKeys(jobs: seq<Job>)
  {
    forall i, j | 0 <= i < j < |jobs| :: jobs[i].key != jobs[j].key
  }

  /** A group's key is written once, by that group, from what the store held at the start; all else is untouched. */
  lemma {:induction false} SequentialStoreIs(env: Env, jobs: seq<Job>, store: Observations, k: Key)
    requires DistinctKeys(jobs)
    ensures forall i | 0 <= i < |jobs| && jobs[i].key == k ::
      Lookup(SequentialStore(env, jobs, store), k) ==
        Some(Written(env.registries(k.registry), k, jobs[i].now, Lookup(store, k)))
    ensures (forall i | 0 <= i < |jobs| :: jobs[i].key != k) ==>
      Lookup(SequentialStore(env, jobs, store), k) == Lookup(store, k)
  {
    hide Written;
    if jobs != [] {
      var n := |jobs| - 1;
      var front := jobs[..n];
      assert forall i | 0 <= i < n :: front[i] == jobs[i];
      SequentialStoreIs(env, front, store, k);
    }
  }

  // --------------------------------------------------------- non-interference

  /** What a group knows and what its key holds, phase by phase, in terms of the initial store alone. */
  ghost predicate InPhase(env: Env, job: Job, phase: Phase, before: Option<Observation>, current: Option<Observation>)
  {
    var registry := env.registries(job.key.registry);
    match phase
    case Waiting => current == before
    case Reading(view) => registry == Some(view) && current == before
    case Resolving(view, previous) => registry == Some(view) && previous == before && current == before
    case Storing(view, previous, m) =>
      registry == Some(view) && Answered(registry, job.key) == Success(m) && previous == before && current == before
    case Detecting(view, previous, m) =>
      && registry == Some(view) && Answered(registry, job.key) == Success(m) && previous == before
      && current == Some(FreshObservation(job.key, m, job.now))
    case StaleReading(err) => Answered(registry, job.key) == Failure(err) && current == before
    case StaleWriting(err, previous) => Answered(registry, job.key) == Failure(err) && previous == before && current == before
    case Finished(result) =>
      && result == GroupResult(env.base, registry, job, before)
      && current == Some(Written(registry, job.key, job.now, before))
  }

  ghost predicate Isolated(env: Env, jobs: seq<Job>, store: Observations, w: World)
  {
    && |w.phases| == |jobs|
    && (forall i | 0 <= i < |jobs| ::
          InPhase(env, jobs[i], w.phases[i], Lookup(store, jobs[i].key), Lookup(w.store, jobs[i].key)))
    && (forall k: Key :: (forall i | 0 <= i < |jobs| :: jobs[i].key != k) ==> Lookup(w.store, k) == Lookup(store, k))
  }

  /** A step reads and writes the group's own key only. */
  lemma AdvanceIsLocal(env: Env, job: Job, phase: Phase, store: Observations)
    requires !phase.Finished?
    ensures forall k: Key | k != job.key :: Lookup(Advance(env, job, phase, store).1, k) == Lookup(store, k)
  {
  }

  /** A step keeps a group on its sequential course. */
  lemma AdvanceKeepsPhase(env: Env, job: Job, phase: Phase, before: Option<Observation>, store: Observations)
    requires !phase.Finished? && InPhase(env, job, phase, before, Lookup(store, job.key))
    ensures
      var (phase', store') := Advance(env, job, phase, store);
      InPhase(env, job, phase', before, Lookup(store', job.key))
  {
    hide GroupEvents, InitialResult, StaleObservation, FreshObservation, CheckError.Text;
  }

  lemma StepKeepsIsolation(env: Env, jobs: seq<Job>, store: Observations, w: World, i: nat)
    requires DistinctKeys(jobs) && Isolated(env, jobs, store, w)
    requires i < |jobs| && !w.phases[i].Finished?
    ensures Isolated(env, jobs, store, Step(env, jobs, w, i))
  {
    hide InPhase, Advance, Lookup;
    AdvanceIsLocal(env, jobs[i], w.phases[i], w.store);
    AdvanceKeepsPhase(env, jobs[i], w.phases[i], Lookup(store, jobs[i].key), w.store);
  }

  lemma StartIsIsolated(env: Env, jobs: seq<Job>, store: Observations)
    ensures Isolated(env, jobs, store, Start(store, |jobs|))
  {
  }

  lemma {:induction false} RunIsIsolated(env: Env, jobs: seq<Job>, limit: nat, store: Observations, run: seq<World>)
    requires DistinctKeys(jobs) && IsRun(env, jobs, limit, store, run)
    ensures Isolated(env, jobs, store, run[|run| - 1])
    decreases |run|
  {
    hide Isolated, Step;
    var n := |run| - 1;
    if n == 0 {
      StartIsIsolated(env, jobs, store);
    } else {
      RunIsIsolated(env, jobs, limit, store, run[..n]);
      assert IsStep(env, jobs, limit, run[n - 1], run[n]);
      var i: nat :| Enabled(limit, run[n - 1], i) && run[n] == Step(env, jobs, run[n - 1], i);
      StepKeepsIsolation(env, jobs, store, run[n - 1], i);
    }
  }

  /**
    For every interleaving of the groups' steps under any pool size, a cycle that completes leaves exactly
    the store, and exactly the result slots, of running the groups one after the other.
  */
  lemma EveryInterleavingIsSequential(env: Env, jobs: seq<Job>, limit: nat, store: Observations, run: seq<World>)
    requires DistinctKeys(jobs) && IsRun(env, jobs, limit, store, run) && AllFinished(run[|run| - 1])
    ensures
      var last := run[|run| - 1];
      && last.store == SequentialStore(env, jobs, store)
      && |last.phases| == |jobs|
      && forall i | 0 <= i < |jobs| :: last.phases[i] == Finished(SequentialResult(env, jobs, store, i))
  {
    hide Written, GroupResult, SequentialStore;
    var last := run[|run| - 1];
    RunIsIsolated(env, jobs, limit, store, run);
    forall k: Key ensures Lookup(last.store, k) == Lookup(SequentialStore(env, jobs, store), k) {
      SequentialStoreIs(env, jobs, store, k);
      if i :| 0 <= i < |jobs| && jobs[i].key == k {
        assert InPhase(env, jobs[i], last.phases[i], Lookup(store, k), Lookup(last.store, k));
      }
    }
    SameLookupsSameStore(last.store, SequentialStore(env, jobs, store));
    forall i | 0 <= i < |jobs| ensures last.phases[i] == Finished(SequentialResult(env, jobs, store, i)) {
      SequentialStoreIs(env, jobs[..i], store, jobs[i].key);
      assert forall j | 0 <= j < i :: jobs[..i][j] == jobs[j];
    }
  }

  lemma SameLookupsSameStore(a: Observations, b: Observations)
    requires forall k: Key :: Lookup(a, k) == Lookup(b, k)
    ensures a == b
  {
    forall k: Key ensures k in a <==> k in b {
      assert Lookup(a, k) == Lookup(b, k);
    }
    forall k | k in a ensures a[k] == b[k] {
      assert Lookup(a, k) == Lookup(b, k);
    }
  }

  // ------------------------------------------------------- pool and completion

  lemma {:induction false} ActiveCountUpdate(phases: seq<Phase>, i: nat, phase: Phase)
    requires i < |phases|
    ensures ActiveCount(phases[i := phase]) ==
      ActiveCount(phases) - (if phases[i].Active() then 1 else 0) + (if phase.Active() then 1 else 0)
  {
    var n := |phases| - 1;
    if i == n {
      assert phases[i := phase][..n] == phases[..n];
    } else {
      ActiveCountUpdate(phases[..n], i, phase);
      assert phases[i := phase][..n] == phases[..n][i := phase];
    }
  }

  lemma {:induction false} NothingActive(phases: seq<Phase>)
    ensures ActiveCount(phases) == 0 <==> forall i | 0 <= i < |phases| :: !phases[i].Active()
  {
    if phases != [] {
      NothingActive(phases[..|phases| - 1]);
    }
  }

  /** At every moment of every run no more groups are under way than the pool allows. */
  lemma {:induction false} PoolIsBounded(env: Env, jobs: seq<Job>, limit: nat, store: Observations, run: seq<World>)
    requires IsRun(env, jobs, limit, store, run)
    ensures ActiveCount(run[|run| - 1].phases) <= limit
    decreases |run|
  {
    hide Advance;
    var n := |run| - 1;
    if n == 0 {
      NothingActive(run[0].phases);
    } else {
      PoolIsBounded(env, jobs, limit, store, run[..n]);
      assert IsStep(env, jobs, limit, run[n - 1], run[n]);
      var w := run[n - 1];
      var i: nat :| Enabled(limit, w, i) && run[n] == Step(env, jobs, w, i);
      ActiveCountUpdate(w.phases, i, Advance(env, jobs[i], w.phases[i], w.store).0);
    }
  }

  /** A cycle never gets stuck: until every group has finished, some group can step. */
  lemma NeverStuck(limit: nat, w: World)
    requires limit >= 1 && !AllFinished(w)
    ensures exists i: nat :: Enabled(limit, w, i)
  {
    NothingActive(w.phases);
    if i: nat :| i < |w.phases| && w.phases[i].Active() {
      assert Enabled(limit, w, i);
    } else {
      var i := FirstWaiting(w.phases);
      assert Enabled(limit, w, i);
    }
  }

  lemma FirstWaiting(phases: seq<Phase>) returns (i: nat)
    requires exists k | 0 <= k < |phases| :: !phases[k].Finished? && !phases[k].Active()
    ensures i < |phases| && phases[i].Waiting? && forall j | 0 <= j < i :: !phases[j].Waiting?
  {
    i := 0;
    while i < |phases| && !phases[i].Waiting?
      invariant 0 <= i <= |phases|
      invariant forall j | 0 <= j < i :: !phases[j].Waiting?
    {
      i := i + 1;
    }
  }

  /** An upper bound on the steps a group still has before it. */
  function Remaining(phase: Phase): nat
  {
    match phase
    case Waiting => 5
    case Reading(_) => 4
    case Resolving(_, _) => 3
    case Storing(_, _, _) => 2
    case StaleReading(_) => 2
    case Detecting(_, _, _) => 1
    case StaleWriting(_, _) => 1
    case Finished(_) => 0
  }

  function TotalRemaining(phases: seq<Phase>): nat
  {
    if phases == [] then 0 else TotalRemaining(phases[..|phases| - 1]) + Remaining(phases[|phases| - 1])
  }

  lemma {:induction false} TotalRemainingUpdate(phases: seq<Phase>, i: nat, phase: Phase)
    requires i < |phases|
    ensures TotalRemaining(phases[i := phase]) == TotalRemaining(phases) - Remaining(phases[i]) + Remaining(phase)
  {
    hide Remaining;
    var n := |phases| - 1;
    if i == n {
      assert phases[i := phase][..n] == phases[..n];
    } else {
      TotalRemainingUpdate(phases[..n], i, phase);
      assert phases[i := phase][..n] == phases[..n][i := phase];
    }
  }

  lemma AdvanceDecreases(env: Env, job: Job, phase: Phase, store: Observations)
    requires !phase.Finished?
    ensures Remaining(Advance(env, job, phase, store).0) < Remaining(phase)
  {
    hide GroupEvents, InitialResult, StaleObservation, FreshObservation, CheckError.Text;
  }

  lemma {:induction false} AllWaiting(n: nat)
    ensures TotalRemaining(seq(n, _ => Waiting)) == 5 * n
  {
    if n > 0 {
      AllWaiting(n - 1);
      assert seq(n, _ => Waiting)[..n - 1] == seq(n - 1, _ => Waiting);
    }
  }

  /** Every run is finite: a cycle over n groups takes at most 5n steps, whatever the schedule. */
  lemma {:induction false} RunsAreBounded(env: Env, jobs: seq<Job>, limit: nat, store: Observations, run: seq<World>)
    requires IsRun(env, jobs, limit, store, run)
    ensures |run| - 1 + TotalRemaining(run[|run| - 1].phases) <= 5 * |jobs|
    decreases |run|
  {
    hide Advance, Remaining;
    var n := |run| - 1;
    if n == 0 {
      AllWaiting(|jobs|);
    } else {
      RunsAreBounded(env, jobs, limit, store, run[..n]);
      assert IsStep(env, jobs, limit, run[n - 1], run[n]);
      var w := run[n - 1];
      var i: nat :| Enabled(limit, w, i) && run[n] == Step(env, jobs, w, i);
      AdvanceDecreases(env, jobs[i], w.phases[i], w.store);
      TotalRemainingUpdate(w.phases, i, Advance(env, jobs[i], w.phases[i], w.store).0);
    }
  }

  lemma StartIsRun(env: Env, jobs: seq<Job>, limit: nat, store: Observations)
    ensures IsRun(env, jobs, limit, store, [Start(store, |jobs|)])
  {
  }

  lemma {:induction false} RunKeepsLength(env: Env, jobs: seq<Job>, limit: nat, store: Observations, run: seq<World>)
    requires IsRun(env, jobs, limit, store, run)
    ensures |run[|run| - 1].phases| == |jobs|
    decreases |run|
  {
    hide Advance;
    var n := |run| - 1;
    if n > 0 {
      assert IsStep(env, jobs, limit, run[n - 1], run[n]);
    }
  }

  /** Every cycle, however far it has come, can be brought to its end; so complete runs exist from every store. */
  lemma {:induction false} EveryRunCanComplete(env: Env, jobs: seq<Job>, limit: nat, store: Observations, run: seq<World>)
    returns (complete: seq<World>)
    requires limit >= 1 && IsRun(env, jobs, limit, store, run)
    ensures run <= complete && IsRun(env, jobs, limit, store, complete) && AllFinished(complete[|complete| - 1])
    decreases TotalRemaining(run[|run| - 1].phases)
  {
    hide Advance, AllFinished;
    var w := run[|run| - 1];
    RunKeepsLength(env, jobs, limit, store, run);
    if AllFinished(w) {
      complete := run;
    } else {
      NeverStuck(limit, w);
      var i: nat :| Enabled(limit, w, i);
      var phase := Advance(env, jobs[i], w.phases[i], w.store).0;
      AdvanceDecreases(env, jobs[i], w.phases[i], w.store);
      TotalRemainingUpdate(w.phases, i, phase);
      assert IsStep(env, jobs, limit, w, Step(env, jobs, w, i));
      complete := EveryRunCanComplete(env, jobs, limit, store, run + [Step(env, jobs, w, i)]);
    }
  }

  // ------------------------------------------------------------------- a cycle

  ghost function EnvOf(base: Policy, registries: map<string, Registry>): Env
  {
    Env(base, host => if host in registries then Some(registries[host].view) else None)
  }

  /** The jobs of a cycle: one per group, in key order, over that group's members. */
  ghost predicate AreJobs(containers: seq<Container>, jobs: seq<Job>)
  {
    && (forall i, j | 0 <= i < j < |jobs| :: KeyLess(jobs[i].key, jobs[j].key))
    && (forall i | 0 <= i < |jobs| :: jobs[i].members == Members(containers, jobs[i].key) && jobs[i].members != [])
    && (forall k: Key | Members(containers, k) != [] :: exists i | 0 <= i < |jobs| :: jobs[i].key == k)
  }

  predicate Uses(registries: map<string, Registry>, job: Job, reg: Registry)
  {
    job.key.registry in registries && registries[job.key.registry] == reg
  }

  /** The most tag listings a cycle asks one registry for: one for each of its groups. */
  ghost function ListBudget(registries: map<string, Registry>, jobs: seq<Job>, reg: Registry): int
  {
    if jobs == [] then 0
    else ListBudget(registries, jobs[..|jobs| - 1], reg) + if Uses(registries, jobs[|jobs| - 1], reg) then 1 else 0
  }

  /** The most manifests a cycle asks one registry for: the budgets of its groups. */
  ghost function AskBudget(registries: map<string, Registry>, jobs: seq<Job>, reg: Registry, config: Config): int
  {
    if jobs == [] then 0
    else
      var job := jobs[|jobs| - 1];
      AskBudget(registries, jobs[..|jobs| - 1], reg, config) +
        if Uses(registries, job, reg) then GroupBudget(reg.view, job, config) else 0
  }

  lemma BudgetsAppend(registries: map<string, Registry>, jobs: seq<Job>, job: Job, reg: Registry, config: Config)
    ensures ListBudget(registries, jobs + [job], reg) ==
      ListBudget(registries, jobs, reg) + if Uses(registries, job, reg) then 1 else 0
    ensures AskBudget(registries, jobs + [job], reg, config) ==
      AskBudget(registries, jobs, reg, config) + if Uses(registries, job, reg) then GroupBudget(reg.view, job, config) else 0
  {
    hide GroupBudget;
    assert (jobs + [job])[..|jobs|] == jobs;
  }

  /** What every group's enrichment attempts contributed, against the sequential reference. */
  ghost predicate AllSound(env: Env, jobs: seq<Job>, store: Observations, config: Config, cancelled: (nat, nat, nat) -> bool)
  {
    forall i | 0 <= i < |jobs| :: SoundAttempts(env.registries(jobs[i].key.registry), jobs[i],
      Lookup(SequentialStore(env, jobs[..i], store), jobs[i].key), config, Undisturbed(InGroup(cancelled, i)))
  }

  function InGroup(cancelled: (nat, nat, nat) -> bool, i: nat): (nat, nat) -> bool
  {
    (a: nat, n: nat) => cancelled(i, a, n)
  }

  lemma AllSoundAppend(env: Env, jobs: seq<Job>, job: Job, store: Observations, config: Config, cancelled: (nat, nat, nat) -> bool)
    requires AllSound(env, jobs, store, config, cancelled)
    requires SoundAttempts(env.registries(job.key.registry), job, Lookup(SequentialStore(env, jobs, store), job.key), config,
      Undisturbed(InGroup(cancelled, |jobs|)))
    ensures AllSound(env, jobs + [job], store, config, cancelled)
  {
    hide SoundAttempts, SequentialStore, Undisturbed;
    var all := jobs + [job];
    assert all[..|jobs|] == jobs && forall i | 0 <= i < |jobs| :: all[i] == jobs[i] && all[..i] == jobs[..i];
  }

  /**
    The schedule that runs one group at a time. Its results and store are the sequential reference that
    every other schedule was shown to agree with. Every group's hints are sound, and no registry is asked for
    more listings or manifests than its groups' budgets.
  */
  method Check(containers: seq<Container>, registries: map<string, Registry>, store: MemoryStore, config: Config, now: int,
               cancelled: (nat, nat, nat) -> bool)
    returns (results: seq<CheckResult>, ghost jobs: seq<Job>)
    modifies store`observations, registries.Values
    ensures AreJobs(containers, jobs) && |results| == |jobs|
    ensures
      var env := EnvOf(config.defaultPolicy, registries);
      && store.observations == SequentialStore(env, jobs, old(store.observations))
      && (forall i | 0 <= i < |results| :: results[i] == SequentialResult(env, jobs, old(store.observations), i))
      && AllSound(env, jobs, old(store.observations), config, cancelled)
    ensures forall reg | reg in registries.Values ::
      && reg.lists <= old(reg.lists) + ListBudget(registries, jobs, reg)
      && |reg.asked| <= |old(reg.asked)| + AskBudget(registries, jobs, reg, config)
  {
    hide GroupResult, Written, KeyLess, Members, SoundAttempts, GroupBudget, AllSound, Undisturbed;
    hide SequentialStore, SequentialResult, Uses;
    var groups := GroupContainers(containers);
    var keys := SortedGroupKeys(groups);
    results, jobs := [], [];
    ghost var env := EnvOf(config.defaultPolicy, registries);
    NothingRunYet(env, store.observations, config, cancelled);
    for i := 0 to |keys|
      invariant |results| == |jobs| == i
      invariant forall j | 0 <= j < i :: jobs[j].key == keys[j] && jobs[j].members == groups[keys[j]]
      invariant store.observations == SequentialStore(env, jobs, old(store.observations))
      invariant forall j | 0 <= j < i :: results[j] == SequentialResult(env, jobs, old(store.observations), j)
      invariant AllSound(env, jobs, old(store.observations), config, cancelled)
      invariant forall reg | reg in registries.Values ::
          && reg.lists <= old(reg.lists) + ListBudget(registries, jobs, reg)
          && |reg.asked| <= |old(reg.asked)| + AskBudget(registries, jobs, reg, config)
    {
      var key := keys[i];
      assert key in keys;
      var result;
      ghost var job;
      result, job := RunGroup(registries, store, config, key, groups[key], now, cancelled, i, jobs, old(store.observations));
      forall r: Registry {
        BudgetsAppend(registries, jobs, job, r, config);
      }
      results, jobs := results + [result], jobs + [job];
    }
    JobsCover(containers, groups, keys, jobs);
  }

  /** The next group of the sequential schedule, after the groups of jobs. */
  method RunGroup(registries: map<string, Registry>, store: MemoryStore, config: Config, key: Key, members: seq<Container>,
                  now: int, cancelled: (nat, nat, nat) -> bool, i: nat, ghost jobs: seq<Job>, ghost initial: Observations)
    returns (result: CheckResult, ghost job: Job)
    requires i == |jobs| && store.observations == SequentialStore(EnvOf(config.defaultPolicy, registries), jobs, initial)
    requires AllSound(EnvOf(config.defaultPolicy, registries), jobs, initial, config, cancelled)
    modifies store`observations, registries.Values
    ensures job.key == key && job.members == members
    ensures
      var env := EnvOf(config.defaultPolicy, registries);
      && store.observations == SequentialStore(env, jobs + [job], initial)
      && result == SequentialResult(env, jobs + [job], initial, |jobs|)
      && (forall j | 0 <= j < |jobs| ::
            SequentialResult(env, jobs + [job], initial, j) == SequentialResult(env, jobs, initial, j))
      && AllSound(env, jobs + [job], initial, config, cancelled)
    ensures forall reg | reg in registries.Values ::
      && reg.lists <= old(reg.lists) + (if Uses(registries, job, reg) then 1 else 0)
      && |reg.asked| <= |old(reg.asked)| + if Uses(registries, job, reg) then GroupBudget(reg.view, job, config) else 0
  {
    hide GroupResult, Written, SoundAttempts, GroupBudget, AllSound, Undisturbed;
    ghost var env := EnvOf(config.defaultPolicy, registries);
    var reg: Registry? := if key.registry in registries then registries[key.registry] else null;
    ghost var hints;
    result, hints := CheckGroup(reg, store, config, key, members, now, InGroup(cancelled, i));
    job := Job(key, members, hints, now);
    SequentialAppend(env, jobs, job, initial);
    AllSoundAppend(env, jobs, job, initial, config, cancelled);
  }

  lemma NothingRunYet(env: Env, store: Observations, config: Config, cancelled: (nat, nat, nat) -> bool)
    ensures AllSound(env, [], store, config, cancelled) && SequentialStore(env, [], store) == store
  {
  }

  /** Appending a group does not change what the groups before it reported. */
  lemma SequentialAppend(env: Env, jobs: seq<Job>, job: Job, store: Observations)
    ensures SequentialStore(env, jobs + [job], store) == StoreAfter(env, job, SequentialStore(env, jobs, store))
    ensures forall i | 0 <= i < |jobs| ::
      SequentialResult(env, jobs + [job], store, i) == SequentialResult(env, jobs, store, i)
    ensures SequentialResult(env, jobs + [job], store, |jobs|) ==
      GroupResult(env.base, env.registries(job.key.registry), job, Lookup(SequentialStore(env, jobs, store), job.key))
  {
    hide GroupResult, Written;
    var all := jobs + [job];
    assert all[..|jobs|] == jobs;
    assert forall i | 0 <= i < |jobs| :: all[..i] == jobs[..i];
  }

  lemma JobsCover(containers: seq<Container>, groups: map<Key, seq<Container>>, keys: seq<Key>, jobs: seq<Job>)
    requires IsGrouping(containers, groups) && StrictlySorted(keys) && Enumerates(keys, groups.Keys)
    requires |jobs| == |keys|
    requires forall j | 0 <= j < |keys| :: keys[j] in groups && jobs[j].key == keys[j] && jobs[j].members == groups[keys[j]]
    ensures AreJobs(containers, jobs)
  {
  }

  /** The jobs of a cycle have distinct keys, so the interleaving theorem applies to them. */
  lemma JobsHaveDistinctKeys(containers: seq<Container>, jobs: seq<Job>)
    requires AreJobs(containers, jobs)
    ensures DistinctKeys(jobs)
  {
    hide KeyLess, Members;
    forall i, j | 0 <= i < j < |jobs| ensures jobs[i].key != jobs[j].key {
      KeyLessIsStrictTotalOrder(jobs[i].key, jobs[j].key, jobs[i].key);
    }
  }
}
