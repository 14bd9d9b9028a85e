/**
  internal/observer/observer.go:219-392 over time: the digest baseline of one key through any run of
  successful and failed checks, and the transitions it gives rise to.
*/
module Baseline {
  import opened Prelude
  import opened Tags
  import opened Candidates
  import opened Events
  import opened States
  import opened Registries
  import opened Detection
  import opened Checks
  import Cycle

  /** One check of the key: the registry as it was then, if there was a client for it, and the time. */
  datatype Check = Check(registry: Option<RegistryView>, now: int)

  function Outcome(key: Key, c: Check): Result<Manifest, CheckError>
  {
    Answered(c.registry, key)
  }

  /** What the store holds for the key after a run that began with no observation. */
  function Stored(key: Key, run: seq<Check>): Option<Observation>
  {
    if run == [] then None
    else
      var c := run[|run| - 1];
      Some(Written(c.registry, key, c.now, Stored(key, run[..|run| - 1])))
  }

  /** The answer of the latest successful check. */
  function LastSuccess(key: Key, run: seq<Check>): Option<Manifest>
  {
    if run == [] then None
    else
      match Outcome(key, run[|run| - 1])
      case Success(m) => Some(m)
      case Failure(_) => LastSuccess(key, run[..|run| - 1])
  }

  /**
    The stored digests are those of the latest successful check, whatever failed since. The status is fresh
    after a success, unknown after a first and only failure, and stale after any other failure.
  */
  lemma {:induction false} StoredIsLastSuccess(key: Key, run: seq<Check>)
    ensures Stored(key, run).None? <==> run == []
    ensures run != [] ==>
      var obs, last := Stored(key, run).value, LastSuccess(key, run);
      && obs.key == key
      && obs.platformManifestDigest == (if last.Some? then last.value.platformManifestDigest else "")
      && obs.indexDigest == (if last.Some? then last.value.indexDigest else "")
      && obs.status == if Outcome(key, run[|run| - 1]).Success? then Fresh else if |run| == 1 then Unknown else Stale
  {
    hide CheckError.Text;
    if run != [] {
      StoredIsLastSuccess(key, run[..|run| - 1]);
    }
  }

  /** A success fires a transition exactly when its digest and the latest success's are known and differ. */
  lemma {:induction false} TransitionIffDigestChanged(key: Key, run: seq<Check>, digest: string)
    ensures Transition(Stored(key, run), digest) <==>
      && LastSuccess(key, run).Some? && LastSuccess(key, run).value.platformManifestDigest != ""
      && digest != "" && LastSuccess(key, run).value.platformManifestDigest != digest
  {
    hide Stored, LastSuccess;
    StoredIsLastSuccess(key, run);
    if run == [] {
      NothingYet(key);
    }
  }

  lemma NothingYet(key: Key)
    ensures LastSuccess(key, []) == None
  {
  }

  /** A key that never succeeded reads as unknown after its first failure only; from the second on it is stale. */
  lemma NeverSucceededIsUnknownIff(key: Key, run: seq<Check>)
    requires run != [] && LastSuccess(key, run).None?
    ensures Stored(key, run).value.status == Unknown <==> |run| == 1
  {
    hide Stored;
    StoredIsLastSuccess(key, run);
  }

  lemma SecondFailureIsStale(key: Key)
    ensures
      var run := [Check(None, 0), Check(None, 1)];
      LastSuccess(key, run).None? && Stored(key, run).Some? && Stored(key, run).value.status == Stale
  {
    var run := [Check(None, 0), Check(None, 1)];
    assert run[..1] == [Check(None, 0)];
    NothingYet(key);
    assert LastSuccess(key, run[..1]).None?;
    StoredIsLastSuccess(key, run);
  }

  /** When the latest successful check was made. */
  function LastSuccessTime(key: Key, run: seq<Check>): Option<int>
  {
    if run == [] then None
    else
      match Outcome(key, run[|run| - 1])
      case Success(_) => Some(run[|run| - 1].now)
      case Failure(_) => LastSuccessTime(key, run[..|run| - 1])
  }

  /** The text of a check's error: the missing client's, or the registry's own. */
  function ErrorText(key: Key, c: Check): string
    requires Outcome(key, c).Failure?
  {
    match c.registry
    case None => "observer: no registry client configured for host " + key.registry
    case Some(view) => view.resolve(key.repository, key.tag, key.platform).error
  }

  /**
    The times and the error an observation carries: the latest success's time, whatever failed since; and the
    error and time of the latest check if it failed, none if it succeeded.
  */
  lemma {:induction false} StoredTellsTimesAndError(key: Key, run: seq<Check>)
    requires run != []
    ensures
      var obs, last, success := Stored(key, run).value, run[|run| - 1], LastSuccessTime(key, run);
      && obs.lastSuccess == (if success.Some? then success.value else 0)
      && obs.lastError == (if Outcome(key, last).Success? then "" else ErrorText(key, last))
      && obs.lastErrorAt == (if Outcome(key, last).Success? then 0 else last.now)
  {
    var front := run[..|run| - 1];
    if front != [] {
      StoredTellsTimesAndError(key, front);
    }
  }

  // ------------------------------------------------------------ all keys at once

  /** One cycle of the whole observer: the registries as they were, the groups checked, and the pool size. */
  datatype Round = Round(env: Cycle.Env, jobs: seq<Job>, limit: nat)

  /** The store after a run of cycles, begun with an empty one, whose groups run one after the other. */
  ghost function StoreAfterRounds(rounds: seq<Round>): Observations
  {
    if rounds == [] then map[]
    else
      var r := rounds[|rounds| - 1];
      Cycle.SequentialStore(r.env, r.jobs, StoreAfterRounds(rounds[..|rounds| - 1]))
  }

  /** The store a sequence of cycles, each played step by step, leaves behind. */
  function StoreLeft(plays: seq<seq<Cycle.World>>): Observations
  {
    if plays == [] || plays[|plays| - 1] == [] then map[]
    else
      var play := plays[|plays| - 1];
      play[|play| - 1].store
  }

  /** Each cycle is played to its end, its groups interleaved in any way, on the store the one before left. */
  ghost predicate ArePlays(rounds: seq<Round>, plays: seq<seq<Cycle.World>>)
  {
    && |plays| == |rounds|
    && forall n | 0 <= n < |rounds| :: IsPlay(rounds[n], StoreLeft(plays[..n]), plays[n])
  }

  ghost predicate IsPlay(r: Round, store: Observations, play: seq<Cycle.World>)
  {
    Cycle.DistinctKeys(r.jobs) && Cycle.IsRun(r.env, r.jobs, r.limit, store, play) && Cycle.AllFinished(play[|play| - 1])
  }

  /** What the groups of cycle n report when run one after the other. */
  ghost function ResultsOf(rounds: seq<Round>, n: nat): (results: seq<CheckResult>)
    requires n < |rounds|
    ensures |results| == |rounds[n].jobs|
    ensures forall i | 0 <= i < |results| ::
      results[i] == Cycle.SequentialResult(rounds[n].env, rounds[n].jobs, StoreAfterRounds(rounds[..n]), i)
  {
    seq(|rounds[n].jobs|, i requires 0 <= i < |rounds[n].jobs| =>
      Cycle.SequentialResult(rounds[n].env, rounds[n].jobs, StoreAfterRounds(rounds[..n]), i))
  }

  lemma {:induction false} StoresAgree(rounds: seq<Round>, plays: seq<seq<Cycle.World>>)
    requires ArePlays(rounds, plays)
    ensures StoreLeft(plays) == StoreAfterRounds(rounds)
  {
    hide Cycle.SequentialStore, Cycle.SequentialResult, IsPlay;
    if rounds != [] {
      var n := |rounds| - 1;
      PlaysBefore(rounds, plays, n);
      StoresAgree(rounds[..n], plays[..n]);
      PlayEndsSequentially(rounds[n], StoreLeft(plays[..n]), plays[n]);
    }
  }

  lemma PlaysBefore(rounds: seq<Round>, plays: seq<seq<Cycle.World>>, n: nat)
    requires ArePlays(rounds, plays) && n <= |rounds|
    ensures ArePlays(rounds[..n], plays[..n])
    ensures n < |rounds| ==> IsPlay(rounds[n], StoreLeft(plays[..n]), plays[n])
  {
    hide IsPlay;
    assert forall k | 0 <= k < n :: plays[..n][..k] == plays[..k];
  }

  lemma PlayEndsSequentially(r: Round, store: Observations, play: seq<Cycle.World>)
    requires IsPlay(r, store, play)
    ensures play != []
    ensures
      var last := play[|play| - 1];
      && last.store == Cycle.SequentialStore(r.env, r.jobs, store)
      && |last.phases| == |r.jobs|
      && forall i | 0 <= i < |r.jobs| :: last.phases[i] == Cycle.Finished(Cycle.SequentialResult(r.env, r.jobs, store, i))
  {
    Cycle.EveryInterleavingIsSequential(r.env, r.jobs, r.limit, store, play);
  }

  /** However the groups of each cycle interleave, every cycle's result slots hold the reference's results. */
  lemma EveryPlayIsSequential(rounds: seq<Round>, plays: seq<seq<Cycle.World>>, n: nat, i: nat)
    requires ArePlays(rounds, plays) && n < |rounds| && i < |rounds[n].jobs|
    ensures
      && plays[n] != [] && |plays[n][|plays[n]| - 1].phases| == |rounds[n].jobs|
      && plays[n][|plays[n]| - 1].phases[i] == Cycle.Finished(ResultsOf(rounds, n)[i])
  {
    hide Cycle.SequentialResult, IsPlay, StoreLeft, StoreAfterRounds;
    PlaysBefore(rounds, plays, n);
    StoresAgree(rounds[..n], plays[..n]);
    PlayEndsSequentially(rounds[n], StoreLeft(plays[..n]), plays[n]);
  }

  /** Any plan of cycles can be played out. */
  lemma {:induction false} PlaysExist(rounds: seq<Round>) returns (plays: seq<seq<Cycle.World>>)
    requires forall n | 0 <= n < |rounds| :: Cycle.DistinctKeys(rounds[n].jobs) && rounds[n].limit >= 1
    ensures ArePlays(rounds, plays)
  {
    hide Cycle.IsRun, Cycle.AllFinished, Cycle.DistinctKeys;
    plays := [];
    if rounds != [] {
      var n := |rounds| - 1;
      var before := PlaysExist(rounds[..n]);
      var r, store := rounds[n], StoreLeft(before);
      Cycle.StartIsRun(r.env, r.jobs, r.limit, store);
      var play := Cycle.EveryRunCanComplete(r.env, r.jobs, r.limit, store, [Cycle.Start(store, |r.jobs|)]);
      plays := before + [play];
      forall k | 0 <= k < |rounds| ensures IsPlay(rounds[k], StoreLeft(plays[..k]), plays[k]) {
        if k < n {
          assert IsPlay(rounds[..n][k], StoreLeft(before[..k]), before[k]);
          assert plays[..k] == before[..k];
        } else {
          assert plays[..n] == before;
        }
      }
    }
  }

  /** The checks of one key in a run of cycles: those cycles in which some container used it. */
  ghost function ChecksOf(key: Key, rounds: seq<Round>): seq<Check>
  {
    if rounds == [] then []
    else
      var front, r := ChecksOf(key, rounds[..|rounds| - 1]), rounds[|rounds| - 1];
      match TimeOf(key, r.jobs)
      case None => front
      case Some(now) => front + [Check(r.env.registries(key.registry), now)]
  }

  /** When the key was checked in a cycle, if it was. */
  function TimeOf(key: Key, jobs: seq<Job>): Option<int>
  {
    if jobs == [] then None
    else if jobs[0].key == key then Some(jobs[0].now)
    else TimeOf(key, jobs[1..])
  }

  lemma {:induction false} TimeOfJob(key: Key, jobs: seq<Job>)
    ensures TimeOf(key, jobs).Some? ==> exists i | 0 <= i < |jobs| :: jobs[i].key == key && jobs[i].now == TimeOf(key, jobs).value
    ensures TimeOf(key, jobs).None? ==> forall i | 0 <= i < |jobs| :: jobs[i].key != key
  {
    if jobs != [] && jobs[0].key != key {
      TimeOfJob(key, jobs[1..]);
      if TimeOf(key, jobs).Some? {
        var i :| 0 <= i < |jobs[1..]| && jobs[1..][i].key == key && jobs[1..][i].now == TimeOf(key, jobs).value;
        assert jobs[i + 1].key == key;
      }
      assert forall i | 1 <= i < |jobs| :: jobs[i] == jobs[1..][i - 1];
    }
  }

  lemma {:induction false} ReferenceTracksEveryKey(rounds: seq<Round>, key: Key)
    requires forall n | 0 <= n < |rounds| :: Cycle.DistinctKeys(rounds[n].jobs)
    ensures Lookup(StoreAfterRounds(rounds), key) == Stored(key, ChecksOf(key, rounds))
  {
    hide Written, Cycle.DistinctKeys, TimeOf, Cycle.SequentialStore;
    if rounds != [] {
      var n := |rounds| - 1;
      var r, front := rounds[n], rounds[..n];
      ReferenceTracksEveryKey(front, key);
      Cycle.SequentialStoreIs(r.env, r.jobs, StoreAfterRounds(front), key);
      TimeOfJob(key, r.jobs);
      if TimeOf(key, r.jobs).Some? {
        var last := Check(r.env.registries(key.registry), TimeOf(key, r.jobs).value);
        var run := ChecksOf(key, front) + [last];
        assert run[..|run| - 1] == ChecksOf(key, front);
        assert ChecksOf(key, rounds) == run;
      }
    }
  }

  /**
    Over any run of cycles, each played with any pool size and any interleaving of its groups, the store
    holds for every key exactly what that key's own checks left there.
  */
  lemma StoreTracksEveryKey(rounds: seq<Round>, plays: seq<seq<Cycle.World>>, key: Key)
    requires ArePlays(rounds, plays)
    ensures Lookup(StoreLeft(plays), key) == Stored(key, ChecksOf(key, rounds))
  {
    hide Stored, StoreAfterRounds, Cycle.IsRun, Cycle.DistinctKeys;
    StoresAgree(rounds, plays);
    forall n | 0 <= n < |rounds| ensures Cycle.DistinctKeys(rounds[n].jobs) {
      assert IsPlay(rounds[n], StoreLeft(plays[..n]), plays[n]);
    }
    ReferenceTracksEveryKey(rounds, key);
  }

  /** A group's report depends on what its own key's earlier checks left, and on nothing else in the store. */
  lemma ReportDependsOnOwnKey(rounds: seq<Round>, n: nat, i: nat)
    requires n < |rounds| && i < |rounds[n].jobs|
    requires forall k | 0 <= k < |rounds| :: Cycle.DistinctKeys(rounds[k].jobs)
    ensures
      var env, job := rounds[n].env, rounds[n].jobs[i];
      ResultsOf(rounds, n)[i] ==
        GroupResult(env.base, env.registries(job.key.registry), job, Stored(job.key, ChecksOf(job.key, rounds[..n])))
  {
    hide GroupResult, Stored, StoreAfterRounds, Written;
    var env, jobs, before := rounds[n].env, rounds[n].jobs, rounds[..n];
    ReferenceTracksEveryKey(before, jobs[i].key);
    Cycle.SequentialStoreIs(env, jobs[..i], StoreAfterRounds(before), jobs[i].key);
  }

  // ------------------------------------------------------------------- outages

  ghost predicate AllFail(key: Key, run: seq<Check>)
  {
    forall i | 0 <= i < |run| :: Outcome(key, run[i]).Failure?
  }

  /** Failures do not move the baseline. */
  lemma {:induction false} OutageKeepsLastSuccess(key: Key, run: seq<Check>, outage: seq<Check>)
    requires AllFail(key, outage)
    ensures LastSuccess(key, run + outage) == LastSuccess(key, run)
  {
    hide Outcome;
    if outage == [] {
      assert run + outage == run;
    } else {
      var n := |outage| - 1;
      assert (run + outage)[..|run + outage| - 1] == run + outage[..n];
      assert (run + outage)[|run + outage| - 1] == outage[n];
      OutageKeepsLastSuccess(key, run, outage[..n]);
    }
  }

  /** Check n of a run fires a transition. */
  ghost predicate Fires(key: Key, run: seq<Check>, n: nat)
  {
    n < |run| && Outcome(key, run[n]).Success? &&
    Transition(Stored(key, run[..n]), Outcome(key, run[n]).value.platformManifestDigest)
  }

  /** A re-push during an outage is reported by the first success after it. */
  lemma RePushDuringOutageIsReported(key: Key, run: seq<Check>, outage: seq<Check>, next: Check)
    requires AllFail(key, outage) && LastSuccess(key, run).Some? && Outcome(key, next).Success?
    ensures
      var before, after := LastSuccess(key, run).value.platformManifestDigest, Outcome(key, next).value.platformManifestDigest;
      Fires(key, run + outage + [next], |run| + |outage|) <==> before != "" && after != "" && before != after
  {
    hide Outcome, Stored, LastSuccess;
    var all := run + outage + [next];
    assert all[..|run| + |outage|] == run + outage && all[|run| + |outage|] == next;
    OutageKeepsLastSuccess(key, run, outage);
    TransitionIffDigestChanged(key, run + outage, Outcome(key, next).value.platformManifestDigest);
  }

  ghost predicate ServesOnly(key: Key, c: Check, digest: string)
  {
    Outcome(key, c).Success? ==> Outcome(key, c).value.platformManifestDigest == digest
  }

  /** ...and only once: while later checks fail or serve that digest, nothing fires again. */
  lemma {:induction false} RePushIsReportedOnce(key: Key, run: seq<Check>, k: nat, n: nat)
    requires k < n < |run| && Fires(key, run, k)
    requires forall j | k < j <= n :: ServesOnly(key, run[j], Outcome(key, run[k]).value.platformManifestDigest)
    ensures !Fires(key, run, n)
  {
    hide Outcome, Stored, LastSuccess;
    var digest := Outcome(key, run[k]).value.platformManifestDigest;
    DigestSince(key, run, k, n, digest);
    if Outcome(key, run[n]).Success? {
      assert ServesOnly(key, run[n], digest);
      TransitionIffDigestChanged(key, run[..n], digest);
    }
  }

  lemma {:induction false} DigestSince(key: Key, run: seq<Check>, k: nat, n: nat, digest: string)
    requires k < n <= |run| && Outcome(key, run[k]).Success? && Outcome(key, run[k]).value.platformManifestDigest == digest
    requires forall j | k < j < n :: ServesOnly(key, run[j], digest)
    ensures LastSuccess(key, run[..n]).Some? && LastSuccess(key, run[..n]).value.platformManifestDigest == digest
  {
    hide Outcome;
    assert run[..n][..n - 1] == run[..n - 1] && run[..n][n - 1] == run[n - 1];
    if k < n - 1 {
      assert ServesOnly(key, run[n - 1], digest);
      DigestSince(key, run, k, n - 1, digest);
    }
  }

  // ----------------------------------------------- the last digest ever known

  /** The latest non-empty platform digest any check has served. */
  function LastKnown(key: Key, run: seq<Check>): Option<string>
  {
    if run == [] then None
    else
      match Outcome(key, run[|run| - 1])
      case Success(m) =>
        if m.platformManifestDigest != "" then Some(m.platformManifestDigest) else LastKnown(key, run[..|run| - 1])
      case Failure(_) => LastKnown(key, run[..|run| - 1])
  }

  lemma {:induction false} LastKnownIsLastSuccess(key: Key, run: seq<Check>)
    requires LastSuccess(key, run).Some? && LastSuccess(key, run).value.platformManifestDigest != ""
    ensures LastKnown(key, run) == Some(LastSuccess(key, run).value.platformManifestDigest)
  {
    if run != [] && Outcome(key, run[|run| - 1]).Failure? {
      LastKnownIsLastSuccess(key, run[..|run| - 1]);
    }
  }

  lemma {:induction false} KnownNeedsSuccess(key: Key, run: seq<Check>)
    requires LastKnown(key, run).Some?
    ensures LastSuccess(key, run).Some?
  {
    if run != [] && Outcome(key, run[|run| - 1]).Failure? {
      KnownNeedsSuccess(key, run[..|run| - 1]);
    }
  }

  /**
    A digest that differs from the last one known is reported exactly when the latest successful check
    served a manifest for the platform: a success without one erases the baseline.
  */
  lemma {:induction false} ChangeSinceLastKnownIsReportedIff(key: Key, run: seq<Check>, digest: string)
    requires LastKnown(key, run).Some? && digest != "" && digest != LastKnown(key, run).value
    ensures LastSuccess(key, run).Some?
    ensures Transition(Stored(key, run), digest) <==> LastSuccess(key, run).value.platformManifestDigest != ""
  {
    hide Stored, LastSuccess, LastKnown;
    KnownNeedsSuccess(key, run);
    TransitionIffDigestChanged(key, run, digest);
    if LastSuccess(key, run).value.platformManifestDigest != "" {
      LastKnownIsLastSuccess(key, run);
    }
  }

  /** The erased baseline is real: old digest, no manifest, new digest, and no transition for any of the three checks. */
  lemma ErasedBaselineMissesRePush(key: Key, old0: string, new0: string)
    requires old0 != "" && new0 != "" && old0 != new0
    ensures
      var serving := (d: string) => Check(Some(RegistryView((_, _, _) => Success(Manifest("", d)), _ => Success([]))), 0);
      var run := [serving(old0), serving(""), serving(new0)];
      LastKnown(key, run[..2]) == Some(old0) && forall n | 0 <= n < 3 :: !Fires(key, run, n)
  {
  }

  // ------------------------------------------------------------ what is reported

  ghost predicate Digestless(events: seq<Event>)
  {
    forall i | 0 <= i < |events| :: events[i].currentDigest == "" && events[i].candidateDigest == ""
  }

  lemma {:induction false} CandidateEventsHaveNoDigests(view: RegistryView, key: Key, cs: CandidateSet, entries: seq<Entry>, now: int)
    ensures Digestless(CandidateEvents(view, key, cs, entries, now).0)
  {
    if entries != [] {
      CandidateEventsHaveNoDigests(view, key, cs, entries[..|entries| - 1], now);
    }
  }

  /** Some event reports a digest that moved. */
  ghost predicate ReportsMove(events: seq<Event>)
  {
    exists i | 0 <= i < |events| :: events[i].currentDigest != events[i].candidateDigest
  }

  lemma OutcomeHasNoDigests(view: RegistryView, key: Key, now: int)
    ensures Digestless(CandidateOutcome(view, key, now).0)
  {
    hide ParsedTag, Analysis, CandidateEvents, Entries, FirstUsable;
    if view.list(key.repository).Success? {
      var cs := Analysis(key.tag, view.list(key.repository).value);
      CandidateEventsHaveNoDigests(view, key, cs, Entries(cs), now);
    }
  }

  /**
    The report of a successful check contains an event whose digests differ exactly when a transition
    fired: neither drift nor candidate events can be mistaken for one.
  */
  lemma ReportShowsTransition(view: RegistryView, job: Job, previous: Option<Observation>, m: Manifest)
    ensures ReportsMove(GroupEvents(view, job, previous, m).0) <==> Transition(previous, m.platformManifestDigest)
  {
    hide ParsedTag, CandidateOutcome, Distinct;
    var events := GroupEvents(view, job, previous, m).0;
    OutcomeHasNoDigests(view, job.key, job.now);
    if Transition(previous, m.platformManifestDigest) {
      assert events[0].currentDigest != events[0].candidateDigest;
    }
  }
}
