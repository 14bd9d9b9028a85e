/**
  cmd/image-watch/daemon.go:47-119: whole daemon cycles, one after the other. Each cycle checks, builds a
  notification from what it found and what was recorded, and delivers it, with any notifier outcomes.
*/
module Histories {
  import opened Prelude
  import opened Images
  import opened Tags
  import Candidates
  import CandidateOrder
  import opened SemVers
  import opened Events
  import opened Policies
  import opened States
  import opened Registries
  import opened Groups
  import opened Detection
  import opened Checks
  import opened Baseline
  import opened Pipeline
  import opened Daemon
  import Cycle

  /** One daemon cycle: what it checks, the delivery mode, and how the notifiers answer each call. */
  datatype Turn = Turn(round: Round, individual: bool, outcomes: nat -> seq<bool>)

  function RoundsOf(turns: seq<Turn>): (rounds: seq<Round>)
    ensures |rounds| == |turns|
    ensures forall n | 0 <= n < |turns| :: rounds[n] == turns[n].round
  {
    seq(|turns|, n requires 0 <= n < |turns| => turns[n].round)
  }

  /** What the notification stage of each cycle is given. */
  ghost function Inputs(turns: seq<Turn>): (run: seq<CycleInput>)
    ensures |run| == |turns|
    ensures forall n | 0 <= n < |turns| ::
      run[n] == CycleInput(ResultsOf(RoundsOf(turns), n), turns[n].individual, turns[n].outcomes)
  {
    seq(|turns|, n requires 0 <= n < |turns| =>
      CycleInput(ResultsOf(RoundsOf(turns), n), turns[n].individual, turns[n].outcomes))
  }

  // ------------------------------------------------------- whose events are whose

  predicate SeparableKey(key: Key)
  {
    && '|' !in key.registry && '|' !in key.repository && '|' !in key.tag
    && '|' !in key.platform.os && '|' !in key.platform.architecture && '|' !in key.platform.variant
    && key.platform.SlashFree()
  }

  /** What the check of a job in a round found out. */
  function Found(round: Round, job: Job): Result<Manifest, CheckError>
  {
    Answered(round.env.registries(job.key.registry), job.key)
  }

  /** A round over distinct keys and non-empty groups, in which no identity or digest contains the separator. */
  ghost predicate IsProper(round: Round)
  {
    && Cycle.DistinctKeys(round.jobs)
    && forall i | 0 <= i < |round.jobs| :: IsProperJob(round, round.jobs[i])
  }

  ghost predicate IsProperJob(round: Round, job: Job)
  {
    && SeparableKey(job.key) && job.members != []
    && (Found(round, job).Success? ==> '|' !in Found(round, job).value.platformManifestDigest)
  }

  ghost predicate AreProper(turns: seq<Turn>)
  {
    forall n | 0 <= n < |turns| :: IsProper(turns[n].round)
  }

  /** An event of a key that is about no digest. */
  predicate OffersUpdate(e: Event, key: Key)
  {
    e.image == ImageOf(key) && e.currentTag == key.tag && e.platform == key.platform && e.candidateDigest == ""
  }

  lemma {:induction false} CandidateEventsOfferUpdates(view: RegistryView, key: Key, cs: Candidates.CandidateSet, entries: seq<Entry>, now: int)
    ensures forall e | e in CandidateEvents(view, key, cs, entries, now).0 :: OffersUpdate(e, key)
  {
    if entries != [] {
      CandidateEventsOfferUpdates(view, key, cs, entries[..|entries| - 1], now);
    }
  }

  lemma OutcomeOffersUpdates(view: RegistryView, key: Key, now: int)
    ensures forall e | e in CandidateOutcome(view, key, now).0 :: OffersUpdate(e, key) && !IsDigestEvent(e)
  {
    hide ParsedTag, Candidates.Analysis, CandidateEvents, Entries, FirstUsable, OffersUpdate, IsDigestEvent;
    OutcomeIsNotDigest(view, key, now);
    if view.list(key.repository).Success? {
      var cs := Candidates.Analysis(key.tag, view.list(key.repository).value);
      CandidateEventsOfferUpdates(view, key, cs, Entries(cs), now);
    }
  }

  /** Every event of a check either tells the served digest or offers an update. */
  lemma EventIsOfItsKey(view: RegistryView, job: Job, previous: Option<Observation>, m: Manifest, e: Event)
    requires e in GroupEvents(view, job, previous, m).0
    ensures
      || (TellsDigest(e, job.key, m.platformManifestDigest) && IsDigestEvent(e) && WorthTelling(previous, Digests(job.members), m))
      || (OffersUpdate(e, job.key) && !IsDigestEvent(e))
  {
    hide ParsedTag, CandidateOutcome, DigestPart, GroupEvents, TellsDigest, WorthTelling, OffersUpdate, IsDigestEvent;
    GroupEventsSplit(view, job, previous, m);
    OutcomeOffersUpdates(view, job.key, job.now);
    if e in DigestPart(job, previous, m) {
      var i :| 0 <= i < |DigestPart(job, previous, m)| && DigestPart(job, previous, m)[i] == e;
      assert TellsDigest(e, job.key, m.platformManifestDigest);
      TellingIsDigestEvent(e, job.key, m.platformManifestDigest);
    }
  }

  lemma TellingIsSeparable(e: Event, key: Key, digest: string)
    requires SeparableKey(key) && '|' !in digest && TellsDigest(e, key, digest)
    ensures Separable(e)
  {
    hide ParsedTag, Platform.SlashFree;
  }

  lemma OfferIsSeparable(e: Event, key: Key)
    requires SeparableKey(key) && OffersUpdate(e, key)
    ensures Separable(e)
  {
    hide Platform.SlashFree;
  }

  /** What the store holds for a key when cycle n begins. */
  ghost function Before(turns: seq<Turn>, n: nat, key: Key): Option<Observation>
    requires n <= |turns|
  {
    Stored(key, ChecksOf(key, RoundsOf(turns)[..n]))
  }

  lemma ReportOf(turns: seq<Turn>, n: nat, i: nat)
    requires AreProper(turns) && n < |turns| && i < |turns[n].round.jobs|
    ensures
      var env, job := turns[n].round.env, turns[n].round.jobs[i];
      && |Inputs(turns)[n].results| == |turns[n].round.jobs|
      && Inputs(turns)[n].results[i] ==
          GroupResult(env.base, env.registries(job.key.registry), job, Before(turns, n, job.key))
  {
    hide GroupResult, Stored, ChecksOf, Cycle.SequentialResult, Cycle.DistinctKeys, IsProperJob;
    assert forall k | 0 <= k < |turns| :: IsProper(turns[k].round);
    ReportDependsOnOwnKey(RoundsOf(turns), n, i);
  }

  /** Some member's own policy allows the event type. */
  ghost predicate SomeMemberAllows(base: Policy, members: seq<Container>, t: EventType)
  {
    exists i | 0 <= i < |members| :: Overlaid(base, members[i].labels).Allows(t)
  }

  /** An event of a report is notified, dedup aside, exactly when the check succeeded and some member allows it. */
  lemma EligibleIff(base: Policy, registry: Option<RegistryView>, job: Job, previous: Option<Observation>, e: Event)
    ensures Eligible(GroupResult(base, registry, job, previous), e) <==>
      Answered(registry, job.key).Success? && SomeMemberAllows(base, job.members, e.kind)
  {
    hide Overlaid, Merged, GroupEvents, Policy.Allows;
    var r := GroupResult(base, registry, job, previous);
    SomePicked(r, e.kind, |r.containerNames|);
    assert r.containerPolicies == PoliciesOf(base, job.members) && |r.containerNames| == |job.members|;
    assert forall i | 0 <= i < |job.members| :: AllowedAt(r, e.kind, i) == Overlaid(base, job.members[i].labels).Allows(e.kind);
    if i :| 0 <= i < |job.members| && Overlaid(base, job.members[i].labels).Allows(e.kind) {
      assert AllowedAt(r, e.kind, i);
    }
  }

  lemma EventsOfFound(turns: seq<Turn>, n: nat, i: nat)
    requires AreProper(turns) && n < |turns| && i < |turns[n].round.jobs|
    ensures
      var round, job := turns[n].round, turns[n].round.jobs[i];
      var r := Inputs(turns)[n].results[i];
      match Found(round, job)
      case Failure(_) => r.events == []
      case Success(m) =>
        && round.env.registries(job.key.registry).Some?
        && r.events == GroupEvents(round.env.registries(job.key.registry).value, job, Before(turns, n, job.key), m).0
  {
    hide GroupEvents, IsProper, Merged, PoliciesOf, Before;
    ReportOf(turns, n, i);
  }

  /** The events of every cycle are separable, and carry a digest only when they are about one. */
  lemma InputsAreProper(turns: seq<Turn>)
    requires AreProper(turns)
    ensures ProperEvents(Inputs(turns))
  {
    hide GroupEvents, GroupResult, TellsDigest, OffersUpdate, Separable, WorthTelling, IsDigestEvent, Before, Inputs;
    var run := Inputs(turns);
    forall n, i, j | 0 <= n < |run| && 0 <= i < |run[n].results| && 0 <= j < |run[n].results[i].events|
      ensures ProperEvent(run[n].results[i].events[j])
    {
      var round := turns[n].round;
      ResultsMatchJobs(turns, n);
      EventIsProper(turns, n, i, run[n].results[i].events[j]);
    }
  }

  lemma ResultsMatchJobs(turns: seq<Turn>, n: nat)
    requires n < |turns|
    ensures |Inputs(turns)[n].results| == |turns[n].round.jobs|
  {
  }

  lemma EventIsProper(turns: seq<Turn>, n: nat, i: nat, e: Event)
    requires AreProper(turns) && n < |turns| && i < |turns[n].round.jobs|
    requires e in Inputs(turns)[n].results[i].events
    ensures ProperEvent(e)
  {
    hide GroupEvents, GroupResult, TellsDigest, OffersUpdate, Separable, WorthTelling, IsDigestEvent, Before, Inputs, SeparableKey;
    var round, job := turns[n].round, turns[n].round.jobs[i];
    assert IsProper(round) && IsProperJob(round, job);
    EventsOfFound(turns, n, i);
    var m := Found(round, job).value;
    EventIsOfItsKey(round.env.registries(job.key.registry).value, job, Before(turns, n, job.key), m, e);
    if OffersUpdate(e, job.key) {
      OfferIsSeparable(e, job.key);
      OfferHasNoDigest(e, job.key);
    } else {
      TellingIsSeparable(e, job.key, m.platformManifestDigest);
    }
  }

  lemma OfferHasNoDigest(e: Event, key: Key)
    requires OffersUpdate(e, key)
    ensures e.candidateDigest == ""
  {
  }

  // -------------------------------------------------------------- told digests

  /** The check of job i of cycle n serves the digest, some member wants to know, and it is worth telling. */
  ghost predicate TellsIn(turns: seq<Turn>, n: nat, i: nat, digest: string)
    requires n < |turns| && i < |turns[n].round.jobs|
  {
    var round, job := turns[n].round, turns[n].round.jobs[i];
    && Found(round, job).Success? && Found(round, job).value.platformManifestDigest == digest
    && SomeMemberAllows(round.env.base, job.members, DigestEventType(ParsedTag(job.key.tag)))
    && WorthTelling(Before(turns, n, job.key), Digests(job.members), Found(round, job).value)
  }

  ghost predicate Tells(turns: seq<Turn>, n: nat, key: Key, digest: string)
    requires n < |turns|
  {
    exists i | 0 <= i < |turns[n].round.jobs| :: turns[n].round.jobs[i].key == key && TellsIn(turns, n, i, digest)
  }

  /** Of all the events of all the groups of a cycle, only a key's own digest events have its digest fingerprint. */
  lemma DetectedIffTells(turns: seq<Turn>, n: nat, key: Key, digest: string)
    requires AreProper(turns) && n < |turns| && SeparableKey(key) && '|' !in digest
    ensures Detected(Inputs(turns)[n].results, DigestFingerprint(key, digest)) <==> Tells(turns, n, key, digest)
  {
    hide Eligible, TellsIn, DigestFingerprint, Inputs, Fingerprint, SeparableKey, IsProper;
    var results, fp := Inputs(turns)[n].results, DigestFingerprint(key, digest);
    ResultsMatchJobs(turns, n);
    if Detected(results, fp) {
      var i, j :| 0 <= i < |results| && 0 <= j < |results[i].events| &&
        Eligible(results[i], results[i].events[j]) && Fingerprint(results[i].events[j]) == fp;
      DetectedTells(turns, n, i, j, key, digest);
    }
    if Tells(turns, n, key, digest) {
      var i :| 0 <= i < |turns[n].round.jobs| && turns[n].round.jobs[i].key == key && TellsIn(turns, n, i, digest);
      var j := TellingIsDetected(turns, n, i, digest);
      assert Eligible(results[i], results[i].events[j]);
    }
  }

  lemma DetectedTells(turns: seq<Turn>, n: nat, i: nat, j: nat, key: Key, digest: string)
    requires AreProper(turns) && n < |turns| && SeparableKey(key) && '|' !in digest
    requires i < |turns[n].round.jobs| == |Inputs(turns)[n].results| && j < |Inputs(turns)[n].results[i].events|
    requires Eligible(Inputs(turns)[n].results[i], Inputs(turns)[n].results[i].events[j])
    requires Fingerprint(Inputs(turns)[n].results[i].events[j]) == DigestFingerprint(key, digest)
    ensures turns[n].round.jobs[i].key == key && TellsIn(turns, n, i, digest)
  {
    hide GroupEvents, GroupResult, WorthTelling, Before, Inputs, SeparableKey, ParsedTag, Fingerprint, Eligible, SomeMemberAllows;
    hide DigestPart;
    var round, job := turns[n].round, turns[n].round.jobs[i];
    assert IsProper(round) && IsProperJob(round, job);
    var e := Inputs(turns)[n].results[i].events[j];
    EventsOfFound(turns, n, i);
    ReportOf(turns, n, i);
    EligibleIff(round.env.base, round.env.registries(job.key.registry), job, Before(turns, n, job.key), e);
    var m := Found(round, job).value;
    EventIsOfItsKey(round.env.registries(job.key.registry).value, job, Before(turns, n, job.key), m, e);
    EventIsProper(turns, n, i, e);
    var f := DigestEvent(key, ParsedTag(key.tag), "", digest, None, 0);
    assert TellsDigest(f, key, digest);
    TellingIsSeparable(f, key, digest);
    FingerprintIsIdentity(e, f);
    assert job.key == key;
  }

  lemma TellingIsDetected(turns: seq<Turn>, n: nat, i: nat, digest: string) returns (j: nat)
    requires AreProper(turns) && n < |turns| && i < |turns[n].round.jobs| == |Inputs(turns)[n].results|
    requires TellsIn(turns, n, i, digest)
    ensures
      var r := Inputs(turns)[n].results[i];
      && j < |r.events| && Eligible(r, r.events[j])
      && Fingerprint(r.events[j]) == DigestFingerprint(turns[n].round.jobs[i].key, digest)
  {
    hide GroupEvents, GroupResult, Before, Inputs, ParsedTag, Fingerprint, Eligible, SomeMemberAllows, IsProper;
    hide DigestPart, WorthTelling, DigestFingerprint, CandidateOutcome;
    j := 0;
    var round, job := turns[n].round, turns[n].round.jobs[i];
    var previous, m := Before(turns, n, job.key), Found(round, job).value;
    EventsOfFound(turns, n, i);
    ReportOf(turns, n, i);
    GroupEventsSplit(round.env.registries(job.key.registry).value, job, previous, m);
    var e := DigestPart(job, previous, m)[0];
    assert TellsDigest(e, job.key, digest);
    TellingHasFingerprint(e, job.key, digest);
    EligibleIff(round.env.base, round.env.registries(job.key.registry), job, previous, e);
  }

  /**
    Over any run of daemon cycles: a cycle's notification tells that a key now serves a digest exactly when
    its own check makes that worth telling to some container, and no earlier notification that told it was
    accepted by a notifier.
  */
  lemma DigestIsToldIff(turns: seq<Turn>, n: nat, key: Key, digest: string)
    requires AreProper(turns) && n < |turns| && SeparableKey(key) && '|' !in digest
    ensures
      var run, fp := Inputs(turns), DigestFingerprint(key, digest);
      Carries(ItemsAt(run, n), fp) <==> Tells(turns, n, key, digest) && !exists k: nat | k < n :: AcknowledgedAt(run, k, fp)
  {
    hide Tells, DigestFingerprint, Inputs, NoteItems, Recorded, Carries, Detected, AcknowledgedAt, SeparableKey, AreProper;
    var run, fp := Inputs(turns), DigestFingerprint(key, digest);
    NoteCarriesIffDue(run[n].results, Recorded(run[..n]), fp);
    RecordedIffAcknowledgedBefore(run, n, fp);
    DetectedIffTells(turns, n, key, digest);
  }

  lemma AcknowledgedIsTold(turns: seq<Turn>, n: nat, key: Key, digest: string)
    requires AreProper(turns) && n < |turns| && SeparableKey(key) && '|' !in digest
    requires AcknowledgedAt(Inputs(turns), n, DigestFingerprint(key, digest))
    ensures Tells(turns, n, key, digest)
  {
    hide Tells, DigestFingerprint, Inputs, NoteItems, Recorded, Carries, Acknowledged, SeparableKey, AreProper;
    var run, fp := Inputs(turns), DigestFingerprint(key, digest);
    AcknowledgedIsCarried(ItemsAt(run, n), run[n].individual, run[n].outcomes, fp);
    DigestIsToldIff(turns, n, key, digest);
  }

  // ------------------------------------------- transitions, delivered or not

  /** The checks of a key grow by one in each cycle that checks it. */
  lemma ChecksGrow(turns: seq<Turn>, n: nat, key: Key)
    requires AreProper(turns) && n < |turns|
    ensures
      var rounds, jobs := RoundsOf(turns), turns[n].round.jobs;
      && (forall i | 0 <= i < |jobs| && jobs[i].key == key ::
            ChecksOf(key, rounds[..n + 1]) ==
              ChecksOf(key, rounds[..n]) + [Check(turns[n].round.env.registries(key.registry), jobs[i].now)])
      && ((forall i | 0 <= i < |jobs| :: jobs[i].key != key) ==> ChecksOf(key, rounds[..n + 1]) == ChecksOf(key, rounds[..n]))
  {
    hide TimeOf, IsProperJob;
    var rounds, jobs := RoundsOf(turns), turns[n].round.jobs;
    assert IsProper(turns[n].round);
    assert rounds[..n + 1][..n] == rounds[..n] && rounds[..n + 1][n] == turns[n].round;
    TimeOfJob(key, jobs);
  }

  /** What a transition of the baseline gives rise to: it is told unless an earlier notification that told its digest was accepted. */
  lemma FiredTransitionIsToldIff(turns: seq<Turn>, n: nat, i: nat)
    requires AreProper(turns) && n < |turns| && i < |turns[n].round.jobs|
    requires
      var key := turns[n].round.jobs[i].key;
      Fires(key, ChecksOf(key, RoundsOf(turns)[..n + 1]), |ChecksOf(key, RoundsOf(turns)[..n])|)
    requires
      var job := turns[n].round.jobs[i];
      SomeMemberAllows(turns[n].round.env.base, job.members, DigestEventType(ParsedTag(job.key.tag)))
    ensures Found(turns[n].round, turns[n].round.jobs[i]).Success?
    ensures
      var run, job := Inputs(turns), turns[n].round.jobs[i];
      var fp := DigestFingerprint(job.key, Found(turns[n].round, job).value.platformManifestDigest);
      Carries(ItemsAt(run, n), fp) <==> !exists k: nat | k < n :: AcknowledgedAt(run, k, fp)
  {
    hide DigestFingerprint, Inputs, NoteItems, Recorded, Carries, AcknowledgedAt, ParsedTag, SomeMemberAllows, Stored, Answered;
    hide Drifted, ChecksOf;
    var job := turns[n].round.jobs[i];
    assert IsProper(turns[n].round) && IsProperJob(turns[n].round, job);
    ChecksGrow(turns, n, job.key);
    var checks := ChecksOf(job.key, RoundsOf(turns)[..n]);
    assert ChecksOf(job.key, RoundsOf(turns)[..n + 1])[..|checks|] == checks;
    var digest := Found(turns[n].round, job).value.platformManifestDigest;
    assert Transition(Before(turns, n, job.key), digest);
    assert TellsIn(turns, n, i, digest);
    DigestIsToldIff(turns, n, job.key, digest);
  }

  /** In cycle j the key is not checked, or its check fails, or it serves the digest. */
  ghost predicate KeepsServing(turns: seq<Turn>, j: nat, key: Key, digest: string)
    requires j < |turns|
  {
    forall i | 0 <= i < |turns[j].round.jobs| && turns[j].round.jobs[i].key == key ::
      var found := Found(turns[j].round, turns[j].round.jobs[i]);
      found.Success? ==> found.value.platformManifestDigest == digest
  }

  ghost predicate Serves(turns: seq<Turn>, n: nat, key: Key, digest: string)
    requires n < |turns|
  {
    exists i | 0 <= i < |turns[n].round.jobs| :: turns[n].round.jobs[i].key == key && ServesAs(turns, n, i, digest)
  }

  ghost predicate ServesAs(turns: seq<Turn>, n: nat, i: nat, digest: string)
    requires n < |turns| && i < |turns[n].round.jobs|
  {
    var found := Found(turns[n].round, turns[n].round.jobs[i]);
    found.Success? && found.value.platformManifestDigest == digest
  }

  lemma LastSuccessAppend(key: Key, checks: seq<Check>, c: Check)
    ensures LastSuccess(key, checks + [c]) ==
      if Outcome(key, c).Success? then Some(Outcome(key, c).value) else LastSuccess(key, checks)
  {
    assert (checks + [c])[..|checks|] == checks;
  }

  lemma {:induction false} BaselineSince(turns: seq<Turn>, n: nat, m: nat, key: Key, digest: string)
    requires AreProper(turns) && n < m <= |turns| && Serves(turns, n, key, digest)
    requires forall j | n < j < m :: KeepsServing(turns, j, key, digest)
    ensures
      var last := LastSuccess(key, ChecksOf(key, RoundsOf(turns)[..m]));
      last.Some? && last.value.platformManifestDigest == digest
  {
    hide AreProper, ChecksOf, LastSuccess, Answered;
    var before, round := ChecksOf(key, RoundsOf(turns)[..m - 1]), turns[m - 1].round;
    ChecksGrow(turns, m - 1, key);
    if m - 1 == n {
      var i :| 0 <= i < |round.jobs| && round.jobs[i].key == key && ServesAs(turns, n, i, digest);
      LastSuccessAppend(key, before, Check(round.env.registries(key.registry), round.jobs[i].now));
    } else {
      BaselineSince(turns, n, m - 1, key, digest);
      assert KeepsServing(turns, m - 1, key, digest);
      if i :| 0 <= i < |round.jobs| && round.jobs[i].key == key {
        LastSuccessAppend(key, before, Check(round.env.registries(key.registry), round.jobs[i].now));
      }
    }
  }

  /** Some container of the key runs a known digest other than the one its check serves, and some member wants to know. */
  ghost predicate Drifts(turns: seq<Turn>, n: nat, key: Key)
    requires n < |turns|
  {
    exists i | 0 <= i < |turns[n].round.jobs| :: turns[n].round.jobs[i].key == key && DriftsIn(turns, n, i)
  }

  ghost predicate DriftsIn(turns: seq<Turn>, n: nat, i: nat)
    requires n < |turns| && i < |turns[n].round.jobs|
  {
    var round, job := turns[n].round, turns[n].round.jobs[i];
    && Found(round, job).Success? && Served(Found(round, job).value) != ""
    && Drifted(Digests(job.members), Served(Found(round, job).value)) != {}
    && SomeMemberAllows(round.env.base, job.members, DigestEventType(ParsedTag(job.key.tag)))
  }

  /** While a key keeps serving a digest, only drift makes the digest worth telling again. */
  lemma ToldAgainIffDrifts(turns: seq<Turn>, n: nat, m: nat, key: Key, digest: string)
    requires AreProper(turns) && n < m < |turns| && Serves(turns, n, key, digest)
    requires forall j | n < j <= m :: KeepsServing(turns, j, key, digest)
    ensures Tells(turns, m, key, digest) <==> Drifts(turns, m, key)
  {
    hide AreProper, ChecksOf, LastSuccess, Answered, Stored, Drifted, SomeMemberAllows, ParsedTag, Transition;
    BaselineSince(turns, n, m, key, digest);
    TransitionIffDigestChanged(key, ChecksOf(key, RoundsOf(turns)[..m]), digest);
    assert KeepsServing(turns, m, key, digest);
    forall i | 0 <= i < |turns[m].round.jobs| && turns[m].round.jobs[i].key == key
      ensures TellsIn(turns, m, i, digest) <==> DriftsIn(turns, m, i)
    {
    }
  }

  /**
    A transition fires once, and a notification of it that no notifier accepts is built again only with the
    help of drift: as long as the key keeps serving the new digest, a later cycle tells it again exactly when
    some container then runs another digest, and no notification that told it has been accepted.
  */
  lemma UndeliveredTransitionIsRetriedIff(turns: seq<Turn>, n: nat, m: nat, key: Key, digest: string)
    requires AreProper(turns) && SeparableKey(key) && '|' !in digest
    requires n < m < |turns| && Serves(turns, n, key, digest)
    requires forall j | n < j <= m :: KeepsServing(turns, j, key, digest)
    ensures
      var run, fp := Inputs(turns), DigestFingerprint(key, digest);
      Carries(ItemsAt(run, m), fp) <==> Drifts(turns, m, key) && !exists k: nat | k < m :: AcknowledgedAt(run, k, fp)
  {
    hide AreProper, Tells, Drifts, Serves, KeepsServing, DigestFingerprint, Inputs, Carries, NoteItems, Recorded, AcknowledgedAt;
    hide SeparableKey;
    ToldAgainIffDrifts(turns, n, m, key, digest);
    DigestIsToldIff(turns, m, key, digest);
  }

  // ------------------------------------------------------------------ examples

  /** A container of the key whose running digest is not known. */
  function ExampleMember(key: Key): Container
  {
    Container("web", ImageOf(key), "", key.platform, map[])
  }

  function Serving(digest: string): RegistryView
  {
    RegistryView((_, _, _) => Success(Manifest("", digest)), _ => Failure("not listed"))
  }

  /** One container checked once per cycle, against a registry that serves the given digests in turn. */
  function ExampleTurns(key: Key, digests: seq<string>, outcomes: nat -> seq<bool>): (turns: seq<Turn>)
    ensures |turns| == |digests|
    ensures forall n | 0 <= n < |digests| :: turns[n] == ExampleTurn(key, digests[n], outcomes(n))
  {
    seq(|digests|, n requires 0 <= n < |digests| => ExampleTurn(key, digests[n], outcomes(n)))
  }

  function ExampleTurn(key: Key, digest: string, answers: seq<bool>): Turn
  {
    Turn(Round(Cycle.Env(DEFAULT, _ => Some(Serving(digest))), [Job(key, [ExampleMember(key)], [], 0)], 1), false, _ => answers)
  }

  ghost predicate AreDigests(digests: seq<string>)
  {
    forall n | 0 <= n < |digests| :: digests[n] != "" && '|' !in digests[n]
  }

  lemma ExampleIsProper(key: Key, digests: seq<string>, outcomes: nat -> seq<bool>)
    requires SeparableKey(key) && AreDigests(digests)
    ensures AreProper(ExampleTurns(key, digests, outcomes))
  {
  }

  lemma ExampleAllows(key: Key)
    ensures SomeMemberAllows(DEFAULT, [ExampleMember(key)], DigestEventType(ParsedTag(key.tag)))
  {
    hide ParsedTag;
    assert Overlaid(DEFAULT, [ExampleMember(key)][0].labels).Allows(DigestEventType(ParsedTag(key.tag)));
  }

  /** In the example a digest is told exactly by the cycle in which it appears. */
  lemma ExampleTells(key: Key, digests: seq<string>, outcomes: nat -> seq<bool>, n: nat, digest: string)
    requires SeparableKey(key) && AreDigests(digests) && n < |digests|
    ensures Tells(ExampleTurns(key, digests, outcomes), n, key, digest) <==>
      n > 0 && digests[n] == digest && digests[n - 1] != digest
  {
    hide ParsedTag, SomeMemberAllows, ChecksOf, Stored, LastSuccess, AreProper, ExampleMember, DEFAULT;
    var turns := ExampleTurns(key, digests, outcomes);
    ExampleIsProper(key, digests, outcomes);
    ExampleAllows(key);
    ExampleNeverDrifts(key, digests[n]);
    var checks := ChecksOf(key, RoundsOf(turns)[..n]);
    TransitionIffDigestChanged(key, checks, digests[n]);
    if n == 0 {
      NothingYet(key);
      NoChecksYet(key);
      assert RoundsOf(turns)[..0] == [];
    } else {
      assert ServesAs(turns, n - 1, 0, digests[n - 1]);
      BaselineSince(turns, n - 1, n, key, digests[n - 1]);
    }
    assert TellsIn(turns, n, 0, digest) <==> digests[n] == digest && Transition(Before(turns, n, key), digest);
  }

  lemma NoChecksYet(key: Key)
    ensures ChecksOf(key, []) == []
  {
  }

  lemma ExampleNeverDrifts(key: Key, digest: string)
    ensures Drifted(Digests([ExampleMember(key)]), digest) == {}
  {
  }

  /**
    A transition can be lost: the digest changes, no notifier accepts the one notification that tells it, and
    however long the new digest is served to however willing notifiers, no later cycle tells it.
  */
  lemma TransitionMayBeLost(key: Key, before: string, after: string, digests: seq<string>, outcomes: nat -> seq<bool>)
    requires SeparableKey(key) && AreDigests(digests) && |digests| >= 2 && digests[0] == before && before != after
    requires (forall n | 1 <= n < |digests| :: digests[n] == after) && true !in outcomes(1)
    ensures
      var run, fp := Inputs(ExampleTurns(key, digests, outcomes)), DigestFingerprint(key, after);
      && Carries(ItemsAt(run, 1), fp)
      && (forall n: nat | 2 <= n < |digests| :: !Carries(ItemsAt(run, n), fp))
      && fp !in Recorded(run)
  {
    hide Tells, DigestFingerprint, Inputs, NoteItems, Recorded, Carries, AcknowledgedAt, SeparableKey, AreProper;
    var turns, fp := ExampleTurns(key, digests, outcomes), DigestFingerprint(key, after);
    var run := Inputs(turns);
    ExampleIsProper(key, digests, outcomes);
    forall n: nat | n < |digests|
      ensures Carries(ItemsAt(run, n), fp) <==> n == 1 && !exists k: nat | k < n :: AcknowledgedAt(run, k, fp)
      ensures !AcknowledgedAt(run, n, fp)
    {
      ExampleTells(key, digests, outcomes, n, after);
      DigestIsToldIff(turns, n, key, after);
      if AcknowledgedAt(run, n, fp) {
        AcknowledgedIsTold(turns, n, key, after);
        RefusedIsNotAcknowledged(turns, 1, fp);
      }
    }
    RecordedIffAcknowledged(run, fp);
  }

  lemma RefusedIsNotAcknowledged(turns: seq<Turn>, n: nat, fp: string)
    requires n < |turns| && forall c :: true !in turns[n].outcomes(c)
    ensures !AcknowledgedAt(Inputs(turns), n, fp)
  {
  }

  /**
    A tag that moves from one digest to another, back, and again to the other fires three times, but the last
    move is told exactly when the notification of the first one was not accepted: delivered news of a digest
    silences every later move to it.
  */
  lemma MovedAgainIsToldIff(key: Key, a: string, b: string, outcomes: nat -> seq<bool>)
    requires SeparableKey(key) && a != b && AreDigests([a, b, a, b])
    ensures
      var turns := ExampleTurns(key, [a, b, a, b], outcomes);
      var run, fp := Inputs(turns), DigestFingerprint(key, b);
      && Tells(turns, 1, key, b) && Tells(turns, 2, key, a) && Tells(turns, 3, key, b)
      && (Carries(ItemsAt(run, 3), fp) <==> !AcknowledgedAt(run, 1, fp))
  {
    hide Tells, DigestFingerprint, Inputs, NoteItems, Recorded, Carries, AcknowledgedAt, SeparableKey, AreProper;
    var digests := [a, b, a, b];
    var turns, fp := ExampleTurns(key, digests, outcomes), DigestFingerprint(key, b);
    var run := Inputs(turns);
    ExampleIsProper(key, digests, outcomes);
    ExampleTells(key, digests, outcomes, 2, a);
    forall n: nat | n < 4
      ensures Tells(turns, n, key, b) <==> n == 1 || n == 3
      ensures AcknowledgedAt(run, n, fp) ==> n == 1 || n == 3
    {
      ExampleTells(key, digests, outcomes, n, b);
      if AcknowledgedAt(run, n, fp) {
        AcknowledgedIsTold(turns, n, key, b);
      }
    }
    DigestIsToldIff(turns, 3, key, b);
  }

  // ----------------------------------------------------------- told updates

  /**
    Over any run of daemon cycles: an update that a check finds and some member wants to know of has its item
    in that cycle's notification exactly when no earlier notification of an update of the same stream and kind
    was accepted.
  */
  lemma UpdateIsToldIff(turns: seq<Turn>, n: nat, i: nat, j: nat)
    requires AreProper(turns) && n < |turns| && i < |turns[n].round.jobs| == |Inputs(turns)[n].results|
    requires j < |Inputs(turns)[n].results[i].events| && !IsDigestEvent(Inputs(turns)[n].results[i].events[j])
    requires SomeMemberAllows(turns[n].round.env.base, turns[n].round.jobs[i].members, Inputs(turns)[n].results[i].events[j].kind)
    ensures
      var run, r, e := Inputs(turns), Inputs(turns)[n].results[i], Inputs(turns)[n].results[i].events[j];
      ItemOf(r, e) in ItemsAt(run, n) <==> !exists m: nat | m < n :: ToldAt(run, m, e)
  {
    hide GroupResult, GroupEvents, Before, NoteItems, ToldAt, Recorded, SomeMemberAllows, ItemOf, IsProper, ProperEvents, Eligible;
    hide IsDigestEvent, Inputs, Answered;
    var env, job, e := turns[n].round.env, turns[n].round.jobs[i], Inputs(turns)[n].results[i].events[j];
    InputsAreProper(turns);
    ReportOf(turns, n, i);
    EventsOfFound(turns, n, i);
    EligibleIff(env.base, env.registries(job.key.registry), job, Before(turns, n, job.key), e);
    UpdateIsNotifiedIff(Inputs(turns), n, i, j);
  }

  function Listing(tags: seq<string>): RegistryView
  {
    RegistryView((_, _, _) => Success(Manifest("", "sha256:0")), _ => Success(tags))
  }

  /** One container of the key, checked against a registry that lists the given tags and never moves one. */
  function ReleaseTurn(key: Key, tags: seq<string>, answers: seq<bool>): Turn
  {
    Turn(Round(Cycle.Env(DEFAULT, _ => Some(Listing(tags))), [Job(key, [ExampleMember(key)], [], 0)], 1), false, _ => answers)
  }

  /** The report of cycle n ends with the news that the release is available as a patch. */
  ghost predicate ReportsPatch(run: seq<CycleInput>, n: nat, key: Key, w: SemVer)
  {
    n < |run| && |run[n].results| == 1 && run[n].results[0].events != [] &&
    var r := run[n].results[0];
    var e := r.events[|r.events| - 1];
    Eligible(r, e) && e.kind == PatchAvailable && e.candidateTag == w.String() && OffersUpdate(e, key)
  }

  lemma PatchIsReported(view: RegistryView, job: Job, previous: Option<Observation>, m: Manifest, v: SemVer, ws: seq<SemVer>)
    requires CandidateOrder.ArePatches(v, ws) && ws != [] && job.key.tag == v.String()
    requires view == Listing(CandidateOrder.TextsOf(ws))
    ensures
      var events := GroupEvents(view, job, previous, m).0;
      && events != [] && events[|events| - 1].kind == PatchAvailable
      && events[|events| - 1].candidateTag == ws[|ws| - 1].String() && OffersUpdate(events[|events| - 1], job.key)
  {
    hide ParsedTag, FirstUsable, SemVer.String, Candidates.IsAnalysisOf, GroupEvents, DigestPart;
    PlainTagReadsBack(v);
    CandidateOrder.LastPatchIsChosen(v, ws);
    GroupEventsSplit(view, job, previous, m);
    var cs := Candidates.Analysis(job.key.tag, CandidateOrder.TextsOf(ws));
    var last := ws[|ws| - 1];
    var entry := Entry(PatchAvailable, Candidates.Candidate(last.String(), Reading(last)));
    assert Entries(cs) == [entry];
    assert [entry][..0] == [] && [entry][0] == entry;
    assert |CandidateEvents(view, job.key, cs, [entry], job.now).0| == 1;
  }

  lemma ReleaseTurnsAreProper(turns: seq<Turn>, key: Key)
    requires SeparableKey(key)
    requires forall n | 0 <= n < |turns| :: exists tags, answers :: turns[n] == ReleaseTurn(key, tags, answers)
    ensures AreProper(turns)
  {
  }

  lemma ReleaseTurnReports(turns: seq<Turn>, n: nat, key: Key, v: SemVer, ws: seq<SemVer>, answers: seq<bool>)
    requires AreProper(turns) && n < |turns| && turns[n] == ReleaseTurn(key, CandidateOrder.TextsOf(ws), answers)
    requires CandidateOrder.ArePatches(v, ws) && ws != [] && key.tag == v.String()
    ensures ReportsPatch(Inputs(turns), n, key, ws[|ws| - 1])
  {
    hide ParsedTag, SemVer.String, GroupEvents, GroupResult, Before, Eligible, AreProper, SeparableKey, Inputs, CandidateOrder.ArePatches;
    var round, job := turns[n].round, turns[n].round.jobs[0];
    var m := Manifest("", "sha256:0");
    assert Found(round, job) == Success(m);
    EventsOfFound(turns, n, 0);
    ReportOf(turns, n, 0);
    PatchIsReported(Listing(CandidateOrder.TextsOf(ws)), job, Before(turns, n, key), m, v, ws);
    var r := Inputs(turns)[n].results[0];
    assert Overlaid(DEFAULT, job.members[0].labels).Allows(PatchAvailable);
    EligibleIff(DEFAULT, round.env.registries(key.registry), job, Before(turns, n, key), r.events[|r.events| - 1]);
  }

  lemma BatchIsAcknowledgedIff(items: seq<Item>, outcomes: nat -> seq<bool>, fp: string)
    requires Carries(items, fp)
    ensures Acknowledged(items, false, outcomes, fp) <==> true in outcomes(0)
  {
    assert items != [] && Calls(items, false)[0] == items;
  }

  /** In the first cycle of a run everything eligible is carried. */
  lemma FirstCycleTells(run: seq<CycleInput>, i: nat, j: nat)
    requires run != [] && i < |run[0].results| && j < |run[0].results[i].events|
    requires Eligible(run[0].results[i], run[0].results[i].events[j]) && !run[0].individual
    ensures AcknowledgedAt(run, 0, Fingerprint(run[0].results[i].events[j])) <==> true in run[0].outcomes(0)
  {
    hide Eligible, Fingerprint, NoteItems, Acknowledged, Carries;
    var fp := Fingerprint(run[0].results[i].events[j]);
    assert run[..0] == [];
    NoteCarriesIffDue(run[0].results, {}, fp);
    BatchIsAcknowledgedIff(ItemsAt(run, 0), run[0].outcomes, fp);
  }

  /** Two cycles that report an update of the same stream and kind: the second tells it iff the first's was not accepted. */
  lemma SecondIsToldIff(run: seq<CycleInput>, i: nat, j: nat, k: nat, l: nat)
    requires |run| == 2 && ProperEvents(run) && !run[0].individual
    requires i < |run[0].results| && j < |run[0].results[i].events| && Eligible(run[0].results[i], run[0].results[i].events[j])
    requires k < |run[1].results| && l < |run[1].results[k].events| && Eligible(run[1].results[k], run[1].results[k].events[l])
    requires !IsDigestEvent(run[1].results[k].events[l])
    requires SameStreamAndKind(run[0].results[i].events[j], run[1].results[k].events[l])
    ensures ItemOf(run[1].results[k], run[1].results[k].events[l]) in ItemsAt(run, 1) <==> true !in run[0].outcomes(0)
  {
    hide Eligible, Fingerprint, NoteItems, AcknowledgedAt, Recorded, ToldAt, ItemOf, ProperEvent, IsDigestEvent, SameStreamAndKind;
    var e := run[1].results[k].events[l];
    assert ProperEvent(e) && ProperEvent(run[0].results[i].events[j]);
    SameSubjectIffSameFingerprint(e, run[0].results[i].events[j]);
    FirstCycleTells(run, i, j);
    ToldAtIffAcknowledged(run, 0, e);
    UpdateIsNotifiedIff(run, 1, k, l);
  }

  /** Two cycles: a first release is listed, then a second one as well. */
  function ReleaseTurns(key: Key, x: SemVer, y: SemVer, answers: seq<bool>, later: seq<bool>): (turns: seq<Turn>)
    ensures |turns| == 2
  {
    [ReleaseTurn(key, [x.String()], answers), ReleaseTurn(key, [x.String(), y.String()], later)]
  }

  lemma ReleasesAreReported(key: Key, v: SemVer, x: SemVer, y: SemVer, answers: seq<bool>, later: seq<bool>)
    requires SeparableKey(key) && key.tag == v.String() && CandidateOrder.ArePatches(v, [x, y])
    ensures
      var turns := ReleaseTurns(key, x, y, answers, later);
      && AreProper(turns) && ReportsPatch(Inputs(turns), 0, key, x) && ReportsPatch(Inputs(turns), 1, key, y)
      && !turns[0].individual && turns[0].outcomes(0) == answers
  {
    hide SemVer.String, Inputs, SeparableKey, AreProper, ReportsPatch, CandidateOrder.ArePatches;
    var turns := ReleaseTurns(key, x, y, answers, later);
    ReleaseTurnsAreProper(turns, key);
    assert CandidateOrder.TextsOf([x]) == [x.String()] && CandidateOrder.TextsOf([x, y]) == [x.String(), y.String()];
    FirstOfPatches(v, x, y);
    ReleaseTurnReports(turns, 0, key, v, [x], answers);
    ReleaseTurnReports(turns, 1, key, v, [x, y], later);
  }

  /**
    A newer release can be silenced: a container runs one version, a first patch release appears and then a
    second, and the second, though reported, has an item exactly when no notifier accepted the first's.
  */
  lemma NewerReleaseIsToldIff(key: Key, v: SemVer, x: SemVer, y: SemVer, answers: seq<bool>, later: seq<bool>)
    requires SeparableKey(key) && key.tag == v.String() && CandidateOrder.ArePatches(v, [x, y])
    ensures
      var run := Inputs(ReleaseTurns(key, x, y, answers, later));
      && ReportsPatch(run, 0, key, x) && ReportsPatch(run, 1, key, y)
      && var r := run[1].results[0];
         ItemOf(r, r.events[|r.events| - 1]) in ItemsAt(run, 1) <==> true !in answers
  {
    hide SemVer.String, SeparableKey, AreProper, ProperEvents, ReportsPatch, CandidateOrder.ArePatches, ReleaseTurns, NoteItems, ItemOf;
    var turns := ReleaseTurns(key, x, y, answers, later);
    ReleasesAreReported(key, v, x, y, answers, later);
    InputsAreProper(turns);
    SecondReportIsToldIff(Inputs(turns), key, x, y);
  }

  lemma SecondReportIsToldIff(run: seq<CycleInput>, key: Key, x: SemVer, y: SemVer)
    requires |run| == 2 && ProperEvents(run) && !run[0].individual && ReportsPatch(run, 0, key, x) && ReportsPatch(run, 1, key, y)
    ensures
      var r := run[1].results[0];
      ItemOf(r, r.events[|r.events| - 1]) in ItemsAt(run, 1) <==> true !in run[0].outcomes(0)
  {
    hide SemVer.String, NoteItems, ItemOf, ProperEvents, Eligible;
    SecondIsToldIff(run, 0, |run[0].results[0].events| - 1, 0, |run[1].results[0].events| - 1);
  }

  lemma FirstOfPatches(v: SemVer, x: SemVer, y: SemVer)
    requires CandidateOrder.ArePatches(v, [x, y])
    ensures CandidateOrder.ArePatches(v, [x])
  {
    assert [x] == [x, y][..1];
  }
}
