/** cmd/image-watch/daemon.go:61-95 and 152-189, with the gauges of internal/metrics/metrics.go: what a cycle publishes. */
module Daemon {
  import opened Prelude
  import opened Images
  import opened SemVers
  import opened Tags
  import Candidates
  import opened Events
  import opened Policies
  import opened States
  import opened Registries
  import opened Groups
  import opened Detection
  import opened Checks
  import Cycle

  // --------------------------------------------------------------------- drift

  predicate DriftsAt(r: CheckResult, i: nat)
  {
    i < |r.containerDigests| && r.containerDigests[i] != "" && r.containerDigests[i] != r.servedDigest
  }

  datatype DigestDrift = DigestDrift(image: string, tag: string, platform: string, served: string, items: seq<string>)

  const DIGEST_PREFIX := "sha256:"

  /** A digest is shown by its first twelve digits. */
  function ShortDigest(s: string): string
  {
    if DIGEST_PREFIX <= s && |s| > |DIGEST_PREFIX| + 12 then s[..|DIGEST_PREFIX| + 12]
    else if |s| > 12 then s[..12]
    else s
  }

  /** Twelve digits of a SHA-256 digest are shown; one with no more than twelve is cut as any other text is, after twelve characters. */
  lemma TwelveDigitsAreShown(digits: string, other: string)
    requires !("sha256:" <= other)
    ensures ShortDigest("sha256:" + digits) ==
      if |digits| > 12 then "sha256:" + digits[..12] else if |digits| > 5 then "sha256:" + digits[..5] else "sha256:" + digits
    ensures ShortDigest(other) == if |other| > 12 then other[..12] else other
  {
    var s := "sha256:" + digits;
    assert s[..|"sha256:"|] == "sha256:";
    assert |digits| > 12 ==> s[..19] == "sha256:" + digits[..12];
    assert |digits| > 5 ==> s[..12] == "sha256:" + digits[..5];
  }

  /** The drifted containers with their digests, in order, or nothing when there is none or nothing is served. */
  method ComputeDigestDrift(r: CheckResult) returns (d: Option<DigestDrift>)
    ensures d.Some? <==> HasDrift(r)
    ensures d.Some? ==> d.value == DigestDrift(r.image.ImageName(), r.image.TagOrEmpty(), r.platform.String(),
      ShortDigest(r.servedDigest), DriftedItems(r, |r.containerNames|))
  {
    hide ShortDigest, Reference.ImageName, Platform.String;
    if r.servedDigest == "" {
      return None;
    }
    var items: seq<string> := [];
    for i := 0 to |r.containerNames|
      invariant items == DriftedItems(r, i)
    {
      var dig := "";
      if i < |r.containerDigests| {
        dig := r.containerDigests[i];
      }
      if dig == "" || dig == r.servedDigest {
        continue;
      }
      items := items + [r.containerNames[i] + "=" + ShortDigest(dig)];
    }
    SomeDriftedItem(r, |r.containerNames|);
    if |items| == 0 {
      return None;
    }
    return Some(DigestDrift(r.image.ImageName(), r.image.TagOrEmpty(), r.platform.String(), ShortDigest(r.servedDigest), items));
  }

  function DriftedItems(r: CheckResult, n: nat): seq<string>
    requires n <= |r.containerNames|
  {
    if n == 0 then []
    else
      DriftedItems(r, n - 1) +
        if DriftsAt(r, n - 1) then [r.containerNames[n - 1] + "=" + ShortDigest(r.containerDigests[n - 1])] else []
  }

  predicate HasDrift(r: CheckResult)
  {
    r.servedDigest != "" && exists i: nat | i < |r.containerNames| :: DriftsAt(r, i)
  }

  lemma {:induction false} SomeDriftedItem(r: CheckResult, n: nat)
    requires n <= |r.containerNames|
    ensures DriftedItems(r, n) != [] <==> exists i: nat | i < n :: DriftsAt(r, i)
  {
    if n > 0 {
      SomeDriftedItem(r, n - 1);
    }
  }

  /** The digest events of a list. */
  ghost function DigestEvents(events: seq<Event>): seq<Event>
  {
    if events == [] then []
    else DigestEvents(events[..|events| - 1]) + if IsDigestEvent(events[|events| - 1]) then [events[|events| - 1]] else []
  }

  lemma {:induction false} AllDigestEvents(events: seq<Event>)
    requires forall i | 0 <= i < |events| :: IsDigestEvent(events[i])
    ensures DigestEvents(events) == events
  {
    if events != [] {
      AllDigestEvents(events[..|events| - 1]);
    }
  }

  lemma {:induction false} DigestEventsAppend(a: seq<Event>, b: seq<Event>)
    ensures DigestEvents(a + b) == DigestEvents(a) + DigestEvents(b)
  {
    if b == [] {
      assert a + b == a;
    } else {
      assert (a + b)[..|a + b| - 1] == a + b[..|b| - 1];
      DigestEventsAppend(a, b[..|b| - 1]);
    }
  }

  lemma {:induction false} NoDigestEvents(events: seq<Event>)
    requires forall i | 0 <= i < |events| :: !IsDigestEvent(events[i])
    ensures DigestEvents(events) == []
  {
    if events != [] {
      NoDigestEvents(events[..|events| - 1]);
    }
  }

  lemma {:induction false} CandidateEventsAreNotDigestEvents(view: RegistryView, key: Key, cs: Candidates.CandidateSet,
                                                            entries: seq<Entry>, now: int)
    requires AreCandidates(entries)
    ensures NoneIsDigest(CandidateEvents(view, key, cs, entries, now).0)
  {
    if entries != [] {
      CandidateEventsAreNotDigestEvents(view, key, cs, entries[..|entries| - 1], now);
    }
  }

  ghost predicate NoneIsDigest(events: seq<Event>)
  {
    forall i | 0 <= i < |events| :: !IsDigestEvent(events[i])
  }

  lemma OutcomeIsNotDigest(view: RegistryView, key: Key, now: int)
    ensures NoneIsDigest(CandidateOutcome(view, key, now).0)
  {
    hide ParsedTag, Candidates.Analysis, CandidateEvents, Entries, FirstUsable, AreCandidates;
    if view.list(key.repository).Success? {
      var cs := Candidates.Analysis(key.tag, view.list(key.repository).value);
      EntriesAreCandidates(cs);
      CandidateEventsAreNotDigestEvents(view, key, cs, Entries(cs), now);
    }
  }

  /**
    Without a transition and with a known served digest, a check reports one drift event for each distinct
    known running digest other than the served one.
  */
  lemma DriftEventsCountDriftedDigests(view: RegistryView, job: Job, previous: Option<Observation>, m: Manifest)
    requires !Transition(previous, m.platformManifestDigest) && Served(m) != ""
    ensures |DigestEvents(GroupEvents(view, job, previous, m).0)| == |Drifted(Digests(job.members), Served(m))|
  {
    hide ParsedTag, CandidateOutcome, Distinct, Drifted;
    var tv := ParsedTag(job.key.tag);
    var transition := TransitionEvents(job.key, tv, previous, m.platformManifestDigest, job.hints, job.now);
    var drift := DriftEvents(job.key, tv, Served(m), m.platformManifestDigest, Digests(job.members), job.hints, job.now);
    var candidates := CandidateOutcome(view, job.key, job.now).0;
    assert GroupEvents(view, job, previous, m).0 == [] + drift + candidates;
    assert [] + drift + candidates == drift + candidates;
    DigestEventsAppend(drift, candidates);
    AllDigestEvents(drift);
    OutcomeIsNotDigest(view, job.key, job.now);
    NoDigestEvents(candidates);
    DistinctIsDrifted(Digests(job.members), Served(m));
  }

  /** The drift gauge and the drift events agree: the daemon sees drift exactly when some digest has drifted. */
  lemma DaemonDriftIffDigestsDrifted(base: Policy, view: RegistryView, job: Job, previous: Option<Observation>, m: Manifest)
    requires Answered(Some(view), job.key) == Success(m)
    ensures HasDrift(GroupResult(base, Some(view), job, previous)) <==>
      Served(m) != "" && |Drifted(Digests(job.members), Served(m))| > 0
  {
    hide GroupEvents, Answered, Merged, PoliciesOf;
    var r := GroupResult(base, Some(view), job, previous);
    var running := Digests(job.members);
    assert r.containerDigests == running && r.servedDigest == Served(m) && |r.containerNames| == |running|;
    if Served(m) != "" {
      if i: nat :| i < |r.containerNames| && DriftsAt(r, i) {
        assert running[i] in Drifted(running, Served(m));
      }
      if |Drifted(running, Served(m))| > 0 {
        var d :| d in Drifted(running, Served(m));
        var i :| 0 <= i < |running| && running[i] == d;
        assert DriftsAt(r, i);
      }
    }
  }

  /** Some digest event of a list has the fingerprint. */
  ghost predicate Announces(events: seq<Event>, fp: string)
  {
    exists i | 0 <= i < |events| :: IsDigestEvent(events[i]) && Fingerprint(events[i]) == fp
  }

  /** A digest event of a key, by everything that enters its fingerprint. */
  predicate TellsDigest(e: Event, key: Key, digest: string)
  {
    && e.image == ImageOf(key) && e.currentTag == key.tag && e.platform == key.platform
    && e.kind == DigestEventType(ParsedTag(key.tag)) && e.candidateDigest == digest
  }

  ghost predicate AllTellDigest(events: seq<Event>, key: Key, digest: string)
  {
    forall i | 0 <= i < |events| :: TellsDigest(events[i], key, digest)
  }

  /** Something about the served digest is worth telling: it has moved, or some container runs another one. */
  ghost predicate WorthTelling(previous: Option<Observation>, running: seq<string>, m: Manifest)
  {
    || Transition(previous, m.platformManifestDigest)
    || (Served(m) != "" && Drifted(running, Served(m)) != {})
  }

  /** The digest events of a check, which come first: there are some exactly when something is worth telling. */
  ghost function DigestPart(job: Job, previous: Option<Observation>, m: Manifest): (events: seq<Event>)
    ensures events != [] <==> WorthTelling(previous, Digests(job.members), m)
    ensures AllTellDigest(events, job.key, m.platformManifestDigest)
  {
    var tv, running := ParsedTag(job.key.tag), Digests(job.members);
    DistinctIsDrifted(running, Served(m));
    var transition := TransitionEvents(job.key, tv, previous, m.platformManifestDigest, job.hints, job.now);
    if transition != [] then transition
    else DriftEvents(job.key, tv, Served(m), m.platformManifestDigest, running, job.hints, job.now)
  }

  lemma GroupEventsSplit(view: RegistryView, job: Job, previous: Option<Observation>, m: Manifest)
    ensures GroupEvents(view, job, previous, m).0 == DigestPart(job, previous, m) + CandidateOutcome(view, job.key, job.now).0
  {
    hide ParsedTag, CandidateOutcome, TransitionEvents, DriftEvents;
  }

  /** The fingerprint of every event that tells a digest of a key. */
  function DigestFingerprint(key: Key, digest: string): string
  {
    Fingerprint(DigestEvent(key, ParsedTag(key.tag), "", digest, None, 0))
  }

  lemma TellingHasFingerprint(e: Event, key: Key, digest: string)
    requires TellsDigest(e, key, digest)
    ensures Fingerprint(e) == DigestFingerprint(key, digest)
  {
    hide ParsedTag, Fingerprint;
    FingerprintDependsOnFields(e, DigestEvent(key, ParsedTag(key.tag), "", digest, None, 0));
  }

  /**
    A check that serves a digest announces it, under the fingerprint of every transition to that digest,
    exactly when the check is itself a transition or some container runs a known digest other than the
    served one.
  */
  lemma DigestIsAnnouncedIff(view: RegistryView, job: Job, previous: Option<Observation>, m: Manifest)
    ensures Announces(GroupEvents(view, job, previous, m).0, DigestFingerprint(job.key, m.platformManifestDigest)) <==>
      WorthTelling(previous, Digests(job.members), m)
  {
    hide ParsedTag, CandidateOutcome, DigestPart, GroupEvents, TellsDigest, DigestFingerprint, WorthTelling, Fingerprint;
    var digests, candidates := DigestPart(job, previous, m), CandidateOutcome(view, job.key, job.now).0;
    GroupEventsSplit(view, job, previous, m);
    OutcomeIsNotDigest(view, job.key, job.now);
    if digests != [] {
      TellingIsDigestEvent(digests[0], job.key, m.platformManifestDigest);
      TellingHasFingerprint(digests[0], job.key, m.platformManifestDigest);
      assert (digests + candidates)[0] == digests[0];
    } else {
      assert digests + candidates == candidates;
    }
  }

  lemma TellingIsDigestEvent(e: Event, key: Key, digest: string)
    requires TellsDigest(e, key, digest)
    ensures IsDigestEvent(e)
  {
    hide ParsedTag;
  }

  // -------------------------------------------------------------------- gauges

  datatype Series = Series(image: string, tag: string, platform: string)

  const TRACKED: set<EventType> := {
    PatchAvailable, MinorAvailable, MajorAvailable, FamilyAdvancementAvailable,
    ApplicationPatchAvailable, ApplicationMinorAvailable, ApplicationMajorAvailable, BaseAdvancementAvailable,
    TagChanged, TagMutated, OtherPlatformUpdate}

  datatype Snapshot = Snapshot(stale: map<Series, bool>, available: map<(Series, EventType), bool>, drift: map<Series, bool>)

  function SeriesOf(r: CheckResult): Series
  {
    Series(r.image.ImageName(), r.image.TagOrEmpty(), r.platform.String())
  }

  predicate IsFresh(r: CheckResult)
  {
    r.err.None? && !r.partial
  }

  /** The event types a result makes available: those present that its folded policy allows. */
  function Present(r: CheckResult): set<EventType>
  {
    set i | 0 <= i < |r.events| && r.effectivePolicy.Allows(r.events[i].kind) :: r.events[i].kind
  }

  /** The gauges after one result: a result that is not fresh only marks its series stale. */
  ghost function Published(g: Snapshot, r: CheckResult): Snapshot
  {
    var s := SeriesOf(r);
    if !IsFresh(r) then g.(stale := g.stale[s := true])
    else Snapshot(
      g.stale[s := false],
      g.available + map t | t in TRACKED :: (s, t) := t in Present(r),
      g.drift[s := HasDrift(r)])
  }

  ghost function PublishedAll(g: Snapshot, results: seq<CheckResult>): Snapshot
  {
    if results == [] then g else Published(PublishedAll(g, results[..|results| - 1]), results[|results| - 1])
  }

  class Gauges {
    var stale: map<Series, bool>
    var available: map<(Series, EventType), bool>
    var drift: map<Series, bool>

    ghost function Now(): Snapshot
      reads this
    {
      Snapshot(stale, available, drift)
    }

    method UpdateAvailability(s: Series, isFresh: bool, present: set<EventType>)
      modifies this
      ensures drift == old(drift) && stale == old(stale)[s := !isFresh]
      ensures available == if isFresh then old(available) + map t | t in TRACKED :: (s, t) := t in present else old(available)
    {
      stale := stale[s := !isFresh];
      if !isFresh {
        return;
      }
      available := available + map t | t in TRACKED :: (s, t) := t in present;
    }

    method SetDigestDrift(s: Series, value: bool)
      modifies this`drift
      ensures drift == old(drift)[s := value]
    {
      drift := drift[s := value];
    }

    /** The per-result loop of a daemon cycle. */
    method PublishResults(results: seq<CheckResult>)
      modifies this
      ensures Now() == PublishedAll(old(Now()), results)
    {
      hide HasDrift, SeriesOf, Present;
      for i := 0 to |results|
        invariant Now() == PublishedAll(old(Now()), results[..i])
      {
        var r := results[i];
        assert results[..i + 1][..i] == results[..i];
        var d := ComputeDigestDrift(r);
        var present := CollectPresent(r);
        UpdateAvailability(SeriesOf(r), IsFresh(r), present);
        if IsFresh(r) {
          SetDigestDrift(SeriesOf(r), d.Some?);
        }
      }
      assert results[..|results|] == results;
    }

    method CollectPresent(r: CheckResult) returns (present: set<EventType>)
      ensures present == Present(r)
    {
      present := {};
      for i := 0 to |r.events|
        invariant present == set j | 0 <= j < i && r.effectivePolicy.Allows(r.events[j].kind) :: r.events[j].kind
      {
        if r.effectivePolicy.Allows(r.events[i].kind) {
          present := present + {r.events[i].kind};
        }
      }
    }
  }

  /** Two snapshots say the same about a series. */
  ghost predicate SameSeries(g: Snapshot, h: Snapshot, s: Series)
  {
    && (s in g.stale <==> s in h.stale) && (s in g.stale ==> g.stale[s] == h.stale[s])
    && SameReadings(g, h, s)
  }

  ghost predicate SameReadings(g: Snapshot, h: Snapshot, s: Series)
  {
    && (forall t: EventType :: ((s, t) in g.available <==> (s, t) in h.available) &&
          ((s, t) in g.available ==> g.available[(s, t)] == h.available[(s, t)]))
    && (s in g.drift <==> s in h.drift) && (s in g.drift ==> g.drift[s] == h.drift[s])
  }

  /** What a snapshot says about a series after its result, given what it said before. */
  ghost predicate Shows(g: Snapshot, before: Snapshot, r: CheckResult)
  {
    var s := SeriesOf(r);
    && s in g.stale && g.stale[s] == !IsFresh(r)
    && (IsFresh(r) ==> s in g.drift && g.drift[s] == HasDrift(r))
    && (IsFresh(r) ==> forall t | t in TRACKED :: (s, t) in g.available && g.available[(s, t)] == (t in Present(r)))
    && (!IsFresh(r) ==> SameReadings(g, before, s))
  }

  /** The stream of a report is marked stale when the check failed, and also when its candidates are not all known. */
  lemma StreamIsMarkedStaleIff(base: Policy, registry: Option<RegistryView>, job: Job, previous: Option<Observation>)
    ensures !IsFresh(GroupResult(base, registry, job, previous)) <==>
      Answered(registry, job.key).Failure? || CandidatesUnknown(registry.value, job.key)
  {
    hide ParsedTag, Candidates.Analysis, CandidateEvents, Entries, FirstUsable, InitialResult, TransitionEvents, DriftEvents;
    if Answered(registry, job.key).Success? {
      var view, key := registry.value, job.key;
      NothingYetReported(base, key, job.members);
      if ParsedTag(key.tag).Application().Some? && view.list(key.repository).Success? {
        var cs := Candidates.Analysis(key.tag, view.list(key.repository).value);
        var outcome := CandidateEvents(view, key, cs, Entries(cs), job.now);
        CandidateEventsAccountForWinners(view, key, cs, Entries(cs), job.now);
        var at: seq<nat> :| IsAccount(view, key, cs, job.now, Entries(cs), outcome.0, outcome.1, at);
      }
    }
  }

  /** The tag has a version, and the repository cannot be listed or some winner cannot be resolved. */
  ghost predicate CandidatesUnknown(view: RegistryView, key: Key)
  {
    ParsedTag(key.tag).Application().Some? &&
    match view.list(key.repository)
    case Failure(_) => true
    case Success(tags) =>
      var entries := Entries(Candidates.Analysis(key.tag, tags));
      exists k | 0 <= k < |entries| :: !Resolves(view, key, entries[k])
  }

  /** So a check may succeed and still be marked stale: a release whose repository cannot be listed. */
  lemma SuccessMayBeMarkedStale(base: Policy, view: RegistryView, job: Job, previous: Option<Observation>, v: SemVer)
    requires v.Normal() && job.key.tag == v.String()
    requires Answered(Some(view), job.key).Success? && view.list(job.key.repository).Failure?
    ensures
      var r := GroupResult(base, Some(view), job, previous);
      r.err.None? && !IsFresh(r)
  {
    hide ParsedTag, SemVer.String, FirstUsable, IsFresh, GroupEvents, HasRole;
    PlainTagReadsBack(v);
    StreamIsMarkedStaleIff(base, Some(view), job, previous);
    NothingYetReported(base, job.key, job.members);
  }

  lemma PublishedTouchesOneSeries(g: Snapshot, r: CheckResult, s: Series)
    requires s != SeriesOf(r)
    ensures SameSeries(Published(g, r), g, s)
  {
  }

  lemma PublishedShows(g: Snapshot, before: Snapshot, r: CheckResult)
    requires SameSeries(g, before, SeriesOf(r))
    ensures Shows(Published(g, r), before, r)
  {
  }

  ghost predicate DistinctSeries(results: seq<CheckResult>)
  {
    forall i, j | 0 <= i < j < |results| :: SeriesOf(results[i]) != SeriesOf(results[j])
  }

  lemma {:induction false} UntouchedSeries(g: Snapshot, results: seq<CheckResult>, s: Series)
    requires forall i | 0 <= i < |results| :: SeriesOf(results[i]) != s
    ensures SameSeries(PublishedAll(g, results), g, s)
  {
    hide SeriesOf, Published;
    if results != [] {
      var n := |results| - 1;
      UntouchedSeries(g, results[..n], s);
      PublishedTouchesOneSeries(PublishedAll(g, results[..n]), results[n], s);
    }
  }

  /**
    When no two results share a series, every series shows its own result after the cycle: no group
    overwrites another's gauges, and a failed or partial check retains the last known values.
  */
  lemma {:induction false} SeriesShowOwnResult(g: Snapshot, results: seq<CheckResult>, i: nat)
    requires DistinctSeries(results) && i < |results|
    ensures Shows(PublishedAll(g, results), g, results[i])
    decreases |results|
  {
    hide SeriesOf, Published, Shows, SameSeries;
    var n := |results| - 1;
    var front := results[..n];
    if i == n {
      UntouchedSeries(g, front, SeriesOf(results[n]));
      PublishedShows(PublishedAll(g, front), g, results[n]);
    } else {
      SeriesShowOwnResult(g, front, i);
      PublishedTouchesOneSeries(PublishedAll(g, front), results[n], SeriesOf(results[i]));
      ShowsIsStable(PublishedAll(g, front), PublishedAll(g, results), g, results[i]);
    }
  }

  lemma ShowsIsStable(g: Snapshot, h: Snapshot, before: Snapshot, r: CheckResult)
    requires Shows(g, before, r) && SameSeries(h, g, SeriesOf(r))
    ensures Shows(h, before, r)
  {
  }

  /** Groups with different keys never share a series, provided registries have no slash and platforms are slash-free. */
  lemma DistinctKeysHaveDistinctSeries(k: Key, l: Key)
    requires k != l && '/' !in k.registry && '/' !in l.registry && k.platform.SlashFree() && l.platform.SlashFree()
    ensures
      Series(ImageOf(k).ImageName(), k.tag, k.platform.String()) != Series(ImageOf(l).ImageName(), l.tag, l.platform.String())
  {
    hide Reference.ImageName, Platform.String;
    if ImageOf(k).ImageName() == ImageOf(l).ImageName() {
      ImageNameIsInjective(ImageOf(k), ImageOf(l));
    }
    if k.platform.String() == l.platform.String() {
      PlatformStringIsInjective(k.platform, l.platform);
    }
  }

  lemma GroupResultSeries(base: Policy, registry: Option<RegistryView>, job: Job, previous: Option<Observation>)
    ensures SeriesOf(GroupResult(base, registry, job, previous)) ==
      Series(ImageOf(job.key).ImageName(), job.key.tag, job.key.platform.String())
  {
  }

  /** The results of a whole cycle, over containers with parsed references, never share a series. */
  lemma CycleHasDistinctSeries(env: Cycle.Env, containers: seq<Container>, jobs: seq<Job>, store: Observations,
                               results: seq<CheckResult>)
    requires Cycle.AreJobs(containers, jobs) && |results| == |jobs|
    requires forall i | 0 <= i < |jobs| :: results[i] == Cycle.SequentialResult(env, jobs, store, i)
    requires forall c | c in containers :: c.image.Canonical() && c.platform.SlashFree()
    ensures DistinctSeries(results)
  {
    hide SeriesOf, GroupResult, Members, KeyLess, Reference.Canonical, Cycle.SequentialStore;
    Cycle.JobsHaveDistinctKeys(containers, jobs);
    forall i | 0 <= i < |jobs|
      ensures '/' !in jobs[i].key.registry && jobs[i].key.platform.SlashFree()
      ensures SeriesOf(results[i]) ==
        Series(ImageOf(jobs[i].key).ImageName(), jobs[i].key.tag, jobs[i].key.platform.String())
    {
      MemberKeysAreCanonical(containers, jobs[i].key);
      GroupResultSeries(env.base, env.registries(jobs[i].key.registry), jobs[i],
        States.Lookup(Cycle.SequentialStore(env, jobs[..i], store), jobs[i].key));
    }
    forall i, j | 0 <= i < j < |results| ensures SeriesOf(results[i]) != SeriesOf(results[j]) {
      DistinctKeysHaveDistinctSeries(jobs[i].key, jobs[j].key);
    }
  }

  lemma {:induction false} MemberKeysAreCanonical(containers: seq<Container>, key: Key)
    requires Members(containers, key) != []
    requires forall c | c in containers :: c.image.Canonical() && c.platform.SlashFree()
    ensures '/' !in key.registry && key.platform.SlashFree()
  {
    MembersHaveKey(containers, key);
    var c := Members(containers, key)[0];
    assert c in containers && KeyOf(c) == Some(key);
  }
}
