/** internal/observer/observer.go:219-579: checkGroup and the detections it runs, with their registry requests and store writes. */
module Checks {
  import opened Prelude
  import opened Tags
  import opened Candidates
  import opened Events
  import opened Policies
  import opened States
  import opened Registries
  import opened Enrichment
  import opened Groups
  import opened Detection

  // ------------------------------------------------------------ candidate events

  /**
    The tags are listed once, each distinct winning tag is resolved exactly once, in any completion
    order, and the outcome is that of resolving every winner on its own.
  */
  method DetectVersionCandidateEvents(reg: Registry, key: Key, now: int) returns (events: seq<Event>, partial: bool)
    modifies reg`lists, reg`asked
    ensures (events, partial) == CandidateOutcome(reg.view, key, now)
    ensures reg.lists == old(reg.lists) + if ParsedTag(key.tag).Application().Some? then 1 else 0
    ensures reg.asked == old(reg.asked) + multiset(RequestsOf(key.repository, key.platform, WinnersAsked(reg.view, key)))
  {
    hide RequestsOf, ParsedTag, Analysis, CandidateEvents, WinningTags, FirstUsable;
    var tv := ParseTag(key.tag);
    NothingRequested(key);
    if tv.IsOpaque() {
      OpaqueHasNoApplication(tv);
      return [], false;
    }
    var app := FindUsable(tv.components, Role.Application);
    if app.None? {
      return [], false;
    }
    var tags := reg.ListTags(key.repository, false);
    if tags.Failure? {
      return [], true;
    }
    var cs := AnalyzeCandidates(key.tag, tags.value);
    AnalysisIsUnique(key.tag, tags.value, cs, Analysis(key.tag, tags.value));
    var entries := Entries(cs);
    if |entries| == 0 {
      NoEntries(reg.view, key, cs, now);
      return [], false;
    }
    events, partial := ResolveWinners(reg, key, cs, entries, now);
  }

  /** The tags candidate detection resolves. */
  ghost function WinnersAsked(view: RegistryView, key: Key): set<string>
  {
    if ParsedTag(key.tag).Application().None? || view.list(key.repository).Failure? then {}
    else WinningTags(Entries(Analysis(key.tag, view.list(key.repository).value)))
  }

  lemma NothingRequested(key: Key)
    ensures RequestsOf(key.repository, key.platform, {}) == {}
  {
  }

  lemma OpaqueHasNoApplication(tv: TagVersion)
    requires tv.IsOpaque()
    ensures tv.Application().None? && tv.Base().None?
  {
  }

  lemma NoEntries(view: RegistryView, key: Key, cs: CandidateSet, now: int)
    ensures CandidateEvents(view, key, cs, [], now) == ([], false) && WinningTags([]) == {}
  {
  }

  method ResolveWinners(reg: Registry, key: Key, cs: CandidateSet, entries: seq<Entry>, now: int)
    returns (events: seq<Event>, partial: bool)
    modifies reg`asked
    ensures (events, partial) == CandidateEvents(reg.view, key, cs, entries, now)
    ensures reg.asked == old(reg.asked) + multiset(RequestsOf(key.repository, key.platform, WinningTags(entries)))
  {
    hide WinningTags, CandidateEvents, RequestsOf;
    var distinct, index := IndexWinners(entries);
    var answers := new Result<Manifest, string>[|distinct|](_ => Failure(""));
    FetchConcurrently(reg, key.repository, key.platform, distinct, 0, |distinct|, answers, false);
    DistinctAreKeys(distinct, index);
    assert distinct[..|distinct|] == distinct;
    EachTagOnce(key.repository, key.platform, distinct);
    events, partial := AssembleEvents(reg, key, cs, entries, now, distinct, index, answers[..]);
  }

  method AssembleEvents(reg: Registry, key: Key, cs: CandidateSet, entries: seq<Entry>, now: int,
                        distinct: seq<string>, index: map<string, nat>, answers: seq<Result<Manifest, string>>)
    returns (events: seq<Event>, partial: bool)
    requires Inverse(distinct, index) && index.Keys == WinningTags(entries) && |answers| == |distinct|
    requires forall i | 0 <= i < |distinct| :: Fetched(reg, key.repository, key.platform, distinct, answers, i)
    ensures (events, partial) == CandidateEvents(reg.view, key, cs, entries, now)
  {
    hide WinningTags, CandidateEvent;
    partial := false;
    events := [];
    for n := 0 to |entries|
      invariant (events, partial) == CandidateEvents(reg.view, key, cs, entries[..n], now)
    {
      var e := entries[n];
      assert entries[..n + 1][..n] == entries[..n];
      WinnerIsIndexed(entries, n);
      var at := index[e.candidate.tag];
      assert Fetched(reg, key.repository, key.platform, distinct, answers, at);
      var event := CandidateEvent(key, cs, e, answers[at], now);
      if event.None? {
        partial := true;
        continue;
      }
      events := events + [event.value];
    }
    assert entries[..|entries|] == entries;
  }

  lemma DistinctAreKeys(distinct: seq<string>, index: map<string, nat>)
    requires Inverse(distinct, index)
    ensures (set tag | tag in distinct) == index.Keys
    ensures forall i, j | 0 <= i < j < |distinct| :: distinct[i] != distinct[j]
  {
  }

  lemma WinnerIsIndexed(entries: seq<Entry>, n: nat)
    requires n < |entries|
    ensures entries[n].candidate.tag in WinningTags(entries)
  {
  }

  /**
    Every winner gives exactly one event, in canonical order, or sets the partial flag; the event names the
    winner, and is an other-platform update exactly when the running platform has no manifest.
  */
  lemma {:induction false} CandidateEventsAccountForWinners(view: RegistryView, key: Key, cs: CandidateSet, entries: seq<Entry>, now: int)
    ensures exists at: seq<nat> ::
      IsAccount(view, key, cs, now, entries, CandidateEvents(view, key, cs, entries, now).0, CandidateEvents(view, key, cs, entries, now).1, at)
  {
    hide IsAccount, CandidateEvent;
    if entries == [] {
      NothingToAccount(view, key, cs, now);
      var none: seq<nat> := [];
      var outcome := CandidateEvents(view, key, cs, entries, now);
      assert outcome == ([], false);
      assert IsAccount(view, key, cs, now, entries, outcome.0, outcome.1, none);
    } else {
      var n := |entries| - 1;
      var front := entries[..n];
      CandidateEventsAccountForWinners(view, key, cs, front, now);
      var before, after := CandidateEvents(view, key, cs, front, now), CandidateEvents(view, key, cs, entries, now);
      var at: seq<nat> :| IsAccount(view, key, cs, now, front, before.0, before.1, at);
      assert front + [entries[n]] == entries;
      AccountStep(view, key, cs, front, entries[n], before.0, before.1, at, now);
      if CandidateEvent(key, cs, entries[n], view.resolve(key.repository, entries[n].candidate.tag, key.platform), now).None? {
        assert IsAccount(view, key, cs, now, entries, after.0, after.1, at);
      } else {
        assert IsAccount(view, key, cs, now, entries, after.0, after.1, at + [n]);
      }
    }
  }

  lemma NothingToAccount(view: RegistryView, key: Key, cs: CandidateSet, now: int)
    ensures IsAccount(view, key, cs, now, [], [], false, [])
  {
  }

  /** The positions of the winners that resolved, in order, with what their events say. */
  ghost predicate IsAccount(view: RegistryView, key: Key, cs: CandidateSet, now: int, entries: seq<Entry>, events: seq<Event>, partial: bool, at: seq<nat>)
  {
    && |at| == |events|
    && (forall i, j | 0 <= i < j < |at| :: at[i] < at[j])
    && (forall i | 0 <= i < |at| :: at[i] < |entries| && IsEventOf(view, key, cs, entries[at[i]], events[i], now))
    && (forall k | 0 <= k < |entries| && Resolves(view, key, entries[k]) :: k in at)
    && (partial <==> exists k | 0 <= k < |entries| :: !Resolves(view, key, entries[k]))
  }

  predicate Resolves(view: RegistryView, key: Key, e: Entry)
  {
    view.resolve(key.repository, e.candidate.tag, key.platform).Success?
  }

  /** The event of a winner that resolves, field by field. */
  predicate IsEventOf(view: RegistryView, key: Key, cs: CandidateSet, e: Entry, event: Event, now: int)
  {
    var answer := view.resolve(key.repository, e.candidate.tag, key.platform);
    && answer.Success?
    && event.timestamp == now && event.image == ImageOf(key) && event.currentTag == key.tag && event.platform == key.platform
    && event.candidateTag == e.candidate.tag && event.currentDigest == "" && event.candidateDigest == ""
    && event.kind == (if answer.value.platformManifestDigest == "" then OtherPlatformUpdate else e.kind)
    && event.combinedCandidate == (if cs.combined.Some? && OnComposite(e.kind) then cs.combined.value.tag else "")
  }

  lemma AccountStep(view: RegistryView, key: Key, cs: CandidateSet, entries: seq<Entry>, e: Entry,
                    events: seq<Event>, partial: bool, at: seq<nat>, now: int)
    requires IsAccount(view, key, cs, now, entries, events, partial, at)
    ensures
      var event := CandidateEvent(key, cs, e, view.resolve(key.repository, e.candidate.tag, key.platform), now);
      if event.None? then IsAccount(view, key, cs, now, entries + [e], events, true, at)
      else IsAccount(view, key, cs, now, entries + [e], events + [event.value], partial, at + [|entries|])
  {
    var all := entries + [e];
    var event := CandidateEvent(key, cs, e, view.resolve(key.repository, e.candidate.tag, key.platform), now);
    assert all[|entries|] == e && forall k | 0 <= k < |entries| :: all[k] == entries[k];
    if event.Some? {
      var at' := at + [|entries|];
      assert IsEventOf(view, key, cs, e, event.value, now);
      forall k | 0 <= k < |all| && Resolves(view, key, all[k]) ensures k in at' {
        if k == |entries| {
          assert at'[|at|] == k;
        } else {
          assert k in at;
        }
      }
    }
  }

  // ---------------------------------------------------------------- digest events

  datatype Config = Config(defaultPolicy: Policy, maxTags: int, workers: int) {
    function WorkerLimit(): nat
    {
      if workers <= 0 then 4 else workers
    }
  }

  function QueryOf(key: Key, digest: string): Query
  {
    Query(key.repository, key.tag, key.platform, digest)
  }

  /** The hints of a group's enrichment attempts are all inferred about the digest, from one and the same listing. */
  ghost predicate SoundHints(view: RegistryView, key: Key, digest: string, config: Config, undisturbed: bool,
                             hints: seq<Option<string>>)
  {
    exists listing ::
      IsListing(view, key.repository, undisturbed, listing) && HintsFrom(view, key, digest, config, undisturbed, listing, hints)
  }

  ghost predicate HintsFrom(view: RegistryView, key: Key, digest: string, config: Config, undisturbed: bool,
                            listing: Result<seq<string>, string>, hints: seq<Option<string>>)
  {
    forall i | 0 <= i < |hints| ::
      InferredFrom(view, QueryOf(key, digest), EffectiveMaxTags(config.maxTags), undisturbed, listing, hints[i])
  }

  lemma NoHintsAreSound(view: RegistryView, key: Key, digest: string, config: Config, undisturbed: bool)
    ensures SoundHints(view, key, digest, config, undisturbed, [])
  {
    assert HintsFrom(view, key, digest, config, undisturbed, view.list(key.repository), []);
  }

  /** The most manifests one enrichment attempt of the group asks for. */
  function HintBudget(view: RegistryView, key: Key, config: Config): nat
  {
    AttemptBudget(view, key.repository, key.tag, EffectiveMaxTags(config.maxTags))
  }

  ghost predicate Undisturbed(cancelled: (nat, nat) -> bool)
  {
    forall a, n :: !cancelled(a, n)
  }

  method DetectDigestEvents(reg: Registry, key: Key, tv: TagVersion, previous: Option<Observation>, manifest: Manifest,
                            cache: GroupCache?, config: Config, now: int, cancelled: (nat, nat) -> bool)
    returns (events: seq<Event>, ghost hints: seq<Option<string>>)
    requires tv.IsOpaque() ==> cache != null && cache.Valid() && cache.Faithful(reg.view, Undisturbed(cancelled))
    modifies cache, reg`lists, reg`asked
    ensures events == TransitionEvents(key, tv, previous, manifest.platformManifestDigest, hints, now)
    ensures SoundHints(reg.view, key, manifest.platformManifestDigest, config, Undisturbed(cancelled), hints)
    ensures tv.IsOpaque() ==> cache.Valid() && cache.Faithful(reg.view, Undisturbed(cancelled))
    ensures if tv.IsOpaque() && events != [] then |hints| == 1 && reg.lists <= old(reg.lists) + 1
      else hints == [] && reg.lists == old(reg.lists)
    ensures |reg.asked| <= |old(reg.asked)| + |hints| * HintBudget(reg.view, key, config)
  {
    hide IsListing, InferredFrom, EffectiveMaxTags, AttemptBudget;
    hints := [];
    NoHintsAreSound(reg.view, key, manifest.platformManifestDigest, config, Undisturbed(cancelled));
    if previous.None? || previous.value.platformManifestDigest == "" || manifest.platformManifestDigest == "" {
      return [], hints;
    }
    if previous.value.platformManifestDigest == manifest.platformManifestDigest {
      return [], hints;
    }
    var inferred: Option<string> := None;
    if tv.IsOpaque() {
      inferred := Enrich(reg, cache, QueryOf(key, manifest.platformManifestDigest), config.maxTags, config.WorkerLimit(),
        (n: nat) => cancelled(0, n), Undisturbed(cancelled));
      hints := [inferred];
      assert HintsFrom(reg.view, key, manifest.platformManifestDigest, config, Undisturbed(cancelled),
        cache.Memo()[key.repository], hints);
    }
    events := [DigestEvent(key, tv, previous.value.platformManifestDigest, manifest.platformManifestDigest, inferred, now)];
  }

  lemma OneMore(n: nat, budget: nat)
    ensures (n + 1) * budget == n * budget + budget
  {
  }

  lemma FaithfulListing(cache: GroupCache, view: RegistryView, undisturbed: bool, repository: string)
    requires cache.Valid() && cache.Faithful(view, undisturbed) && repository in cache.Memo()
    ensures IsListing(view, repository, undisturbed, cache.Memo()[repository])
  {
  }

  /**
    The scans for the drifted digests on one memo, one whole scan after the other in any order. Module Scans
    has every other schedule; they all end with sound hints from one listing, too.
  */
  method InferDrift(reg: Registry, key: Key, digest: string, count: nat, cache: GroupCache, config: Config,
                    cancelled: (nat, nat) -> bool)
    returns (hints: seq<Option<string>>)
    requires cache.Valid() && cache.Faithful(reg.view, Undisturbed(cancelled))
    modifies cache, reg`lists, reg`asked
    ensures |hints| == count && SoundHints(reg.view, key, digest, config, Undisturbed(cancelled), hints)
    ensures cache.Valid() && cache.Faithful(reg.view, Undisturbed(cancelled))
    ensures reg.lists <= old(reg.lists) + 1
    ensures |reg.asked| <= |old(reg.asked)| + count * HintBudget(reg.view, key, config)
  {
    hide IsListing, InferredFrom, EffectiveMaxTags, AttemptBudget, GroupCache.Memo, GroupCache.Faithful, Without;
    var inferred := new Option<string>[count](_ => None);
    var pending := Positions(0, count);
    ghost var budget := HintBudget(reg.view, key, config);
    while pending != []
      invariant cache.Valid() && cache.Faithful(reg.view, Undisturbed(cancelled))
      invariant |pending| <= count && forall i | i in pending :: 0 <= i < count
      invariant reg.lists <= old(reg.lists) + if key.repository in cache.Memo() then 1 else 0
      invariant |reg.asked| <= |old(reg.asked)| + (count - |pending|) * budget
      invariant |pending| < count ==> key.repository in cache.Memo()
      invariant forall i | 0 <= i < count && i !in pending ::
          key.repository in cache.Memo() && InferredFrom(reg.view, QueryOf(key, digest), EffectiveMaxTags(config.maxTags),
            Undisturbed(cancelled), cache.Memo()[key.repository], inferred[i])
      decreases |pending|
    {
      var k: nat :| k < |pending|;
      var i := pending[k];
      assert i in pending;
      OneMore(count - |pending|, budget);
      pending := Without(pending, k);
      inferred[i] := Enrich(reg, cache, QueryOf(key, digest), config.maxTags, config.WorkerLimit(),
        (n: nat) => cancelled(i, n), Undisturbed(cancelled));
    }
    hints := inferred[..];
    if count == 0 {
      NoHintsAreSound(reg.view, key, digest, config, Undisturbed(cancelled));
    } else {
      FaithfulListing(cache, reg.view, Undisturbed(cancelled), key.repository);
      assert HintsFrom(reg.view, key, digest, config, Undisturbed(cancelled), cache.Memo()[key.repository], hints);
    }
  }

  method DetectDigestDriftEvents(reg: Registry, key: Key, tv: TagVersion, served: string, digest: string,
                                 running: seq<string>, cache: GroupCache?, config: Config, now: int,
                                 cancelled: (nat, nat) -> bool)
    returns (events: seq<Event>, ghost hints: seq<Option<string>>)
    requires tv.IsOpaque() ==> cache != null && cache.Valid() && cache.Faithful(reg.view, Undisturbed(cancelled))
    modifies cache, reg`lists, reg`asked
    ensures events == DriftEvents(key, tv, served, digest, running, hints, now)
    ensures SoundHints(reg.view, key, digest, config, Undisturbed(cancelled), hints)
    ensures if tv.IsOpaque() then |hints| == |events| && reg.lists <= old(reg.lists) + 1
      else hints == [] && reg.lists == old(reg.lists)
    ensures served != "" ==> |events| == |Drifted(running, served)|
    ensures |reg.asked| <= |old(reg.asked)| + |hints| * HintBudget(reg.view, key, config)
  {
    hide SoundHints, HintBudget, Distinct, DigestEvent;
    hints := [];
    NoHintsAreSound(reg.view, key, digest, config, Undisturbed(cancelled));
    DistinctIsDrifted(running, served);
    if served == "" {
      return [], hints;
    }
    var distinct := CollectDistinct(running, served);
    if |distinct| == 0 {
      return [], hints;
    }
    var inferred: seq<Option<string>> := [];
    if tv.IsOpaque() {
      inferred := InferDrift(reg, key, digest, |distinct|, cache, config, cancelled);
      hints := inferred;
    }
    events := [];
    for i := 0 to |distinct|
      invariant events == DriftEvents(key, tv, served, digest, running, hints, now)[..i]
    {
      events := events + [DigestEvent(key, tv, digest, digest, Hint(inferred, i), now)];
    }
  }

  // ------------------------------------------------------------- one whole check

  /** The index digest when the tag is an index, else the platform's manifest digest. */
  function Served(m: Manifest): string
  {
    if m.indexDigest == "" then m.platformManifestDigest else m.indexDigest
  }

  /** How the current tag's own lookup went; a host without a client is an error of its own. */
  function Answered(registry: Option<RegistryView>, key: Key): Result<Manifest, CheckError>
  {
    if registry.None? then Failure(UnresolvedRegistry(key.registry))
    else
      match registry.value.resolve(key.repository, key.tag, key.platform)
      case Failure(message) => Failure(ResolveFailed(message))
      case Success(m) => Success(m)
  }

  function FreshObservation(key: Key, m: Manifest, now: int): (obs: Observation)
    ensures obs.key == key && obs.status == Fresh
  {
    Observation(key, m.platformManifestDigest, m.indexDigest, now, "", 0, Fresh)
  }

  /** A failure keeps the digests and the last success; a key never recorded before becomes unknown, not stale. */
  function StaleObservation(key: Key, previous: Option<Observation>, message: string, now: int): (r: Observation)
    ensures r.key == key && r.status != Fresh
  {
    var obs := if previous.Some? then previous.value else ZERO_OBSERVATION;
    obs.(key := key, status := if previous.Some? then Stale else Unknown, lastError := message, lastErrorAt := now)
  }

  /** What one check of a key leaves in the store. */
  function Written(registry: Option<RegistryView>, key: Key, now: int, previous: Option<Observation>): (obs: Observation)
    ensures obs.key == key
  {
    match Answered(registry, key)
    case Failure(e) => StaleObservation(key, previous, e.Text(), now)
    case Success(m) => FreshObservation(key, m, now)
  }

  /** One group's inputs: its members, the outcomes of its enrichment attempts, and its clock. */
  datatype Job = Job(key: Key, members: seq<Container>, hints: seq<Option<string>>, now: int)

  ghost function GroupEvents(view: RegistryView, job: Job, previous: Option<Observation>, m: Manifest): (seq<Event>, bool)
  {
    var tv := ParsedTag(job.key.tag);
    var transition := TransitionEvents(job.key, tv, previous, m.platformManifestDigest, job.hints, job.now);
    var drift := if transition != [] then []
      else DriftEvents(job.key, tv, Served(m), m.platformManifestDigest, Digests(job.members), job.hints, job.now);
    var (candidates, partial) := CandidateOutcome(view, job.key, job.now);
    (transition + drift + candidates, partial)
  }

  /** What one check of a key reports, given what the store held before. */
  ghost function GroupResult(base: Policy, registry: Option<RegistryView>, job: Job, previous: Option<Observation>): CheckResult
  {
    var initial := InitialResult(base, job.key, job.members);
    match Answered(registry, job.key)
    case Failure(e) => initial.(err := Some(e), stale := e.ResolveFailed?)
    case Success(m) =>
      var (events, partial) := GroupEvents(registry.value, job, previous, m);
      initial.(servedDigest := Served(m), events := events, partial := partial)
  }

  method MarkStale(store: MemoryStore, key: Key, err: CheckError, now: int)
    modifies store`observations
    ensures store.observations ==
      old(store.observations)[key := StaleObservation(key, Lookup(old(store.observations), key), err.Text(), now)]
  {
    var previous, found := store.GetObservation(key);
    var obs := previous;
    obs := obs.(key := key);
    if !found {
      obs := obs.(status := Unknown);
    } else {
      obs := obs.(status := Stale);
    }
    obs := obs.(lastError := err.Text(), lastErrorAt := now);
    store.PutObservation(obs);
  }

  function ViewOf(reg: Registry?): Option<RegistryView>
  {
    if reg == null then None else Some(reg.view)
  }

  /** How often a successful check tries to name what an opaque tag now serves: once per digest event. */
  function Attempts(key: Key, running: seq<string>, previous: Option<Observation>, m: Manifest): nat
  {
    if !ParsedTag(key.tag).IsOpaque() then 0
    else if Transition(previous, m.platformManifestDigest) then 1
    else if Served(m) == "" then 0
    else |Drifted(running, Served(m))|
  }

  /** The most manifests the detections of a group ask for: each attempt's budget, and every distinct winner once. */
  ghost function DetectionBudget(view: RegistryView, key: Key, config: Config, attempts: nat): int
  {
    attempts * HintBudget(view, key, config) + |WinnersAsked(view, key)|
  }

  lemma OneRequestPerWinner(view: RegistryView, key: Key, winners: set<string>)
    ensures |multiset(RequestsOf(key.repository, key.platform, winners))| == |winners|
  {
    InjectiveRequests(key, winners);
  }

  lemma {:induction false} InjectiveRequests(key: Key, winners: set<string>)
    ensures |RequestsOf(key.repository, key.platform, winners)| == |winners|
  {
    if winners == {} {
      NothingRequested(key);
    } else {
      var tag :| tag in winners;
      InjectiveRequests(key, winners - {tag});
      assert RequestsOf(key.repository, key.platform, winners) ==
        RequestsOf(key.repository, key.platform, winners - {tag}) + {Request(key.repository, tag, key.platform)};
    }
  }

  /** The events of a successful check, with at most one tag listing and no request beyond its budget. */
  method DetectEvents(reg: Registry, config: Config, key: Key, members: seq<Container>, previous: Option<Observation>,
                      m: Manifest, now: int, cancelled: (nat, nat) -> bool)
    returns (events: seq<Event>, partial: bool, ghost hints: seq<Option<string>>)
    modifies reg`lists, reg`asked
    ensures (events, partial) == GroupEvents(reg.view, Job(key, members, hints, now), previous, m)
    ensures SoundHints(reg.view, key, m.platformManifestDigest, config, Undisturbed(cancelled), hints)
    ensures |hints| == Attempts(key, Digests(members), previous, m)
    ensures reg.lists <= old(reg.lists) + 1
    ensures |reg.asked| <= |old(reg.asked)| + DetectionBudget(reg.view, key, config, |hints|)
  {
    hide HintBudget, WinnersAsked, RequestsOf, ParsedTag, CandidateOutcome, TransitionEvents, DriftEvents, SoundHints, FirstUsable, Drifted;
    var tv := ParseTag(key.tag);
    var cache: GroupCache? := null;
    if tv.IsOpaque() {
      cache := new GroupCache();
      OpaqueHasNoApplication(tv);
    }
    ghost var hints0, hints1;
    var digestEvents;
    digestEvents, hints0 := DetectDigestEvents(reg, key, tv, previous, m, cache, config, now, cancelled);
    events := digestEvents;
    hints := hints0;
    NoTransitionNeedsNoHint(key, tv, previous, m.platformManifestDigest, hints0, now);
    if |digestEvents| == 0 {
      var driftEvents;
      driftEvents, hints1 := DetectDigestDriftEvents(reg, key, tv, Served(m), m.platformManifestDigest, Digests(members),
        cache, config, now, cancelled);
      NoTransitionNeedsNoHint(key, tv, previous, m.platformManifestDigest, hints1, now);
      events := events + driftEvents;
      hints := hints1;
    }
    var candidateEvents;
    candidateEvents, partial := DetectVersionCandidateEvents(reg, key, now);
    OneRequestPerWinner(reg.view, key, WinnersAsked(reg.view, key));
    assert digestEvents + [] == digestEvents;
    events := events + candidateEvents;
  }

  lemma NoTransitionNeedsNoHint(key: Key, tv: TagVersion, previous: Option<Observation>, digest: string,
                                hints: seq<Option<string>>, now: int)
    ensures TransitionEvents(key, tv, previous, digest, hints, now) == [] <==> !Transition(previous, digest)
  {
  }

  /** What the enrichment attempts of one check contributed. */
  ghost predicate SoundAttempts(registry: Option<RegistryView>, job: Job, previous: Option<Observation>, config: Config, undisturbed: bool)
  {
    registry.Some? && Answered(registry, job.key).Success? ==>
      var m := Answered(registry, job.key).value;
      && |job.hints| == Attempts(job.key, Digests(job.members), previous, m)
      && SoundHints(registry.value, job.key, m.platformManifestDigest, config, undisturbed, job.hints)
  }

  /** The most manifests one check asks its registry for: its own tag's, and then what the detections may. */
  ghost function GroupBudget(view: RegistryView, job: Job, config: Config): int
  {
    1 + if Answered(Some(view), job.key).Failure? then 0 else DetectionBudget(view, job.key, config, |job.hints|)
  }

  lemma FailureAttemptsNothing(registry: Option<RegistryView>, job: Job, previous: Option<Observation>, config: Config,
                               undisturbed: bool)
    ensures Answered(registry, job.key).Failure? ==> SoundAttempts(registry, job, previous, config, undisturbed)
    ensures Answered(registry, job.key).Failure? && registry.Some? ==> GroupBudget(registry.value, job, config) == 1
  {
  }

  /** The second half of a successful check: the report, completed. */
  method ReportEvents(reg: Registry, config: Config, key: Key, members: seq<Container>, previous: Option<Observation>,
                      m: Manifest, now: int, cancelled: (nat, nat) -> bool, initial: CheckResult)
    returns (result: CheckResult, ghost hints: seq<Option<string>>)
    requires initial == InitialResult(config.defaultPolicy, key, members) && Answered(Some(reg.view), key) == Success(m)
    modifies reg`lists, reg`asked
    ensures result == GroupResult(config.defaultPolicy, Some(reg.view), Job(key, members, hints, now), previous)
    ensures SoundAttempts(Some(reg.view), Job(key, members, hints, now), previous, config, Undisturbed(cancelled))
    ensures reg.lists <= old(reg.lists) + 1
    ensures 1 + |reg.asked| <= |old(reg.asked)| + GroupBudget(reg.view, Job(key, members, hints, now), config)
  {
    hide GroupEvents, SoundHints, DetectionBudget, Attempts, InitialResult, Undisturbed;
    result := initial.(servedDigest := m.indexDigest);
    if result.servedDigest == "" {
      result := result.(servedDigest := m.platformManifestDigest);
    }
    var events, partial;
    events, partial, hints := DetectEvents(reg, config, key, members, previous, m, now, cancelled);
    assert initial.events == [] && !initial.partial by {
      NothingYetReported(config.defaultPolicy, key, members);
    }
    result := result.(events := result.events + events);
    if partial {
      result := result.(partial := true);
    }
  }

  lemma NothingYetReported(base: Policy, key: Key, members: seq<Container>)
    ensures InitialResult(base, key, members).events == [] && !InitialResult(base, key, members).partial
    ensures InitialResult(base, key, members).err.None?
  {
  }

  /**
    One check of one image stream: its report, its single store write under its own key, at most one
    listing of the repository's tags, sound enrichment hints, and no manifest request beyond its budget.
  */
  method CheckGroup(reg: Registry?, store: MemoryStore, config: Config, key: Key, members: seq<Container>, now: int,
                    cancelled: (nat, nat) -> bool)
    returns (result: CheckResult, ghost hints: seq<Option<string>>)
    modifies store`observations
    modifies reg
    ensures
      var previous := Lookup(old(store.observations), key);
      && store.observations == old(store.observations)[key := Written(ViewOf(reg), key, now, previous)]
      && result == GroupResult(config.defaultPolicy, ViewOf(reg), Job(key, members, hints, now), previous)
    ensures reg != null ==> reg.lists <= old(reg.lists) + 1
    ensures reg != null ==> |reg.asked| <= |old(reg.asked)| + GroupBudget(reg.view, Job(key, members, hints, now), config)
    ensures SoundAttempts(ViewOf(reg), Job(key, members, hints, now), Lookup(old(store.observations), key), config,
      Undisturbed(cancelled))
  {
    hide GroupEvents, SoundAttempts, GroupBudget, Undisturbed, Merged, PoliciesOf, Names, Digests, CheckError.Text;
    hide StaleObservation, FreshObservation;
    hints := [];
    FailureAttemptsNothing(ViewOf(reg), Job(key, members, [], now), Lookup(store.observations, key), config, Undisturbed(cancelled));
    var policies := ContainerPolicies(config.defaultPolicy, members);
    var effective := MergeAll(policies);
    result := CheckResult(ImageOf(key), key.platform, effective, [], Names(members), policies, "", Digests(members),
      false, None, false);
    if reg == null {
      result := result.(err := Some(UnresolvedRegistry(key.registry)));
      MarkStale(store, key, UnresolvedRegistry(key.registry), now);
      return;
    }
    var previous, found := store.GetObservation(key);
    var answer := reg.ResolveForPlatform(key.repository, key.tag, key.platform);
    if answer.Failure? {
      result := result.(err := Some(ResolveFailed(answer.error)), stale := true);
      MarkStale(store, key, ResolveFailed(answer.error), now);
      return;
    }
    store.PutObservation(FreshObservation(key, answer.value, now));
    result, hints := ReportEvents(reg, config, key, members, if found then Some(previous) else None, answer.value, now,
      cancelled, result);
  }
}
