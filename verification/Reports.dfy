/**
  internal/observer/observer.go:219-579: what a report says, told from the group's containers, the registry's
  answers and the stored observation alone.
*/
module Reports {
  import opened Prelude
  import opened Images
  import opened SemVers
  import opened Tags
  import opened Candidates
  import opened Events
  import opened Policies
  import opened States
  import opened Registries
  import opened Enrichment
  import opened Groups
  import opened Detection
  import opened Checks
  import opened Daemon
  import opened Releases

  /** The registry's answer about the job's own tag. */
  function Resolved(view: RegistryView, job: Job): Result<Manifest, string>
  {
    view.resolve(job.key.repository, job.key.tag, job.key.platform)
  }

  // --------------------------------------------------------------- the group

  /** Every report names its stream and its members, in order, with their own policies. */
  lemma ReportDescribesGroup(base: Policy, registry: Option<RegistryView>, job: Job, previous: Option<Observation>)
    ensures
      var r, n := GroupResult(base, registry, job, previous), |job.members|;
      && r.image == Reference(job.key.registry, job.key.repository, Some(job.key.tag), None) && r.platform == job.key.platform
      && |r.containerNames| == |r.containerPolicies| == |r.containerDigests| == n
      && forall i | 0 <= i < n ::
           && r.containerNames[i] == job.members[i].name && r.containerDigests[i] == job.members[i].digest
           && r.containerPolicies[i] == Overlaid(base, job.members[i].labels)
  {
    hide Overlaid, Merged, GroupEvents;
  }

  /** A failed check reports nothing but its error; it is stale when the registry was asked and failed. */
  lemma FailureReportsNothing(base: Policy, registry: Option<RegistryView>, job: Job, previous: Option<Observation>)
    requires registry.None? || Resolved(registry.value, job).Failure?
    ensures
      var r := GroupResult(base, registry, job, previous);
      && r.err.Some? && r.events == [] && r.servedDigest == "" && !r.partial && (r.stale <==> registry.Some?)
      && r.err.value.Text() ==
           if registry.None? then "observer: no registry client configured for host " + job.key.registry
           else Resolved(registry.value, job).error
  {
    hide Merged, PoliciesOf;
  }

  // ----------------------------------------------------- the digest that is served

  /** A tag that resolves to a multi-platform index serves the index digest; any other its platform digest. */
  lemma IndexDigestIsServed(base: Policy, view: RegistryView, job: Job, previous: Option<Observation>, m: Manifest)
    requires Resolved(view, job) == Success(m)
    ensures
      var r := GroupResult(base, Some(view), job, previous);
      && r.err.None? && !r.stale
      && (m.indexDigest != "" ==> r.servedDigest == m.indexDigest)
      && (m.indexDigest == "" ==> r.servedDigest == m.platformManifestDigest)
  {
    hide Merged, PoliciesOf, GroupEvents;
  }

  /** A container is known to run another digest: than the index if there is one, else than the platform's manifest, if any. */
  predicate RunsOther(c: Container, m: Manifest)
  {
    c.digest != "" &&
    if m.indexDigest != "" then c.digest != m.indexDigest
    else m.platformManifestDigest != "" && c.digest != m.platformManifestDigest
  }

  function OthersRun(members: seq<Container>, m: Manifest): set<string>
  {
    set i | 0 <= i < |members| && RunsOther(members[i], m) :: members[i].digest
  }

  ghost predicate SomeRunsOther(members: seq<Container>, m: Manifest)
  {
    exists i | 0 <= i < |members| :: RunsOther(members[i], m)
  }

  lemma DriftedAreOthers(members: seq<Container>, m: Manifest)
    ensures OthersRun(members, m) == if Served(m) == "" then {} else Drifted(Digests(members), Served(m))
    ensures OthersRun(members, m) != {} <==> SomeRunsOther(members, m)
  {
    var running := Digests(members);
    if Served(m) != "" {
      forall d | d in Drifted(running, Served(m)) ensures d in OthersRun(members, m) {
        var i :| 0 <= i < |running| && running[i] == d;
        assert RunsOther(members[i], m);
      }
      forall i | 0 <= i < |members| && RunsOther(members[i], m) ensures members[i].digest in Drifted(running, Served(m)) {
        assert running[i] == members[i].digest;
      }
    }
    if i :| 0 <= i < |members| && RunsOther(members[i], m) {
      assert members[i].digest in OthersRun(members, m);
    }
  }

  /** The stored digest and the one served for the platform are both known, and differ. */
  predicate Moved(previous: Option<Observation>, m: Manifest)
  {
    && previous.Some? && previous.value.platformManifestDigest != "" && m.platformManifestDigest != ""
    && previous.value.platformManifestDigest != m.platformManifestDigest
  }

  /** Without a move there is one digest event for each digest that is known to run and is not the one served. */
  lemma DriftEventPerDigest(base: Policy, view: RegistryView, job: Job, previous: Option<Observation>, m: Manifest)
    requires Resolved(view, job) == Success(m) && !Moved(previous, m)
    ensures |DigestEvents(GroupResult(base, Some(view), job, previous).events)| == |OthersRun(job.members, m)|
  {
    hide ParsedTag, CandidateOutcome, Distinct, Drifted, InitialResult, OthersRun;
    ReportedDigestEvents(base, view, job, previous, m);
    DistinctIsDrifted(Digests(job.members), Served(m));
    DriftedAreOthers(job.members, m);
  }

  /**
    A successful check reports a digest event exactly when the platform's digest moved, or some container is
    known to run another digest than the one served: an up-to-date container of a multi-platform tag, which
    runs the index digest, gives no event.
  */
  lemma DigestEventIff(base: Policy, view: RegistryView, job: Job, previous: Option<Observation>, m: Manifest)
    requires Resolved(view, job) == Success(m)
    ensures DigestEvents(GroupResult(base, Some(view), job, previous).events) != [] <==>
      Moved(previous, m) || SomeRunsOther(job.members, m)
  {
    hide ParsedTag, CandidateOutcome, Distinct, Drifted, Served, SomeRunsOther, OthersRun, InitialResult, DigestPart;
    ReportedDigestEvents(base, view, job, previous, m);
    DriftedAreOthers(job.members, m);
  }

  /** The drift gauge says the same as the drift events. */
  lemma DriftGaugeIff(base: Policy, view: RegistryView, job: Job, previous: Option<Observation>, m: Manifest)
    requires Resolved(view, job) == Success(m)
    ensures HasDrift(GroupResult(base, Some(view), job, previous)) <==> SomeRunsOther(job.members, m)
  {
    hide GroupResult, HasDrift, Drifted, Served, SomeRunsOther, OthersRun;
    DaemonDriftIffDigestsDrifted(base, view, job, previous, m);
    DriftedAreOthers(job.members, m);
  }

  lemma ReportedDigestEvents(base: Policy, view: RegistryView, job: Job, previous: Option<Observation>, m: Manifest)
    requires Resolved(view, job) == Success(m)
    ensures
      var r := GroupResult(base, Some(view), job, previous);
      && DigestEvents(r.events) == DigestPart(job, previous, m)
      && r.events == DigestPart(job, previous, m) + CandidateOutcome(view, job.key, job.now).0
  {
    hide ParsedTag, CandidateOutcome, InitialResult, DigestPart, GroupEvents;
    var digests, candidates := DigestPart(job, previous, m), CandidateOutcome(view, job.key, job.now).0;
    GroupEventsSplit(view, job, previous, m);
    DigestEventsAppend(digests, candidates);
    forall i | 0 <= i < |digests| ensures IsDigestEvent(digests[i]) {
      assert TellsDigest(digests[i], job.key, m.platformManifestDigest);
      TellingIsDigestEvent(digests[i], job.key, m.platformManifestDigest);
    }
    AllDigestEvents(digests);
    OutcomeIsNotDigest(view, job.key, job.now);
    NoDigestEvents(candidates);
    assert digests + [] == digests;
  }

  /** The tag of hint i, for a tag that names nothing itself. */
  function HintedTag(job: Job, i: nat): string
  {
    if ParsedTag(job.key.tag).components == [] && i < |job.hints| && job.hints[i].Some? then job.hints[i].value else ""
  }

  /** Every digest event, field by field: TAG_CHANGED for a tag that names nothing, TAG_MUTATED for any other. */
  predicate IsDigestReport(job: Job, m: Manifest, current: string, i: nat, e: Event)
  {
    e == Event(job.now, Reference(job.key.registry, job.key.repository, Some(job.key.tag), None),
      if ParsedTag(job.key.tag).components == [] then TagChanged else TagMutated,
      job.key.tag, current, HintedTag(job, i), m.platformManifestDigest, job.key.platform, "")
  }

  /**
    A move is one event, from the stored digest to the served one. Without a move, each known running digest
    other than the served one gives an event from and to the served digest. Either way they come first.
  */
  lemma DigestEventsSay(base: Policy, view: RegistryView, job: Job, previous: Option<Observation>, m: Manifest)
    requires Resolved(view, job) == Success(m)
    ensures
      var events := GroupResult(base, Some(view), job, previous).events;
      var ds := DigestEvents(events);
      && ds <= events
      && (Moved(previous, m) ==> |ds| == 1 && IsDigestReport(job, m, previous.value.platformManifestDigest, 0, ds[0]))
      && (!Moved(previous, m) ==> forall i | 0 <= i < |ds| :: IsDigestReport(job, m, m.platformManifestDigest, i, ds[i]))
  {
    hide ParsedTag, CandidateOutcome, Distinct, Drifted, Served, InitialResult, GroupResult, FirstUsable;
    ReportedDigestEvents(base, view, job, previous, m);
    DigestPartSays(job, previous, m);
  }

  lemma DigestPartSays(job: Job, previous: Option<Observation>, m: Manifest)
    ensures
      var ds := DigestPart(job, previous, m);
      && (Moved(previous, m) ==> |ds| == 1 && IsDigestReport(job, m, previous.value.platformManifestDigest, 0, ds[0]))
      && (!Moved(previous, m) ==> forall i | 0 <= i < |ds| :: IsDigestReport(job, m, m.platformManifestDigest, i, ds[i]))
  {
    hide ParsedTag, Distinct, Drifted, Served;
  }

  // ----------------------------------------------------------- available updates

  /** The kinds of updates in the order they are reported, each with its slot. */
  const CANONICAL: seq<EventType> := [
    PatchAvailable, MinorAvailable, MajorAvailable, FamilyAdvancementAvailable,
    ApplicationPatchAvailable, ApplicationMinorAvailable, ApplicationMajorAvailable, BaseAdvancementAvailable]

  function SlotsOf(cs: CandidateSet): (slots: seq<Option<Candidate>>)
    ensures |slots| == |CANONICAL|
  {
    [cs.patch, cs.minor, cs.major, cs.familyAdvancement,
     cs.applicationPatch, cs.applicationMinor, cs.applicationMajor, cs.baseAdvancement]
  }

  function EntriesTo(cs: CandidateSet, n: nat): seq<Entry>
    requires n <= |CANONICAL|
  {
    if n == 0 then [] else EntriesTo(cs, n - 1) + Slotted(CANONICAL[n - 1], SlotsOf(cs)[n - 1])
  }

  lemma EntriesFollowSlots(cs: CandidateSet)
    ensures Entries(cs) == EntriesTo(cs, |CANONICAL|)
  {
    hide Slotted;
    assert EntriesTo(cs, 1) == Slotted(PatchAvailable, cs.patch);
    assert EntriesTo(cs, 2) == EntriesTo(cs, 1) + Slotted(MinorAvailable, cs.minor);
    assert EntriesTo(cs, 3) == EntriesTo(cs, 2) + Slotted(MajorAvailable, cs.major);
    assert EntriesTo(cs, 4) == EntriesTo(cs, 3) + Slotted(FamilyAdvancementAvailable, cs.familyAdvancement);
    assert EntriesTo(cs, 5) == EntriesTo(cs, 4) + Slotted(ApplicationPatchAvailable, cs.applicationPatch);
    assert EntriesTo(cs, 6) == EntriesTo(cs, 5) + Slotted(ApplicationMinorAvailable, cs.applicationMinor);
    assert EntriesTo(cs, 7) == EntriesTo(cs, 6) + Slotted(ApplicationMajorAvailable, cs.applicationMajor);
    assert EntriesTo(cs, 8) == EntriesTo(cs, 7) + Slotted(BaseAdvancementAvailable, cs.baseAdvancement);
  }

  /** The filled slots among the first n, in order, with their candidates. */
  ghost predicate AreFilled(cs: CandidateSet, n: nat, entries: seq<Entry>, slots: seq<nat>)
    requires n <= |CANONICAL|
  {
    && |slots| == |entries|
    && (forall i, j | 0 <= i < j < |slots| :: slots[i] < slots[j])
    && (forall i | 0 <= i < |slots| :: slots[i] < n && SlotsOf(cs)[slots[i]] == Some(entries[i].candidate) &&
          entries[i].kind == CANONICAL[slots[i]])
    && (forall k: nat :: k in slots <==> k < n && SlotsOf(cs)[k].Some?)
  }

  lemma {:induction false} FilledSlots(cs: CandidateSet, n: nat) returns (slots: seq<nat>)
    requires n <= |CANONICAL|
    ensures AreFilled(cs, n, EntriesTo(cs, n), slots)
  {
    hide SlotsOf, CANONICAL, AreFilled;
    if n == 0 {
      slots := [];
      NoneFilled(cs);
    } else {
      var front := FilledSlots(cs, n - 1);
      slots := if SlotsOf(cs)[n - 1].Some? then front + [n - 1] else front;
      FilledGrows(cs, n, EntriesTo(cs, n - 1), front);
    }
  }

  lemma NoneFilled(cs: CandidateSet)
    ensures AreFilled(cs, 0, [], [])
  {
  }

  lemma FilledGrows(cs: CandidateSet, n: nat, entries: seq<Entry>, slots: seq<nat>)
    requires 0 < n <= |CANONICAL| && AreFilled(cs, n - 1, entries, slots)
    ensures AreFilled(cs, n, entries + Slotted(CANONICAL[n - 1], SlotsOf(cs)[n - 1]),
      if SlotsOf(cs)[n - 1].Some? then slots + [n - 1] else slots)
  {
    hide SlotsOf, CANONICAL, AreFilled;
    if SlotsOf(cs)[n - 1].Some? {
      OneMoreFilled(cs, n, entries, slots);
    } else {
      NoMoreFilled(cs, n, entries, slots);
      assert entries + [] == entries;
    }
  }

  lemma NoMoreFilled(cs: CandidateSet, n: nat, entries: seq<Entry>, slots: seq<nat>)
    requires 0 < n <= |CANONICAL| && AreFilled(cs, n - 1, entries, slots) && SlotsOf(cs)[n - 1].None?
    ensures AreFilled(cs, n, entries, slots)
  {
    hide SlotsOf, CANONICAL;
    assert forall k: nat :: k in slots <==> k < n - 1 && SlotsOf(cs)[k].Some?;
  }

  lemma OneMoreFilled(cs: CandidateSet, n: nat, entries: seq<Entry>, slots: seq<nat>)
    requires 0 < n <= |CANONICAL| && AreFilled(cs, n - 1, entries, slots) && SlotsOf(cs)[n - 1].Some?
    ensures AreFilled(cs, n, entries + [Entry(CANONICAL[n - 1], SlotsOf(cs)[n - 1].value)], slots + [n - 1])
  {
    hide SlotsOf, CANONICAL;
    var all := slots + [n - 1];
    forall i, j | 0 <= i < j < |all| ensures all[i] < all[j] {
      assert all[i] in slots;
    }
  }

  /** The update a slot gives rise to: its kind and its candidate, unless the candidate lacks the running platform. */
  predicate IsUpdate(view: RegistryView, key: Key, cs: CandidateSet, now: int, k: nat, e: Event)
    requires k < |CANONICAL|
  {
    SlotsOf(cs)[k].Some? &&
    var tag := SlotsOf(cs)[k].value.tag;
    match view.resolve(key.repository, tag, key.platform)
    case Failure(_) => false
    case Success(m) =>
      e == Event(now, Reference(key.registry, key.repository, Some(key.tag), None),
        if m.platformManifestDigest == "" then OtherPlatformUpdate else CANONICAL[k],
        key.tag, "", tag, "", key.platform, if cs.combined.Some? then cs.combined.value.tag else "")
  }

  predicate ResolvesIn(view: RegistryView, key: Key, slot: Option<Candidate>)
  {
    slot.Some? && view.resolve(key.repository, slot.value.tag, key.platform).Success?
  }

  /** The events are the updates of the filled slots whose candidates resolve, in canonical order, once each. */
  ghost predicate AreUpdates(view: RegistryView, key: Key, cs: CandidateSet, now: int, events: seq<Event>, slots: seq<nat>)
  {
    && |slots| == |events|
    && (forall i, j | 0 <= i < j < |slots| :: slots[i] < slots[j])
    && (forall i | 0 <= i < |slots| :: slots[i] < |CANONICAL| && IsUpdate(view, key, cs, now, slots[i], events[i]))
    && (forall k | 0 <= k < |CANONICAL| && ResolvesIn(view, key, SlotsOf(cs)[k]) :: k in slots)
  }

  /**
    The updates a check reports are, in canonical order, exactly those of the slots of the analysis whose
    candidates resolve; the check is partial when some do not. All of them name the combined tag, if there is one.
  */
  lemma UpdatesAreTheSlots(view: RegistryView, key: Key, now: int, tags: seq<string>)
    requires ParsedTag(key.tag).Application().Some? && view.list(key.repository) == Success(tags)
    ensures
      var (events, partial) := CandidateOutcome(view, key, now);
      var cs := Analysis(key.tag, tags);
      && (exists slots: seq<nat> :: AreUpdates(view, key, cs, now, events, slots))
      && (partial <==> exists k | 0 <= k < |CANONICAL| :: SlotsOf(cs)[k].Some? && !ResolvesIn(view, key, SlotsOf(cs)[k]))
  {
    hide ParsedTag, FirstUsable, CandidateEvents, IsAnalysis, Entries, SlotsOf, CANONICAL, EntriesTo, IsUpdate, AreFilled, IsAccount;
    var (events, partial) := CandidateOutcome(view, key, now);
    var cs := Analysis(key.tag, tags);
    var entries := Entries(cs);
    EntriesFollowSlots(cs);
    var filled := FilledSlots(cs, |CANONICAL|);
    CandidateEventsAccountForWinners(view, key, cs, entries, now);
    var at: seq<nat> :| IsAccount(view, key, cs, now, entries, events, partial, at);
    CombinedOnComposite(key.tag, tags);
    var slots := AccountedSlots(view, key, cs, now, entries, filled, events, partial, at);
    PartialIffSlotFails(view, key, cs, now, entries, filled, events, partial, at);
  }

  /** A combined tag exists for composite tags only, which fill only the slots that name it. */
  lemma CombinedOnComposite(currentRaw: string, tags: seq<string>)
    ensures
      var cs := Analysis(currentRaw, tags);
      cs.combined.Some? ==> forall k | 0 <= k < |CANONICAL| && SlotsOf(cs)[k].Some? :: OnComposite(CANONICAL[k])
  {
    hide ParsedTag, FirstUsable, HasRole, Selects, Precedence, FirstPresent;
  }

  lemma AccountedSlots(view: RegistryView, key: Key, cs: CandidateSet, now: int, entries: seq<Entry>, filled: seq<nat>,
                       events: seq<Event>, partial: bool, at: seq<nat>) returns (slots: seq<nat>)
    requires AreFilled(cs, |CANONICAL|, entries, filled) && IsAccount(view, key, cs, now, entries, events, partial, at)
    requires cs.combined.Some? ==> forall k | 0 <= k < |CANONICAL| && SlotsOf(cs)[k].Some? :: OnComposite(CANONICAL[k])
    ensures AreUpdates(view, key, cs, now, events, slots)
  {
    hide SlotsOf, CANONICAL, OnComposite, IsUpdate, IsEventOf, Resolves, ResolvesIn;
    slots := seq(|at|, i requires 0 <= i < |at| => filled[at[i]]);
    forall i | 0 <= i < |slots| ensures IsUpdate(view, key, cs, now, slots[i], events[i]) {
      EntryIsUpdate(view, key, cs, now, entries[at[i]], slots[i], events[i]);
    }
    forall k | 0 <= k < |CANONICAL| && ResolvesIn(view, key, SlotsOf(cs)[k]) ensures k in slots {
      FilledIsSome(view, key, SlotsOf(cs)[k]);
      var n := FilledPosition(view, key, cs, entries, filled, k);
      EntryResolves(view, key, cs, entries[n], k);
      var i :| 0 <= i < |at| && at[i] == n;
      assert slots[i] == k;
    }
  }

  lemma FilledPosition(view: RegistryView, key: Key, cs: CandidateSet, entries: seq<Entry>, filled: seq<nat>, k: nat) returns (n: nat)
    requires AreFilled(cs, |CANONICAL|, entries, filled) && k < |CANONICAL| && SlotsOf(cs)[k].Some?
    ensures n < |filled| == |entries| && filled[n] == k && SlotsOf(cs)[k] == Some(entries[n].candidate)
  {
    hide SlotsOf, CANONICAL;
    n :| 0 <= n < |filled| && filled[n] == k;
  }

  lemma PartialIffSlotFails(view: RegistryView, key: Key, cs: CandidateSet, now: int, entries: seq<Entry>, filled: seq<nat>,
                            events: seq<Event>, partial: bool, at: seq<nat>)
    requires AreFilled(cs, |CANONICAL|, entries, filled) && IsAccount(view, key, cs, now, entries, events, partial, at)
    ensures partial <==> exists k | 0 <= k < |CANONICAL| :: SlotsOf(cs)[k].Some? && !ResolvesIn(view, key, SlotsOf(cs)[k])
  {
    hide SlotsOf, CANONICAL, IsEventOf, Resolves, ResolvesIn;
    if k :| 0 <= k < |CANONICAL| && SlotsOf(cs)[k].Some? && !ResolvesIn(view, key, SlotsOf(cs)[k]) {
      var n := FilledPosition(view, key, cs, entries, filled, k);
      EntryResolves(view, key, cs, entries[n], k);
    }
    if n :| 0 <= n < |entries| && !Resolves(view, key, entries[n]) {
      EntryResolves(view, key, cs, entries[n], filled[n]);
    }
  }

  lemma FilledIsSome(view: RegistryView, key: Key, slot: Option<Candidate>)
    requires ResolvesIn(view, key, slot)
    ensures slot.Some?
  {
  }

  lemma EntryResolves(view: RegistryView, key: Key, cs: CandidateSet, e: Entry, k: nat)
    requires k < |CANONICAL| && SlotsOf(cs)[k] == Some(e.candidate)
    ensures Resolves(view, key, e) == ResolvesIn(view, key, SlotsOf(cs)[k])
  {
    hide SlotsOf;
  }

  lemma EntryIsUpdate(view: RegistryView, key: Key, cs: CandidateSet, now: int, e: Entry, k: nat, event: Event)
    requires k < |CANONICAL| && SlotsOf(cs)[k] == Some(e.candidate) && e.kind == CANONICAL[k]
    requires IsEventOf(view, key, cs, e, event, now) && (cs.combined.Some? ==> OnComposite(e.kind))
    ensures IsUpdate(view, key, cs, now, k, event)
  {
    hide SlotsOf, CANONICAL, OnComposite;
  }

  ghost predicate Tells(events: seq<Event>, kind: EventType, tag: string)
  {
    exists i | 0 <= i < |events| :: events[i].kind == kind && events[i].candidateTag == tag
  }

  /** The slot's candidate is the tag, and the tag has a manifest for the running platform. */
  predicate Available(view: RegistryView, key: Key, slot: Option<Candidate>, tag: string)
  {
    slot.Some? && slot.value.tag == tag &&
    match view.resolve(key.repository, tag, key.platform)
    case Failure(_) => false
    case Success(m) => m.platformManifestDigest != ""
  }

  lemma KindTellsItsSlot(view: RegistryView, key: Key, cs: CandidateSet, now: int, events: seq<Event>, slots: seq<nat>, k: nat, tag: string)
    requires AreUpdates(view, key, cs, now, events, slots) && k < |CANONICAL|
    ensures Tells(events, CANONICAL[k], tag) <==> Available(view, key, SlotsOf(cs)[k], tag)
  {
    hide SlotsOf;
    KindsDiffer();
    if i :| 0 <= i < |events| && events[i].kind == CANONICAL[k] && events[i].candidateTag == tag {
      assert IsUpdate(view, key, cs, now, slots[i], events[i]);
      assert slots[i] == k;
    }
    if Available(view, key, SlotsOf(cs)[k], tag) {
      assert ResolvesIn(view, key, SlotsOf(cs)[k]);
      var i :| 0 <= i < |slots| && slots[i] == k;
      assert IsUpdate(view, key, cs, now, slots[i], events[i]);
    }
  }

  lemma KindsDiffer()
    ensures forall i, j | 0 <= i < j < |CANONICAL| :: CANONICAL[i] != CANONICAL[j]
    ensures OtherPlatformUpdate !in CANONICAL
  {
  }

  /** Kind by kind: an update of a kind is told for a tag exactly when that kind's slot holds the tag and it fits the platform. */
  lemma EachKindTellsItsSlot(view: RegistryView, key: Key, now: int, tags: seq<string>, tag: string)
    requires ParsedTag(key.tag).Application().Some? && view.list(key.repository) == Success(tags)
    ensures
      var events := CandidateOutcome(view, key, now).0;
      var cs := Analysis(key.tag, tags);
      && (Tells(events, PatchAvailable, tag) <==> Available(view, key, cs.patch, tag))
      && (Tells(events, MinorAvailable, tag) <==> Available(view, key, cs.minor, tag))
      && (Tells(events, MajorAvailable, tag) <==> Available(view, key, cs.major, tag))
      && (Tells(events, FamilyAdvancementAvailable, tag) <==> Available(view, key, cs.familyAdvancement, tag))
      && (Tells(events, ApplicationPatchAvailable, tag) <==> Available(view, key, cs.applicationPatch, tag))
      && (Tells(events, ApplicationMinorAvailable, tag) <==> Available(view, key, cs.applicationMinor, tag))
      && (Tells(events, ApplicationMajorAvailable, tag) <==> Available(view, key, cs.applicationMajor, tag))
      && (Tells(events, BaseAdvancementAvailable, tag) <==> Available(view, key, cs.baseAdvancement, tag))
  {
    hide ParsedTag, FirstUsable, CandidateOutcome, IsAnalysis, Tells, Available, AreUpdates;
    UpdatesAreTheSlots(view, key, now, tags);
    var events := CandidateOutcome(view, key, now).0;
    var cs := Analysis(key.tag, tags);
    var slots: seq<nat> :| AreUpdates(view, key, cs, now, events, slots);
    forall k: nat | k < |CANONICAL|
      ensures Tells(events, CANONICAL[k], tag) <==> Available(view, key, SlotsOf(cs)[k], tag)
    {
      KindTellsItsSlot(view, key, cs, now, events, slots, k, tag);
    }
    assert CANONICAL[0] == PatchAvailable && CANONICAL[1] == MinorAvailable && CANONICAL[2] == MajorAvailable;
    assert CANONICAL[3] == FamilyAdvancementAvailable && CANONICAL[4] == ApplicationPatchAvailable;
    assert CANONICAL[5] == ApplicationMinorAvailable && CANONICAL[6] == ApplicationMajorAvailable;
    assert CANONICAL[7] == BaseAdvancementAvailable;
  }

  // ------------------------------------------------- what a moved tag now serves

  /** The listed release, and no other, resolves to the platform's digest. */
  ghost predicate IsOnlyRelease(view: RegistryView, q: Query, tags: seq<string>, release: string)
  {
    && release in tags && IsRelease(q.running, release)
    && forall tag | tag in tags && IsRelease(q.running, tag) :: ServesDigest(view, q, tag) <==> tag == release
  }

  /**
    End to end: when a tag that names nothing moved, or containers drifted from it, and exactly one listed
    release, within the cap, resolves to the digest it serves for the platform, then every digest event of an
    undisturbed check names that release, whatever the index digests.
  */
  lemma MovedTagNamesItsRelease(base: Policy, view: RegistryView, job: Job, previous: Option<Observation>, m: Manifest,
                                config: Config, tags: seq<string>, release: string)
    requires Resolved(view, job) == Success(m) && ParsedTag(job.key.tag).components == []
    requires SoundAttempts(Some(view), job, previous, config, true) && view.list(job.key.repository) == Success(tags)
    requires IsOnlyRelease(view, Query(job.key.repository, job.key.tag, job.key.platform, m.platformManifestDigest), tags, release)
    requires AtLeastAsNew(job.key.tag, tags, VersionOf(release)) <= if config.maxTags <= 0 then 100 else config.maxTags
    ensures
      var ds := DigestEvents(GroupResult(base, Some(view), job, previous).events);
      forall i | 0 <= i < |ds| :: ds[i].candidateTag == release
  {
    hide ParsedTag, FirstUsable, GroupResult, AtLeastAsNew, InferredFrom, IsDigestReport, Drifted, Served, ServesDigest, IsRelease;
    var ds := DigestEvents(GroupResult(base, Some(view), job, previous).events);
    HintsNameRelease(view, job, previous, m, config, tags, release);
    DigestEventsSay(base, view, job, previous, m);
    AttemptPerDigestEvent(base, view, job, previous, m);
    forall i | 0 <= i < |ds| ensures ds[i].candidateTag == release {
      ReportNamesHint(job, m, if Moved(previous, m) then previous.value.platformManifestDigest else m.platformManifestDigest, i, ds[i]);
    }
  }

  lemma ReportNamesHint(job: Job, m: Manifest, current: string, i: nat, e: Event)
    requires IsDigestReport(job, m, current, i, e)
    ensures e.candidateTag == HintedTag(job, i)
  {
    hide ParsedTag;
  }

  lemma AttemptPerDigestEvent(base: Policy, view: RegistryView, job: Job, previous: Option<Observation>, m: Manifest)
    requires Resolved(view, job) == Success(m) && ParsedTag(job.key.tag).components == []
    ensures |DigestEvents(GroupResult(base, Some(view), job, previous).events)| == Attempts(job.key, Digests(job.members), previous, m)
  {
    hide ParsedTag, GroupResult, Distinct, Drifted, FirstUsable;
    ReportedDigestEvents(base, view, job, previous, m);
    DistinctIsDrifted(Digests(job.members), Served(m));
  }

  lemma HintsNameRelease(view: RegistryView, job: Job, previous: Option<Observation>, m: Manifest, config: Config,
                         tags: seq<string>, release: string)
    requires Resolved(view, job) == Success(m)
    requires SoundAttempts(Some(view), job, previous, config, true) && view.list(job.key.repository) == Success(tags)
    requires IsOnlyRelease(view, Query(job.key.repository, job.key.tag, job.key.platform, m.platformManifestDigest), tags, release)
    requires AtLeastAsNew(job.key.tag, tags, VersionOf(release)) <= if config.maxTags <= 0 then 100 else config.maxTags
    ensures |job.hints| == Attempts(job.key, Digests(job.members), previous, m)
    ensures forall i | 0 <= i < |job.hints| :: job.hints[i] == Some(release)
  {
    hide ParsedTag, FirstUsable, AtLeastAsNew, InferredFrom, Attempts, ServesDigest, IsRelease;
    var q := QueryOf(job.key, m.platformManifestDigest);
    var listing :| IsListing(view, job.key.repository, true, listing) &&
      HintsFrom(view, job.key, m.platformManifestDigest, config, true, listing, job.hints);
    var maxTags := EffectiveMaxTags(config.maxTags);
    forall i | 0 <= i < |job.hints| ensures job.hints[i] == Some(release) {
      InferredIsRelease(view, q, maxTags, true, tags, job.hints[i]);
    }
  }

  // ------------------------------------------------------------------ the gauges

  /**
    After a cycle whose results have distinct series, the availability gauge of a fresh result and an event
    type is up exactly when the result has an event of the type and some member's own policy allows it.
  */
  lemma AvailabilityShowsAllowedEvents(g: Snapshot, results: seq<CheckResult>, i: nat, t: EventType)
    requires DistinctSeries(results) && i < |results| && t != RegistryOutage
    requires results[i].err.None? && !results[i].partial
    requires results[i].containerPolicies != [] && results[i].effectivePolicy == Merged(results[i].containerPolicies)
    ensures
      var r, after := results[i], PublishedAll(g, results);
      var gauge := (Series(r.image.registry + "/" + r.image.repository, r.image.TagOrEmpty(), r.platform.String()), t);
      && gauge in after.available
      && (after.available[gauge] <==>
            && (exists j | 0 <= j < |r.events| :: r.events[j].kind == t)
            && exists k | 0 <= k < |r.containerPolicies| :: r.containerPolicies[k].Allows(t))
  {
    hide PublishedAll, Merged, Policy.Allows, DistinctSeries, Platform.String;
    SeriesShowOwnResult(g, results, i);
    MergedAllowsIffSome(results[i].containerPolicies, t);
    assert t in TRACKED;
  }
}
