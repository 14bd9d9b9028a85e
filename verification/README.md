# image-watch: a verified model of detection and notification

image-watch watches the containers running on a host, compares their images with what the registries
serve, and notifies once per event. This project models that engine in Dafny and proves what it promises:

- **Reading tags** (`Text`, `SemVers`, `Tags`): version cores, base families, dash-separated tags, and their round trips.
- **Choosing candidates** (`Candidates`, `CandidateOrder`, `SlotNumbers`): the one-pass selection against a declarative
  answer, the precedence of categories against version order, the combined tag, and which slot a tag fills by its numbers.
- **One check** (`Registries`, `Enrichment`, `Detection`, `Checks`, `Scans`): `checkGroup` with its registry requests,
  its store write, the windowed enrichment scan, and the concurrent scans of one group over their locked memo.
- **What a check says** (`Releases`, `Reports`): reports, inferred releases and gauges, told from the containers, the tag
  list and the registry's answers alone.
- **A cycle** (`Groups`, `Cycle`): grouping, ordering, and the worker pool as a state machine whose every interleaving
  equals the sequential run.
- **Over time** (`Baseline`, `Pipeline`, `Histories`, `Outages`, `Daemon`): the digest baseline, deduplication across
  cycles, what whole runs of daemon cycles tell and what they lose, outage alerts, and the gauges.
- **Identities and parsers** (`Images`, `Events`, `Policies`, `Challenges`, `States`): references, fingerprints,
  policies, Bearer challenges, the memory store.

Where the program loops or updates state, the model does too: methods with loop invariants, and the classes
`ApplicationSlots`, `MemoryStore`, `Registry`, `GroupCache`, `RegistryOutageTracker` and `Gauges`. Map iteration picks
keys in arbitrary order, concurrent fetches complete in arbitrary order, and `sort.Slice` promises nothing about ties.

## How the environment appears

- A registry is an oracle (`RegistryView`) fixed within a check; `Registry` adds a log that counts every request.
- Cancellation of an enrichment is an arbitrary predicate on numbered context checks; a request in flight when the
  context ends may fail or not.
- Notifier outcomes are arbitrary for every call. Clock readings are parameters.
- The outcomes of a group's enrichment attempts are a parameter (`hints`) of what the group reports; `CheckGroup` proves
  that the hints it uses are sound inferences.
- Strings are sequences of code points, whose order is that of the UTF-8 bytes Go compares. Numbers are bounded by
  `MAX_INT`, Go's 64-bit maximum, where the parser bounds them.

## What turned out to be false, and when it is true

- *The best category is the newest release.* False for a composite running tag of major precision, which has no slot
  for newer releases of its own major: `PrecedenceIsVersionOrder` gives the exact condition,
  `MajorCompositeMissesItsOwnMajor` a whole family of inputs.
- *The combined tag keeps the running base family.* Base names are not compared: `CombinedKeepsFamilyIff` has the exact
  condition on the tag list, `CombinedMayChangeFamily` an example.
- *A digest that differs from the last one known is reported.* A successful check without a manifest for the platform
  erases the baseline: `ChangeSinceLastKnownIsReportedIff` and `ErasedBaselineMissesRePush`.
- *A failed check of a key that never succeeded leaves it unknown.* Only the first failure does; the second makes it
  stale: `NeverSucceededIsUnknownIff` and `SecondFailureIsStale`.
- *An undelivered transition is retried.* It fires once. While the new digest is served, a later cycle tells it again
  exactly when some container then runs a drifted digest and no notification that told it was accepted:
  `UndeliveredTransitionIsRetriedIff`; `TransitionMayBeLost` has runs in which it is never told again.
- *Every move of a tag is told.* The fingerprint of a move is its key and the digest moved to, so a digest told once
  silences every later move to it: `FiredTransitionIsToldIff`, and `MovedAgainIsToldIff` for a tag moved back and forth.
- *Each available update is notified.* The fingerprint has no candidate tag: an update is told exactly when no earlier
  notification of an update of the same stream and kind was accepted (`UpdateIsNotifiedIff`, `UpdateIsToldIff`);
  `NewerReleaseIsToldIff` has runs in which a newer release is silenced by an older one.
- *An outage alert is retried when its delivery fails.* The tracker is moved before delivery: an outage is heard of
  exactly when some notifier accepts in the one cycle that reaches the threshold (`OutageIsHeardIff`), and an alert is
  raised again only by a new outage (`AlertIsRaisedAgainIff`); `AlertMayBeLost` has runs that lose it.
- *Configuration and labels merge permissively* (the repository's README, per-container labels). A label overrides the
  configuration both ways: `LabelsArePermissiveIff` and `LabelMayForbid`.
- *The Bearer scheme is recognised however it is spelled* (section 11.1 of RFC 9110 makes scheme names
  case-insensitive). Only the canonical spelling is: `SchemeSpellingDecides`, `OtherSpellingsAreRefused` and
  `LowerCaseSchemeIsRefused`.
- *A stream is marked stale when its most recent check failed* (the metric's help text). The code also marks successful
  checks whose candidates are not all known: `StreamIsMarkedStaleIff` and `SuccessMayBeMarkedStale`.

## Model

| member | source | states |
|---|---|---|
| Cycle.EveryInterleavingIsSequential | internal/observer/observer.go:135-154 | for every run of the pool, any limit and any order of the groups' store reads and writes, the final store and every result slot equal those of running the groups one after the other |
| Cycle.StepKeepsIsolation | internal/observer/observer.go:219-333 | each atomic step of one group keeps every group on its sequential course and leaves all foreign keys alone |
| Cycle.SequentialStoreIs | internal/observer/observer.go:261-275 | a key in the cycle is written once, from what the store held at the start; every other key is untouched |
| Cycle.PoolIsBounded | internal/observer/observer.go:141-149 | at no moment are more groups under way than the pool allows |
| Cycle.NeverStuck | internal/observer/observer.go:141-152 | until every group has finished, some group can step |
| Cycle.RunsAreBounded | internal/observer/observer.go:141-152 | a cycle over n groups takes at most 5n steps under every schedule |
| Cycle.EveryRunCanComplete | internal/observer/observer.go:141-152 | every run, however far it has come, extends to one in which all groups have finished |
| Cycle.Check | internal/observer/observer.go:123-155 | one result per occurring key, in strict key order, over exactly that key's members; results and store are the sequential reference; every group's hints are sound; no registry is asked for more listings or manifests than the budgets of its groups |
| Groups.GroupContainers | internal/observer/observer.go:186-210 | a group exists exactly for each key that occurs and holds its containers in list order; pinned, tagless and skipped containers are in none |
| Groups.GroupHasItsContainers | internal/observer/observer.go:186-210 | a container is in the group of exactly its registry, repository, tag and platform, and in none without a tag or with the skip label "true" |
| Groups.SortedGroupKeys | internal/observer/observer.go:158-165 | whatever the map iteration, the keys come out strictly sorted, each once |
| Groups.SortedKeysAreUnique | internal/observer/observer.go:157-165 | there is only one strictly sorted list of a set of keys |
| Groups.KeyLessIsStrictTotalOrder | internal/observer/observer.go:103-120 | `less` is irreflexive, total, asymmetric and transitive |
| Groups.KeyOrderIsLexicographic | internal/observer/observer.go:103-120 | registry, repository, tag, OS, architecture, variant are compared in that order, and the first difference decides |
| Checks.CheckGroup | internal/observer/observer.go:219-319 | the report and the single store write as a function of the registry's answers and the stored observation; at most one tag listing; for opaque tags one enrichment attempt for each digest event, with sound hints from one listing; at most its own tag, each attempt's budget and each distinct winner requested |
| Checks.MarkStale | internal/observer/observer.go:321-333 | a failure keeps digests and last success, and marks stale only what was recorded before |
| Reports.ReportDescribesGroup | internal/observer/observer.go:219-227 | every report names its stream and its members in order with their own digests and policies |
| Reports.FailureReportsNothing | internal/observer/observer.go:229-253 | a failed check has its error, no events and no served digest, and is stale iff the registry was asked |
| Reports.IndexDigestIsServed | internal/observer/observer.go:256-259 | the index digest is served when there is one, else the platform digest |
| Reports.DigestEventIff | internal/observer/observer.go:287-294 | a digest event is reported iff the platform digest moved or some container is known to run another digest than the index, or without an index than the platform manifest |
| Reports.DriftEventPerDigest | internal/observer/observer.go:411-420 | without a move there is one digest event for each such digest |
| Reports.DigestEventsSay | internal/observer/observer.go:345-402 | every digest event field by field, first in the report; TAG_CHANGED for tags that name nothing, TAG_MUTATED for others |
| Reports.DriftGaugeIff | cmd/image-watch/daemon.go:165-189 | the drift gauge is up iff some container is known to run another digest, by the same comparison |
| Reports.UpdatesAreTheSlots | internal/observer/observer.go:502-579 | the updates reported are, in canonical order and field by field, those of the filled slots whose candidates resolve, all with the combined tag if there is one; partial iff some do not |
| Reports.EachKindTellsItsSlot | internal/observer/observer.go:514-521 | kind by kind, an update is told for a tag iff that kind's slot holds the tag and it has a manifest for the platform |
| Reports.MovedTagNamesItsRelease | internal/observer/enrichment.go:82-159 | end to end: if exactly one listed release, within the cap, resolves to the platform digest a tag now serves, every digest event of an undisturbed check names it, whatever the index digests |
| Checks.DetectVersionCandidateEvents | internal/observer/observer.go:483-579 | same outcome as resolving every winner on its own; one listing; the request log grows by exactly one request for each distinct winner |
| Checks.CandidateEventsAccountForWinners | internal/observer/observer.go:549-578 | every winner gives exactly one event, in canonical order, or sets partial; other-platform exactly when the platform digest is empty |
| Detection.IndexWinners | internal/observer/observer.go:526-534 | the winner list has no duplicates and the index inverts it |
| Checks.DetectDigestEvents | internal/observer/observer.go:336-392 | an event exactly on a transition, with the right type; one enrichment attempt for opaque tags, none otherwise |
| Checks.DetectDigestDriftEvents | internal/observer/observer.go:406-480 | one event per distinct drifted digest; hints from one listing, made at most once, within the attempts' budgets |
| Checks.InferDrift | internal/observer/observer.go:437-460 | whole scans in any order: one listing, sound hints that all come from it, within the budgets |
| Scans.EveryInterleavingSharesOneListing | internal/observer/observer.go:437-460 | for every interleaving of the concurrent attempts' steps the tags are listed at most once and every attempt concludes from that one listing, with the plain scan's answer and its windows, or less only when cancelled |
| Scans.StepKeeps | internal/observer/enrichment.go:39-160 | no step of one attempt changes what the memo answers or upsets what another has reached |
| Scans.NeverStuck | internal/observer/observer.go:442-454 | until every attempt is done some attempt can step |
| Detection.DistinctIsDrifted | internal/observer/observer.go:411-420 | the drift list is the set of known running digests other than the served one, each once |
| Enrichment.AttemptEnrichment | internal/observer/enrichment.go:53-160 | the answer of the plain newest-first scan whatever the worker count; under cancellation that or none; exact request count |
| Enrichment.SearchWindows | internal/observer/enrichment.go:109-150 | for every completion order, windows give the plain scan's answer; the log grows by one request for each of the newest tags, whole windows up to the first match and no more |
| Enrichment.NoNewerTagMatches | internal/observer/enrichment.go:82-105 | no strictly newer versionable tag of the whole repository resolves to the digest of the returned one |
| Releases.InferredIsRelease | internal/observer/enrichment.go:136-148 | an inferred tag is a listed release, not the running tag, that resolves to the platform digest asked for; undisturbed, none is inferred only if no release within the cap does |
| Releases.WithinCapIsScanned | internal/observer/enrichment.go:87-102 | a release is scanned when no more releases than the cap are at least as new |
| Enrichment.ScanOrderLength | internal/observer/enrichment.go:97-102 | a scan covers min(maxTags, versionable tags) tags |
| Enrichment.NeededCovers | internal/observer/enrichment.go:117-118 | the window about to be fetched is needed when nothing earlier matched |
| Enrichment.WindowEndIs | internal/observer/enrichment.go:117-118 | a match at k inside window r makes (k / window + 1) * window the end of that window |
| Enrichment.GroupCache.List | internal/observer/enrichment.go:39-50 | the registry is asked at most once per repository and all callers see its first answer, error or not |
| Enrichment.Enrich | internal/observer/enrichment.go:53-160 | on a memo that tells the registry's own listings, the inference follows from the memo's listing, within min(maxTags, versionable tags) requests |
| Enrichment.VersionableHolds | internal/observer/enrichment.go:87-96 | the candidates are exactly the tags with an application version other than the running one |
| Registries.FetchConcurrently | internal/observer/enrichment.go:124-130 | every completion order requests each tag exactly once and leaves each answer at its own position |
| Baseline.StoredIsLastSuccess | internal/observer/observer.go:244-275 | over any run the stored digests are those of the latest success; the exact status after every run |
| Baseline.StoreTracksEveryKey | internal/observer/observer.go:123-155 | over any run of cycles, each played with any pool size and interleaving, the store holds for every key what that key's own checks left |
| Baseline.EveryPlayIsSequential | internal/observer/observer.go:123-155 | in every such run the result slots of every cycle are those of running its groups one after the other |
| Baseline.PlaysExist | internal/observer/observer.go:123-155 | every plan of cycles over distinct keys can be played to its end |
| Baseline.ReportDependsOnOwnKey | internal/observer/observer.go:219-319 | a report depends on the stored state through its own key's earlier checks only |
| Baseline.NeverSucceededIsUnknownIff | internal/observer/observer.go:321-333 | a key that never succeeded is unknown after exactly one failure, else stale |
| Baseline.SecondFailureIsStale | internal/observer/observer.go:325-329 | two failures and no success: stale |
| Baseline.StoredTellsTimesAndError | internal/observer/observer.go:261-333 | over any run: the time of the latest success, and the error and time of the latest check if it failed |
| Baseline.TransitionIffDigestChanged | internal/observer/observer.go:345-361 | a success fires exactly when its digest and the latest success's are known and differ |
| Baseline.RePushDuringOutageIsReported | internal/observer/observer.go:236-292 | a re-push during an outage is reported by the first later success |
| Baseline.RePushIsReportedOnce | internal/observer/observer.go:345-361 | and never again while later checks fail or serve that digest |
| Baseline.ChangeSinceLastKnownIsReportedIff | internal/observer/observer.go:261-270 | a change since the last known digest is reported iff the latest success served a platform manifest |
| Baseline.ErasedBaselineMissesRePush | internal/observer/observer.go:345-352 | three successes, a changed digest, and no transition |
| Baseline.ReportShowsTransition | internal/observer/observer.go:287-295 | a report contains an event whose digests differ exactly when a transition fired |
| Candidates.AnalyzeCandidates | internal/version/candidates.go:35-79 | every slot holds the first tag in list order with the greatest eligible version, or nothing iff none is eligible |
| Candidates.AnalysisIsUnique | internal/version/candidates.go:35-79 | that declarative answer determines every slot |
| Candidates.SelectStep | internal/version/candidates.go:112-116 | a strict update keeps the first greatest |
| Candidates.ApplicationSlots.Classify | internal/version/candidates.go:82-110 | each slot is updated exactly when its declarative acceptance holds |
| Candidates.FindCombinedCandidate | internal/version/candidates.go:144-164 | the first tag carrying both winning versions, nothing iff impossible or absent |
| CandidateOrder.SlotsPartitionNewer | internal/version/candidates.go:82-110 | a version is newer exactly when one slot accepts it, and no two do |
| SlotNumbers.NewerTagReachesItsSlot | internal/version/candidates.go:82-131 | in numbers: a newer tag of the shape is reached by major when the major grew, at patch precision by minor or patch, at minor precision by patch, at major precision by family for a plain tag |
| SlotNumbers.SlotsHoldTheirOwn | internal/version/candidates.go:82-131 | and slots hold nothing else: plain slots for plain tags, application slots for composite ones, never a family candidate for those |
| SlotNumbers.BaseCandidateIsNewerSibling | internal/version/candidates.go:61-71 | the base candidate reaches every tag of the family with greater base numbers and is one of them; none without a base version |
| SlotNumbers.CombinedHasBothNumbers | internal/version/candidates.go:144-164 | the combined tag is the first with the numbers of both winners |
| SlotNumbers.PlainTagFillsSlot | internal/version/candidates.go:82-110 | for every two plain versions, exactly which slot of the result holds the other |
| SlotNumbers.CompositeTagFillsSlot | internal/version/candidates.go:119-126 | the same for every two composite tags, with the base candidate |
| SlotNumbers.OtherShapeFillsNoSlot | internal/version/candidates.go:56-59 | plain and composite tags are no candidates for each other |
| CandidateOrder.BestIsGreatestFilled | internal/version/candidates.go:134-141 | the best overall is at least as new as every filled application slot |
| CandidateOrder.PrecedenceIsVersionOrder | internal/version/candidates.go:119-141 | for every running tag and tag list the best overall is the first greatest newer tag of its shape, nil iff none, but for the lost family |
| CandidateOrder.MajorCompositeMissesItsOwnMajor | internal/version/candidates.go:119-126 | a composite tag of major precision is told nothing about newer releases of its major |
| CandidateOrder.CombinedIsSoundAndComplete | internal/version/candidates.go:144-164 | the combined tag exists iff the tag is composite, both winners exist and some tag carries both versions |
| CandidateOrder.CombinedIsDominant | internal/version/candidates.go:73-78 | no available tag of the shape has a newer application, none of the running family a newer base |
| CandidateOrder.CombinedIsFirstOfCarriers | internal/version/candidates.go:73-163 | in terms of the tag list alone: the combined tag is the first that carries the greatest newer application and the greatest newer base on offer, and exists iff one does and no family is lost |
| CandidateOrder.CombinedKeepsFamilyIff | internal/version/candidates.go:148-161 | for every running tag and list, an existing combined tag is of the running family iff among the carriers of both greatest versions one of the family is listed before all of others |
| CandidateOrder.CombinedMayChangeFamily | internal/version/candidates.go:157-160 | three tags for which an alpine tag's combined candidate is a debian tag |
| CandidateOrder.LastPatchIsChosen | internal/version/candidates.go:35-79 | of ever newer patch releases of a plain version the last is the patch candidate, and there is no other candidate |
| Tags.ParseTag | internal/version/resolver.go:9-39 | the method computes `ParsedTag`, whose shape `TagShape`, `HasApplicationIffSomeRelease` and `CompositeTagReadsBack` fix |
| Tags.SplitOnDash | internal/version/resolver.go:41-52 | the maximal dash-free segments; joined again they are the tag |
| Tags.ParseSegments | internal/version/resolver.go:55-113 | the scan's best release and other components |
| Tags.SegmentMeans | internal/version/resolver.go:60-101 | a segment is blank, a known family with its version, a release of one to three numbers that fit, or an unrecognised base of low confidence |
| Tags.DashedTagReads | internal/version/resolver.go:55-113 | a dashed tag has the leftmost most precise release in front and all other parts in order |
| Tags.MorePreciseReleaseCounts | internal/version/resolver.go:86-91 | of two releases in a tag the one with more numbers counts, else the first |
| Tags.WordMakesComposite | internal/version/composite.go:46-77 | an unrecognised word after a version makes a tag composite without a base |
| Tags.PrefixedTagReads | internal/version/resolver.go:14-29 | "v" in front of a version changes nothing but its text |
| Tags.OpaqueIff | internal/version/resolver.go:9-39 | a tag names nothing iff it is no version and has no dash or consists of dashes |
| Tags.BestReleaseIsLeftmostMostPrecise | internal/version/resolver.go:86-91 | the application is the leftmost release of the highest precision, absent iff no segment is a release |
| Tags.OthersKeepEverySegmentOnce | internal/version/resolver.go:60-101 | every other non-blank non-release segment becomes exactly one component, in order |
| Tags.TagShape | internal/version/composite.go:46-77 | at most one application component, in front; composite iff something follows it, usable or not |
| Tags.HasApplicationIffSomeRelease | internal/version/resolver.go:9-39 | a tag has an application version iff one of its segments is a release |
| Tags.CompositeTagReadsBack | internal/version/resolver.go:55-113 | a composite text of a version, a family and a base version reads back as those two components |
| Tags.PlainTagReadsBack | internal/version/resolver.go:9-39 | a rendered version reads back as its one application component |
| Tags.OwnFamilyMatches | internal/version/family.go:34-50 | a family token is recognised as its own family, never another |
| SemVers.ParseSemVer | internal/version/semver.go:88-129 | the numbers, precision and suffix, or the error of the first bad part |
| SemVers.RenderedVersionParsesBack | internal/version/semver.go:49-60 | with or without "v", a rendered version restores its numbers and precision iff they fit an int |
| SemVers.ParsedVersionRendersBack | internal/version/semver.go:88-129 | every accepted text's rendering parses to the same version |
| SemVers.CompareIsTotalPreorder | internal/version/semver.go:63-74 | comparison is a total preorder with ties exactly on equal numbers |
| SemVers.FirstDifferenceDecides | internal/version/semver.go:63-74 | major, then minor, then patch decides |
| SemVers.VersionTextReads | internal/version/semver.go:88-129 | what one, two or three numbers with an optional "v" and suffix mean, or that a number does not fit |
| SemVers.CoreIsDottedDigits | internal/version/resolver.go:6 | the version pattern accepts exactly the dotted lists of digit strings |
| SemVers.VersionTokenParses | internal/version/resolver.go:78-93 | a version token parses unless one of its numbers overflows an int |
| Text.SplitOfJoin | internal/version/semver.go:99 | separator-free parts survive joining and splitting |
| Text.ValueOfItoa | internal/version/semver.go:52 | decimal texts denote their number |
| Text.ValueIsPositional | internal/version/semver.go:104-113 | digits are read in base ten, the most significant first |
| Text.AtoiReadsSignedDigits | internal/version/semver.go:104-113 | signed digits are read exactly when they fit an int |
| Text.LessIsFirstDifference | internal/observer/observer.go:103-120 | a proper prefix comes first, else the first different character decides |
| Text.LessTransitive | internal/observer/observer.go:103-120 | string order is transitive |
| Images.ParseReference | internal/image/reference.go:45-102 | the parsed reference, which is canonical and whose text parses back to it |
| Images.ParsesBackIffCanonical | internal/image/reference.go:33-42 | among all references exactly the canonical ones are restored from their text |
| Images.AcceptedTextParsesBack | internal/image/reference.go:45-102 | for every accepted text, parsing the printed result gives the same reference |
| Images.BareNameReads | internal/image/reference.go:45-102 | a bare name is docker.io/library/name, and means the tag latest unless it has one |
| Images.SlashedNameReads | internal/image/reference.go:59-69 | what precedes the first slash is the registry iff it has a dot or colon or is localhost |
| Images.ImageNameIsInjective | cmd/image-watch/pipeline.go:24 | image names separate registry and repository |
| Images.PlatformStringIsInjective | internal/image/platform.go:14-19 | platform text separates platforms without slashes in OS and architecture |
| Images.SlashedPlatformsCollide | internal/image/platform.go:14-19 | with a slash it does not |
| Challenges.SplitChallengeParams | internal/registry/distribution/auth.go:57-81 | the loop computes `ParamsOf`, the one cut at every comma outside quotes (`ParamsAreCut`, `OnlyCut`, `ParamsJoinBack`) |
| Challenges.ParamsJoinBack | internal/registry/distribution/auth.go:57-81 | joined by commas the parameters restore the text, up to one trailing separator outside quotes, exactly then |
| Challenges.ParamsAreCut | internal/registry/distribution/auth.go:57-81 | no part has a comma outside quotes, and every cut lies outside quotes |
| Challenges.OnlyCut | internal/registry/distribution/auth.go:57-81 | parts with those properties are what splitting their joined text returns: there is no other such cut |
| Challenges.ParseBearerChallenge | internal/registry/distribution/auth.go:27-54 | the method computes `Parsed`, and so returns any printed challenge unchanged (`ChallengeParsesBackInAnyOrder`) |
| Challenges.PrintedHeaderParses | internal/registry/distribution/auth.go:27-54 | any well-formed quoted parameters, in any order and with repetitions, parse to what they spell out; refused iff no realm |
| Challenges.ChallengeParsesBackInAnyOrder | internal/registry/distribution/auth.go:27-54 | a challenge printed as its three parameters in any order parses to itself |
| Challenges.UsualHeaderParses | internal/registry/distribution/auth.go:27-54 | the usual header, with a space after each comma, reads as its three parts |
| Challenges.SchemeSpellingDecides | internal/registry/distribution/auth.go:28-31 | of all headers whose scheme is Bearer in some spelling exactly those with the canonical one are read; the others are refused whatever they challenge |
| Challenges.OtherSpellingsAreRefused | internal/registry/distribution/auth.go:28-31 | every acceptable challenge is refused under any other spelling |
| Challenges.LowerCaseSchemeIsRefused | internal/registry/distribution/auth.go:28-31 | one such header |
| Events.FingerprintIsIdentity | internal/event/fingerprint.go:10-19 | equal pre-images iff all six fields agree |
| Policies.MergeAll | internal/policy/policy.go:75-84 | for every event type the fold allows it iff some policy does |
| Policies.MergedAllowsIffSome | internal/policy/policy.go:61-72 | the same for the specification function |
| Policies.ApplyLabels | internal/policy/policy.go:90-120 | the same policy for every iteration order of the labels |
| Policies.LabelDecides | internal/policy/policy.go:90-120 | a present and valid label decides, else the base policy |
| Policies.LabelsArePermissiveIff | README.md:221-225 | the documented permissive reading holds iff no label says false to what the base allows |
| Policies.LabelMayForbid | internal/policy/policy.go:90-120 | a label that takes away what the default policy allows |
| Policies.LabelSwitchesItsEvents | internal/policy/policy.go:37-120 | each event type is decided by its own label with "true" or "false", by the base policy otherwise |
| Policies.DefaultAllows | internal/policy/policy.go:22-34 | the built-in policy allows all but family advancement and other platforms |
| Pipeline.BuildNotification | cmd/image-watch/pipeline.go:17-74 | the items of the allowed, unrecorded events of successful results, in order |
| Pipeline.ItemsTellDueEvents | cmd/image-watch/pipeline.go:17-90 | one item for each due event, in order, with that event's and result's particulars, naming in order exactly the members whose own policy allows it and listing the others as suppressed |
| Pipeline.NoteCarriesIffDue | cmd/image-watch/pipeline.go:17-74 | a notification carries a fingerprint iff it is detected, allowed and unrecorded |
| Pipeline.AllowContainers | cmd/image-watch/pipeline.go:77-90 | the members whose own policy allows the event, and the others |
| Pipeline.PickedIsSelection | cmd/image-watch/pipeline.go:77-90 | allowed and suppressed are an order-preserving split of the members |
| Pipeline.EffectivePolicyIffSomeContainer | cmd/image-watch/daemon.go:72-78 | the folded policy of the metrics allows an event iff some container is notified of it |
| Pipeline.GroupResultsAreAligned | internal/observer/observer.go:581-605 | every result of a non-empty group meets that lemma's requirement |
| Pipeline.Deliver | cmd/image-watch/pipeline.go:93-112 | every notifier is tried; delivered iff one succeeded, failing iff one failed |
| Pipeline.DeliverAndMark | cmd/image-watch/pipeline.go:127-157 | both modes record exactly the delivered calls' fingerprints and report an error iff some call had one |
| Pipeline.ModesDecideAcceptance | cmd/image-watch/pipeline.go:134-151 | in individual mode an item is accepted by its own call, in batch mode by the one call |
| Pipeline.DeliveredIffAcknowledged | cmd/image-watch/pipeline.go:127-157 | recorded in a cycle iff some notifier accepted a call carrying it |
| Pipeline.NotifyCycle | cmd/image-watch/daemon.go:103-119 | one cycle's notification stage moves the record accordingly |
| Pipeline.RecordedIffAcknowledged | cmd/image-watch/pipeline.go:115-157 | over any run, recorded iff acknowledged in some cycle |
| Pipeline.RecordedIsNeverRebuilt | cmd/image-watch/pipeline.go:37-48 | once recorded, no later cycle builds an item with it |
| Pipeline.DetectedIsRebuiltUntilRecorded | cmd/image-watch/pipeline.go:37-69 | until then every cycle that detects it builds it again |
| Pipeline.AcknowledgedInOneCycle | cmd/image-watch/pipeline.go:17-157 | a fingerprint is acknowledged in at most one cycle of any run |
| Pipeline.DriftEventsShareFingerprint | internal/observer/observer.go:462-478 | all drift events of one check share one fingerprint |
| Pipeline.CandidateFingerprintIsItsKind | internal/event/fingerprint.go:10-19 | candidate events of one stream share a fingerprint iff they are of the same kind, whatever the candidate |
| Pipeline.UpdateIsNotifiedIff | cmd/image-watch/pipeline.go:37-69 | over any run, an allowed update has its item iff no earlier cycle delivered an update of the same stream and kind |
| Histories.DetectedIffTells | internal/event/fingerprint.go:10-19 | of all events of all groups of a cycle only a key's own digest events have its digest fingerprint |
| Histories.InputsAreProper | internal/observer/observer.go:219-319 | the events of whole cycles are separable and carry a digest only when they are about one |
| Histories.DigestIsToldIff | cmd/image-watch/daemon.go:47-119 | over any run of daemon cycles, a notification tells a key's digest iff its check finds it moved or drifted from, some container wants to know, and no earlier notification that told it was accepted |
| Histories.FiredTransitionIsToldIff | internal/observer/observer.go:345-391 | a transition of the baseline is in its cycle's notification iff no earlier notification that told its digest was accepted |
| Histories.UndeliveredTransitionIsRetriedIff | internal/observer/observer.go:287-294 | while the new digest is served, a later cycle tells it iff some container then drifts from it and it was never told successfully |
| Histories.TransitionMayBeLost | cmd/image-watch/pipeline.go:115-157 | refused once and never drifted from, a transition is told by no later cycle, whatever the notifiers then do |
| Histories.MovedAgainIsToldIff | internal/event/fingerprint.go:10-19 | of a tag moved from one digest to another, back and again, the last move is told iff the first was not delivered |
| Histories.UpdateIsToldIff | cmd/image-watch/pipeline.go:37-69 | the update theorem for the reports of whole daemon cycles |
| Histories.NewerReleaseIsToldIff | cmd/image-watch/pipeline.go:37-48 | a second patch release, found and reported, has an item iff no notifier accepted the first's |
| Outages.RegistryOutageTracker.DetectOutages | cmd/image-watch/pipeline.go:187-216 | for every iteration order each host moves by one observation, and the alerts are exactly those raised, one per host |
| Outages.HealthIs | cmd/image-watch/pipeline.go:173-195 | a host has failed iff it has images and all of them failed; one success makes it succeed |
| Outages.HostIsAlertedIff | cmd/image-watch/pipeline.go:187-216 | over any run of results: alerted exactly at the threshold-th (three by default) cycle in a row in which all images of the host fail; the alert quotes that number and the images affected |
| Outages.TrackerCountsStreak | cmd/image-watch/pipeline.go:199-213 | the counter is the streak of failures ignoring absences; notified iff it reached the threshold |
| Outages.AlertIffStreakReachesThreshold | cmd/image-watch/pipeline.go:200-209 | an alert exactly at the failure that brings the streak to the threshold |
| Outages.OneAlertPerEpisode | cmd/image-watch/pipeline.go:199-213 | exactly one alert per episode whose failures reach the threshold, none in any other |
| Outages.ReportOutages | cmd/image-watch/daemon.go:121-129 | the tracker's new state and the alerts do not depend on how the notifiers answer |
| Outages.AlertIsRaisedAgainIff | cmd/image-watch/pipeline.go:199-213 | after an alert the host is alerted again iff it succeeded since and its failures after the latest success reach the threshold |
| Outages.OutageIsHeardIff | cmd/image-watch/daemon.go:121-129 | an outage is heard of, and then once, iff some notifier accepts in the cycle in which its failures reach the threshold |
| Outages.AlertMayBeLost | cmd/image-watch/daemon.go:121-129 | outages of any length whose one alert is refused, though every other cycle would accept |
| Outages.AlertQuotesThreshold | cmd/image-watch/pipeline.go:203-208 | the number of failures an alert quotes is the threshold |
| Daemon.DriftEventsCountDriftedDigests | internal/observer/observer.go:290-294 | without a transition the digest events number the distinct drifted digests |
| Daemon.DaemonDriftIffDigestsDrifted | cmd/image-watch/daemon.go:165-189 | the daemon reports drift iff that number is not zero |
| Daemon.ComputeDigestDrift | cmd/image-watch/daemon.go:165-201 | the drifted containers in order with their shortened digests, nothing iff there is none |
| Daemon.TwelveDigitsAreShown | cmd/image-watch/daemon.go:191-201 | twelve digits of a longer SHA-256 digest are shown, twelve characters of anything else |
| Daemon.DigestIsAnnouncedIff | internal/observer/observer.go:287-294 | a check announces the digest it serves, under the fingerprint of every transition to it, iff it is one itself or some running digest has drifted |
| Daemon.Gauges.PublishResults | cmd/image-watch/daemon.go:61-87 | after the loop the gauges are those of publishing the results one after another: `PublishedAll`, whose final values `SeriesShowOwnResult` gives |
| Daemon.SeriesShowOwnResult | internal/metrics/metrics.go:187-212 | with distinct series every series shows its own result; failed and partial checks retain the last values |
| Reports.AvailabilityShowsAllowedEvents | cmd/image-watch/daemon.go:71-80 | the availability gauge is up iff the result has an event of the type and some member's own policy allows it |
| Daemon.StreamIsMarkedStaleIff | internal/metrics/metrics.go:94-97 | a stream is marked stale iff its check failed, or its tag has a version and the repository cannot be listed or some winner not resolved |
| Daemon.SuccessMayBeMarkedStale | internal/metrics/metrics.go:94-97 | a successful check of a version tag whose repository cannot be listed is marked stale |
| Daemon.DistinctKeysHaveDistinctSeries | cmd/image-watch/daemon.go:71-81 | groups with different keys never write the same series |
| Daemon.CycleHasDistinctSeries | cmd/image-watch/daemon.go:61-87 | the results of a whole cycle over parsed references have distinct series |

## Left out

- HTTP, pagination, token exchange and the container runtime: network I/O, replaced by the registry oracle and a container list.
- The SQLite store and its pruning: the in-memory store's semantics stand for the store; store errors do not occur in the model.
- Notification backends, templates, host names and the rest of the configuration: an item and a success or failure per call remain.
- SHA-256: the fingerprint is the text that is hashed, so equal fingerprints mean equal pre-images.
- Wall-clock time: one clock reading per check, given as a parameter; the order of readings inside a check is not modelled.
- The semaphores that bound concurrent fetches and drift scans inside one group: any number may be in flight, in any order.
- Requests inside one window are made in any order, but one window's fetch is one step of its scan in `Scans`.
- Store accesses of different groups interleave in `Cycle`; registry requests of different groups do not affect each other's answers.
- Checks.InferDrift: runs whole scans one after the other in any order; the other schedules are the state machine of `Scans`.
- Cycle.Check: runs the schedule that finishes one group at a time; the other schedules are the state machine of the same module.
- Error texts are modelled where they are stored (`LastError`); version, reference and delivery errors are told apart by kind only.
- `Resolve` without a platform, media types and platform lists of a manifest: not read by the modelled code.
- Displays (`printResult`, `CategoryLabel`) and counters of checks, containers and images: one-branch facts.
