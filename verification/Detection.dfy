/** internal/observer/observer.go:219-615: everything determined for one image stream in one cycle. */
module Detection {
  import opened Prelude
  import opened Images
  import opened Tags
  import opened Candidates
  import opened Events
  import opened Policies
  import opened States
  import opened Registries
  import opened Groups

  datatype CheckError = UnresolvedRegistry(host: string) | ResolveFailed(message: string) {
    function Text(): string
    {
      match this
      case UnresolvedRegistry(host) => "observer: no registry client configured for host " + host
      case ResolveFailed(message) => message
    }
  }

  datatype CheckResult = CheckResult(
    image: Reference,
    platform: Platform,
    effectivePolicy: Policy,
    events: seq<Event>,
    containerNames: seq<string>,
    containerPolicies: seq<Policy>,
    servedDigest: string,
    containerDigests: seq<string>,
    stale: bool,
    err: Option<CheckError>,
    partial: bool)

  // --------------------------------------------------------------- projections

  function Names(members: seq<Container>): (ns: seq<string>)
    ensures |ns| == |members|
    ensures forall i | 0 <= i < |members| :: ns[i] == members[i].name
  {
    seq(|members|, i requires 0 <= i < |members| => members[i].name)
  }

  function Digests(members: seq<Container>): (ds: seq<string>)
    ensures |ds| == |members|
    ensures forall i | 0 <= i < |members| :: ds[i] == members[i].digest
  {
    seq(|members|, i requires 0 <= i < |members| => members[i].digest)
  }

  function PoliciesOf(base: Policy, members: seq<Container>): (ps: seq<Policy>)
    ensures |ps| == |members|
    ensures forall i | 0 <= i < |members| :: ps[i] == Overlaid(base, members[i].labels)
  {
    seq(|members|, i requires 0 <= i < |members| => Overlaid(base, members[i].labels))
  }

  method ContainerPolicies(base: Policy, members: seq<Container>) returns (ps: seq<Policy>)
    ensures ps == PoliciesOf(base, members)
  {
    hide Overlaid;
    ps := [];
    for i := 0 to |members|
      invariant ps == PoliciesOf(base, members)[..i]
    {
      var p := ApplyLabels(base, members[i].labels);
      ps := ps + [p];
    }
  }

  function ImageOf(key: Key): Reference
  {
    Reference(key.registry, key.repository, Some(key.tag), None)
  }

  /** The result before any registry call. */
  function InitialResult(base: Policy, key: Key, members: seq<Container>): CheckResult
  {
    CheckResult(ImageOf(key), key.platform, Merged(PoliciesOf(base, members)), [], Names(members),
      PoliciesOf(base, members), "", Digests(members), false, None, false)
  }

  // ---------------------------------------------------------------- digest events

  function DigestEventType(tv: TagVersion): EventType
  {
    if tv.IsOpaque() then TagChanged else TagMutated
  }

  predicate IsDigestEvent(e: Event)
  {
    e.kind == TagChanged || e.kind == TagMutated
  }

  /** A transition: the digest served now and the stored baseline are both known, and differ. */
  predicate Transition(previous: Option<Observation>, digest: string)
  {
    && previous.Some? && previous.value.platformManifestDigest != "" && digest != ""
    && previous.value.platformManifestDigest != digest
  }

  function DigestEvent(key: Key, tv: TagVersion, current: string, candidate: string, hint: Option<string>, now: int): Event
  {
    Event(now, ImageOf(key), DigestEventType(tv), key.tag, current,
      if tv.IsOpaque() && hint.Some? then hint.value else "", candidate, key.platform, "")
  }

  function Hint(hints: seq<Option<string>>, i: nat): Option<string>
  {
    if i < |hints| then hints[i] else None
  }

  function TransitionEvents(key: Key, tv: TagVersion, previous: Option<Observation>, digest: string,
                            hints: seq<Option<string>>, now: int): seq<Event>
  {
    if Transition(previous, digest)
    then [DigestEvent(key, tv, previous.value.platformManifestDigest, digest, Hint(hints, 0), now)]
    else []
  }

  /** The distinct known running digests other than the served one, in order of first appearance. */
  function Distinct(running: seq<string>, served: string): seq<string>
  {
    if running == [] then []
    else
      var front, dig := Distinct(running[..|running| - 1], served), running[|running| - 1];
      if dig == "" || dig == served || dig in front then front else front + [dig]
  }

  function Drifted(running: seq<string>, served: string): set<string>
  {
    set dig | dig in running && dig != "" && dig != served
  }

  /** One drift event per drifted digest; all of them carry the platform digest, not the drifted one. */
  function DriftEvents(key: Key, tv: TagVersion, served: string, digest: string, running: seq<string>,
                       hints: seq<Option<string>>, now: int): (events: seq<Event>)
    ensures |events| == if served == "" then 0 else |Distinct(running, served)|
  {
    if served == "" then []
    else seq(|Distinct(running, served)|, i requires 0 <= i => DigestEvent(key, tv, digest, digest, Hint(hints, i), now))
  }

  method CollectDistinct(running: seq<string>, served: string) returns (distinct: seq<string>)
    ensures distinct == Distinct(running, served)
  {
    distinct := [];
    var seen: set<string> := {};
    for i := 0 to |running|
      invariant distinct == Distinct(running[..i], served)
      invariant forall d :: d in seen <==> d in distinct
    {
      var dig := running[i];
      assert running[..i + 1][..i] == running[..i];
      if dig == "" || dig == served || dig in seen {
        continue;
      }
      seen := seen + {dig};
      distinct := distinct + [dig];
    }
    assert running[..|running|] == running;
  }

  /** The drift list is the set of drifted digests, each once. */
  lemma {:induction false} DistinctIsDrifted(running: seq<string>, served: string)
    ensures forall d :: d in Distinct(running, served) <==> d in Drifted(running, served)
    ensures |Distinct(running, served)| == |Drifted(running, served)|
  {
    if running == [] {
      assert Drifted(running, served) == {};
    } else {
      var front, dig := running[..|running| - 1], running[|running| - 1];
      DistinctIsDrifted(front, served);
      if dig == "" || dig == served || dig in Distinct(front, served) {
        assert Drifted(running, served) == Drifted(front, served);
      } else {
        assert Drifted(running, served) == Drifted(front, served) + {dig};
      }
    }
  }

  // ------------------------------------------------------------ candidate events

  datatype Entry = Entry(kind: EventType, candidate: Candidate)

  function Slotted(kind: EventType, c: Option<Candidate>): (entries: seq<Entry>)
    ensures forall e | e in entries :: e.kind == kind
  {
    if c.Some? then [Entry(kind, c.value)] else []
  }

  /** The winners in canonical order. */
  function Entries(cs: CandidateSet): seq<Entry>
  {
    Slotted(PatchAvailable, cs.patch) + Slotted(MinorAvailable, cs.minor) + Slotted(MajorAvailable, cs.major)
    + Slotted(FamilyAdvancementAvailable, cs.familyAdvancement)
    + Slotted(ApplicationPatchAvailable, cs.applicationPatch) + Slotted(ApplicationMinorAvailable, cs.applicationMinor)
    + Slotted(ApplicationMajorAvailable, cs.applicationMajor) + Slotted(BaseAdvancementAvailable, cs.baseAdvancement)
  }

  /** The kinds winners are reported under, unless the running platform lacks them. */
  predicate IsCandidateKind(t: EventType)
  {
    t != TagChanged && t != TagMutated && t != OtherPlatformUpdate && t != RegistryOutage
  }

  predicate AreCandidates(entries: seq<Entry>)
  {
    forall e | e in entries :: IsCandidateKind(e.kind)
  }

  lemma EntriesAreCandidates(cs: CandidateSet)
    ensures AreCandidates(Entries(cs))
  {
    hide Slotted;
  }

  predicate OnComposite(t: EventType)
  {
    t == ApplicationPatchAvailable || t == ApplicationMinorAvailable || t == ApplicationMajorAvailable || t == BaseAdvancementAvailable
  }

  /** The event of one winner, from its own resolution alone; none when that failed. */
  function CandidateEvent(key: Key, cs: CandidateSet, e: Entry, answer: Result<Manifest, string>, now: int): Option<Event>
  {
    match answer
    case Failure(_) => None
    case Success(m) =>
      var kind := if m.platformManifestDigest == "" then OtherPlatformUpdate else e.kind;
      var combined := if cs.combined.Some? && OnComposite(e.kind) then cs.combined.value.tag else "";
      Some(Event(now, ImageOf(key), kind, key.tag, "", e.candidate.tag, "", key.platform, combined))
  }

  /** Resolving each winner on its own: the events of those that resolve, in order, and whether one did not. */
  function CandidateEvents(view: RegistryView, key: Key, cs: CandidateSet, entries: seq<Entry>, now: int): (seq<Event>, bool)
  {
    if entries == [] then ([], false)
    else
      var (front, partial), e := CandidateEvents(view, key, cs, entries[..|entries| - 1], now), entries[|entries| - 1];
      match CandidateEvent(key, cs, e, view.resolve(key.repository, e.candidate.tag, key.platform), now)
      case None => (front, true)
      case Some(event) => (front + [event], partial)
  }

  /** Candidate detection: nothing for tags without an application version, otherwise from the tag list. */
  ghost function CandidateOutcome(view: RegistryView, key: Key, now: int): (seq<Event>, bool)
  {
    if ParsedTag(key.tag).Application().None? then ([], false)
    else
      match view.list(key.repository)
      case Failure(_) => ([], true)
      case Success(tags) =>
        var cs := Analysis(key.tag, tags);
        CandidateEvents(view, key, cs, Entries(cs), now)
  }

  function WinningTags(entries: seq<Entry>): set<string>
  {
    set i | 0 <= i < |entries| :: entries[i].candidate.tag
  }

  /** The list and the index are inverse to each other, so the list has no duplicates. */
  ghost predicate Inverse(distinct: seq<string>, index: map<string, nat>)
  {
    && (forall i | 0 <= i < |distinct| :: distinct[i] in index && index[distinct[i]] == i)
    && (forall tag | tag in index :: index[tag] < |distinct| && distinct[index[tag]] == tag)
  }

  /** The winning tags without repetition, and their positions. */
  method IndexWinners(entries: seq<Entry>) returns (distinct: seq<string>, index: map<string, nat>)
    ensures Inverse(distinct, index)
    ensures index.Keys == WinningTags(entries)
    ensures |distinct| == |WinningTags(entries)|
  {
    hide WinningTags;
    distinct, index := [], map[];
    NoWinningTags();
    for n := 0 to |entries|
      invariant Inverse(distinct, index)
      invariant index.Keys == WinningTags(entries[..n])
      invariant |distinct| == |index.Keys|
    {
      var tag := entries[n].candidate.tag;
      assert entries[..n + 1] == entries[..n] + [entries[n]];
      WinningTagsAppend(entries[..n], entries[n]);
      if tag !in index {
        index := index[tag := |distinct|];
        distinct := distinct + [tag];
      }
    }
    assert entries[..|entries|] == entries;
  }

  lemma NoWinningTags()
    ensures WinningTags([]) == {}
  {
  }

  lemma WinningTagsAppend(entries: seq<Entry>, e: Entry)
    ensures WinningTags(entries + [e]) == WinningTags(entries) + {e.candidate.tag}
  {
    var all := entries + [e];
    assert all[|entries|] == e;
    assert forall i | 0 <= i < |entries| :: all[i] == entries[i];
  }
}
