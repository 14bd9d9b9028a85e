/** internal/version/candidates.go: the one-pass choice of update candidates for a running tag. */
module Candidates {
  import opened Prelude
  import opened SemVers
  import opened Tags

  datatype Candidate = Candidate(tag: string, version: SemVer)

  datatype CandidateSet = CandidateSet(
    currentRaw: string,
    current: TagVersion,
    patch: Option<Candidate>,
    minor: Option<Candidate>,
    major: Option<Candidate>,
    familyAdvancement: Option<Candidate>,
    applicationPatch: Option<Candidate>,
    applicationMinor: Option<Candidate>,
    applicationMajor: Option<Candidate>,
    baseAdvancement: Option<Candidate>,
    combined: Option<Candidate>)

  // -------------------------------------------------- what each slot may hold

  datatype Slot = PatchSlot | MinorSlot | MajorSlot | FamilySlot

  /** Which advances over the running version belong in a slot. The slots exclude each other. */
  predicate Accepts(slot: Slot, cur: SemVer, cand: SemVer)
  {
    match slot
    case MajorSlot => cand.major > cur.major
    case MinorSlot => cur.precision == Precision.Patch && cand.major == cur.major && cand.minor > cur.minor
    case PatchSlot =>
      && cand.major == cur.major
      && (|| (cur.precision == Precision.Patch && cand.minor == cur.minor && cand.patch > cur.patch)
          || (cur.precision == Precision.Minor && cand.Newer(cur)))
    case FamilySlot => cur.precision == Precision.Major && cand.major == cur.major && cand.Newer(cur)
  }

  datatype Axis = InSlot(slot: Slot) | AnyNewerApplication | NewerBase

  /** The available tags as read during the pass; the running tag itself is skipped. */
  function Readings(currentRaw: string, tags: seq<string>): (rs: seq<Option<TagVersion>>)
    ensures |rs| == |tags|
    ensures forall i | 0 <= i < |tags| :: rs[i] == if tags[i] == currentRaw then None else Some(ParsedTag(tags[i]))
  {
    seq(|tags|, i requires 0 <= i < |tags| => if tags[i] == currentRaw then None else Some(ParsedTag(tags[i])))
  }

  predicate SameShape(current: TagVersion, other: TagVersion)
  {
    current.Application().Some? && other.Application().Some? && other.IsComposite() == current.IsComposite()
  }

  predicate SameVersionedFamily(current: TagVersion, other: TagVersion)
  {
    && current.Base().Some? && current.Base().value.version.precision != Precision.Unknown
    && other.Base().Some? && other.Base().value.name == current.Base().value.name
  }

  /** The version a tag puts forward on an axis, if it is eligible there. */
  function Offer(axis: Axis, current: TagVersion, reading: Option<TagVersion>): Option<SemVer>
  {
    if reading.None? then None
    else
      var other := reading.value;
      match axis
      case InSlot(slot) =>
        if SameShape(current, other) && Accepts(slot, current.Application().value.version, other.Application().value.version)
        then Some(other.Application().value.version) else None
      case AnyNewerApplication =>
        if SameShape(current, other) && other.Application().value.version.Newer(current.Application().value.version)
        then Some(other.Application().value.version) else None
      case NewerBase =>
        if SameVersionedFamily(current, other) && other.Base().value.version.Newer(current.Base().value.version)
        then Some(other.Base().value.version) else None
  }

  function Offers(axis: Axis, current: TagVersion, readings: seq<Option<TagVersion>>): (os: seq<Option<SemVer>>)
    ensures |os| == |readings|
    ensures forall i | 0 <= i < |readings| :: os[i] == Offer(axis, current, readings[i])
  {
    seq(|readings|, i requires 0 <= i < |readings| => Offer(axis, current, readings[i]))
  }

  // -------------------------------------------------- the declarative answer

  ghost predicate IsFirstGreatest(tags: seq<string>, offers: seq<Option<SemVer>>, k: nat, c: Candidate)
    requires |tags| == |offers|
  {
    && k < |tags| && tags[k] == c.tag && offers[k] == Some(c.version)
    && (forall j | 0 <= j < |offers| && offers[j].Some? :: offers[j].value.Compare(c.version) <= 0)
    && (forall j | 0 <= j < k && offers[j].Some? :: offers[j].value.Compare(c.version) < 0)
  }

  /** The first tag, in list order, with the greatest version offered; nothing iff nothing is offered. */
  ghost predicate Selects(tags: seq<string>, offers: seq<Option<SemVer>>, c: Option<Candidate>)
    requires |tags| == |offers|
  {
    && (c.None? ==> forall j | 0 <= j < |offers| :: offers[j].None?)
    && (c.Some? ==> exists k: nat :: IsFirstGreatest(tags, offers, k, c.value))
  }

  lemma SelectsUnique(tags: seq<string>, offers: seq<Option<SemVer>>, c: Option<Candidate>, d: Option<Candidate>)
    requires |tags| == |offers| && Selects(tags, offers, c) && Selects(tags, offers, d)
    ensures c == d
  {
  }

  /** Go's update through a slot pointer: a strictly greater version takes the slot. */
  function Update(slot: Option<Candidate>, raw: string, offer: Option<SemVer>): (r: Option<Candidate>)
  {
    if offer.Some? && (slot.None? || offer.value.Newer(slot.value.version)) then Some(Candidate(raw, offer.value))
    else slot
  }

  lemma SelectStep(tags: seq<string>, offers: seq<Option<SemVer>>, raw: string, offer: Option<SemVer>, c: Option<Candidate>)
    requires |tags| == |offers| && Selects(tags, offers, c)
    ensures Selects(tags + [raw], offers + [offer], Update(c, raw, offer))
  {
    var tags', offers', c' := tags + [raw], offers + [offer], Update(c, raw, offer);
    if c.Some? {
      var k: nat :| IsFirstGreatest(tags, offers, k, c.value);
      if c' == c {
        assert IsFirstGreatest(tags', offers', k, c.value);
      }
    }
    if c' != c {
      assert IsFirstGreatest(tags', offers', |tags|, c'.value);
    }
  }

  // ------------------------------------------------------ the pass itself

  /** The four local slots the classification writes through pointers. */
  class ApplicationSlots {
    var patch: Option<Candidate>
    var minor: Option<Candidate>
    var major: Option<Candidate>
    var family: Option<Candidate>

    constructor ()
      ensures patch == None && minor == None && major == None && family == None
    {
      patch, minor, major, family := None, None, None, None;
    }

    method Classify(raw: string, cand: SemVer, cur: SemVer)
      modifies this
      ensures patch == Update(old(patch), raw, if Accepts(PatchSlot, cur, cand) then Some(cand) else None)
      ensures minor == Update(old(minor), raw, if Accepts(MinorSlot, cur, cand) then Some(cand) else None)
      ensures major == Update(old(major), raw, if Accepts(MajorSlot, cur, cand) then Some(cand) else None)
      ensures family == Update(old(family), raw, if Accepts(FamilySlot, cur, cand) then Some(cand) else None)
    {
      if cand.major > cur.major {
        major := Update(major, raw, Some(cand));
        return;
      }
      if cand.major != cur.major {
        return;
      }
      match cur.precision {
        case Patch =>
          if cand.minor > cur.minor {
            minor := Update(minor, raw, Some(cand));
            return;
          }
          if cand.minor == cur.minor && cand.patch > cur.patch {
            patch := Update(patch, raw, Some(cand));
          }
        case Minor =>
          if cand.Compare(cur) > 0 {
            patch := Update(patch, raw, Some(cand));
          }
        case Major =>
          if cand.Compare(cur) > 0 {
            family := Update(family, raw, Some(cand));
          }
        case Unknown =>
      }
    }
  }

  function Precedence(cs: CandidateSet): seq<Option<Candidate>>
  {
    [cs.major, cs.applicationMajor, cs.minor, cs.applicationMinor, cs.familyAdvancement, cs.patch, cs.applicationPatch]
  }

  function FirstPresent(slots: seq<Option<Candidate>>): Option<Candidate>
  {
    if slots == [] then None else if slots[0].Some? then slots[0] else FirstPresent(slots[1..])
  }

  method BestApplicationOverall(cs: CandidateSet) returns (r: Option<Candidate>)
    ensures r == FirstPresent(Precedence(cs))
  {
    var slots := Precedence(cs);
    for i := 0 to |slots|
      invariant FirstPresent(slots) == FirstPresent(slots[i..])
    {
      if slots[i].Some? {
        return slots[i];
      }
    }
    return None;
  }

  /** A tag carries both winners when its versions compare equal to theirs; its base name is not looked at. */
  predicate Carries(reading: Option<TagVersion>, app: SemVer, base: SemVer)
  {
    && reading.Some?
    && reading.value.Application().Some? && reading.value.Application().value.version.Compare(app) == 0
    && reading.value.Base().Some? && reading.value.Base().value.version.Compare(base) == 0
  }

  /** The first tag carrying both winners, which must exist, on a composite running tag. */
  ghost predicate IsCombination(
    tags: seq<string>, readings: seq<Option<TagVersion>>, isComposite: bool,
    app: Option<Candidate>, base: Option<Candidate>, combined: Option<Candidate>)
    requires |tags| == |readings|
  {
    var possible := isComposite && app.Some? && base.Some?;
    && (combined.None? ==> possible ==>
          forall j | 0 <= j < |readings| :: !Carries(readings[j], app.value.version, base.value.version))
    && (combined.Some? ==> possible && exists k: nat ::
          IsFirstCarrier(tags, readings, app.value.version, base.value.version, k, combined.value))
  }

  ghost predicate IsFirstCarrier(
    tags: seq<string>, readings: seq<Option<TagVersion>>, app: SemVer, base: SemVer, k: nat, c: Candidate)
    requires |tags| == |readings|
  {
    && k < |tags| && tags[k] == c.tag
    && Carries(readings[k], app, base) && readings[k].value.Application().value.version == c.version
    && forall j | 0 <= j < k :: !Carries(readings[j], app, base)
  }

  method FindCombinedCandidate(
    availableRaw: seq<string>, currentRaw: string, isComposite: bool,
    bestApp: Option<Candidate>, bestBase: Option<Candidate>) returns (r: Option<Candidate>)
    ensures IsCombination(availableRaw, Readings(currentRaw, availableRaw), isComposite, bestApp, bestBase, r)
  {
    hide ParsedTag;
    if !isComposite || bestApp.None? || bestBase.None? {
      return None;
    }
    ghost var readings := Readings(currentRaw, availableRaw);
    for i := 0 to |availableRaw|
      invariant forall j | 0 <= j < i :: !Carries(readings[j], bestApp.value.version, bestBase.value.version)
    {
      var raw := availableRaw[i];
      if raw == currentRaw {
        continue;
      }
      var cand := ParseTag(raw);
      var app := FindUsable(cand.components, Role.Application);
      if app.None? || app.value.version.Compare(bestApp.value.version) != 0 {
        continue;
      }
      var base := FindUsable(cand.components, Role.Base);
      if base.None? || base.value.version.Compare(bestBase.value.version) != 0 {
        continue;
      }
      r := Some(Candidate(raw, app.value.version));
      assert IsFirstCarrier(availableRaw, readings, bestApp.value.version, bestBase.value.version, i, r.value);
      return;
    }
    return None;
  }

  /** Everything AnalyzeCandidates promises, with no reference to the pass that computes it. */
  ghost predicate IsAnalysis(currentRaw: string, tags: seq<string>, cs: CandidateSet)
  {
    var current := ParsedTag(currentRaw);
    cs.currentRaw == currentRaw && cs.current == current &&
    IsAnalysisOf(current, tags, Readings(currentRaw, tags), cs)
  }

  ghost predicate IsAnalysisOf(
    current: TagVersion, tags: seq<string>, readings: seq<Option<TagVersion>>, cs: CandidateSet)
    requires |tags| == |readings|
  {
    var composite := current.IsComposite();
    if current.Application().None? then
      && cs.baseAdvancement.None? && cs.combined.None?
      && cs.patch.None? && cs.minor.None? && cs.major.None? && cs.familyAdvancement.None?
      && cs.applicationPatch.None? && cs.applicationMinor.None? && cs.applicationMajor.None?
    else
      && (if composite then
            && cs.patch.None? && cs.minor.None? && cs.major.None? && cs.familyAdvancement.None?
            && Selects(tags, Offers(InSlot(PatchSlot), current, readings), cs.applicationPatch)
            && Selects(tags, Offers(InSlot(MinorSlot), current, readings), cs.applicationMinor)
            && Selects(tags, Offers(InSlot(MajorSlot), current, readings), cs.applicationMajor)
          else
            && cs.applicationPatch.None? && cs.applicationMinor.None? && cs.applicationMajor.None?
            && Selects(tags, Offers(InSlot(PatchSlot), current, readings), cs.patch)
            && Selects(tags, Offers(InSlot(MinorSlot), current, readings), cs.minor)
            && Selects(tags, Offers(InSlot(MajorSlot), current, readings), cs.major)
            && Selects(tags, Offers(InSlot(FamilySlot), current, readings), cs.familyAdvancement))
      && Selects(tags, Offers(NewerBase, current, readings), cs.baseAdvancement)
      && IsCombination(tags, readings, composite, FirstPresent(Precedence(cs)), cs.baseAdvancement, cs.combined)
  }

  function EmptySet(currentRaw: string, current: TagVersion): CandidateSet
  {
    CandidateSet(currentRaw, current, None, None, None, None, None, None, None, None, None)
  }

  method AssignApplicationCandidates(cs: CandidateSet, isComposite: bool, best: ApplicationSlots)
    returns (r: CandidateSet)
    ensures r == if isComposite
      then cs.(applicationPatch := best.patch, applicationMinor := best.minor, applicationMajor := best.major)
      else cs.(patch := best.patch, minor := best.minor, major := best.major, familyAdvancement := best.family)
  {
    if isComposite {
      return cs.(applicationPatch := best.patch, applicationMinor := best.minor, applicationMajor := best.major);
    }
    return cs.(patch := best.patch, minor := best.minor, major := best.major, familyAdvancement := best.family);
  }

  datatype Winners = Winners(
    patch: Option<Candidate>, minor: Option<Candidate>, major: Option<Candidate>, family: Option<Candidate>,
    base: Option<Candidate>)

  /** The selection, restricted to the tags already passed, on every axis at once. */
  ghost predicate SelectedSoFar(current: TagVersion, tags: seq<string>, readings: seq<Option<TagVersion>>, w: Winners)
    requires |tags| == |readings|
  {
    && Selects(tags, Offers(InSlot(PatchSlot), current, readings), w.patch)
    && Selects(tags, Offers(InSlot(MinorSlot), current, readings), w.minor)
    && Selects(tags, Offers(InSlot(MajorSlot), current, readings), w.major)
    && Selects(tags, Offers(InSlot(FamilySlot), current, readings), w.family)
    && Selects(tags, Offers(NewerBase, current, readings), w.base)
  }

  function Considered(current: TagVersion, raw: string, reading: Option<TagVersion>, w: Winners): Winners
  {
    Winners(
      Update(w.patch, raw, Offer(InSlot(PatchSlot), current, reading)),
      Update(w.minor, raw, Offer(InSlot(MinorSlot), current, reading)),
      Update(w.major, raw, Offer(InSlot(MajorSlot), current, reading)),
      Update(w.family, raw, Offer(InSlot(FamilySlot), current, reading)),
      Update(w.base, raw, Offer(NewerBase, current, reading)))
  }

  lemma SelectedStep(current: TagVersion, tags: seq<string>, readings: seq<Option<TagVersion>>,
                     raw: string, reading: Option<TagVersion>, w: Winners)
    requires |tags| == |readings| && SelectedSoFar(current, tags, readings, w)
    ensures SelectedSoFar(current, tags + [raw], readings + [reading], Considered(current, raw, reading, w))
  {
    hide Selects, Offer, Update;
    OffersStep(InSlot(PatchSlot), current, tags, readings, raw, reading, w.patch);
    OffersStep(InSlot(MinorSlot), current, tags, readings, raw, reading, w.minor);
    OffersStep(InSlot(MajorSlot), current, tags, readings, raw, reading, w.major);
    OffersStep(InSlot(FamilySlot), current, tags, readings, raw, reading, w.family);
    OffersStep(NewerBase, current, tags, readings, raw, reading, w.base);
  }

  lemma OffersStep(axis: Axis, current: TagVersion, tags: seq<string>, readings: seq<Option<TagVersion>>,
                   raw: string, reading: Option<TagVersion>, c: Option<Candidate>)
    requires |tags| == |readings| && Selects(tags, Offers(axis, current, readings), c)
    ensures Selects(tags + [raw], Offers(axis, current, readings + [reading]),
                    Update(c, raw, Offer(axis, current, reading)))
  {
    SelectStep(tags, Offers(axis, current, readings), raw, Offer(axis, current, reading), c);
    assert Offers(axis, current, readings + [reading]) == Offers(axis, current, readings) + [Offer(axis, current, reading)];
  }

  /** The effect of one iteration on the five slots is one Update each. */
  method Consider(current: TagVersion, isComposite: bool, raw: string, cand: TagVersion,
                  best: ApplicationSlots, bestBase: Option<Candidate>) returns (bestBase': Option<Candidate>)
    requires current.Application().Some? && isComposite == current.IsComposite()
    modifies best
    ensures Winners(best.patch, best.minor, best.major, best.family, bestBase') ==
      Considered(current, raw, Some(cand), old(Winners(best.patch, best.minor, best.major, best.family, bestBase)))
  {
    hide ParsedTag;
    var app := FindUsable(cand.components, Role.Application);
    var candComposite := CheckComposite(cand);
    if app.Some? && candComposite == isComposite {
      best.Classify(raw, app.value.version, current.Application().value.version);
    }
    bestBase' := bestBase;
    var currentBase := current.Base();
    if currentBase.Some? && currentBase.value.version.precision != Precision.Unknown {
      var base := FindUsable(cand.components, Role.Base);
      if base.Some? && base.value.name == currentBase.value.name {
        if base.value.version.Compare(currentBase.value.version) > 0 {
          if bestBase.None? || base.value.version.Compare(bestBase.value.version) > 0 {
            bestBase' := Some(Candidate(raw, base.value.version));
          }
        }
      }
    }
  }

  method AnalyzeCandidates(currentRaw: string, availableRaw: seq<string>) returns (cs: CandidateSet)
    ensures IsAnalysis(currentRaw, availableRaw, cs)
  {
    hide ParsedTag, SelectedSoFar, Selects, Considered;
    var current := ParseTag(currentRaw);
    cs := EmptySet(currentRaw, current);
    var currentApp := FindUsable(current.components, Role.Application);
    if currentApp.None? {
      return;
    }
    var isComposite := CheckComposite(current);
    var best := new ApplicationSlots();
    var bestBase: Option<Candidate> := None;
    ghost var readings := Readings(currentRaw, availableRaw);
    NothingSelected(current);
    for i := 0 to |availableRaw|
      invariant fresh(best)
      invariant SelectedSoFar(current, availableRaw[..i], readings[..i],
                  Winners(best.patch, best.minor, best.major, best.family, bestBase))
    {
      var raw := availableRaw[i];
      ghost var w := Winners(best.patch, best.minor, best.major, best.family, bestBase);
      assert availableRaw[..i + 1] == availableRaw[..i] + [raw] && readings[..i + 1] == readings[..i] + [readings[i]];
      SelectedStep(current, availableRaw[..i], readings[..i], raw, readings[i], w);
      if raw == currentRaw {
        RunningTagChangesNothing(current, raw, w);
        continue;
      }
      var cand := ParseTag(raw);
      bestBase := Consider(current, isComposite, raw, cand, best, bestBase);
    }
    assert availableRaw[..|availableRaw|] == availableRaw && readings[..|availableRaw|] == readings;
    cs := AssignApplicationCandidates(cs, isComposite, best);
    cs := cs.(baseAdvancement := bestBase);
    var bestApp := BestApplicationOverall(cs);
    var combined := FindCombinedCandidate(availableRaw, currentRaw, isComposite, bestApp, bestBase);
    cs := cs.(combined := combined);
    AssignedIsAnalysis(current, availableRaw, readings, cs,
      Winners(best.patch, best.minor, best.major, best.family, bestBase));
  }

  lemma NothingSelected(current: TagVersion)
    ensures SelectedSoFar(current, [], [], Winners(None, None, None, None, None))
  {
  }

  lemma RunningTagChangesNothing(current: TagVersion, raw: string, w: Winners)
    ensures Considered(current, raw, None, w) == w
  {
  }

  lemma AssignedIsAnalysis(current: TagVersion, tags: seq<string>, readings: seq<Option<TagVersion>>,
                           cs: CandidateSet, w: Winners)
    requires |tags| == |readings| && current.Application().Some? && SelectedSoFar(current, tags, readings, w)
    requires cs.patch == if current.IsComposite() then None else w.patch
    requires cs.minor == if current.IsComposite() then None else w.minor
    requires cs.major == if current.IsComposite() then None else w.major
    requires cs.familyAdvancement == if current.IsComposite() then None else w.family
    requires cs.applicationPatch == if current.IsComposite() then w.patch else None
    requires cs.applicationMinor == if current.IsComposite() then w.minor else None
    requires cs.applicationMajor == if current.IsComposite() then w.major else None
    requires cs.baseAdvancement == w.base
    requires IsCombination(tags, readings, current.IsComposite(), FirstPresent(Precedence(cs)), w.base, cs.combined)
    ensures IsAnalysisOf(current, tags, readings, cs)
  {
  }

  // -------------------------------------------------- the answer as a function

  lemma {:induction false} WinnersExist(current: TagVersion, tags: seq<string>, readings: seq<Option<TagVersion>>) returns (w: Winners)
    requires |tags| == |readings|
    ensures SelectedSoFar(current, tags, readings, w)
  {
    hide SelectedSoFar;
    if tags == [] {
      NothingSelected(current);
      w := Winners(None, None, None, None, None);
    } else {
      var n := |tags| - 1;
      var front := WinnersExist(current, tags[..n], readings[..n]);
      SelectedStep(current, tags[..n], readings[..n], tags[n], readings[n], front);
      assert tags[..n] + [tags[n]] == tags && readings[..n] + [readings[n]] == readings;
      w := Considered(current, tags[n], readings[n], front);
    }
  }

  lemma CarrierExists(tags: seq<string>, readings: seq<Option<TagVersion>>, isComposite: bool,
                      app: Option<Candidate>, base: Option<Candidate>) returns (combined: Option<Candidate>)
    requires |tags| == |readings|
    ensures IsCombination(tags, readings, isComposite, app, base, combined)
  {
    hide Carries;
    combined := None;
    if isComposite && app.Some? && base.Some? {
      for i := 0 to |tags|
        invariant forall j | 0 <= j < i :: !Carries(readings[j], app.value.version, base.value.version)
      {
        if Carries(readings[i], app.value.version, base.value.version) {
          CarrierHasApplication(readings[i], app.value.version, base.value.version);
          combined := Some(Candidate(tags[i], readings[i].value.Application().value.version));
          assert IsFirstCarrier(tags, readings, app.value.version, base.value.version, i, combined.value);
          return;
        }
      }
    }
  }

  lemma CarrierHasApplication(reading: Option<TagVersion>, app: SemVer, base: SemVer)
    requires Carries(reading, app, base)
    ensures reading.Some? && reading.value.Application().Some?
  {
  }

  lemma AnalysisExists(currentRaw: string, tags: seq<string>) returns (cs: CandidateSet)
    ensures IsAnalysis(currentRaw, tags, cs)
  {
    hide ParsedTag, SelectedSoFar, IsCombination, FirstUsable;
    var current, readings := ParsedTag(currentRaw), Readings(currentRaw, tags);
    cs := EmptySet(currentRaw, current);
    if current.Application().Some? {
      var w := WinnersExist(current, tags, readings);
      cs := if current.IsComposite()
        then cs.(applicationPatch := w.patch, applicationMinor := w.minor, applicationMajor := w.major, baseAdvancement := w.base)
        else cs.(patch := w.patch, minor := w.minor, major := w.major, familyAdvancement := w.family, baseAdvancement := w.base);
      var combined := CarrierExists(tags, readings, current.IsComposite(), FirstPresent(Precedence(cs)), w.base);
      cs := cs.(combined := combined);
      AssignedIsAnalysis(current, tags, readings, cs, w);
    }
  }

  lemma CombinationUnique(tags: seq<string>, readings: seq<Option<TagVersion>>, isComposite: bool,
                          app: Option<Candidate>, base: Option<Candidate>, c: Option<Candidate>, d: Option<Candidate>)
    requires |tags| == |readings|
    requires IsCombination(tags, readings, isComposite, app, base, c) && IsCombination(tags, readings, isComposite, app, base, d)
    ensures c == d
  {
  }

  /** The declarative answer determines every slot: two analyses of the same tags are equal. */
  lemma AnalysisIsUnique(currentRaw: string, tags: seq<string>, a: CandidateSet, b: CandidateSet)
    requires IsAnalysis(currentRaw, tags, a) && IsAnalysis(currentRaw, tags, b)
    ensures a == b
  {
    hide ParsedTag, Selects, IsCombination, FirstUsable, Precedence, FirstPresent;
    var current, readings := ParsedTag(currentRaw), Readings(currentRaw, tags);
    if current.Application().Some? {
      var composite := current.IsComposite();
      SelectsUnique(tags, Offers(NewerBase, current, readings), a.baseAdvancement, b.baseAdvancement);
      if composite {
        SelectsUnique(tags, Offers(InSlot(PatchSlot), current, readings), a.applicationPatch, b.applicationPatch);
        SelectsUnique(tags, Offers(InSlot(MinorSlot), current, readings), a.applicationMinor, b.applicationMinor);
        SelectsUnique(tags, Offers(InSlot(MajorSlot), current, readings), a.applicationMajor, b.applicationMajor);
      } else {
        SelectsUnique(tags, Offers(InSlot(PatchSlot), current, readings), a.patch, b.patch);
        SelectsUnique(tags, Offers(InSlot(MinorSlot), current, readings), a.minor, b.minor);
        SelectsUnique(tags, Offers(InSlot(MajorSlot), current, readings), a.major, b.major);
        SelectsUnique(tags, Offers(InSlot(FamilySlot), current, readings), a.familyAdvancement, b.familyAdvancement);
      }
      SamePrecedence(a, b);
      CombinationUnique(tags, readings, composite, FirstPresent(Precedence(a)), a.baseAdvancement, a.combined, b.combined);
    }
  }

  lemma SamePrecedence(a: CandidateSet, b: CandidateSet)
    requires a.(combined := b.combined) == b
    ensures Precedence(a) == Precedence(b)
  {
  }

  ghost function Analysis(currentRaw: string, tags: seq<string>): (cs: CandidateSet)
    ensures IsAnalysis(currentRaw, tags, cs)
  {
    assert exists cs :: IsAnalysis(currentRaw, tags, cs) by {
      var cs := AnalysisExists(currentRaw, tags);
    }
    var cs :| IsAnalysis(currentRaw, tags, cs);
    cs
  }
}
