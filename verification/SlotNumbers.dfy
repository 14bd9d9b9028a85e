/** internal/version/candidates.go:66-141: which candidate a tag becomes, told from the numbers of the two versions alone. */
module SlotNumbers {
  import opened Prelude
  import opened SemVers
  import opened Tags
  import opened Candidates
  import opened CandidateOrder

  /** Tag j is another tag than the running one, of its shape, with the application version w. */
  ghost predicate IsPeer(currentRaw: string, tags: seq<string>, j: nat, w: SemVer)
  {
    j < |tags| && tags[j] != currentRaw &&
    var current, other := ParsedTag(currentRaw), ParsedTag(tags[j]);
    && other.Application().Some? && other.Application().value.version == w
    && current.IsComposite() == other.IsComposite()
  }

  /** The slot holds a version at least as new as w. */
  predicate Reaches(slot: Option<Candidate>, w: SemVer)
  {
    slot.Some? && w.Compare(slot.value.version) <= 0
  }

  lemma OfferReaches(tags: seq<string>, offers: seq<Option<SemVer>>, slot: Option<Candidate>, j: nat)
    requires |tags| == |offers| && Selects(tags, offers, slot) && j < |tags| && offers[j].Some?
    ensures Reaches(slot, offers[j].value)
  {
  }

  lemma WinnerIsOffered(tags: seq<string>, offers: seq<Option<SemVer>>, c: Candidate) returns (j: nat)
    requires |tags| == |offers| && Selects(tags, offers, Some(c))
    ensures j < |tags| && tags[j] == c.tag && offers[j] == Some(c.version)
  {
    j :| IsFirstGreatest(tags, offers, j, c);
  }

  /**
    Every newer tag of the running tag's shape is reached by the slot its numbers call for: major when the
    major grew; otherwise, at patch precision, minor or patch by the first number that grew; at minor precision
    always patch; at major precision family, and for a composite tag no slot at all.
  */
  lemma NewerTagReachesItsSlot(currentRaw: string, tags: seq<string>, j: nat, w: SemVer)
    requires ParsedTag(currentRaw).Application().Some? && IsPeer(currentRaw, tags, j, w)
    ensures
      var cs, v, composite := Analysis(currentRaw, tags), ParsedTag(currentRaw).Application().value.version,
        ParsedTag(currentRaw).IsComposite();
      && (w.major > v.major ==> Reaches(if composite then cs.applicationMajor else cs.major, w))
      && (v.precision == Precision.Patch && w.major == v.major && w.minor > v.minor ==>
            Reaches(if composite then cs.applicationMinor else cs.minor, w))
      && (v.precision == Precision.Patch && w.major == v.major && w.minor == v.minor && w.patch > v.patch ==>
            Reaches(if composite then cs.applicationPatch else cs.patch, w))
      && (v.precision == Precision.Minor && w.major == v.major && (w.minor > v.minor || (w.minor == v.minor && w.patch > v.patch)) ==>
            Reaches(if composite then cs.applicationPatch else cs.patch, w))
      && (v.precision == Precision.Major && w.major == v.major && !composite &&
            (w.minor > v.minor || (w.minor == v.minor && w.patch > v.patch)) ==>
            Reaches(cs.familyAdvancement, w))
  {
    hide ParsedTag, FirstUsable, HasRole, Selects, IsCombination, Reaches, Precedence, FirstPresent;
    var current, readings, cs := ParsedTag(currentRaw), Readings(currentRaw, tags), Analysis(currentRaw, tags);
    var composite := current.IsComposite();
    forall s: Slot | Offer(InSlot(s), current, readings[j]).Some? && !(s == FamilySlot && composite)
      ensures Reaches(InSlotOf(cs, composite, s), Offer(InSlot(s), current, readings[j]).value)
    {
      OfferReaches(tags, Offers(InSlot(s), current, readings), InSlotOf(cs, composite, s), j);
    }
    var v := current.Application().value.version;
    assert forall s: Slot :: Accepts(s, v, w) ==> Offer(InSlot(s), current, readings[j]) == Some(w);
    assert InSlotOf(cs, composite, MajorSlot) == if composite then cs.applicationMajor else cs.major;
    assert InSlotOf(cs, composite, MinorSlot) == if composite then cs.applicationMinor else cs.minor;
    assert InSlotOf(cs, composite, PatchSlot) == if composite then cs.applicationPatch else cs.patch;
    assert InSlotOf(cs, composite, FamilySlot) == cs.familyAdvancement;
  }

  /** The slot's candidate is one of the other tags of the running tag's shape. */
  ghost predicate HoldsPeer(currentRaw: string, tags: seq<string>, slot: Option<Candidate>)
  {
    slot.Some? ==> exists j: nat :: IsPeer(currentRaw, tags, j, slot.value.version) && tags[j] == slot.value.tag
  }

  /**
    And a slot holds nothing else: an available tag of the shape, in the slot its numbers call for. Plain tags
    fill the plain slots, composite tags the application slots, and those never have a family candidate.
  */
  lemma SlotsHoldTheirOwn(currentRaw: string, tags: seq<string>)
    requires ParsedTag(currentRaw).Application().Some?
    ensures
      var cs, v, composite := Analysis(currentRaw, tags), ParsedTag(currentRaw).Application().value.version,
        ParsedTag(currentRaw).IsComposite();
      var major := if composite then cs.applicationMajor else cs.major;
      var minor := if composite then cs.applicationMinor else cs.minor;
      var patch := if composite then cs.applicationPatch else cs.patch;
      && (composite ==> cs.major.None? && cs.minor.None? && cs.patch.None? && cs.familyAdvancement.None?)
      && (!composite ==> cs.applicationMajor.None? && cs.applicationMinor.None? && cs.applicationPatch.None?)
      && HoldsPeer(currentRaw, tags, major) && HoldsPeer(currentRaw, tags, minor)
      && HoldsPeer(currentRaw, tags, patch) && HoldsPeer(currentRaw, tags, cs.familyAdvancement)
      && (major.Some? ==> major.value.version.major > v.major)
      && (minor.Some? ==>
            var w := minor.value.version;
            v.precision == Precision.Patch && w.major == v.major && w.minor > v.minor)
      && (patch.Some? ==>
            var w := patch.value.version;
            && w.major == v.major
            && (|| (v.precision == Precision.Patch && w.minor == v.minor && w.patch > v.patch)
                || (v.precision == Precision.Minor && (w.minor > v.minor || (w.minor == v.minor && w.patch > v.patch)))))
      && (cs.familyAdvancement.Some? ==>
            var w := cs.familyAdvancement.value.version;
            v.precision == Precision.Major && w.major == v.major && (w.minor > v.minor || (w.minor == v.minor && w.patch > v.patch)))
  {
    hide ParsedTag, FirstUsable, HasRole, Selects, IsCombination, HoldsPeer, Precedence, FirstPresent;
    var current, readings, cs := ParsedTag(currentRaw), Readings(currentRaw, tags), Analysis(currentRaw, tags);
    var composite := current.IsComposite();
    forall s: Slot | InSlotOf(cs, composite, s).Some?
      ensures Accepts(s, current.Application().value.version, InSlotOf(cs, composite, s).value.version)
      ensures HoldsPeer(currentRaw, tags, InSlotOf(cs, composite, s))
    {
      SlotHolds(currentRaw, tags, s);
    }
    NothingHeld(currentRaw, tags);
    assert InSlotOf(cs, composite, MajorSlot) == if composite then cs.applicationMajor else cs.major;
    assert InSlotOf(cs, composite, MinorSlot) == if composite then cs.applicationMinor else cs.minor;
    assert InSlotOf(cs, composite, PatchSlot) == if composite then cs.applicationPatch else cs.patch;
    assert InSlotOf(cs, composite, FamilySlot) == cs.familyAdvancement;
  }

  lemma NothingHeld(currentRaw: string, tags: seq<string>)
    ensures HoldsPeer(currentRaw, tags, None)
  {
  }

  lemma SlotHolds(currentRaw: string, tags: seq<string>, s: Slot)
    requires ParsedTag(currentRaw).Application().Some?
    requires InSlotOf(Analysis(currentRaw, tags), ParsedTag(currentRaw).IsComposite(), s).Some?
    ensures
      var c := InSlotOf(Analysis(currentRaw, tags), ParsedTag(currentRaw).IsComposite(), s).value;
      && Accepts(s, ParsedTag(currentRaw).Application().value.version, c.version)
      && HoldsPeer(currentRaw, tags, Some(c))
  {
    hide ParsedTag, FirstUsable, HasRole, Selects, IsCombination, Precedence, FirstPresent;
    var current, readings, cs := ParsedTag(currentRaw), Readings(currentRaw, tags), Analysis(currentRaw, tags);
    var c := InSlotOf(cs, current.IsComposite(), s).value;
    var j := WinnerIsOffered(tags, Offers(InSlot(s), current, readings), c);
    assert Offer(InSlot(s), current, readings[j]) == Some(c.version);
    assert IsPeer(currentRaw, tags, j, c.version);
  }

  /** Tag j is another tag than the running one, with a usable base component of the running tag's family. */
  ghost predicate IsSibling(currentRaw: string, tags: seq<string>, j: nat, w: SemVer)
  {
    j < |tags| && tags[j] != currentRaw &&
    var current, other := ParsedTag(currentRaw).Base(), ParsedTag(tags[j]).Base();
    current.Some? && other.Some? && other.value.name == current.value.name && other.value.version == w
  }

  /**
    The base candidate, by the numbers: of a running tag whose base names a version, every tag of that family
    with a greater base version is reached, and nothing else is held. Without a base version there is none.
  */
  lemma BaseCandidateIsNewerSibling(currentRaw: string, tags: seq<string>)
    requires ParsedTag(currentRaw).Application().Some?
    ensures
      var cs, base := Analysis(currentRaw, tags), ParsedTag(currentRaw).Base();
      && (base.None? || base.value.version.precision == Precision.Unknown ==> cs.baseAdvancement.None?)
      && (base.Some? && base.value.version.precision != Precision.Unknown ==>
            forall j: nat, w | IsSibling(currentRaw, tags, j, w) && Outnumbers(w, base.value.version) ::
              Reaches(cs.baseAdvancement, w))
      && (cs.baseAdvancement.Some? ==>
            && Outnumbers(cs.baseAdvancement.value.version, base.value.version)
            && exists j: nat :: IsSibling(currentRaw, tags, j, cs.baseAdvancement.value.version) && tags[j] == cs.baseAdvancement.value.tag)
  {
    hide ParsedTag, FirstUsable, HasRole, Selects, IsCombination, Precedence, FirstPresent, Reaches;
    var current, readings, cs := ParsedTag(currentRaw), Readings(currentRaw, tags), Analysis(currentRaw, tags);
    var offers := Offers(NewerBase, current, readings);
    forall j: nat, w | IsSibling(currentRaw, tags, j, w) && Outnumbers(w, current.Base().value.version) &&
        current.Base().value.version.precision != Precision.Unknown
      ensures Reaches(cs.baseAdvancement, w)
    {
      assert offers[j] == Some(w);
      OfferReaches(tags, offers, cs.baseAdvancement, j);
    }
    if cs.baseAdvancement.Some? {
      var j := WinnerIsOffered(tags, offers, cs.baseAdvancement.value);
      assert IsSibling(currentRaw, tags, j, cs.baseAdvancement.value.version);
    }
  }

  /** Greater by the first of the three numbers that differs. */
  predicate Outnumbers(w: SemVer, v: SemVer)
  {
    || w.major > v.major
    || (w.major == v.major && w.minor > v.minor)
    || (w.major == v.major && w.minor == v.minor && w.patch > v.patch)
  }

  predicate SameNumbers(v: SemVer, w: SemVer)
  {
    v.major == w.major && v.minor == w.minor && v.patch == w.patch
  }

  /** Tag j is another tag than the running one, with exactly the numbers of both versions. */
  ghost predicate HasBothNumbers(currentRaw: string, tags: seq<string>, j: nat, app: SemVer, base: SemVer)
  {
    j < |tags| && tags[j] != currentRaw &&
    var a, b := ParsedTag(tags[j]).Application(), ParsedTag(tags[j]).Base();
    a.Some? && b.Some? && SameNumbers(a.value.version, app) && SameNumbers(b.value.version, base)
  }

  /** The combined tag is the first tag with the numbers of both winners, of whatever base family, for a composite tag only. */
  lemma CombinedHasBothNumbers(currentRaw: string, tags: seq<string>)
    requires ParsedTag(currentRaw).Application().Some?
    ensures
      var cs := Analysis(currentRaw, tags);
      && (cs.combined.Some? ==> ParsedTag(currentRaw).IsComposite() && BestOf(cs).Some? && cs.baseAdvancement.Some?)
      && (cs.combined.Some? ==> exists k: nat ::
            && HasBothNumbers(currentRaw, tags, k, BestOf(cs).value.version, cs.baseAdvancement.value.version)
            && cs.combined == Some(Candidate(tags[k], ParsedTag(tags[k]).Application().value.version))
            && forall j: nat | j < k :: !HasBothNumbers(currentRaw, tags, j, BestOf(cs).value.version, cs.baseAdvancement.value.version))
      && (cs.combined.None? && ParsedTag(currentRaw).IsComposite() && BestOf(cs).Some? && cs.baseAdvancement.Some? ==>
            forall j: nat :: !HasBothNumbers(currentRaw, tags, j, BestOf(cs).value.version, cs.baseAdvancement.value.version))
  {
    hide ParsedTag, FirstUsable, HasRole, Selects, Precedence, FirstPresent, BestOf, IsAnalysisOf;
    var current, readings, cs := ParsedTag(currentRaw), Readings(currentRaw, tags), Analysis(currentRaw, tags);
    AnalysisIsAnalyzed(currentRaw, tags);
    CombinedIsSoundAndComplete(current, tags, readings, cs);
    if cs.baseAdvancement.Some? && BestOf(cs).Some? {
      var app, base := BestOf(cs).value.version, cs.baseAdvancement.value.version;
      forall j: nat ensures HasBothNumbers(currentRaw, tags, j, app, base) <==> j < |tags| && Carries(readings[j], app, base) {
      }
      if cs.combined.Some? {
        CombinedIsFirstCarrier(current, tags, readings, cs);
        var k: nat :| IsFirstCarrier(tags, readings, app, base, k, cs.combined.value);
        assert HasBothNumbers(currentRaw, tags, k, app, base);
      }
    }
  }

  // ------------------------------------------------------------------ examples

  /** One plain release for a plain running version: the one slot it fills, for every pair of versions. */
  lemma PlainTagFillsSlot(v: SemVer, w: SemVer)
    requires v.Normal() && w.Normal() && v.String() != w.String()
    ensures
      var c := Some(Candidate(w.String(), Reading(w)));
      var cs := Analysis(v.String(), [w.String()]);
      && cs.major == (if w.major > v.major then c else None)
      && cs.minor == (if v.precision == Precision.Patch && w.major == v.major && w.minor > v.minor then c else None)
      && cs.patch == (if w.major == v.major &&
           (|| (v.precision == Precision.Patch && w.minor == v.minor && w.patch > v.patch)
            || (v.precision == Precision.Minor && (w.minor > v.minor || (w.minor == v.minor && w.patch > v.patch))))
         then c else None)
      && cs.familyAdvancement ==
           (if v.precision == Precision.Major && w.major == v.major && (w.minor > 0 || w.patch > 0) then c else None)
  {
    hide ParsedTag, FirstUsable, HasRole, SemVer.String, Precision.Rank;
    PlainTagReadsBack(v);
    PlainTagReadsBack(w);
    ReadingKeepsNumbers(v);
    ReadingKeepsNumbers(w);
    var tags := [w.String()];
    assert IsPeer(v.String(), tags, 0, Reading(w));
    NewerTagReachesItsSlot(v.String(), tags, 0, Reading(w));
    SlotsHoldTheirOwn(v.String(), tags);
  }

  /** The same for a composite release and a composite running tag: never a family candidate, and a base and a combined one. */
  lemma CompositeTagFillsSlot(v: SemVer, family: string, b: SemVer, w: SemVer, family': string, b': SemVer)
    requires v.Normal() && b.Normal() && family in KNOWN_BASE_FAMILIES
    requires w.Normal() && b'.Normal() && family' in KNOWN_BASE_FAMILIES
    requires CompositeText(v, family, b) != CompositeText(w, family', b')
    ensures
      var text := CompositeText(w, family', b');
      var c := Some(Candidate(text, Reading(w)));
      var cs := Analysis(CompositeText(v, family, b), [text]);
      && cs.applicationMajor == (if w.major > v.major then c else None)
      && cs.applicationMinor ==
           (if v.precision == Precision.Patch && w.major == v.major && w.minor > v.minor then c else None)
      && cs.applicationPatch == (if w.major == v.major &&
           (|| (v.precision == Precision.Patch && w.minor == v.minor && w.patch > v.patch)
            || (v.precision == Precision.Minor && (w.minor > v.minor || (w.minor == v.minor && w.patch > v.patch))))
         then c else None)
      && cs.familyAdvancement.None?
      && cs.baseAdvancement == (if family == family' && Outnumbers(b', b) then Some(Candidate(text, Reading(b'))) else None)
  {
    hide ParsedTag, FirstUsable, HasRole, CompositeText;
    var raw, text := CompositeText(v, family, b), CompositeText(w, family', b');
    CompositeTagReadsBack(v, family, b);
    CompositeTagReadsBack(w, family', b');
    ReadingKeepsNumbers(v);
    ReadingKeepsNumbers(w);
    ReadingKeepsNumbers(b);
    ReadingKeepsNumbers(b');
    assert IsPeer(raw, [text], 0, Reading(w));
    NewerTagReachesItsSlot(raw, [text], 0, Reading(w));
    SlotsHoldTheirOwn(raw, [text]);
    BaseCandidateIsNewerSibling(raw, [text]);
    assert family == family' ==> IsSibling(raw, [text], 0, Reading(b'));
  }

  /** Tags of different shapes are no candidates for each other on the application axis. */
  lemma OtherShapeFillsNoSlot(v: SemVer, w: SemVer, family: string, b: SemVer)
    requires v.Normal() && w.Normal() && b.Normal() && family in KNOWN_BASE_FAMILIES
    ensures BestOf(Analysis(v.String(), [CompositeText(w, family, b)])).None?
    ensures BestOf(Analysis(CompositeText(w, family, b), [v.String()])).None?
  {
    hide ParsedTag, FirstUsable, HasRole, CompositeText, SemVer.String, BestOf;
    CompositeTagReadsBack(w, family, b);
    PlainTagReadsBack(v);
    SlotsHoldTheirOwn(v.String(), [CompositeText(w, family, b)]);
    SlotsHoldTheirOwn(CompositeText(w, family, b), [v.String()]);
    BestIsFirstSlot(Analysis(v.String(), [CompositeText(w, family, b)]));
    BestIsFirstSlot(Analysis(CompositeText(w, family, b), [v.String()]));
  }
}
