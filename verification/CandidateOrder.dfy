/** What the chosen candidates are worth: precedence against version order, and the combined tag. */
module CandidateOrder {
  import opened Prelude
  import opened Text
  import opened SemVers
  import opened Tags
  import opened Candidates

  /** The slots of a set that hold a candidate, application axis only. */
  ghost predicate Filled(cs: CandidateSet, c: Candidate)
  {
    exists i | 0 <= i < |Precedence(cs)| :: Precedence(cs)[i] == Some(c)
  }

  ghost predicate SomeOffer(offers: seq<Option<SemVer>>)
  {
    exists i | 0 <= i < |offers| :: offers[i].Some?
  }

  function BestOf(cs: CandidateSet): Option<Candidate>
  {
    FirstPresent(Precedence(cs))
  }

  /** The precedence list, read off without the recursion. */
  lemma BestIsFirstSlot(cs: CandidateSet)
    ensures BestOf(cs) ==
      if cs.major.Some? then cs.major
      else if cs.applicationMajor.Some? then cs.applicationMajor
      else if cs.minor.Some? then cs.minor
      else if cs.applicationMinor.Some? then cs.applicationMinor
      else if cs.familyAdvancement.Some? then cs.familyAdvancement
      else if cs.patch.Some? then cs.patch
      else cs.applicationPatch
  {
    hide FirstPresent;
    var s := Precedence(cs);
    FirstPresentIsFirst(s);
    assert s[0] == cs.major && s[1] == cs.applicationMajor && s[2] == cs.minor && s[3] == cs.applicationMinor;
    assert s[4] == cs.familyAdvancement && s[5] == cs.patch && s[6] == cs.applicationPatch;
  }

  lemma {:induction false} FirstPresentIsFirst(s: seq<Option<Candidate>>)
    ensures FirstPresent(s).None? ==> forall j | 0 <= j < |s| :: s[j].None?
    ensures FirstPresent(s).Some? ==>
      exists j | 0 <= j < |s| :: s[j] == FirstPresent(s) && forall k | 0 <= k < j :: s[k].None?
  {
    if s != [] && s[0].None? {
      var t := s[1..];
      FirstPresentIsFirst(t);
      if FirstPresent(t).Some? {
        var j :| 0 <= j < |t| && t[j] == FirstPresent(t) && forall k | 0 <= k < j :: t[k].None?;
        assert s[j + 1] == FirstPresent(s) && forall k | 1 <= k < j + 1 :: s[k] == t[k - 1];
      }
    }
  }

  /** An eligible newer version falls into exactly the slot of the first number that advanced. */
  lemma SlotsPartitionNewer(cur: SemVer, cand: SemVer)
    requires cur.Normal()
    ensures cand.Newer(cur) <==>
      Accepts(PatchSlot, cur, cand) || Accepts(MinorSlot, cur, cand) || Accepts(MajorSlot, cur, cand) || Accepts(FamilySlot, cur, cand)
    ensures forall s, t :: Accepts(s, cur, cand) && Accepts(t, cur, cand) ==> s == t
  {
  }

  /** Across slots, the order of the slots is the order of the versions. */
  lemma SlotOrderIsVersionOrder(cur: SemVer, a: SemVer, b: SemVer)
    ensures Accepts(MajorSlot, cur, a) && !Accepts(MajorSlot, cur, b) && b.major <= cur.major ==> a.Compare(b) > 0
    ensures Accepts(MinorSlot, cur, a) && Accepts(PatchSlot, cur, b) ==> a.Compare(b) > 0
  {
  }

  ghost predicate Analyzed(current: TagVersion, tags: seq<string>, readings: seq<Option<TagVersion>>, cs: CandidateSet)
  {
    && |tags| == |readings|
    && IsAnalysisOf(current, tags, readings, cs)
    && current.Application().Some? && current.Application().value.version.Normal()
  }

  /** The winner of a slot, on whichever side of the set it is recorded. */
  function InSlotOf(cs: CandidateSet, composite: bool, slot: Slot): Option<Candidate>
  {
    match slot
    case PatchSlot => if composite then cs.applicationPatch else cs.patch
    case MinorSlot => if composite then cs.applicationMinor else cs.minor
    case MajorSlot => if composite then cs.applicationMajor else cs.major
    case FamilySlot => cs.familyAdvancement
  }

  function Newest(current: TagVersion, readings: seq<Option<TagVersion>>): seq<Option<SemVer>>
  {
    Offers(AnyNewerApplication, current, readings)
  }

  /** The best overall is the winner of the highest non-empty slot. */
  lemma BestBySlot(current: TagVersion, tags: seq<string>, readings: seq<Option<TagVersion>>, cs: CandidateSet)
    requires Analyzed(current, tags, readings, cs)
    ensures
      var at := (slot: Slot) => InSlotOf(cs, current.IsComposite(), slot);
      BestOf(cs) ==
        if at(MajorSlot).Some? then at(MajorSlot)
        else if at(MinorSlot).Some? then at(MinorSlot)
        else if at(FamilySlot).Some? then at(FamilySlot)
        else at(PatchSlot)
  {
    hide Selects, IsCombination, BestOf;
    BestIsFirstSlot(cs);
  }

  /** A recorded winner is a genuine advance of its slot's kind. */
  lemma WinnerIsAccepted(current: TagVersion, tags: seq<string>, readings: seq<Option<TagVersion>>, slot: Slot, c: Candidate)
    requires |tags| == |readings| && Selects(tags, Offers(InSlot(slot), current, readings), Some(c))
    ensures current.Application().Some? && Accepts(slot, current.Application().value.version, c.version)
  {
  }

  /** The best overall is at least as new as every filled application slot. */
  lemma BestIsGreatestFilled(current: TagVersion, tags: seq<string>, readings: seq<Option<TagVersion>>, cs: CandidateSet, c: Candidate)
    requires Analyzed(current, tags, readings, cs) && Filled(cs, c)
    ensures BestOf(cs).Some? && c.version.Compare(BestOf(cs).value.version) <= 0
  {
    hide Selects, IsCombination, BestOf;
    BestBySlot(current, tags, readings, cs);
    var composite := current.IsComposite();
    var i :| 0 <= i < |Precedence(cs)| && Precedence(cs)[i] == Some(c);
    var slot: Slot := if i <= 1 then MajorSlot else if i <= 3 then MinorSlot else if i == 4 then FamilySlot else PatchSlot;
    assert InSlotOf(cs, composite, slot) == Some(c);
    forall s: Slot | InSlotOf(cs, composite, s).Some?
      ensures Accepts(s, current.Application().value.version, InSlotOf(cs, composite, s).value.version)
    {
      WinnerIsAccepted(current, tags, readings, s, InSlotOf(cs, composite, s).value);
    }
    var best := BestOf(cs).value;
    SlotOrderIsVersionOrder(current.Application().value.version, best.version, c.version);
  }

  /** A winner among some tags wins among more tags when all the others are older than it. */
  lemma SelectsWider(tags: seq<string>, narrow: seq<Option<SemVer>>, wide: seq<Option<SemVer>>, c: Candidate)
    requires |tags| == |narrow| == |wide| && Selects(tags, narrow, Some(c))
    requires forall j | 0 <= j < |tags| && narrow[j].Some? :: wide[j] == narrow[j]
    requires forall j | 0 <= j < |tags| && wide[j].Some? && narrow[j].None? :: wide[j].value.Compare(c.version) < 0
    ensures Selects(tags, wide, Some(c))
  {
    var k: nat :| IsFirstGreatest(tags, narrow, k, c);
    assert IsFirstGreatest(tags, wide, k, c);
  }

  /** Each newer same-shape tag is offered in exactly one slot, with the same version. */
  lemma NewerIsInOneSlot(current: TagVersion, reading: Option<TagVersion>)
    requires current.Application().Some? && current.Application().value.version.Normal()
    ensures
      var offer := Offer(AnyNewerApplication, current, reading);
      && (forall s :: Offer(InSlot(s), current, reading).Some? ==> Offer(InSlot(s), current, reading) == offer)
      && (offer.Some? <==> exists s :: Offer(InSlot(s), current, reading).Some?)
  {
    hide MatchBaseFamily;
    if reading.Some? && SameShape(current, reading.value) {
      var cur, cand := current.Application().value.version, reading.value.Application().value.version;
      SlotsPartitionNewer(cur, cand);
      if cand.Newer(cur) {
        var s: Slot := if Accepts(PatchSlot, cur, cand) then PatchSlot
          else if Accepts(MinorSlot, cur, cand) then MinorSlot
          else if Accepts(MajorSlot, cur, cand) then MajorSlot else FamilySlot;
        assert Offer(InSlot(s), current, reading).Some?;
      }
    }
  }

  /** A composite tag of major precision has no slot for newer releases of its own major. */
  ghost predicate LosesFamily(current: TagVersion, readings: seq<Option<TagVersion>>)
    requires current.Application().Some?
  {
    && current.IsComposite()
    && current.Application().value.version.precision == Precision.Major
    && !SomeOffer(Offers(InSlot(MajorSlot), current, readings))
    && SomeOffer(Offers(InSlot(FamilySlot), current, readings))
  }

  /**
    Category precedence is version order: the best overall is the first greatest tag among all newer
    ones of the running tag's shape, and nothing iff there is none. The only exception is a
    composite running tag of major precision with newer releases of its major only.
  */
  lemma BestIsNewest(current: TagVersion, tags: seq<string>, readings: seq<Option<TagVersion>>, cs: CandidateSet)
    requires Analyzed(current, tags, readings, cs)
    ensures Selects(tags, Newest(current, readings), BestOf(cs)) <==> !LosesFamily(current, readings)
  {
    var composite := current.IsComposite();
    BestBySlot(current, tags, readings, cs);
    forall j | 0 <= j < |readings|
      ensures forall s :: Offer(InSlot(s), current, readings[j]).Some? ==>
        Offer(InSlot(s), current, readings[j]) == Newest(current, readings)[j]
      ensures Newest(current, readings)[j].Some? ==> exists s :: Offer(InSlot(s), current, readings[j]).Some?
    {
      NewerIsInOneSlot(current, readings[j]);
    }
    if LosesFamily(current, readings) {
      LostFamilyHasNoBest(current, tags, readings, cs);
    } else if BestOf(cs).None? {
      NoBestNoNewer(current, tags, readings, cs);
    } else {
      BestBeatsNewer(current, tags, readings, cs);
    }
  }

  /** What a slot's winner says about what the slot is offered. */
  lemma SlotSelected(current: TagVersion, tags: seq<string>, readings: seq<Option<TagVersion>>, cs: CandidateSet, slot: Slot)
    requires Analyzed(current, tags, readings, cs)
    ensures
      var winner := InSlotOf(cs, current.IsComposite(), slot);
      if slot == FamilySlot && current.IsComposite() then winner.None?
      else Selects(tags, Offers(InSlot(slot), current, readings), winner)
  {
  }

  /** An empty slot means no tag is eligible for it, unless it is the dropped family slot. */
  lemma EmptySlotOffersNothing(current: TagVersion, tags: seq<string>, readings: seq<Option<TagVersion>>, cs: CandidateSet, slot: Slot)
    requires Analyzed(current, tags, readings, cs)
    requires InSlotOf(cs, current.IsComposite(), slot).None? && !(slot == FamilySlot && current.IsComposite())
    ensures forall j | 0 <= j < |readings| :: Offer(InSlot(slot), current, readings[j]).None?
  {
  }

  lemma LostFamilyHasNoBest(current: TagVersion, tags: seq<string>, readings: seq<Option<TagVersion>>, cs: CandidateSet)
    requires Analyzed(current, tags, readings, cs) && LosesFamily(current, readings)
    ensures BestOf(cs).None? && !Selects(tags, Newest(current, readings), None)
  {
    hide Offer, IsAnalysisOf, BestOf;
    BestBySlot(current, tags, readings, cs);
    forall s: Slot ensures InSlotOf(cs, true, s).None? {
      SlotSelected(current, tags, readings, cs, s);
      if InSlotOf(cs, true, s).Some? {
        var c := InSlotOf(cs, true, s).value;
        WinnerIsAccepted(current, tags, readings, s, c);
      }
    }
    var i :| 0 <= i < |readings| && Offers(InSlot(FamilySlot), current, readings)[i].Some?;
    NewerIsInOneSlot(current, readings[i]);
    assert Newest(current, readings)[i].Some?;
  }

  lemma NoBestNoNewer(current: TagVersion, tags: seq<string>, readings: seq<Option<TagVersion>>, cs: CandidateSet)
    requires Analyzed(current, tags, readings, cs) && !LosesFamily(current, readings) && BestOf(cs).None?
    ensures Selects(tags, Newest(current, readings), None)
  {
    hide Offer, IsAnalysisOf, BestOf;
    BestBySlot(current, tags, readings, cs);
    forall j | 0 <= j < |readings| ensures Newest(current, readings)[j].None? {
      NewerIsInOneSlot(current, readings[j]);
      if Newest(current, readings)[j].Some? {
        var s: Slot :| Offer(InSlot(s), current, readings[j]).Some?;
        OfferedSlotFitsPrecision(current, readings[j], s);
        if s == FamilySlot && current.IsComposite() {
          EmptySlotOffersNothing(current, tags, readings, cs, MajorSlot);
        } else {
          EmptySlotOffersNothing(current, tags, readings, cs, s);
        }
      }
    }
  }

  lemma OfferedSlotFitsPrecision(current: TagVersion, reading: Option<TagVersion>, s: Slot)
    requires Offer(InSlot(s), current, reading).Some?
    ensures current.Application().Some?
    ensures Accepts(s, current.Application().value.version, Offer(InSlot(s), current, reading).value)
  {
  }

  lemma BestBeatsNewer(current: TagVersion, tags: seq<string>, readings: seq<Option<TagVersion>>, cs: CandidateSet)
    requires Analyzed(current, tags, readings, cs) && BestOf(cs).Some?
    ensures Selects(tags, Newest(current, readings), BestOf(cs))
  {
    hide Offer, IsAnalysisOf, BestOf, Selects;
    BestBySlot(current, tags, readings, cs);
    var composite := current.IsComposite();
    var at := (slot: Slot) => InSlotOf(cs, composite, slot);
    var s: Slot := if at(MajorSlot).Some? then MajorSlot else if at(MinorSlot).Some? then MinorSlot
      else if at(FamilySlot).Some? then FamilySlot else PatchSlot;
    var best := BestOf(cs).value;
    SlotSelected(current, tags, readings, cs, s);
    WinnerIsAccepted(current, tags, readings, s, best);
    var narrow := Offers(InSlot(s), current, readings);
    var wide := Newest(current, readings);
    forall j | 0 <= j < |tags|
      ensures narrow[j].Some? ==> wide[j] == narrow[j]
      ensures wide[j].Some? && narrow[j].None? ==> wide[j].value.Compare(best.version) < 0
    {
      NewerIsInOneSlot(current, readings[j]);
      if wide[j].Some? && narrow[j].None? {
        var t: Slot :| Offer(InSlot(t), current, readings[j]).Some?;
        OfferedSlotFitsPrecision(current, readings[j], t);
        LowerSlotIsOlder(current, tags, readings, cs, s, best, j, t);
      }
    }
    SelectsWider(tags, narrow, wide, best);
  }

  lemma LowerSlotIsOlder(current: TagVersion, tags: seq<string>, readings: seq<Option<TagVersion>>, cs: CandidateSet,
                         s: Slot, best: Candidate, j: nat, t: Slot)
    requires Analyzed(current, tags, readings, cs) && j < |tags| && s != t
    requires InSlotOf(cs, current.IsComposite(), s) == Some(best)
    requires s != MajorSlot ==> InSlotOf(cs, current.IsComposite(), MajorSlot).None?
    requires s != MajorSlot && s != MinorSlot ==> InSlotOf(cs, current.IsComposite(), MinorSlot).None?
    requires Accepts(s, current.Application().value.version, best.version)
    requires Offer(InSlot(t), current, readings[j]).Some?
    requires Accepts(t, current.Application().value.version, Offer(InSlot(t), current, readings[j]).value)
    ensures Offer(InSlot(t), current, readings[j]).value.Compare(best.version) < 0
  {
  }

  lemma AnalysisIsAnalyzed(currentRaw: string, tags: seq<string>)
    requires ParsedTag(currentRaw).Application().Some?
    ensures Analyzed(ParsedTag(currentRaw), tags, Readings(currentRaw, tags), Analysis(currentRaw, tags))
  {
    hide ParsedTag, IsAnalysisOf, FirstUsable, HasRole;
    TagShape(currentRaw);
  }

  /** The same for every running tag and every tag list: what is best is what is newest, but for the lost family. */
  lemma PrecedenceIsVersionOrder(currentRaw: string, tags: seq<string>)
    ensures
      var current, readings, best := ParsedTag(currentRaw), Readings(currentRaw, tags), BestOf(Analysis(currentRaw, tags));
      if current.Application().None? then best.None?
      else Selects(tags, Newest(current, readings), best) <==> !LosesFamily(current, readings)
  {
    hide ParsedTag, FirstUsable, LosesFamily, Selects, BestOf;
    var cs := Analysis(currentRaw, tags);
    if ParsedTag(currentRaw).Application().Some? {
      AnalysisIsAnalyzed(currentRaw, tags);
      BestIsNewest(ParsedTag(currentRaw), tags, Readings(currentRaw, tags), cs);
    } else {
      BestIsFirstSlot(cs);
    }
  }

  // ------------------------------------------------------------- combined tag

  /** The combined candidate exists exactly when both axes have a winner and some tag carries both versions. */
  lemma CombinedIsSoundAndComplete(current: TagVersion, tags: seq<string>, readings: seq<Option<TagVersion>>, cs: CandidateSet)
    requires Analyzed(current, tags, readings, cs)
    ensures cs.combined.Some? <==>
      && current.IsComposite() && BestOf(cs).Some? && cs.baseAdvancement.Some?
      && exists j | 0 <= j < |readings| :: Carries(readings[j], BestOf(cs).value.version, cs.baseAdvancement.value.version)
  {
  }

  /**
    A combined candidate is dominant: no available tag of the running shape has a newer application
    version, and no available tag of the running base family has a newer base version.
  */
  lemma CombinedIsDominant(current: TagVersion, tags: seq<string>, readings: seq<Option<TagVersion>>, cs: CandidateSet, j: nat)
    requires Analyzed(current, tags, readings, cs) && cs.combined.Some?
    requires j < |readings| && readings[j].Some?
    ensures BestOf(cs).Some? && cs.combined.value.version.Compare(BestOf(cs).value.version) == 0
    ensures SameShape(current, readings[j].value) ==>
      readings[j].value.Application().value.version.Compare(cs.combined.value.version) <= 0
    ensures cs.baseAdvancement.Some?
    ensures SameVersionedFamily(current, readings[j].value) ==>
      readings[j].value.Base().value.version.Compare(cs.baseAdvancement.value.version) <= 0
  {
    hide Precedence, FirstPresent, Selects, Offer;
    var app, base := BestOf(cs), cs.baseAdvancement;
    assert IsCombination(tags, readings, current.IsComposite(), app, base, cs.combined);
    var k: nat :| IsFirstCarrier(tags, readings, app.value.version, base.value.version, k, cs.combined.value);
    BestBeatsNewer(current, tags, readings, cs);
    ApplicationDominates(current, tags, readings, app.value, j);
    BaseDominates(current, tags, readings, base.value, j);
    if SameShape(current, readings[j].value) {
      CompareIsTotalPreorder(readings[j].value.Application().value.version, app.value.version, cs.combined.value.version);
    }
  }

  /** No tag of the running shape is newer than the winner among the newer ones. */
  lemma ApplicationDominates(current: TagVersion, tags: seq<string>, readings: seq<Option<TagVersion>>, c: Candidate, j: nat)
    requires |tags| == |readings| && Selects(tags, Newest(current, readings), Some(c))
    requires j < |readings| && readings[j].Some?
    ensures SameShape(current, readings[j].value) ==>
      readings[j].value.Application().value.version.Compare(c.version) <= 0
  {
  }

  /** No tag of the running base family has a newer base than the winning base. */
  lemma BaseDominates(current: TagVersion, tags: seq<string>, readings: seq<Option<TagVersion>>, c: Candidate, j: nat)
    requires |tags| == |readings| && Selects(tags, Offers(NewerBase, current, readings), Some(c))
    requires j < |readings| && readings[j].Some?
    ensures SameVersionedFamily(current, readings[j].value) ==>
      readings[j].value.Base().value.version.Compare(c.version) <= 0
  {
  }

  /** The greatest version offered on an axis. */
  function Greatest(offers: seq<Option<SemVer>>): Option<SemVer>
  {
    if offers == [] then None
    else
      var front, last := Greatest(offers[..|offers| - 1]), offers[|offers| - 1];
      if last.Some? && (front.None? || last.value.Newer(front.value)) then last else front
  }

  lemma {:induction false} GreatestIsSelected(tags: seq<string>, offers: seq<Option<SemVer>>)
    requires |tags| == |offers|
    ensures exists c: Option<Candidate> ::
      Selects(tags, offers, c) && Greatest(offers) == if c.Some? then Some(c.value.version) else None
  {
    hide Selects;
    if offers == [] {
      NothingSelects(tags, offers);
      assert Selects(tags, offers, None);
    } else {
      var n := |offers| - 1;
      GreatestIsSelected(tags[..n], offers[..n]);
      var c: Option<Candidate> :| Selects(tags[..n], offers[..n], c) &&
        Greatest(offers[..n]) == if c.Some? then Some(c.value.version) else None;
      SelectStep(tags[..n], offers[..n], tags[n], offers[n], c);
      assert tags[..n] + [tags[n]] == tags && offers[..n] + [offers[n]] == offers;
      assert Selects(tags, offers, Update(c, tags[n], offers[n]));
    }
  }

  lemma NothingSelects(tags: seq<string>, offers: seq<Option<SemVer>>)
    requires |tags| == |offers| == 0
    ensures Selects(tags, offers, None)
  {
  }

  /** A winner has the greatest version. */
  lemma WinnerIsGreatest(tags: seq<string>, offers: seq<Option<SemVer>>, c: Option<Candidate>)
    requires |tags| == |offers| && Selects(tags, offers, c)
    ensures Greatest(offers) == if c.Some? then Some(c.value.version) else None
  {
    hide Selects;
    GreatestIsSelected(tags, offers);
    var d: Option<Candidate> :| Selects(tags, offers, d) && Greatest(offers) == if d.Some? then Some(d.value.version) else None;
    SelectsUnique(tags, offers, c, d);
  }

  /** A tag with the greatest newer application version and the greatest newer base version on offer. */
  ghost predicate CarriesBoth(current: TagVersion, readings: seq<Option<TagVersion>>, j: nat)
    requires j < |readings|
  {
    var app, base := Greatest(Newest(current, readings)), Greatest(Offers(NewerBase, current, readings));
    app.Some? && base.Some? && Carries(readings[j], app.value, base.value)
  }

  ghost predicate OfRunningFamily(current: TagVersion, reading: Option<TagVersion>)
  {
    && reading.Some? && reading.value.Base().Some? && current.Base().Some?
    && reading.value.Base().value.name == current.Base().value.name
  }

  /** Some tag carries both and is of the running family, and no tag of another family carrying both is listed before it. */
  ghost predicate OwnCarrierComesFirst(current: TagVersion, readings: seq<Option<TagVersion>>)
  {
    exists k: nat ::
      && k < |readings| && CarriesBoth(current, readings, k) && OfRunningFamily(current, readings[k])
      && forall j: nat | j < k && CarriesBoth(current, readings, j) :: OfRunningFamily(current, readings[j])
  }

  /** The combined tag is the first carrier of the greatest versions on offer, if the running tag can have one. */
  lemma CombinedIsFirstOfCarriers(current: TagVersion, tags: seq<string>, readings: seq<Option<TagVersion>>, cs: CandidateSet)
    requires Analyzed(current, tags, readings, cs)
    ensures cs.combined.Some? <==>
      current.IsComposite() && !LosesFamily(current, readings) && exists j: nat | j < |readings| :: CarriesBoth(current, readings, j)
    ensures cs.combined.Some? ==> exists k: nat ::
      && k < |readings| && tags[k] == cs.combined.value.tag && CarriesBoth(current, readings, k)
      && forall j: nat | j < k :: !CarriesBoth(current, readings, j)
  {
    hide Carries, IsAnalysisOf, Selects, LosesFamily, BestOf;
    BestIsNewest(current, tags, readings, cs);
    BaseIsSelected(current, tags, readings, cs);
    WinnerIsGreatest(tags, Offers(NewerBase, current, readings), cs.baseAdvancement);
    CombinedIsSoundAndComplete(current, tags, readings, cs);
    if LosesFamily(current, readings) {
      LostFamilyHasNoBest(current, tags, readings, cs);
    } else {
      WinnerIsGreatest(tags, Newest(current, readings), BestOf(cs));
      if cs.combined.Some? {
        CombinedIsFirstCarrier(current, tags, readings, cs);
        var k: nat :| IsFirstCarrier(tags, readings, BestOf(cs).value.version, cs.baseAdvancement.value.version, k, cs.combined.value);
        assert CarriesBoth(current, readings, k);
        assert forall j: nat | j < k :: !CarriesBoth(current, readings, j);
      }
      if j: nat :| j < |readings| && CarriesBoth(current, readings, j) {
        assert Carries(readings[j], BestOf(cs).value.version, cs.baseAdvancement.value.version);
      }
    }
  }

  /**
    The combined tag need not be of the running base family: base names are not compared. For every running
    tag and tag list, one that exists is of that family exactly when, among the tags carrying both greatest
    versions, one of the family is listed before every one of another.
  */
  lemma CombinedKeepsFamilyIff(currentRaw: string, tags: seq<string>)
    ensures
      var cs, readings := Analysis(currentRaw, tags), Readings(currentRaw, tags);
      cs.combined.Some? ==>
        (OfRunningFamily(cs.current, Some(ParsedTag(cs.combined.value.tag))) <==> OwnCarrierComesFirst(cs.current, readings))
  {
    hide ParsedTag, FirstUsable, CarriesBoth, IsAnalysisOf, LosesFamily;
    var cs, readings := Analysis(currentRaw, tags), Readings(currentRaw, tags);
    var current := cs.current;
    if cs.combined.Some? {
      CombinedNeedsApplication(currentRaw, tags);
      AnalysisIsAnalyzed(currentRaw, tags);
      CombinedIsFirstOfCarriers(current, tags, readings, cs);
      var k: nat :| k < |readings| && tags[k] == cs.combined.value.tag && CarriesBoth(current, readings, k)
        && forall j: nat | j < k :: !CarriesBoth(current, readings, j);
      CarrierIsRead(current, readings, k);
      assert readings[k] == Some(ParsedTag(tags[k]));
    }
  }

  lemma CarrierIsRead(current: TagVersion, readings: seq<Option<TagVersion>>, k: nat)
    requires k < |readings| && CarriesBoth(current, readings, k)
    ensures readings[k].Some?
  {
  }

  lemma CombinedNeedsApplication(currentRaw: string, tags: seq<string>)
    requires Analysis(currentRaw, tags).combined.Some?
    ensures ParsedTag(currentRaw).Application().Some?
  {
    hide ParsedTag, FirstUsable;
  }

  // -------------------------------------------------------- the two exceptions

  lemma CompositeReading(currentRaw: string, app: SemVer, family: string, base: SemVer, tags: seq<string>, i: nat)
    requires app.Normal() && base.Normal() && family in KNOWN_BASE_FAMILIES
    requires i < |tags| && tags[i] == CompositeText(app, family, base) && tags[i] != currentRaw
    ensures
      var r := Readings(currentRaw, tags)[i];
      && r == Some(ParsedTag(tags[i])) && r.value.IsComposite()
      && r.value.Application().Some? && r.value.Application().value.version == Reading(app)
      && r.value.Base().Some? && r.value.Base().value.version == Reading(base) && r.value.Base().value.name == family
  {
    hide ParsedTag, FirstUsable;
    CompositeTagReadsBack(app, family, base);
  }

  lemma CompositeTextsDiffer(app: SemVer, family: string, base: SemVer, app': SemVer, family': string, base': SemVer)
    requires app.Normal() && base.Normal() && family in KNOWN_BASE_FAMILIES
    requires app'.Normal() && base'.Normal() && family' in KNOWN_BASE_FAMILIES
    requires app.Compare(app') != 0 || family != family' || base.Compare(base') != 0
    ensures CompositeText(app, family, base) != CompositeText(app', family', base')
  {
    hide ParsedTag, FirstUsable, CompositeText;
    CompositeTagReadsBack(app, family, base);
    CompositeTagReadsBack(app', family', base');
  }

  /**
    The first exception is real: a running 16-alpine3.22 is told nothing about 16.1-alpine3.22, for every
    major, every minor above zero, every family and every base version.
  */
  lemma MajorCompositeMissesItsOwnMajor(major: nat, minor: nat, family: string, base: SemVer)
    requires major <= MAX_INT && 0 < minor <= MAX_INT && family in KNOWN_BASE_FAMILIES && base.Normal()
    ensures
      var running := CompositeText(SemVer(major, 0, 0, "", Precision.Major, ""), family, base);
      var newer := CompositeText(SemVer(major, minor, 0, "", Precision.Minor, ""), family, base);
      var cs := Analysis(running, [newer]);
      && BestOf(cs).None? && cs.combined.None?
      && SameShape(cs.current, ParsedTag(newer))
      && ParsedTag(newer).Application().value.version.Newer(cs.current.Application().value.version)
  {
    hide ParsedTag, FirstUsable, CompositeText, IsAnalysisOf, BestOf;
    var a, b := SemVer(major, 0, 0, "", Precision.Major, ""), SemVer(major, minor, 0, "", Precision.Minor, "");
    var running, newer := CompositeText(a, family, base), CompositeText(b, family, base);
    var cs := Analysis(running, [newer]);
    var readings := Readings(running, [newer]);
    CompositeTagReadsBack(a, family, base);
    CompositeTextsDiffer(a, family, base, b, family, base);
    CompositeReading(running, b, family, base, [newer], 0);
    ReadingKeepsNumbers(a);
    var current := cs.current;
    assert Offers(InSlot(MajorSlot), current, readings)[0].None?;
    assert Offers(InSlot(FamilySlot), current, readings)[0].Some?;
    assert LosesFamily(current, readings);
    LostFamilyHasNoBest(current, [newer], readings, cs);
    CombinedIsSoundAndComplete(current, [newer], readings, cs);
  }

  lemma ReadingKeepsNumbers(v: SemVer)
    requires v.Normal()
    ensures Reading(v).Normal() && Reading(v).Numbers() == v.Numbers()
  {
  }

  const APP := SemVer(1, 2, 3, "", Precision.Patch, "")
  const NEXT_APP := SemVer(1, 2, 4, "", Precision.Patch, "")
  const BASE := SemVer(3, 22, 0, "", Precision.Minor, "")
  const NEXT_BASE := SemVer(3, 23, 0, "", Precision.Minor, "")

  /** 1.2.3-alpine3.22 */
  function ExampleRunning(): string
  {
    CompositeText(APP, "alpine", BASE)
  }

  /** 1.2.4-alpine3.22, 1.2.3-alpine3.23 and 1.2.4-debian3.23 */
  function ExampleTags(): seq<string>
  {
    [CompositeText(NEXT_APP, "alpine", BASE), CompositeText(APP, "alpine", NEXT_BASE), CompositeText(NEXT_APP, "debian", NEXT_BASE)]
  }

  ghost predicate ReadsAs(t: TagVersion, app: SemVer, family: string, base: SemVer)
  {
    && t.IsComposite()
    && t.Application().Some? && t.Application().value.version == Reading(app)
    && t.Base().Some? && t.Base().value.version == Reading(base) && t.Base().value.name == family
  }

  lemma ExampleReads()
    ensures ReadsAs(ParsedTag(ExampleRunning()), APP, "alpine", BASE)
    ensures
      var rs := Readings(ExampleRunning(), ExampleTags());
      && rs[0].Some? && ReadsAs(rs[0].value, NEXT_APP, "alpine", BASE)
      && rs[1].Some? && ReadsAs(rs[1].value, APP, "alpine", NEXT_BASE)
      && rs[2].Some? && ReadsAs(rs[2].value, NEXT_APP, "debian", NEXT_BASE)
      && rs[2].value == ParsedTag(ExampleTags()[2])
  {
    hide ParsedTag, FirstUsable, CompositeText, Reading;
    CompositeTagReadsBack(APP, "alpine", BASE);
    CompositeTextsDiffer(APP, "alpine", BASE, NEXT_APP, "alpine", BASE);
    CompositeTextsDiffer(APP, "alpine", BASE, APP, "alpine", NEXT_BASE);
    CompositeTextsDiffer(APP, "alpine", BASE, NEXT_APP, "debian", NEXT_BASE);
    CompositeReading(ExampleRunning(), NEXT_APP, "alpine", BASE, ExampleTags(), 0);
    CompositeReading(ExampleRunning(), APP, "alpine", NEXT_BASE, ExampleTags(), 1);
    CompositeReading(ExampleRunning(), NEXT_APP, "debian", NEXT_BASE, ExampleTags(), 2);
  }

  /** The second exception is real: the tag combining an alpine winner and an alpine base may be a debian tag. */
  lemma CombinedMayChangeFamily()
    ensures
      var cs := Analysis(ExampleRunning(), ExampleTags());
      && cs.combined.Some? && cs.combined.value.tag == ExampleTags()[2]
      && cs.current.Base().Some? && cs.current.Base().value.name == "alpine"
      && ParsedTag(cs.combined.value.tag).Base().Some?
      && ParsedTag(cs.combined.value.tag).Base().value.name == "debian"
  {
    hide ParsedTag, FirstUsable, CompositeText, IsAnalysisOf, BestOf, ExampleRunning;
    ExampleReads();
    ReadingKeepsNumbers(APP);
    var cs := Analysis(ExampleRunning(), ExampleTags());
    var current, readings := cs.current, Readings(ExampleRunning(), ExampleTags());
    assert Offers(AnyNewerApplication, current, readings) == [Some(Reading(NEXT_APP)), None, Some(Reading(NEXT_APP))];
    assert Offers(NewerBase, current, readings) == [None, Some(Reading(NEXT_BASE)), None];
    CombinedOfThree(current, ExampleTags(), readings, cs, Reading(NEXT_APP), Reading(NEXT_BASE));
  }

  /** Three tags, of which the first wins the application, the second the base, and only the third carries both. */
  lemma CombinedOfThree(current: TagVersion, tags: seq<string>, readings: seq<Option<TagVersion>>, cs: CandidateSet,
                        app: SemVer, base: SemVer)
    requires |tags| == 3 && Analyzed(current, tags, readings, cs)
    requires current.IsComposite() && current.Application().value.version.precision == Precision.Patch
    requires Offers(AnyNewerApplication, current, readings) == [Some(app), None, Some(app)]
    requires Offers(NewerBase, current, readings) == [None, Some(base), None]
    requires !Carries(readings[0], app, base) && !Carries(readings[1], app, base) && Carries(readings[2], app, base)
    ensures cs.combined.Some? && cs.combined.value.tag == tags[2]
  {
    hide IsAnalysisOf, Offer, Carries, BestOf;
    BestIsNewest(current, tags, readings, cs);
    assert Newest(current, readings)[0].Some?;
    assert BestOf(cs).Some? && BestOf(cs).value.version == app;
    BaseIsSelected(current, tags, readings, cs);
    assert Offers(NewerBase, current, readings)[1].Some?;
    assert cs.baseAdvancement.Some? && cs.baseAdvancement.value.version == base;
    assert Carries(readings[2], BestOf(cs).value.version, cs.baseAdvancement.value.version);
    CombinedIsSoundAndComplete(current, tags, readings, cs);
    CombinedIsFirstCarrier(current, tags, readings, cs);
  }

  lemma BaseIsSelected(current: TagVersion, tags: seq<string>, readings: seq<Option<TagVersion>>, cs: CandidateSet)
    requires Analyzed(current, tags, readings, cs)
    ensures Selects(tags, Offers(NewerBase, current, readings), cs.baseAdvancement)
  {
  }

  lemma CombinedIsFirstCarrier(current: TagVersion, tags: seq<string>, readings: seq<Option<TagVersion>>, cs: CandidateSet)
    requires Analyzed(current, tags, readings, cs) && cs.combined.Some?
    ensures BestOf(cs).Some? && cs.baseAdvancement.Some?
    ensures exists k: nat ::
      IsFirstCarrier(tags, readings, BestOf(cs).value.version, cs.baseAdvancement.value.version, k, cs.combined.value)
  {
  }

  // ------------------------------------------------------- releases in a row

  function TextsOf(vs: seq<SemVer>): (texts: seq<string>)
    ensures |texts| == |vs|
    ensures forall i | 0 <= i < |vs| :: texts[i] == vs[i].String()
  {
    seq(|vs|, i requires 0 <= i < |vs| => vs[i].String())
  }

  predicate IsLaterPatch(v: SemVer, w: SemVer)
  {
    v.precision == w.precision == Precision.Patch && w.major == v.major && w.minor == v.minor && w.patch > v.patch
  }

  /** Ever newer patch releases of a plain version. */
  ghost predicate ArePatches(v: SemVer, ws: seq<SemVer>)
  {
    && v.Normal() && v.precision == Precision.Patch
    && (forall i | 0 <= i < |ws| :: ws[i].Normal() && IsLaterPatch(v, ws[i]))
    && (forall i, j | 0 <= i < j < |ws| :: IsLaterPatch(ws[i], ws[j]))
  }

  lemma PatchOffers(v: SemVer, w: SemVer)
    requires v.Normal() && w.Normal() && IsLaterPatch(v, w)
    ensures v.String() != w.String()
    ensures
      var current, reading := ParsedTag(v.String()), Some(ParsedTag(w.String()));
      && Offer(InSlot(PatchSlot), current, reading) == Some(Reading(w))
      && Offer(InSlot(MinorSlot), current, reading).None? && Offer(InSlot(MajorSlot), current, reading).None?
      && Offer(InSlot(FamilySlot), current, reading).None? && Offer(NewerBase, current, reading).None?
  {
    hide ParsedTag, FirstUsable, SemVer.String, HasRole;
    PlainTagReadsBack(v);
    PlainTagReadsBack(w);
    ReadingKeepsNumbers(v);
    ReadingKeepsNumbers(w);
  }

  /** Of patch releases listed in order the last is the patch candidate, and there is no other. */
  lemma LastPatchIsChosen(v: SemVer, ws: seq<SemVer>)
    requires ArePatches(v, ws) && ws != []
    ensures
      var last := ws[|ws| - 1];
      Analysis(v.String(), TextsOf(ws)) ==
        EmptySet(v.String(), ParsedTag(v.String())).(patch := Some(Candidate(last.String(), Reading(last))))
  {
    hide ParsedTag, FirstUsable, SemVer.String, HasRole, Offer, IsCombination;
    var current, tags := ParsedTag(v.String()), TextsOf(ws);
    var readings, last := Readings(v.String(), tags), ws[|ws| - 1];
    var cs := Analysis(v.String(), tags);
    PlainTagReadsBack(v);
    forall i | 0 <= i < |ws|
      ensures Offers(InSlot(PatchSlot), current, readings)[i] == Some(Reading(ws[i]))
      ensures Offers(InSlot(MinorSlot), current, readings)[i].None? && Offers(InSlot(MajorSlot), current, readings)[i].None?
      ensures Offers(InSlot(FamilySlot), current, readings)[i].None? && Offers(NewerBase, current, readings)[i].None?
    {
      PatchOffers(v, ws[i]);
    }
    LastIsFirstGreatest(ws, tags, Offers(InSlot(PatchSlot), current, readings));
    NothingOffered(tags, Offers(InSlot(MinorSlot), current, readings), cs.minor);
    NothingOffered(tags, Offers(InSlot(MajorSlot), current, readings), cs.major);
    NothingOffered(tags, Offers(InSlot(FamilySlot), current, readings), cs.familyAdvancement);
    NothingOffered(tags, Offers(NewerBase, current, readings), cs.baseAdvancement);
    SelectsUnique(tags, Offers(InSlot(PatchSlot), current, readings), cs.patch, Some(Candidate(last.String(), Reading(last))));
    PlainHasNoCombined(tags, readings, cs);
  }

  lemma LastIsFirstGreatest(ws: seq<SemVer>, tags: seq<string>, offers: seq<Option<SemVer>>)
    requires |tags| == |ws| == |offers| > 0 && (forall i, j | 0 <= i < j < |ws| :: IsLaterPatch(ws[i], ws[j]))
    requires forall i | 0 <= i < |ws| :: offers[i] == Some(Reading(ws[i])) && tags[i] == ws[i].String()
    ensures Selects(tags, offers, Some(Candidate(tags[|ws| - 1], Reading(ws[|ws| - 1]))))
  {
    hide SemVer.String;
    assert IsFirstGreatest(tags, offers, |ws| - 1, Candidate(tags[|ws| - 1], Reading(ws[|ws| - 1])));
  }

  lemma NothingOffered(tags: seq<string>, offers: seq<Option<SemVer>>, c: Option<Candidate>)
    requires |tags| == |offers| && Selects(tags, offers, c)
    requires forall i | 0 <= i < |offers| :: offers[i].None?
    ensures c.None?
  {
  }

  lemma PlainHasNoCombined(tags: seq<string>, readings: seq<Option<TagVersion>>, cs: CandidateSet)
    requires |tags| == |readings| && IsCombination(tags, readings, false, FirstPresent(Precedence(cs)), cs.baseAdvancement, cs.combined)
    ensures cs.combined.None?
  {
  }
}
