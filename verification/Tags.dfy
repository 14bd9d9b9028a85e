/** internal/version/family.go, composite.go and resolver.go: what the parts of a tag mean. */
module Tags {
  import opened Prelude
  import opened Text
  import opened SemVers

  // ------------------------------------------------------------ base families

  const KNOWN_BASE_FAMILIES: seq<string> :=
    ["alpine", "debian", "ubuntu", "bookworm", "bullseye", "jammy", "noble"]

  /** ^(family)(\d+(?:\.\d+)*)?$ for one family. */
  predicate IsFamilyToken(s: string, family: string)
  {
    family <= s && (s == family || MatchesCore(s[|family|..], |s|))
  }

  /** The version attached to a family token; none, or one that is no version core, gives the zero version. */
  function FamilyVersion(attached: string): SemVer
  {
    if attached == "" then ZERO
    else
      match Parsed(attached)
      case Success(v) => v
      case Failure(_) => ZERO
  }

  function MatchFamily(s: string, families: seq<string>): Option<(string, SemVer)>
  {
    if families == [] then None
    else if IsFamilyToken(s, families[0]) then Some((families[0], FamilyVersion(s[|families[0]|..])))
    else MatchFamily(s, families[1..])
  }

  function MatchBaseFamily(s: string): Option<(string, SemVer)>
  {
    MatchFamily(s, KNOWN_BASE_FAMILIES)
  }

  // --------------------------------------------------------------- components

  datatype Role = Application | Base

  datatype Confidence = High | Low

  datatype VersionComponent =
    VersionComponent(role: Role, name: string, version: SemVer, confidence: Confidence, raw: string)
  {
    predicate Usable()
    {
      confidence == High
    }
  }

  function FirstUsable(components: seq<VersionComponent>, role: Role): Option<VersionComponent>
  {
    if components == [] then None
    else if components[0].role == role && components[0].Usable() then Some(components[0])
    else FirstUsable(components[1..], role)
  }

  predicate HasRole(components: seq<VersionComponent>, role: Role)
  {
    exists i | 0 <= i < |components| :: components[i].role == role
  }

  datatype TagVersion = TagVersion(raw: string, components: seq<VersionComponent>) {
    function Application(): Option<VersionComponent>
    {
      FirstUsable(components, Role.Application)
    }

    function Base(): Option<VersionComponent>
    {
      FirstUsable(components, Role.Base)
    }

    /** Usability is not asked for: a low-confidence segment makes a tag composite, too. */
    predicate IsComposite()
    {
      HasRole(components, Role.Application) && HasRole(components, Role.Base)
    }

    predicate IsOpaque()
    {
      |components| == 0
    }
  }

  method FindUsable(components: seq<VersionComponent>, role: Role) returns (r: Option<VersionComponent>)
    ensures r == FirstUsable(components, role)
  {
    for i := 0 to |components|
      invariant FirstUsable(components, role) == FirstUsable(components[i..], role)
    {
      if components[i].role == role && components[i].Usable() {
        return Some(components[i]);
      }
    }
    return None;
  }

  method CheckComposite(t: TagVersion) returns (r: bool)
    ensures r == t.IsComposite()
  {
    var hasApp, hasBase := false, false;
    for i := 0 to |t.components|
      invariant hasApp == HasRole(t.components[..i], Role.Application)
      invariant hasBase == HasRole(t.components[..i], Role.Base)
    {
      assert t.components[..i + 1] == t.components[..i] + [t.components[i]];
      HasRoleAppend(t.components[..i], t.components[i]);
      match t.components[i].role {
        case Application => hasApp := true;
        case Base => hasBase := true;
      }
    }
    assert t.components[..|t.components|] == t.components;
    r := hasApp && hasBase;
  }

  lemma HasRoleAppend(components: seq<VersionComponent>, c: VersionComponent)
    ensures forall role :: HasRole(components + [c], role) <==> HasRole(components, role) || c.role == role
  {
    var all := components + [c];
    forall role ensures HasRole(all, role) <==> HasRole(components, role) || c.role == role {
      assert all[|components|] == c;
      if HasRole(components, role) {
        var i :| 0 <= i < |components| && components[i].role == role;
        assert all[i].role == role;
      }
    }
  }

  // ------------------------------------------------------------------ parsing

  datatype Segment =
    | Blank
    | Release(component: VersionComponent)
    | Other(component: VersionComponent)

  /** What one dash-separated segment is: nothing, an application version, or anything else. */
  function Classify(seg: string): (k: Segment)
    ensures k.Release? ==> k.component.role == Role.Application && k.component.Usable() && k.component.version.Normal()
    ensures k.Other? ==> k.component.role == Role.Base
    ensures !k.Blank? ==> k.component.raw == seg
  {
    if seg == "" then Blank
    else
      match MatchBaseFamily(seg)
      case Some((family, ver)) => Other(VersionComponent(Role.Base, family, ver, High, seg))
      case None =>
        if IsVersionToken(seg) && Parsed(seg).Success? then
          ParsedIsNormal(seg);
          Release(VersionComponent(Role.Application, "", Parsed(seg).value, High, seg))
        else
          Other(VersionComponent(Role.Base, "", ZERO, Low, seg))
  }

  function Kinds(segments: seq<string>): (kinds: seq<Segment>)
    ensures |kinds| == |segments|
    ensures forall i | 0 <= i < |segments| :: kinds[i] == Classify(segments[i])
  {
    seq(|segments|, i requires 0 <= i < |segments| => Classify(segments[i]))
  }

  /** The components of the segments that are neither blank nor a release, in order. */
  function Others(kinds: seq<Segment>): seq<VersionComponent>
  {
    if kinds == [] then []
    else
      var front, k := Others(kinds[..|kinds| - 1]), kinds[|kinds| - 1];
      if k.Other? then front + [k.component] else front
  }

  function Rank(c: VersionComponent): nat
  {
    c.version.precision.Rank()
  }

  /** The release a scan keeps: a later one replaces it only when strictly more precise. */
  function BestRelease(kinds: seq<Segment>): (best: Option<VersionComponent>)
  {
    if kinds == [] then None
    else
      var best, k := BestRelease(kinds[..|kinds| - 1]), kinds[|kinds| - 1];
      if k.Release? && (best.None? || Rank(k.component) > Rank(best.value)) then Some(k.component) else best
  }

  function SegmentsTag(raw: string, segments: seq<string>): TagVersion
  {
    var kinds := Kinds(segments);
    match BestRelease(kinds)
    case None => TagVersion(raw, Others(kinds))
    case Some(app) => TagVersion(raw, [app] + Others(kinds))
  }

  predicate IsBareVersion(raw: string)
  {
    raw != "" && IsVersionToken(raw) && Parsed(raw).Success?
  }

  function ParsedTag(raw: string): TagVersion
  {
    if IsBareVersion(raw) then
      TagVersion(raw, [VersionComponent(Role.Application, "", Parsed(raw).value, High, raw)])
    else
      var segments := Split(raw, '-');
      if |segments| >= 2 then SegmentsTag(raw, segments) else TagVersion(raw, [])
  }

  method SplitOnDash(raw: string) returns (segs: seq<string>)
    ensures segs == Split(raw, '-')
    ensures Join(segs, '-') == raw
  {
    hide Split, Join;
    segs := [];
    var start := 0;
    for i := 0 to |raw|
      invariant 0 <= start <= i
      invariant forall k | start <= k < i :: raw[k] != '-'
      invariant Split(raw, '-') == segs + Split(raw[start..], '-')
    {
      if raw[i] == '-' {
        SplitStep(raw, start, i, '-');
        assert segs + ([raw[start..i]] + Split(raw[i + 1..], '-')) == segs + [raw[start..i]] + Split(raw[i + 1..], '-');
        segs := segs + [raw[start..i]];
        start := i + 1;
      }
    }
    SplitWhole(raw[start..], '-');
    segs := segs + [raw[start..]];
    JoinOfSplit(raw, '-');
  }

  lemma SplitStep(raw: string, start: nat, i: nat, c: char)
    requires start <= i < |raw| && raw[i] == c
    requires forall k | start <= k < i :: raw[k] != c
    ensures Split(raw[start..], c) == [raw[start..i]] + Split(raw[i + 1..], c)
  {
    assert raw[start..] == raw[start..i] + [c] + raw[i + 1..];
    SplitHead(raw[start..i], raw[i + 1..], c);
  }

  method ParseSegments(raw: string, segments: seq<string>) returns (t: TagVersion)
    ensures t == SegmentsTag(raw, segments)
  {
    ghost var kinds := Kinds(segments);
    var components: seq<VersionComponent> := [];
    var bestApp: Option<VersionComponent> := None;
    for i := 0 to |segments|
      invariant components == Others(kinds[..i])
      invariant bestApp == BestRelease(kinds[..i])
    {
      var seg := segments[i];
      assert kinds[..i + 1][..i] == kinds[..i] && kinds[i] == Classify(seg);
      if seg == "" {
        continue;
      }
      var base := MatchBaseFamily(seg);
      if base.Some? {
        components := components + [VersionComponent(Role.Base, base.value.0, base.value.1, High, seg)];
        continue;
      }
      if IsVersionToken(seg) {
        var v := ParseSemVer(seg);
        if v.Success? {
          var candidate := VersionComponent(Role.Application, "", v.value, High, seg);
          if bestApp.None? || v.value.precision.Rank() > bestApp.value.version.precision.Rank() {
            bestApp := Some(candidate);
          }
          continue;
        }
      }
      components := components + [VersionComponent(Role.Base, "", ZERO, Low, seg)];
    }
    assert kinds[..|segments|] == kinds;
    if bestApp.Some? {
      components := [bestApp.value] + components;
    }
    t := TagVersion(raw, components);
  }

  method ParseTag(raw: string) returns (t: TagVersion)
    ensures t == ParsedTag(raw)
  {
    if raw == "" {
      return TagVersion(raw, []);
    }
    if IsVersionToken(raw) {
      var v := ParseSemVer(raw);
      if v.Success? {
        return TagVersion(raw, [VersionComponent(Role.Application, "", v.value, High, raw)]);
      }
    }
    var segments := SplitOnDash(raw);
    if |segments| >= 2 {
      t := ParseSegments(raw, segments);
    } else {
      t := TagVersion(raw, []);
    }
  }

  // ------------------------------------------------------- structure theorems

  ghost predicate IsLeftmostMostPrecise(kinds: seq<Segment>, k: nat, app: VersionComponent)
  {
    && k < |kinds|
    && kinds[k] == Release(app)
    && (forall j | 0 <= j < |kinds| && kinds[j].Release? :: Rank(kinds[j].component) <= Rank(app))
    && (forall j | 0 <= j < k && kinds[j].Release? :: Rank(kinds[j].component) < Rank(app))
  }

  /** The application component is the leftmost release of the highest precision, if there is any release. */
  lemma {:induction false} BestReleaseIsLeftmostMostPrecise(kinds: seq<Segment>)
    ensures BestRelease(kinds).None? ==> forall j | 0 <= j < |kinds| :: !kinds[j].Release?
    ensures BestRelease(kinds).Some? ==> exists k: nat :: IsLeftmostMostPrecise(kinds, k, BestRelease(kinds).value)
  {
    if kinds != [] {
      var n := |kinds| - 1;
      var front := kinds[..n];
      BestReleaseIsLeftmostMostPrecise(front);
      var best, last := BestRelease(front), kinds[n];
      if last.Release? && (best.None? || Rank(last.component) > Rank(best.value)) {
        if best.Some? {
          var k: nat :| IsLeftmostMostPrecise(front, k, best.value);
        }
        assert IsLeftmostMostPrecise(kinds, n, last.component);
      } else if best.Some? {
        var k: nat :| IsLeftmostMostPrecise(front, k, best.value);
        assert IsLeftmostMostPrecise(kinds, k, best.value);
      }
    }
  }

  /** The positions, in strictly increasing order, of the segments that became the other components. */
  ghost predicate IsOrderedSelection(at: seq<nat>, kinds: seq<Segment>, components: seq<VersionComponent>)
  {
    && |at| == |components|
    && (forall i, j | 0 <= i < j < |at| :: at[i] < at[j])
    && (forall j | 0 <= j < |at| :: at[j] < |kinds| && kinds[at[j]] == Other(components[j]))
    && (forall k | 0 <= k < |kinds| && kinds[k].Other? :: k in at)
  }

  /** Every segment that is neither blank nor a release becomes exactly one component, in order, and nothing else does. */
  lemma {:induction false} OthersKeepEverySegmentOnce(kinds: seq<Segment>)
    ensures exists at: seq<nat> :: IsOrderedSelection(at, kinds, Others(kinds))
  {
    if kinds == [] {
      var none: seq<nat> := [];
      assert IsOrderedSelection(none, kinds, Others(kinds));
    } else {
      var n := |kinds| - 1;
      var front := kinds[..n];
      OthersKeepEverySegmentOnce(front);
      var at: seq<nat> :| IsOrderedSelection(at, front, Others(front));
      assert kinds == front + [kinds[n]];
      if kinds[n].Other? {
        SelectOneMore(at, front, Others(front), kinds[n]);
        assert IsOrderedSelection(at + [n], kinds, Others(kinds));
      } else {
        SelectNoMore(at, front, Others(front), kinds[n]);
        assert IsOrderedSelection(at, kinds, Others(kinds));
      }
    }
  }

  lemma SelectNoMore(at: seq<nat>, kinds: seq<Segment>, components: seq<VersionComponent>, last: Segment)
    requires IsOrderedSelection(at, kinds, components) && !last.Other?
    ensures IsOrderedSelection(at, kinds + [last], components)
  {
  }

  lemma SelectOneMore(at: seq<nat>, kinds: seq<Segment>, components: seq<VersionComponent>, last: Segment)
    requires IsOrderedSelection(at, kinds, components) && last.Other?
    ensures IsOrderedSelection(at + [|kinds|], kinds + [last], components + [last.component])
  {
  }

  lemma {:induction false} OthersAreBases(kinds: seq<Segment>)
    requires forall i | 0 <= i < |kinds| :: kinds[i].Other? ==> kinds[i].component.role == Role.Base
    ensures forall i | 0 <= i < |Others(kinds)| :: Others(kinds)[i].role == Role.Base
  {
    if kinds != [] {
      OthersAreBases(kinds[..|kinds| - 1]);
    }
  }

  lemma {:induction false} NoUsableRole(components: seq<VersionComponent>, role: Role)
    requires !HasRole(components, role)
    ensures FirstUsable(components, role) == None
  {
    if components != [] {
      assert components[0].role != role;
      assert forall i | 0 <= i < |components[1..]| :: components[1..][i] == components[i + 1];
      NoUsableRole(components[1..], role);
    }
  }

  /**
    The shape of every parsed tag: an application component can only be the first one, it is always usable
    with a known precision, and the tag is composite exactly when some further component follows it.
  */
  lemma TagShape(raw: string)
    ensures
      var t := ParsedTag(raw);
      && (forall i | 0 <= i < |t.components| :: t.components[i].role == Role.Application ==> i == 0)
      && (t.Application().Some? <==> t.components != [] && t.components[0].role == Role.Application)
      && (t.Application().Some? ==> t.Application().value == t.components[0] && t.components[0].version.Normal())
      && (t.IsComposite() <==> t.Application().Some? && |t.components| >= 2)
      && (t.Application().Some? && t.Base().Some? ==> t.IsComposite())
  {
    hide Parsed, Split, MatchesCore, Others, BestRelease;
    var t := ParsedTag(raw);
    var segments := Split(raw, '-');
    OthersAreBases(Kinds(segments));
    BestReleaseIsLeftmostMostPrecise(Kinds(segments));
    if IsBareVersion(raw) {
      ParsedIsNormal(raw);
    }
    if !HasRole(t.components, Role.Application) {
      NoUsableRole(t.components, Role.Application);
    }
    if !HasRole(t.components, Role.Base) {
      NoUsableRole(t.components, Role.Base);
    }
    if |t.components| >= 2 {
      assert t.components[1].role == Role.Base;
    }
  }

  ghost predicate SomeRelease(kinds: seq<Segment>)
  {
    exists k | 0 <= k < |kinds| :: kinds[k].Release?
  }

  lemma {:induction false} BestReleaseExists(kinds: seq<Segment>)
    ensures BestRelease(kinds).Some? <==> SomeRelease(kinds)
  {
    BestReleaseIsLeftmostMostPrecise(kinds);
    if BestRelease(kinds).Some? {
      var k: nat :| IsLeftmostMostPrecise(kinds, k, BestRelease(kinds).value);
      assert kinds[k].Release?;
    }
  }

  /** A tag has an application version exactly when one of its dash-separated segments is a release. */
  lemma HasApplicationIffSomeRelease(raw: string)
    ensures ParsedTag(raw).Application().Some? <==> SomeRelease(Kinds(Split(raw, '-')))
  {
    var segments := Split(raw, '-');
    TagShape(raw);
    BestReleaseExists(Kinds(segments));
    if IsBareVersion(raw) {
      BareVersionIsOneRelease(raw);
      assert Kinds(segments)[0].Release?;
    } else if |segments| == 1 {
      JoinOfSplit(raw, '-');
      assert segments == [raw];
    } else {
      SegmentsTagHasRelease(raw, segments);
    }
  }

  lemma SegmentsTagHasRelease(raw: string, segments: seq<string>)
    ensures
      var t := SegmentsTag(raw, segments);
      t.components != [] && t.components[0].role == Role.Application <==> BestRelease(Kinds(segments)).Some?
  {
    OthersAreBases(Kinds(segments));
    BestReleaseIsLeftmostMostPrecise(Kinds(segments));
  }

  lemma BareVersionIsOneRelease(raw: string)
    requires IsBareVersion(raw)
    ensures Split(raw, '-') == [raw] && Classify(raw).Release?
  {
    var t := TrimPrefix(raw, "v");
    CoreIsDottedDigits(t, 2);
    JoinOfSplit(t, '.');
    JoinedDigitsHaveNoSuffix(Split(t, '.'));
    if "v" <= raw {
      assert raw == "v" + t;
    }
    assert '-' !in raw;
    SplitWhole(raw, '-');
    assert DigitRun(t) > 0 && IsDigit(t[0]);
    NoFamilyStartsADigit(raw, KNOWN_BASE_FAMILIES);
  }

  predicate StartsLikeVersion(s: string)
  {
    |s| > 0 && (IsDigit(s[0]) || (s[0] == 'v' && |s| > 1 && IsDigit(s[1])))
  }

  lemma {:induction false} NoFamilyStartsADigit(s: string, families: seq<string>)
    requires StartsLikeVersion(s)
    requires forall f <- families :: f in KNOWN_BASE_FAMILIES
    ensures MatchFamily(s, families).None?
  {
    if families != [] {
      var f := families[0];
      FamilyStartsWithLetter(f);
      assert f[0] != s[0];
      NoFamilyStartsADigit(s, families[1..]);
    }
  }

  lemma FamilyStartsWithLetter(f: string)
    requires f in KNOWN_BASE_FAMILIES
    ensures |f| > 0 && 'a' <= f[0] < 'v'
  {
  }

  // ----------------------------------------------------- composite round trip

  /** The text of a composite tag such as 1.2.3-alpine3.22. */
  function CompositeText(app: SemVer, family: string, base: SemVer): string
  {
    app.String() + "-" + (family + base.String())
  }

  /** A version as its own rendering parses: the same numbers, no suffix. */
  function Reading(v: SemVer): SemVer
  {
    v.(raw := v.String(), prerelease := "")
  }

  lemma NormalIsItsNumbers(v: SemVer)
    requires v.Normal()
    ensures SemVerOf(v.Numbers(), "", v.String()) == Reading(v)
  {
  }

  lemma NormalTextParses(v: SemVer)
    requires v.Normal()
    ensures Parsed(v.String()) == Success(Reading(v))
  {
    hide Parsed, SemVer.String, SemVer.Numbers;
    RenderedVersionParsesBack(v, "");
    assert "" + v.String() == v.String();
    NormalIsItsNumbers(v);
  }

  lemma NormalTextIsToken(v: SemVer)
    requires v.Normal()
    ensures IsVersionToken(v.String()) && MatchesCore(v.String(), 2)
    ensures StartsLikeVersion(v.String()) && '-' !in v.String()
  {
    hide Parsed, SemVer.String, Join, Split, Itoa;
    var text, texts := v.String(), Itoas(v.Numbers());
    StringIsJoin(v);
    forall k | 0 <= k < |texts| ensures '.' !in texts[k] {
      DigitsHaveNoSeparator(texts[k]);
    }
    SplitOfJoin(texts, '.');
    CoreIsDottedDigits(text, 2);
    StringHasNoSuffix(v);
    assert DigitRun(text) > 0 && AllDigits(text[..DigitRun(text)]) && IsDigit(text[..DigitRun(text)][0]);
  }

  lemma NormalTextReads(v: SemVer)
    requires v.Normal()
    ensures Parsed(v.String()) == Success(Reading(v))
    ensures IsVersionToken(v.String()) && MatchesCore(v.String(), 2)
    ensures StartsLikeVersion(v.String()) && '-' !in v.String()
  {
    hide *;
    NormalTextParses(v);
    NormalTextIsToken(v);
  }

  /** No known family can be mistaken for another: their first two letters differ. */
  lemma FamiliesDiffer(f: string, g: string)
    requires f in KNOWN_BASE_FAMILIES && g in KNOWN_BASE_FAMILIES
    ensures |f| >= 2 && |g| >= 2 && (f[..2] == g[..2] ==> f == g)
  {
    assert f[..2] == [f[0], f[1]] && g[..2] == [g[0], g[1]];
  }

  lemma {:induction false} OwnFamilyMatches(s: string, family: string, families: seq<string>)
    requires family in families && forall f <- families :: f in KNOWN_BASE_FAMILIES
    requires IsFamilyToken(s, family)
    ensures MatchFamily(s, families) == Some((family, FamilyVersion(s[|family|..])))
  {
    hide FamilyVersion;
    FamiliesDiffer(families[0], family);
    if IsFamilyToken(s, families[0]) {
      assert s[..2] == families[0][..2] && s[..2] == family[..2];
    } else {
      assert family in families[1..];
      OwnFamilyMatches(s, family, families[1..]);
    }
  }

  lemma FamilyTokenReads(family: string, base: SemVer)
    requires family in KNOWN_BASE_FAMILIES && base.Normal()
    ensures MatchBaseFamily(family + base.String()) == Some((family, Reading(base)))
    ensures '-' !in family + base.String() && family + base.String() != ""
  {
    hide MatchFamily, Parsed;
    var text := base.String();
    var s := family + text;
    NormalTextReads(base);
    assert s[|family|..] == text;
    CoreIsDottedDigits(text, 2);
    CoreIsDottedDigits(text, |s|);
    FamilyStartsWithLetter(family);
    FamilyHasNoDash(family);
    OwnFamilyMatches(s, family, KNOWN_BASE_FAMILIES);
  }

  lemma FamilyHasNoDash(f: string)
    requires f in KNOWN_BASE_FAMILIES
    ensures '-' !in f
  {
  }

  lemma ReleaseSegment(v: SemVer)
    requires v.Normal()
    ensures Classify(v.String()) == Release(VersionComponent(Role.Application, "", Reading(v), High, v.String()))
  {
    hide MatchFamily, Parsed;
    NormalTextReads(v);
    NoFamilyStartsADigit(v.String(), KNOWN_BASE_FAMILIES);
  }

  lemma FamilySegment(family: string, base: SemVer)
    requires family in KNOWN_BASE_FAMILIES && base.Normal()
    ensures Classify(family + base.String()) ==
      Other(VersionComponent(Role.Base, family, Reading(base), High, family + base.String()))
  {
    hide MatchFamily, MatchBaseFamily;
    FamilyTokenReads(family, base);
  }

  lemma TwoSegments(app: VersionComponent, base: VersionComponent)
    ensures BestRelease([Release(app), Other(base)]) == Some(app)
    ensures Others([Release(app), Other(base)]) == [base]
  {
    var kinds := [Release(app), Other(base)];
    var front := kinds[..|kinds| - 1];
    assert front == [Release(app)] && front[..|front| - 1] == [];
    assert BestRelease(front) == Some(app) && Others(front) == [];
  }

  /** A composite tag built from an application version and a base family reads back as those two components. */
  lemma CompositeTagReadsBack(app: SemVer, family: string, base: SemVer)
    requires app.Normal() && base.Normal() && family in KNOWN_BASE_FAMILIES
    ensures
      var t := ParsedTag(CompositeText(app, family, base));
      && t.components == [
           VersionComponent(Role.Application, "", Reading(app), High, app.String()),
           VersionComponent(Role.Base, family, Reading(base), High, family + base.String())]
      && t.Application() == Some(t.components[0])
      && t.Base() == Some(t.components[1])
      && t.IsComposite()
  {
    hide Classify, FirstUsable, HasRole;
    var raw, a, b := CompositeText(app, family, base), app.String(), family + base.String();
    var ca := VersionComponent(Role.Application, "", Reading(app), High, a);
    var cb := VersionComponent(Role.Base, family, Reading(base), High, b);
    CompositeIsSplit(app, family, base);
    ReleaseSegment(app);
    FamilySegment(family, base);
    TwoSegmentsRead(raw, a, b, ca, cb);
    ComponentsRead(raw, ca, cb);
  }

  /** A plain version reads back as its one component. */
  lemma PlainTagReadsBack(v: SemVer)
    requires v.Normal()
    ensures
      var t := ParsedTag(v.String());
      && t.components == [VersionComponent(Role.Application, "", Reading(v), High, v.String())]
      && t.Application() == Some(t.components[0]) && t.Base().None? && !t.IsComposite()
  {
    hide Parsed, SemVer.String, IsVersionToken;
    NormalTextReads(v);
    assert IsBareVersion(v.String());
    var app := VersionComponent(Role.Application, "", Reading(v), High, v.String());
    assert ParsedTag(v.String()).components == [app];
    assert [app][1..] == [];
    assert FirstUsable([app], Role.Base) == FirstUsable([], Role.Base);
  }

  lemma CompositeIsSplit(app: SemVer, family: string, base: SemVer)
    requires app.Normal() && base.Normal() && family in KNOWN_BASE_FAMILIES
    ensures
      var raw := CompositeText(app, family, base);
      Split(raw, '-') == [app.String(), family + base.String()] && !IsBareVersion(raw)
  {
    hide Classify, Parsed, MatchesCore, SemVer.String, MatchBaseFamily, IsBareVersion, Split;
    var raw, a, b := CompositeText(app, family, base), app.String(), family + base.String();
    NormalTextReads(app);
    FamilyTokenReads(family, base);
    SplitWhole(b, '-');
    assert raw == a + ['-'] + b;
    SplitHead(a, b, '-');
    if IsBareVersion(raw) {
      BareVersionIsOneRelease(raw);
    }
  }

  lemma TwoSegmentsRead(raw: string, a: string, b: string, ca: VersionComponent, cb: VersionComponent)
    requires !IsBareVersion(raw) && Split(raw, '-') == [a, b]
    requires Classify(a) == Release(ca) && Classify(b) == Other(cb)
    ensures ParsedTag(raw).components == [ca, cb]
  {
    hide Classify, IsBareVersion, Split, BestRelease, Others;
    TwoSegments(ca, cb);
    assert Kinds([a, b]) == [Release(ca), Other(cb)];
  }

  lemma ComponentsRead(raw: string, a: VersionComponent, b: VersionComponent)
    requires a.role == Role.Application && a.Usable() && b.role == Role.Base && b.Usable()
    ensures
      var t := TagVersion(raw, [a, b]);
      t.Application() == Some(a) && t.Base() == Some(b) && t.IsComposite()
  {
    var t := TagVersion(raw, [a, b]);
    assert t.components[0] == a && t.components[1] == b && t.components[1..] == [b];
    assert FirstUsable(t.components, Role.Base) == FirstUsable([b], Role.Base);
  }

  // --------------------------------------------------------- what a tag means

  /** A version on its own: an optional "v", then one to three dotted numbers that fit an int. */
  predicate IsPlainVersion(s: string)
  {
    var parts := Split(TrimPrefix(s, "v"), '.');
    |parts| <= 3 && forall i | 0 <= i < |parts| :: parts[i] != "" && AllDigits(parts[i]) && ValueOf(parts[i]) <= MAX_INT
  }

  /** A known family, alone or with dotted numbers attached. */
  predicate NamesFamily(s: string, family: string)
  {
    && family in {"alpine", "debian", "ubuntu", "bookworm", "bullseye", "jammy", "noble"}
    && family <= s
    && (s == family || forall part <- Split(s[|family|..], '.') :: part != "" && AllDigits(part))
  }

  /** The version attached to a family; none, or one that is no version, counts as unknown. */
  function AttachedVersion(s: string, family: string): SemVer
    requires family <= s
  {
    if s == family || Parsed(s[|family|..]).Failure? then SemVer(0, 0, 0, "", Precision.Unknown, "") else Parsed(s[|family|..]).value
  }

  lemma PlainVersionIsBare(s: string)
    ensures IsBareVersion(s) <==> IsPlainVersion(s)
    ensures IsBareVersion(s) <==> s != "" && IsVersionToken(s) && Parsed(s).Success?
  {
    hide Parsed, MatchesCore;
    CoreIsDottedDigits(TrimPrefix(s, "v"), 2);
    if s == "" {
      SplitWhole("", '.');
      assert Split(TrimPrefix(s, "v"), '.')[0] == "";
    }
    if IsVersionToken(s) {
      VersionTokenParses(s);
    }
  }

  lemma {:induction false} PartsFitText(s: string, c: char)
    ensures |Split(s, c)| <= |s| + 1
    decreases |s|
  {
    var i := IndexOf(s, c);
    if i < |s| {
      PartsFitText(s[i + 1..], c);
    }
  }

  lemma FamilyTokenIsNamed(s: string, family: string)
    requires family in KNOWN_BASE_FAMILIES
    ensures IsFamilyToken(s, family) <==> NamesFamily(s, family)
  {
    hide MatchesCore, Split;
    if family <= s {
      var rest := s[|family|..];
      CoreIsDottedDigits(rest, |s|);
      PartsFitText(rest, '.');
    }
  }

  lemma {:induction false} NoFamilyMatches(s: string, families: seq<string>)
    requires forall f <- families :: !IsFamilyToken(s, f)
    ensures MatchFamily(s, families).None?
  {
    hide IsFamilyToken;
    if families != [] {
      NoFamilyMatches(s, families[1..]);
    }
  }

  lemma KnownFamilies(f: string)
    ensures f in KNOWN_BASE_FAMILIES <==> f in {"alpine", "debian", "ubuntu", "bookworm", "bullseye", "jammy", "noble"}
  {
  }

  /**
    What one segment of a tag is: nothing; a known family with its version; a release; or something
    unrecognised, which counts as a base of low confidence.
  */
  lemma SegmentMeans(seg: string)
    ensures seg == "" ==> Classify(seg) == Blank
    ensures forall f | NamesFamily(seg, f) ::
      Classify(seg) == Other(VersionComponent(Role.Base, f, AttachedVersion(seg, f), High, seg))
    ensures seg != "" && (forall f :: !NamesFamily(seg, f)) ==>
      Classify(seg) ==
        if IsPlainVersion(seg) && Parsed(seg).Success?
        then Release(VersionComponent(Role.Application, "", Parsed(seg).value, High, seg))
        else Other(VersionComponent(Role.Base, "", SemVer(0, 0, 0, "", Precision.Unknown, ""), Low, seg))
    ensures IsPlainVersion(seg) ==> Parsed(seg).Success?
  {
    hide Parsed, MatchFamily, IsFamilyToken, IsVersionToken, IsPlainVersion, KNOWN_BASE_FAMILIES;
    PlainVersionIsBare(seg);
    forall f | NamesFamily(seg, f)
      ensures Classify(seg) == Other(VersionComponent(Role.Base, f, AttachedVersion(seg, f), High, seg))
    {
      FamilySegmentMeans(seg, f);
    }
    if seg != "" && forall f :: !NamesFamily(seg, f) {
      forall f <- KNOWN_BASE_FAMILIES ensures !IsFamilyToken(seg, f) {
        FamilyTokenIsNamed(seg, f);
      }
      NoFamilyMatches(seg, KNOWN_BASE_FAMILIES);
    }
  }

  lemma FamilySegmentMeans(seg: string, f: string)
    requires NamesFamily(seg, f)
    ensures Classify(seg) == Other(VersionComponent(Role.Base, f, AttachedVersion(seg, f), High, seg))
  {
    hide Parsed, MatchFamily, IsFamilyToken;
    KnownFamilies(f);
    FamilyTokenIsNamed(seg, f);
    OwnFamilyMatches(seg, f, KNOWN_BASE_FAMILIES);
    FamilyIsNotEmpty(f);
    assert seg == f + seg[|f|..];
  }

  lemma FamilyIsNotEmpty(f: string)
    requires f in KNOWN_BASE_FAMILIES
    ensures f != ""
  {
    FamilyStartsWithLetter(f);
  }

  predicate AllEmpty(parts: seq<string>)
  {
    forall i | 0 <= i < |parts| :: parts[i] == ""
  }

  predicate ConsistsOf(s: string, c: char)
  {
    forall i | 0 <= i < |s| :: s[i] == c
  }

  lemma AllEmptyCons(head: string, tail: seq<string>)
    ensures AllEmpty([head] + tail) <==> head == "" && AllEmpty(tail)
  {
    var parts := [head] + tail;
    assert parts[0] == head && forall i | 0 <= i < |tail| :: parts[i + 1] == tail[i];
  }

  lemma ConsistsOfParts(head: string, tail: string, c: char)
    requires c !in head
    ensures ConsistsOf(head + [c] + tail, c) <==> head == "" && ConsistsOf(tail, c)
  {
    var s := head + [c] + tail;
    assert s[|head|] == c && forall i | 0 <= i < |tail| :: s[|head| + 1 + i] == tail[i];
    if head != "" {
      assert s[0] == head[0] && head[0] in head;
    }
  }

  lemma {:induction false} SplitCounts(s: string, c: char)
    ensures |Split(s, c)| >= 2 <==> c in s
    ensures AllEmpty(Split(s, c)) <==> ConsistsOf(s, c)
    decreases |s|
  {
    hide AllEmpty, ConsistsOf;
    var i := IndexOf(s, c);
    if i == |s| {
      assert c !in s;
      SplitWhole(s, c);
      WholeCounts(s, c);
    } else {
      var head, tail := s[..i], s[i + 1..];
      SplitCounts(tail, c);
      assert s == head + [c] + tail && Split(s, c) == [head] + Split(tail, c);
      AllEmptyCons(head, Split(tail, c));
      ConsistsOfParts(head, tail, c);
    }
  }

  lemma WholeCounts(s: string, c: char)
    requires c !in s
    ensures AllEmpty([s]) <==> ConsistsOf(s, c)
  {
    assert [s][0] == s && (s != "" ==> s[0] in s);
  }

  lemma {:induction false} BlanksGiveNothing(kinds: seq<Segment>)
    ensures Others(kinds) == [] && BestRelease(kinds).None? <==> forall i | 0 <= i < |kinds| :: kinds[i].Blank?
  {
    if kinds != [] {
      BlanksGiveNothing(kinds[..|kinds| - 1]);
    }
  }

  /** A tag names nothing exactly when it is no version and has no dash, or consists of dashes. */
  lemma OpaqueIff(raw: string)
    ensures ParsedTag(raw).components == [] <==>
      !IsPlainVersion(raw) && ('-' !in raw || forall i | 0 <= i < |raw| :: raw[i] == '-')
  {
    hide Parsed, Classify, IsPlainVersion, IsBareVersion, Others, BestRelease, Split, AllEmpty;
    PlainVersionIsBare(raw);
    SplitCounts(raw, '-');
    BlanksGiveNothing(Kinds(Split(raw, '-')));
    BlankSegments(Split(raw, '-'));
  }

  lemma BlankSegments(segments: seq<string>)
    ensures AllEmpty(segments) <==> forall i | 0 <= i < |segments| :: Kinds(segments)[i].Blank?
  {
    hide Classify;
    forall i | 0 <= i < |segments| ensures Kinds(segments)[i].Blank? <==> segments[i] == "" {
      BlankIsEmpty(segments[i]);
    }
  }

  lemma BlankIsEmpty(seg: string)
    ensures Classify(seg).Blank? <==> seg == ""
  {
  }

  lemma PlainTextIsPlain(v: SemVer)
    requires v.Normal()
    ensures IsPlainVersion(v.String()) && IsPlainVersion("v" + v.String())
  {
    hide Parsed, SemVer.String, MatchesCore, IsPlainVersion;
    var text := v.String();
    NormalTextReads(v);
    PlainVersionIsBare(text);
    PlainVersionIsBare("v" + text);
    assert ("v" + text)[1..] == text;
    RenderedVersionParsesBack(v, "v");
  }

  /** The "v" in front of a version is no part of its numbers. */
  lemma PrefixedTagReads(v: SemVer)
    requires v.Normal()
    ensures ParsedTag("v" + v.String()).components ==
      [VersionComponent(Role.Application, "", v.(raw := "v" + v.String(), prerelease := ""), High, "v" + v.String())]
  {
    hide Parsed, SemVer.String, SemVer.Numbers, IsBareVersion, IsPlainVersion;
    PlainTextIsPlain(v);
    PlainVersionIsBare("v" + v.String());
    RenderedVersionParsesBack(v, "v");
    NumbersSpell(v, "v" + v.String());
  }

  lemma NumbersSpell(v: SemVer, raw: string)
    requires v.Normal()
    ensures SemVerOf(v.Numbers(), "", raw) == v.(raw := raw, prerelease := "")
  {
  }

  lemma TwoPartsSplit(a: string, b: string)
    requires '-' !in a && '-' !in b
    ensures Split(a + "-" + b, '-') == [a, b]
    ensures !IsBareVersion(a + "-" + b)
  {
    hide Split, Classify, Parsed, IsVersionToken;
    SplitWhole(b, '-');
    SplitHead(a, b, '-');
    assert a + "-" + b == a + ['-'] + b;
    if IsBareVersion(a + "-" + b) {
      BareVersionIsOneRelease(a + "-" + b);
    }
  }

  /** Of two releases in one tag the more precise one counts, of equally precise ones the first. */
  lemma MorePreciseReleaseCounts(v: SemVer, w: SemVer)
    requires v.Normal() && w.Normal()
    ensures
      var t := ParsedTag(v.String() + "-" + w.String());
      && t.Application().Some? && !t.IsComposite()
      && t.Application().value.version == Reading(if |w.Numbers()| > |v.Numbers()| then w else v)
  {
    hide Parsed, ParsedTag, SemVer.String, SemVer.Numbers, Classify, IsBareVersion, FirstUsable, HasRole, Split;
    var raw, a, b := v.String() + "-" + w.String(), v.String(), w.String();
    NormalTextReads(v);
    NormalTextReads(w);
    ReleaseSegment(v);
    ReleaseSegment(w);
    TwoPartsSplit(a, b);
    var ca := VersionComponent(Role.Application, "", Reading(v), High, a);
    var cb := VersionComponent(Role.Application, "", Reading(w), High, b);
    TwoReleasesRead(raw, a, b, ca, cb);
    OneComponentReads(raw, if Rank(cb) > Rank(ca) then cb else ca);
    PrecisionCountsNumbers(v);
    PrecisionCountsNumbers(w);
  }

  lemma TwoReleasesRead(raw: string, a: string, b: string, ca: VersionComponent, cb: VersionComponent)
    requires !IsBareVersion(raw) && Split(raw, '-') == [a, b]
    requires Classify(a) == Release(ca) && Classify(b) == Release(cb)
    ensures ParsedTag(raw) == TagVersion(raw, [if Rank(cb) > Rank(ca) then cb else ca])
  {
    hide Classify, IsBareVersion, Split, BestRelease, Others, Rank;
    TwoReleases(ca, cb);
    assert Kinds([a, b]) == [Release(ca), Release(cb)];
  }

  lemma TwoReleases(a: VersionComponent, b: VersionComponent)
    ensures BestRelease([Release(a), Release(b)]) == Some(if Rank(b) > Rank(a) then b else a)
    ensures Others([Release(a), Release(b)]) == []
  {
    var kinds := [Release(a), Release(b)];
    var front := kinds[..|kinds| - 1];
    assert front == [Release(a)] && front[..|front| - 1] == [];
    assert BestRelease(front) == Some(a) && Others(front) == [];
  }

  lemma OneComponentReads(raw: string, a: VersionComponent)
    requires a.role == Role.Application && a.Usable()
    ensures
      var t := TagVersion(raw, [a]);
      t.Application() == Some(a) && !t.IsComposite()
  {
    assert TagVersion(raw, [a]).components[0] == a;
  }

  /** An unrecognised word after a version makes the tag composite, but names no base. */
  lemma WordMakesComposite(v: SemVer, word: string)
    requires v.Normal() && word != "" && '-' !in word && !IsPlainVersion(word) && forall f :: !NamesFamily(word, f)
    ensures
      var t := ParsedTag(v.String() + "-" + word);
      && t.Application().Some? && t.Application().value.version == Reading(v) && t.Base().None? && t.IsComposite()
  {
    hide Parsed, SemVer.String, Classify, IsBareVersion, IsPlainVersion, NamesFamily, Split;
    var raw, a := v.String() + "-" + word, v.String();
    NormalTextReads(v);
    ReleaseSegment(v);
    SegmentMeans(word);
    TwoPartsSplit(a, word);
    var ca := VersionComponent(Role.Application, "", Reading(v), High, a);
    var cb := VersionComponent(Role.Base, "", ZERO, Low, word);
    TwoSegmentsRead(raw, a, word, ca, cb);
    var t := ParsedTag(raw);
    assert t.components[0] == ca && t.components[1] == cb && t.components[1..] == [cb] && [cb][1..] == [];
    assert FirstUsable([cb], Role.Base) == FirstUsable([], Role.Base);
    assert FirstUsable(t.components, Role.Base) == FirstUsable([cb], Role.Base);
  }

  ghost predicate HasParts(kinds: seq<Segment>, components: seq<VersionComponent>, at: seq<nat>, rest: seq<VersionComponent>)
  {
    && IsOrderedSelection(at, kinds, rest)
    && if SomeRelease(kinds) then
         components != [] && components == [components[0]] + rest && exists k: nat :: IsLeftmostMostPrecise(kinds, k, components[0])
       else components == rest
  }

  /** A tag with a dash that is no version has the most precise of its releases in front, and all its other parts in order. */
  lemma DashedTagReads(raw: string)
    requires !IsPlainVersion(raw) && '-' in raw
    ensures exists at: seq<nat>, rest :: HasParts(Kinds(Split(raw, '-')), ParsedTag(raw).components, at, rest)
  {
    hide Parsed, Classify, IsPlainVersion, IsBareVersion, Others, BestRelease, Split, IsOrderedSelection, IsLeftmostMostPrecise;
    PlainVersionIsBare(raw);
    SplitCounts(raw, '-');
    var kinds := Kinds(Split(raw, '-'));
    OthersKeepEverySegmentOnce(kinds);
    BestReleaseExists(kinds);
    BestReleaseIsLeftmostMostPrecise(kinds);
    var at: seq<nat> :| IsOrderedSelection(at, kinds, Others(kinds));
    assert HasParts(kinds, ParsedTag(raw).components, at, Others(kinds));
  }
}
