/** internal/policy/policy.go: which events may be notified, and how container labels change that. */
module Policies {
  import opened Prelude
  import opened Text
  import opened Events

  datatype Policy = Policy(
    patch: bool, minor: bool, major: bool, familyAdvancement: bool,
    baseAdvancement: bool, tagChanged: bool, tagMutated: bool, otherPlatform: bool)
  {
    predicate Allows(t: EventType)
    {
      match t
      case PatchAvailable | ApplicationPatchAvailable => patch
      case MinorAvailable | ApplicationMinorAvailable => minor
      case MajorAvailable | ApplicationMajorAvailable => major
      case FamilyAdvancementAvailable => familyAdvancement
      case BaseAdvancementAvailable => baseAdvancement
      case TagChanged => tagChanged
      case TagMutated => tagMutated
      case OtherPlatformUpdate => otherPlatform
      case RegistryOutage => false
    }

    function Merge(other: Policy): Policy
    {
      Policy(
        patch || other.patch, minor || other.minor, major || other.major,
        familyAdvancement || other.familyAdvancement, baseAdvancement || other.baseAdvancement,
        tagChanged || other.tagChanged, tagMutated || other.tagMutated, otherPlatform || other.otherPlatform)
    }
  }

  const DEFAULT := Policy(true, true, true, false, true, true, true, false)

  // ------------------------------------------------------------------- merging

  function Merged(policies: seq<Policy>): Policy
  {
    if |policies| == 0 then DEFAULT
    else if |policies| == 1 then policies[0]
    else Merged(policies[..|policies| - 1]).Merge(policies[|policies| - 1])
  }

  method MergeAll(policies: seq<Policy>) returns (result: Policy)
    ensures result == Merged(policies)
    ensures policies != [] ==> forall t: EventType ::
      result.Allows(t) <==> exists i | 0 <= i < |policies| :: policies[i].Allows(t)
  {
    if |policies| == 0 {
      return DEFAULT;
    }
    result := policies[0];
    for i := 1 to |policies|
      invariant result == Merged(policies[..i])
    {
      assert policies[..i + 1][..i] == policies[..i];
      result := result.Merge(policies[i]);
    }
    assert policies[..|policies|] == policies;
    forall t: EventType ensures result.Allows(t) <==> exists i | 0 <= i < |policies| :: policies[i].Allows(t) {
      MergedAllowsIffSome(policies, t);
    }
  }

  /** The merged policy of a group allows an event exactly when some member's policy does. */
  lemma {:induction false} MergedAllowsIffSome(policies: seq<Policy>, t: EventType)
    requires policies != []
    ensures Merged(policies).Allows(t) <==> exists i | 0 <= i < |policies| :: policies[i].Allows(t)
  {
    var n := |policies| - 1;
    if n == 0 {
      assert policies[0].Allows(t) == Merged(policies).Allows(t);
    } else {
      var front := policies[..n];
      MergedAllowsIffSome(front, t);
      assert Merged(policies).Allows(t) <==> Merged(front).Allows(t) || policies[n].Allows(t);
      if exists i | 0 <= i < |front| :: front[i].Allows(t) {
        var i :| 0 <= i < |front| && front[i].Allows(t);
        assert policies[i].Allows(t);
      }
    }
  }

  // -------------------------------------------------------------------- labels

  const LABEL_PREFIX := "image-watch.policy."

  function ParseBool(s: string): Option<bool>
  {
    if s == "true" then Some(true) else if s == "false" then Some(false) else None
  }

  /** The eight switches of a policy, with their label names. */
  datatype Field =
    | Patch | Minor | Major | FamilyAdvancement | BaseAdvancement | TagChange | TagMutation | OtherPlatform
  {
    function Label(): string
    {
      match this
      case Patch => "patch"
      case Minor => "minor"
      case Major => "major"
      case FamilyAdvancement => "family-advancement"
      case BaseAdvancement => "base-advancement"
      case TagChange => "tag-changed"
      case TagMutation => "tag-mutation"
      case OtherPlatform => "other-platform"
    }
  }

  function Get(p: Policy, f: Field): bool
  {
    match f
    case Patch => p.patch
    case Minor => p.minor
    case Major => p.major
    case FamilyAdvancement => p.familyAdvancement
    case BaseAdvancement => p.baseAdvancement
    case TagChange => p.tagChanged
    case TagMutation => p.tagMutated
    case OtherPlatform => p.otherPlatform
  }

  /** The switch an event type is subject to; none for outage alerts. */
  function FieldOf(t: EventType): Option<Field>
  {
    match t
    case PatchAvailable | ApplicationPatchAvailable => Some(Field.Patch)
    case MinorAvailable | ApplicationMinorAvailable => Some(Field.Minor)
    case MajorAvailable | ApplicationMajorAvailable => Some(Field.Major)
    case FamilyAdvancementAvailable => Some(FamilyAdvancement)
    case BaseAdvancementAvailable => Some(BaseAdvancement)
    case TagChanged => Some(TagChange)
    case TagMutated => Some(TagMutation)
    case OtherPlatformUpdate => Some(OtherPlatform)
    case RegistryOutage => None
  }

  /** What the labels seen so far say about a switch, if they say anything valid. */
  function Override(labels: map<string, string>, seen: set<string>, f: Field): Option<bool>
  {
    var key := LABEL_PREFIX + f.Label();
    if key in labels && key in seen then ParseBool(labels[key]) else None
  }

  ghost predicate IsOverlay(base: Policy, labels: map<string, string>, seen: set<string>, p: Policy)
  {
    forall f: Field :: Get(p, f) == var o := Override(labels, seen, f); if o.Some? then o.value else Get(base, f)
  }

  function OverrideOr(labels: map<string, string>, f: Field, base: Policy): bool
  {
    var o := Override(labels, labels.Keys, f);
    if o.Some? then o.value else Get(base, f)
  }

  function Overlaid(base: Policy, labels: map<string, string>): (p: Policy)
    ensures IsOverlay(base, labels, labels.Keys, p)
  {
    Policy(
      OverrideOr(labels, Field.Patch, base), OverrideOr(labels, Field.Minor, base), OverrideOr(labels, Field.Major, base),
      OverrideOr(labels, FamilyAdvancement, base), OverrideOr(labels, BaseAdvancement, base),
      OverrideOr(labels, TagChange, base), OverrideOr(labels, TagMutation, base), OverrideOr(labels, OtherPlatform, base))
  }

  /** The switch over the label's suffix. */
  function FieldNamed(suffix: string): (r: Option<Field>)
    ensures r.Some? ==> r.value.Label() == suffix
    ensures r.None? ==> forall f: Field :: f.Label() != suffix
  {
    match suffix
    case "patch" => Some(Field.Patch)
    case "minor" => Some(Field.Minor)
    case "major" => Some(Field.Major)
    case "family-advancement" => Some(FamilyAdvancement)
    case "base-advancement" => Some(BaseAdvancement)
    case "tag-changed" => Some(TagChange)
    case "tag-mutation" => Some(TagMutation)
    case "other-platform" => Some(OtherPlatform)
    case _ => None
  }

  function With(p: Policy, f: Field, b: bool): Policy
  {
    match f
    case Patch => p.(patch := b)
    case Minor => p.(minor := b)
    case Major => p.(major := b)
    case FamilyAdvancement => p.(familyAdvancement := b)
    case BaseAdvancement => p.(baseAdvancement := b)
    case TagChange => p.(tagChanged := b)
    case TagMutation => p.(tagMutated := b)
    case OtherPlatform => p.(otherPlatform := b)
  }

  lemma WithSetsOneField(p: Policy, f: Field, b: bool, g: Field)
    ensures Get(With(p, f, b), g) == if g == f then b else Get(p, g)
  {
  }

  /** The effect of one label on the result so far. */
  function Labelled(p: Policy, key: string, value: string): Policy
  {
    if !(LABEL_PREFIX <= key) then p
    else
      match ParseBool(value)
      case None => p
      case Some(b) =>
        match FieldNamed(TrimPrefix(key, LABEL_PREFIX))
        case None => p
        case Some(f) => With(p, f, b)
  }

  /** The labels are visited in an arbitrary order, as Go's map iteration does; the result does not depend on it. */
  method ApplyLabels(base: Policy, labels: map<string, string>) returns (result: Policy)
    ensures result == Overlaid(base, labels)
  {
    hide IsOverlay, Overlaid, FieldNamed, ParseBool, With;
    result := base;
    var rest := labels.Keys;
    NoLabelSeen(base, labels);
    assert labels.Keys - rest == {};
    while rest != {}
      invariant rest <= labels.Keys
      invariant IsOverlay(base, labels, labels.Keys - rest, result)
      decreases |rest|
    {
      var key :| key in rest;
      OverlayStep(base, labels, labels.Keys - rest, result, key);
      assert labels.Keys - (rest - {key}) == labels.Keys - rest + {key};
      rest := rest - {key};
      if !(LABEL_PREFIX <= key) {
        continue;
      }
      var b := ParseBool(labels[key]);
      if b.None? {
        continue;
      }
      var f := FieldNamed(TrimPrefix(key, LABEL_PREFIX));
      if f.Some? {
        result := With(result, f.value, b.value);
      }
    }
    assert labels.Keys - rest == labels.Keys;
    OverlayUnique(base, labels, labels.Keys, result, Overlaid(base, labels));
  }

  lemma OverlayStep(base: Policy, labels: map<string, string>, seen: set<string>, p: Policy, key: string)
    requires IsOverlay(base, labels, seen, p) && key in labels && key !in seen
    ensures IsOverlay(base, labels, seen + {key}, Labelled(p, key, labels[key]))
  {
    hide With, Get, Override, ParseBool, LABEL_PREFIX, Field.Label;
    var p' := Labelled(p, key, labels[key]);
    forall f: Field
      ensures Get(p', f) == var o := Override(labels, seen + {key}, f); if o.Some? then o.value else Get(base, f)
    {
      OverrideStep(labels, seen, key, f);
      LabelNamesField(TrimPrefix(key, LABEL_PREFIX), f);
      var named := FieldNamed(TrimPrefix(key, LABEL_PREFIX));
      if named.Some? && ParseBool(labels[key]).Some? {
        WithSetsOneField(p, named.value, ParseBool(labels[key]).value, f);
      }
    }
  }

  lemma LabelNamesField(suffix: string, f: Field)
    ensures FieldNamed(suffix) == Some(f) <==> f.Label() == suffix
  {
  }

  lemma NoLabelSeen(base: Policy, labels: map<string, string>)
    ensures IsOverlay(base, labels, {}, base)
  {
  }

  lemma OverlayUnique(base: Policy, labels: map<string, string>, seen: set<string>, p: Policy, q: Policy)
    requires IsOverlay(base, labels, seen, p) && IsOverlay(base, labels, seen, q)
    ensures p == q
  {
    assert Get(p, Field.Patch) == Get(q, Field.Patch) && Get(p, Field.Minor) == Get(q, Field.Minor);
    assert Get(p, Field.Major) == Get(q, Field.Major) && Get(p, FamilyAdvancement) == Get(q, FamilyAdvancement);
    assert Get(p, BaseAdvancement) == Get(q, BaseAdvancement) && Get(p, TagChange) == Get(q, TagChange);
    assert Get(p, TagMutation) == Get(q, TagMutation) && Get(p, OtherPlatform) == Get(q, OtherPlatform);
  }

  function OverrideAfter(labels: map<string, string>, seen: set<string>, key: string, f: Field): Option<bool>
    requires key in labels
  {
    if LABEL_PREFIX <= key && TrimPrefix(key, LABEL_PREFIX) == f.Label() && ParseBool(labels[key]).Some?
    then ParseBool(labels[key])
    else Override(labels, seen, f)
  }

  /** Seeing one more label changes what is known about at most its own switch. */
  lemma OverrideStep(labels: map<string, string>, seen: set<string>, key: string, f: Field)
    requires key in labels && key !in seen
    ensures Override(labels, seen + {key}, f) == OverrideAfter(labels, seen, key, f)
  {
    hide ParseBool, LABEL_PREFIX, Field.Label;
    var own := LABEL_PREFIX + f.Label();
    assert own[|LABEL_PREFIX|..] == f.Label();
    if LABEL_PREFIX <= key {
      assert key == LABEL_PREFIX + key[|LABEL_PREFIX|..];
    }
  }

  /** A label decides when it is present and valid; otherwise the base policy does. */
  lemma LabelDecides(base: Policy, labels: map<string, string>, t: EventType)
    ensures FieldOf(t).None? ==> !Overlaid(base, labels).Allows(t)
    ensures FieldOf(t).Some? ==>
      var o := Override(labels, labels.Keys, FieldOf(t).value);
      Overlaid(base, labels).Allows(t) == if o.Some? then o.value else base.Allows(t)
  {
  }

  /**
    README.md calls the merge of configuration and labels permissive (allowed if any source allows it). The
    code lets a label override the base in both directions, so that reading holds exactly when no valid
    label says "false" to an event type the base allows.
  */
  lemma LabelsArePermissiveIff(base: Policy, labels: map<string, string>, t: EventType)
    requires FieldOf(t).Some?
    ensures
      var o := Override(labels, labels.Keys, FieldOf(t).value);
      (Overlaid(base, labels).Allows(t) <==> base.Allows(t) || o == Some(true)) <==> !(base.Allows(t) && o == Some(false))
  {
    hide Override, Overlaid;
    LabelDecides(base, labels, t);
  }

  /** For instance a label forbids the patch news that the configuration allows. */
  lemma LabelMayForbid()
    ensures
      var labels := map[LABEL_PREFIX + Field.Patch.Label() := "false"];
      DEFAULT.Allows(PatchAvailable) && !Overlaid(DEFAULT, labels).Allows(PatchAvailable)
  {
    hide Overlaid;
    LabelDecides(DEFAULT, map[LABEL_PREFIX + Field.Patch.Label() := "false"], PatchAvailable);
  }

  /** The built-in policy: everything but family advancement and other platforms, and never an outage. */
  lemma DefaultAllows(t: EventType)
    ensures DEFAULT.Allows(t) <==> t !in {FamilyAdvancementAvailable, OtherPlatformUpdate, RegistryOutage}
  {
  }

  /** The label that switches an event type. */
  function LabelOf(t: EventType): string
    requires t != RegistryOutage
  {
    "image-watch.policy." +
    match t
    case PatchAvailable | ApplicationPatchAvailable => "patch"
    case MinorAvailable | ApplicationMinorAvailable => "minor"
    case MajorAvailable | ApplicationMajorAvailable => "major"
    case FamilyAdvancementAvailable => "family-advancement"
    case BaseAdvancementAvailable => "base-advancement"
    case TagChanged => "tag-changed"
    case TagMutated => "tag-mutation"
    case OtherPlatformUpdate => "other-platform"
  }

  lemma LabelOfField(t: EventType)
    requires t != RegistryOutage
    ensures FieldOf(t).Some? && LabelOf(t) == LABEL_PREFIX + FieldOf(t).value.Label()
  {
  }

  /** Each event type is decided by its own label, with "true" or "false"; any other text leaves it as it was. */
  lemma LabelSwitchesItsEvents(base: Policy, labels: map<string, string>, t: EventType)
    requires t != RegistryOutage
    ensures Overlaid(base, labels).Allows(t) ==
      if LabelOf(t) in labels && labels[LabelOf(t)] == "true" then true
      else if LabelOf(t) in labels && labels[LabelOf(t)] == "false" then false
      else base.Allows(t)
  {
    hide Overlaid, LABEL_PREFIX, LabelOf, Field.Label, Policy.Allows;
    LabelOfField(t);
    LabelDecides(base, labels, t);
  }
}
