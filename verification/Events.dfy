/** internal/event/event.go and fingerprint.go: detected events and their deduplication identity. */
module Events {
  import opened Text
  import opened Images

  datatype EventType =
    | PatchAvailable
    | MinorAvailable
    | MajorAvailable
    | FamilyAdvancementAvailable
    | ApplicationPatchAvailable
    | ApplicationMinorAvailable
    | ApplicationMajorAvailable
    | BaseAdvancementAvailable
    | TagChanged
    | TagMutated
    | OtherPlatformUpdate
    | RegistryOutage
  {
    function Name(): string
    {
      match this
      case PatchAvailable => "PATCH_AVAILABLE"
      case MinorAvailable => "MINOR_AVAILABLE"
      case MajorAvailable => "MAJOR_AVAILABLE"
      case FamilyAdvancementAvailable => "FAMILY_ADVANCEMENT_AVAILABLE"
      case ApplicationPatchAvailable => "APPLICATION_PATCH_AVAILABLE"
      case ApplicationMinorAvailable => "APPLICATION_MINOR_AVAILABLE"
      case ApplicationMajorAvailable => "APPLICATION_MAJOR_AVAILABLE"
      case BaseAdvancementAvailable => "BASE_ADVANCEMENT_AVAILABLE"
      case TagChanged => "TAG_CHANGED"
      case TagMutated => "TAG_MUTATED"
      case OtherPlatformUpdate => "OTHER_PLATFORM_UPDATE"
      case RegistryOutage => "REGISTRY_OUTAGE"
    }
  }

  datatype Event = Event(
    timestamp: int,
    image: Reference,
    kind: EventType,
    currentTag: string,
    currentDigest: string,
    candidateTag: string,
    candidateDigest: string,
    platform: Platform,
    combinedCandidate: string)

  /** The fields the identity is made of, as text. */
  function IdentityFields(e: Event): seq<string>
  {
    [e.image.registry, e.image.repository, e.currentTag, e.platform.String(), e.kind.Name(), e.candidateDigest]
  }

  /** The text that is hashed into the fingerprint. */
  function Fingerprint(e: Event): string
  {
    Join(IdentityFields(e), '|')
  }

  predicate Separable(e: Event)
  {
    && '|' !in e.image.registry && '|' !in e.image.repository && '|' !in e.currentTag && '|' !in e.candidateDigest
    && '|' !in e.platform.os && '|' !in e.platform.architecture && '|' !in e.platform.variant
    && e.platform.SlashFree()
  }

  /** A decision tree that recognises the event type names. */
  function TypeOf(name: string): EventType
  {
    if |name| == 15 then
      if name[0] == 'P' then PatchAvailable
      else if name[0] == 'R' then RegistryOutage
      else if name[1] == 'I' then MinorAvailable else MajorAvailable
    else if |name| == 27 then
      if name[12] == 'P' then ApplicationPatchAvailable
      else if name[13] == 'I' then ApplicationMinorAvailable else ApplicationMajorAvailable
    else if |name| == 11 then
      if name[4] == 'C' then TagChanged else TagMutated
    else if |name| == 28 then FamilyAdvancementAvailable
    else if |name| == 26 then BaseAdvancementAvailable
    else OtherPlatformUpdate
  }

  lemma NameIsRecognised(t: EventType)
    ensures TypeOf(t.Name()) == t
  {
  }

  lemma NameHasNoBar(t: EventType)
    ensures '|' !in t.Name()
  {
    hide EventType.Name;
    match t
    case PatchAvailable | MinorAvailable | MajorAvailable | TagChanged | TagMutated | RegistryOutage =>
      ShortNameHasNoBar(t);
    case ApplicationPatchAvailable | ApplicationMinorAvailable | ApplicationMajorAvailable =>
      ApplicationNameHasNoBar(t);
    case _ =>
      LongNameHasNoBar(t);
  }

  lemma ShortNameHasNoBar(t: EventType)
    requires t in {PatchAvailable, MinorAvailable, MajorAvailable, TagChanged, TagMutated, RegistryOutage}
    ensures '|' !in t.Name()
  {
  }

  lemma ApplicationNameHasNoBar(t: EventType)
    requires t in {ApplicationPatchAvailable, ApplicationMinorAvailable, ApplicationMajorAvailable}
    ensures '|' !in t.Name()
  {
  }

  lemma LongNameHasNoBar(t: EventType)
    requires t in {FamilyAdvancementAvailable, BaseAdvancementAvailable, OtherPlatformUpdate}
    ensures '|' !in t.Name()
  {
  }

  lemma PlatformHasNoBar(p: Platform)
    requires '|' !in p.os && '|' !in p.architecture && '|' !in p.variant
    ensures '|' !in p.String()
  {
  }

  lemma IdentityFieldsSeparate(e: Event)
    requires Separable(e)
    ensures Split(Fingerprint(e), '|') == IdentityFields(e)
  {
    hide Split, Join, EventType.Name, Platform.String;
    NameHasNoBar(e.kind);
    PlatformHasNoBar(e.platform);
    SplitOfJoin(IdentityFields(e), '|');
  }

  /**
    Fingerprints of separable events are equal exactly when registry, repository, tag, platform, type and
    candidate digest all agree; nothing else about the events matters.
  */
  lemma FingerprintIsIdentity(e: Event, f: Event)
    requires Separable(e) && Separable(f)
    ensures Fingerprint(e) == Fingerprint(f) <==>
      && e.image.registry == f.image.registry && e.image.repository == f.image.repository
      && e.currentTag == f.currentTag && e.platform == f.platform && e.kind == f.kind
      && e.candidateDigest == f.candidateDigest
  {
    hide Split, Fingerprint, EventType.Name, Platform.String, Separable, TypeOf;
    if Fingerprint(e) == Fingerprint(f) {
      IdentityFieldsSeparate(e);
      IdentityFieldsSeparate(f);
      var a, b := IdentityFields(e), IdentityFields(f);
      assert a[0] == b[0] && a[1] == b[1] && a[2] == b[2] && a[3] == b[3] && a[4] == b[4] && a[5] == b[5];
      NameIsRecognised(e.kind);
      NameIsRecognised(f.kind);
      SeparablePlatforms(e, f);
    } else {
      FingerprintDependsOnFields(e, f);
    }
  }

  lemma SeparablePlatforms(e: Event, f: Event)
    requires Separable(e) && Separable(f) && e.platform.String() == f.platform.String()
    ensures e.platform == f.platform
  {
    PlatformStringIsInjective(e.platform, f.platform);
  }

  lemma FingerprintDependsOnFields(e: Event, f: Event)
    ensures IdentityFields(e) == IdentityFields(f) ==> Fingerprint(e) == Fingerprint(f)
  {
  }
}
