/** internal/image/reference.go and platform.go: image references, platforms and their text. */
module Images {
  import opened Prelude
  import opened Text

  const DEFAULT_REGISTRY := "docker.io"

  datatype Reference = Reference(registry: string, repository: string, tag: Option<string>, digest: Option<string>) {
    predicate IsDigestPinned()
    {
      digest.Some? && tag.None?
    }

    function TagOrEmpty(): string
    {
      if tag.None? then "" else tag.value
    }

    function String(): string
    {
      var base := registry + "/" + repository;
      if tag.Some? then base + ":" + tag.value
      else if digest.Some? then base + "@" + digest.value
      else base
    }

    function ImageName(): string
    {
      registry + "/" + repository
    }

    /** The references the parser produces. */
    predicate Canonical()
    {
      && IsRegistryHost(registry) && '/' !in registry && '@' !in registry
      && repository != "" && '@' !in repository
      && (registry == DEFAULT_REGISTRY ==> '/' in repository)
      && (tag.Some? <==> digest.None?)
      && (tag.Some? ==> ':' !in tag.value && '@' !in tag.value)
    }
  }

  datatype ReferenceError = EmptyReference | NoRepository

  /** The first path component names a registry when it looks like a host. */
  predicate IsRegistryHost(component: string)
  {
    '.' in component || ':' in component || component == "localhost"
  }

  /** Name and digest around the first '@'. */
  function CutDigest(raw: string): (string, Option<string>)
  {
    var i := IndexOf(raw, '@');
    if i < |raw| then (raw[..i], Some(raw[i + 1..])) else (raw, None)
  }

  /** Registry and the rest, around the first '/' when what precedes it is a registry host. */
  function CutRegistry(name: string): (string, string)
  {
    var i := IndexOf(name, '/');
    if i < |name| && IsRegistryHost(name[..i]) then (name[..i], name[i + 1..]) else (DEFAULT_REGISTRY, name)
  }

  /** Repository and tag around the last ':'; a digest suppresses the tag. */
  function CutTag(repoAndTag: string, digest: Option<string>): (string, Option<string>)
  {
    var i := LastIndexOf(repoAndTag, ':');
    if digest.None? && i != -1 then (repoAndTag[..i], Some(repoAndTag[i + 1..])) else (repoAndTag, None)
  }

  function Namespaced(registry: string, repository: string): string
  {
    if registry == DEFAULT_REGISTRY && '/' !in repository then "library/" + repository else repository
  }

  function Parsed(raw: string): Result<Reference, ReferenceError>
  {
    if raw == "" then Failure(EmptyReference)
    else
      var (name, digest) := CutDigest(raw);
      var (registry, repoAndTag) := CutRegistry(name);
      var (bare, tag) := CutTag(repoAndTag, digest);
      var repository := Namespaced(registry, bare);
      if repository == "" then Failure(NoRepository)
      else
        Success(Reference(registry, repository, if tag.None? && digest.None? then Some("latest") else tag, digest))
  }

  method ParseReference(raw: string) returns (r: Result<Reference, ReferenceError>)
    ensures r == Parsed(raw)
    ensures r.Success? ==> r.value.Canonical() && Parsed(r.value.String()) == r
  {
    hide IndexOf, LastIndexOf, IsRegistryHost, Reference.Canonical, Reference.String, DEFAULT_REGISTRY;
    if raw == "" {
      return Failure(EmptyReference);
    }
    var digest: Option<string> := None;
    var name := raw;
    var at := IndexOf(raw, '@');
    if at < |raw| {
      digest := Some(raw[at + 1..]);
      name := raw[..at];
    }
    assert CutDigest(raw) == (name, digest);
    var registry := DEFAULT_REGISTRY;
    var repoAndTag := name;
    var slash := IndexOf(name, '/');
    if slash < |name| {
      var firstComponent := name[..slash];
      if IsRegistryHost(firstComponent) {
        registry := firstComponent;
        repoAndTag := name[slash + 1..];
      }
    }
    assert CutRegistry(name) == (registry, repoAndTag);
    var tag: Option<string> := None;
    var repository := repoAndTag;
    if digest.None? {
      var idx := LastIndexOf(repoAndTag, ':');
      if idx != -1 {
        repository := repoAndTag[..idx];
        tag := Some(repoAndTag[idx + 1..]);
      }
    }
    assert CutTag(repoAndTag, digest) == (repository, tag);
    ghost var bare := repository;
    if registry == DEFAULT_REGISTRY && '/' !in repository {
      repository := "library/" + repository;
    }
    assert repository == Namespaced(registry, bare);
    if repository == "" {
      return Failure(NoRepository);
    }
    if tag.None? && digest.None? {
      tag := Some("latest");
    }
    r := Success(Reference(registry, repository, tag, digest));
    assert r == Parsed(raw);
    ParsedIsCanonical(raw);
    CanonicalParsesBack(r.value);
  }

  // --------------------------------------------------------------- round trip

  lemma IndexOfUnique(s: string, c: char, i: nat)
    requires i <= |s| && (forall k | 0 <= k < i :: s[k] != c) && (i < |s| ==> s[i] == c)
    ensures IndexOf(s, c) == i
  {
  }

  lemma CutDigestIsAtFree(raw: string)
    ensures '@' !in CutDigest(raw).0
  {
  }

  lemma CutRegistryShape(name: string)
    requires '@' !in name
    ensures
      var (registry, rest) := CutRegistry(name);
      IsRegistryHost(registry) && '/' !in registry && '@' !in registry && '@' !in rest
  {
  }

  lemma CutTagShape(repoAndTag: string, digest: Option<string>)
    requires '@' !in repoAndTag
    ensures
      var (bare, tag) := CutTag(repoAndTag, digest);
      '@' !in bare && (tag.Some? ==> digest.None? && ':' !in tag.value && '@' !in tag.value)
  {
  }

  lemma NamespacedShape(registry: string, bare: string)
    requires '@' !in bare
    ensures '@' !in Namespaced(registry, bare)
    ensures registry == DEFAULT_REGISTRY ==> '/' in Namespaced(registry, bare)
  {
  }

  /** Every accepted text gives a canonical reference. */
  lemma ParsedIsCanonical(raw: string)
    requires Parsed(raw).Success?
    ensures Parsed(raw).value.Canonical()
  {
    hide CutDigest, CutRegistry, CutTag, Namespaced, IsRegistryHost;
    var (name, digest) := CutDigest(raw);
    CutDigestIsAtFree(raw);
    CutRegistryShape(name);
    var (registry, repoAndTag) := CutRegistry(name);
    CutTagShape(repoAndTag, digest);
    NamespacedShape(registry, CutTag(repoAndTag, digest).0);
    assert ':' !in "latest" && '@' !in "latest";
  }

  lemma NameCutsBack(registry: string, rest: string)
    requires IsRegistryHost(registry) && '/' !in registry
    ensures CutRegistry(registry + "/" + rest) == (registry, rest)
  {
    var name := registry + "/" + rest;
    IndexOfUnique(name, '/', |registry|);
    assert name[..|registry|] == registry && name[|registry| + 1..] == rest;
  }

  lemma TagCutsBack(repository: string, tag: string)
    requires ':' !in tag
    ensures CutTag(repository + ":" + tag, None) == (repository, Some(tag))
  {
    var text := repository + ":" + tag;
    var i := LastIndexOf(text, ':');
    assert text[|repository|] == ':';
    assert forall k | |repository| < k < |text| :: text[k] == tag[k - |repository| - 1];
    assert i == |repository|;
    assert text[..i] == repository && text[i + 1..] == tag;
  }

  lemma DigestCutsBack(name: string, digest: string)
    requires '@' !in name
    ensures CutDigest(name + "@" + digest) == (name, Some(digest))
  {
    var text := name + "@" + digest;
    IndexOfUnique(text, '@', |name|);
    assert text[..|name|] == name && text[|name| + 1..] == digest;
  }

  lemma NoDigestCutsNothing(name: string)
    requires '@' !in name
    ensures CutDigest(name) == (name, None)
  {
  }

  /** The text of a canonical reference parses to that reference. */
  lemma CanonicalParsesBack(r: Reference)
    requires r.Canonical()
    ensures Parsed(r.String()) == Success(r)
  {
    hide CutDigest, CutRegistry, CutTag, IsRegistryHost;
    if r.tag.Some? {
      var rest := r.repository + ":" + r.tag.value;
      assert r.String() == r.registry + "/" + rest;
      assert forall c | c in r.String() :: c in r.registry || c == '/' || c in r.repository || c == ':' || c in r.tag.value;
      NoDigestCutsNothing(r.String());
      NameCutsBack(r.registry, rest);
      TagCutsBack(r.repository, r.tag.value);
    } else {
      var name := r.registry + "/" + r.repository;
      assert forall c | c in name :: c in r.registry || c == '/' || c in r.repository;
      assert r.String() == name + "@" + r.digest.value;
      DigestCutsBack(name, r.digest.value);
      NameCutsBack(r.registry, r.repository);
      DigestSuppressesTag(r.repository, r.digest.value);
    }
  }

  lemma DigestSuppressesTag(repository: string, digest: string)
    ensures CutTag(repository, Some(digest)) == (repository, None)
  {
  }

  /** Among all references, exactly the canonical ones are restored by parsing their text. */
  lemma ParsesBackIffCanonical(r: Reference)
    ensures Parsed(r.String()) == Success(r) <==> r.Canonical()
  {
    hide Parsed, Reference.Canonical, Reference.String;
    if Parsed(r.String()) == Success(r) {
      ParsedIsCanonical(r.String());
    }
    if r.Canonical() {
      CanonicalParsesBack(r);
    }
  }

  /** Parsing is idempotent through the printer: every accepted text has one canonical spelling. */
  lemma AcceptedTextParsesBack(raw: string)
    ensures Parsed(raw).Success? ==> Parsed(Parsed(raw).value.String()) == Parsed(raw)
  {
    hide Parsed, Reference.Canonical, Reference.String;
    if Parsed(raw).Success? {
      ParsedIsCanonical(raw);
      CanonicalParsesBack(Parsed(raw).value);
    }
  }

  // ------------------------------------------------------- distinct identities

  /** Image names separate registries and repositories, because a canonical registry has no slash. */
  lemma ImageNameIsInjective(r: Reference, s: Reference)
    requires '/' !in r.registry && '/' !in s.registry && r.ImageName() == s.ImageName()
    ensures r.registry == s.registry && r.repository == s.repository
  {
    SlashCut(r.registry, r.repository);
    SlashCut(s.registry, s.repository);
  }

  lemma SlashCut(head: string, tail: string)
    requires '/' !in head
    ensures
      var text := head + "/" + tail;
      IndexOf(text, '/') == |head| && text[..|head|] == head && text[|head| + 1..] == tail
  {
    IndexOfUnique(head + "/" + tail, '/', |head|);
  }

  datatype Platform = Platform(os: string, architecture: string, variant: string) {
    function String(): string
    {
      if variant == "" then os + "/" + architecture else os + "/" + architecture + "/" + variant
    }

    predicate SlashFree()
    {
      '/' !in os && '/' !in architecture
    }
  }

  /** Platform text separates platforms whose OS and architecture have no slash. */
  lemma PlatformStringIsInjective(p: Platform, q: Platform)
    requires p.SlashFree() && q.SlashFree() && p.String() == q.String()
    ensures p == q
  {
    var tail := (x: Platform) => if x.variant == "" then x.architecture else x.architecture + "/" + x.variant;
    assert forall x: Platform :: x.String() == x.os + "/" + tail(x) by {
      forall x: Platform ensures x.String() == x.os + "/" + tail(x) {
        assert x.os + "/" + x.architecture + "/" + x.variant == x.os + "/" + (x.architecture + "/" + x.variant);
      }
    }
    SlashCut(p.os, tail(p));
    SlashCut(q.os, tail(q));
    assert tail(p) == tail(q);
    SlashCut(p.architecture, p.variant);
    SlashCut(q.architecture, q.variant);
  }

  /** With a slash in the OS, distinct platforms can share their text. */
  lemma SlashedPlatformsCollide()
    ensures
      var p, q := Platform("linux/arm", "v7", ""), Platform("linux", "arm", "v7");
      p != q && p.String() == q.String()
  {
  }

  // ------------------------------------------------------------ what names mean

  /** The text before a slash names a registry when it has a dot or a colon, or is localhost. */
  predicate LooksLikeHost(s: string)
  {
    '.' in s || ':' in s || s == "localhost"
  }

  /** A name without a slash is an official image of Docker Hub; without a tag it means the latest. */
  lemma BareNameReads(name: string, tag: string)
    requires name != "" && '/' !in name && '@' !in name && ':' !in name
    requires ':' !in tag && '/' !in tag && '@' !in tag
    ensures Parsed(name) == Success(Reference("docker.io", "library/" + name, Some("latest"), None))
    ensures Parsed(name + ":" + tag) == Success(Reference("docker.io", "library/" + name, Some(tag), None))
  {
    hide IndexOf, LastIndexOf;
    NoDigestCutsNothing(name);
    NoDigestCutsNothing(name + ":" + tag);
    IndexOfUnique(name, '/', |name|);
    IndexOfUnique(name + ":" + tag, '/', |name + ":" + tag|);
    NoTagCutsNothing(name);
    TagCutsBack(name, tag);
  }

  lemma NoTagCutsNothing(name: string)
    requires ':' !in name
    ensures CutTag(name, None) == (name, None)
  {
  }

  /** What precedes the first slash is the registry if it looks like a host, else part of a Docker Hub repository. */
  lemma SlashedNameReads(first: string, rest: string)
    requires '/' !in first && '@' !in first && rest != "" && '@' !in rest && ':' !in rest
    ensures Parsed(first + "/" + rest) ==
      if !LooksLikeHost(first) then Success(Reference("docker.io", first + "/" + rest, Some("latest"), None))
      else if first == "docker.io" && '/' !in rest then Success(Reference("docker.io", "library/" + rest, Some("latest"), None))
      else Success(Reference(first, rest, Some("latest"), None))
  {
    hide IndexOf, LastIndexOf, CutTag;
    var name := first + "/" + rest;
    assert forall c | c in name :: c in first || c == '/' || c in rest;
    NoDigestCutsNothing(name);
    SlashCut(first, rest);
    NoTagCutsNothing(rest);
    if !LooksLikeHost(first) {
      NoTagCutsNothing(name);
    }
    assert name[|first|] == '/';
  }
}
