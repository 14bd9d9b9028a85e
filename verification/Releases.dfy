/**
  internal/observer/enrichment.go:82-159: what an inferred tag is worth, told from the tag list and the registry's
  answers alone.
*/
module Releases {
  import opened Prelude
  import opened SemVers
  import opened Tags
  import opened Registries
  import opened Enrichment
  import opened Sorting

  /** The tag resolves for the platform to the platform digest asked for, whatever the index digests. */
  predicate ServesDigest(view: RegistryView, q: Query, tag: string)
  {
    match view.resolve(q.repository, tag, q.platform)
    case Failure(_) => false
    case Success(m) => m.platformManifestDigest == q.digest
  }

  /** A tag other than the running one that names a version. */
  predicate IsRelease(running: string, tag: string)
  {
    tag != running && ParsedTag(tag).Application().Some?
  }

  function VersionOf(tag: string): SemVer
    requires ParsedTag(tag).Application().Some?
  {
    ParsedTag(tag).Application().value.version
  }

  /** How many of the tags are releases at least as new as the version. */
  function AtLeastAsNew(running: string, tags: seq<string>, v: SemVer): nat
  {
    if tags == [] then 0
    else
      var last := tags[|tags| - 1];
      AtLeastAsNew(running, tags[..|tags| - 1], v) + if IsRelease(running, last) && VersionOf(last).Compare(v) >= 0 then 1 else 0
  }

  function CountRanked(rs: seq<Ranked>, v: SemVer): nat
  {
    if rs == [] then 0
    else CountRanked(rs[..|rs| - 1], v) + if rs[|rs| - 1].ver.Compare(v) >= 0 then 1 else 0
  }

  lemma {:induction false} CountVersionable(running: string, tags: seq<string>, v: SemVer)
    ensures CountRanked(Versionable(running, tags), v) == AtLeastAsNew(running, tags, v)
  {
    hide ParsedTag, FirstUsable, SemVer.Compare;
    if tags != [] {
      var front := Versionable(running, tags[..|tags| - 1]);
      CountVersionable(running, tags[..|tags| - 1], v);
      var r := Enrichment.Rank(running, tags[|tags| - 1]);
      if r.Some? {
        assert (front + [r.value])[..|front|] == front;
      }
    }
  }

  lemma {:induction false} CountConcat(a: seq<Ranked>, b: seq<Ranked>, v: SemVer)
    ensures CountRanked(a + b, v) == CountRanked(a, v) + CountRanked(b, v)
  {
    hide SemVer.Compare;
    if b == [] {
      assert a + b == a;
    } else {
      assert (a + b)[..|a + b| - 1] == a + b[..|b| - 1];
      CountConcat(a, b[..|b| - 1], v);
    }
  }

  lemma {:induction false} CountIsOrderFree(a: seq<Ranked>, b: seq<Ranked>, v: SemVer)
    requires multiset(a) == multiset(b)
    ensures CountRanked(a, v) == CountRanked(b, v)
    decreases |a|
  {
    hide SemVer.Compare, CountRanked;
    assert |a| == |multiset(a)| == |multiset(b)| == |b|;
    if a != [] {
      var n := |a| - 1;
      assert a == a[..n] + [a[n]];
      assert a[n] in multiset(b);
      var i :| 0 <= i < |b| && b[i] == a[n];
      assert b == b[..i] + [b[i]] + b[i + 1..];
      SameRest(a, b, i);
      CountIsOrderFree(a[..n], b[..i] + b[i + 1..], v);
      CountConcat(a[..n], [a[n]], v);
      CountConcat(b[..i], b[i + 1..], v);
      CountConcat(b[..i], [b[i]], v);
      CountConcat(b[..i] + [b[i]], b[i + 1..], v);
    }
  }

  lemma SameRest(a: seq<Ranked>, b: seq<Ranked>, i: nat)
    requires multiset(a) == multiset(b) && a != [] && i < |b| && b[i] == a[|a| - 1]
    ensures multiset(a[..|a| - 1]) == multiset(b[..i] + b[i + 1..])
  {
    WithoutOne(a, |a| - 1);
    WithoutOne(b, i);
    assert Without(a, |a| - 1) == a[..|a| - 1];
    assert multiset(Without(a, |a| - 1)) == multiset(a) - multiset{b[i]} == multiset(Without(b, i));
  }

  /** In a newest-first arrangement everything up to a position is at least as new as what is there. */
  lemma {:induction false} NewestFirstCounts(full: seq<Ranked>, k: nat)
    requires SortedBy(NewerFirst, full) && k < |full|
    ensures CountRanked(full, full[k].ver) >= k + 1
  {
    hide SemVer.Compare;
    CountAllNotOlder(full[..k + 1], full[k].ver, full, k);
    assert full == full[..k + 1] + full[k + 1..];
    CountConcat(full[..k + 1], full[k + 1..], full[k].ver);
  }

  lemma {:induction false} CountAllNotOlder(rs: seq<Ranked>, v: SemVer, full: seq<Ranked>, k: nat)
    requires SortedBy(NewerFirst, full) && k < |full| && v == full[k].ver && rs <= full && |rs| <= k + 1
    ensures CountRanked(rs, v) == |rs|
  {
    if rs != [] {
      var n := |rs| - 1;
      CountAllNotOlder(rs[..n], v, full, k);
      assert rs[n] == full[n];
      assert n < k ==> !NewerFirst(full[k], full[n]);
    }
  }

  /** A release is scanned when no more releases than the cap allows are at least as new. */
  lemma WithinCapIsScanned(q: Query, tags: seq<string>, maxTags: nat, order: seq<Ranked>, i: nat)
    requires IsScanOrder(Versionable(q.running, tags), maxTags, order)
    requires i < |tags| && IsRelease(q.running, tags[i])
    requires AtLeastAsNew(q.running, tags, VersionOf(tags[i])) <= maxTags
    ensures Ranked(tags[i], VersionOf(tags[i])) in order
  {
    hide ParsedTag, FirstUsable, SemVer.Compare, Versionable, SortedBy, CountRanked, AtLeastAsNew;
    var all, r := Versionable(q.running, tags), Ranked(tags[i], VersionOf(tags[i]));
    var full: seq<Ranked> :| multiset(full) == multiset(all) && SortedBy(NewerFirst, full) && order == Capped(full, maxTags);
    assert Enrichment.Rank(q.running, tags[i]) == Some(r);
    VersionableHolds(q.running, tags, r);
    assert r in multiset(all) && r in multiset(full);
    var k :| 0 <= k < |full| && full[k] == r;
    NewestFirstCounts(full, k);
    CountIsOrderFree(full, all, r.ver);
    CountVersionable(q.running, tags, r.ver);
    assert order[k] == r;
  }

  lemma ScannedIsRelease(q: Query, tags: seq<string>, maxTags: nat, order: seq<Ranked>, r: Ranked)
    requires IsScanOrder(Versionable(q.running, tags), maxTags, order) && r in order
    ensures r.raw in tags && IsRelease(q.running, r.raw) && r.ver == VersionOf(r.raw)
  {
    hide ParsedTag, FirstUsable, SemVer.Compare, Versionable, SortedBy;
    var all := Versionable(q.running, tags);
    var full: seq<Ranked> :| multiset(full) == multiset(all) && SortedBy(NewerFirst, full) && order == Capped(full, maxTags);
    assert r in multiset(full) && r in multiset(all);
    VersionableHolds(q.running, tags, r);
    var i :| 0 <= i < |tags| && Enrichment.Rank(q.running, tags[i]) == Some(r);
  }

  /**
    An inferred tag is a listed release that resolves, without error, to exactly the platform digest asked
    for. Undisturbed, none is inferred only if no listed release within the cap does so.
  */
  lemma InferredIsRelease(view: RegistryView, q: Query, maxTags: nat, undisturbed: bool, tags: seq<string>, hint: Option<string>)
    requires InferredFrom(view, q, maxTags, undisturbed, Success(tags), hint)
    ensures hint.Some? ==> hint.value in tags && IsRelease(q.running, hint.value) && ServesDigest(view, q, hint.value)
    ensures undisturbed && hint.None? ==>
      forall i | 0 <= i < |tags| && IsRelease(q.running, tags[i]) && AtLeastAsNew(q.running, tags, VersionOf(tags[i])) <= maxTags ::
        !ServesDigest(view, q, tags[i])
  {
    hide ParsedTag, FirstUsable, Versionable, AtLeastAsNew, IsScanOrder;
    if hint.Some? || undisturbed {
      var order: seq<Ranked> :| IsScanOrder(Versionable(q.running, tags), maxTags, order) && hint == Answer(view, q, order);
      if hint.Some? {
        var r := order[FirstMatch(view, q, order).value];
        ScannedIsRelease(q, tags, maxTags, order, r);
      } else {
        forall i | 0 <= i < |tags| && IsRelease(q.running, tags[i]) && AtLeastAsNew(q.running, tags, VersionOf(tags[i])) <= maxTags
          ensures !ServesDigest(view, q, tags[i])
        {
          WithinCapIsScanned(q, tags, maxTags, order, i);
          var k :| 0 <= k < |order| && order[k] == Ranked(tags[i], VersionOf(tags[i]));
          assert !Matches(view, q, order[k].raw);
        }
      }
    }
  }
}
