/** internal/observer/enrichment.go: which release does a moved tag now serve? */
module Enrichment {
  import opened Prelude
  import opened Images
  import opened SemVers
  import opened Tags
  import opened Registries
  import opened Sorting

  const DEFAULT_MAX_TAGS := 100

  // -------------------------------------------------------------- the tag memo

  /** A listing an attempt may see: the registry's own, or, when the context ended meanwhile, an error. */
  ghost predicate IsListing(view: RegistryView, repository: string, undisturbed: bool, listing: Result<seq<string>, string>)
  {
    listing.Success? || undisturbed ==> listing == view.list(repository)
  }

  /** One group's memo of tag listings. Its mutex makes every call of List one atomic step. */
  class GroupCache {
    var tags: map<string, seq<string>>
    var errs: map<string, Option<string>>

    ghost predicate Valid()
      reads this
    {
      tags.Keys == errs.Keys
    }

    /** The remembered answer of each repository listed so far. */
    ghost function Memo(): map<string, Result<seq<string>, string>>
      requires Valid()
      reads this
    {
      map r | r in tags :: if errs[r].Some? then Failure(errs[r].value) else Success(tags[r])
    }

    /** Every remembered listing is the registry's own; without cancellations so is every remembered error. */
    ghost predicate Faithful(view: RegistryView, undisturbed: bool)
      requires Valid()
      reads this
    {
      forall r | r in Memo() :: IsListing(view, r, undisturbed, Memo()[r])
    }

    constructor ()
      ensures Valid() && Memo() == map[]
    {
      tags, errs := map[], map[];
    }

    /** The registry is asked at most once per repository, and its first answer, error or not, is the answer for good. */
    method List(reg: Registry, repository: string, cancelled: bool) returns (r: Result<seq<string>, string>)
      requires Valid()
      modifies this, reg`lists
      ensures Valid()
      ensures Memo() == old(Memo())[repository := r]
      ensures repository in old(Memo()) ==> r == old(Memo()[repository]) && reg.lists == old(reg.lists)
      ensures repository !in old(Memo()) ==> reg.lists == old(reg.lists) + 1
      ensures repository !in old(Memo()) && !cancelled ==> r == reg.view.list(repository)
      ensures repository !in old(Memo()) && cancelled ==> r.Failure?
    {
      if repository in tags {
        return if errs[repository].Some? then Failure(errs[repository].value) else Success(tags[repository]);
      }
      r := reg.ListTags(repository, cancelled);
      tags := tags[repository := if r.Success? then r.value else []];
      errs := errs[repository := if r.Failure? then Some(r.error) else None];
    }
  }

  // --------------------------------------------------------- the order of scan

  datatype Ranked = Ranked(raw: string, ver: SemVer)

  /** What is looked for: a tag of the repository, other than the running one, that resolves to the digest. */
  datatype Query = Query(repository: string, running: string, platform: Platform, digest: string)

  function Rank(running: string, raw: string): Option<Ranked>
  {
    if raw == running then None
    else
      match ParsedTag(raw).Application()
      case None => None
      case Some(app) => Some(Ranked(raw, app.version))
  }

  function Versionable(running: string, tags: seq<string>): seq<Ranked>
  {
    if tags == [] then []
    else
      var front, r := Versionable(running, tags[..|tags| - 1]), Rank(running, tags[|tags| - 1]);
      if r.Some? then front + [r.value] else front
  }

  lemma {:induction false} VersionableHolds(running: string, tags: seq<string>, r: Ranked)
    ensures r in Versionable(running, tags) <==> exists i | 0 <= i < |tags| :: Rank(running, tags[i]) == Some(r)
  {
    hide Rank;
    if tags != [] {
      var n := |tags| - 1;
      VersionableHolds(running, tags[..n], r);
      if r in Versionable(running, tags[..n]) {
        var i :| 0 <= i < n && Rank(running, tags[..n][i]) == Some(r);
        assert Rank(running, tags[i]) == Some(r);
      }
    }
  }

  /** The comparator handed to sort.Slice. */
  predicate NewerFirst(a: Ranked, b: Ranked)
  {
    a.ver.Compare(b.ver) > 0
  }

  lemma NewerFirstIsWeakOrder()
    ensures StrictWeakOrder(NewerFirst)
  {
  }

  function Capped(full: seq<Ranked>, maxTags: nat): seq<Ranked>
  {
    if |full| > maxTags then full[..maxTags] else full
  }

  /** Some newest-first arrangement of all versionable tags, cut at the cap; ties may come in any order. */
  ghost predicate IsScanOrder(all: seq<Ranked>, maxTags: nat, order: seq<Ranked>)
  {
    exists full: seq<Ranked> ::
      multiset(full) == multiset(all) && SortedBy(NewerFirst, full) && order == Capped(full, maxTags)
  }

  /** The cap keeps as many tags as it allows. */
  lemma ScanOrderLength(all: seq<Ranked>, maxTags: nat, order: seq<Ranked>)
    requires IsScanOrder(all, maxTags, order)
    ensures |order| == if |all| < maxTags then |all| else maxTags
  {
    var full: seq<Ranked> :| multiset(full) == multiset(all) && SortedBy(NewerFirst, full) && order == Capped(full, maxTags);
    assert |full| == |multiset(full)| == |multiset(all)| == |all|;
  }

  // ------------------------------------------------------- the sequential scan

  predicate Matches(view: RegistryView, q: Query, raw: string)
  {
    var m := view.resolve(q.repository, raw, q.platform);
    m.Success? && m.value.platformManifestDigest == q.digest
  }

  /** The plain scan: the first tag, in order, that resolves to the digest. */
  function FirstMatch(view: RegistryView, q: Query, order: seq<Ranked>): (k: Option<nat>)
    ensures k.Some? ==> k.value < |order| && Matches(view, q, order[k.value].raw)
    ensures forall j | 0 <= j < (if k.Some? then k.value else |order|) :: !Matches(view, q, order[j].raw)
  {
    if order == [] then None
    else if Matches(view, q, order[0].raw) then Some(0)
    else
      match FirstMatch(view, q, order[1..])
      case None => None
      case Some(k) => Some(k + 1)
  }

  function Answer(view: RegistryView, q: Query, order: seq<Ranked>): Option<string>
  {
    var k := FirstMatch(view, q, order);
    if k.Some? then Some(order[k.value].raw) else None
  }

  /** A returned tag is the newest: no strictly newer tag of the repository resolves to the digest. */
  lemma NoNewerTagMatches(view: RegistryView, q: Query, tags: seq<string>, maxTags: nat, order: seq<Ranked>, newer: Ranked, i: nat)
    requires IsScanOrder(Versionable(q.running, tags), maxTags, order) && FirstMatch(view, q, order).Some?
    requires i < |tags| && Rank(q.running, tags[i]) == Some(newer)
    requires newer.ver.Newer(order[FirstMatch(view, q, order).value].ver)
    ensures !Matches(view, q, newer.raw)
  {
    hide Rank, Matches, Versionable, FirstMatch, SemVer.Compare, SortedBy;
    var k := FirstMatch(view, q, order).value;
    var all := Versionable(q.running, tags);
    var full: seq<Ranked> :| multiset(full) == multiset(all) && SortedBy(NewerFirst, full) && order == Capped(full, maxTags);
    VersionableHolds(q.running, tags, newer);
    assert newer in multiset(all) && newer in multiset(full);
    var j :| 0 <= j < |full| && full[j] == newer;
    NewerComesFirst(full, j, k);
    assert order[j] == newer;
  }

  lemma NewerComesFirst(full: seq<Ranked>, j: nat, k: nat)
    requires SortedBy(NewerFirst, full) && j < |full| && k < |full| && full[j].ver.Newer(full[k].ver)
    ensures j < k
  {
  }

  // ------------------------------------------------------- the windowed search

  /** How far the windows have reached once the window holding position k is complete. */
  function WindowEnd(k: nat, window: nat): nat
    requires window > 0
  {
    (k / window + 1) * window
  }

  lemma WindowEndIs(k: nat, window: nat, round: nat)
    requires window > 0 && round * window <= k < round * window + window
    ensures WindowEnd(k, window) == round * window + window
  {
    var r := k - round * window;
    assert k == round * window + r;
    DivIs(k, window, round, r);
    assert (round + 1) * window == round * window + window;
  }

  lemma DivIs(k: nat, d: nat, q: nat, r: nat)
    requires d > 0 && r < d && k == q * d + r
    ensures k / d == q
  {
    var q' := k / d;
    assert k == q' * d + k % d;
    assert (q' - q) * d == r - k % d;
    if q' > q {
      AtLeastOnce(q' - q, d);
    } else if q > q' {
      AtLeastOnce(q - q', d);
    }
  }

  lemma AtLeastOnce(n: nat, d: nat)
    requires n > 0
    ensures n * d >= d
  {
  }

  function Min(a: int, b: int): int
  {
    if a < b then a else b
  }

  function Raws(order: seq<Ranked>): (raws: seq<string>)
    ensures |raws| == |order|
    ensures forall i | 0 <= i < |order| :: raws[i] == order[i].raw
  {
    seq(|order|, i requires 0 <= i < |order| => order[i].raw)
  }

  /** The requests a search needs: whole windows up to the first match, or everything. */
  function Needed(k: Option<nat>, n: nat, window: nat): nat
    requires n > 0 ==> window > 0
  {
    if n == 0 then 0 else if k.Some? && WindowEnd(k.value, window) < n then WindowEnd(k.value, window) else n
  }

  /** The position of the match inside a fetched window, or its end. */
  method ScanWindow(reg: Registry, q: Query, order: seq<Ranked>, start: nat, end: nat, obs: array<Result<Manifest, string>>)
    returns (at: nat)
    requires start <= end <= |order| == obs.Length
    requires forall i | start <= i < end :: Fetched(reg, q.repository, q.platform, Raws(order), obs[..], i)
    ensures start <= at <= end
    ensures at < end ==> Matches(reg.view, q, order[at].raw)
    ensures forall i | start <= i < at :: !Matches(reg.view, q, order[i].raw)
  {
    for i := start to end
      invariant forall j | start <= j < i :: !Matches(reg.view, q, order[j].raw)
    {
      assert Fetched(reg, q.repository, q.platform, Raws(order), obs[..], i);
      if obs[i].Failure? {
        continue;
      }
      if obs[i].value.platformManifestDigest == q.digest {
        return i;
      }
    }
    return end;
  }

  /** One window is fetched, and looked through unless the context has ended. */
  method FetchWindow(reg: Registry, q: Query, order: seq<Ranked>, start: nat, end: nat,
                     obs: array<Result<Manifest, string>>, late: bool)
    returns (at: nat)
    requires start <= end <= |order| == obs.Length
    modifies obs, reg`asked
    ensures forall before | old(reg.asked) == before + Newest(q, order, start) :: reg.asked == before + Newest(q, order, end)
    ensures start <= at <= end
    ensures at < end ==> !late && Matches(reg.view, q, order[at].raw)
    ensures !late ==> forall i | start <= i < at :: !Matches(reg.view, q, order[i].raw)
  {
    hide Newest, Matches;
    FetchConcurrently(reg, q.repository, q.platform, Raws(order), start, end, obs, late);
    NewestGrows(q, order, start, end);
    if late {
      return end;
    }
    at := ScanWindow(reg, q, order, start, end, obs);
  }

  /**
    The windowed search. Context checks are numbered: check 2r + 1 comes before window r is fetched,
    check 2r + 2 after it.
  */
  method SearchWindows(reg: Registry, q: Query, order: seq<Ranked>, workers: nat, cancelled: nat -> bool)
    returns (tag: Option<string>, ghost spent: nat)
    requires workers >= 1 && order != []
    modifies reg`asked
    ensures tag.Some? ==> tag == Answer(reg.view, q, order)
    ensures (forall n :: !cancelled(n)) ==> tag == Answer(reg.view, q, order)
    ensures spent <= |order| && reg.asked == old(reg.asked) + Newest(q, order, spent)
    ensures
      var needed := Needed(FirstMatch(reg.view, q, order), |order|, Min(workers, |order|));
      spent <= needed && ((forall n :: !cancelled(n)) ==> spent == needed)
  {
    hide FirstMatch, Matches, WindowEnd, Newest, Needed;
    var window: nat := Min(workers, |order|);
    var obs := new Result<Manifest, string>[|order|](_ => Failure(""));
    ghost var best := FirstMatch(reg.view, q, order);
    var start, round := 0, 0;
    spent := 0;
    NewestNothing(q, order);
    while start < |order|
      invariant start == round * window
      invariant forall i | 0 <= i < start && i < |order| :: !Matches(reg.view, q, order[i].raw)
      invariant spent == Min(start, |order|) && reg.asked == old(reg.asked) + Newest(q, order, spent)
      invariant spent <= Needed(best, |order|, window)
      decreases |order| - start
    {
      var end := Min(start + window, |order|);
      NeededCovers(best, |order|, window, round);
      if cancelled(2 * round + 1) {
        return None, spent;
      }
      var late := cancelled(2 * round + 2);
      var at := FetchWindow(reg, q, order, start, end, obs, late);
      spent := end;
      if late {
        return None, spent;
      }
      if at < end {
        FirstIs(best, reg.view, q, order, at);
        NeededEnds(at, |order|, window, round);
        return Some(order[at].raw), spent;
      }
      NextRound(round, window);
      start := start + window;
      round := round + 1;
    }
    NeededAll(|order|, window);
    return None, spent;
  }

  /** The requests for the first n tags of a scan, one each. */
  ghost function Newest(q: Query, order: seq<Ranked>, n: nat): (asked: multiset<Request>)
    requires n <= |order|
    ensures |asked| == n
  {
    multiset(Requests(q.repository, q.platform, Raws(order)[..n]))
  }

  lemma NewestNothing(q: Query, order: seq<Ranked>)
    ensures Newest(q, order, 0) == multiset{}
  {
  }

  lemma NewestGrows(q: Query, order: seq<Ranked>, start: nat, end: nat)
    requires start <= end <= |order|
    ensures Newest(q, order, end) ==
      Newest(q, order, start) + multiset(Requests(q.repository, q.platform, Raws(order)[start..end]))
  {
    var raws := Raws(order);
    assert Requests(q.repository, q.platform, raws[..end]) ==
      Requests(q.repository, q.platform, raws[..start]) + Requests(q.repository, q.platform, raws[start..end]);
  }

  lemma FirstIs(k: Option<nat>, view: RegistryView, q: Query, order: seq<Ranked>, at: nat)
    requires k == FirstMatch(view, q, order) && at < |order| && Matches(view, q, order[at].raw)
    requires forall i | 0 <= i < at :: !Matches(view, q, order[i].raw)
    ensures k == Some(at)
  {
  }

  lemma NextRound(round: nat, window: nat)
    ensures (round + 1) * window == round * window + window
  {
  }

  /** Without a match everything is needed. */
  lemma NeededAll(n: nat, window: nat)
    requires n > 0 ==> window > 0
    ensures Needed(None, n, window) == n
  {
  }

  /** When no earlier window matched, the whole of this window is needed. */
  lemma NeededCovers(k: Option<nat>, n: nat, window: nat, round: nat)
    requires window > 0 && round * window < n
    requires k.Some? ==> round * window <= k.value < n
    ensures Min(round * window + window, n) <= Needed(k, n, window)
  {
    if k.Some? {
      WindowEndAtLeast(k.value, window, round);
    }
  }

  lemma WindowEndAtLeast(k: nat, window: nat, round: nat)
    requires window > 0 && round * window <= k
    ensures round * window + window <= WindowEnd(k, window)
  {
    var quotient := k / window;
    assert k == quotient * window + k % window;
    if quotient < round {
      assert (round - quotient) * window == round * window - quotient * window;
      AtLeastOnce(round - quotient, window);
    } else {
      assert quotient * window == round * window + (quotient - round) * window;
      assert (quotient + 1) * window == quotient * window + window;
    }
  }

  lemma NeededEnds(at: nat, n: nat, window: nat, round: nat)
    requires window > 0 && round * window <= at < round * window + window && at < n
    ensures Needed(Some(at), n, window) == Min(round * window + window, n)
  {
    WindowEndIs(at, window, round);
  }

  function EffectiveMaxTags(configured: int): nat
  {
    if configured <= 0 then DEFAULT_MAX_TAGS else configured
  }

  method CollectVersionable(running: string, tags: seq<string>) returns (candidates: seq<Ranked>)
    ensures candidates == Versionable(running, tags)
  {
    hide ParsedTag;
    candidates := [];
    for i := 0 to |tags|
      invariant candidates == Versionable(running, tags[..i])
    {
      var raw := tags[i];
      assert tags[..i + 1][..i] == tags[..i];
      if raw == running {
        continue;
      }
      var tv := ParseTag(raw);
      var app := FindUsable(tv.components, Role.Application);
      if app.Some? {
        candidates := candidates + [Ranked(raw, app.value.version)];
      }
    }
    assert tags[..|tags|] == tags;
  }

  /**
    One enrichment attempt. Check 0 of the context happens while the tags are listed. Without cancellation
    the answer is that of the plain scan, whatever the number of workers; with it, it is that or none.
  */
  method AttemptEnrichment(reg: Registry, cache: GroupCache, q: Query, configuredMaxTags: int, workers: nat,
                           cancelled: nat -> bool)
    returns (tag: Option<string>, ghost order: seq<Ranked>, ghost spent: nat)
    requires cache.Valid() && workers >= 1
    modifies cache, reg`lists, reg`asked
    ensures cache.Valid() && q.repository in cache.Memo()
    ensures cache.Memo() == old(cache.Memo())[q.repository := cache.Memo()[q.repository]]
    ensures q.repository in old(cache.Memo()) ==> cache.Memo() == old(cache.Memo())
    ensures q.repository !in old(cache.Memo()) ==>
      var listing := cache.Memo()[q.repository];
      listing.Success? || !cancelled(0) ==> listing == reg.view.list(q.repository)
    ensures reg.lists == old(reg.lists) + if q.repository in old(cache.Memo()) then 0 else 1
    ensures var listing := cache.Memo()[q.repository];
      if listing.Failure? then tag.None? && reg.asked == old(reg.asked)
      else
        var needed := Needed(FirstMatch(reg.view, q, order), |order|, Min(workers, |order|));
        && IsScanOrder(Versionable(q.running, listing.value), EffectiveMaxTags(configuredMaxTags), order)
        && (tag.Some? ==> tag == Answer(reg.view, q, order))
        && ((forall n :: !cancelled(n)) ==> tag == Answer(reg.view, q, order))
        && spent <= |order| && reg.asked == old(reg.asked) + Newest(q, order, spent)
        && spent <= needed && ((forall n :: !cancelled(n)) ==> spent == needed)
  {
    hide FirstMatch, Versionable, Needed, WindowEnd, EffectiveMaxTags, Newest;
    order, spent := [], 0;
    var maxTags := EffectiveMaxTags(configuredMaxTags);
    var tags := cache.List(reg, q.repository, cancelled(0));
    if tags.Failure? {
      return None, order, spent;
    }
    var candidates := CollectVersionable(q.running, tags.value);
    NewerFirstIsWeakOrder();
    var sorted := SortSlice(candidates, NewerFirst);
    var capped := Capped(sorted, maxTags);
    order := capped;
    if |capped| == 0 {
      NothingToFind(reg.view, q);
      NewestNothing(q, order);
      return None, order, spent;
    }
    tag, spent := SearchWindows(reg, q, capped, workers, cancelled);
  }

  lemma NothingToFind(view: RegistryView, q: Query)
    ensures FirstMatch(view, q, []) == None && Needed(None, 0, 0) == 0
  {
  }

  /**
    What an inferred tag means: it is the answer of the plain scan of the listing's versionable tags in
    some newest-first order, cut at the cap. Without cancellations the absence of a tag means the same.
  */
  ghost predicate InferredFrom(view: RegistryView, q: Query, maxTags: nat, undisturbed: bool,
                               listing: Result<seq<string>, string>, hint: Option<string>)
  {
    match listing
    case Failure(_) => hint.None?
    case Success(tags) => hint.Some? || undisturbed ==> IsScanAnswer(view, q, tags, maxTags, hint)
  }

  ghost predicate IsScanAnswer(view: RegistryView, q: Query, tags: seq<string>, maxTags: nat, hint: Option<string>)
  {
    exists order: seq<Ranked> :: IsScanOrder(Versionable(q.running, tags), maxTags, order) && hint == Answer(view, q, order)
  }

  /** The most manifests an attempt asks for: the versionable tags of the repository, up to the cap. */
  function AttemptBudget(view: RegistryView, repository: string, running: string, maxTags: nat): nat
  {
    match view.list(repository)
    case Failure(_) => 0
    case Success(tags) => Min(maxTags, |Versionable(running, tags)|)
  }

  /**
    An attempt on a faithful memo infers what the registry's answers support, keeps the memo faithful, and
    stays within its budgets.
  */
  method Enrich(reg: Registry, cache: GroupCache, q: Query, configuredMaxTags: int, workers: nat,
                cancelled: nat -> bool, ghost undisturbed: bool)
    returns (tag: Option<string>)
    requires cache.Valid() && workers >= 1 && cache.Faithful(reg.view, undisturbed)
    requires undisturbed ==> forall n :: !cancelled(n)
    modifies cache, reg`lists, reg`asked
    ensures cache.Valid() && cache.Faithful(reg.view, undisturbed)
    ensures cache.Memo().Keys == old(cache.Memo().Keys) + {q.repository}
    ensures reg.lists == old(reg.lists) + if q.repository in old(cache.Memo()) then 0 else 1
    ensures |reg.asked| <= |old(reg.asked)| + AttemptBudget(reg.view, q.repository, q.running, EffectiveMaxTags(configuredMaxTags))
    ensures q.repository in old(cache.Memo()) ==> cache.Memo() == old(cache.Memo())
    ensures
      var listing := cache.Memo()[q.repository];
      && IsListing(reg.view, q.repository, undisturbed, listing)
      && InferredFrom(reg.view, q, EffectiveMaxTags(configuredMaxTags), undisturbed, listing, tag)
  {
    hide Versionable, Answer, Needed, FirstMatch, EffectiveMaxTags, IsScanOrder, WindowEnd, Newest;
    ghost var order, spent;
    tag, order, spent := AttemptEnrichment(reg, cache, q, configuredMaxTags, workers, cancelled);
    ghost var listing := cache.Memo()[q.repository];
    if listing.Success? {
      ScanOrderLength(Versionable(q.running, listing.value), EffectiveMaxTags(configuredMaxTags), order);
    }
    if listing.Success? && (tag.Some? || undisturbed) {
      assert IsScanAnswer(reg.view, q, listing.value, EffectiveMaxTags(configuredMaxTags), tag);
    }
  }
}
