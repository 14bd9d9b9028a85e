/** internal/registry/registry.go: a registry client, as an oracle fixed for one cycle plus a log of the requests made. */
module Registries {
  import opened Prelude
  import opened Images

  datatype Manifest = Manifest(indexDigest: string, platformManifestDigest: string)

  /** What the registry would answer: by repository, tag and platform, and by repository. */
  datatype RegistryView = RegistryView(
    resolve: (string, string, Platform) -> Result<Manifest, string>,
    list: string -> Result<seq<string>, string>)

  /** One manifest request. */
  datatype Request = Request(repository: string, tag: string, platform: Platform)

  class Registry {
    const view: RegistryView
    var lists: nat
    var asked: multiset<Request>

    constructor (view: RegistryView)
      ensures this.view == view && lists == 0 && asked == multiset{}
    {
      this.view, lists, asked := view, 0, multiset{};
    }

    /** A request on a cancelled context fails; any other gets the registry's answer. */
    method ListTags(repository: string, cancelled: bool) returns (r: Result<seq<string>, string>)
      modifies this`lists
      ensures lists == old(lists) + 1
      ensures r == if cancelled then Failure("context canceled") else view.list(repository)
    {
      lists := lists + 1;
      r := if cancelled then Failure("context canceled") else view.list(repository);
    }

    method ResolveForPlatform(repository: string, tag: string, platform: Platform) returns (r: Result<Manifest, string>)
      modifies this`asked
      ensures asked == old(asked) + multiset{Request(repository, tag, platform)}
      ensures r == view.resolve(repository, tag, platform)
    {
      asked := asked + multiset{Request(repository, tag, platform)};
      r := view.resolve(repository, tag, platform);
    }
  }

  ghost predicate Fetched(reg: Registry, repository: string, platform: Platform, tags: seq<string>,
                          obs: seq<Result<Manifest, string>>, i: nat)
    requires i < |tags| && i < |obs|
  {
    obs[i] == reg.view.resolve(repository, tags[i], platform)
  }

  /** One request for each tag of a list. */
  function Requests(repository: string, platform: Platform, tags: seq<string>): (rs: seq<Request>)
    ensures |rs| == |tags|
    ensures forall i | 0 <= i < |tags| :: rs[i] == Request(repository, tags[i], platform)
  {
    seq(|tags|, i requires 0 <= i < |tags| => Request(repository, tags[i], platform))
  }

  /** One request for each tag of a set. */
  function RequestsOf(repository: string, platform: Platform, tags: set<string>): set<Request>
  {
    set tag | tag in tags :: Request(repository, tag, platform)
  }

  /** A list without repetitions asks for each of its tags exactly once. */
  lemma {:induction false} EachTagOnce(repository: string, platform: Platform, tags: seq<string>)
    requires forall i, j | 0 <= i < j < |tags| :: tags[i] != tags[j]
    ensures multiset(Requests(repository, platform, tags)) ==
      multiset(RequestsOf(repository, platform, set tag | tag in tags))
  {
    if tags == [] {
      assert RequestsOf(repository, platform, set tag | tag in tags) == {};
    } else {
      var front, last := tags[..|tags| - 1], tags[|tags| - 1];
      var request := Request(repository, last, platform);
      EachTagOnce(repository, platform, front);
      assert Requests(repository, platform, tags) == Requests(repository, platform, front) + [request];
      var before := RequestsOf(repository, platform, set tag | tag in front);
      assert tags == front + [last];
      assert RequestsOf(repository, platform, set tag | tag in tags) == before + {request};
      assert request !in before;
    }
  }

  /** The positions start .. end, in order. */
  function Positions(start: nat, end: nat): (ps: seq<nat>)
    requires start <= end
    ensures |ps| == end - start
    ensures forall k | 0 <= k < |ps| :: ps[k] == start + k
    ensures forall i | start <= i < end :: i in ps
    decreases end - start
  {
    if start == end then [] else Positions(start, end - 1) + [end - 1]
  }

  function Without<T(!new)>(s: seq<T>, k: nat): (r: seq<T>)
    requires k < |s|
    ensures |r| == |s| - 1
    ensures forall x :: x in s <==> x in r || x == s[k]
  {
    assert s == s[..k] + [s[k]] + s[k + 1..];
    s[..k] + s[k + 1..]
  }

  lemma WithoutOne<T(!new)>(s: seq<T>, k: nat)
    requires k < |s|
    ensures multiset(s) == multiset(Without(s, k)) + multiset{s[k]}
  {
    assert s == s[..k] + [s[k]] + s[k + 1..];
  }

  /** The requests still to be made for the pending positions. */
  ghost predicate Outstanding(repository: string, platform: Platform, tags: seq<string>, pending: seq<nat>, left: seq<Request>)
  {
    && |left| == |pending|
    && forall k | 0 <= k < |pending| :: pending[k] < |tags| && left[k] == Request(repository, tags[pending[k]], platform)
  }

  lemma AllOutstanding(repository: string, platform: Platform, tags: seq<string>, start: nat, end: nat)
    requires start <= end <= |tags|
    ensures Outstanding(repository, platform, tags, Positions(start, end), Requests(repository, platform, tags[start..end]))
  {
  }

  lemma OutstandingWithout(repository: string, platform: Platform, tags: seq<string>, pending: seq<nat>, left: seq<Request>, k: nat)
    requires Outstanding(repository, platform, tags, pending, left) && k < |pending|
    ensures |left| == |pending| && pending[k] < |tags| && left[k] == Request(repository, tags[pending[k]], platform)
    ensures Outstanding(repository, platform, tags, Without(pending, k), Without(left, k))
  {
  }

  /**
    The manifests of tags[start..end] are fetched concurrently, so they complete in any order; each is
    requested exactly once. When the context ended meanwhile (late), a request still in flight may have failed.
  */
  method FetchConcurrently(reg: Registry, repository: string, platform: Platform, tags: seq<string>,
                           start: nat, end: nat, obs: array<Result<Manifest, string>>, late: bool)
    requires start <= end <= |tags| == obs.Length
    modifies obs, reg`asked
    ensures reg.asked == old(reg.asked) + multiset(Requests(repository, platform, tags[start..end]))
    ensures !late ==> forall i | start <= i < end :: Fetched(reg, repository, platform, tags, obs[..], i)
  {
    hide Without, Outstanding;
    var pending := Positions(start, end);
    ghost var left := Requests(repository, platform, tags[start..end]);
    AllOutstanding(repository, platform, tags, start, end);
    while pending != []
      invariant forall i | i in pending :: start <= i < end
      invariant Outstanding(repository, platform, tags, pending, left)
      invariant reg.asked + multiset(left) == old(reg.asked) + multiset(Requests(repository, platform, tags[start..end]))
      invariant !late ==>
          forall i | start <= i < end && i !in pending :: Fetched(reg, repository, platform, tags, obs[..], i)
      decreases |pending|
    {
      var k: nat :| k < |pending|;
      var i := pending[k];
      OutstandingWithout(repository, platform, tags, pending, left, k);
      WithoutOne(left, k);
      pending, left := Without(pending, k), Without(left, k);
      var m := reg.ResolveForPlatform(repository, tags[i], platform);
      if late {
        var lost: bool := *;
        if lost {
          m := Failure("context canceled");
        }
      }
      obs[i] := m;
    }
    assert Outstanding(repository, platform, tags, pending, left);
    NothingOutstanding(repository, platform, tags, left);
  }

  lemma NothingOutstanding(repository: string, platform: Platform, tags: seq<string>, left: seq<Request>)
    requires Outstanding(repository, platform, tags, [], left)
    ensures left == []
  {
  }
}
