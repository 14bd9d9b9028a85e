/** internal/observer/observer.go:90-210: containers are grouped by image stream, and the groups are ordered. */
module Groups {
  import opened Prelude
  import opened Text
  import opened Images
  import opened States
  import opened Sorting

  datatype Container = Container(
    name: string, image: Reference, digest: string, platform: Platform, labels: map<string, string>)

  const SKIP_LABEL := "image-watch.skip"

  /** The group a container belongs to; digest-pinned, tagless and skipped containers belong to none. */
  function KeyOf(c: Container): Option<Key>
  {
    if c.image.IsDigestPinned() || c.image.tag.None? then None
    else if SKIP_LABEL in c.labels && c.labels[SKIP_LABEL] == "true" then None
    else Some(Key(c.image.registry, c.image.repository, c.image.tag.value, c.platform))
  }

  /** The containers of one group, in list order. */
  function Members(containers: seq<Container>, key: Key): seq<Container>
  {
    if containers == [] then []
    else
      var front, c := Members(containers[..|containers| - 1], key), containers[|containers| - 1];
      if KeyOf(c) == Some(key) then front + [c] else front
  }

  /** Each group holds exactly its members, and a group exists exactly for each key that occurs. */
  ghost predicate IsGrouping(containers: seq<Container>, groups: map<Key, seq<Container>>)
  {
    && (forall k | k in groups :: groups[k] == Members(containers, k) && groups[k] != [])
    && (forall k :: k !in groups ==> Members(containers, k) == [])
  }

  method GroupContainers(containers: seq<Container>) returns (groups: map<Key, seq<Container>>)
    ensures IsGrouping(containers, groups)
  {
    hide KeyOf;
    groups := map[];
    for i := 0 to |containers|
      invariant IsGrouping(containers[..i], groups)
    {
      var c := containers[i];
      assert containers[..i + 1][..i] == containers[..i];
      var key := KeyOf(c);
      if key.None? {
        continue;
      }
      var members := if key.value in groups then groups[key.value] else [];
      groups := groups[key.value := members + [c]];
    }
    assert containers[..|containers|] == containers;
  }

  lemma {:induction false} MembersHaveKey(containers: seq<Container>, key: Key)
    ensures forall i | 0 <= i < |Members(containers, key)| ::
      KeyOf(Members(containers, key)[i]) == Some(key) && Members(containers, key)[i] in containers
  {
    hide KeyOf;
    if containers != [] {
      MembersHaveKey(containers[..|containers| - 1], key);
    }
  }

  // ------------------------------------------------------------------ ordering

  predicate KeyLess(a: Key, b: Key)
  {
    if a.registry != b.registry then Less(a.registry, b.registry)
    else if a.repository != b.repository then Less(a.repository, b.repository)
    else if a.tag != b.tag then Less(a.tag, b.tag)
    else if a.platform.os != b.platform.os then Less(a.platform.os, b.platform.os)
    else if a.platform.architecture != b.platform.architecture then Less(a.platform.architecture, b.platform.architecture)
    else Less(a.platform.variant, b.platform.variant)
  }

  function KeyFields(k: Key): seq<string>
  {
    [k.registry, k.repository, k.tag, k.platform.os, k.platform.architecture, k.platform.variant]
  }

  lemma LessIsStrictOrder(a: string, b: string, c: string)
    ensures !Less(a, a)
    ensures Less(a, b) || a == b || Less(b, a)
    ensures Less(a, b) ==> !Less(b, a)
    ensures Less(a, b) && Less(b, c) ==> Less(a, c)
  {
    LessIrreflexive(a);
    LessTotal(a, b);
    if Less(a, b) && Less(b, a) {
      LessTransitive(a, b, a);
    }
    if Less(a, b) && Less(b, c) {
      LessTransitive(a, b, c);
    }
  }

  /** The key order is a strict total order: no two distinct keys tie. */
  lemma KeyLessIsStrictTotalOrder(a: Key, b: Key, c: Key)
    ensures !KeyLess(a, a)
    ensures KeyLess(a, b) || a == b || KeyLess(b, a)
    ensures KeyLess(a, b) ==> !KeyLess(b, a)
    ensures KeyLess(a, b) && KeyLess(b, c) ==> KeyLess(a, c)
  {
    hide Less;
    var x, y, z := KeyFields(a), KeyFields(b), KeyFields(c);
    forall i | 0 <= i < 6
      ensures !Less(x[i], x[i]) && (Less(x[i], y[i]) || x[i] == y[i] || Less(y[i], x[i]))
      ensures (Less(x[i], y[i]) ==> !Less(y[i], x[i])) && (Less(x[i], y[i]) && Less(y[i], z[i]) ==> Less(x[i], z[i]))
    {
      LessIsStrictOrder(x[i], y[i], z[i]);
    }
    assert x[0] == a.registry && x[1] == a.repository && x[2] == a.tag;
    assert x[3] == a.platform.os && x[4] == a.platform.architecture && x[5] == a.platform.variant;
  }

  lemma KeyLessIsWeakOrder()
    ensures StrictWeakOrder(KeyLess)
  {
    hide KeyLess;
    forall a: Key, b: Key, c: Key
      ensures KeyLess(a, b) ==> !KeyLess(b, a)
      ensures !KeyLess(a, b) && !KeyLess(b, c) ==> !KeyLess(a, c)
    {
      KeyLessIsStrictTotalOrder(a, b, c);
      KeyLessIsStrictTotalOrder(a, c, b);
      KeyLessIsStrictTotalOrder(c, b, a);
      KeyLessIsStrictTotalOrder(b, a, c);
    }
  }

  ghost predicate StrictlySorted(keys: seq<Key>)
  {
    forall i, j | 0 <= i < j < |keys| :: KeyLess(keys[i], keys[j])
  }

  ghost predicate Enumerates(keys: seq<Key>, domain: set<Key>)
  {
    forall k :: k in keys <==> k in domain
  }

  /** The map is read in an arbitrary order; the sorted key list does not depend on it. */
  method SortedGroupKeys(groups: map<Key, seq<Container>>) returns (keys: seq<Key>)
    ensures StrictlySorted(keys) && Enumerates(keys, groups.Keys)
  {
    hide KeyLess;
    var unsorted: seq<Key> := [];
    var rest := groups.Keys;
    while rest != {}
      invariant rest <= groups.Keys
      invariant forall k :: k in unsorted <==> k in groups.Keys && k !in rest
      invariant forall i, j | 0 <= i < j < |unsorted| :: unsorted[i] != unsorted[j]
      decreases |rest|
    {
      var key :| key in rest;
      unsorted := unsorted + [key];
      rest := rest - {key};
    }
    KeyLessIsWeakOrder();
    keys := SortSlice(unsorted, KeyLess);
    assert forall k :: k in keys <==> k in multiset(keys);
    assert forall k :: k in unsorted <==> k in multiset(unsorted);
    SortedDistinctIsStrict(unsorted, keys);
  }

  lemma SortedDistinctIsStrict(unsorted: seq<Key>, keys: seq<Key>)
    requires multiset(keys) == multiset(unsorted) && SortedBy(KeyLess, keys)
    requires forall i, j | 0 <= i < j < |unsorted| :: unsorted[i] != unsorted[j]
    ensures StrictlySorted(keys)
  {
    hide KeyLess;
    forall i, j | 0 <= i < j < |keys| ensures KeyLess(keys[i], keys[j]) {
      KeyLessIsStrictTotalOrder(keys[i], keys[j], keys[i]);
      if keys[i] == keys[j] {
        TwiceInMultiset(keys, i, j);
        DistinctOnce(unsorted, keys[i]);
      }
    }
  }

  lemma TwiceInMultiset(keys: seq<Key>, i: nat, j: nat)
    requires i < j < |keys| && keys[i] == keys[j]
    ensures multiset(keys)[keys[i]] >= 2
  {
    assert keys == keys[..i] + [keys[i]] + keys[i + 1..j] + [keys[j]] + keys[j + 1..];
  }

  lemma {:induction false} DistinctOnce(keys: seq<Key>, k: Key)
    requires forall i, j | 0 <= i < j < |keys| :: keys[i] != keys[j]
    ensures multiset(keys)[k] <= 1
  {
    if keys != [] {
      var front, last := keys[..|keys| - 1], keys[|keys| - 1];
      DistinctOnce(front, k);
      assert keys == front + [last];
      if last == k {
        assert k !in front;
        assert multiset(front)[k] == 0;
      }
    }
  }

  /** Two strictly sorted lists of the same keys are the same list. */
  lemma {:induction false} SortedKeysAreUnique(a: seq<Key>, b: seq<Key>, domain: set<Key>)
    requires StrictlySorted(a) && StrictlySorted(b) && Enumerates(a, domain) && Enumerates(b, domain)
    ensures a == b
    decreases |a|
  {
    hide KeyLess;
    assert b != [] ==> b[0] in b && b[0] in a;
    if a != [] {
      assert a[0] in a;
      assert b != [];
      assert b[0] in b && a[0] in b && b[0] in a;
      var i :| 0 <= i < |a| && a[i] == b[0];
      var j :| 0 <= j < |b| && b[j] == a[0];
      KeyLessIsStrictTotalOrder(a[0], b[0], a[0]);
      TailEnumerates(a, domain);
      TailEnumerates(b, domain);
      SortedKeysAreUnique(a[1..], b[1..], domain - {a[0]});
    }
  }

  lemma TailEnumerates(a: seq<Key>, domain: set<Key>)
    requires StrictlySorted(a) && Enumerates(a, domain) && a != []
    ensures StrictlySorted(a[1..]) && Enumerates(a[1..], domain - {a[0]})
  {
    hide KeyLess;
    KeyLessIsStrictTotalOrder(a[0], a[0], a[0]);
    forall k ensures k in a[1..] <==> k in domain && k != a[0] {
      if k in a[1..] {
        var i :| 0 <= i < |a[1..]| && a[1..][i] == k;
        assert a[i + 1] == k && KeyLess(a[0], a[i + 1]);
      }
    }
  }

  // ------------------------------------------------------- what groups are made of

  /** The order compares registry, repository, tag, OS, architecture and variant, in that order. */
  lemma KeyOrderIsLexicographic(a: Key, b: Key)
    ensures
      var x := [a.registry, a.repository, a.tag, a.platform.os, a.platform.architecture, a.platform.variant];
      var y := [b.registry, b.repository, b.tag, b.platform.os, b.platform.architecture, b.platform.variant];
      KeyLess(a, b) <==> exists i | 0 <= i < 6 :: x[..i] == y[..i] && x[i] != y[i] && Less(x[i], y[i])
  {
    hide Less;
    LessIrreflexive(a.platform.variant);
    var x := [a.registry, a.repository, a.tag, a.platform.os, a.platform.architecture, a.platform.variant];
    var y := [b.registry, b.repository, b.tag, b.platform.os, b.platform.architecture, b.platform.variant];
    var i := if x[0] != y[0] then 0 else if x[1] != y[1] then 1 else if x[2] != y[2] then 2
      else if x[3] != y[3] then 3 else if x[4] != y[4] then 4 else 5;
    assert KeyLess(a, b) == Less(x[i], y[i]);
    assert forall j | 0 <= j < i :: x[j] == y[j];
    assert x[..i] == y[..i];
    forall k | i < k < 6 ensures x[..k] != y[..k] {
      assert x[..k][i] == x[i] && y[..k][i] == y[i];
    }
  }

  /**
    A container is in the group of exactly one stream, its own: registry, repository, tag and platform; and in
    none at all when it has no tag, as when it is pinned to a digest, or carries the skip label with "true".
  */
  lemma {:induction false} GroupHasItsContainers(containers: seq<Container>, key: Key, c: Container)
    ensures c in Members(containers, key) <==>
      && c in containers
      && c.image.registry == key.registry && c.image.repository == key.repository && c.image.tag == Some(key.tag)
      && c.platform == key.platform
      && !("image-watch.skip" in c.labels && c.labels["image-watch.skip"] == "true")
  {
    if containers != [] {
      var front, last := containers[..|containers| - 1], containers[|containers| - 1];
      GroupHasItsContainers(front, key, c);
      assert containers == front + [last];
    }
  }
}
