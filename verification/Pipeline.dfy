/** cmd/image-watch/pipeline.go:17-157: notifications are built, delivered, and deduplicated across cycles. */
module Pipeline {
  import opened Prelude
  import opened Images
  import opened Tags
  import opened Candidates
  import opened Events
  import opened Policies
  import opened States
  import opened Registries
  import opened Detection
  import opened Checks

  datatype Item = Item(
    fingerprint: string,
    image: string,
    platform: string,
    kind: EventType,
    currentTag: string,
    candidateTag: string,
    currentDigest: string,
    candidateDigest: string,
    combinedCandidate: string,
    containerNames: seq<string>,
    suppressed: seq<string>)

  // --------------------------------------------------- per-container filtering

  /** Whether member i's own policy allows an event; members beyond the policy list get the default. */
  predicate AllowedAt(r: CheckResult, t: EventType, i: nat)
  {
    (if i < |r.containerPolicies| then r.containerPolicies[i] else DEFAULT).Allows(t)
  }

  /** The names among the first n members that allow the event, or that do not, in order. */
  function Picked(r: CheckResult, t: EventType, n: nat, allowed: bool): seq<string>
    requires n <= |r.containerNames|
  {
    if n == 0 then []
    else Picked(r, t, n - 1, allowed) + if AllowedAt(r, t, n - 1) == allowed then [r.containerNames[n - 1]] else []
  }

  method AllowContainers(r: CheckResult, t: EventType) returns (allowed: seq<string>, suppressed: seq<string>)
    ensures allowed == Picked(r, t, |r.containerNames|, true)
    ensures suppressed == Picked(r, t, |r.containerNames|, false)
    ensures allowed != [] <==> exists i | 0 <= i < |r.containerNames| :: AllowedAt(r, t, i)
  {
    hide AllowedAt;
    allowed, suppressed := [], [];
    for i := 0 to |r.containerNames|
      invariant allowed == Picked(r, t, i, true) && suppressed == Picked(r, t, i, false)
    {
      if AllowedAt(r, t, i) {
        allowed := allowed + [r.containerNames[i]];
      } else {
        suppressed := suppressed + [r.containerNames[i]];
      }
    }
    SomePicked(r, t, |r.containerNames|);
  }

  lemma {:induction false} SomePicked(r: CheckResult, t: EventType, n: nat)
    requires n <= |r.containerNames|
    ensures Picked(r, t, n, true) != [] <==> exists i | 0 <= i < n :: AllowedAt(r, t, i)
  {
    hide AllowedAt;
    if n > 0 {
      SomePicked(r, t, n - 1);
    }
  }

  /** Positions, in order, of the members with that verdict. */
  ghost predicate IsSelection(r: CheckResult, t: EventType, n: nat, allowed: bool, names: seq<string>, at: seq<nat>)
    requires n <= |r.containerNames|
  {
    && |at| == |names|
    && (forall i, j | 0 <= i < j < |at| :: at[i] < at[j])
    && (forall j | 0 <= j < |at| :: at[j] < n && names[j] == r.containerNames[at[j]] && AllowedAt(r, t, at[j]) == allowed)
    && (forall i | 0 <= i < n && AllowedAt(r, t, i) == allowed :: i in at)
  }

  /** Allowed and suppressed are an order-preserving split of the members: each member is in exactly one of them. */
  lemma {:induction false} PickedIsSelection(r: CheckResult, t: EventType, n: nat, allowed: bool)
    requires n <= |r.containerNames|
    ensures exists at: seq<nat> :: IsSelection(r, t, n, allowed, Picked(r, t, n, allowed), at)
    ensures |Picked(r, t, n, true)| + |Picked(r, t, n, false)| == n
    decreases n
  {
    hide AllowedAt, IsSelection;
    if n == 0 {
      assert Picked(r, t, n, allowed) == [];
      NothingSelected(r, t, allowed);
    } else {
      PickedIsSelection(r, t, n - 1, allowed);
      var names := Picked(r, t, n - 1, allowed);
      var at: seq<nat> :| IsSelection(r, t, n - 1, allowed, names, at);
      if AllowedAt(r, t, n - 1) == allowed {
        SelectionGrows(r, t, n, allowed, names, at);
        assert IsSelection(r, t, n, allowed, Picked(r, t, n, allowed), at + [n - 1]);
      } else {
        SelectionStays(r, t, n, allowed, names, at);
        assert names + [] == names;
        assert IsSelection(r, t, n, allowed, Picked(r, t, n, allowed), at);
      }
    }
  }

  lemma NothingSelected(r: CheckResult, t: EventType, allowed: bool)
    ensures exists at: seq<nat> :: IsSelection(r, t, 0, allowed, [], at)
  {
    var none: seq<nat> := [];
    assert IsSelection(r, t, 0, allowed, [], none);
  }

  lemma SelectionGrows(r: CheckResult, t: EventType, n: nat, allowed: bool, names: seq<string>, at: seq<nat>)
    requires 0 < n <= |r.containerNames| && IsSelection(r, t, n - 1, allowed, names, at)
    requires AllowedAt(r, t, n - 1) == allowed
    ensures IsSelection(r, t, n, allowed, names + [r.containerNames[n - 1]], at + [n - 1])
  {
  }

  lemma SelectionStays(r: CheckResult, t: EventType, n: nat, allowed: bool, names: seq<string>, at: seq<nat>)
    requires 0 < n <= |r.containerNames| && IsSelection(r, t, n - 1, allowed, names, at)
    requires AllowedAt(r, t, n - 1) != allowed
    ensures IsSelection(r, t, n, allowed, names, at)
  {
  }

  /** A result whose policies are aligned with its names and folded into its effective policy. */
  ghost predicate PolicyAligned(r: CheckResult)
  {
    && |r.containerPolicies| == |r.containerNames| && r.containerNames != []
    && r.effectivePolicy == Merged(r.containerPolicies)
  }

  /** The metric view and the notification view agree: the folded policy allows an event iff some container is notified of it. */
  lemma EffectivePolicyIffSomeContainer(r: CheckResult, t: EventType)
    requires PolicyAligned(r)
    ensures r.effectivePolicy.Allows(t) <==> Picked(r, t, |r.containerNames|, true) != []
  {
    hide Merged, Policy.Allows;
    var n := |r.containerNames|;
    SomePicked(r, t, n);
    MergedAllowsIffSome(r.containerPolicies, t);
    assert forall i | 0 <= i < n :: AllowedAt(r, t, i) == r.containerPolicies[i].Allows(t);
    if i :| 0 <= i < n && r.containerPolicies[i].Allows(t) {
      assert AllowedAt(r, t, i);
    }
  }

  /** Every result of a check of a non-empty group is aligned in that way. */
  lemma GroupResultsAreAligned(base: Policy, registry: Option<RegistryView>, job: Job, previous: Option<Observation>)
    requires job.members != []
    ensures PolicyAligned(GroupResult(base, registry, job, previous))
  {
  }

  // ------------------------------------------------------------------ building

  /** An event that some container is to be notified of; failed results are skipped. */
  predicate Eligible(r: CheckResult, e: Event)
  {
    r.err.None? && Picked(r, e.kind, |r.containerNames|, true) != []
  }

  function ItemOf(r: CheckResult, e: Event): Item
  {
    Item(Fingerprint(e), r.image.ImageName(), r.platform.String(), e.kind, e.currentTag, e.candidateTag,
      e.currentDigest, e.candidateDigest, e.combinedCandidate,
      Picked(r, e.kind, |r.containerNames|, true), Picked(r, e.kind, |r.containerNames|, false))
  }

  function ResultItems(r: CheckResult, events: seq<Event>, notified: set<string>): seq<Item>
  {
    if events == [] then []
    else
      var front, e := ResultItems(r, events[..|events| - 1], notified), events[|events| - 1];
      if Eligible(r, e) && Fingerprint(e) !in notified then front + [ItemOf(r, e)] else front
  }

  function NoteItems(results: seq<CheckResult>, notified: set<string>): seq<Item>
  {
    if results == [] then []
    else
      var r := results[|results| - 1];
      NoteItems(results[..|results| - 1], notified) + ResultItems(r, r.events, notified)
  }

  method BuildNotification(results: seq<CheckResult>, store: MemoryStore) returns (items: seq<Item>)
    ensures items == NoteItems(results, store.notifications.Keys)
  {
    hide Fingerprint, Picked, ItemOf;
    items := [];
    for i := 0 to |results|
      invariant items == NoteItems(results[..i], store.notifications.Keys)
    {
      var r := results[i];
      assert results[..i + 1][..i] == results[..i];
      var found := ItemsOfResult(r, store);
      items := items + found;
    }
    assert results[..|results|] == results;
  }

  method ItemsOfResult(r: CheckResult, store: MemoryStore) returns (items: seq<Item>)
    ensures items == ResultItems(r, r.events, store.notifications.Keys)
  {
    hide Fingerprint, Picked;
    items := [];
    if r.err.Some? {
      NoItemsOnError(r, r.events, store.notifications.Keys);
      return;
    }
    for i := 0 to |r.events|
      invariant items == ResultItems(r, r.events[..i], store.notifications.Keys)
    {
      var e := r.events[i];
      assert r.events[..i + 1][..i] == r.events[..i];
      var allowed, suppressed := AllowContainers(r, e.kind);
      if |allowed| == 0 {
        continue;
      }
      var fp := Fingerprint(e);
      var notified := store.HasNotified(fp);
      if notified {
        continue;
      }
      items := items + [Item(fp, r.image.ImageName(), r.platform.String(), e.kind, e.currentTag, e.candidateTag,
        e.currentDigest, e.candidateDigest, e.combinedCandidate, allowed, suppressed)];
    }
    assert r.events[..|r.events|] == r.events;
  }

  lemma {:induction false} NoItemsOnError(r: CheckResult, events: seq<Event>, notified: set<string>)
    requires r.err.Some?
    ensures ResultItems(r, events, notified) == []
  {
    if events != [] {
      NoItemsOnError(r, events[..|events| - 1], notified);
    }
  }

  /** Some eligible event of the results has the fingerprint. */
  ghost predicate Detected(results: seq<CheckResult>, fp: string)
  {
    exists i, j | 0 <= i < |results| && 0 <= j < |results[i].events| ::
      Eligible(results[i], results[i].events[j]) && Fingerprint(results[i].events[j]) == fp
  }

  ghost predicate Carries(items: seq<Item>, fp: string)
  {
    exists i | 0 <= i < |items| :: items[i].fingerprint == fp
  }

  lemma {:induction false} ResultItemsCarry(r: CheckResult, events: seq<Event>, notified: set<string>, fp: string)
    ensures Carries(ResultItems(r, events, notified), fp) <==>
      fp !in notified && exists j | 0 <= j < |events| :: Eligible(r, events[j]) && Fingerprint(events[j]) == fp
  {
    hide Fingerprint, Eligible;
    if events != [] {
      var n := |events| - 1;
      var front := ResultItems(r, events[..n], notified);
      ResultItemsCarry(r, events[..n], notified, fp);
      if Eligible(r, events[n]) && Fingerprint(events[n]) !in notified {
        CarriesAppend(front, [ItemOf(r, events[n])], fp);
        assert Carries([ItemOf(r, events[n])], fp) <==> Fingerprint(events[n]) == fp by {
          assert [ItemOf(r, events[n])][0].fingerprint == Fingerprint(events[n]);
        }
      }
    }
  }

  lemma CarriesAppend(a: seq<Item>, b: seq<Item>, fp: string)
    ensures Carries(a + b, fp) <==> Carries(a, fp) || Carries(b, fp)
  {
    var all := a + b;
    if Carries(a, fp) {
      var i :| 0 <= i < |a| && a[i].fingerprint == fp;
      assert all[i].fingerprint == fp;
    }
    if Carries(b, fp) {
      var i :| 0 <= i < |b| && b[i].fingerprint == fp;
      assert all[|a| + i].fingerprint == fp;
    }
  }

  /** A notification carries a fingerprint exactly when it is detected, allowed, and not yet recorded. */
  lemma {:induction false} NoteCarriesIffDue(results: seq<CheckResult>, notified: set<string>, fp: string)
    ensures Carries(NoteItems(results, notified), fp) <==> fp !in notified && Detected(results, fp)
  {
    hide Fingerprint, Eligible, ResultItems;
    if results != [] {
      var n := |results| - 1;
      var front := results[..n];
      NoteCarriesIffDue(front, notified, fp);
      ResultItemsCarry(results[n], results[n].events, notified, fp);
      CarriesAppend(NoteItems(front, notified), ResultItems(results[n], results[n].events, notified), fp);
      DetectedAppend(front, results[n], fp);
      assert front + [results[n]] == results;
    }
  }

  lemma DetectedAppend(front: seq<CheckResult>, r: CheckResult, fp: string)
    ensures Detected(front + [r], fp) <==>
      Detected(front, fp) || exists j | 0 <= j < |r.events| :: Eligible(r, r.events[j]) && Fingerprint(r.events[j]) == fp
  {
    hide Fingerprint, Eligible;
    var all := front + [r];
    assert all[|front|] == r;
    if Detected(front, fp) {
      var i, j :| 0 <= i < |front| && 0 <= j < |front[i].events| &&
        Eligible(front[i], front[i].events[j]) && Fingerprint(front[i].events[j]) == fp;
      assert all[i] == front[i];
    }
    if j :| 0 <= j < |r.events| && Eligible(r, r.events[j]) && Fingerprint(r.events[j]) == fp {
      assert Eligible(all[|front|], all[|front|].events[j]);
    }
    if Detected(all, fp) {
      var i, j :| 0 <= i < |all| && 0 <= j < |all[i].events| &&
        Eligible(all[i], all[i].events[j]) && Fingerprint(all[i].events[j]) == fp;
      if i < |front| {
        assert front[i] == all[i];
      }
    }
  }

  // ---------------------------------------------------------- what an item says

  /** The member's own policy; members beyond the policy list have the default. */
  function OwnPolicy(r: CheckResult, i: nat): Policy
  {
    if i < |r.containerPolicies| then r.containerPolicies[i] else DEFAULT
  }

  /** The names, in order, of exactly the members whose own policy has that verdict on the event type. */
  ghost predicate AreMembersWith(r: CheckResult, t: EventType, allowed: bool, names: seq<string>, at: seq<nat>)
  {
    && |at| == |names|
    && (forall i, j | 0 <= i < j < |at| :: at[i] < at[j])
    && (forall j | 0 <= j < |at| :: at[j] < |r.containerNames| && names[j] == r.containerNames[at[j]])
    && (forall i: nat | i < |r.containerNames| :: i in at <==> OwnPolicy(r, i).Allows(t) == allowed)
  }

  /** The item is about the event and its result, names the members that are to know, and lists the others as suppressed. */
  ghost predicate ItemTells(r: CheckResult, e: Event, item: Item)
  {
    && item.fingerprint == Fingerprint(e) && item.kind == e.kind
    && item.image == r.image.registry + "/" + r.image.repository && item.platform == r.platform.String()
    && item.currentTag == e.currentTag && item.candidateTag == e.candidateTag
    && item.currentDigest == e.currentDigest && item.candidateDigest == e.candidateDigest
    && item.combinedCandidate == e.combinedCandidate
    && (exists at: seq<nat> :: AreMembersWith(r, e.kind, true, item.containerNames, at))
    && (exists at: seq<nat> :: AreMembersWith(r, e.kind, false, item.suppressed, at))
  }

  /** The check succeeded, some member's own policy allows the event, and it has not been told. */
  ghost predicate IsDue(r: CheckResult, e: Event, notified: set<string>)
  {
    && r.err.None? && Fingerprint(e) !in notified
    && exists i: nat | i < |r.containerNames| :: OwnPolicy(r, i).Allows(e.kind)
  }

  lemma OwnPolicyDecides(r: CheckResult, t: EventType, i: nat)
    ensures AllowedAt(r, t, i) == OwnPolicy(r, i).Allows(t)
  {
    hide Policy.Allows;
  }

  lemma SelectionIsMembers(r: CheckResult, t: EventType, allowed: bool, names: seq<string>, at: seq<nat>)
    requires IsSelection(r, t, |r.containerNames|, allowed, names, at)
    ensures AreMembersWith(r, t, allowed, names, at)
  {
    hide Policy.Allows, AllowedAt, OwnPolicy;
    forall i: nat | i < |r.containerNames| ensures i in at <==> OwnPolicy(r, i).Allows(t) == allowed {
      OwnPolicyDecides(r, t, i);
      if i in at {
        var j :| 0 <= j < |at| && at[j] == i;
        assert AllowedAt(r, t, at[j]) == allowed;
      }
    }
  }

  lemma PickedAreMembers(r: CheckResult, t: EventType, allowed: bool) returns (at: seq<nat>)
    ensures AreMembersWith(r, t, allowed, Picked(r, t, |r.containerNames|, allowed), at)
  {
    hide Picked, IsSelection, AreMembersWith;
    PickedIsSelection(r, t, |r.containerNames|, allowed);
    at :| IsSelection(r, t, |r.containerNames|, allowed, Picked(r, t, |r.containerNames|, allowed), at);
    SelectionIsMembers(r, t, allowed, Picked(r, t, |r.containerNames|, allowed), at);
  }

  lemma ItemOfTells(r: CheckResult, e: Event)
    ensures ItemTells(r, e, ItemOf(r, e))
  {
    hide Picked, Fingerprint, AreMembersWith, Platform.String;
    var allowed := PickedAreMembers(r, e.kind, true);
    var suppressed := PickedAreMembers(r, e.kind, false);
  }

  lemma DueIsEligible(r: CheckResult, e: Event, notified: set<string>)
    ensures IsDue(r, e, notified) <==> Eligible(r, e) && Fingerprint(e) !in notified
  {
    hide Picked, Fingerprint, Policy.Allows;
    SomePicked(r, e.kind, |r.containerNames|);
    forall i: nat | i < |r.containerNames| ensures AllowedAt(r, e.kind, i) == OwnPolicy(r, i).Allows(e.kind) {
      OwnPolicyDecides(r, e.kind, i);
    }
  }

  /** The items of one result: one for each due event, in order. */
  ghost predicate IsRow(r: CheckResult, events: seq<Event>, notified: set<string>, items: seq<Item>, at: seq<nat>)
  {
    && |at| == |items|
    && (forall i, j | 0 <= i < j < |at| :: at[i] < at[j])
    && (forall k | 0 <= k < |at| :: at[k] < |events| && ItemTells(r, events[at[k]], items[k]))
    && (forall j: nat | j < |events| :: j in at <==> IsDue(r, events[j], notified))
  }

  lemma {:induction false} ResultItemsAreRow(r: CheckResult, events: seq<Event>, notified: set<string>) returns (at: seq<nat>)
    ensures IsRow(r, events, notified, ResultItems(r, events, notified), at)
  {
    hide ItemTells, IsDue, Eligible, ItemOf, Fingerprint, IsRow;
    if events == [] {
      at := [];
      EmptyRow(r, notified);
    } else {
      var n := |events| - 1;
      var items := ResultItems(r, events[..n], notified);
      var front := ResultItemsAreRow(r, events[..n], notified);
      DueIsEligible(r, events[n], notified);
      assert events[..n] + [events[n]] == events;
      if IsDue(r, events[n], notified) {
        at := front + [n];
        RowGrows(r, events[..n], events[n], notified, items, front);
      } else {
        at := front;
        RowStays(r, events[..n], events[n], notified, items, front);
      }
    }
  }

  lemma EmptyRow(r: CheckResult, notified: set<string>)
    ensures IsRow(r, [], notified, [], [])
  {
  }

  lemma RowGrows(r: CheckResult, events: seq<Event>, e: Event, notified: set<string>, items: seq<Item>, row: seq<nat>)
    requires IsRow(r, events, notified, items, row) && IsDue(r, e, notified)
    ensures IsRow(r, events + [e], notified, items + [ItemOf(r, e)], row + [|events|])
  {
    hide ItemTells, IsDue, ItemOf;
    ItemOfTells(r, e);
    var all, at := events + [e], row + [|events|];
    assert all[|events|] == e && forall j | 0 <= j < |events| :: all[j] == events[j];
    forall j: nat | j < |all| ensures j in at <==> IsDue(r, all[j], notified) {
      assert at[|row|] == |events|;
      assert j < |events| ==> (j in at <==> j in row);
    }
  }

  lemma RowStays(r: CheckResult, events: seq<Event>, e: Event, notified: set<string>, items: seq<Item>, row: seq<nat>)
    requires IsRow(r, events, notified, items, row) && !IsDue(r, e, notified)
    ensures IsRow(r, events + [e], notified, items, row)
  {
    hide ItemTells, IsDue;
    var all := events + [e];
    assert all[|events|] == e && forall j | 0 <= j < |events| :: all[j] == events[j];
  }

  /** Positions of events in a list of results, in reading order. */
  datatype Position = Position(result: nat, event: nat) {
    predicate Before(other: Position)
    {
      result < other.result || (result == other.result && event < other.event)
    }

    predicate Within(results: seq<CheckResult>)
    {
      result < |results| && event < |results[result].events|
    }
  }

  /** The items of a notification: one for each due event of each result, in reading order, saying what that event says. */
  ghost predicate IsNotification(results: seq<CheckResult>, notified: set<string>, items: seq<Item>, at: seq<Position>)
  {
    && |at| == |items|
    && (forall i, j | 0 <= i < j < |at| :: at[i].Before(at[j]))
    && (forall k | 0 <= k < |at| ::
          at[k].Within(results) && ItemTells(results[at[k].result], results[at[k].result].events[at[k].event], items[k]))
    && (forall p: Position | p.Within(results) ::
          p in at <==> IsDue(results[p.result], results[p.result].events[p.event], notified))
  }

  /**
    A notification is fixed by the results and the record: every item comes from an event of its own, in order,
    with that event's and its result's particulars, the names of exactly the members whose own policy allows
    the event, and the others as suppressed; and every due event has its item.
  */
  lemma {:induction false} ItemsTellDueEvents(results: seq<CheckResult>, notified: set<string>) returns (at: seq<Position>)
    ensures IsNotification(results, notified, NoteItems(results, notified), at)
  {
    hide ItemTells, IsDue, ResultItems;
    if results == [] {
      at := [];
    } else {
      var n := |results| - 1;
      var front := ItemsTellDueEvents(results[..n], notified);
      var row := ResultItemsAreRow(results[n], results[n].events, notified);
      at := front + RowPositions(n, row);
      NotificationGrows(results, notified, NoteItems(results[..n], notified), front,
        ResultItems(results[n], results[n].events, notified), row);
    }
  }

  function RowPositions(n: nat, row: seq<nat>): (ps: seq<Position>)
    ensures |ps| == |row|
    ensures forall k | 0 <= k < |row| :: ps[k] == Position(n, row[k])
  {
    seq(|row|, k requires 0 <= k < |row| => Position(n, row[k]))
  }

  lemma NotificationGrows(results: seq<CheckResult>, notified: set<string>, items: seq<Item>, front: seq<Position>,
                          last: seq<Item>, row: seq<nat>)
    requires results != [] && IsNotification(results[..|results| - 1], notified, items, front)
    requires
      var r := results[|results| - 1];
      IsRow(r, r.events, notified, last, row)
    ensures IsNotification(results, notified, items + last, front + RowPositions(|results| - 1, row))
  {
    hide ItemTells, IsDue;
    var n := |results| - 1;
    var at := front + RowPositions(n, row);
    forall k | 0 <= k < |at|
      ensures at[k].Within(results) &&
        ItemTells(results[at[k].result], results[at[k].result].events[at[k].event], (items + last)[k])
    {
      if k < |front| {
        assert front[k].Within(results[..n]);
      }
    }
    forall p: Position | p.Within(results)
      ensures p in at <==> IsDue(results[p.result], results[p.result].events[p.event], notified)
    {
      DuePosition(results, notified, items, front, last, row, p);
    }
  }

  lemma DuePosition(results: seq<CheckResult>, notified: set<string>, items: seq<Item>, front: seq<Position>,
                    last: seq<Item>, row: seq<nat>, p: Position)
    requires results != [] && IsNotification(results[..|results| - 1], notified, items, front) && p.Within(results)
    requires
      var r := results[|results| - 1];
      IsRow(r, r.events, notified, last, row)
    ensures p in front + RowPositions(|results| - 1, row) <==>
      IsDue(results[p.result], results[p.result].events[p.event], notified)
  {
    hide ItemTells, IsDue, Position.Before;
    var n := |results| - 1;
    var tail := RowPositions(n, row);
    if p.result < n {
      assert p.Within(results[..n]) && p !in tail;
    } else {
      assert p !in front;
      if p.event in row {
        var k :| 0 <= k < |row| && row[k] == p.event;
        assert tail[k] == p;
      }
    }
  }

  // ------------------------------------------------------------------ delivery

  /** Every notifier is attempted; the call counts as delivered when one of them succeeded. */
  method Deliver(items: seq<Item>, outcomes: seq<bool>) returns (delivered: bool, failures: nat)
    ensures items == [] ==> delivered && failures == 0
    ensures items != [] ==> (delivered <==> true in outcomes) && (failures > 0 <==> false in outcomes)
  {
    if |items| == 0 {
      return true, 0;
    }
    delivered, failures := false, 0;
    for i := 0 to |outcomes|
      invariant delivered <==> true in outcomes[..i]
      invariant failures > 0 <==> false in outcomes[..i]
    {
      assert outcomes[..i + 1] == outcomes[..i] + [outcomes[i]];
      if outcomes[i] {
        delivered := true;
      } else {
        failures := failures + 1;
      }
    }
    assert outcomes[..|outcomes|] == outcomes;
  }

  function Fingerprints(items: seq<Item>): set<string>
  {
    set i | 0 <= i < |items| :: items[i].fingerprint
  }

  method MarkDelivered(items: seq<Item>, store: MemoryStore, now: int)
    modifies store`notifications
    ensures store.notifications.Keys == old(store.notifications.Keys) + Fingerprints(items)
  {
    for i := 0 to |items|
      invariant store.notifications.Keys == old(store.notifications.Keys) + Fingerprints(items[..i])
    {
      assert items[..i + 1] == items[..i] + [items[i]];
      FingerprintsAppend(items[..i], items[i]);
      store.MarkNotified(items[i].fingerprint, now);
    }
    assert items[..|items|] == items;
  }

  lemma FingerprintsAppend(items: seq<Item>, item: Item)
    ensures Fingerprints(items + [item]) == Fingerprints(items) + {item.fingerprint}
  {
    var all := items + [item];
    assert all[|items|] == item;
    assert forall i | 0 <= i < |items| :: all[i] == items[i];
  }

  /** The notifier calls of a cycle: one for everything, or one for each item, in order. */
  function Calls(items: seq<Item>, individual: bool): seq<seq<Item>>
  {
    if items == [] then []
    else if individual then seq(|items|, i requires 0 <= i < |items| => [items[i]])
    else [items]
  }

  /** Some notifier returned success for a call that carried the fingerprint. */
  ghost predicate Acknowledged(items: seq<Item>, individual: bool, outcomes: nat -> seq<bool>, fp: string)
  {
    exists c: nat | c < |Calls(items, individual)| :: true in outcomes(c) && Carries(Calls(items, individual)[c], fp)
  }

  function Delivered(items: seq<Item>, individual: bool, outcomes: nat -> seq<bool>): set<string>
  {
    if individual then set i: nat | i < |items| && true in outcomes(i) :: items[i].fingerprint
    else if items != [] && true in outcomes(0) then Fingerprints(items) else {}
  }

  /**
    Both delivery modes: exactly the fingerprints of delivered calls are recorded, and the cycle reports
    an error exactly when some notifier failed in some call.
  */
  method DeliverAndMark(items: seq<Item>, individual: bool, outcomes: nat -> seq<bool>, store: MemoryStore, now: int)
    returns (failed: bool)
    modifies store`notifications
    ensures store.notifications.Keys == old(store.notifications.Keys) + Delivered(items, individual, outcomes)
    ensures failed <==> exists c: nat | c < |Calls(items, individual)| :: false in outcomes(c)
  {
    if |items| == 0 {
      return false;
    }
    if !individual {
      var delivered, failures := Deliver(items, outcomes(0));
      if delivered {
        MarkDelivered(items, store, now);
      }
      return failures > 0;
    }
    failed := DeliverEach(items, outcomes, store, now);
  }

  /** Individual mode: one call for each item, and a failed one does not hold back the others. */
  method DeliverEach(items: seq<Item>, outcomes: nat -> seq<bool>, store: MemoryStore, now: int) returns (failed: bool)
    modifies store`notifications
    ensures store.notifications.Keys == old(store.notifications.Keys) + Delivered(items, true, outcomes)
    ensures failed <==> exists c: nat | c < |items| :: false in outcomes(c)
  {
    hide Delivered, Fingerprints;
    var errs := 0;
    NothingDelivered(true, outcomes);
    for i := 0 to |items|
      invariant store.notifications.Keys == old(store.notifications.Keys) + Delivered(items[..i], true, outcomes)
      invariant errs > 0 <==> exists c: nat | c < i :: false in outcomes(c)
    {
      var single := [items[i]];
      var delivered, failures := Deliver(single, outcomes(i));
      DeliveredAppend(items[..i], items[i], outcomes);
      assert items[..i + 1] == items[..i] + single;
      if delivered {
        OneFingerprint(items[i]);
        MarkDelivered(single, store, now);
      }
      if failures > 0 {
        errs := errs + 1;
      }
    }
    assert items[..|items|] == items;
    failed := errs > 0;
  }

  lemma OneFingerprint(item: Item)
    ensures Fingerprints([item]) == {item.fingerprint}
  {
    assert [item][0] == item;
  }

  lemma DeliveredAppend(items: seq<Item>, item: Item, outcomes: nat -> seq<bool>)
    ensures Delivered(items + [item], true, outcomes) ==
      Delivered(items, true, outcomes) + if true in outcomes(|items|) then {item.fingerprint} else {}
  {
  }

  /** What is recorded is what was acknowledged, in either mode. */
  lemma DeliveredIffAcknowledged(items: seq<Item>, individual: bool, outcomes: nat -> seq<bool>, fp: string)
    ensures fp in Delivered(items, individual, outcomes) <==> Acknowledged(items, individual, outcomes, fp)
  {
    var calls := Calls(items, individual);
    if individual && items != [] {
      assert forall c: nat | c < |items| :: calls[c] == [items[c]];
      if fp in Delivered(items, individual, outcomes) {
        var i: nat :| i < |items| && true in outcomes(i) && items[i].fingerprint == fp;
        assert calls[i][0].fingerprint == fp;
        assert Carries(calls[i], fp);
      }
    } else if items != [] {
      assert calls[0] == items;
      if fp in Fingerprints(items) {
        assert Carries(calls[0], fp);
      }
    }
  }

  /** In individual mode an item is accepted by its own call only, in batch mode by the one call for all. */
  lemma ModesDecideAcceptance(items: seq<Item>, outcomes: nat -> seq<bool>, fp: string)
    ensures Acknowledged(items, true, outcomes, fp) <==>
      exists i: nat | i < |items| :: items[i].fingerprint == fp && true in outcomes(i)
    ensures Acknowledged(items, false, outcomes, fp) <==>
      true in outcomes(0) && exists i: nat | i < |items| :: items[i].fingerprint == fp
  {
    DeliveredIffAcknowledged(items, true, outcomes, fp);
    DeliveredIffAcknowledged(items, false, outcomes, fp);
  }

  // -------------------------------------------------------------- across cycles

  /** One cycle as the pipeline sees it: results, delivery mode, and how the notifiers answer each call. */
  datatype CycleInput = CycleInput(results: seq<CheckResult>, individual: bool, outcomes: nat -> seq<bool>)

  /** The recorded fingerprints after a run of cycles that began with none. */
  function Recorded(run: seq<CycleInput>): set<string>
  {
    if run == [] then {}
    else
      var before, c := Recorded(run[..|run| - 1]), run[|run| - 1];
      before + Delivered(NoteItems(c.results, before), c.individual, c.outcomes)
  }

  /** The items of cycle n. */
  function ItemsAt(run: seq<CycleInput>, n: nat): seq<Item>
    requires n < |run|
  {
    NoteItems(run[n].results, Recorded(run[..n]))
  }

  ghost predicate AcknowledgedAt(run: seq<CycleInput>, n: nat, fp: string)
    requires n < |run|
  {
    Acknowledged(ItemsAt(run, n), run[n].individual, run[n].outcomes, fp)
  }

  /** One cycle's notification stage moves the store as Recorded says. */
  method NotifyCycle(results: seq<CheckResult>, individual: bool, outcomes: nat -> seq<bool>, store: MemoryStore, now: int)
    returns (items: seq<Item>, failed: bool)
    modifies store`notifications
    ensures items == NoteItems(results, old(store.notifications.Keys))
    ensures store.notifications.Keys == old(store.notifications.Keys) + Delivered(items, individual, outcomes)
    ensures failed ==> items != []
  {
    items := BuildNotification(results, store);
    failed := false;
    if |items| > 0 {
      failed := DeliverAndMark(items, individual, outcomes, store, now);
    } else {
      NothingDelivered(individual, outcomes);
    }
  }

  lemma NothingDelivered(individual: bool, outcomes: nat -> seq<bool>)
    ensures Delivered([], individual, outcomes) == {}
  {
  }

  /** Over any run, a fingerprint is recorded exactly when some notifier acknowledged a notification carrying it. */
  lemma {:induction false} RecordedIffAcknowledged(run: seq<CycleInput>, fp: string)
    ensures fp in Recorded(run) <==> exists n: nat | n < |run| :: AcknowledgedAt(run, n, fp)
  {
    hide NoteItems, Delivered, Acknowledged;
    if run != [] {
      var last := |run| - 1;
      var front := run[..last];
      RecordedIffAcknowledged(front, fp);
      DeliveredIffAcknowledged(ItemsAt(run, last), run[last].individual, run[last].outcomes, fp);
      assert forall n: nat | n < last :: front[n] == run[n] && front[..n] == run[..n];
      assert forall n: nat | n < last :: AcknowledgedAt(front, n, fp) == AcknowledgedAt(run, n, fp);
      if fp in Recorded(front) {
        var n: nat :| n < last && AcknowledgedAt(front, n, fp);
        assert AcknowledgedAt(run, n, fp);
      }
      if fp in Delivered(ItemsAt(run, last), run[last].individual, run[last].outcomes) {
        assert AcknowledgedAt(run, last, fp);
      }
    }
  }

  lemma {:induction false} RecordedGrows(run: seq<CycleInput>, n: nat, m: nat)
    requires n <= m <= |run|
    ensures Recorded(run[..n]) <= Recorded(run[..m])
  {
    hide NoteItems, Delivered;
    if n < m {
      RecordedGrows(run, n, m - 1);
      assert run[..m][..m - 1] == run[..m - 1];
    }
  }

  /** Once recorded, a fingerprint is never built again. */
  lemma RecordedIsNeverRebuilt(run: seq<CycleInput>, n: nat, m: nat, fp: string)
    requires n <= m < |run| && fp in Recorded(run[..n])
    ensures !Carries(ItemsAt(run, m), fp)
  {
    hide NoteItems, Detected, Carries, Recorded;
    RecordedGrows(run, n, m);
    NoteCarriesIffDue(run[m].results, Recorded(run[..m]), fp);
  }

  /** Until it is recorded, every cycle that detects an allowed event of it builds its item again. */
  lemma DetectedIsRebuiltUntilRecorded(run: seq<CycleInput>, n: nat, fp: string)
    requires n < |run| && Detected(run[n].results, fp)
    ensures Carries(ItemsAt(run, n), fp) <==> fp !in Recorded(run[..n])
  {
    hide NoteItems, Detected, Carries, Recorded;
    NoteCarriesIffDue(run[n].results, Recorded(run[..n]), fp);
  }

  lemma AcknowledgedIsCarried(items: seq<Item>, individual: bool, outcomes: nat -> seq<bool>, fp: string)
    requires Acknowledged(items, individual, outcomes, fp)
    ensures Carries(items, fp)
  {
  }

  /** A fingerprint is acknowledged in at most one cycle of any run. */
  lemma AcknowledgedInOneCycle(run: seq<CycleInput>, n: nat, m: nat, fp: string)
    requires n < |run| && m < |run| && AcknowledgedAt(run, n, fp) && AcknowledgedAt(run, m, fp)
    ensures n == m
  {
    hide NoteItems, Acknowledged, Carries, Recorded;
    if n < m {
      AcknowledgedIsRecorded(run, n, fp);
      RecordedIsNeverRebuilt(run, n + 1, m, fp);
      AcknowledgedIsCarried(ItemsAt(run, m), run[m].individual, run[m].outcomes, fp);
    } else if m < n {
      AcknowledgedIsRecorded(run, m, fp);
      RecordedIsNeverRebuilt(run, m + 1, n, fp);
      AcknowledgedIsCarried(ItemsAt(run, n), run[n].individual, run[n].outcomes, fp);
    }
  }

  lemma AcknowledgedIsRecorded(run: seq<CycleInput>, n: nat, fp: string)
    requires n < |run| && AcknowledgedAt(run, n, fp)
    ensures fp in Recorded(run[..n + 1])
  {
    hide NoteItems, Acknowledged, Recorded;
    var upTo := run[..n + 1];
    assert upTo[n] == run[n] && upTo[..n] == run[..n];
    assert AcknowledgedAt(upTo, n, fp);
    RecordedIffAcknowledged(upTo, fp);
  }

  // ------------------------------------------- when an available update is told

  lemma {:induction false} EventHasItemIff(r: CheckResult, events: seq<Event>, notified: set<string>, j: nat)
    requires j < |events| && Eligible(r, events[j])
    ensures ItemOf(r, events[j]) in ResultItems(r, events, notified) <==> Fingerprint(events[j]) !in notified
  {
    hide Fingerprint, Eligible;
    ResultItemsCarry(r, events, notified, Fingerprint(events[j]));
    if Fingerprint(events[j]) in notified {
      assert ItemOf(r, events[j]).fingerprint == Fingerprint(events[j]);
    } else if j < |events| - 1 {
      EventHasItemIff(r, events[..|events| - 1], notified, j);
    }
  }

  lemma {:induction false} DueEventHasItem(results: seq<CheckResult>, notified: set<string>, i: nat, j: nat)
    requires i < |results| && j < |results[i].events| && Eligible(results[i], results[i].events[j])
    requires Fingerprint(results[i].events[j]) !in notified
    ensures ItemOf(results[i], results[i].events[j]) in NoteItems(results, notified)
  {
    hide Fingerprint, Eligible, ItemOf, ResultItems;
    if i == |results| - 1 {
      EventHasItemIff(results[i], results[i].events, notified, j);
    } else {
      DueEventHasItem(results[..|results| - 1], notified, i, j);
    }
  }

  /** The event is about the same image stream, and of the same kind. */
  predicate SameStreamAndKind(e: Event, f: Event)
  {
    && e.image.registry == f.image.registry && e.image.repository == f.image.repository
    && e.currentTag == f.currentTag && e.platform == f.platform && e.kind == f.kind
  }

  /** Events as checks make them: separable, and carrying a digest only when they are about one. */
  ghost predicate ProperEvents(run: seq<CycleInput>)
  {
    forall n, i, j | 0 <= n < |run| && 0 <= i < |run[n].results| && 0 <= j < |run[n].results[i].events| ::
      ProperEvent(run[n].results[i].events[j])
  }

  ghost predicate ProperEvent(e: Event)
  {
    Separable(e) && (!IsDigestEvent(e) ==> e.candidateDigest == "")
  }

  /** In cycle m some notifier accepted a call that carried an event of this stream and kind. */
  ghost predicate ToldAt(run: seq<CycleInput>, m: nat, e: Event)
    requires m < |run|
  {
    exists i, j | 0 <= i < |run[m].results| && 0 <= j < |run[m].results[i].events| ::
      var f := run[m].results[i].events[j];
      Eligible(run[m].results[i], f) && SameStreamAndKind(f, e) && AcknowledgedAt(run, m, Fingerprint(f))
  }

  lemma SameSubjectIffSameFingerprint(e: Event, f: Event)
    requires ProperEvent(e) && ProperEvent(f) && !IsDigestEvent(e)
    ensures Fingerprint(e) == Fingerprint(f) <==> SameStreamAndKind(f, e)
  {
    hide Fingerprint, Separable;
    FingerprintIsIdentity(e, f);
  }

  lemma ToldAtIffAcknowledged(run: seq<CycleInput>, m: nat, e: Event)
    requires m < |run| && ProperEvents(run) && ProperEvent(e) && !IsDigestEvent(e)
    ensures ToldAt(run, m, e) <==> AcknowledgedAt(run, m, Fingerprint(e))
  {
    hide ProperEvent, IsDigestEvent, Eligible, Fingerprint, Acknowledged, NoteItems, SameStreamAndKind, Carries, Recorded;
    var fp := Fingerprint(e);
    if AcknowledgedAt(run, m, fp) {
      AcknowledgedIsCarried(ItemsAt(run, m), run[m].individual, run[m].outcomes, fp);
      NoteCarriesIffDue(run[m].results, Recorded(run[..m]), fp);
      var i, j :| 0 <= i < |run[m].results| && 0 <= j < |run[m].results[i].events| &&
        Eligible(run[m].results[i], run[m].results[i].events[j]) && Fingerprint(run[m].results[i].events[j]) == fp;
      assert ProperEvent(run[m].results[i].events[j]);
      SameSubjectIffSameFingerprint(e, run[m].results[i].events[j]);
    }
    if ToldAt(run, m, e) {
      var i, j :| 0 <= i < |run[m].results| && 0 <= j < |run[m].results[i].events| &&
        Eligible(run[m].results[i], run[m].results[i].events[j]) && SameStreamAndKind(run[m].results[i].events[j], e) &&
        AcknowledgedAt(run, m, Fingerprint(run[m].results[i].events[j]));
      assert ProperEvent(run[m].results[i].events[j]);
      SameSubjectIffSameFingerprint(e, run[m].results[i].events[j]);
    }
  }

  lemma RecordedIffAcknowledgedBefore(run: seq<CycleInput>, n: nat, fp: string)
    requires n <= |run|
    ensures fp in Recorded(run[..n]) <==> exists m: nat | m < n :: AcknowledgedAt(run, m, fp)
  {
    hide Acknowledged, NoteItems, Recorded;
    RecordedIffAcknowledged(run[..n], fp);
    forall m: nat | m < n ensures AcknowledgedAt(run[..n], m, fp) == AcknowledgedAt(run, m, fp) {
      assert run[..n][..m] == run[..m];
    }
  }

  /**
    An available update that some container allows gets its item exactly when no earlier cycle delivered an
    update of the same stream and kind: the candidate is not part of the fingerprint, so a newer release of
    a kind already told is not told.
  */
  lemma UpdateIsNotifiedIff(run: seq<CycleInput>, n: nat, i: nat, j: nat)
    requires ProperEvents(run) && n < |run| && i < |run[n].results| && j < |run[n].results[i].events|
    requires Eligible(run[n].results[i], run[n].results[i].events[j]) && !IsDigestEvent(run[n].results[i].events[j])
    ensures
      var r, e := run[n].results[i], run[n].results[i].events[j];
      ItemOf(r, e) in ItemsAt(run, n) <==> !exists m: nat | m < n :: ToldAt(run, m, e)
  {
    hide ProperEvent, IsDigestEvent, Eligible, Fingerprint, NoteItems, ToldAt, AcknowledgedAt, Recorded, Carries;
    var r, e := run[n].results[i], run[n].results[i].events[j];
    assert ProperEvent(e);
    RecordedIffAcknowledgedBefore(run, n, Fingerprint(e));
    forall m: nat | m < n ensures ToldAt(run, m, e) <==> AcknowledgedAt(run, m, Fingerprint(e)) {
      ToldAtIffAcknowledged(run, m, e);
    }
    NoteCarriesIffDue(run[n].results, Recorded(run[..n]), Fingerprint(e));
    if Fingerprint(e) !in Recorded(run[..n]) {
      DueEventHasItem(run[n].results, Recorded(run[..n]), i, j);
    } else if ItemOf(r, e) in ItemsAt(run, n) {
      ItemCarries(ItemsAt(run, n), ItemOf(r, e));
    }
  }

  lemma ItemCarries(items: seq<Item>, item: Item)
    requires item in items
    ensures Carries(items, item.fingerprint)
  {
  }

  // ------------------------------------------------- what shares a fingerprint

  /** The drift events of one check all share one fingerprint, however many digests drifted. */
  lemma DriftEventsShareFingerprint(key: Key, tv: TagVersion, served: string, digest: string, running: seq<string>,
                                    hints: seq<Option<string>>, now: int, i: nat, j: nat)
    requires i < |DriftEvents(key, tv, served, digest, running, hints, now)|
    requires j < |DriftEvents(key, tv, served, digest, running, hints, now)|
    ensures
      var events := DriftEvents(key, tv, served, digest, running, hints, now);
      Fingerprint(events[i]) == Fingerprint(events[j])
  {
  }

  /**
    The fingerprint of a candidate event does not depend on the candidate: for one image stream it is the
    same for every release of the same kind, so once one is delivered a newer one of that kind is not.
  */
  lemma CandidateFingerprintIsItsKind(key: Key, e: Event, f: Event, cs: CandidateSet, cs': CandidateSet, a: Entry, b: Entry,
                                      m: Result<Manifest, string>, m': Result<Manifest, string>, now: int, now': int)
    requires CandidateEvent(key, cs, a, m, now) == Some(e) && CandidateEvent(key, cs', b, m', now') == Some(f)
    requires Separable(e) && Separable(f)
    ensures Fingerprint(e) == Fingerprint(f) <==> e.kind == f.kind
  {
    hide Separable, Fingerprint;
    FingerprintIsIdentity(e, f);
  }
}
