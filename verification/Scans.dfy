/**
  internal/observer/observer.go:437-460 with internal/observer/enrichment.go:39-160: the enrichment attempts for
  the drifted digests of one group, as a concurrent protocol. Each attempt is a process that asks the locked
  memo for the tag list, puts the tags in order, and fetches one window after the other; the steps of different
  attempts interleave in any way.
*/
module Scans {
  import opened Prelude
  import opened Registries
  import opened Enrichment
  import opened Sorting
  import opened States
  import Checks

  /** What all attempts of a group have in common: what is looked for, how far, and whether the context ever ends. */
  datatype Setting = Setting(view: RegistryView, q: Query, maxTags: nat, workers: nat, undisturbed: bool) {
    function Window(order: seq<Ranked>): nat
    {
      Min(workers, |order|)
    }

    function NeededFor(order: seq<Ranked>): nat
      requires workers > 0
    {
      Needed(FirstMatch(view, q, order), |order|, Window(order))
    }
  }

  type Memo = Option<Result<seq<string>, string>>

  datatype Scan =
    | Idle
    | Listed(listing: Result<seq<string>, string>)
    | Searching(order: seq<Ranked>, round: nat)
    | Done(order: seq<Ranked>, hint: Option<string>, spent: nat)

  /** The memo with the number of listings made for it, and the attempts. */
  datatype World = World(memo: Memo, lists: nat, scans: seq<Scan>)

  // -------------------------------------------------------------- the protocol

  /** The memo answers from what it holds; the first caller has the tags listed, under the lock. */
  ghost predicate ListStep(s: Setting, w: World, memo: Memo, lists: nat, scan: Scan)
  {
    && memo.Some? && scan == Listed(memo.value)
    && if w.memo.Some? then memo == w.memo && lists == w.lists
       else IsListing(s.view, s.q.repository, s.undisturbed, memo.value) && lists == w.lists + 1
  }

  /** The versionable tags are sorted, ties falling either way, and cut at the cap. */
  ghost predicate OrderStep(s: Setting, listing: Result<seq<string>, string>, scan: Scan)
  {
    match listing
    case Failure(_) => scan == Done([], None, 0)
    case Success(tags) => exists order: seq<Ranked> ::
      && IsScanOrder(Versionable(s.q.running, tags), s.maxTags, order)
      && scan == if order == [] then Done(order, None, 0) else Searching(order, 0)
  }

  /** The position of the first match among start .. end, or end. */
  ghost predicate IsFound(s: Setting, order: seq<Ranked>, start: nat, end: nat, at: nat)
    requires end <= |order|
  {
    && start <= at <= end && (at < end ==> Matches(s.view, s.q, order[at].raw))
    && forall j | start <= j < at :: !Matches(s.view, s.q, order[j].raw)
  }

  /** One window is fetched and looked through, unless the context ends before or after the fetch. */
  ghost predicate WindowStep(s: Setting, order: seq<Ranked>, round: nat, scan: Scan)
    requires s.workers > 0
  {
    var window := s.Window(order);
    var start := round * window;
    var end := Min(start + window, |order|);
    || (!s.undisturbed && start <= end && (scan == Done(order, None, start) || scan == Done(order, None, end)))
    || exists at: nat :: IsFound(s, order, start, end, at) && scan == AfterWindow(order, round, end, at)
  }

  function AfterWindow(order: seq<Ranked>, round: nat, end: nat, at: nat): Scan
    requires end <= |order|
  {
    if at < end then Done(order, Some(order[at].raw), end)
    else if end < |order| then Searching(order, round + 1)
    else Done(order, None, end)
  }

  ghost predicate ScanStep(s: Setting, w: World, scan: Scan, memo: Memo, lists: nat, scan': Scan)
    requires s.workers > 0
  {
    match scan
    case Idle => ListStep(s, w, memo, lists, scan')
    case Listed(listing) => memo == w.memo && lists == w.lists && OrderStep(s, listing, scan')
    case Searching(order, round) => memo == w.memo && lists == w.lists && WindowStep(s, order, round, scan')
    case Done(_, _, _) => false
  }

  ghost predicate IsStep(s: Setting, w: World, w': World)
    requires s.workers > 0
  {
    exists i: nat, scan' ::
      i < |w.scans| && w'.scans == w.scans[i := scan'] && ScanStep(s, w, w.scans[i], w'.memo, w'.lists, scan')
  }

  function Start(n: nat): World
  {
    World(None, 0, seq(n, _ => Idle))
  }

  ghost predicate IsRun(s: Setting, n: nat, run: seq<World>)
    requires s.workers > 0
  {
    && |run| >= 1 && run[0] == Start(n)
    && forall k | 0 <= k < |run| - 1 :: IsStep(s, run[k], run[k + 1])
  }

  // ------------------------------------------------------------- what is kept

  ghost predicate ScanHolds(s: Setting, memo: Memo, scan: Scan)
    requires s.workers > 0
  {
    match scan
    case Idle => true
    case Listed(listing) => memo == Some(listing)
    case Searching(order, round) =>
      && memo.Some? && memo.value.Success?
      && IsScanOrder(Versionable(s.q.running, memo.value.value), s.maxTags, order)
      && round * s.Window(order) < |order|
      && forall j | 0 <= j < round * s.Window(order) && j < |order| :: !Matches(s.view, s.q, order[j].raw)
    case Done(order, hint, spent) => memo.Some? && Concluded(s, memo.value, order, hint, spent)
  }

  /** What a finished attempt found, and what it took: the plain scan's answer and its windows, or less when disturbed. */
  ghost predicate Concluded(s: Setting, listing: Result<seq<string>, string>, order: seq<Ranked>, hint: Option<string>, spent: nat)
    requires s.workers > 0
  {
    match listing
    case Failure(_) => hint.None? && spent == 0
    case Success(tags) =>
      && IsScanOrder(Versionable(s.q.running, tags), s.maxTags, order)
      && (hint.Some? || s.undisturbed ==> hint == Answer(s.view, s.q, order))
      && spent <= s.NeededFor(order) && (s.undisturbed ==> spent == s.NeededFor(order))
  }

  /** All attempts see one listing, made at most once. */
  ghost predicate Holds(s: Setting, w: World)
    requires s.workers > 0
  {
    && w.lists == (if w.memo.Some? then 1 else 0)
    && (w.memo.Some? ==> IsListing(s.view, s.q.repository, s.undisturbed, w.memo.value))
    && forall i | 0 <= i < |w.scans| :: ScanHolds(s, w.memo, w.scans[i])
  }

  lemma OrderKeeps(s: Setting, listing: Result<seq<string>, string>, scan: Scan)
    requires s.workers > 0 && OrderStep(s, listing, scan)
    ensures ScanHolds(s, Some(listing), scan)
  {
    hide IsScanOrder, Versionable, FirstMatch;
    if listing.Success? && scan.Done? {
      NothingToFind(s.view, s.q);
    }
  }

  lemma WindowKeeps(s: Setting, memo: Memo, order: seq<Ranked>, round: nat, scan: Scan)
    requires s.workers > 0 && ScanHolds(s, memo, Searching(order, round)) && WindowStep(s, order, round, scan)
    ensures ScanHolds(s, memo, scan)
  {
    hide IsScanOrder, Versionable, FirstMatch, Matches, WindowEnd;
    var window := s.Window(order);
    var start := round * window;
    var end := Min(start + window, |order|);
    var best := FirstMatch(s.view, s.q, order);
    NeededCovers(best, |order|, window, round);
    if at: nat :| IsFound(s, order, start, end, at) && scan == AfterWindow(order, round, end, at) {
      if at < end {
        FirstIs(best, s.view, s.q, order, at);
        NeededEnds(at, |order|, window, round);
      } else {
        assert (round + 1) * window == start + window;
      }
    }
  }

  lemma StepKeeps(s: Setting, w: World, w': World)
    requires s.workers > 0 && Holds(s, w) && IsStep(s, w, w')
    ensures Holds(s, w') && (w.memo.Some? ==> w'.memo == w.memo)
  {
    hide IsListing, OrderStep, WindowStep, Concluded, IsScanOrder, Versionable, Matches;
    var i: nat, scan' :|
      i < |w.scans| && w'.scans == w.scans[i := scan'] && ScanStep(s, w, w.scans[i], w'.memo, w'.lists, scan');
    match w.scans[i]
    case Idle =>
    case Listed(listing) => OrderKeeps(s, listing, scan');
    case Searching(order, round) => WindowKeeps(s, w.memo, order, round, scan');
    case Done(_, _, _) =>
  }

  lemma {:induction false} RunHolds(s: Setting, n: nat, run: seq<World>)
    requires s.workers > 0 && IsRun(s, n, run)
    ensures Holds(s, run[|run| - 1]) && |run[|run| - 1].scans| == n
    decreases |run|
  {
    hide Holds, ScanStep;
    var last := |run| - 1;
    if last == 0 {
      StartHolds(s, n);
    } else {
      RunHolds(s, n, run[..last]);
      assert IsStep(s, run[last - 1], run[last]);
      StepKeeps(s, run[last - 1], run[last]);
    }
  }

  lemma StartHolds(s: Setting, n: nat)
    requires s.workers > 0
    ensures Holds(s, Start(n))
  {
  }

  /** Until every attempt is done some attempt can step, so a run never gets stuck. */
  lemma NeverStuck(s: Setting, w: World) returns (w': World)
    requires s.workers > 0 && Holds(s, w) && !AllDone(w.scans)
    ensures IsStep(s, w, w')
  {
    hide OrderStep, WindowStep, IsListing, Concluded, IsScanOrder, Versionable, Matches, Setting.Window;
    var i: nat :| 0 <= i < |w.scans| && !w.scans[i].Done?;
    var scan', memo, lists := Idle, w.memo, w.lists;
    match w.scans[i] {
      case Idle =>
        RegistryListing(s);
        memo := if w.memo.Some? then w.memo else Some(s.view.list(s.q.repository));
        scan', lists := Listed(memo.value), 1;
      case Listed(listing) =>
        scan' := CanOrder(s, listing);
      case Searching(order, round) =>
        assert ScanHolds(s, w.memo, w.scans[i]);
        scan' := CanSearch(s, order, round);
      case Done(_, _, _) =>
    }
    w' := World(memo, lists, w.scans[i := scan']);
    assert ScanStep(s, w, w.scans[i], w'.memo, w'.lists, scan');
  }

  lemma RegistryListing(s: Setting)
    ensures IsListing(s.view, s.q.repository, s.undisturbed, s.view.list(s.q.repository))
  {
  }

  lemma CanOrder(s: Setting, listing: Result<seq<string>, string>) returns (scan: Scan)
    ensures OrderStep(s, listing, scan)
  {
    hide Versionable;
    scan := Done([], None, 0);
    if listing.Success? {
      NewerFirstIsWeakOrder();
      var full := SortedExists(Versionable(s.q.running, listing.value), NewerFirst);
      var order := Capped(full, s.maxTags);
      assert IsScanOrder(Versionable(s.q.running, listing.value), s.maxTags, order);
      scan := if order == [] then Done(order, None, 0) else Searching(order, 0);
    }
  }

  lemma CanSearch(s: Setting, order: seq<Ranked>, round: nat) returns (scan: Scan)
    requires s.workers > 0 && round * s.Window(order) < |order|
    ensures WindowStep(s, order, round, scan)
  {
    hide Matches;
    var start := round * s.Window(order);
    var end, at := Min(start + s.Window(order), |order|), start;
    while at < end && !Matches(s.view, s.q, order[at].raw)
      invariant start <= at <= end && forall j | start <= j < at :: !Matches(s.view, s.q, order[j].raw)
    {
      at := at + 1;
    }
    assert IsFound(s, order, start, end, at);
    scan := AfterWindow(order, round, end, at);
  }

  function SettingOf(view: RegistryView, key: Key, digest: string, config: Checks.Config, undisturbed: bool): (s: Setting)
    ensures s.workers > 0
  {
    Setting(view, Checks.QueryOf(key, digest), EffectiveMaxTags(config.maxTags), config.WorkerLimit(), undisturbed)
  }

  predicate AllDone(scans: seq<Scan>)
  {
    forall i | 0 <= i < |scans| :: scans[i].Done?
  }

  function Hints(scans: seq<Scan>): (hints: seq<Option<string>>)
    requires AllDone(scans)
    ensures |hints| == |scans|
    ensures forall i | 0 <= i < |scans| :: hints[i] == scans[i].hint
  {
    seq(|scans|, i requires 0 <= i < |scans| => scans[i].hint)
  }

  /**
    For every interleaving of the attempts' steps: the tags are listed at most once, every attempt concludes
    from that one listing, error or not, with the plain scan's answer for some order of ties, and with no more
    requests than the windows up to the first match; only the end of the context makes either less.
  */
  lemma EveryInterleavingSharesOneListing(view: RegistryView, key: Key, digest: string, config: Checks.Config, undisturbed: bool,
                                          n: nat, run: seq<World>)
    requires IsRun(SettingOf(view, key, digest, config, undisturbed), n, run)
    requires AllDone(run[|run| - 1].scans)
    ensures
      var s, last := SettingOf(view, key, digest, config, undisturbed), run[|run| - 1];
      && |last.scans| == n && last.lists <= 1
      && Checks.SoundHints(view, key, digest, config, undisturbed, Hints(last.scans))
      && forall i | 0 <= i < n :: last.memo.Some? &&
           Concluded(s, last.memo.value, last.scans[i].order, last.scans[i].hint, last.scans[i].spent)
  {
    hide IsListing, IsScanOrder, Versionable, Answer, EffectiveMaxTags, IsStep;
    var s, last := SettingOf(view, key, digest, config, undisturbed), run[|run| - 1];
    RunHolds(s, n, run);
    forall i | 0 <= i < n
      ensures last.memo.Some? && Concluded(s, last.memo.value, last.scans[i].order, last.scans[i].hint, last.scans[i].spent)
    {
      assert ScanHolds(s, last.memo, last.scans[i]);
    }
    if n == 0 {
      Checks.NoHintsAreSound(view, key, digest, config, undisturbed);
      assert Hints(last.scans) == [];
    } else {
      assert last.scans[0].Done? && last.memo.Some?;
      forall i | 0 <= i < n
        ensures InferredFrom(view, s.q, s.maxTags, undisturbed, last.memo.value, last.scans[i].hint)
      {
        ConcludedIsInferred(s, last.memo.value, last.scans[i].order, last.scans[i].hint, last.scans[i].spent);
      }
      assert Checks.HintsFrom(view, key, digest, config, undisturbed, last.memo.value, Hints(last.scans));
    }
  }

  lemma ConcludedIsInferred(s: Setting, listing: Result<seq<string>, string>, order: seq<Ranked>, hint: Option<string>, spent: nat)
    requires s.workers > 0 && Concluded(s, listing, order, hint, spent)
    ensures InferredFrom(s.view, s.q, s.maxTags, s.undisturbed, listing, hint)
  {
    hide IsScanOrder, Versionable, Answer, FirstMatch, Needed;
  }
}
