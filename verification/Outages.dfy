/** cmd/image-watch/pipeline.go:159-219: alerts about registry hosts that keep failing. */
module Outages {
  import opened Prelude
  import opened Text
  import opened Events
  import opened Detection
  import opened Pipeline

  /** How a host looks in one cycle: not monitored, or all of its images failed, or not all. */
  datatype Health = Absent | AllFailed | SomeSucceeded

  function OnHost(results: seq<CheckResult>, host: string): seq<CheckResult>
  {
    if results == [] then []
    else
      var front, r := OnHost(results[..|results| - 1], host), results[|results| - 1];
      if r.image.registry == host then front + [r] else front
  }

  predicate RegistryFailed(group: seq<CheckResult>)
  {
    group != [] && forall i | 0 <= i < |group| :: group[i].err.Some?
  }

  function HealthOf(results: seq<CheckResult>, host: string): Health
  {
    var group := OnHost(results, host);
    if group == [] then Absent else if RegistryFailed(group) then AllFailed else SomeSucceeded
  }

  // --------------------------------------------------- one host, cycle by cycle

  datatype HostState = HostState(failures: nat, notified: bool)

  /** The tracker's bookkeeping for one host, and whether it alerts. */
  function Observe(s: HostState, h: Health, threshold: nat): (HostState, bool)
  {
    match h
    case Absent => (s, false)
    case SomeSucceeded => (HostState(0, false), false)
    case AllFailed =>
      var alert := s.failures + 1 >= threshold && !s.notified;
      (HostState(s.failures + 1, s.notified || alert), alert)
  }

  function EffectiveThreshold(threshold: int): nat
  {
    if threshold <= 0 then 3 else threshold
  }

  function AlertFor(host: string, affected: nat, failures: nat): Item
  {
    Item("", host, "", RegistryOutage, Itoa(affected) + " monitored image(s) affected",
      Itoa(failures) + " consecutive failed checks", "", "", "", [], [])
  }

  /** The alert a cycle raises for a host, if any. */
  function AlertOf(results: seq<CheckResult>, host: string, s: HostState, threshold: nat): (alert: Option<Item>)
    ensures alert.Some? ==> alert.value.image == host
  {
    var (s', alert) := Observe(s, HealthOf(results, host), threshold);
    if alert then Some(AlertFor(host, |OnHost(results, host)|, s'.failures)) else None
  }

  method RegistryFailedThisCycle(group: seq<CheckResult>) returns (failed: bool)
    ensures failed == RegistryFailed(group)
  {
    if |group| == 0 {
      return false;
    }
    for i := 0 to |group|
      invariant forall j | 0 <= j < i :: group[j].err.Some?
    {
      if group[i].err.None? {
        return false;
      }
    }
    return true;
  }

  method GroupByHost(results: seq<CheckResult>) returns (byHost: map<string, seq<CheckResult>>)
    ensures forall host :: (host in byHost <==> OnHost(results, host) != [])
    ensures forall host | host in byHost :: byHost[host] == OnHost(results, host)
  {
    byHost := map[];
    for i := 0 to |results|
      invariant forall host :: (host in byHost <==> OnHost(results[..i], host) != [])
      invariant forall host | host in byHost :: byHost[host] == OnHost(results[..i], host)
    {
      var host := results[i].image.registry;
      assert results[..i + 1][..i] == results[..i];
      var group := if host in byHost then byHost[host] else [];
      byHost := byHost[host := group + [results[i]]];
    }
    assert results[..|results|] == results;
  }

  /** Go's reading of absent map entries as zero values. */
  function StateIn(failures: map<string, nat>, notified: map<string, bool>, host: string): HostState
  {
    HostState(if host in failures then failures[host] else 0, host in notified && notified[host])
  }

  /** The alerts raised so far are exactly those of the hosts visited, one for each alerting host. */
  ghost predicate AlertsOfVisited(results: seq<CheckResult>, before: string -> HostState, threshold: nat,
                                  rest: set<string>, alerts: seq<Item>)
  {
    && (forall host | host !in rest && AlertOf(results, host, before(host), threshold).Some? ::
          AlertOf(results, host, before(host), threshold).value in alerts)
    && (forall i | 0 <= i < |alerts| ::
          alerts[i].image !in rest && AlertOf(results, alerts[i].image, before(alerts[i].image), threshold) == Some(alerts[i]))
    && (forall i, j | 0 <= i < j < |alerts| :: alerts[i].image != alerts[j].image)
  }

  lemma VisitRaises(results: seq<CheckResult>, before: string -> HostState, threshold: nat, rest: set<string>,
                    alerts: seq<Item>, host: string)
    requires AlertsOfVisited(results, before, threshold, rest, alerts) && host in rest
    ensures
      var alert := AlertOf(results, host, before(host), threshold);
      AlertsOfVisited(results, before, threshold, rest - {host}, if alert.Some? then alerts + [alert.value] else alerts)
  {
  }

  lemma AbsentIsSilent(results: seq<CheckResult>, host: string, s: HostState, threshold: nat)
    requires OnHost(results, host) == []
    ensures AlertOf(results, host, s, threshold) == None && Observe(s, HealthOf(results, host), threshold).0 == s
  {
  }

  class RegistryOutageTracker {
    var consecutiveFailures: map<string, nat>
    var alreadyNotified: map<string, bool>

    constructor ()
      ensures forall host :: StateOf(host) == HostState(0, false)
    {
      consecutiveFailures, alreadyNotified := map[], map[];
    }

    function StateOf(host: string): HostState
      reads this
    {
      StateIn(consecutiveFailures, alreadyNotified, host)
    }

    /**
      Hosts are visited in an arbitrary order, as Go's map iteration does. Every host moves by one Observe,
      and the alerts are exactly those raised, one for each alerting host.
    */
    method DetectOutages(results: seq<CheckResult>, threshold: int) returns (alerts: seq<Item>)
      modifies this
      ensures forall host ::
        StateOf(host) == Observe(old(StateOf(host)), HealthOf(results, host), EffectiveThreshold(threshold)).0
      ensures forall host :: var alert := AlertOf(results, host, old(StateOf(host)), EffectiveThreshold(threshold));
        alert.Some? ==> alert.value in alerts
      ensures forall i | 0 <= i < |alerts| ::
        AlertOf(results, alerts[i].image, old(StateOf(alerts[i].image)), EffectiveThreshold(threshold)) == Some(alerts[i])
      ensures forall i, j | 0 <= i < j < |alerts| :: alerts[i].image != alerts[j].image
    {
      hide OnHost, Observe, AlertOf, HealthOf, StateIn;
      var limit := EffectiveThreshold(threshold);
      var byHost := GroupByHost(results);
      ghost var failures, notified := consecutiveFailures, alreadyNotified;
      ghost var before := (host: string) => StateIn(failures, notified, host);
      forall host | host !in byHost
        ensures AlertOf(results, host, before(host), limit) == None
        ensures Observe(before(host), HealthOf(results, host), limit).0 == before(host)
      {
        AbsentIsSilent(results, host, before(host), limit);
      }
      alerts := [];
      var rest := byHost.Keys;
      while rest != {}
        invariant rest <= byHost.Keys
        invariant forall host ::
          StateOf(host) == if host in rest then before(host) else Observe(before(host), HealthOf(results, host), limit).0
        invariant AlertsOfVisited(results, before, limit, rest, alerts)
        decreases |rest|
      {
        var host :| host in rest;
        VisitRaises(results, before, limit, rest, alerts, host);
        rest := rest - {host};
        alerts := VisitHost(results, host, byHost[host], limit, alerts);
      }
    }

    /** The body of the loop for one host. */
    method VisitHost(results: seq<CheckResult>, host: string, group: seq<CheckResult>, threshold: nat, alerts: seq<Item>)
      returns (alerts': seq<Item>)
      requires group == OnHost(results, host) && group != []
      modifies this
      ensures forall h ::
        StateOf(h) == if h == host then Observe(old(StateOf(h)), HealthOf(results, h), threshold).0 else old(StateOf(h))
      ensures
        var alert := AlertOf(results, host, old(StateOf(host)), threshold);
        alerts' == if alert.Some? then alerts + [alert.value] else alerts
    {
      hide OnHost, Itoa;
      alerts' := alerts;
      var failed := RegistryFailedThisCycle(group);
      if failed {
        consecutiveFailures := consecutiveFailures[host := StateOf(host).failures + 1];
        if consecutiveFailures[host] >= threshold && !StateOf(host).notified {
          alreadyNotified := alreadyNotified[host := true];
          alerts' := alerts + [AlertFor(host, |group|, consecutiveFailures[host])];
        }
      } else {
        consecutiveFailures := consecutiveFailures[host := 0];
        alreadyNotified := alreadyNotified[host := false];
      }
    }
  }

  /**
    The outage stage of a daemon cycle: the tracker is moved first, and how the notifiers then answer
    changes nothing in it.
  */
  method ReportOutages(tracker: RegistryOutageTracker, results: seq<CheckResult>, threshold: int, outcomes: seq<bool>)
    returns (alerts: seq<Item>, accepted: bool)
    modifies tracker
    ensures forall host ::
      tracker.StateOf(host) == Observe(old(tracker.StateOf(host)), HealthOf(results, host), EffectiveThreshold(threshold)).0
    ensures forall host :: var alert := AlertOf(results, host, old(tracker.StateOf(host)), EffectiveThreshold(threshold));
      alert.Some? ==> alert.value in alerts
    ensures forall i | 0 <= i < |alerts| ::
      AlertOf(results, alerts[i].image, old(tracker.StateOf(alerts[i].image)), EffectiveThreshold(threshold)) == Some(alerts[i])
    ensures accepted <==> alerts != [] && true in outcomes
  {
    hide Observe, AlertOf, HealthOf;
    alerts := tracker.DetectOutages(results, threshold);
    accepted := false;
    if |alerts| > 0 {
      var failures;
      accepted, failures := Deliver(alerts, outcomes);
    }
  }

  // -------------------------------------------------------- runs and episodes

  /** The bookkeeping for a host after a run of cycles with a fixed threshold. */
  function After(run: seq<Health>, threshold: nat): HostState
  {
    if run == [] then HostState(0, false)
    else Observe(After(run[..|run| - 1], threshold), run[|run| - 1], threshold).0
  }

  predicate AlertsAt(run: seq<Health>, threshold: nat, n: nat)
    requires n < |run|
  {
    Observe(After(run[..n], threshold), run[n], threshold).1
  }

  /** The all-failed cycles since the last success; cycles without the host count neither way. */
  function Streak(run: seq<Health>): nat
  {
    if run == [] then 0
    else
      match run[|run| - 1]
      case Absent => Streak(run[..|run| - 1])
      case AllFailed => Streak(run[..|run| - 1]) + 1
      case SomeSucceeded => 0
  }

  /** The counter is the current streak, and the host has been notified exactly when the streak reached the threshold. */
  lemma {:induction false} TrackerCountsStreak(run: seq<Health>, threshold: nat)
    requires threshold > 0
    ensures After(run, threshold) == HostState(Streak(run), Streak(run) >= threshold)
  {
    if run != [] {
      TrackerCountsStreak(run[..|run| - 1], threshold);
    }
  }

  /** An alert is raised exactly at the all-failed cycle that brings the streak to the threshold. */
  lemma AlertIffStreakReachesThreshold(run: seq<Health>, threshold: nat, n: nat)
    requires threshold > 0 && n < |run|
    ensures AlertsAt(run, threshold, n) <==> run[n] == AllFailed && Streak(run[..n + 1]) == threshold
  {
    TrackerCountsStreak(run[..n], threshold);
    assert run[..n + 1][..n] == run[..n];
  }

  /** The alerts among cycles start .. end of a run. */
  function AlertCount(run: seq<Health>, threshold: nat, start: nat, end: nat): nat
    requires start <= end <= |run|
    decreases end - start
  {
    if start == end then 0
    else AlertCount(run, threshold, start, end - 1) + if AlertsAt(run, threshold, end - 1) then 1 else 0
  }

  /** A stretch without a success that starts the run or follows a success. */
  ghost predicate IsEpisode(run: seq<Health>, start: nat, end: nat)
  {
    && start <= end <= |run|
    && (start > 0 ==> run[start - 1] == SomeSucceeded)
    && forall i | start <= i < end :: run[i] != SomeSucceeded
  }

  /** Within an episode the host is alerted exactly once if the episode's failures reach the threshold, else never. */
  lemma {:induction false} OneAlertPerEpisode(run: seq<Health>, threshold: nat, start: nat, end: nat)
    requires threshold > 0 && IsEpisode(run, start, end)
    ensures Streak(run[..end]) == Failures(run, start, end)
    ensures AlertCount(run, threshold, start, end) == if Failures(run, start, end) >= threshold then 1 else 0
    decreases end - start
  {
    if start == end {
      if start > 0 {
        assert run[..end][end - 1] == SomeSucceeded;
      }
    } else {
      OneAlertPerEpisode(run, threshold, start, end - 1);
      AlertIffStreakReachesThreshold(run, threshold, end - 1);
      assert run[..end][..end - 1] == run[..end - 1];
    }
  }

  /** The all-failed cycles among start .. end. */
  function Failures(run: seq<Health>, start: nat, end: nat): nat
    requires start <= end <= |run|
    decreases end - start
  {
    if start == end then 0 else Failures(run, start, end - 1) + if run[end - 1] == AllFailed then 1 else 0
  }

  /** The number an alert quotes is always the threshold itself. */
  lemma {:induction false} AlertQuotesThreshold(run: seq<Health>, results: seq<CheckResult>, host: string, threshold: nat)
    requires threshold > 0 && AlertOf(results, host, After(run, threshold), threshold).Some?
    ensures AlertOf(results, host, After(run, threshold), threshold).value ==
      AlertFor(host, |OnHost(results, host)|, threshold)
    ensures OnHost(results, host) != []
  {
    hide OnHost, AlertFor;
    TrackerCountsStreak(run, threshold);
  }

  // ------------------------------------------------------- alerts and delivery

  lemma StreakInEpisode(run: seq<Health>, threshold: nat, start: nat, n: nat)
    requires threshold > 0 && start <= n < |run| && IsEpisode(run, start, n + 1)
    ensures AlertsAt(run, threshold, n) <==> run[n] == AllFailed && Failures(run, start, n + 1) == threshold
  {
    OneAlertPerEpisode(run, threshold, start, n + 1);
    AlertIffStreakReachesThreshold(run, threshold, n);
  }

  /** The latest success in a stretch of cycles. */
  lemma LatestSuccess(run: seq<Health>, start: nat, end: nat) returns (s: nat)
    requires start <= end <= |run| && exists k | start <= k < end :: run[k] == SomeSucceeded
    ensures start <= s < end && run[s] == SomeSucceeded && IsEpisode(run, s + 1, end)
    decreases end - start
  {
    if run[end - 1] == SomeSucceeded {
      s := end - 1;
    } else {
      s := LatestSuccess(run, start, end - 1);
    }
  }

  /** Failures only accumulate while no success intervenes. */
  lemma {:induction false} StreakGrows(run: seq<Health>, n: nat, m: nat)
    requires n <= m <= |run| && forall k | n <= k < m :: run[k] != SomeSucceeded
    ensures Streak(run[..m]) >= Streak(run[..n])
    ensures m > n && run[m - 1] == AllFailed ==> Streak(run[..m]) > Streak(run[..n])
    decreases m
  {
    if n < m {
      assert run[..m][..m - 1] == run[..m - 1];
      StreakGrows(run, n, m - 1);
    }
  }

  /**
    Whatever became of its delivery, an alert is raised again exactly by a new outage: some image of the host
    succeeds in between, and the failures since the latest success reach the threshold anew.
  */
  lemma AlertIsRaisedAgainIff(run: seq<Health>, threshold: nat, n: nat, m: nat)
    requires threshold > 0 && n < m < |run| && AlertsAt(run, threshold, n)
    ensures AlertsAt(run, threshold, m) <==>
      run[m] == AllFailed && exists s: nat ::
        n < s < m && run[s] == SomeSucceeded && IsEpisode(run, s + 1, m + 1) && Failures(run, s + 1, m + 1) == threshold
  {
    hide AlertsAt, Streak, Failures;
    AlertIffStreakReachesThreshold(run, threshold, n);
    AlertIffStreakReachesThreshold(run, threshold, m);
    if exists k | n + 1 <= k < m :: run[k] == SomeSucceeded {
      var s := LatestSuccess(run, n + 1, m);
      if run[m] == AllFailed {
        StreakInEpisode(run, threshold, s + 1, m);
      }
      if t: nat :| n < t < m && run[t] == SomeSucceeded && IsEpisode(run, t + 1, m + 1) {
        assert t == s;
      }
    } else if run[m] == AllFailed {
      StreakGrows(run, n + 1, m + 1);
    }
  }

  /** One host in one cycle, and whether some notifier accepted that cycle's alerts, had there been any. */
  datatype OutageTurn = OutageTurn(health: Health, accepted: bool)

  function Healths(turns: seq<OutageTurn>): (run: seq<Health>)
    ensures |run| == |turns|
    ensures forall n | 0 <= n < |turns| :: run[n] == turns[n].health
  {
    seq(|turns|, n requires 0 <= n < |turns| => turns[n].health)
  }

  /** The alerts among cycles start .. end that some notifier accepted. */
  function HeardCount(turns: seq<OutageTurn>, threshold: nat, start: nat, end: nat): nat
    requires start <= end <= |turns|
    decreases end - start
  {
    if start == end then 0
    else
      HeardCount(turns, threshold, start, end - 1) +
        if AlertsAt(Healths(turns), threshold, end - 1) && turns[end - 1].accepted then 1 else 0
  }

  /** Cycle n raises the alert of the episode that began at start: its failure is the threshold-th. */
  predicate Alarms(run: seq<Health>, threshold: nat, start: nat, n: nat)
    requires start <= n < |run|
  {
    run[n] == AllFailed && Failures(run, start, n + 1) == threshold
  }

  /**
    An outage is heard of exactly when some notifier accepts in the one cycle in which its failures reach the
    threshold, and then exactly once; accepting in any other cycle makes no difference.
  */
  lemma {:induction false} OutageIsHeardIff(turns: seq<OutageTurn>, threshold: nat, start: nat, end: nat)
    requires threshold > 0 && IsEpisode(Healths(turns), start, end)
    ensures HeardCount(turns, threshold, start, end) ==
      if exists n: nat | start <= n < end :: Alarms(Healths(turns), threshold, start, n) && turns[n].accepted then 1 else 0
    decreases end - start
  {
    hide AlertsAt, Failures, Healths;
    var run := Healths(turns);
    if start < end {
      OutageIsHeardIff(turns, threshold, start, end - 1);
      StreakInEpisode(run, threshold, start, end - 1);
      forall n: nat | start <= n < end - 1 && Alarms(run, threshold, start, n) ensures !Alarms(run, threshold, start, end - 1) {
        FailuresGrow(run, start, n + 1, end);
      }
    }
  }

  lemma {:induction false} FailuresGrow(run: seq<Health>, start: nat, n: nat, m: nat)
    requires start <= n < m <= |run|
    ensures Failures(run, start, m) >= Failures(run, start, n) + if run[m - 1] == AllFailed then 1 else 0
    decreases m
  {
    if n < m - 1 {
      FailuresGrow(run, start, n, m - 1);
    }
  }

  /** The only alert of an outage can be lost: every notifier refuses it, and would accept anything ever after. */
  lemma AlertMayBeLost(threshold: nat, length: nat)
    requires 0 < threshold <= length
    ensures
      var turns := seq(length, n requires 0 <= n => OutageTurn(AllFailed, n != threshold - 1));
      && AlertCount(Healths(turns), threshold, 0, length) == 1
      && HeardCount(turns, threshold, 0, length) == 0
  {
    hide AlertsAt;
    var turns := seq(length, n requires 0 <= n => OutageTurn(AllFailed, n != threshold - 1));
    forall n: nat | n <= length ensures Failures(Healths(turns), 0, n) == n {
      EveryCycleFails(Healths(turns), n);
    }
    OneAlertPerEpisode(Healths(turns), threshold, 0, length);
    OutageIsHeardIff(turns, threshold, 0, length);
  }

  lemma {:induction false} EveryCycleFails(run: seq<Health>, n: nat)
    requires n <= |run| && forall k | 0 <= k < n :: run[k] == AllFailed
    ensures Failures(run, 0, n) == n
  {
    if n > 0 {
      EveryCycleFails(run, n - 1);
    }
  }

  // ------------------------------------------------------ from results to alerts

  ghost predicate SomeOn(results: seq<CheckResult>, host: string)
  {
    exists i | 0 <= i < |results| :: results[i].image.registry == host
  }

  /** Every image of the host failed. */
  ghost predicate AllFailOn(results: seq<CheckResult>, host: string)
  {
    forall i | 0 <= i < |results| && results[i].image.registry == host :: results[i].err.Some?
  }

  lemma {:induction false} OnHostFails(results: seq<CheckResult>, host: string)
    ensures OnHost(results, host) != [] <==> SomeOn(results, host)
    ensures RegistryFailed(OnHost(results, host)) <==> SomeOn(results, host) && AllFailOn(results, host)
  {
    if results != [] {
      var n := |results| - 1;
      var front, last := results[..n], results[n];
      OnHostFails(front, host);
      assert front + [last] == results;
      HostGrows(front, last, host);
      if last.image.registry == host {
        GroupGrows(OnHost(front, host), last);
      }
    }
  }

  lemma HostGrows(front: seq<CheckResult>, r: CheckResult, host: string)
    ensures SomeOn(front + [r], host) <==> SomeOn(front, host) || r.image.registry == host
    ensures AllFailOn(front + [r], host) <==> AllFailOn(front, host) && (r.image.registry == host ==> r.err.Some?)
    ensures !SomeOn(front, host) ==> AllFailOn(front, host)
  {
    var all := front + [r];
    assert all[|front|] == r && forall i | 0 <= i < |front| :: all[i] == front[i];
    if i :| 0 <= i < |front| && front[i].image.registry == host {
      assert all[i].image.registry == host;
    }
  }

  lemma GroupGrows(group: seq<CheckResult>, r: CheckResult)
    ensures RegistryFailed(group + [r]) <==> r.err.Some? && (group == [] || RegistryFailed(group))
  {
    var all := group + [r];
    assert all[|group|] == r && forall i | 0 <= i < |group| :: all[i] == group[i];
  }

  /** How many images of the host a cycle checked. */
  function ImagesOn(results: seq<CheckResult>, host: string): nat
  {
    if results == [] then 0
    else ImagesOn(results[1..], host) + if results[0].image.registry == host then 1 else 0
  }

  lemma {:induction false} ImagesOnConcat(a: seq<CheckResult>, b: seq<CheckResult>, host: string)
    ensures ImagesOn(a + b, host) == ImagesOn(a, host) + ImagesOn(b, host)
  {
    if a == [] {
      assert a + b == b;
    } else {
      assert (a + b)[1..] == a[1..] + b;
      ImagesOnConcat(a[1..], b, host);
    }
  }

  lemma {:induction false} OnHostCounts(results: seq<CheckResult>, host: string)
    ensures |OnHost(results, host)| == ImagesOn(results, host)
  {
    if results != [] {
      var n := |results| - 1;
      OnHostCounts(results[..n], host);
      assert results == results[..n] + [results[n]];
      ImagesOnConcat(results[..n], [results[n]], host);
      assert [results[n]][1..] == [];
    }
  }

  /** How a host looks in a cycle, by its images: some image that succeeded makes all the difference. */
  lemma HealthIs(results: seq<CheckResult>, host: string)
    ensures HealthOf(results, host) ==
      if !SomeOn(results, host) then Absent else if AllFailOn(results, host) then AllFailed else SomeSucceeded
  {
    hide OnHost, RegistryFailed, SomeOn, AllFailOn;
    OnHostFails(results, host);
  }

  function HealthsOn(run: seq<seq<CheckResult>>, host: string): (healths: seq<Health>)
    ensures |healths| == |run|
    ensures forall n | 0 <= n < |run| :: healths[n] == HealthOf(run[n], host)
  {
    seq(|run|, n requires 0 <= n < |run| => HealthOf(run[n], host))
  }

  /** The cycles in which every image of the host failed, since one in which some image succeeded; others without it aside. */
  ghost function FailedInARow(run: seq<seq<CheckResult>>, host: string): nat
  {
    if run == [] then 0
    else
      var front, last := FailedInARow(run[..|run| - 1], host), run[|run| - 1];
      if !SomeOn(last, host) then front else if AllFailOn(last, host) then front + 1 else 0
  }

  lemma {:induction false} StreakIsFailedInARow(run: seq<seq<CheckResult>>, host: string)
    ensures Streak(HealthsOn(run, host)) == FailedInARow(run, host)
  {
    hide HealthOf, SomeOn, AllFailOn;
    if run != [] {
      var n := |run| - 1;
      StreakIsFailedInARow(run[..n], host);
      HealthIs(run[n], host);
      assert HealthsOn(run, host)[..n] == HealthsOn(run[..n], host);
    }
  }

  /**
    Over any run of cycles, with the configured threshold or else three: a host is alerted in a cycle exactly
    when all its images fail there for the threshold-th time in a row, and the alert quotes that number and
    the images affected.
  */
  lemma HostIsAlertedIff(run: seq<seq<CheckResult>>, results: seq<CheckResult>, host: string, configured: int)
    ensures
      var threshold: nat := if configured <= 0 then 3 else configured;
      var alert := AlertOf(results, host, After(HealthsOn(run, host), EffectiveThreshold(configured)), EffectiveThreshold(configured));
      && (alert.Some? <==>
            SomeOn(results, host) && AllFailOn(results, host) && FailedInARow(run, host) + 1 == threshold)
      && (alert.Some? ==>
            alert.value == Item("", host, "", RegistryOutage, Itoa(ImagesOn(results, host)) + " monitored image(s) affected",
              Itoa(threshold) + " consecutive failed checks", "", "", "", [], []))
  {
    hide OnHost, HealthOf, SomeOn, AllFailOn, Itoa, FailedInARow, Streak;
    TrackerCountsStreak(HealthsOn(run, host), EffectiveThreshold(configured));
    StreakIsFailedInARow(run, host);
    HealthIs(results, host);
    OnHostCounts(results, host);
  }
}
