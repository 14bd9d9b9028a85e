/** internal/state/state.go: the persisted observations and delivered fingerprints. */
module States {
  import opened Prelude
  import opened Images

  /** One unit of observation; also the grouping key of a check cycle (internal/observer/observer.go:90-100). */
  datatype Key = Key(registry: string, repository: string, tag: string, platform: Platform)

  datatype Status = Fresh | Stale | Unknown

  datatype Observation = Observation(
    key: Key,
    platformManifestDigest: string,
    indexDigest: string,
    lastSuccess: int,
    lastError: string,
    lastErrorAt: int,
    status: Status)

  /** Go's zero value, seen by a reader of an absent key. */
  const ZERO_OBSERVATION := Observation(Key("", "", "", Platform("", "", "")), "", "", 0, "", 0, Unknown)

  type Observations = map<Key, Observation>

  function Lookup(store: Observations, key: Key): Option<Observation>
  {
    if key in store then Some(store[key]) else None
  }

  class MemoryStore {
    var observations: Observations
    var notifications: map<string, int>

    constructor ()
      ensures observations == map[] && notifications == map[]
    {
      observations, notifications := map[], map[];
    }

    method GetObservation(key: Key) returns (obs: Observation, found: bool)
      ensures found == (key in observations)
      ensures obs == if found then observations[key] else ZERO_OBSERVATION
    {
      found := key in observations;
      obs := if found then observations[key] else ZERO_OBSERVATION;
    }

    method PutObservation(obs: Observation)
      modifies this`observations
      ensures observations == old(observations)[obs.key := obs]
    {
      observations := observations[obs.key := obs];
    }

    method HasNotified(fingerprint: string) returns (notified: bool)
      ensures notified == (fingerprint in notifications)
    {
      notified := fingerprint in notifications;
    }

    method MarkNotified(fingerprint: string, now: int)
      modifies this`notifications
      ensures notifications == old(notifications)[fingerprint := now]
    {
      notifications := notifications[fingerprint := now];
    }
  }
}
