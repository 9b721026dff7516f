/** The forecast cache with its fresh and stale windows, and the fetch that it shields. */
module ForecastCache {
  import opened Common

  datatype Entry<T> = Entry(data: T, fetchedAt: int)

  datatype Hit<T> = Hit(data: T, ageMs: int, isFresh: bool)

  /** Lookup in a log of the latest fetches that never forgets anything. */
  function HitIn<T>(log: map<string, Entry<T>>, key: string, now: int, freshTtl: int, staleTtl: int): Option<Hit<T>> {
    if key in log && now - log[key].fetchedAt <= staleTtl
    then Some(Hit(log[key].data, now - log[key].fetchedAt, now - log[key].fetchedAt <= freshTtl))
    else None
  }

  class Cache<T> {
    const freshTtlMs: int
    const staleTtlMs: int
    var store: map<string, Entry<T>>
    /** Every latest fetch, evicted or not, and the time of the last operation. */
    ghost var log: map<string, Entry<T>>
    ghost var clock: int

    constructor(freshTtlMs: int, staleTtlMs: int, ghost now: int)
      ensures Valid() && log == map[] && clock == now
      ensures this.freshTtlMs == freshTtlMs && this.staleTtlMs == staleTtlMs
    {
      this.freshTtlMs, this.staleTtlMs := freshTtlMs, staleTtlMs;
      store, log, clock := map[], map[], now;
    }

    /** The store is the log without some entries that are past the stale window. */
    ghost predicate Valid()
      reads this
    {
      && (forall k <- store :: k in log && store[k] == log[k])
      && (forall k <- log :: k !in store ==> clock - log[k].fetchedAt > staleTtlMs)
    }

    ghost function Expected(key: string, now: int): Option<Hit<T>>
      reads this
    {
      HitIn(log, key, now, freshTtlMs, staleTtlMs)
    }

    method Get(key: string, now: int) returns (r: Option<Hit<T>>)
      requires Valid() && clock <= now
      modifies this
      ensures Valid() && clock == now && log == old(log)
      ensures r == Expected(key, now)
    {
      clock := now;
      if key !in store {
        return None;
      }
      var entry := store[key];
      var ageMs := now - entry.fetchedAt;
      if ageMs > staleTtlMs {
        store := store - {key};
        return None;
      }
      r := Some(Hit(entry.data, ageMs, ageMs <= freshTtlMs));
    }

    method GetFresh(key: string, now: int) returns (r: Option<T>)
      requires Valid() && clock <= now
      modifies this
      ensures Valid() && clock == now && log == old(log)
      ensures r == match Expected(key, now)
                   case Some(hit) => if hit.isFresh then Some(hit.data) else None
                   case None => None
    {
      var hit := Get(key, now);
      r := if hit.Some? && hit.value.isFresh then Some(hit.value.data) else None;
    }

    method GetStale(key: string, now: int) returns (r: Option<T>)
      requires Valid() && clock <= now
      modifies this
      ensures Valid() && clock == now && log == old(log)
      ensures r == match Expected(key, now) case Some(hit) => Some(hit.data) case None => None
    {
      var hit := Get(key, now);
      r := if hit.Some? then Some(hit.value.data) else None;
    }

    method Set(key: string, data: T, now: int)
      requires Valid() && clock <= now
      modifies this
      ensures Valid() && clock == now && log == old(log)[key := Entry(data, now)]
    {
      clock := now;
      store := store[key := Entry(data, now)];
      log := log[key := Entry(data, now)];
    }
  }

  // ------------------------------------------------------------------ getForecastData

  const UNSUPPORTED_ADJUSTMENT_METHOD := 40
  const WEATHER_API_ERROR := 12

  /** One call: when it started, when the upstream fetch would settle, and with what. */
  datatype Fetch<T> = Fetch(key: string, started: int, settled: int, upstream: Option<T>)

  /** The answer, whether upstream was called, and the log of latest fetches afterwards. */
  datatype Served<T> = Served(result: Result<T, int>, called: bool, log: map<string, Entry<T>>)

  /** What a service that never evicts would do. */
  function ServeFrom<T>(log: map<string, Entry<T>>, f: Fetch<T>, freshTtl: int, staleTtl: int): Served<T> {
    var hit := HitIn(log, f.key, f.started, freshTtl, staleTtl);
    if hit.Some? && hit.value.isFresh then Served(Ok(hit.value.data), false, log)
    else
      match f.upstream
      case Some(data) => Served(Ok(data), true, log[f.key := Entry(data, f.settled)])
      case None =>
        var stale := HitIn(log, f.key, f.settled, freshTtl, staleTtl);
        Served(if stale.Some? then Ok(stale.value.data) else Err(WEATHER_API_ERROR), true, log)
  }

  /** With a clock that never goes back, eviction cannot be observed. */
  method GetForecastData<T>(cache: Cache<T>, enableForecast: bool, f: Fetch<T>)
    returns (r: Result<T, int>, called: bool)
    requires cache.Valid() && cache.clock <= f.started <= f.settled
    modifies cache
    ensures cache.Valid() && cache.clock <= f.settled
    ensures !enableForecast ==> r == Err(40) && !called && cache.log == old(cache.log)
    ensures enableForecast ==>
              Served(r, called, cache.log) == ServeFrom(old(cache.log), f, cache.freshTtlMs, cache.staleTtlMs)
  {
    called := false;
    if !enableForecast {
      return Err(UNSUPPORTED_ADJUSTMENT_METHOD), false;
    }
    var freshData := cache.GetFresh(f.key, f.started);
    if freshData.Some? {
      return Ok(freshData.value), false;
    }
    called := true;
    if f.upstream.Some? {
      cache.Set(f.key, f.upstream.value, f.settled);
      return Ok(f.upstream.value), true;
    }
    var stale := cache.GetStale(f.key, f.settled);
    r := if stale.Some? then Ok(stale.value) else Err(WEATHER_API_ERROR);
  }

  // ------------------------------------------------------------------ runs

  function LogAfter<T>(fetches: seq<Fetch<T>>, freshTtl: int, staleTtl: int): map<string, Entry<T>> {
    if |fetches| == 0 then map[]
    else ServeFrom(LogAfter(fetches[..|fetches| - 1], freshTtl, staleTtl), fetches[|fetches| - 1], freshTtl,
                   staleTtl).log
  }

  /** Fetch i of the run, as it was served. */
  function ServedAt<T>(fetches: seq<Fetch<T>>, i: nat, freshTtl: int, staleTtl: int): Served<T>
    requires i < |fetches|
  {
    ServeFrom(LogAfter(fetches[..i], freshTtl, staleTtl), fetches[i], freshTtl, staleTtl)
  }

  predicate Stored<T>(fetches: seq<Fetch<T>>, i: nat, key: string, freshTtl: int, staleTtl: int)
    requires i < |fetches|
  {
    fetches[i].key == key && fetches[i].upstream.Some? && ServedAt(fetches, i, freshTtl, staleTtl).called
  }

  /** Calls follow one another on a clock that never goes back. */
  predicate Sequential<T>(fetches: seq<Fetch<T>>) {
    && (forall i :: 0 <= i < |fetches| ==> fetches[i].started <= fetches[i].settled)
    && (forall i, j :: 0 <= i < j < |fetches| ==> fetches[i].settled <= fetches[j].started)
  }

  /** The log holds, per key, the data of the last successful upstream call. */
  lemma {:induction false} LogHoldsLastStored<T>(fetches: seq<Fetch<T>>, key: string, freshTtl: int, staleTtl: int)
    returns (i: nat)
    requires key in LogAfter(fetches, freshTtl, staleTtl)
    ensures i < |fetches| && Stored(fetches, i, key, freshTtl, staleTtl)
    ensures LogAfter(fetches, freshTtl, staleTtl)[key] == Entry(fetches[i].upstream.value, fetches[i].settled)
    ensures forall j :: i < j < |fetches| ==> !Stored(fetches, j, key, freshTtl, staleTtl)
  {
    var n := |fetches| - 1;
    var init := fetches[..n];
    if Stored(fetches, n, key, freshTtl, staleTtl) {
      i := n;
    } else {
      i := LogHoldsLastStored(init, key, freshTtl, staleTtl);
      assert init[..i] == fetches[..i];
      forall j | i < j < |fetches| ensures !Stored(fetches, j, key, freshTtl, staleTtl) {
        if j < n {
          assert init[..j] == fetches[..j];
          assert !Stored(init, j, key, freshTtl, staleTtl);
        }
      }
    }
  }

  /**
   * Every successful answer is the data of the last successful upstream call for its key, this one
   * included, no older than the stale window; and an answer without an upstream call is fresh.
   */
  lemma AnswersAreLatestFetch<T>(fetches: seq<Fetch<T>>, n: nat, freshTtl: int, staleTtl: int) returns (i: nat)
    requires n < |fetches| && Sequential(fetches) && staleTtl >= 0
    requires ServedAt(fetches, n, freshTtl, staleTtl).result.Ok?
    ensures i <= n && Stored(fetches, i, fetches[n].key, freshTtl, staleTtl)
    ensures forall j :: i < j <= n ==> !Stored(fetches, j, fetches[n].key, freshTtl, staleTtl)
    ensures ServedAt(fetches, n, freshTtl, staleTtl).result.value == fetches[i].upstream.value
    ensures var served := ServedAt(fetches, n, freshTtl, staleTtl);
            if served.called then fetches[n].settled - fetches[i].settled <= staleTtl
            else fetches[n].started - fetches[i].settled <= freshTtl
                   && fetches[n].started - fetches[i].settled <= staleTtl
  {
    var upto := fetches[..n + 1];
    assert upto[..n] == fetches[..n];
    i := LogHoldsLastStored(upto, fetches[n].key, freshTtl, staleTtl);
    assert upto[..i] == fetches[..i];
    forall j | i < j <= n ensures !Stored(fetches, j, fetches[n].key, freshTtl, staleTtl) {
      assert upto[..j] == fetches[..j];
      assert !Stored(upto, j, fetches[n].key, freshTtl, staleTtl);
    }
  }

  /** While the latest fetch for a key is within the fresh window there is no upstream call. */
  lemma FreshEntryShieldsUpstream<T>(log: map<string, Entry<T>>, f: Fetch<T>, freshTtl: int, staleTtl: int)
    ensures !ServeFrom(log, f, freshTtl, staleTtl).called <==>
            f.key in log && f.started - log[f.key].fetchedAt <= freshTtl && f.started - log[f.key].fetchedAt <= staleTtl
    ensures ServeFrom(log, f, freshTtl, staleTtl).result.Err? <==>
            f.upstream.None?
              && (f.key !in log || f.started - log[f.key].fetchedAt > freshTtl
                  || f.started - log[f.key].fetchedAt > staleTtl)
            && (f.key !in log || f.settled - log[f.key].fetchedAt > staleTtl)
    ensures ServeFrom(log, f, freshTtl, staleTtl).result.Err? ==>
              ServeFrom(log, f, freshTtl, staleTtl).result.error == 12
  {
  }
}
