/** The geocoder's bounded cache of found and not-found answers. */
module Geocoder {
  import opened Common

  datatype Coordinates = Coordinates(latitude: real, longitude: real)

  /** One cached answer; absent coordinates mean that the location was not found. */
  datatype Entry = Entry(location: string, coordinates: Option<Coordinates>)

  datatype Answer = Found(coordinates: Coordinates) | NoLocationFound | OtherError(errCode: int)

  const MAX_LOCATION_LENGTH := 200

  // ------------------------------------------------------------------ an insertion-ordered map

  function Find(cache: seq<Entry>, location: string): Option<Option<Coordinates>> {
    if cache == [] then None
    else if cache[0].location == location then Some(cache[0].coordinates)
    else Find(cache[1..], location)
  }

  /** Map.set: an existing key keeps its place, a new one goes last. */
  function Put(cache: seq<Entry>, entry: Entry): seq<Entry> {
    if cache == [] then [entry]
    else if cache[0].location == entry.location then [entry] + cache[1..]
    else [cache[0]] + Put(cache[1..], entry)
  }

  function FromArray(entries: seq<Entry>): seq<Entry> {
    if entries == [] then [] else Put(FromArray(entries[..|entries| - 1]), entries[|entries| - 1])
  }

  predicate DistinctLocations(cache: seq<Entry>) {
    forall i, j :: 0 <= i < j < |cache| ==> cache[i].location != cache[j].location
  }

  lemma {:induction false} FindIsMembership(cache: seq<Entry>, location: string)
    requires DistinctLocations(cache)
    ensures Find(cache, location).None? <==> forall e <- cache :: e.location != location
    ensures Find(cache, location).Some? ==> Entry(location, Find(cache, location).value) in cache
    ensures forall e <- cache :: e.location == location ==> Find(cache, location) == Some(e.coordinates)
  {
    if cache != [] {
      FindIsMembership(cache[1..], location);
    }
  }

  lemma {:induction false} PutNewGoesLast(cache: seq<Entry>, entry: Entry)
    requires forall e <- cache :: e.location != entry.location
    ensures Put(cache, entry) == cache + [entry]
  {
    if cache != [] {
      PutNewGoesLast(cache[1..], entry);
    }
  }

  /** A later look finds the entry that was set, and every other one as it was. */
  lemma {:induction false} PutIsFound(cache: seq<Entry>, entry: Entry, location: string)
    ensures Find(Put(cache, entry), location) ==
            if location == entry.location then Some(entry.coordinates) else Find(cache, location)
  {
    if cache != [] && cache[0].location != entry.location {
      PutIsFound(cache[1..], entry, location);
    }
  }

  /** A key that is there already keeps its place, so the size stays. */
  lemma {:induction false} PutKnownStays(cache: seq<Entry>, entry: Entry)
    requires Find(cache, entry.location).Some?
    ensures |Put(cache, entry)| == |cache|
  {
    if cache != [] && cache[0].location != entry.location {
      PutKnownStays(cache[1..], entry);
    }
  }

  lemma {:induction false} PutKeepsDistinct(cache: seq<Entry>, entry: Entry)
    requires DistinctLocations(cache)
    ensures DistinctLocations(Put(cache, entry))
    ensures forall e <- Put(cache, entry) :: e == entry || e in cache
  {
    if cache != [] && cache[0].location != entry.location {
      PutKeepsDistinct(cache[1..], entry);
      var rest := Put(cache[1..], entry);
      forall j | 0 <= j < |rest| ensures rest[j].location != cache[0].location {
        assert rest[j] in rest;
      }
    }
  }

  lemma {:induction false} FromArrayIsDistinct(entries: seq<Entry>)
    ensures DistinctLocations(FromArray(entries))
    ensures forall e <- FromArray(entries) :: e in entries
  {
    if entries != [] {
      var init := entries[..|entries| - 1];
      FromArrayIsDistinct(init);
      PutKeepsDistinct(FromArray(init), entries[|entries| - 1]);
    }
  }

  /** What saveCache writes, a restart restores: same entries in the same order. */
  lemma {:induction false} SavedCacheIsRestored(cache: seq<Entry>)
    requires DistinctLocations(cache)
    ensures FromArray(cache) == cache
  {
    if cache != [] {
      var n := |cache| - 1;
      SavedCacheIsRestored(cache[..n]);
      PutNewGoesLast(cache[..n], cache[n]);
    }
  }

  // ------------------------------------------------------------------ the lookup

  function ToAnswer(coordinates: Option<Coordinates>): Answer {
    match coordinates
    case Some(c) => Found(c)
    case None => NoLocationFound
  }

  predicate Cacheable(location: string) {
    |location| <= MAX_LOCATION_LENGTH
  }

  /** What a lookup inserts into the cache: definite answers for locations of bounded length. */
  function Inserted(location: string, upstream: Answer): seq<Entry> {
    if !Cacheable(location) then []
    else match upstream
         case Found(c) => [Entry(location, Some(c))]
         case NoLocationFound => [Entry(location, None)]
         case OtherError(_) => []
  }

  /** One lookup of an already normalised location. */
  datatype Query = Query(location: string, upstream: Answer)

  function Hit(cache: seq<Entry>, location: string): Option<Option<Coordinates>> {
    if Cacheable(location) then Find(cache, location) else None
  }

  function Serve(cache: seq<Entry>, q: Query, limit: nat): (Answer, seq<Entry>) {
    var hit := Hit(cache, q.location);
    if hit.Some? then (ToAnswer(hit.value), cache)
    else (q.upstream, LastN(cache + Inserted(q.location, q.upstream), limit))
  }

  lemma LastNAppend<T>(s: seq<T>, t: seq<T>, n: nat)
    requires |t| <= 1
    ensures LastN(LastN(s, n) + t, n) == LastN(s + t, n)
  {
    if |t| == 0 {
      assert s + t == s && LastN(s, n) + t == LastN(s, n);
    }
  }

  lemma LastNDistinct(s: seq<Entry>, n: nat)
    requires DistinctLocations(s)
    ensures DistinctLocations(LastN(s, n))
  {
  }

  /** setCacheEntry on a location that is not too long. */
  function Stored(cache: seq<Entry>, entry: Entry, limit: nat): seq<Entry> {
    LastN(Put(cache, entry), limit)
  }

  lemma StoredEntry(cache: seq<Entry>, entry: Entry, limit: nat)
    requires DistinctLocations(cache) && |cache| <= limit
    ensures DistinctLocations(Stored(cache, entry, limit))
    ensures Find(cache, entry.location).None? ==> Put(cache, entry) == cache + [entry]
    ensures Find(cache, entry.location).Some? ==> |Put(cache, entry)| == |cache|
  {
    PutKeepsDistinct(cache, entry);
    LastNDistinct(Put(cache, entry), limit);
    if Find(cache, entry.location).None? {
      FindIsMembership(cache, entry.location);
      PutNewGoesLast(cache, entry);
    } else {
      PutKnownStays(cache, entry);
    }
  }

  lemma MissStores(cache: seq<Entry>, q: Query, limit: nat)
    requires DistinctLocations(cache) && |cache| <= limit && Hit(cache, q.location).None?
    ensures var inserted := Inserted(q.location, q.upstream);
            Serve(cache, q, limit).1 == if inserted == [] then cache else Stored(cache, inserted[0], limit)
  {
    var inserted := Inserted(q.location, q.upstream);
    if inserted == [] {
      assert cache + inserted == cache;
    } else {
      assert inserted == [inserted[0]];
      StoredEntry(cache, inserted[0], limit);
    }
  }

  class CachingGeocoder {
    const limit: nat
    const normalize: string -> string
    var cache: seq<Entry>
    /** Everything ever inserted, starting with what was loaded. */
    ghost var insertions: seq<Entry>

    /** file holds the saved entries, or nothing when it is missing or malformed. */
    constructor(limit: nat, normalize: string -> string, file: seq<Entry>)
      ensures this.limit == limit && this.normalize == normalize
      ensures Valid() && insertions == FromArray(file)
    {
      this.limit, this.normalize := limit, normalize;
      cache := FromArray(file);
      insertions := FromArray(file);
      new;
      FromArrayIsDistinct(file);
      EnforceCacheSizeLimit();
    }

    ghost predicate Valid()
      reads this
    {
      cache == LastN(insertions, limit) && DistinctLocations(cache)
    }

    method EnforceCacheSizeLimit()
      modifies this`cache
      ensures cache == LastN(old(cache), limit)
    {
      while |cache| > limit
        invariant |cache| <= |old(cache)| && cache == old(cache)[|old(cache)| - |cache|..]
        invariant |cache| >= limit || cache == old(cache)
      {
        cache := cache[1..];
      }
    }

    /** A location that is in the cache already, as overlapping lookups make it, is updated in place. */
    method SetCacheEntry(location: string, coordinates: Option<Coordinates>)
      requires Valid()
      modifies this
      ensures Valid()
      ensures cache ==
              if Cacheable(location) then Stored(old(cache), Entry(location, coordinates), limit) else old(cache)
      ensures insertions == if !Cacheable(location) then old(insertions)
                            else if Find(old(cache), location).None?
                            then old(insertions) + [Entry(location, coordinates)]
                            else old(insertions)[..|old(insertions)| - |old(cache)|] + cache
    {
      if |location| > MAX_LOCATION_LENGTH {
        return;
      }
      var entry := Entry(location, coordinates);
      StoredEntry(cache, entry, limit);
      if Find(cache, location).None? {
        LastNAppend(insertions, [entry], limit);
        insertions := insertions + [entry];
      } else {
        insertions := insertions[..|insertions| - |cache|] + Put(cache, entry);
      }
      cache := Put(cache, entry);
      EnforceCacheSizeLimit();
    }

    /** upstream is what geocoding the normalised location would answer now. */
    method GetLocation(location: string, upstream: Answer) returns (answer: Answer, called: bool)
      requires Valid()
      modifies this
      ensures Valid()
      ensures var key := normalize(location);
              && (answer, cache) == Serve(old(cache), Query(key, upstream), limit)
              && (called <==> Hit(old(cache), key).None?)
              && insertions == old(insertions) + (if called then Inserted(key, upstream) else [])
    {
      var normalizedLocation := normalize(location);
      if |normalizedLocation| <= MAX_LOCATION_LENGTH {
        var hit := Find(cache, normalizedLocation);
        if hit.Some? {
          if hit.value.None? {
            return NoLocationFound, false;
          }
          return Found(hit.value.value), false;
        }
      }
      MissStores(cache, Query(normalizedLocation, upstream), limit);
      assert insertions + [] == insertions;
      match upstream {
        case Found(c) => SetCacheEntry(normalizedLocation, Some(c));
        case NoLocationFound => SetCacheEntry(normalizedLocation, None);
        case OtherError(_) =>
      }
      return upstream, true;
    }
  }

  // ------------------------------------------------------------------ runs

  function CacheAfter(cache: seq<Entry>, queries: seq<Query>, limit: nat): seq<Entry> {
    if queries == [] then cache
    else Serve(CacheAfter(cache, queries[..|queries| - 1], limit), queries[|queries| - 1], limit).1
  }

  /** The service answers definitely according to a fixed map, or with some other error. */
  ghost predicate Consistent(queries: seq<Query>, world: string -> Answer) {
    forall q <- queries :: q.upstream.OtherError? || q.upstream == world(q.location)
  }

  ghost predicate Agrees(cache: seq<Entry>, world: string -> Answer) {
    forall e <- cache :: ToAnswer(e.coordinates) == world(e.location)
  }

  lemma {:induction false} CacheStaysTruthful(cache: seq<Entry>, queries: seq<Query>, limit: nat,
                                              world: string -> Answer)
    requires DistinctLocations(cache) && Agrees(cache, world) && Consistent(queries, world) && |cache| <= limit
    ensures var after := CacheAfter(cache, queries, limit);
            DistinctLocations(after) && Agrees(after, world) && |after| <= limit
  {
    if queries != [] {
      var n := |queries| - 1;
      CacheStaysTruthful(cache, queries[..n], limit, world);
      assert queries[n] in queries;
      ServeStaysTruthful(CacheAfter(cache, queries[..n], limit), queries[n], limit, world);
    }
  }

  lemma ServeStaysTruthful(before: seq<Entry>, q: Query, limit: nat, world: string -> Answer)
    requires DistinctLocations(before) && Agrees(before, world) && |before| <= limit
    requires q.upstream.OtherError? || q.upstream == world(q.location)
    ensures var after := Serve(before, q, limit).1;
            DistinctLocations(after) && Agrees(after, world) && |after| <= limit
  {
    FindIsMembership(before, q.location);
    var grown := before + Inserted(q.location, q.upstream);
    assert Agrees(grown, world);
    assert Hit(before, q.location).None? ==> DistinctLocations(grown);
  }

  /**
   * Caching cannot be told from geocoding every time: each answer is the world's answer for the
   * location, or an error that this very lookup got from upstream.
   */
  lemma CachingIsInvisible(cache: seq<Entry>, queries: seq<Query>, n: nat, limit: nat, world: string -> Answer)
    requires DistinctLocations(cache) && Agrees(cache, world) && Consistent(queries, world) && |cache| <= limit
    requires n < |queries|
    ensures var answer := Serve(CacheAfter(cache, queries[..n], limit), queries[n], limit).0;
            answer == world(queries[n].location) || (answer.OtherError? && answer == queries[n].upstream)
  {
    CacheStaysTruthful(cache, queries[..n], limit, world);
    var before, q := CacheAfter(cache, queries[..n], limit), queries[n];
    FindIsMembership(before, q.location);
    if Find(before, q.location).Some? {
      assert Entry(q.location, Find(before, q.location).value) in before;
    }
    assert q in queries;
  }

  /** All insertions of a run, oldest first. */
  function InsertionsOf(cache: seq<Entry>, queries: seq<Query>, limit: nat): seq<Entry> {
    if queries == [] then []
    else
      var n := |queries| - 1;
      var before := CacheAfter(cache, queries[..n], limit);
      InsertionsOf(cache, queries[..n], limit) +
      (if Hit(before, queries[n].location).Some? then [] else Inserted(queries[n].location, queries[n].upstream))
  }

  /** The cache never exceeds its limit and holds exactly the last insertions, negative ones included, in order. */
  lemma {:induction false} CacheIsLastInsertions(cache: seq<Entry>, queries: seq<Query>, limit: nat)
    requires |cache| <= limit
    ensures CacheAfter(cache, queries, limit) == LastN(cache + InsertionsOf(cache, queries, limit), limit)
  {
    if queries == [] {
      assert cache + [] == cache;
    } else {
      var n := |queries| - 1;
      CacheIsLastInsertions(cache, queries[..n], limit);
      var before, q := CacheAfter(cache, queries[..n], limit), queries[n];
      var done, new_ := InsertionsOf(cache, queries[..n], limit), Inserted(q.location, q.upstream);
      if Hit(before, q.location).None? {
        LastNAppend(cache + done, new_, limit);
        assert cache + (done + new_) == cache + done + new_;
      } else {
        assert done + [] == done;
      }
    }
  }

  /**
   * What a lookup leaves behind: a definite answer for a location of at most 200 characters, found
   * or not, is given to the next lookup without a call; nothing else changes the cache.
   */
  lemma LookupIsRemembered(cache: seq<Entry>, q: Query, again: Answer, limit: nat)
    requires DistinctLocations(cache) && |cache| <= limit && limit > 0
    ensures var (answer, after) := Serve(cache, q, limit);
            if |q.location| <= 200 && !answer.OtherError?
            then Serve(after, Query(q.location, again), limit) == (answer, after) && Hit(after, q.location).Some?
            else after == cache && Hit(cache, q.location).None? && answer == q.upstream
  {
    FindIsMembership(cache, q.location);
    var inserted := Inserted(q.location, q.upstream);
    if Hit(cache, q.location).None? {
      MissStores(cache, q, limit);
      if inserted != [] {
        var after := Stored(cache, inserted[0], limit);
        StoredEntry(cache, inserted[0], limit);
        assert inserted[0] == after[|after| - 1];
        FindIsMembership(after, q.location);
      }
    }
  }

  // ------------------------------------------------------------------ overlapping lookups

  /** A lookup awaits between its look into the cache and its insertion, so other lookups' actions come in between. */
  datatype Action = Look(location: string) | Insert(query: Query)

  function CacheAfterActions(cache: seq<Entry>, actions: seq<Action>, limit: nat): seq<Entry> {
    if actions == [] then cache
    else
      var before := CacheAfterActions(cache, actions[..|actions| - 1], limit);
      match actions[|actions| - 1]
      case Look(_) => before
      case Insert(q) =>
        var inserted := Inserted(q.location, q.upstream);
        if inserted == [] then before else Stored(before, inserted[0], limit)
  }

  ghost predicate ConsistentInserts(actions: seq<Action>, world: string -> Answer) {
    forall a <- actions :: a.Insert? ==> a.query.upstream.OtherError? || a.query.upstream == world(a.query.location)
  }

  lemma {:induction false} OverlapStaysTruthful(cache: seq<Entry>, actions: seq<Action>, limit: nat,
                                                world: string -> Answer)
    requires DistinctLocations(cache) && Agrees(cache, world) && ConsistentInserts(actions, world) && |cache| <= limit
    ensures var after := CacheAfterActions(cache, actions, limit);
            DistinctLocations(after) && Agrees(after, world) && |after| <= limit
  {
    if actions != [] {
      var n := |actions| - 1;
      OverlapStaysTruthful(cache, actions[..n], limit, world);
      assert actions[n] in actions;
      if actions[n].Insert? && Inserted(actions[n].query.location, actions[n].query.upstream) != [] {
        var before := CacheAfterActions(cache, actions[..n], limit);
        var entry := Inserted(actions[n].query.location, actions[n].query.upstream)[0];
        StoredEntry(before, entry, limit);
        PutKeepsDistinct(before, entry);
        assert forall e <- Stored(before, entry, limit) :: e in Put(before, entry);
      }
    }
  }

  /**
   * However lookups overlap, whatever a look finds in the cache is the world's answer, and the cache
   * keeps its limit.
   */
  lemma OverlapIsInvisible(cache: seq<Entry>, actions: seq<Action>, limit: nat, world: string -> Answer,
                           location: string)
    requires DistinctLocations(cache) && Agrees(cache, world) && ConsistentInserts(actions, world) && |cache| <= limit
    ensures var after := CacheAfterActions(cache, actions, limit);
            |after| <= limit && (Hit(after, location).Some? ==> ToAnswer(Hit(after, location).value) == world(location))
  {
    OverlapStaysTruthful(cache, actions, limit, world);
    FindIsMembership(CacheAfterActions(cache, actions, limit), location);
  }
}
