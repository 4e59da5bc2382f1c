/// The in-memory cache in front of the public FIPE API (`FipeService` in
/// `server/utils/fipe.js`): a JavaScript `Map` from a request key to the
/// response and the time it was stored, read back for 24 hours, and the four
/// cache-then-fetch lookups built on it.
///
/// The clock and the upstream API are parameters: `now` is `Date.now()` when
/// the cache is read, `later` when the response is stored, and `upstream`
/// answers each URL with a response body or a failure.
module FipeService {
  import opened Common

  const BaseUrl: string := "https://parallelum.com.br/fipe/api/v1"

  /** Entries are fresh for 24 hours, in milliseconds. */
  const CacheTimeout: int := 24 * 60 * 60 * 1000

  /** What `setCache` stores: the response body and `Date.now()`. */
  datatype Entry = Entry(data: Json, timestamp: int)

  /** getCached on a snapshot of the map: the stored body while it is
      strictly younger than the timeout, otherwise nothing (`null`). */
  function CachedData(entries: map<string, Entry>, key: string, now: int): Option<Json> {
    if key in entries && now - entries[key].timestamp < CacheTimeout then Some(entries[key].data) else None
  }

  /** The `if (cached) return cached;` test of the lookups: a hit needs a
      fresh entry whose body is truthy. */
  predicate IsHit(entries: map<string, Entry>, key: string, now: int) {
    var cached := CachedData(entries, key, now);
    cached.Some? && Truthy(cached.value)
  }

  /** What a cache-then-fetch lookup answers: the cached body on a hit,
      otherwise the upstream body, or `message` when the request fails. */
  function Served(entries: map<string, Entry>, key: string, now: int, answer: Fetch<Json>, message: string): (r: Result<Json>)
    ensures IsHit(entries, key, now) ==> r == Ok(entries[key].data)
    ensures !IsHit(entries, key, now) && answer.FetchFailed? ==> r == Err(message)
    ensures !IsHit(entries, key, now) && answer.Fetched? ==> r == Ok(answer.data)
  {
    if IsHit(entries, key, now) then Ok(CachedData(entries, key, now).value)
    else match answer
      case FetchFailed(_) => Err(message)
      case Fetched(d) => Ok(d)
  }

  /** The map after such a lookup: only a miss answered by upstream stores. */
  function CacheAfter(entries: map<string, Entry>, key: string, now: int, answer: Fetch<Json>, later: int): map<string, Entry> {
    if !IsHit(entries, key, now) && answer.Fetched? then entries[key := Entry(answer.data, later)] else entries
  }

  /** The key order of the `Map` after `set(key, ...)`: a new key goes last,
      an existing key keeps its place. */
  function KeysAfterSet(keys: seq<string>, key: string): seq<string> {
    if key in keys then keys else keys + [key]
  }

  predicate Distinct(keys: seq<string>) {
    forall i, j :: 0 <= i < j < |keys| ==> keys[i] != keys[j]
  }

  // The cache keys and upstream URLs of the four lookups

  function BrandsKey(year: string): string { "car_brands_" + year }
  function ModelsKey(brandId: string, year: string): string { "car_models_" + brandId + "_" + year }
  function YearsKey(brandId: string, modelId: string): string { "car_years_" + brandId + "_" + modelId }
  function ValueKey(brandId: string, modelId: string, yearId: string): string {
    "car_value_" + brandId + "_" + modelId + "_" + yearId
  }

  function BrandsUrl(): string { BaseUrl + "/carros/marcas" }
  function ModelsUrl(brandId: string): string { BaseUrl + "/carros/marcas/" + brandId + "/modelos" }
  function YearsUrl(brandId: string, modelId: string): string { ModelsUrl(brandId) + "/" + modelId + "/anos" }
  function ValueUrl(brandId: string, modelId: string, yearId: string): string { YearsUrl(brandId, modelId) + "/" + yearId }

  class FipeApiCache {
    /** The `Map`'s entries. */
    var entries: map<string, Entry>
    /** The `Map`'s keys in insertion order, as `cache.keys()` lists them. */
    var keys: seq<string>

    ghost predicate Valid()
      reads this
    {
      Distinct(keys) && forall k :: k in entries <==> k in keys
    }

    constructor ()
      ensures Valid()
      ensures entries == map[] && keys == []
    {
      entries := map[];
      keys := [];
    }

    method GetCached(key: string, now: int) returns (cached: Option<Json>)
      ensures cached == CachedData(entries, key, now)
    {
      if key in entries && now - entries[key].timestamp < CacheTimeout {
        cached := Some(entries[key].data);
      } else {
        cached := None;
      }
    }

    method SetCache(key: string, data: Json, now: int)
      requires Valid()
      modifies this
      ensures Valid()
      ensures entries == old(entries)[key := Entry(data, now)]
      ensures keys == KeysAfterSet(old(keys), key)
    {
      if key !in entries {
        keys := keys + [key];
      }
      entries := entries[key := Entry(data, now)];
    }

    method ClearCache()
      modifies this
      ensures Valid()
      ensures entries == map[] && keys == []
    {
      entries := map[];
      keys := [];
    }

    /** getCacheStats without its ISO timestamp: the map's size and its keys. */
    method GetCacheStats() returns (size: nat, listed: seq<string>)
      requires Valid()
      ensures listed == keys
      ensures size == |entries|
      ensures size == |listed|
    {
      size := |entries|;
      listed := keys;
      DistinctKeysCount(entries, keys);
    }

    /** The body shared by the four lookups: on a hit answer the cached body
        without calling upstream; otherwise fetch `url`, store the body under
        `key` and answer it, or fail with `message` and store nothing. */
    method CacheThenFetch(key: string, url: string, message: string, upstream: string -> Fetch<Json>, now: int, later: int)
      returns (r: Result<Json>)
      requires Valid()
      modifies this
      ensures Valid()
      ensures r == Served(old(entries), key, now, upstream(url), message)
      ensures entries == CacheAfter(old(entries), key, now, upstream(url), later)
    {
      var cached := GetCached(key, now);
      if cached.Some? && Truthy(cached.value) {
        return Ok(cached.value);
      }
      match upstream(url) {
        case FetchFailed(_) =>
          r := Err(message);
        case Fetched(data) =>
          SetCache(key, data, later);
          r := Ok(data);
      }
    }

    method GetCarBrandsByYear(year: string, upstream: string -> Fetch<Json>, now: int, later: int) returns (r: Result<Json>)
      requires Valid()
      modifies this
      ensures Valid()
      ensures r == Served(old(entries), BrandsKey(year), now, upstream(BrandsUrl()), "Erro ao buscar marcas de carros")
      ensures entries == CacheAfter(old(entries), BrandsKey(year), now, upstream(BrandsUrl()), later)
    {
      r := CacheThenFetch(BrandsKey(year), BrandsUrl(), "Erro ao buscar marcas de carros", upstream, now, later);
    }

    method GetCarModelsByYear(brandId: string, year: string, upstream: string -> Fetch<Json>, now: int, later: int) returns (r: Result<Json>)
      requires Valid()
      modifies this
      ensures Valid()
      ensures r == Served(old(entries), ModelsKey(brandId, year), now, upstream(ModelsUrl(brandId)), "Erro ao buscar modelos de carros")
      ensures entries == CacheAfter(old(entries), ModelsKey(brandId, year), now, upstream(ModelsUrl(brandId)), later)
    {
      r := CacheThenFetch(ModelsKey(brandId, year), ModelsUrl(brandId), "Erro ao buscar modelos de carros", upstream, now, later);
    }

    method GetCarYears(brandId: string, modelId: string, upstream: string -> Fetch<Json>, now: int, later: int) returns (r: Result<Json>)
      requires Valid()
      modifies this
      ensures Valid()
      ensures r == Served(old(entries), YearsKey(brandId, modelId), now, upstream(YearsUrl(brandId, modelId)), "Erro ao buscar anos do modelo")
      ensures entries == CacheAfter(old(entries), YearsKey(brandId, modelId), now, upstream(YearsUrl(brandId, modelId)), later)
    {
      r := CacheThenFetch(YearsKey(brandId, modelId), YearsUrl(brandId, modelId), "Erro ao buscar anos do modelo", upstream, now, later);
    }

    method GetCarValue(brandId: string, modelId: string, yearId: string, upstream: string -> Fetch<Json>, now: int, later: int) returns (r: Result<Json>)
      requires Valid()
      modifies this
      ensures Valid()
      ensures r == Served(old(entries), ValueKey(brandId, modelId, yearId), now, upstream(ValueUrl(brandId, modelId, yearId)), "Erro ao buscar valor FIPE do veículo")
      ensures entries == CacheAfter(old(entries), ValueKey(brandId, modelId, yearId), now, upstream(ValueUrl(brandId, modelId, yearId)), later)
    {
      r := CacheThenFetch(ValueKey(brandId, modelId, yearId), ValueUrl(brandId, modelId, yearId), "Erro ao buscar valor FIPE do veículo", upstream, now, later);
    }
  }

  // ---------------------------------------------------------------------------
  // What the cache promises

  /** A distinct key list holding exactly the map's keys has the map's size. */
  lemma {:induction false} DistinctKeysCount(entries: map<string, Entry>, keys: seq<string>)
    requires Distinct(keys)
    requires forall k :: k in entries <==> k in keys
    ensures |entries| == |keys|
    decreases |keys|
  {
    if keys == [] {
      assert entries.Keys == {};
    } else {
      var rest := map k | k in entries && k != keys[0] :: entries[k];
      forall k
        ensures k in rest <==> k in keys[1..]
      {
        if k in keys[1..] {
          var i :| 0 <= i < |keys[1..]| && keys[1..][i] == k;
          assert keys[i + 1] == k;
        }
        if k in keys && k != keys[0] {
          var i :| 0 <= i < |keys| && keys[i] == k;
          assert keys[1..][i - 1] == k;
        }
      }
      DistinctKeysCount(rest, keys[1..]);
      assert entries.Keys == rest.Keys + {keys[0]};
    }
  }

  /** Stored at `stamp`, a body is read back at every time in [stamp, stamp + 24h). */
  lemma StoredIsFreshForADay(entries: map<string, Entry>, key: string, data: Json, stamp: int, now: int)
    requires stamp <= now < stamp + CacheTimeout
    ensures CachedData(entries[key := Entry(data, stamp)], key, now) == Some(data)
  {
  }

  /** From exactly 24 hours on, the entry reads as missing. */
  lemma StoredExpiresAfterADay(entries: map<string, Entry>, key: string, data: Json, stamp: int, now: int)
    requires now >= stamp + CacheTimeout
    ensures CachedData(entries[key := Entry(data, stamp)], key, now) == None
  {
  }

  /** Storing under one key leaves what every other key reads. */
  lemma StoreLeavesOtherKeys(entries: map<string, Entry>, key: string, data: Json, stamp: int, other: string, now: int)
    requires other != key
    ensures CachedData(entries[key := Entry(data, stamp)], other, now) == CachedData(entries, other, now)
  {
  }

  /** After clearCache every read misses. */
  lemma ClearedCacheMisses(key: string, now: int)
    ensures CachedData(map[], key, now) == None
  {
  }

  /** A hit answers the cached body whatever upstream would say, and stores nothing. */
  lemma HitIgnoresUpstream(entries: map<string, Entry>, key: string, now: int, a1: Fetch<Json>, a2: Fetch<Json>, message: string, later: int)
    requires IsHit(entries, key, now)
    ensures Served(entries, key, now, a1, message) == Served(entries, key, now, a2, message)
    ensures CacheAfter(entries, key, now, a1, later) == entries
  {
  }

  /** A fresh but falsy body is fetched again and overwritten by the answer. */
  lemma FalsyCachedBodyIsRefetched(entries: map<string, Entry>, key: string, now: int, d: Json, message: string, later: int)
    requires CachedData(entries, key, now).Some? && !Truthy(CachedData(entries, key, now).value)
    ensures Served(entries, key, now, Fetched(d), message) == Ok(d)
    ensures CacheAfter(entries, key, now, Fetched(d), later)[key] == Entry(d, later)
  {
  }

  /** A failed fetch throws the fixed message and leaves the cache as it was. */
  lemma FailedFetchKeepsCache(entries: map<string, Entry>, key: string, now: int, msg: string, message: string, later: int)
    requires !IsHit(entries, key, now)
    ensures Served(entries, key, now, FetchFailed(msg), message) == Err(message)
    ensures CacheAfter(entries, key, now, FetchFailed(msg), later) == entries
  {
  }

  /** A miss answered by upstream is a hit for the rest of the day, if its body is truthy. */
  lemma MissIsServedFromCacheNextTime(entries: map<string, Entry>, key: string, now: int, d: Json, message: string, later: int, next: int)
    requires !IsHit(entries, key, now)
    requires Truthy(d) && later <= next < later + CacheTimeout
    ensures var after := CacheAfter(entries, key, now, Fetched(d), later);
      && IsHit(after, key, next)
      && Served(after, key, next, FetchFailed("offline"), message) == Ok(d)
  {
  }
}
