/**
 * The current cache manager: the request gate, the response gate, the
 * freshness check, and the read and write paths over the key-value store.
 * The store is a map field; a flag says whether it can be reached, and
 * when it cannot, every access throws CacheNotAvailableException. The
 * clock is the parameter `now`, in milliseconds since the epoch.
 */
module CacheManagement {
  import opened Wrappers
  import opened Exceptions
  import opened JavaLang
  import opened Messages
  import opened CacheControl
  import opened Serialization

  /**
   * The request gate of this copy: a request without a headers map passes;
   * otherwise only the value under the exact key "cache-control" is read.
   */
  predicate RequestAllowsCache(r: Request) {
    r.headers.None? ||
    match Get(r.headers.value, "cache-control")
    case None => true
    case Some(v) => !ValueForbids(v)
  }

  /** The response gate: a response without a headers map may be stored. */
  predicate ResponseAllowsStore(resp: Response) {
    resp.headers.None? || !HeadersForbid(resp.headers.value)
  }

  /** The gate fails exactly when the value under the key "cache-control" carries a bypass directive. */
  lemma RequestGate(r: Request)
    requires r.headers.Some?
    ensures !RequestAllowsCache(r) <==>
      exists v :: ("cache-control", v) in r.headers.value && ValueForbids(v)
  {
    var hs := r.headers.value;
    if v :| ("cache-control", v) in hs && ValueForbids(v) {
      GetUnique(hs, "cache-control", v);
    }
  }

  /** What getCached answers: the cached response, null (None), or an exception. */
  function Lookup(store: map<string, string>, available: bool, c: Codec, request: Request, now: int)
    : (r: Result<Option<Response>, Exception>)
    requires request.headers.Some?
    ensures !RequestAllowsCache(request) ==> r == Ok(None)
    ensures RequestAllowsCache(request) && !available ==> r == Err(CacheNotAvailable)
    ensures RequestAllowsCache(request) && available && HashRequest(c, request) !in store ==> r == Ok(None)
    ensures r.Err? ==> (r.error == CacheNotAvailable ||
      (HashRequest(c, request) in store && Validity(request.headers, DeserializeCacheItem(c, store[HashRequest(c, request)]), now).Err?))
  {
    if !RequestAllowsCache(request) then Ok(None)
    else if !available then Err(CacheNotAvailable)
    else
      var key := HashRequest(c, request);
      if key !in store then Ok(None)
      else
        var item := DeserializeCacheItem(c, store[key]);
        match Validity(request.headers, item, now)
        case Err(e) => Err(e)
        case Ok(valid) => if valid then Ok(Some(item.response)) else Ok(None)
  }

  /**
   * A response comes back exactly when the gate passes, the store is
   * reachable, an entry exists under the request's key, and the item read
   * from it is valid; the response is that item's.
   */
  lemma LookupHit(store: map<string, string>, available: bool, c: Codec, request: Request, now: int, resp: Response)
    requires request.headers.Some?
    ensures Lookup(store, available, c, request, now) == Ok(Some(resp)) <==>
      RequestAllowsCache(request) && available && HashRequest(c, request) in store &&
      Validity(request.headers, DeserializeCacheItem(c, store[HashRequest(c, request)]), now) == Ok(true) &&
      DeserializeCacheItem(c, store[HashRequest(c, request)]).response == resp
  {
  }

  /** The store after a write of `response` for `request` at time `now`. */
  function Stored(store: map<string, string>, c: Codec, request: Request, response: Response, now: int): map<string, string>
    requires request.headers.Some?
  {
    store[HashRequest(c, request) := SerializeCacheItem(c, CacheItem(response, Some(Stamp(now))))]
  }

  /** A write adds the request's key and leaves every other key as it was. */
  lemma StoredChangesOneKey(store: map<string, string>, c: Codec, request: Request, response: Response, now: int, k: string)
    requires request.headers.Some?
    ensures HashRequest(c, request) in Stored(store, c, request, response, now)
    ensures k != HashRequest(c, request) ==>
      (k in Stored(store, c, request, response, now) <==> k in store) &&
      (k in store ==> Stored(store, c, request, response, now)[k] == store[k])
  {
  }

  /**
   * The round trip: once a response is stored for a request, reading the
   * same request while its max-age directives still admit the item's age
   * returns that response.
   */
  lemma StoreThenLookup(store: map<string, string>, c: Codec, request: Request, response: Response, now: int, later: int)
    requires ItemsRoundTrip(c)
    requires request.headers.Some? && RequestAllowsCache(request)
    requires Freshness(ControlDirectives(request.headers.value), AgeInSeconds(later, Stamp(now))) == Ok(true)
    ensures Lookup(Stored(store, c, request, response, now), true, c, request, later) == Ok(Some(response))
  {
    ItemRoundTrip(c, CacheItem(response, Some(Stamp(now))));
  }

  /** An entry whose age reaches one of the request's max-age values is not served. */
  lemma ExpiredEntryMisses(store: map<string, string>, c: Codec, request: Request, response: Response, now: int, later: int, p: string)
    requires ItemsRoundTrip(c)
    requires request.headers.Some? && RequestAllowsCache(request)
    requires p in ControlDirectives(request.headers.value) && Expires(p, AgeInSeconds(later, Stamp(now)))
    ensures Lookup(Stored(store, c, request, response, now), true, c, request, later).Ok? ==>
      Lookup(Stored(store, c, request, response, now), true, c, request, later) == Ok(None)
  {
    ItemRoundTrip(c, CacheItem(response, Some(Stamp(now))));
    ExpiredIsInvalid(request.headers.value, CacheItem(response, Some(Stamp(now))), later, p);
  }

  class CacheManager {
    /** The key-value store behind ICache. */
    var store: map<string, string>
    /** False when the cache server cannot be reached. */
    var available: bool
    var serializer: Codec

    constructor (serializer: Codec, available: bool)
      ensures this.store == map[] && this.available == available && this.serializer == serializer
    {
      this.store := map[];
      this.available := available;
      this.serializer := serializer;
    }

    /** canGetFromCache. */
    method CanGetFromCache(request: Request) returns (pass: bool)
      ensures pass == RequestAllowsCache(request)
    {
      if request.headers.Some? {
        var value := Get(request.headers.value, "cache-control");
        if value.Some? {
          var forbids := ScanValue(value.value);
          if forbids {
            return false;
          }
        }
      }
      return true;
    }

    /** canCache. */
    method CanCache(response: Response) returns (pass: bool)
      ensures pass == ResponseAllowsStore(response)
    {
      if response.headers.Some? {
        var forbids := ScanHeaders(response.headers.value);
        if forbids {
          return false;
        }
      }
      return true;
    }

    /**
     * cacheItemIsValid: false for an unreadable creation date, true without
     * a headers map, otherwise the max-age verdict of the request's
     * cache-control headers (an exception for a malformed max-age).
     */
    method CacheItemIsValid(request: Request, item: CacheItem, now: int) returns (r: Result<bool, Exception>)
      ensures r == Validity(request.headers, item, now)
    {
      if item.created.None? {
        return Ok(false);
      }
      var ageInSeconds := AgeInSeconds(now, item.created.value);
      if request.headers.None? {
        return Ok(true);
      }
      r := CheckMaxAge(request.headers.value, ageInSeconds);
    }

    /**
     * getCached. It reads the store and never writes it; a request that
     * fails the gate is answered without touching the store.
     */
    method GetCached(request: Request, now: int) returns (r: Result<Option<Response>, Exception>)
      requires request.headers.Some?
      ensures !RequestAllowsCache(request) ==> r == Ok(None)
      ensures r == Lookup(store, available, serializer, request, now)
    {
      var pass := CanGetFromCache(request);
      if !pass {
        return Ok(None);
      }
      var hash := HashRequest(serializer, request);
      if !available {
        return Err(CacheNotAvailable);
      }
      if hash !in store {
        return Ok(None);
      }
      var item := DeserializeCacheItem(serializer, store[hash]);
      var response := item.response;
      var valid := CacheItemIsValid(request, item, now);
      if valid.Err? {
        return Err(valid.error);
      }
      if valid.value {
        return Ok(Some(response));
      }
      return Ok(None);
    }

    /**
     * store: a response that passes the gate is written, stamped with the
     * current time, under the request's key, replacing any earlier entry;
     * otherwise nothing is written.
     */
    method Store(request: Request, response: Response, now: int) returns (r: Result<(), Exception>)
      requires request.headers.Some?
      modifies this`store
      ensures if !ResponseAllowsStore(response) then r == Ok(()) && store == old(store)
        else if !available then r == Err(CacheNotAvailable) && store == old(store)
        else r == Ok(()) && store == Stored(old(store), serializer, request, response, now)
    {
      var pass := CanCache(response);
      if !pass {
        return Ok(());
      }
      if !available {
        return Err(CacheNotAvailable);
      }
      var hash := HashRequest(serializer, request);
      store := store[hash := SerializeCacheItem(serializer, CacheItem(response, Some(Stamp(now))))];
      return Ok(());
    }

    /** setSerializer. */
    method SetSerializer(s: Codec)
      modifies this`serializer
      ensures serializer == s
    {
      serializer := s;
    }
  }
}
