/**
 * The older cache manager in the entities package. It talks to the store
 * itself, hashes requests with their headers dropped, and assumes that
 * every request and response carries a headers map: each gate iterates
 * over that map without a null check.
 */
module LegacyCacheManagement {
  import opened Wrappers
  import opened Exceptions
  import opened JavaLang
  import opened Messages
  import opened CacheControl
  import Serialization
  import CacheManagement

  /** The request gate of this copy: every header named cache-control, trimmed and in any case, is scanned. */
  predicate RequestAllowsCache(r: Request)
    requires r.headers.Some?
  {
    !HeadersForbid(r.headers.value)
  }

  /** The response gate applies the same rule to the response's headers. */
  predicate ResponseAllowsStore(resp: Response)
    requires resp.headers.Some?
  {
    !HeadersForbid(resp.headers.value)
  }

  /** The clone this copy hashes: the request with its headers set to null. */
  function HeadlessKey(r: Request): Serialization.KeySource {
    Serialization.KeySource(r.version, r.verb, r.path, Serialization.NullHeaders, r.body)
  }

  /**
   * hashRequest of this copy: the headers play no part in the key, which
   * is 32 lowercase hex digits whose value is the digest of the clone.
   */
  function HashRequest(c: Serialization.Codec, r: Request): (key: string)
    ensures |key| == 32 && Serialization.AllHex(key)
    ensures Serialization.HexValue(key) == Serialization.Unsigned(c.md5(c.keyJson(HeadlessKey(r))))
  {
    Serialization.Md5TextShape(c.md5(c.keyJson(HeadlessKey(r))));
    Serialization.Md5Text(c.md5(c.keyJson(HeadlessKey(r))))
  }

  /** Requests that differ only in their headers share a key. */
  lemma HeadersIgnored(c: Serialization.Codec, r1: Request, r2: Request)
    requires r1.version == r2.version && r1.verb == r2.verb && r1.path == r2.path && r1.body == r2.body
    ensures HashRequest(c, r1) == HashRequest(c, r2)
  {
  }

  /** The static getMd5 of this copy, with its own padding loop. */
  method GetMd5(md5: string -> Serialization.Digest, input: string) returns (hashtext: string)
    ensures |Serialization.Hex(Serialization.Unsigned(md5(input)))| <= |hashtext| == 32
    ensures hashtext == seq(|hashtext| - |Serialization.Hex(Serialization.Unsigned(md5(input)))|, _ => '0') + Serialization.Hex(Serialization.Unsigned(md5(input)))
  {
    var raw := Serialization.Hex(Serialization.Unsigned(md5(input)));
    Serialization.BytesHexLength(md5(input));
    hashtext := raw;
    assert hashtext == seq(0, _ => '0') + raw;
    while |hashtext| < 32
      invariant |raw| <= |hashtext| <= 32
      invariant hashtext == seq(|hashtext| - |raw|, _ => '0') + raw
      decreases 32 - |hashtext|
    {
      assert "0" + seq(|hashtext| - |raw|, _ => '0') == seq(|hashtext| + 1 - |raw|, _ => '0');
      hashtext := "0" + hashtext;
    }
  }

  /** The padded text is the same one the serializer produces. */
  lemma GetMd5AgreesWithSerializer(d: Serialization.Digest)
    ensures |Serialization.Hex(Serialization.Unsigned(d))| <= 32
    ensures Serialization.Md5Text(d) == seq(32 - |Serialization.Hex(Serialization.Unsigned(d))|, _ => '0') + Serialization.Hex(Serialization.Unsigned(d))
  {
    Serialization.BytesHexLength(d);
    Serialization.PadShape(Serialization.Hex(Serialization.Unsigned(d)));
  }

  /** What getCached answers in this copy. */
  function Lookup(store: map<string, string>, available: bool, c: Serialization.Codec, request: Request, now: int)
    : (r: Result<Option<Response>, Exception>)
    requires request.headers.Some?
    ensures !RequestAllowsCache(request) ==> r == Ok(None)
    ensures RequestAllowsCache(request) && !available ==> r == Err(CacheNotAvailable)
    ensures r.Ok? && r.value.Some? ==>
      available && HashRequest(c, request) in store &&
      Validity(request.headers, c.itemFromJson(store[HashRequest(c, request)]), now) == Ok(true) &&
      r.value.value == c.itemFromJson(store[HashRequest(c, request)]).response
    ensures r.Err? ==> (r.error == CacheNotAvailable ||
      (HashRequest(c, request) in store && Validity(request.headers, c.itemFromJson(store[HashRequest(c, request)]), now).Err?))
  {
    if !RequestAllowsCache(request) then Ok(None)
    else if !available then Err(CacheNotAvailable)
    else
      var key := HashRequest(c, request);
      if key !in store then Ok(None)
      else
        var item := c.itemFromJson(store[key]);
        match Validity(request.headers, item, now)
        case Err(e) => Err(e)
        case Ok(valid) => if valid then Ok(Some(item.response)) else Ok(None)
  }

  /**
   * The answer is null whenever the gate fails, the key is missing, or
   * the item read back is not valid.
   */
  lemma LookupMisses(store: map<string, string>, c: Serialization.Codec, request: Request, now: int)
    requires request.headers.Some?
    ensures !RequestAllowsCache(request) ==> Lookup(store, true, c, request, now) == Ok(None)
    ensures HashRequest(c, request) !in store ==> Lookup(store, true, c, request, now) == Ok(None)
    ensures (HashRequest(c, request) in store &&
      Validity(request.headers, c.itemFromJson(store[HashRequest(c, request)]), now) == Ok(false)) ==>
      Lookup(store, true, c, request, now) == Ok(None)
  {
  }

  /** An item whose creation date does not parse is never served. */
  lemma UnreadableDateMisses(store: map<string, string>, c: Serialization.Codec, request: Request, now: int)
    requires request.headers.Some?
    requires HashRequest(c, request) in store && c.itemFromJson(store[HashRequest(c, request)]).created.None?
    ensures Lookup(store, true, c, request, now) == Ok(None)
  {
  }

  /**
   * The two copies disagree on a request whose only header is
   * "Cache-Control: no-store": the current gate reads the lower-case key
   * only and lets it through, this copy stops it.
   */
  lemma GatesDisagreeOnCapitalisedHeader()
    ensures var r := Request("1.1", "GET", "/", Some([("Cache-Control", "no-store")]), None);
      CacheManagement.RequestAllowsCache(r) && !RequestAllowsCache(r)
  {
    var hs: Fields := [("Cache-Control", "no-store")];
    assert hs[0].0[0] != "cache-control"[0];
    assert Get(hs, "cache-control") == None;
    CapitalisedNameMatches();
    NoStoreForbids();
    assert HeadersForbid(hs) by {
      assert IsCacheControlName(hs[0].0) && ValueForbids(hs[0].1);
    }
  }

  lemma CapitalisedNameMatches()
    ensures IsCacheControlName("Cache-Control")
  {
    TrimOfTrimmed("Cache-Control");
  }

  lemma NoStoreForbids()
    ensures ValueForbids("no-store")
  {
    assert ',' !in "no-store";
    assert Directives("no-store") == ["no-store"];
    TrimOfTrimmed("no-store");
    assert IsBypassToken("no-store");
  }

  class CacheManager {
    /** The Redis store reached through StringRedisTemplate. */
    var store: map<string, string>
    /** False when the cache server cannot be reached. */
    var available: bool
    /** Gson and MessageDigest, which this copy calls directly. */
    const codec: Serialization.Codec

    constructor (codec: Serialization.Codec, available: bool)
      ensures this.store == map[] && this.available == available && this.codec == codec
    {
      this.store := map[];
      this.available := available;
      this.codec := codec;
    }

    /** canGetFromCache of this copy. */
    method CanGetFromCache(request: Request) returns (pass: bool)
      requires request.headers.Some?
      ensures pass == RequestAllowsCache(request)
    {
      var forbids := ScanHeaders(request.headers.value);
      return !forbids;
    }

    /** canCache of this copy. */
    method CanCache(response: Response) returns (pass: bool)
      requires response.headers.Some?
      ensures pass == ResponseAllowsStore(response)
    {
      var forbids := ScanHeaders(response.headers.value);
      return !forbids;
    }

    /** unhashItem: the text written for an item reads back as that item. */
    function UnhashItem(text: string): (item: CacheItem)
      ensures Serialization.ItemsRoundTrip(codec) ==> forall written :: codec.itemJson(written) == text ==> item == written
    {
      codec.itemFromJson(text)
    }

    /** hashItem: a text that Gson reads back as the item, and as no other. */
    function HashItem(item: CacheItem): (text: string)
      ensures Serialization.ItemsRoundTrip(codec) ==> codec.itemFromJson(text) == item
      ensures Serialization.ItemsRoundTrip(codec) ==> forall other :: codec.itemJson(other) == text ==> other == item
    {
      codec.itemJson(item)
    }

    /** Reading back a written item gives the item, when Gson round-trips. */
    lemma ItemRoundTrip(item: CacheItem)
      requires Serialization.ItemsRoundTrip(codec)
      ensures UnhashItem(HashItem(item)) == item
    {
    }

    /** cacheItemIsValid of this copy; the request must carry a headers map. */
    method CacheItemIsValid(request: Request, item: CacheItem, now: int) returns (r: Result<bool, Exception>)
      requires request.headers.Some?
      ensures r == Validity(request.headers, item, now)
      ensures item.created.None? ==> r == Ok(false)
    {
      if item.created.None? {
        return Ok(false);
      }
      var ageInSeconds := AgeInSeconds(now, item.created.value);
      r := CheckMaxAge(request.headers.value, ageInSeconds);
    }

    /** getCached of this copy. It reads the store and never writes it. */
    method GetCached(request: Request, now: int) returns (r: Result<Option<Response>, Exception>)
      requires request.headers.Some?
      ensures r == Lookup(store, available, codec, request, now)
    {
      var pass := CanGetFromCache(request);
      if !pass {
        return Ok(None);
      }
      var hash := HashRequest(codec, request);
      if !available {
        return Err(CacheNotAvailable);
      }
      if hash !in store {
        return Ok(None);
      }
      var item := UnhashItem(store[hash]);
      var response := item.response;
      var valid := CacheItemIsValid(request, item, now);
      if valid.Err? {
        return Err(valid.error);
      }
      if valid.value {
        return Ok(Some(response));
      }
      return Ok(None);
    }

    /**
     * store of this copy: a storable response is written, stamped with
     * the current time, under the headerless key; nothing else changes.
     */
    method Store(request: Request, response: Response, now: int) returns (r: Result<(), Exception>)
      requires response.headers.Some?
      modifies this`store
      ensures !ResponseAllowsStore(response) ==> r == Ok(()) && store == old(store)
      ensures ResponseAllowsStore(response) && !available ==> r == Err(CacheNotAvailable) && store == old(store)
      ensures ResponseAllowsStore(response) && available ==>
        r == Ok(()) && store == old(store)[HashRequest(codec, request) := HashItem(CacheItem(response, Some(Stamp(now))))]
    {
      var pass := CanCache(response);
      if !pass {
        return Ok(());
      }
      var hash := HashRequest(codec, request);
      if !available {
        return Err(CacheNotAvailable);
      }
      store := store[hash := HashItem(CacheItem(response, Some(Stamp(now))))];
      return Ok(());
    }
  }

  /**
   * The round trip of this copy: after a write, a read of any request
   * with the same version, method, path and body, while its max-age
   * directives admit the item's age, returns the stored response.
   */
  lemma StoreThenLookup(store: map<string, string>, c: Serialization.Codec, written: Request, read: Request, response: Response, now: int, later: int)
    requires Serialization.ItemsRoundTrip(c)
    requires read.headers.Some? && RequestAllowsCache(read)
    requires written.version == read.version && written.verb == read.verb && written.path == read.path && written.body == read.body
    requires Freshness(ControlDirectives(read.headers.value), AgeInSeconds(later, Stamp(now))) == Ok(true)
    ensures Lookup(store[HashRequest(c, written) := c.itemJson(CacheItem(response, Some(Stamp(now))))], true, c, read, later)
      == Ok(Some(response))
  {
    HeadersIgnored(c, written, read);
  }
}
