/**
 * The Cache-Control decisions both cache managers make: the bypass gate
 * on no-cache / no-store / private, and the max-age freshness verdict.
 * Each decision is a specification function here and a loop below that
 * is proved to compute it, in the order the Java loops visit things.
 */
module CacheControl {
  import opened Wrappers
  import opened Exceptions
  import opened JavaLang
  import opened Messages
  import opened Seqs

  /** A header name that, once trimmed, equals "cache-control" ignoring case. */
  predicate IsCacheControlName(name: string) {
    EqualsIgnoreCase(Trim(name), "cache-control")
  }

  /** A directive that, once trimmed, is no-cache, no-store or private, ignoring case. */
  predicate IsBypassToken(part: string) {
    var t := Trim(part);
    EqualsIgnoreCase(t, "no-cache") || EqualsIgnoreCase(t, "no-store") || EqualsIgnoreCase(t, "private")
  }

  /** The directives of one header value: value.split(","). */
  function Directives(value: string): seq<string> {
    Split(value, ',')
  }

  /** The value carries a bypass directive. */
  predicate ValueForbids(value: string) {
    exists p :: p in Directives(value) && IsBypassToken(p)
  }

  /** Some header named cache-control (trimmed, any case) carries a bypass directive. */
  predicate HeadersForbid(hs: Entries) {
    exists i :: 0 <= i < |hs| && IsCacheControlName(hs[i].0) && ValueForbids(hs[i].1)
  }

  /** The loop over value.split(",") that returns at the first bypass directive. */
  method ScanValue(value: string) returns (forbids: bool)
    ensures forbids == ValueForbids(value)
  {
    var parts := Directives(value);
    for k := 0 to |parts|
      invariant forall q :: q in parts[..k] ==> !IsBypassToken(q)
    {
      var part := Trim(parts[k]);
      if EqualsIgnoreCase(part, "no-cache")
        || EqualsIgnoreCase(part, "no-store")
        || EqualsIgnoreCase(part, "private")
      {
        assert parts[k] in parts && IsBypassToken(parts[k]);
        return true;
      }
    }
    assert parts[..|parts|] == parts;
    return false;
  }

  /** The loop over every header that scans each cache-control value. */
  method ScanHeaders(hs: Entries) returns (forbids: bool)
    ensures forbids == HeadersForbid(hs)
  {
    for i := 0 to |hs|
      invariant forall j :: 0 <= j < i && IsCacheControlName(hs[j].0) ==> !ValueForbids(hs[j].1)
    {
      if IsCacheControlName(hs[i].0) {
        var f := ScanValue(hs[i].1);
        if f {
          assert IsCacheControlName(hs[i].0) && ValueForbids(hs[i].1);
          return true;
        }
      }
    }
    return false;
  }

  // ---------------------------------------------------------- max-age

  /** part.trim().contains("max-age"). */
  predicate IsMaxAgeToken(part: string) {
    Contains(Trim(part), "max-age")
  }

  /**
   * Long.parseLong(part.trim().split("=")[1]): an index error when there
   * is no second piece, a number format error when it is not a long.
   */
  function MaxAgeValue(part: string): (r: Result<int, Exception>)
    ensures r.Ok? ==> LONG_MIN <= r.value <= LONG_MAX
  {
    var pieces := Split(Trim(part), '=');
    if |pieces| < 2 then Err(IndexOutOfBounds("1"))
    else
      match ParseLong(pieces[1])
      case Ok(n) => Ok(n)
      case Err(text) => Err(NumberFormat(text))
  }

  predicate Expires(part: string, age: int) {
    IsMaxAgeToken(part) && MaxAgeValue(part).Ok? && age >= MaxAgeValue(part).value
  }

  predicate Malformed(part: string) {
    IsMaxAgeToken(part) && MaxAgeValue(part).Err?
  }

  /**
   * The scan over directives: false at the first max-age directive whose
   * value the age reaches, an exception at the first malformed one before
   * that, true when neither occurs.
   */
  function Freshness(parts: seq<string>, age: int): (r: Result<bool, Exception>)
    ensures r == Ok(true) <==> forall p :: p in parts ==> !Expires(p, age) && !Malformed(p)
    ensures r == Ok(false) ==> exists p :: p in parts && Expires(p, age)
    ensures r.Err? ==> exists p :: p in parts && Malformed(p)
  {
    if parts == [] then Ok(true)
    else
      var rest := Freshness(parts[1..], age);
      assert forall p :: p in parts <==> p == parts[0] || p in parts[1..];
      if IsMaxAgeToken(parts[0]) then
        match MaxAgeValue(parts[0])
        case Err(e) => assert Malformed(parts[0]); Err(e)
        case Ok(max) => if age >= max then assert Expires(parts[0], age); Ok(false) else rest
      else rest
  }

  lemma {:induction false} FreshnessAppend(a: seq<string>, b: seq<string>, age: int)
    ensures Freshness(a + b, age) == if Freshness(a, age) == Ok(true) then Freshness(b, age) else Freshness(a, age)
  {
    if a == [] {
      assert a + b == b;
    } else {
      assert (a + b)[0] == a[0];
      assert (a + b)[1..] == a[1..] + b;
      FreshnessAppend(a[1..], b, age);
    }
  }

  /** The directives of one header when it is a cache-control header, else none. */
  function HeaderDirectives(h: (string, string)): seq<string> {
    if IsCacheControlName(h.0) then Directives(h.1) else []
  }

  /** The directives of every cache-control header, header by header. */
  function ControlDirectives(hs: Entries): seq<string> {
    FlatMap(HeaderDirectives, hs)
  }

  /** The directives scanned are exactly those of the cache-control headers. */
  lemma ControlDirectivesMembers(hs: Entries, p: string)
    ensures p in ControlDirectives(hs) <==>
      exists i :: 0 <= i < |hs| && IsCacheControlName(hs[i].0) && p in Directives(hs[i].1)
  {
    FlatMapMembers(HeaderDirectives, hs, p);
  }

  /** The loop over one value's directives, returning at the first decision. */
  method CheckDirectives(parts: seq<string>, age: int) returns (r: Result<bool, Exception>)
    ensures r == Freshness(parts, age)
  {
    for k := 0 to |parts|
      invariant Freshness(parts[..k], age) == Ok(true)
    {
      var part := Trim(parts[k]);
      if Contains(part, "max-age") {
        var pieces := Split(part, '=');
        if |pieces| < 2 {
          r := Err(IndexOutOfBounds("1"));
          DecidedIn(parts, k, age);
          return;
        }
        var max := ParseLong(pieces[1]);
        if max.Err? {
          r := Err(NumberFormat(max.error));
          DecidedIn(parts, k, age);
          return;
        }
        if age >= max.value {
          r := Ok(false);
          DecidedIn(parts, k, age);
          return;
        }
      }
      FreshnessAppend(parts[..k], [parts[k]], age);
      PrefixSnoc(parts, k);
    }
    assert parts[..|parts|] == parts;
    return Ok(true);
  }

  /** The loop over the request's headers, scanning each cache-control value. */
  method CheckMaxAge(hs: Entries, age: int) returns (r: Result<bool, Exception>)
    ensures r == Freshness(ControlDirectives(hs), age)
  {
    for i := 0 to |hs|
      invariant Freshness(ControlDirectives(hs[..i]), age) == Ok(true)
    {
      FlatMapSnoc(HeaderDirectives, hs[..i], hs[i]);
      PrefixSnoc(hs, i);
      FreshnessAppend(ControlDirectives(hs[..i]), HeaderDirectives(hs[i]), age);
      if IsCacheControlName(hs[i].0) {
        r := CheckDirectives(Directives(hs[i].1), age);
        if r != Ok(true) {
          FlatMapAround(HeaderDirectives, hs, i);
          FreshnessAppend(ControlDirectives(hs[..i]) + HeaderDirectives(hs[i]), ControlDirectives(hs[i + 1..]), age);
          return;
        }
      }
    }
    assert hs[..|hs|] == hs;
    return Ok(true);
  }

  /** When the scan decides at directive k, that decision is the verdict on all of them. */
  lemma DecidedIn(parts: seq<string>, k: nat, age: int)
    requires k < |parts|
    requires Freshness(parts[..k], age) == Ok(true)
    requires Freshness([parts[k]], age) != Ok(true)
    ensures Freshness(parts, age) == Freshness([parts[k]], age)
  {
    Around(parts, k);
    FreshnessAppend(parts[..k], [parts[k]] + parts[k + 1..], age);
    FreshnessAppend([parts[k]], parts[k + 1..], age);
  }

  /** The age of an item in whole seconds, truncated toward zero as Java's long division does. */
  function AgeInSeconds(now: int, created: int): int {
    DivTowardZero(now - created, 1000)
  }

  /**
   * cacheItemIsValid: false when the creation date does not parse; true
   * when the request has no headers map; otherwise the max-age verdict of
   * the request's cache-control headers on the item's age.
   */
  function Validity(headers: Option<Entries>, item: CacheItem, now: int): (r: Result<bool, Exception>)
    ensures item.created.None? ==> r == Ok(false)
    ensures item.created.Some? && headers.Some? ==>
      (r == Ok(true) <==> forall p :: p in ControlDirectives(headers.value) ==>
         !Expires(p, AgeInSeconds(now, item.created.value)) && !Malformed(p))
  {
    match item.created
    case None => Ok(false)
    case Some(created) =>
      if headers.None? then Ok(true)
      else Freshness(ControlDirectives(headers.value), AgeInSeconds(now, created))
  }

  /** Without a max-age directive an item with a readable date is always valid. */
  lemma ValidWithoutMaxAge(hs: Entries, item: CacheItem, now: int)
    requires item.created.Some?
    requires forall p :: p in ControlDirectives(hs) ==> !IsMaxAgeToken(p)
    ensures Validity(Some(hs), item, now) == Ok(true)
  {
  }

  /** A max-age directive whose value the age reaches makes the item invalid. */
  lemma ExpiredIsInvalid(hs: Entries, item: CacheItem, now: int, p: string)
    requires item.created.Some?
    requires p in ControlDirectives(hs) && Expires(p, AgeInSeconds(now, item.created.value))
    ensures Validity(Some(hs), item, now) != Ok(true)
  {
  }
}
