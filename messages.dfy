/**
 * The HTTP request and response records, the cached item, and the header
 * and body maps they carry.
 */
module Messages {
  import opened Wrappers
  import opened JavaLang
  import opened Exceptions

  /** A java.util.Map<String,String> as its entries, in iteration order. */
  type Entries = seq<(string, string)>

  /** No key occurs twice. */
  predicate UniqueKeys(m: Entries) {
    forall i, j :: 0 <= i < j < |m| ==> m[i].0 != m[j].0
  }

  /** A HashMap: entries with distinct keys. */
  type Fields = m: Entries | UniqueKeys(m) witness []

  /** Map.get: the value under key, or null when the key is absent. */
  function Get(m: Entries, key: string): (r: Option<string>)
    ensures r.Some? ==> (key, r.value) in m
    ensures r.None? <==> forall i :: 0 <= i < |m| ==> m[i].0 != key
  {
    if m == [] then None
    else if m[0].0 == key then Some(m[0].1)
    else Get(m[1..], key)
  }

  lemma GetUnique(m: Fields, key: string, value: string)
    requires (key, value) in m
    ensures Get(m, key) == Some(value)
  {
    var i :| 0 <= i < |m| && m[i] == (key, value);
    var r := Get(m, key);
    var j :| 0 <= j < |m| && m[j] == (key, r.value);
    assert i == j;
  }

  /**
   * An incoming request (verb is the HTTP method). The constructor stores its five arguments as
   * given; headers and body may be null.
   */
  datatype Request = Request(
    version: string,
    verb: string,
    path: string,
    headers: Option<Fields>,
    body: Option<Fields>)

  /** A backend response. Its headers map may be null. */
  datatype Response = Response(status: int32, headers: Option<Fields>, body: string)

  /**
   * A cached response with its creation time in milliseconds since the
   * epoch; None when the stored creation date does not parse.
   */
  datatype CacheItem = CacheItem(response: Response, created: Option<int>)

  /**
   * The creation time a new item carries: the current time truncated to
   * the whole second, the precision of its yyyy-MM-dd'T'HH:mm:ss text form.
   */
  function Stamp(now: int): (t: int)
    ensures t <= now < t + 1000
    ensures t % 1000 == 0
  {
    now - now % 1000
  }

  /** Request.getHostHeader: the value under "host", else under "Host", else null. */
  function GetHostHeader(r: Request): (host: Option<string>)
    requires r.headers.Some?
    ensures (exists i :: 0 <= i < |r.headers.value| && r.headers.value[i].0 == "host") ==> host.Some? && ("host", host.value) in r.headers.value
    ensures host.Some? ==> ("host", host.value) in r.headers.value || ("Host", host.value) in r.headers.value
    ensures host.None? <==> forall i :: 0 <= i < |r.headers.value| ==> r.headers.value[i].0 !in {"host", "Host"}
  {
    var h := Get(r.headers.value, "host");
    if h.Some? then h else Get(r.headers.value, "Host")
  }

  lemma HostHeaderPrefersLowerCase(r: Request, v: string)
    requires r.headers.Some? && ("host", v) in r.headers.value
    ensures GetHostHeader(r) == Some(v)
  {
    GetUnique(r.headers.value, "host", v);
  }

  lemma HostHeaderFallsBack(r: Request, v: string)
    requires r.headers.Some? && ("Host", v) in r.headers.value
    requires forall i :: 0 <= i < |r.headers.value| ==> r.headers.value[i].0 != "host"
    ensures GetHostHeader(r) == Some(v)
  {
    GetUnique(r.headers.value, "Host", v);
  }

  /** key=value for one body entry. */
  function Param(e: (string, string)): string {
    e.0 + "=" + e.1
  }

  function Params(body: Entries): (r: seq<string>)
    ensures |r| == |body|
    ensures forall i :: 0 <= i < |body| ==> r[i] == Param(body[i])
  {
    if body == [] then [] else [Param(body[0])] + Params(body[1..])
  }

  /**
   * Request.stringifyBody: key=value pairs joined with '&'. A null body is
   * a null dereference; an empty body gives the empty text, and only it.
   */
  function StringifyBody(r: Request): (s: Result<string, Exception>)
    ensures r.body.None? <==> s == Err(NullPointer)
    ensures s.Ok? ==> (s.value == "" <==> r.body.value == [])
  {
    if r.body.None? then Err(NullPointer)
    else
      var ps := Params(r.body.value);
      assert ps != [] ==> '=' in ps[0];
      Ok(Join(ps, '&'))
  }

  /**
   * Each body entry becomes its own '&'-separated piece, in order, as long
   * as no key or value contains '&'.
   */
  lemma StringifyBodyPieces(r: Request)
    requires r.body.Some? && |r.body.value| >= 1
    requires forall i :: 0 <= i < |r.body.value| ==> '&' !in r.body.value[i].0 && '&' !in r.body.value[i].1
    ensures StringifyBody(r).Ok?
    ensures Split(StringifyBody(r).value, '&') == Params(r.body.value)
    ensures |Split(StringifyBody(r).value, '&')| == |r.body.value|
  {
    var ps := Params(r.body.value);
    forall p | p in ps
      ensures '&' !in p
    {
      var i :| 0 <= i < |ps| && ps[i] == p;
      assert p == r.body.value[i].0 + "=" + r.body.value[i].1;
    }
    assert '=' in ps[|ps| - 1];
    SplitJoin(ps, '&');
  }
}
