/**
 * The MD5 serializer: the cache key of a request and the text form of a
 * cached item. MD5 and Gson are foreign code, so they are the fields of a
 * Codec value; what the serializer itself computes around them (the
 * request clone it hashes, the hexadecimal rendering of the digest and
 * its zero padding to 32 characters) is modelled exactly.
 */
module Serialization {
  import opened Wrappers
  import opened JavaLang
  import opened Messages

  type Byte = b: int | 0 <= b < 256

  /** An MD5 digest: sixteen bytes. */
  type Digest = d: seq<Byte> | |d| == 16 witness seq(16, _ => 0)

  /** The headers of the request clone that gets hashed. */
  datatype KeyHeaders =
    | NullHeaders                 // headers set to null
    | HostOnly(host: Option<string>)  // a map holding "host" -> getHostHeader(), possibly null

  /** The request clone whose JSON text is hashed. */
  datatype KeySource = KeySource(version: string, verb: string, path: string, headers: KeyHeaders, body: Option<Fields>)

  /**
   * The foreign calls: MessageDigest MD5 over the text's bytes, Gson's
   * rendering of the request clone, and Gson's rendering and parsing of
   * a cache item.
   */
  datatype Codec = Codec(
    md5: string -> Digest,
    keyJson: KeySource -> string,
    itemJson: CacheItem -> string,
    itemFromJson: string -> CacheItem)

  /** Gson reads back every item it writes. */
  ghost predicate ItemsRoundTrip(c: Codec) {
    forall item :: c.itemFromJson(c.itemJson(item)) == item
  }

  // ------------------------------------------------------ hex digest

  function Pow(b: nat, k: nat): (r: nat)
    requires b >= 1
    ensures r >= 1
  {
    if k == 0 then 1 else b * Pow(b, k - 1)
  }

  lemma {:induction false} PowSquare(k: nat)
    ensures Pow(256, k) == Pow(16, 2 * k)
  {
    if k > 0 {
      PowSquare(k - 1);
      assert Pow(16, 2 * k) == 16 * (16 * Pow(16, 2 * k - 2));
    }
  }

  /** BigInteger(1, bytes): the bytes as an unsigned big-endian number. */
  function Unsigned(bytes: seq<Byte>): nat {
    if bytes == [] then 0 else Unsigned(bytes[..|bytes| - 1]) * 256 + bytes[|bytes| - 1]
  }

  lemma {:induction false} UnsignedBound(bytes: seq<Byte>)
    ensures Unsigned(bytes) < Pow(256, |bytes|)
  {
    if bytes != [] {
      UnsignedBound(bytes[..|bytes| - 1]);
    }
  }

  /** Equal-length byte strings with the same value are the same bytes. */
  lemma {:induction false} UnsignedInjective(a: seq<Byte>, b: seq<Byte>)
    requires |a| == |b| && Unsigned(a) == Unsigned(b)
    ensures a == b
  {
    if a != [] {
      var n := |a| - 1;
      assert a[n] == Unsigned(a) % 256 && b[n] == Unsigned(b) % 256;
      assert Unsigned(a[..n]) == Unsigned(a) / 256 == Unsigned(b[..n]);
      UnsignedInjective(a[..n], b[..n]);
      assert a == a[..n] + [a[n]] && b == b[..n] + [b[n]];
    }
  }

  const HEX_DIGITS: string := "0123456789abcdef"

  predicate IsHexDigit(c: char) {
    '0' <= c <= '9' || 'a' <= c <= 'f'
  }

  predicate AllHex(s: string) {
    forall i :: 0 <= i < |s| ==> IsHexDigit(s[i])
  }

  function HexDigitValue(c: char): nat
    requires IsHexDigit(c)
  {
    if c <= '9' then c as int - '0' as int else c as int - 'a' as int + 10
  }

  function HexDigit(v: nat): (c: char)
    requires v < 16
    ensures IsHexDigit(c) && HexDigitValue(c) == v
  {
    HEX_DIGITS[v]
  }

  /** The value of a string of lowercase hex digits, most significant first. */
  function HexValue(s: string): nat
    requires AllHex(s)
  {
    if s == [] then 0 else HexValue(s[..|s| - 1]) * 16 + HexDigitValue(s[|s| - 1])
  }

  /** BigInteger.toString(16) of a non-negative value: lowercase, no leading zero. */
  function Hex(n: nat): string {
    if n < 16 then [HexDigit(n)] else Hex(n / 16) + [HexDigit(n % 16)]
  }

  /** The rendering is a non-empty hex text without a leading zero whose value is n. */
  lemma {:induction false} HexFacts(n: nat)
    ensures |Hex(n)| >= 1 && AllHex(Hex(n)) && HexValue(Hex(n)) == n
    ensures |Hex(n)| > 1 ==> Hex(n)[0] != '0'
  {
    if n >= 16 {
      HexFacts(n / 16);
      var r := Hex(n);
      assert r[..|r| - 1] == Hex(n / 16);
    }
  }

  lemma {:induction false} HexLength(n: nat, k: nat)
    requires k >= 1 && n < Pow(16, k)
    ensures |Hex(n)| <= k
  {
    if n >= 16 {
      HexLength(n / 16, k - 1);
    }
  }

  /** The padding loop: prepend '0' while the text is shorter than 32. */
  function Pad(s: string): (r: string)
    ensures |r| == if |s| < 32 then 32 else |s|
    decreases 32 - |s|
  {
    if |s| < 32 then Pad("0" + s) else s
  }

  /** The padding only prepends '0': the text ends with the original, preceded by zeros. */
  lemma {:induction false} PadShape(s: string)
    ensures Pad(s) == seq(|Pad(s)| - |s|, _ => '0') + s
    decreases 32 - |s|
  {
    if |s| < 32 {
      PadShape("0" + s);
      assert seq(|Pad(s)| - |s| - 1, _ => '0') + ("0" + s) == seq(|Pad(s)| - |s|, _ => '0') + s;
    }
  }

  lemma {:induction false} LeadingZero(s: string)
    requires AllHex(s)
    ensures AllHex("0" + s) && HexValue("0" + s) == HexValue(s)
  {
    if s != [] {
      LeadingZero(s[..|s| - 1]);
      assert ("0" + s)[..|s|] == "0" + s[..|s| - 1];
    }
  }

  lemma {:induction false} PadValue(s: string)
    requires AllHex(s)
    ensures AllHex(Pad(s)) && HexValue(Pad(s)) == HexValue(s)
    decreases 32 - |s|
  {
    if |s| < 32 {
      LeadingZero(s);
      PadValue("0" + s);
    }
  }

  /** n bytes never need more than 2n hex digits. */
  lemma BytesHexLength(bytes: seq<Byte>)
    requires |bytes| >= 1
    ensures |Hex(Unsigned(bytes))| <= 2 * |bytes|
  {
    UnsignedBound(bytes);
    PowSquare(|bytes|);
    HexLength(Unsigned(bytes), 2 * |bytes|);
  }

  /** getMd5: the digest as a lowercase hex number, zero-padded to 32 characters. */
  function Md5Text(d: Digest): string {
    Pad(Hex(Unsigned(d)))
  }

  /** The text is exactly 32 hex digits whose value is the digest's. */
  lemma Md5TextShape(d: Digest)
    ensures |Md5Text(d)| == 32 && AllHex(Md5Text(d))
    ensures HexValue(Md5Text(d)) == Unsigned(d)
  {
    BytesHexLength(d);
    HexFacts(Unsigned(d));
    PadValue(Hex(Unsigned(d)));
  }

  /** Distinct digests give distinct texts: the padding loses nothing. */
  lemma Md5TextInjective(a: Digest, b: Digest)
    requires Md5Text(a) == Md5Text(b)
    ensures a == b
  {
    Md5TextShape(a);
    Md5TextShape(b);
    UnsignedInjective(a, b);
  }

  /** MD5Serializer.getMd5 with its padding loop. */
  method GetMd5(c: Codec, input: string) returns (hashtext: string)
    ensures hashtext == Md5Text(c.md5(input))
  {
    hashtext := Hex(Unsigned(c.md5(input)));
    while |hashtext| < 32
      invariant Pad(hashtext) == Md5Text(c.md5(input))
      decreases 32 - |hashtext|
    {
      hashtext := "0" + hashtext;
    }
  }

  // ------------------------------------------------------ cache keys

  /** The clone hashRequest builds: the request with its headers replaced by {"host": getHostHeader()}. */
  function HostKey(r: Request): (k: KeySource)
    requires r.headers.Some?
    ensures k.headers == HostOnly(GetHostHeader(r))
    ensures k.version == r.version && k.verb == r.verb && k.path == r.path && k.body == r.body
  {
    KeySource(r.version, r.verb, r.path, HostOnly(GetHostHeader(r)), r.body)
  }

  /**
   * MD5Serializer.hashRequest; getHostHeader needs a headers map. The key
   * is 32 lowercase hex digits whose value is the digest of the clone.
   */
  function HashRequest(c: Codec, r: Request): (key: string)
    requires r.headers.Some?
    ensures |key| == 32 && AllHex(key)
    ensures HexValue(key) == Unsigned(c.md5(c.keyJson(HostKey(r))))
  {
    Md5TextShape(c.md5(c.keyJson(HostKey(r))));
    Md5Text(c.md5(c.keyJson(HostKey(r))))
  }

  /** Requests that agree on everything but headers other than the host get the same key. */
  lemma SameKeyIgnoresOtherHeaders(c: Codec, r1: Request, r2: Request)
    requires r1.headers.Some? && r2.headers.Some?
    requires r1.version == r2.version && r1.verb == r2.verb && r1.path == r2.path && r1.body == r2.body
    requires GetHostHeader(r1) == GetHostHeader(r2)
    ensures HashRequest(c, r1) == HashRequest(c, r2)
  {
  }

  /** Two requests share a key only when the MD5 digests of their clones' JSON texts collide. */
  lemma SameKeyOnlyForSameDigest(c: Codec, r1: Request, r2: Request)
    requires r1.headers.Some? && r2.headers.Some?
    requires HashRequest(c, r1) == HashRequest(c, r2)
    ensures c.md5(c.keyJson(HostKey(r1))) == c.md5(c.keyJson(HostKey(r2)))
  {
    Md5TextInjective(c.md5(c.keyJson(HostKey(r1))), c.md5(c.keyJson(HostKey(r2))));
  }

  /** MD5Serializer.serializeCacheItem: a text that Gson reads back as the item, and as no other. */
  function SerializeCacheItem(c: Codec, item: CacheItem): (text: string)
    ensures ItemsRoundTrip(c) ==> c.itemFromJson(text) == item
    ensures ItemsRoundTrip(c) ==> forall other :: c.itemJson(other) == text ==> other == item
  {
    c.itemJson(item)
  }

  /** MD5Serializer.deserializeCacheItem: the text written for an item reads back as that item. */
  function DeserializeCacheItem(c: Codec, text: string): (item: CacheItem)
    ensures ItemsRoundTrip(c) ==> forall written :: c.itemJson(written) == text ==> item == written
  {
    c.itemFromJson(text)
  }

  lemma ItemRoundTrip(c: Codec, item: CacheItem)
    requires ItemsRoundTrip(c)
    ensures DeserializeCacheItem(c, SerializeCacheItem(c, item)) == item
  {
  }
}
