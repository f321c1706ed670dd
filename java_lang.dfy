/**
 * The parts of java.lang.String, Integer and Long that the proxy's parsing
 * and cache decisions rely on, with Java's exact edge cases: trim() drops
 * every char at or below U+0020, split(c) drops trailing empty pieces but
 * keeps leading ones, parseInt/parseLong accept one optional sign and
 * reject anything out of range, and long division truncates toward zero.
 */
module JavaLang {
  import opened Wrappers

  // ---------------------------------------------------------------- trim

  predicate IsTrimmable(c: char) {
    c <= ' '
  }

  function TrimStart(s: string): (r: string)
    ensures |r| <= |s|
    ensures r == [] || !IsTrimmable(r[0])
  {
    if s != [] && IsTrimmable(s[0]) then TrimStart(s[1..]) else s
  }

  function TrimEnd(s: string): (r: string)
    ensures |r| <= |s|
    ensures r == [] || !IsTrimmable(r[|r| - 1])
    ensures r != [] ==> r[0] == s[0]
  {
    if s != [] && IsTrimmable(s[|s| - 1]) then TrimEnd(s[..|s| - 1]) else s
  }

  /** A string that trim() leaves alone. */
  predicate IsTrimmed(s: string) {
    s == [] || (!IsTrimmable(s[0]) && !IsTrimmable(s[|s| - 1]))
  }

  /** String.trim(). */
  function Trim(s: string): (r: string)
    ensures IsTrimmed(r)
    ensures |r| <= |s|
  {
    TrimEnd(TrimStart(s))
  }

  lemma TrimOfTrimmed(s: string)
    requires IsTrimmed(s)
    ensures Trim(s) == s
  {
  }

  lemma TrimIdempotent(s: string)
    ensures Trim(Trim(s)) == Trim(s)
  {
    TrimOfTrimmed(Trim(s));
  }

  lemma {:induction false} TrimStartEmpty(s: string)
    ensures TrimStart(s) == [] <==> forall i :: 0 <= i < |s| ==> IsTrimmable(s[i])
  {
    if s != [] {
      TrimStartEmpty(s[1..]);
      assert forall i :: 1 <= i < |s| ==> s[i] == s[1..][i - 1];
    }
  }

  lemma {:induction false} TrimEndEmpty(s: string)
    ensures TrimEnd(s) == [] <==> forall i :: 0 <= i < |s| ==> IsTrimmable(s[i])
  {
    if s != [] {
      TrimEndEmpty(s[..|s| - 1]);
      assert forall i :: 0 <= i < |s| - 1 ==> s[i] == s[..|s| - 1][i];
    }
  }

  /** Trimming leaves nothing exactly when every char is at or below U+0020. */
  lemma TrimEmpty(s: string)
    ensures Trim(s) == [] <==> forall i :: 0 <= i < |s| ==> IsTrimmable(s[i])
  {
    TrimStartEmpty(s);
    TrimEndEmpty(TrimStart(s));
    if TrimStart(s) != [] {
      assert !IsTrimmable(TrimStart(s)[0]);
    }
  }

  /** The blank test the parsers use: str.trim().equalsIgnoreCase(""). */
  predicate IsBlank(s: string) {
    Trim(s) == []
  }

  // ------------------------------------------------------- ASCII case

  function ToLowerChar(c: char): char {
    if 'A' <= c <= 'Z' then (c as int + 32) as char else c
  }

  function ToUpperChar(c: char): char {
    if 'a' <= c <= 'z' then (c as int - 32) as char else c
  }

  /** String.equalsIgnoreCase over ASCII letters. */
  predicate EqualsIgnoreCase(a: string, b: string) {
    |a| == |b| && forall i :: 0 <= i < |a| ==> ToLowerChar(a[i]) == ToLowerChar(b[i])
  }

  /** String.toUpperCase over ASCII letters. */
  function ToUpper(s: string): (r: string)
    ensures EqualsIgnoreCase(r, s)
    ensures forall i :: 0 <= i < |r| ==> !('a' <= r[i] <= 'z')
  {
    if s == [] then [] else [ToUpperChar(s[0])] + ToUpper(s[1..])
  }

  lemma EqualsIgnoreCaseReflexive(a: string)
    ensures EqualsIgnoreCase(a, a)
  {
  }

  lemma EqualsIgnoreCaseSymmetric(a: string, b: string)
    requires EqualsIgnoreCase(a, b)
    ensures EqualsIgnoreCase(b, a)
  {
  }

  // ---------------------------------------------------------- search

  predicate StartsWith(s: string, prefix: string) {
    |prefix| <= |s| && s[..|prefix|] == prefix
  }

  /** String.contains. */
  predicate Contains(s: string, sub: string) {
    StartsWith(s, sub) || (s != [] && Contains(s[1..], sub))
  }

  lemma ContainsAt(s: string, sub: string, i: nat)
    requires i + |sub| <= |s| && s[i..i + |sub|] == sub
    ensures Contains(s, sub)
  {
    if i > 0 {
      assert s[1..][i - 1..i - 1 + |sub|] == s[i..i + |sub|];
      ContainsAt(s[1..], sub, i - 1);
    }
  }

  // ----------------------------------------------------------- split

  /** Every piece of s between occurrences of d, empty ones included. */
  function SplitAll(s: string, d: char): (r: seq<string>)
    ensures |r| >= 1
    ensures forall p :: p in r ==> d !in p
  {
    if s == [] then [""]
    else
      var rest := SplitAll(s[1..], d);
      if s[0] == d then [""] + rest else [[s[0]] + rest[0]] + rest[1..]
  }

  function DropTrailingEmpty(ps: seq<string>): (r: seq<string>)
    ensures |r| <= |ps| && r == ps[..|r|]
    ensures r == [] || r[|r| - 1] != ""
    ensures forall i :: |r| <= i < |ps| ==> ps[i] == ""
  {
    if ps != [] && ps[|ps| - 1] == "" then DropTrailingEmpty(ps[..|ps| - 1]) else ps
  }

  /**
   * String.split with a one-character literal delimiter: without the
   * delimiter the whole string is the only piece; otherwise the pieces in
   * order, with trailing empty pieces removed.
   */
  function Split(s: string, d: char): (r: seq<string>)
    ensures d !in s ==> |r| == 1
    ensures forall p :: p in r ==> d !in p
  {
    if d !in s then [s] else DropTrailingEmpty(SplitAll(s, d))
  }

  /** String.join: the pieces with one delimiter between neighbours. */
  function Join(ps: seq<string>, d: char): (r: string)
    ensures |ps| >= 2 ==> d in r
    ensures (forall p :: p in ps ==> d !in p) && |ps| <= 1 ==> d !in r
  {
    if |ps| == 0 then "" else if |ps| == 1 then ps[0] else ps[0] + [d] + Join(ps[1..], d)
  }

  lemma {:induction false} SplitAllNoDelim(s: string, d: char)
    requires d !in s
    ensures SplitAll(s, d) == [s]
  {
    if s != [] {
      assert d !in s[1..] && s[0] != d;
      SplitAllNoDelim(s[1..], d);
      assert [s[0]] + s[1..] == s;
    }
  }

  lemma {:induction false} SplitAllPrefix(x: string, d: char, y: string)
    requires d !in x
    ensures SplitAll(x + [d] + y, d) == [x] + SplitAll(y, d)
  {
    if x == [] {
      assert x + [d] + y == [d] + y;
    } else {
      assert (x + [d] + y)[1..] == x[1..] + [d] + y;
      SplitAllPrefix(x[1..], d, y);
      assert [x[0]] + x[1..] == x;
    }
  }

  lemma {:induction false} SplitAllJoin(ps: seq<string>, d: char)
    requires |ps| >= 1
    requires forall p :: p in ps ==> d !in p
    ensures SplitAll(Join(ps, d), d) == ps
  {
    if |ps| == 1 {
      SplitAllNoDelim(ps[0], d);
    } else {
      SplitAllJoin(ps[1..], d);
      SplitAllPrefix(ps[0], d, Join(ps[1..], d));
      assert [ps[0]] + ps[1..] == ps;
    }
  }

  /** Splitting a joined list of delimiter-free pieces gives the pieces back. */
  lemma SplitJoin(ps: seq<string>, d: char)
    requires |ps| >= 1
    requires forall p :: p in ps ==> d !in p
    requires |ps| == 1 || ps[|ps| - 1] != ""
    ensures Split(Join(ps, d), d) == ps
  {
    if |ps| >= 2 {
      SplitAllJoin(ps, d);
    }
  }

  // ---------------------------------------------------------- numbers

  predicate IsDigit(c: char) {
    '0' <= c <= '9'
  }

  predicate AllDigits(s: string) {
    forall i :: 0 <= i < |s| ==> IsDigit(s[i])
  }

  function DigitValue(c: char): nat
    requires IsDigit(c)
  {
    c as int - '0' as int
  }

  function Digit(n: nat): (c: char)
    requires n < 10
    ensures IsDigit(c) && DigitValue(c) == n
  {
    ('0' as int + n) as char
  }

  /** The value of a string of decimal digits, most significant first. */
  function DecimalValue(s: string): nat
    requires AllDigits(s)
  {
    if s == [] then 0 else DecimalValue(s[..|s| - 1]) * 10 + DigitValue(s[|s| - 1])
  }

  /** Decimal rendering of a natural number, as Integer.toString and "" + n give it. */
  function NatToDecimal(n: nat): (r: string)
    ensures |r| >= 1 && AllDigits(r)
    ensures DecimalValue(r) == n
  {
    if n < 10 then [Digit(n)]
    else
      var r := NatToDecimal(n / 10) + [Digit(n % 10)];
      assert r[..|r| - 1] == NatToDecimal(n / 10);
      r
  }

  /** Integer.toString / Long.toString. */
  function IntToString(n: int): (r: string)
    ensures |r| >= 1
    ensures r[0] == '-' <==> n < 0
  {
    if n < 0 then "-" + NatToDecimal(-n) else NatToDecimal(n)
  }

  const INT_MIN: int := -0x8000_0000
  const INT_MAX: int := 0x7fff_ffff
  const LONG_MIN: int := -0x8000_0000_0000_0000
  const LONG_MAX: int := 0x7fff_ffff_ffff_ffff

  newtype int32 = x: int | -0x8000_0000 <= x < 0x8000_0000

  /**
   * Integer.parseInt / Long.parseLong in radix 10 for the range lo..hi:
   * one optional leading '+' or '-', then at least one digit, and nothing
   * else; a value outside the range is rejected like any other bad input.
   */
  function ParseSigned(s: string, lo: int, hi: int): (r: Result<int, string>)
    ensures r.Ok? ==> lo <= r.value <= hi
    ensures s == [] ==> r.Err?
  {
    if s == [] then Err(s)
    else
      var negative := s[0] == '-';
      var digits := if s[0] == '-' || s[0] == '+' then s[1..] else s;
      if digits == [] || !AllDigits(digits) then Err(s)
      else
        var v: int := if negative then -(DecimalValue(digits) as int) else DecimalValue(digits);
        if lo <= v <= hi then Ok(v) else Err(s)
  }

  function ParseInt(s: string): (r: Result<int, string>)
    ensures r.Ok? ==> INT_MIN <= r.value <= INT_MAX
  {
    ParseSigned(s, INT_MIN, INT_MAX)
  }

  function ParseLong(s: string): (r: Result<int, string>)
    ensures r.Ok? ==> LONG_MIN <= r.value <= LONG_MAX
  {
    ParseSigned(s, LONG_MIN, LONG_MAX)
  }

  /** Parsing the decimal rendering of an in-range number gives it back. */
  lemma ParseIntToString(n: int, lo: int, hi: int)
    requires lo <= n <= hi
    ensures ParseSigned(IntToString(n), lo, hi) == Ok(n)
  {
    if n < 0 {
      assert IntToString(n)[1..] == NatToDecimal(-n);
    } else {
      assert IsDigit(IntToString(n)[0]);
    }
  }

  /** Java's long division by a positive divisor: the quotient truncated toward zero. */
  function DivTowardZero(a: int, b: int): (q: int)
    requires b > 0
    ensures a >= 0 ==> q * b <= a < q * b + b
    ensures a < 0 ==> q * b - b < a <= q * b
  {
    if a >= 0 then a / b else -((-a) / b)
  }
}
