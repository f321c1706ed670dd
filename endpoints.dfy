/**
 * Endpoints (a backend host and port with a health status that balancers
 * and the health check overwrite in place), the endpoint list a service
 * shares with its balancer, and the candidate filter over that list.
 */
module Endpoints {
  import opened Wrappers
  import opened Exceptions
  import opened JavaLang
  import opened Enums
  import Seqs

  class Endpoint {
    const ip: string
    const port: int32
    var status: EndpointStatus

    /** A new endpoint starts PENDING. */
    constructor (ip: string, port: int32)
      ensures this.ip == ip && this.port == port && status == Pending
    {
      this.ip := ip;
      this.port := port;
      status := Pending;
    }

    /** setStatus: only the status changes; ip and port are fixed. */
    method SetStatus(s: EndpointStatus)
      modifies this
      ensures status == s
    {
      status := s;
    }

    /** toString: HOST:PORT, which reads back as this endpoint's address when the ip holds no ':'. */
    function ToString(): (r: string)
      ensures ':' !in ip ==> ParseAddress(r) == Ok((ip, port))
    {
      var r := Address(ip, port);
      assert ':' !in ip ==> ParseAddress(r) == Ok((ip, port)) by {
        if ':' !in ip {
          ParseAddressRoundTrip(ip, port);
        }
      }
      r
    }

    /** toJsonString: ip, port and status in a fixed JSON template. */
    function ToJsonString(): (r: string)
      reads this
      ensures StartsWith(r, "{ \"ip\": \"" + ip + "\", \"port\": " + IntToString(port as int))
      ensures |r| >= 2 && r[|r| - 2..] == "\"}"
      ensures var tail := ", \"status\": \"" + StatusName(status) + "\"}";
        |r| >= |tail| && r[|r| - |tail|..] == tail
    {
      var head := "{ \"ip\": \"" + ip + "\", \"port\": " + IntToString(port as int);
      var tail := ", \"status\": \"" + StatusName(status) + "\"}";
      assert (head + tail)[..|head|] == head && (head + tail)[|head|..] == tail;
      assert tail[|tail| - 2..] == "\"}";
      head + tail
    }

    /**
     * equals: the same object, or another endpoint whose ip matches
     * ignoring case and whose port and status are equal.
     */
    predicate Equals(other: Endpoint?): (r: bool)
      reads this, other
      ensures other == this ==> r
      ensures r ==> other != null && EqualsIgnoreCase(ip, other.ip) && other.port == port && other.status == status
    {
      other != null &&
      (other == this || (EqualsIgnoreCase(other.ip, ip) && other.port == port && other.status == status))
    }
  }

  /** The JSON text of two endpoints at one address tells their statuses apart. */
  lemma JsonShowsStatus(a: Endpoint, b: Endpoint)
    requires a.ip == b.ip && a.port == b.port && a.status != b.status
    ensures a.ToJsonString() != b.ToJsonString()
  {
    StatusNamesDistinct(a.status, b.status);
    var head := "{ \"ip\": \"" + a.ip + "\", \"port\": " + IntToString(a.port as int);
    var key, close := ", \"status\": \"", "\"}";
    var x, y := StatusName(a.status), StatusName(b.status);
    assert a.ToJsonString() == head + (key + x + close) && b.ToJsonString() == head + (key + y + close);
    Seqs.PrefixCancel(head, key + x + close, key + y + close);
    Seqs.MiddleDetermined(key, x, y, close);
  }

  /** The HOST:PORT text of an address. */
  function Address(ip: string, port: int32): string {
    ip + ":" + IntToString(port as int)
  }

  lemma EqualsReflexive(e: Endpoint)
    ensures e.Equals(e)
  {
  }

  /** Two endpoints are equal exactly when they agree on ip (ignoring case), port and status. */
  lemma EqualsMeaning(a: Endpoint, b: Endpoint)
    ensures a.Equals(b) <==> EqualsIgnoreCase(b.ip, a.ip) && b.port == a.port && b.status == a.status
  {
  }

  lemma EqualsSymmetric(a: Endpoint, b: Endpoint)
    requires a.Equals(b)
    ensures b.Equals(a)
  {
    if a != b {
      EqualsIgnoreCaseSymmetric(b.ip, a.ip);
    }
  }

  /** The java.util.List of endpoints a service shares with its balancer. */
  class EndpointList {
    var items: seq<Endpoint>

    constructor ()
      ensures items == []
    {
      items := [];
    }

    /** List.add: append at the end. */
    method Add(e: Endpoint)
      modifies this
      ensures items == old(items) + [e]
    {
      items := items + [e];
    }
  }

  // ------------------------------------------------------- candidates

  /** An endpoint may be tried when it is ACTIVE or PENDING. */
  predicate IsCandidate(s: EndpointStatus) {
    s == Active || s == Pending
  }

  /** The statuses of a list of endpoints, position by position. */
  function Statuses(es: seq<Endpoint>): (ss: seq<EndpointStatus>)
    reads es
    ensures |ss| == |es|
    ensures forall i :: 0 <= i < |es| ==> ss[i] == es[i].status
  {
    seq(|es|, i requires 0 <= i < |es| reads es => es[i].status)
  }

  /** The number of candidate statuses. */
  function CountCandidates(ss: seq<EndpointStatus>): nat {
    if ss == [] then 0 else (if IsCandidate(ss[0]) then 1 else 0) + CountCandidates(ss[1..])
  }

  /** The candidates of a list: the ACTIVE and PENDING endpoints, in list order. */
  function Candidates(es: seq<Endpoint>): (cs: seq<Endpoint>)
    reads es
    ensures |cs| <= |es|
  {
    if es == [] then []
    else (if IsCandidate(es[0].status) then [es[0]] else []) + Candidates(es[1..])
  }

  /** An endpoint is a candidate exactly when it is in the list with a candidate status. */
  lemma {:induction false} CandidatesMembers(es: seq<Endpoint>, e: Endpoint)
    ensures e in Candidates(es) <==> e in es && IsCandidate(e.status)
  {
    if es != [] {
      CandidatesMembers(es[1..], e);
      assert es == [es[0]] + es[1..];
    }
  }

  /** The filter keeps the list order: it distributes over concatenation. */
  lemma {:induction false} CandidatesAppend(a: seq<Endpoint>, b: seq<Endpoint>)
    ensures Candidates(a + b) == Candidates(a) + Candidates(b)
  {
    if a == [] {
      assert a + b == b;
    } else {
      assert (a + b)[0] == a[0];
      assert (a + b)[1..] == a[1..] + b;
      CandidatesAppend(a[1..], b);
    }
  }

  /** One more endpoint scanned: the filter grows by it exactly when it is a candidate. */
  lemma CandidatesSnoc(es: seq<Endpoint>, k: nat)
    requires k < |es|
    ensures Candidates(es[..k + 1]) == Candidates(es[..k]) + if IsCandidate(es[k].status) then [es[k]] else []
  {
    CandidatesAppend(es[..k], [es[k]]);
    assert es[..k + 1] == es[..k] + [es[k]];
  }

  /** The list has a candidate exactly when the filter is not empty. */
  lemma CandidatesEmpty(es: seq<Endpoint>)
    ensures Candidates(es) == [] <==> forall i :: 0 <= i < |es| ==> !IsCandidate(es[i].status)
  {
    if Candidates(es) != [] {
      CandidatesMembers(es, Candidates(es)[0]);
    } else {
      forall i | 0 <= i < |es|
        ensures !IsCandidate(es[i].status)
      {
        CandidatesMembers(es, es[i]);
      }
    }
  }

  /** The size of the filter is the number of candidate statuses. */
  lemma {:induction false} CandidatesCount(es: seq<Endpoint>)
    ensures |Candidates(es)| == CountCandidates(Statuses(es))
  {
    if es != [] {
      CandidatesCount(es[1..]);
      assert Statuses(es)[1..] == Statuses(es[1..]);
    }
  }

  /**
   * When some positions go from a candidate status to a non-candidate one
   * and none changes otherwise, the number of candidates drops.
   */
  lemma {:induction false} CountDrops(a: seq<EndpointStatus>, b: seq<EndpointStatus>, k: nat)
    requires |a| == |b| && k < |a|
    requires forall i :: 0 <= i < |a| ==> b[i] == a[i] || (IsCandidate(a[i]) && !IsCandidate(b[i]))
    requires IsCandidate(a[k]) && !IsCandidate(b[k])
    ensures CountCandidates(b) < CountCandidates(a)
  {
    if k == 0 {
      CountNoRise(a[1..], b[1..]);
    } else {
      CountDrops(a[1..], b[1..], k - 1);
    }
  }

  lemma {:induction false} CountNoRise(a: seq<EndpointStatus>, b: seq<EndpointStatus>)
    requires |a| == |b|
    requires forall i :: 0 <= i < |a| ==> b[i] == a[i] || (IsCandidate(a[i]) && !IsCandidate(b[i]))
    ensures CountCandidates(b) <= CountCandidates(a)
  {
    if a != [] {
      CountNoRise(a[1..], b[1..]);
    }
  }

  // ---------------------------------------------------- address parsing

  /**
   * The endpoint part of a service definition: endpoint.split(":")[0] is
   * the ip and Integer.parseInt(endpoint.split(":")[1]) the port; a piece
   * without a second part is an index error, a bad port a number error.
   */
  function ParseAddress(s: string): (r: Result<(string, int32), Exception>)
    ensures r.Ok? ==> ':' !in r.value.0
  {
    var pieces := Split(s, ':');
    if |pieces| == 0 then Err(IndexOutOfBounds("0"))
    else if |pieces| == 1 then Err(IndexOutOfBounds("1"))
    else
      match ParseInt(pieces[1])
      case Err(text) => Err(NumberFormat(text))
      case Ok(p) => Ok((pieces[0], p as int32))
  }

  /** The decimal text of a number holds no ':' and no ','. */
  lemma {:induction false} DecimalHasNoSeparators(n: int)
    ensures ':' !in IntToString(n) && ',' !in IntToString(n) && ';' !in IntToString(n)
  {
    var t := if n < 0 then NatToDecimal(-n) else NatToDecimal(n);
    assert forall i :: 0 <= i < |t| ==> IsDigit(t[i]);
    if n < 0 {
      assert IntToString(n) == "-" + t;
    }
  }

  /** Parsing the HOST:PORT text of an address without ':' in its host gives the address back. */
  lemma ParseAddressRoundTrip(ip: string, port: int32)
    requires ':' !in ip
    ensures ParseAddress(Address(ip, port)) == Ok((ip, port))
  {
    var digits := IntToString(port as int);
    DecimalHasNoSeparators(port as int);
    assert Address(ip, port) == Join([ip, digits], ':');
    SplitJoin([ip, digits], ':');
    ParseIntToString(port as int, INT_MIN, INT_MAX);
  }
}
