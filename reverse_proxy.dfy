/**
 * The reverse proxy: the registry of services, discovery of the service
 * whose domain matches a request's Host header, dispatch of the request to
 * that service, loading the registry from a configuration text, and the
 * periodic health check that overwrites every endpoint's status. The
 * socket connect of the health check is the oracle `probe`.
 */
module Proxy {
  import opened Wrappers
  import opened Exceptions
  import opened JavaLang
  import opened Enums
  import opened Messages
  import opened Endpoints
  import opened LoadBalancing
  import opened Services

  /** A domain answers for a Host header when, trimmed, it equals the header ignoring case; a missing header matches nothing. */
  predicate HostMatches(domain: string, host: Option<string>) {
    host.Some? && EqualsIgnoreCase(Trim(domain), host.value)
  }

  /**
   * The search of discoverService over a registry: the services in order,
   * the first whose domain matches; the Host header is read once a service
   * is examined, so a request without headers fails only on a non-empty
   * registry.
   */
  function Scan(ss: seq<Service>, req: Request): (r: Result<Service, Exception>)
    ensures r.Ok? ==> r.value in ss
    ensures r.Err? ==> r.error == ServiceHostNotFound || r.error == NullPointer
  {
    if ss == [] then Err(ServiceHostNotFound)
    else if req.headers.None? then Err(NullPointer)
    else if HostMatches(ss[0].domain, GetHostHeader(req)) then Ok(ss[0])
    else Scan(ss[1..], req)
  }

  /**
   * discoverService: iterating over a registry that was never set is a
   * null dereference; a null request is dereferenced only once a service
   * is examined, so over an empty registry it is ServiceHostNotFound.
   */
  function Discover(services: Option<seq<Service>>, request: Option<Request>): (r: Result<Service, Exception>)
    ensures services.None? ==> r == Err(NullPointer)
    ensures r.Ok? ==> services.Some? && request.Some? && r.value in services.value
    ensures request.None? && services.Some? ==>
      r == if services.value == [] then Err(ServiceHostNotFound) else Err(NullPointer)
  {
    if services.None? then Err(NullPointer)
    else if request.None? then (if services.value == [] then Err(ServiceHostNotFound) else Err(NullPointer))
    else Scan(services.value, request.value)
  }

  /** Position i holds the first service of the registry that matches the host. */
  predicate FirstMatch(ss: seq<Service>, host: Option<string>, i: int) {
    0 <= i < |ss| && HostMatches(ss[i].domain, host) &&
    forall j :: 0 <= j < i ==> !HostMatches(ss[j].domain, host)
  }

  /** The first matching service is the one discovered. */
  lemma {:induction false} ScanFindsFirst(ss: seq<Service>, req: Request, i: int)
    requires req.headers.Some? && FirstMatch(ss, GetHostHeader(req), i)
    ensures Scan(ss, req) == Ok(ss[i])
  {
    if i > 0 {
      ScanFindsFirst(ss[1..], req, i - 1);
    }
  }

  /** Whatever is discovered is the first matching service. */
  lemma {:induction false} ScanSound(ss: seq<Service>, req: Request)
    requires Scan(ss, req).Ok?
    ensures req.headers.Some?
    ensures exists i :: FirstMatch(ss, GetHostHeader(req), i) && Scan(ss, req).value == ss[i]
  {
    hide HostMatches, GetHostHeader;
    if !HostMatches(ss[0].domain, GetHostHeader(req)) {
      ScanSound(ss[1..], req);
      var i :| FirstMatch(ss[1..], GetHostHeader(req), i) && Scan(ss[1..], req).value == ss[1..][i];
      assert FirstMatch(ss, GetHostHeader(req), i + 1);
    } else {
      assert FirstMatch(ss, GetHostHeader(req), 0);
    }
  }

  /** With headers present, discovery fails with ServiceHostNotFound exactly when no domain matches. */
  lemma {:induction false} ScanNotFound(ss: seq<Service>, req: Request)
    requires req.headers.Some?
    ensures Scan(ss, req) == Err(ServiceHostNotFound) <==>
      forall i :: 0 <= i < |ss| ==> !HostMatches(ss[i].domain, GetHostHeader(req))
  {
    if ss != [] {
      ScanNotFound(ss[1..], req);
      if !HostMatches(ss[0].domain, GetHostHeader(req)) {
        forall i | 0 < i < |ss|
          ensures ss[i] == ss[1..][i - 1]
        {
        }
      }
    }
  }

  /** Without headers, discovery over a non-empty registry is a null dereference. */
  lemma NoHeadersNullPointer(ss: seq<Service>, req: Request)
    requires ss != [] && req.headers.None?
    ensures Discover(Some(ss), Some(req)) == Err(NullPointer)
  {
  }

  /** Domains no two of which are equal ignoring case, once trimmed. */
  predicate DistinctDomains(ss: seq<Service>) {
    forall j, k :: 0 <= j < k < |ss| ==> !EqualsIgnoreCase(Trim(ss[j].domain), Trim(ss[k].domain))
  }

  /** With distinct domains, a Host header equal to a service's trimmed domain discovers that service. */
  lemma DistinctDomainsFound(ss: seq<Service>, req: Request, i: int)
    requires DistinctDomains(ss) && 0 <= i < |ss|
    requires req.headers.Some? && GetHostHeader(req) == Some(Trim(ss[i].domain))
    ensures Discover(Some(ss), Some(req)) == Ok(ss[i])
  {
    EqualsIgnoreCaseReflexive(Trim(ss[i].domain));
    assert FirstMatch(ss, GetHostHeader(req), i);
    ScanFindsFirst(ss, req, i);
  }

  /** Registering a service never changes what earlier services answer; it is reached only when none of them matches. */
  lemma {:induction false} ScanAfterRegister(ss: seq<Service>, s: Service, req: Request)
    ensures Scan(ss + [s], req) ==
      if Scan(ss, req) == Err(ServiceHostNotFound) then Scan([s], req) else Scan(ss, req)
  {
    if ss == [] {
      assert ss + [s] == [s];
    } else {
      assert (ss + [s])[1..] == ss[1..] + [s];
      ScanAfterRegister(ss[1..], s, req);
    }
  }

  /** The endpoints of the services, in the order the health check visits them. */
  function PollOrder(ss: seq<Service>): seq<Endpoint>
    reads set s | s in ss :: s.endpoints
  {
    if ss == [] then [] else ss[0].endpoints.items + PollOrder(ss[1..])
  }

  /** The ports a socket address accepts: 0 to 65535. */
  predicate ValidPort(port: int32) {
    0 <= port as int <= 0xFFFF
  }

  /** The error a socket address with a port out of range throws. */
  function PortOutOfRange(port: int32): Exception {
    IllegalArgument("port out of range:" + IntToString(port as int))
  }

  /** Position k holds the first endpoint, in visiting order, whose port is out of range. */
  predicate FirstBadPort(order: seq<Endpoint>, k: int) {
    0 <= k < |order| && !ValidPort(order[k].port) && forall j :: 0 <= j < k ==> ValidPort(order[j].port)
  }

  /** The status the health check gives an endpoint: ACTIVE when the connection opens, SUSPENDED otherwise. */
  predicate Probed(e: Endpoint, probe: (string, int32) -> bool)
    reads e
  {
    e.status == (if probe(e.ip, e.port) then Active else Suspended)
  }

  class ReverseProxy {
    /** The registry; null until services are loaded or registered. */
    var services: Option<seq<Service>>

    constructor ()
      ensures services == None
    {
      services := None;
    }

    /** registerService: the list is created on first use, and the service is added at its end. */
    method RegisterService(s: Service)
      modifies this
      ensures services == Some((if old(services).Some? then old(services).value else []) + [s])
    {
      if services.None? {
        services := Some([]);
      }
      services := Some(services.value + [s]);
    }

    /** discoverService, the loop over the registry. */
    method DiscoverService(request: Option<Request>) returns (r: Result<Service, Exception>)
      ensures r == Discover(services, request)
    {
      if services.None? {
        return Err(NullPointer);
      }
      var ss := services.value;
      for i := 0 to |ss|
        invariant request.None? ==> i == 0
        invariant request.Some? ==> Scan(ss[i..], request.value) == Scan(ss, request.value)
      {
        if request.None? || request.value.headers.None? {
          return Err(NullPointer);
        }
        var host := GetHostHeader(request.value);
        if HostMatches(ss[i].domain, host) {
          return Ok(ss[i]);
        }
        assert ss[i..][1..] == ss[i + 1..];
      }
      return Err(ServiceHostNotFound);
    }

    /**
     * processRequest: discovery, then the discovered service's balancer.
     * A discovery error is the answer and nothing changes; otherwise the
     * balancer's outcome over that service's endpoints is the answer, and
     * NoAvailableEndpoints comes exactly when every candidate fails.
     */
    method ProcessRequest(request: Option<Request>, execute: Transport)
      returns (r: Result<Option<Response>, Exception>, ghost tried: seq<Endpoint>)
      requires services.Some? ==> forall s :: s in services.value ==> s.Valid()
      modifies if Discover(services, request).Ok? then {Discover(services, request).value.balancer} else {}
      modifies if Discover(services, request).Ok? then Discover(services, request).value.endpoints.items else []
      ensures Discover(services, request).Err? ==> r == Err(Discover(services, request).error)
      ensures Discover(services, request).Ok? ==>
        var es := Discover(services, request).value.endpoints.items;
        var answers := Answers(execute, request.value, es);
        Settled(old(Statuses(es)), Statuses(es), answers) &&
        (r.Ok? ==> Served(Statuses(es), answers, r.value)) &&
        (r.Err? ==> r.error == NoAvailableEndpoints && Exhausted(old(Statuses(es)), Statuses(es), answers)) &&
        (r.Err? <==> AllCandidatesFail(old(Statuses(es)), answers)) &&
        TriedInOrder(es, old(Statuses(es)), Statuses(es), answers, tried, r)
    {
      var found := DiscoverService(request);
      if found.Err? {
        return Err(found.error), [];
      }
      var service := found.value;
      r, tried := service.ProcessRequest(request, execute);
    }

    /** loadServices with a configuration text: the registry is replaced only when the whole text parses. */
    method LoadServices(str: string) returns (r: Result<(), Exception>)
      modifies this
      ensures FromPropertyDefinitions(str).Err? ==>
        r == Err(FromPropertyDefinitions(str).error) && services == old(services)
      ensures FromPropertyDefinitions(str).Ok? ==>
        r == Ok(()) && services.Some? && |services.value| == |FromPropertyDefinitions(str).value| &&
        forall j :: 0 <= j < |services.value| ==> Describes(services.value[j], FromPropertyDefinitions(str).value[j])
    {
      var loaded := Service.FromProperty(str);
      if loaded.Err? {
        return Err(loaded.error);
      }
      services := Some(loaded.value);
      return Ok(());
    }

    /**
     * pollServiceEndpoints: the endpoints of every registered service, in
     * order, are probed and set ACTIVE or SUSPENDED by the outcome; an
     * unset registry is a null dereference. A port out of range makes the
     * socket address throw before the probe: the exception escapes the
     * IOException handler and ends the round, the endpoints visited before
     * keeping their new status and the rest their old one.
     */
    method PollServiceEndpoints(probe: (string, int32) -> bool) returns (r: Result<(), Exception>, ghost stop: nat)
      modifies if services.Some? then set e | e in PollOrder(services.value) else {}
      ensures services.None? ==> r == Err(NullPointer)
      ensures services.Some? ==>
        (r.Ok? <==> forall k :: 0 <= k < |PollOrder(services.value)| ==> ValidPort(PollOrder(services.value)[k].port))
      ensures services.Some? && r.Ok? ==> forall e :: e in PollOrder(services.value) ==> Probed(e, probe)
      ensures services.Some? && r.Err? ==>
        var ss := services.value;
        var order := PollOrder(ss);
        FirstBadPort(order, stop) && r == Err(PortOutOfRange(order[stop].port)) &&
        (forall e :: e in order[..stop] ==> Probed(e, probe)) &&
        (forall j, e :: 0 <= j < |ss| && e in old(ss[j].endpoints.items) && e !in order[..stop] ==>
           e.status == old(e.status))
    {
      if services.None? {
        return Err(NullPointer), 0;
      }
      var ss := services.value;
      ghost var order := PollOrder(ss);
      forall e | e in order
        ensures old(allocated(e))
      {
        PollOrderFrom(ss, e);
        var j :| 0 <= j < |ss| && e in ss[j].endpoints.items;
        assert e in old(ss[j].endpoints.items);
      }
      r, stop := PollServices(ss, order, probe);
      if r.Err? {
        forall j, e | 0 <= j < |ss| && e in old(ss[j].endpoints.items) && e !in order[..stop]
          ensures e.status == old(e.status)
        {
          PollOrderHas(ss, j, e);
        }
      }
    }
  }

  /**
   * The loops of pollServiceEndpoints over a list of services, visiting
   * their endpoints in `order`: all are probed, or the round ends at the
   * first port out of range.
   */
  method PollServices(ss: seq<Service>, ghost order: seq<Endpoint>, probe: (string, int32) -> bool)
    returns (r: Result<(), Exception>, ghost stop: nat)
    requires order == PollOrder(ss)
    modifies set e | e in order
    ensures r.Ok? <==> forall k :: 0 <= k < |order| ==> ValidPort(order[k].port)
    ensures r.Ok? ==> forall e :: e in order ==> Probed(e, probe)
    ensures r.Err? ==>
      FirstBadPort(order, stop) && r == Err(PortOutOfRange(order[stop].port)) &&
      (forall e :: e in order[..stop] ==> Probed(e, probe)) &&
      (forall e :: e in order && e !in order[..stop] ==> e.status == old(e.status))
  {
    // The visiting order is fixed, and the probing is done by the step: the lemmas and the
    // step's contract carry what is needed of these definitions.
    hide PollOrder, Probed, FirstBadPort, PortOutOfRange;
    ghost var done: seq<Endpoint> := [];
    for i := 0 to |ss|
      invariant order == done + PollOrder(ss[i..])
      invariant forall k :: 0 <= k < |done| ==> ValidPort(done[k].port)
      invariant forall e :: e in done ==> Probed(e, probe)
      invariant forall e :: e in order && e !in done ==> e.status == old(e.status)
    {
      var es := ss[i].endpoints.items;
      ghost var rest := PollOrder(ss[i + 1..]);
      PollOrderStep(ss, i);
      assert order == done + es + rest;
      label BeforeProbe:
      var probed, k := PollStep(es, probe, done);
      if probed.Err? {
        BadPortInOrder(done, es, rest, k);
        var at := |done| + k;
        forall e | e in order && e !in order[..at]
          ensures e.status == old(e.status)
        {
          assert e !in done && e !in es[..k];
          assert e.status == old@BeforeProbe(e.status);
        }
        return probed, at;
      }
      done := done + es;
    }
    PollOrderEnd(ss);
    return Ok(()), 0;
  }

  /**
   * One service's turn in the round: its endpoints are probed up to the
   * first port out of range, and the endpoints visited before stay probed.
   */
  method PollStep(es: seq<Endpoint>, probe: (string, int32) -> bool, ghost done: seq<Endpoint>)
    returns (r: Result<(), Exception>, ghost stop: nat)
    requires forall e :: e in done ==> Probed(e, probe)
    modifies set e | e in es
    ensures r.Ok? <==> forall k :: 0 <= k < |es| ==> ValidPort(es[k].port)
    ensures r.Ok? ==> forall e :: e in done + es ==> Probed(e, probe)
    ensures r.Err? ==>
      FirstBadPort(es, stop) && r == Err(PortOutOfRange(es[stop].port)) &&
      (forall e :: e in done + es[..stop] ==> Probed(e, probe)) &&
      (forall e :: e in es && e !in es[..stop] ==> e.status == old(e.status))
  {
    r, stop := ProbeEndpoints(es, probe);
    forall e | e in done && e !in (if r.Ok? then es else es[..stop])
      ensures Probed(e, probe)
    {
      assert e.status == old(e.status);
    }
  }

  /** Each endpoint visited belongs to one of the services. */
  lemma {:induction false} PollOrderFrom(ss: seq<Service>, e: Endpoint)
    requires e in PollOrder(ss)
    ensures exists j :: 0 <= j < |ss| && e in ss[j].endpoints.items
  {
    if e !in ss[0].endpoints.items {
      PollOrderFrom(ss[1..], e);
      var j :| 0 <= j < |ss| - 1 && e in ss[1..][j].endpoints.items;
      assert ss[1..][j] == ss[j + 1];
    }
  }

  /** Every endpoint of every service is visited. */
  lemma {:induction false} PollOrderHas(ss: seq<Service>, j: nat, e: Endpoint)
    requires j < |ss| && e in ss[j].endpoints.items
    ensures e in PollOrder(ss)
  {
    if j > 0 {
      PollOrderHas(ss[1..], j - 1, e);
    }
  }

  lemma PollOrderEnd(ss: seq<Service>)
    ensures PollOrder(ss[|ss|..]) == []
  {
    assert ss[|ss|..] == [];
  }

  /** The services from i on visit the endpoints of service i first, then those of the rest. */
  lemma PollOrderStep(ss: seq<Service>, i: nat)
    requires i < |ss|
    ensures PollOrder(ss[i..]) == ss[i].endpoints.items + PollOrder(ss[i + 1..])
  {
    assert ss[i..][1..] == ss[i + 1..];
  }

  /** A bad port at k in one service's endpoints is the first bad port of the whole order when none came before. */
  lemma BadPortInOrder(done: seq<Endpoint>, es: seq<Endpoint>, rest: seq<Endpoint>, k: nat)
    requires forall j :: 0 <= j < |done| ==> ValidPort(done[j].port)
    requires FirstBadPort(es, k)
    ensures FirstBadPort(done + es + rest, |done| + k) && !ValidPort((done + es + rest)[|done| + k].port)
    ensures (done + es + rest)[..|done| + k] == done + es[..k]
    ensures (done + es + rest)[|done| + k] == es[k]
  {
    var order := done + es + rest;
    forall j | 0 <= j < |done| + k
      ensures ValidPort(order[j].port)
    {
      if j >= |done| {
        assert order[j] == es[j - |done|];
      }
    }
    assert order[..|done| + k] == done + es[..k];
  }

  /**
   * The inner loop of pollServiceEndpoints: each endpoint of one list, in
   * order, is probed and marked, until one has a port out of range.
   */
  method ProbeEndpoints(es: seq<Endpoint>, probe: (string, int32) -> bool) returns (r: Result<(), Exception>, ghost stop: nat)
    modifies set e | e in es
    ensures r.Ok? <==> forall k :: 0 <= k < |es| ==> ValidPort(es[k].port)
    ensures r.Ok? ==> forall e :: e in es ==> Probed(e, probe)
    ensures r.Err? ==>
      FirstBadPort(es, stop) && r == Err(PortOutOfRange(es[stop].port)) &&
      (forall e :: e in es[..stop] ==> Probed(e, probe)) &&
      (forall e :: e in es && e !in es[..stop] ==> e.status == old(e.status))
  {
    for k := 0 to |es|
      invariant forall j :: 0 <= j < k ==> ValidPort(es[j].port)
      invariant forall e :: e in es[..k] ==> Probed(e, probe)
      invariant forall e :: e in es && e !in es[..k] ==> e.status == old(e.status)
    {
      var endpoint := es[k];
      if !ValidPort(endpoint.port) {
        assert FirstBadPort(es, k);
        return Err(PortOutOfRange(endpoint.port)), k;
      }
      var up := probe(endpoint.ip, endpoint.port);
      if up {
        endpoint.SetStatus(Active);
      } else {
        endpoint.SetStatus(Suspended);
      }
      assert es[..k + 1] == es[..k] + [endpoint];
    }
    assert es[..|es|] == es;
    return Ok(()), 0;
  }

  /**
   * A registry loaded from definitions with distinct domains: a request
   * whose Host header is one definition's domain reaches the service built
   * from that definition.
   */
  lemma LoadedDomainFound(ss: seq<Service>, ds: seq<ServiceDef>, req: Request, i: int)
    requires |ss| == |ds| && forall j :: 0 <= j < |ss| ==> ss[j].domain == ds[j].domain
    requires forall j :: 0 <= j < |ds| ==> IsTrimmed(ds[j].domain)
    requires forall j, k :: 0 <= j < k < |ds| ==> !EqualsIgnoreCase(ds[j].domain, ds[k].domain)
    requires 0 <= i < |ds| && req.headers.Some? && GetHostHeader(req) == Some(ds[i].domain)
    ensures Discover(Some(ss), Some(req)) == Ok(ss[i])
  {
    forall j | 0 <= j < |ss|
      ensures Trim(ss[j].domain) == ds[j].domain
    {
      TrimOfTrimmed(ds[j].domain);
    }
    DistinctDomainsFound(ss, req, i);
  }
}
