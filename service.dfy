/**
 * A service: a name, the domain it answers for, a balancing strategy, the
 * endpoint list it owns and the balancer that shares that list. Also the
 * textual service definitions the proxy is configured with:
 *   NAME,DOMAIN,STRATEGY,HOST:PORT[,HOST:PORT...]
 * several of them separated by ';'.
 */
module Services {
  import opened Wrappers
  import opened Exceptions
  import opened JavaLang
  import opened Enums
  import opened Messages
  import opened Endpoints
  import opened LoadBalancing
  import Seqs

  /** What one definition describes: the service fields and the endpoint addresses in order. */
  datatype ServiceDef = ServiceDef(name: string, domain: string, strategy: LoadBalanceStrategy, addresses: seq<(string, int32)>)

  // ------------------------------------------------ definition parsing

  /**
   * The endpoint fields of a definition, left to right: blank fields are
   * skipped, every other field must parse as HOST:PORT, and the first
   * field that does not parse decides the error.
   */
  function ParseEndpoints(fields: seq<string>): (r: Result<seq<(string, int32)>, Exception>)
    ensures r.Ok? ==> |r.value| <= |fields|
  {
    if fields == [] then Ok([])
    else
      match ParseEndpoints(fields[..|fields| - 1])
      case Err(e) => Err(e)
      case Ok(prefix) =>
        var field := fields[|fields| - 1];
        if IsBlank(field) then Ok(prefix)
        else
          match ParseAddress(field)
          case Err(e) => Err(e)
          case Ok(address) => Ok(prefix + [address])
  }

  /** Once a field fails, the fields after it change nothing. */
  lemma {:induction false} ParseEndpointsKeepsError(fields: seq<string>, k: nat)
    requires k <= |fields| && ParseEndpoints(fields[..k]).Err?
    ensures ParseEndpoints(fields) == ParseEndpoints(fields[..k])
  {
    if k == |fields| {
      assert fields[..k] == fields;
    } else {
      var init := fields[..|fields| - 1];
      assert init[..k] == fields[..k];
      ParseEndpointsKeepsError(init, k);
    }
  }


  /** The text of the error for a definition with fewer than four fields. */
  function InvalidDefinition(str: string): Exception {
    InvalidServiceDefinition("Invalid service property: " + str)
  }

  /**
   * Service.parse: at least four comma-separated fields; name, domain and
   * strategy are trimmed, the strategy is upper-cased and must name a
   * strategy, and the remaining fields are the endpoints.
   */
  function ParseDefinition(str: string): (r: Result<ServiceDef, Exception>)
    ensures |Split(str, ',')| < 4 ==> r == Err(InvalidDefinition(str))
    ensures r.Ok? ==> IsTrimmed(r.value.name) && IsTrimmed(r.value.domain)
  {
    var props := Split(str, ',');
    if |props| < 4 then Err(InvalidDefinition(str))
    else
      match StrategyValueOf(ToUpper(Trim(props[2])))
      case Err(e) => Err(e)
      case Ok(strategy) =>
        match ParseEndpoints(props[3..])
        case Err(e) => Err(e)
        case Ok(addresses) => Ok(ServiceDef(Trim(props[0]), Trim(props[1]), strategy, addresses))
  }

  /** The strategy field is read without regard to case or surrounding blanks. */
  lemma StrategyFieldAnyCase(field: string, s: LoadBalanceStrategy)
    requires EqualsIgnoreCase(Trim(field), StrategyName(s))
    ensures StrategyValueOf(ToUpper(Trim(field))) == Ok(s)
  {
    hide Trim, ToUpper;
    var t := Trim(field);
    var u := ToUpper(t);
    var n := StrategyName(s);
    forall i | 0 <= i < |u|
      ensures u[i] == n[i]
    {
      assert ToLowerChar(u[i]) == ToLowerChar(t[i]) == ToLowerChar(n[i]);
    }
    assert u == n;
    StrategyNameRoundTrip(s);
  }

  /**
   * Service.fromProperty: the ';'-separated definitions, left to right,
   * blank ones skipped; the first definition that fails decides the error.
   */
  function ParseDefinitions(pieces: seq<string>): (r: Result<seq<ServiceDef>, Exception>)
    ensures r.Ok? ==> |r.value| <= |pieces|
  {
    if pieces == [] then Ok([])
    else
      match ParseDefinitions(pieces[..|pieces| - 1])
      case Err(e) => Err(e)
      case Ok(prefix) =>
        var piece := pieces[|pieces| - 1];
        if IsBlank(piece) then Ok(prefix)
        else
          match ParseDefinition(piece)
          case Err(e) => Err(e)
          case Ok(d) => Ok(prefix + [d])
  }

  lemma {:induction false} ParseDefinitionsKeepsError(pieces: seq<string>, k: nat)
    requires k <= |pieces| && ParseDefinitions(pieces[..k]).Err?
    ensures ParseDefinitions(pieces) == ParseDefinitions(pieces[..k])
  {
    if k == |pieces| {
      assert pieces[..k] == pieces;
    } else {
      var init := pieces[..|pieces| - 1];
      assert init[..k] == pieces[..k];
      ParseDefinitionsKeepsError(init, k);
    }
  }


  function FromPropertyDefinitions(prop: string): Result<seq<ServiceDef>, Exception> {
    ParseDefinitions(Split(prop, ';'))
  }

  // ------------------------------------------------ writing definitions

  function Addresses(addresses: seq<(string, int32)>): (r: seq<string>)
    ensures |r| == |addresses|
    ensures forall i :: 0 <= i < |r| ==> r[i] == Address(addresses[i].0, addresses[i].1)
  {
    seq(|addresses|, i requires 0 <= i < |addresses| => Address(addresses[i].0, addresses[i].1))
  }

  /** The definition text of a service, in the configuration format. */
  function Format(d: ServiceDef): string {
    Join(FormatFields(d), ',')
  }

  /** The fields of a definition text: name, domain, strategy name, then one HOST:PORT per endpoint. */
  function FormatFields(d: ServiceDef): (fs: seq<string>)
    ensures |fs| == 3 + |d.addresses|
  {
    [d.name, d.domain, StrategyName(d.strategy)] + Addresses(d.addresses)
  }

  /**
   * The definitions the configuration format can express: at least one
   * endpoint, trimmed name and domain without separators, and hosts free
   * of ',', ':' and ';'.
   */
  predicate Writable(d: ServiceDef) {
    |d.addresses| >= 1 &&
    IsTrimmed(d.name) && IsTrimmed(d.domain) &&
    ',' !in d.name && ';' !in d.name && ',' !in d.domain && ';' !in d.domain &&
    forall i :: 0 <= i < |d.addresses| ==>
      ',' !in d.addresses[i].0 && ':' !in d.addresses[i].0 && ';' !in d.addresses[i].0
  }

  /** A text holding a printable separator is not blank. */
  lemma NotBlank(s: string, c: char)
    requires c in s && c > ' '
    ensures !IsBlank(s)
  {
    TrimEmpty(s);
  }

  lemma StrategyNameTrimmed(s: LoadBalanceStrategy)
    ensures Trim(StrategyName(s)) == StrategyName(s)
    ensures ToUpper(StrategyName(s)) == StrategyName(s)
  {
    var n := StrategyName(s);
    assert IsTrimmed(n);
    TrimOfTrimmed(n);
    assert forall i :: 0 <= i < |n| ==> !('a' <= n[i] <= 'z');
    UpperOfUpper(n);
  }

  /** toUpperCase leaves a text without lower-case letters alone. */
  lemma {:induction false} UpperOfUpper(s: string)
    requires forall i :: 0 <= i < |s| ==> !('a' <= s[i] <= 'z')
    ensures ToUpper(s) == s
  {
    if s != [] {
      UpperOfUpper(s[1..]);
    }
  }

  lemma AddressFacts(ip: string, port: int32)
    requires ',' !in ip && ':' !in ip && ';' !in ip
    ensures ',' !in Address(ip, port) && ';' !in Address(ip, port)
    ensures ':' in Address(ip, port) && !IsBlank(Address(ip, port))
  {
    DecimalHasNoSeparators(port as int);
    assert Address(ip, port)[|ip|] == ':';
    NotBlank(Address(ip, port), ':');
  }

  /** The endpoint fields written for a list of addresses parse back as those addresses. */
  lemma {:induction false} ParseEndpointsOfAddresses(addresses: seq<(string, int32)>)
    requires forall i :: 0 <= i < |addresses| ==>
      ',' !in addresses[i].0 && ':' !in addresses[i].0 && ';' !in addresses[i].0
    ensures ParseEndpoints(Addresses(addresses)) == Ok(addresses)
  {
    if addresses != [] {
      var n := |addresses| - 1;
      assert Addresses(addresses)[..n] == Addresses(addresses[..n]);
      ParseEndpointsOfAddresses(addresses[..n]);
      AddressFacts(addresses[n].0, addresses[n].1);
      ParseAddressRoundTrip(addresses[n].0, addresses[n].1);
      Seqs.DropLast(addresses);
    }
  }

  /** The fields of a writable definition hold no separator, and the last one is not empty. */
  lemma FieldsFree(d: ServiceDef)
    requires Writable(d)
    ensures forall p :: p in FormatFields(d) ==> ',' !in p && ';' !in p
    ensures !IsBlank(FormatFields(d)[|FormatFields(d)| - 1])
  {
    hide Address, IsBlank, IsTrimmed, StrategyName;
    var fields := FormatFields(d);
    StrategyNameFree(d.strategy);
    forall i | 0 <= i < |fields|
      ensures ',' !in fields[i] && ';' !in fields[i]
    {
      if i >= 3 {
        assert fields[i] == Address(d.addresses[i - 3].0, d.addresses[i - 3].1);
        AddressFacts(d.addresses[i - 3].0, d.addresses[i - 3].1);
      }
    }
    var last := |d.addresses| - 1;
    assert fields[|fields| - 1] == Address(d.addresses[last].0, d.addresses[last].1);
    AddressFacts(d.addresses[last].0, d.addresses[last].1);
  }

  lemma StrategyNameFree(s: LoadBalanceStrategy)
    ensures ',' !in StrategyName(s) && ';' !in StrategyName(s)
  {
    match s
    case RoundRobin =>
    case Random =>
  }

  /** Splitting the text of a writable definition at ',' gives its fields back. */
  lemma FormatSplits(d: ServiceDef)
    requires Writable(d)
    ensures Split(Format(d), ',') == FormatFields(d)
  {
    FieldsFree(d);
    SplitJoin(FormatFields(d), ',');
  }

  /** Parsing the text of a writable definition gives the definition back. */
  lemma ParseFormat(d: ServiceDef)
    requires Writable(d)
    ensures ParseDefinition(Format(d)) == Ok(d)
  {
    var props := FormatFields(d);
    FormatSplits(d);
    assert props[0] == d.name && props[1] == d.domain && props[2] == StrategyName(d.strategy);
    assert props[3..] == Addresses(d.addresses);
    StrategyNameTrimmed(d.strategy);
    StrategyNameRoundTrip(d.strategy);
    TrimOfTrimmed(d.name);
    TrimOfTrimmed(d.domain);
    ParseEndpointsOfAddresses(d.addresses);
  }

  /** The configuration text of several definitions. */
  function FormatAll(ds: seq<ServiceDef>): string {
    Join(seq(|ds|, i requires 0 <= i < |ds| => Format(ds[i])), ';')
  }

  lemma FormatFacts(d: ServiceDef)
    requires Writable(d)
    ensures ';' !in Format(d) && ',' in Format(d) && !IsBlank(Format(d))
  {
    FieldsFree(d);
    JoinFree(FormatFields(d), ',', ';');
    NotBlank(Format(d), ',');
  }

  /** Joining pieces that lack a character, with another delimiter, keeps it out. */
  lemma {:induction false} JoinFree(ps: seq<string>, d: char, c: char)
    requires c != d && forall p :: p in ps ==> c !in p
    ensures c !in Join(ps, d)
  {
    if |ps| >= 2 {
      JoinFree(ps[1..], d, c);
    }
  }

  /** Parsing the text of writable definitions gives back all of them, in order. */
  lemma {:induction false} ParseFormatAll(ds: seq<ServiceDef>)
    requires forall i :: 0 <= i < |ds| ==> Writable(ds[i])
    ensures FromPropertyDefinitions(FormatAll(ds)) == Ok(ds)
  {
    var texts := seq(|ds|, i requires 0 <= i < |ds| => Format(ds[i]));
    if ds == [] {
      assert FormatAll(ds) == "";
      assert Split("", ';') == [""];
      assert IsBlank("");
      assert ParseDefinitions([""]) == Ok([]) by {
        assert [""][..0] == [];
      }
    } else {
      forall p | p in texts
        ensures ';' !in p
      {
        var i :| 0 <= i < |ds| && p == texts[i];
        FormatFacts(ds[i]);
      }
      FormatFacts(ds[|ds| - 1]);
      assert texts[|texts| - 1] == Format(ds[|ds| - 1]);
      SplitJoin(texts, ';');
      ParseTexts(ds, texts);
    }
  }

  lemma {:induction false} ParseTexts(ds: seq<ServiceDef>, texts: seq<string>)
    requires |texts| == |ds|
    requires forall i :: 0 <= i < |ds| ==> Writable(ds[i]) && texts[i] == Format(ds[i])
    ensures ParseDefinitions(texts) == Ok(ds)
  {
    if ds != [] {
      var n := |ds| - 1;
      ParseTexts(ds[..n], texts[..n]);
      FormatFacts(ds[n]);
      ParseFormat(ds[n]);
      Seqs.DropLast(ds);
    }
  }

  // ---------------------------------------------------------- services

  class Service {
    const name: string
    const domain: string
    const strategy: LoadBalanceStrategy
    /** The endpoint list, owned by the service and shared with its balancer. */
    const endpoints: EndpointList
    const balancer: Balancer

    /** The balancer works on this service's own list and follows its strategy. */
    predicate Valid() {
      balancer.endpoints == endpoints && balancer.strategy == strategy
    }

    /**
     * Service(name, domain, strategy): a new empty endpoint list, and
     * initBalancer's choice of balancer, a round-robin one for ROUND_ROBIN
     * and a random one otherwise, over that same list.
     */
    constructor (name: string, domain: string, strategy: LoadBalanceStrategy)
      ensures this.name == name && this.domain == domain && this.strategy == strategy
      ensures fresh(endpoints) && endpoints.items == []
      ensures fresh(balancer) && balancer.current == 0
      ensures Valid()
    {
      this.name := name;
      this.domain := domain;
      this.strategy := strategy;
      var list := new EndpointList();
      endpoints := list;
      balancer := new Balancer(strategy, list);
    }

    /** processRequest: the balancer decides; its outcome is the service's. */
    method ProcessRequest(request: Option<Request>, execute: Transport)
      returns (r: Result<Option<Response>, Exception>, ghost tried: seq<Endpoint>)
      requires Valid()
      modifies balancer`current, endpoints.items
      ensures endpoints.items == old(endpoints.items)
      ensures request.None? ==> r == Ok(None) && Statuses(endpoints.items) == old(Statuses(endpoints.items))
      ensures request.Some? ==>
        Settled(old(Statuses(endpoints.items)), Statuses(endpoints.items), Answers(execute, request.value, endpoints.items))
      ensures request.Some? && r.Ok? ==>
        Served(Statuses(endpoints.items), Answers(execute, request.value, endpoints.items), r.value)
      ensures request.Some? && r.Err? ==>
        r.error == NoAvailableEndpoints &&
        Exhausted(old(Statuses(endpoints.items)), Statuses(endpoints.items), Answers(execute, request.value, endpoints.items))
      ensures request.Some? ==>
        (r.Err? <==> AllCandidatesFail(old(Statuses(endpoints.items)), Answers(execute, request.value, endpoints.items)))
      ensures request.Some? ==>
        TriedInOrder(endpoints.items, old(Statuses(endpoints.items)), Statuses(endpoints.items),
                     Answers(execute, request.value, endpoints.items), tried, r)
      ensures request.Some? && strategy == RoundRobin ==>
        var cs := old(Candidates(endpoints.items));
        cs != [] ==> |tried| > 0 && tried[0] == cs[Pick(old(balancer.current), |cs|)]
    {
      r, tried := balancer.Balance(request, execute);
    }

    /**
     * equals: the same object, or another service with the same name and
     * domain ignoring case, the same strategy, as many endpoints, and each
     * of this service's endpoints equal to one of the other's.
     */
    predicate Equals(other: Service?): (r: bool)
      reads endpoints, endpoints.items
      reads if other != null then {other.endpoints} else {}
      reads if other != null then other.endpoints.items else []
      ensures other == this ==> r
      ensures r ==>
        other != null && EqualsIgnoreCase(name, other.name) && EqualsIgnoreCase(domain, other.domain) &&
        other.strategy == strategy && |other.endpoints.items| == |endpoints.items|
      ensures r ==> ContainsAll(other.endpoints.items, endpoints.items)
    {
      other != null &&
      (other == this ||
       (EqualsIgnoreCase(other.name, name) && EqualsIgnoreCase(other.domain, domain) &&
        other.strategy == strategy &&
        |other.endpoints.items| == |endpoints.items| &&
        ContainsAll(other.endpoints.items, endpoints.items)))
    }

    /** parse: a new service, with a new list of new endpoints, for each text that parses. */
    static method Parse(str: string) returns (r: Result<Service, Exception>)
      ensures match ParseDefinition(str)
        case Err(e) => r == Err(e)
        case Ok(d) => r.Ok? && Describes(r.value, d)
      ensures r.Ok? ==> fresh(r.value) && fresh(r.value.endpoints) && fresh(r.value.balancer) && r.value.balancer.current == 0
    {
      var props := Split(str, ',');
      if |props| < 4 {
        return Err(InvalidDefinition(str));
      }
      var name := Trim(props[0]);
      var domain := Trim(props[1]);
      var strategy := StrategyValueOf(ToUpper(Trim(props[2])));
      if strategy.Err? {
        return Err(strategy.error);
      }
      var ret := new Service(name, domain, strategy.value);
      var added := AddEndpoints(ret.endpoints, props[3..]);
      if added.Err? {
        return Err(added.error);
      }
      return Ok(ret);
    }

    /**
     * The endpoint loop of parse: each non-blank field, in order, becomes
     * a new PENDING endpoint appended to the list; the first field that
     * does not parse stops the loop with its error.
     */
    static method AddEndpoints(list: EndpointList, fields: seq<string>) returns (r: Result<(), Exception>)
      modifies list
      ensures match ParseEndpoints(fields)
        case Err(e) => r == Err(e)
        case Ok(addresses) => r.Ok? && Extended(old(list.items), list.items, addresses)
    {
      assert ParseEndpoints(fields[..0]) == Ok([]) && HoldsAddresses([], []);
      // From here on the step lemmas carry the reasoning; the definitions are not needed.
      hide ParseEndpoints, ParseAddress, IsBlank, HoldsAddresses, Extended;
      ghost var start := list.items;
      ghost var added: seq<Endpoint> := [];
      ghost var addresses: seq<(string, int32)> := [];
      for k := 0 to |fields|
        invariant ParseEndpoints(fields[..k]) == Ok(addresses)
        invariant list.items == start + added
        invariant HoldsAddresses(added, addresses)
      {
        EndpointStep(fields, k, addresses);
        var endpoint := fields[k];
        if IsBlank(endpoint) {
          continue;
        }
        var address := ParseAddress(endpoint);
        if address.Err? {
          return Err(address.error);
        }
        var e := new Endpoint(address.value.0, address.value.1);
        list.Add(e);
        Seqs.AppendAssoc(start, added, e);
        HoldsAddressesSnoc(added, addresses, e, address.value);
        added := added + [e];
        addresses := addresses + [address.value];
      }
      Seqs.TakeAll(fields);
      ExtendedBy(start, added, addresses);
      return Ok(());
    }

    /** fromProperty: one new service per non-blank definition, in order. */
    static method FromProperty(prop: string) returns (r: Result<seq<Service>, Exception>)
      ensures match FromPropertyDefinitions(prop)
        case Err(e) => r == Err(e)
        case Ok(ds) => r.Ok? && |r.value| == |ds| && forall j :: 0 <= j < |ds| ==> Describes(r.value[j], ds[j])
    {
      var pieces := Split(prop, ';');
      // Only the step lemma and parse's contract are needed below, not the parsing itself.
      hide ParseDefinition, Describes, Split, IsBlank;
      var ret: seq<Service> := [];
      ghost var defs: seq<ServiceDef> := [];
      for i := 0 to |pieces|
        invariant ParseDefinitions(pieces[..i]) == Ok(defs)
        invariant |ret| == |defs|
        invariant forall j :: 0 <= j < |ret| ==> Describes(ret[j], defs[j])
      {
        DefinitionStep(pieces, i, defs);
        var str := pieces[i];
        if IsBlank(str) {
          continue;
        }
        var s := Parse(str);
        if s.Err? {
          assert FromPropertyDefinitions(prop) == Err(s.error);
          return Err(s.error);
        }
        ret := ret + [s.value];
        defs := defs + [ParseDefinition(str).value];
      }
      Seqs.TakeAll(pieces);
      assert FromPropertyDefinitions(prop) == Ok(defs);
      return Ok(ret);
    }
  }

  /** One more endpoint field: skipped when blank, otherwise parsed; an error is final. */
  lemma EndpointStep(fields: seq<string>, k: nat, prefix: seq<(string, int32)>)
    requires k < |fields| && ParseEndpoints(fields[..k]) == Ok(prefix)
    ensures IsBlank(fields[k]) ==> ParseEndpoints(fields[..k + 1]) == Ok(prefix)
    ensures !IsBlank(fields[k]) && ParseAddress(fields[k]).Ok? ==>
      ParseEndpoints(fields[..k + 1]) == Ok(prefix + [ParseAddress(fields[k]).value])
    ensures !IsBlank(fields[k]) && ParseAddress(fields[k]).Err? ==>
      ParseEndpoints(fields) == Err(ParseAddress(fields[k]).error)
  {
    assert fields[..k + 1][..k] == fields[..k];
    assert fields[..k + 1][k] == fields[k];
    if !IsBlank(fields[k]) && ParseAddress(fields[k]).Err? {
      ParseEndpointsKeepsError(fields, k + 1);
    }
  }

  /** One more definition: skipped when blank, otherwise parsed; an error is final. */
  lemma DefinitionStep(pieces: seq<string>, i: nat, prefix: seq<ServiceDef>)
    requires i < |pieces| && ParseDefinitions(pieces[..i]) == Ok(prefix)
    ensures IsBlank(pieces[i]) ==> ParseDefinitions(pieces[..i + 1]) == Ok(prefix)
    ensures !IsBlank(pieces[i]) && ParseDefinition(pieces[i]).Ok? ==>
      ParseDefinitions(pieces[..i + 1]) == Ok(prefix + [ParseDefinition(pieces[i]).value])
    ensures !IsBlank(pieces[i]) && ParseDefinition(pieces[i]).Err? ==>
      ParseDefinitions(pieces) == Err(ParseDefinition(pieces[i]).error)
  {
    assert pieces[..i + 1][..i] == pieces[..i];
    assert pieces[..i + 1][i] == pieces[i];
    if !IsBlank(pieces[i]) && ParseDefinition(pieces[i]).Err? {
      ParseDefinitionsKeepsError(pieces, i + 1);
    }
  }

  /** List.contains: some element equals `e`, by Endpoint.equals. */
  predicate Contains(list: seq<Endpoint>, e: Endpoint): (r: bool)
    reads list, e
    ensures e in list ==> r
    ensures r ==> exists j :: (0 <= j < |list| &&
                               EqualsIgnoreCase(e.ip, list[j].ip) && list[j].port == e.port && list[j].status == e.status)
  {
    assert e in list ==> exists j :: 0 <= j < |list| && e.Equals(list[j]) by {
      if e in list {
        var j :| 0 <= j < |list| && list[j] == e;
        assert e.Equals(list[j]);
      }
    }
    exists j :: 0 <= j < |list| && e.Equals(list[j])
  }

  /** List.containsAll: each of `wanted` is contained in `list`. */
  predicate ContainsAll(list: seq<Endpoint>, wanted: seq<Endpoint>): (r: bool)
    reads list, wanted
    ensures (forall i :: 0 <= i < |wanted| ==> wanted[i] in list) ==> r
    ensures r ==> forall i :: 0 <= i < |wanted| ==>
      exists j :: (0 <= j < |list| && EqualsIgnoreCase(wanted[i].ip, list[j].ip) &&
                   list[j].port == wanted[i].port && list[j].status == wanted[i].status)
  {
    forall i :: 0 <= i < |wanted| ==> Contains(list, wanted[i])
  }

  /** The endpoints are, in order, new endpoints at the given addresses. */
  predicate HoldsAddresses(es: seq<Endpoint>, addresses: seq<(string, int32)>)
    reads es
  {
    |es| == |addresses| &&
    forall i :: 0 <= i < |es| ==> es[i].ip == addresses[i].0 && es[i].port == addresses[i].1 && es[i].status == Pending
  }

  /** The list `after` is `before` followed by new endpoints at the given addresses. */
  predicate Extended(before: seq<Endpoint>, after: seq<Endpoint>, addresses: seq<(string, int32)>)
    reads after
  {
    |after| >= |before| && after[..|before|] == before && HoldsAddresses(after[|before|..], addresses)
  }

  lemma ExtendedBy(before: seq<Endpoint>, added: seq<Endpoint>, addresses: seq<(string, int32)>)
    requires HoldsAddresses(added, addresses)
    ensures Extended(before, before + added, addresses)
  {
    Seqs.AppendDrop(before, added);
  }

  lemma HoldsAddressesSnoc(es: seq<Endpoint>, addresses: seq<(string, int32)>, e: Endpoint, address: (string, int32))
    requires HoldsAddresses(es, addresses)
    requires e.ip == address.0 && e.port == address.1 && e.status == Pending
    ensures HoldsAddresses(es + [e], addresses + [address])
  {
  }

  /** A service holds exactly what a definition describes, every endpoint still PENDING. */
  predicate Describes(s: Service, d: ServiceDef)
    reads s.endpoints, s.endpoints.items
  {
    s.Valid() && s.name == d.name && s.domain == d.domain && s.strategy == d.strategy &&
    HoldsAddresses(s.endpoints.items, d.addresses)
  }

  /** Services built from the same definition are equal. */
  lemma SameDefinitionEqual(a: Service, b: Service, d: ServiceDef)
    requires Describes(a, d) && Describes(b, d)
    ensures a.Equals(b)
  {
    EqualsIgnoreCaseReflexive(a.name);
    EqualsIgnoreCaseReflexive(a.domain);
    var xs, ys := a.endpoints.items, b.endpoints.items;
    forall i | 0 <= i < |xs|
      ensures Contains(ys, xs[i])
    {
      EqualsIgnoreCaseReflexive(xs[i].ip);
      assert xs[i].Equals(ys[i]);
    }
  }



}
