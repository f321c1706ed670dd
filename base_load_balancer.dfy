/**
 * The parallel copy of the load balancer in BaseLoadBalancer: the same
 * retry loop and candidate filter, with the choice of the next endpoint
 * left abstract. No class of the system extends it, so its next endpoint
 * is any candidate.
 */
module BaseBalancing {
  import opened Wrappers
  import opened Exceptions
  import opened Enums
  import opened Messages
  import opened Endpoints
  import opened LoadBalancing

  class BaseLoadBalancer {
    /** The endpoint list; the list constructor shares it by reference. */
    const endpoints: EndpointList

    /** BaseLoadBalancer(): a new, empty list. */
    constructor ()
      ensures fresh(endpoints) && endpoints.items == []
    {
      endpoints := new EndpointList();
    }

    /** BaseLoadBalancer(List): the given list itself, not a copy. */
    constructor WithList(endpoints: EndpointList)
      ensures this.endpoints == endpoints
    {
      this.endpoints := endpoints;
    }

    /** hasEndpointCandidate: true exactly when some endpoint is ACTIVE or PENDING. */
    method HasEndpointCandidate() returns (r: bool)
      ensures r <==> exists i :: 0 <= i < |endpoints.items| && IsCandidate(Statuses(endpoints.items)[i])
    {
      var es := endpoints.items;
      for k := 0 to |es|
        invariant forall i :: 0 <= i < k ==> !IsCandidate(Statuses(es)[i])
      {
        if es[k].status == Active || es[k].status == Pending {
          assert IsCandidate(Statuses(es)[k]);
          return true;
        }
      }
      return false;
    }

    /** getEndpointCandidates: the ACTIVE and PENDING endpoints, in list order. */
    method GetEndpointCandidates() returns (r: seq<Endpoint>)
      ensures r == Candidates(endpoints.items)
    {
      var es := endpoints.items;
      r := [];
      for k := 0 to |es|
        invariant r == Candidates(es[..k])
      {
        CandidatesSnoc(es, k);
        if es[k].status == Active || es[k].status == Pending {
          r := r + [es[k]];
        }
      }
      assert es[..|es|] == es;
    }

    /**
     * The abstract nextEndpoint: the strategy elects one of the current
     * candidates; balance calls it only when there is one.
     */
    method NextEndpoint() returns (e: Endpoint)
      requires Candidates(endpoints.items) != []
      ensures e in Candidates(endpoints.items)
    {
      var candidates := GetEndpointCandidates();
      var i :| 0 <= i < |candidates|;
      e := candidates[i];
    }

    /**
     * One round of balance: the next candidate is tried, marked ACTIVE if
     * it answers and SUSPENDED if it fails; no other endpoint changes.
     */
    method TryNext(req: Request, execute: Transport) returns (response: Option<Response>, endpoint: Endpoint, ghost at: nat)
      requires Candidates(endpoints.items) != []
      modifies endpoints.items
      ensures at < |endpoints.items| && endpoints.items[at] == endpoint
      ensures response == Answer(execute, req, endpoint)
      ensures endpoint.status == if response.Some? then Active else Suspended
      ensures forall i :: 0 <= i < |endpoints.items| && endpoints.items[i] == endpoint ==>
        IsCandidate(old(Statuses(endpoints.items))[i])
      ensures Statuses(endpoints.items) == Marked(old(Statuses(endpoints.items)), endpoints.items, endpoint, endpoint.status)
    {
      ghost var es := endpoints.items;
      ghost var before := Statuses(es);
      endpoint := NextEndpoint();
      CandidatesMembers(es, endpoint);
      at :| 0 <= at < |es| && es[at] == endpoint;
      response := execute(req, endpoint.ip, endpoint.port);
      if response.Some? {
        endpoint.SetStatus(Active);
      } else {
        endpoint.SetStatus(Suspended);
      }
      assert Statuses(es) == Marked(before, es, endpoint, endpoint.status);
    }

    /**
     * One pass of the loop in balance. With no candidate left it reports
     * that none is (`left` false) and changes nothing; otherwise it tries
     * the next candidate, the one at position k, which joins the tried ones.
     */
    method Round(req: Request, execute: Transport, ghost es: seq<Endpoint>, ghost was: seq<EndpointStatus>,
                 ghost tried: seq<Endpoint>)
      returns (left: bool, response: Option<Response>, ghost k: nat)
      requires endpoints.items == es && |was| == |es|
      requires OnlyFailuresSuspended(was, Statuses(es), Answers(execute, req, es))
      requires TriedInOrder(es, was, Statuses(es), Answers(execute, req, es), tried, Err(NoAvailableEndpoints))
      modifies es
      ensures left ==> k < |es|
      ensures !left ==>
        var answers := Answers(execute, req, es);
        response.None? && Statuses(es) == old(Statuses(es)) &&
        Settled(was, Statuses(es), answers) && Exhausted(was, Statuses(es), answers) && AllCandidatesFail(was, answers)
      ensures left && response.None? ==>
        var answers := Answers(execute, req, es);
        OnlyFailuresSuspended(was, Statuses(es), answers) &&
        TriedInOrder(es, was, Statuses(es), answers, tried + [es[k]], Err(NoAvailableEndpoints)) &&
        CountCandidates(Statuses(es)) < old(CountCandidates(Statuses(es)))
      ensures left && response.Some? ==>
        var answers := Answers(execute, req, es);
        Settled(was, Statuses(es), answers) && Served(Statuses(es), answers, response) &&
        !AllCandidatesFail(was, answers) && TriedInOrder(es, was, Statuses(es), answers, tried + [es[k]], Ok(response))
    {
      ghost var answers := Answers(execute, req, es);
      ghost var before := Statuses(es);
      var has := HasEndpointCandidate();
      if !has {
        NoCandidateLeft(was, before, answers);
        return false, None, 0;
      }
      ghost var i0 :| 0 <= i0 < |es| && IsCandidate(before[i0]);
      CandidatesMembers(es, es[i0]);
      var endpoint;
      response, endpoint, k := TryNext(req, execute);
      left := true;
      if response.Some? {
        SuccessStep(was, before, es, execute, req, k);
        TriedServes(es, was, before, execute, req, tried, k, NoAvailableEndpoints);
      } else {
        assert Statuses(es) == Marked(before, es, endpoint, endpoint.status);
        FailureStep(was, before, es, execute, req, k);
        TriedFails(es, was, before, execute, req, tried, k, NoAvailableEndpoints);
      }
    }

    /**
     * balance. A null request is answered with null and changes nothing.
     * Otherwise the candidates are tried one at a time (`tried`, in order):
     * each failure is SUSPENDED, the first success is ACTIVE and its
     * response is returned at once, and no endpoint that was not tried
     * changes. The exception is thrown only once no candidate is left, and
     * exactly when every candidate fails. The list itself is untouched.
     */
    method Balance(request: Option<Request>, execute: Transport) returns (r: Result<Option<Response>, Exception>, ghost tried: seq<Endpoint>)
      modifies endpoints.items
      ensures endpoints.items == old(endpoints.items)
      ensures request.None? ==>
        r == Ok(None) && Statuses(endpoints.items) == old(Statuses(endpoints.items))
      ensures request.Some? ==>
        Settled(old(Statuses(endpoints.items)), Statuses(endpoints.items), Answers(execute, request.value, endpoints.items))
      ensures request.Some? && r.Ok? ==>
        Served(Statuses(endpoints.items), Answers(execute, request.value, endpoints.items), r.value)
      ensures request.Some? && r.Err? ==>
        r.error == NoAvailableEndpoints &&
        Exhausted(old(Statuses(endpoints.items)), Statuses(endpoints.items), Answers(execute, request.value, endpoints.items))
      ensures request.Some? ==>
        (r.Err? <==> AllCandidatesFail(old(Statuses(endpoints.items)), Answers(execute, request.value, endpoints.items)))
      ensures request.Some? ==>
        TriedInOrder(endpoints.items, old(Statuses(endpoints.items)), Statuses(endpoints.items),
                     Answers(execute, request.value, endpoints.items), tried, r)
    {
      // Round and NothingTried state each outcome in these terms; their definitions are not needed here.
      hide Settled, Served, Exhausted, AllCandidatesFail, OnlyFailuresSuspended, TriedInOrder, Marked, Answer, Answers, Candidates, CountCandidates;
      tried := [];
      if request.None? {
        return Ok(None), tried;
      }
      var req := request.value;
      ghost var es := endpoints.items;
      ghost var was := Statuses(es);
      ghost var answers := Answers(execute, req, es);
      NothingTried(es, was, answers, NoAvailableEndpoints);
      while true
        invariant endpoints.items == es
        invariant OnlyFailuresSuspended(was, Statuses(es), answers)
        invariant TriedInOrder(es, was, Statuses(es), answers, tried, Err(NoAvailableEndpoints))
        decreases CountCandidates(Statuses(es))
      {
        var left, response, k := Round(req, execute, es, was, tried);
        if !left {
          return Err(NoAvailableEndpoints), tried;
        }
        if response.Some? {
          return Ok(response), tried + [es[k]];
        }
        tried := tried + [es[k]];
      }
    }
  }
}
