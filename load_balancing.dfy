/**
 * The load balancer of the abstractions package and its two strategies.
 * balance tries candidates (ACTIVE or PENDING endpoints) one after the
 * other: a success marks the endpoint ACTIVE and returns its response, a
 * failure marks it SUSPENDED and goes on, and when no candidate is left
 * NoAvailableEndpointsException is thrown. The round-robin strategy keeps
 * a cursor; the random strategy picks any candidate. The transport that
 * forwards a request to an endpoint is a parameter.
 */
module LoadBalancing {
  import opened Wrappers
  import opened Exceptions
  import opened JavaLang
  import opened Enums
  import opened Messages
  import opened Endpoints

  /**
   * HttpForwarder.execute: the response of the endpoint at (ip, port),
   * or None when the call throws.
   */
  type Transport = (Request, string, int32) -> Option<Response>

  /** What endpoint e answers to req, by the transport. */
  function Answer(execute: Transport, req: Request, e: Endpoint): Option<Response> {
    execute(req, e.ip, e.port)
  }

  /** The answer of each endpoint of a list, position by position. */
  function Answers(execute: Transport, req: Request, es: seq<Endpoint>): (r: seq<Option<Response>>)
    ensures |r| == |es| && forall i :: 0 <= i < |es| ==> r[i] == Answer(execute, req, es[i])
  {
    seq(|es|, i requires 0 <= i < |es| => Answer(execute, req, es[i]))
  }

  // ------------------------------------------------ outcomes of balance

  /** The statuses after endpoint e is set to s: every position holding e changes, no other. */
  function Marked(ss: seq<EndpointStatus>, es: seq<Endpoint>, e: Endpoint, s: EndpointStatus): (r: seq<EndpointStatus>)
    requires |ss| == |es|
    ensures |r| == |ss|
  {
    seq(|ss|, i requires 0 <= i < |ss| => if es[i] == e then s else ss[i])
  }

  /**
   * While balance runs, each endpoint keeps its status, or it was a
   * candidate, was tried, failed and is SUSPENDED.
   */
  predicate OnlyFailuresSuspended(was: seq<EndpointStatus>, now: seq<EndpointStatus>, answers: seq<Option<Response>>)
    requires |now| == |was| && |answers| == |was|
  {
    forall i :: 0 <= i < |was| ==>
      now[i] == was[i] || (IsCandidate(was[i]) && now[i] == Suspended && answers[i].None?)
  }

  /**
   * After balance, each endpoint kept its status or was a candidate and
   * was tried: SUSPENDED when it failed, ACTIVE when it answered. An
   * endpoint that was SUSPENDED or BLOCKED is never touched.
   */
  predicate Settled(was: seq<EndpointStatus>, now: seq<EndpointStatus>, answers: seq<Option<Response>>)
    requires |now| == |was| && |answers| == |was|
  {
    forall i :: 0 <= i < |was| ==>
      now[i] == was[i] ||
      (IsCandidate(was[i]) && ((now[i] == Suspended && answers[i].None?) || (now[i] == Active && answers[i].Some?)))
  }

  /** Every endpoint that was a candidate fails to answer. */
  predicate AllCandidatesFail(was: seq<EndpointStatus>, answers: seq<Option<Response>>)
    requires |answers| == |was|
  {
    forall i :: 0 <= i < |was| && IsCandidate(was[i]) ==> answers[i].None?
  }

  /** A response served after a settled run is the answer of an endpoint that was a candidate. */
  lemma ServedByCandidate(was: seq<EndpointStatus>, now: seq<EndpointStatus>, answers: seq<Option<Response>>, resp: Option<Response>)
    requires |now| == |was| && |answers| == |was|
    requires Settled(was, now, answers) && Served(now, answers, resp)
    ensures exists i :: 0 <= i < |was| && IsCandidate(was[i]) && answers[i] == resp
  {
    var i :| 0 <= i < |now| && now[i] == Active && answers[i] == resp;
    assert IsCandidate(was[i]);
  }

  /** When every candidate fails, no settled run can serve a response. */
  lemma NothingServedWhenAllFail(was: seq<EndpointStatus>, now: seq<EndpointStatus>, answers: seq<Option<Response>>, resp: Option<Response>)
    requires |now| == |was| && |answers| == |was|
    requires Settled(was, now, answers) && AllCandidatesFail(was, answers)
    ensures !Served(now, answers, resp)
  {
    if Served(now, answers, resp) {
      ServedByCandidate(was, now, answers, resp);
    }
  }

  /** The response came from an endpoint that is now ACTIVE. */
  predicate Served(now: seq<EndpointStatus>, answers: seq<Option<Response>>, resp: Option<Response>)
    requires |answers| == |now|
  {
    resp.Some? && exists i :: 0 <= i < |now| && now[i] == Active && answers[i] == resp
  }

  /** No candidate is left, and every endpoint that was one failed. */
  predicate Exhausted(was: seq<EndpointStatus>, now: seq<EndpointStatus>, answers: seq<Option<Response>>)
    requires |now| == |was| && |answers| == |was|
  {
    forall i :: 0 <= i < |was| ==> !IsCandidate(now[i]) && (IsCandidate(was[i]) ==> answers[i].None?)
  }

  /**
   * The endpoints balance tried, in order: each stands in the list and is
   * tried once, each was a candidate, and every endpoint that was not
   * tried keeps its status.
   */
  predicate Attempted(es: seq<Endpoint>, was: seq<EndpointStatus>, now: seq<EndpointStatus>, tried: seq<Endpoint>)
    requires |was| == |es| && |now| == |es|
  {
    (forall j :: 0 <= j < |tried| ==> tried[j] in es) &&
    (forall j1, j2 :: 0 <= j1 < j2 < |tried| ==> tried[j1] != tried[j2]) &&
    (forall i :: 0 <= i < |es| && es[i] in tried ==> IsCandidate(was[i])) &&
    (forall i :: 0 <= i < |es| && es[i] !in tried ==> now[i] == was[i])
  }

  /** Every endpoint of fs failed to answer and is SUSPENDED, wherever it stands in the list. */
  predicate FailedAll(es: seq<Endpoint>, now: seq<EndpointStatus>, answers: seq<Option<Response>>, fs: seq<Endpoint>)
    requires |now| == |es| && |answers| == |es|
  {
    forall i :: 0 <= i < |es| && es[i] in fs ==> now[i] == Suspended && answers[i].None?
  }

  /** Endpoint e answered resp and is ACTIVE, wherever it stands in the list. */
  predicate ServedBy(es: seq<Endpoint>, now: seq<EndpointStatus>, answers: seq<Option<Response>>, e: Endpoint, resp: Option<Response>)
    requires |now| == |es| && |answers| == |es|
  {
    e in es && resp.Some? && forall i :: 0 <= i < |es| && es[i] == e ==> now[i] == Active && answers[i] == resp
  }

  /**
   * The run of balance that tried the endpoints of `tried`, in this order:
   * on the exception every one of them failed and is SUSPENDED; on a
   * response all but the last failed and are SUSPENDED, and the last one
   * served the response and is ACTIVE. Nothing else changed.
   */
  predicate TriedInOrder(es: seq<Endpoint>, was: seq<EndpointStatus>, now: seq<EndpointStatus>,
                         answers: seq<Option<Response>>, tried: seq<Endpoint>, r: Result<Option<Response>, Exception>)
    requires |was| == |es| && |now| == |es| && |answers| == |es|
  {
    Attempted(es, was, now, tried) &&
    (r.Err? ==> FailedAll(es, now, answers, tried)) &&
    (r.Ok? ==> |tried| > 0 && FailedAll(es, now, answers, tried[..|tried| - 1]) &&
               ServedBy(es, now, answers, tried[|tried| - 1], r.value))
  }

  /** Before the first try nothing has been tried and nothing has changed. */
  lemma NothingTried(es: seq<Endpoint>, was: seq<EndpointStatus>, answers: seq<Option<Response>>, e: Exception)
    requires |was| == |es| && |answers| == |es|
    ensures TriedInOrder(es, was, was, answers, [], Err(e))
    ensures OnlyFailuresSuspended(was, was, answers)
  {
  }

  /**
   * A failed try of a candidate extends the tried endpoints by it: it was
   * not tried before, since the tried ones are SUSPENDED.
   */
  lemma {:induction false} TriedFails(es: seq<Endpoint>, was: seq<EndpointStatus>, before: seq<EndpointStatus>,
                    execute: Transport, req: Request, tried: seq<Endpoint>, k: nat, e: Exception)
    requires |was| == |es| && |before| == |es| && k < |es|
    requires TriedInOrder(es, was, before, Answers(execute, req, es), tried, Err(e))
    requires forall i :: 0 <= i < |es| && es[i] == es[k] ==> IsCandidate(before[i])
    requires Answer(execute, req, es[k]).None?
    ensures TriedInOrder(es, was, Marked(before, es, es[k], Suspended), Answers(execute, req, es), tried + [es[k]], Err(e))
  {
    var now, answers, tried' := Marked(before, es, es[k], Suspended), Answers(execute, req, es), tried + [es[k]];
    assert es[k] !in tried by {
      assert IsCandidate(before[k]);
    }
    forall i | 0 <= i < |es|
      ensures es[i] in tried' <==> es[i] in tried || es[i] == es[k]
    {
    }
    forall i | 0 <= i < |es| && es[i] in tried'
      ensures IsCandidate(was[i]) && now[i] == Suspended && answers[i].None?
    {
      if es[i] !in tried {
        assert before[i] == was[i];
      }
    }
  }

  /**
   * A successful try of a candidate extends the tried endpoints by it: the
   * ones before it failed, and it served the response.
   */
  lemma {:induction false} TriedServes(es: seq<Endpoint>, was: seq<EndpointStatus>, before: seq<EndpointStatus>,
                    execute: Transport, req: Request, tried: seq<Endpoint>, k: nat, e: Exception)
    requires |was| == |es| && |before| == |es| && k < |es|
    requires TriedInOrder(es, was, before, Answers(execute, req, es), tried, Err(e))
    requires forall i :: 0 <= i < |es| && es[i] == es[k] ==> IsCandidate(before[i])
    requires Answer(execute, req, es[k]).Some?
    ensures TriedInOrder(es, was, Marked(before, es, es[k], Active), Answers(execute, req, es), tried + [es[k]],
                         Ok(Answer(execute, req, es[k])))
  {
    var now, answers, tried' := Marked(before, es, es[k], Active), Answers(execute, req, es), tried + [es[k]];
    assert es[k] !in tried by {
      assert IsCandidate(before[k]);
    }
    assert tried'[..|tried'| - 1] == tried;
    forall i | 0 <= i < |es|
      ensures es[i] in tried' <==> es[i] in tried || es[i] == es[k]
    {
    }
    forall i | 0 <= i < |es| && es[i] in tried'
      ensures IsCandidate(was[i])
    {
      if es[i] !in tried {
        assert before[i] == was[i];
      }
    }
  }

  /**
   * A failed try: the endpoint tried, a candidate wherever it stands in
   * the list, is SUSPENDED there; only failures stay marked, and the
   * number of candidates drops.
   */
  lemma {:induction false} FailureStep(was: seq<EndpointStatus>, before: seq<EndpointStatus>, es: seq<Endpoint>,
                    execute: Transport, req: Request, k: nat)
    requires |was| == |es| && |before| == |es| && k < |es|
    requires OnlyFailuresSuspended(was, before, Answers(execute, req, es))
    requires forall i :: 0 <= i < |es| && es[i] == es[k] ==> IsCandidate(before[i])
    requires Answer(execute, req, es[k]).None?
    ensures OnlyFailuresSuspended(was, Marked(before, es, es[k], Suspended), Answers(execute, req, es))
    ensures CountCandidates(Marked(before, es, es[k], Suspended)) < CountCandidates(before)
  {
    CountDrops(before, Marked(before, es, es[k], Suspended), k);
  }

  /** A successful try: the endpoint that answered is ACTIVE, and the outcome is settled and served. */
  lemma {:induction false} SuccessStep(was: seq<EndpointStatus>, before: seq<EndpointStatus>, es: seq<Endpoint>,
                    execute: Transport, req: Request, k: nat)
    requires |was| == |es| && |before| == |es| && k < |es|
    requires OnlyFailuresSuspended(was, before, Answers(execute, req, es))
    requires forall i :: 0 <= i < |es| && es[i] == es[k] ==> IsCandidate(before[i])
    requires Answer(execute, req, es[k]).Some?
    ensures Settled(was, Marked(before, es, es[k], Active), Answers(execute, req, es))
    ensures Served(Marked(before, es, es[k], Active), Answers(execute, req, es), Answer(execute, req, es[k]))
    ensures !AllCandidatesFail(was, Answers(execute, req, es))
  {
    assert Marked(before, es, es[k], Active)[k] == Active;
    assert IsCandidate(was[k]) && Answers(execute, req, es)[k].Some?;
  }

  /** With no candidate left, the outcome is settled and exhausted. */
  lemma {:induction false} NoCandidateLeft(was: seq<EndpointStatus>, now: seq<EndpointStatus>, answers: seq<Option<Response>>)
    requires |now| == |was| && |answers| == |was|
    requires OnlyFailuresSuspended(was, now, answers)
    requires forall i :: 0 <= i < |now| ==> !IsCandidate(now[i])
    ensures Settled(was, now, answers) && Exhausted(was, now, answers) && AllCandidatesFail(was, answers)
  {
  }

  // -------------------------------------------------- round-robin cursor

  /** The index the cursor selects among n candidates: it wraps to 0 once it reaches n. */
  function Pick(current: nat, n: nat): (i: nat)
    ensures n >= 1 ==> i < n
  {
    if current >= n then 0 else current
  }

  /** The indices k consecutive round-robin calls select over a stable pool of n candidates. */
  function Picks(current: nat, n: nat, k: nat): (r: seq<nat>)
    ensures |r| == k
    decreases k
  {
    if k == 0 then [] else [Pick(current, n)] + Picks(Pick(current, n) + 1, n, k - 1)
  }

  /** Where the cursor stands after k calls over a stable pool of n candidates. */
  function Cursor(current: nat, n: nat, k: nat): nat
    decreases k
  {
    if k == 0 then current else Cursor(Pick(current, n) + 1, n, k - 1)
  }

  /** Call j selects the index at the cursor left by the calls before it. */
  lemma {:induction false} PicksAtCursor(current: nat, n: nat, k: nat, j: nat)
    requires j < k
    ensures Picks(current, n, k)[j] == Pick(Cursor(current, n, j), n)
    decreases j
  {
    if j > 0 {
      PicksAtCursor(Pick(current, n) + 1, n, k - 1, j - 1);
    }
  }

  /**
   * Within one lap the cursor moves on one place per call from the first
   * selected index p, passing from the end of the pool back to its start.
   */
  lemma {:induction false} CursorInLap(current: nat, n: nat, j: nat)
    requires 1 <= j <= n
    ensures var p := Pick(current, n);
      Cursor(current, n, j) == if p + j <= n then p + j else p + j - n
    decreases j
  {
    if j > 1 {
      CursorInLap(Pick(current, n) + 1, n, j - 1);
    }
  }

  /** Within one lap, call j selects index p + j, wrapped once around the pool. */
  lemma PickInLap(current: nat, n: nat, j: nat)
    requires j < n
    ensures var p := Pick(current, n);
      Picks(current, n, n)[j] == if p + j < n then p + j else p + j - n
  {
    PicksAtCursor(current, n, n, j);
    if j > 0 {
      CursorInLap(current, n, j);
    }
  }

  /** k + m calls are the first k followed by m calls from the cursor the first k leave. */
  lemma {:induction false} PicksSplit(current: nat, n: nat, k: nat, m: nat)
    ensures Picks(current, n, k + m) == Picks(current, n, k) + Picks(Cursor(current, n, k), n, m)
    decreases k
  {
    if k > 0 {
      PicksSplit(Pick(current, n) + 1, n, k - 1, m);
    }
  }

  /** The calls depend on the cursor only through the index it selects. */
  lemma {:induction false} PicksBySelected(c1: nat, c2: nat, n: nat, k: nat)
    requires Pick(c1, n) == Pick(c2, n)
    ensures Picks(c1, n, k) == Picks(c2, n, k)
  {
  }

  /**
   * Round robin is periodic: over a stable pool of n candidates, the calls
   * after a full lap of n repeat the selections from the start.
   */
  lemma LapRepeats(current: nat, n: nat, k: nat)
    requires n >= 1
    ensures Picks(current, n, n + k) == Picks(current, n, n) + Picks(current, n, k)
  {
    PicksSplit(current, n, n, k);
    CursorInLap(current, n, n);
    PicksBySelected(Cursor(current, n, n), current, n, k);
  }

  /** Every candidate is selected exactly once in any lap of n consecutive calls. */
  lemma LapCoversPool(current: nat, n: nat, i: nat)
    requires i < n
    ensures i in Picks(current, n, n)
    ensures forall j1, j2 :: 0 <= j1 < j2 < n ==> Picks(current, n, n)[j1] != Picks(current, n, n)[j2]
  {
    var p := Pick(current, n);
    var j := if i >= p then i - p else i + n - p;
    PickInLap(current, n, j);
    forall j1, j2 | 0 <= j1 < j2 < n
      ensures Picks(current, n, n)[j1] != Picks(current, n, n)[j2]
    {
      PickInLap(current, n, j1);
      PickInLap(current, n, j2);
    }
  }

  class Balancer {
    /** Which subclass this is: RoundRobinLoadBalancer or RandomLoadBalancer. */
    const strategy: LoadBalanceStrategy
    /** The endpoint list, shared by reference with the owning service. */
    const endpoints: EndpointList
    /** RoundRobinLoadBalancer.current; the random balancer keeps no state. */
    var current: nat

    /** The list constructors: the given list is shared, not copied. */
    constructor (strategy: LoadBalanceStrategy, endpoints: EndpointList)
      ensures this.strategy == strategy && this.endpoints == endpoints && current == 0
    {
      this.strategy := strategy;
      this.endpoints := endpoints;
      current := 0;
    }

    /** RandomLoadBalancer(): a random balancer over a new, empty list. */
    constructor RandomOverEmptyList()
      ensures strategy == Random && fresh(endpoints) && endpoints.items == [] && current == 0
    {
      strategy := Random;
      endpoints := new EndpointList();
      current := 0;
    }

    /** hasEndpointCandidate: true exactly when some endpoint is ACTIVE or PENDING. */
    method HasEndpointCandidate() returns (r: bool)
      ensures r <==> exists i :: 0 <= i < |endpoints.items| && IsCandidate(Statuses(endpoints.items)[i])
    {
      var es := endpoints.items;
      for k := 0 to |es|
        invariant forall i :: 0 <= i < k ==> !IsCandidate(Statuses(es)[i])
      {
        if es[k].status == Active || es[k].status == Pending {
          assert IsCandidate(Statuses(es)[k]);
          return true;
        }
      }
      return false;
    }

    /** getEndpointCandidates: the ACTIVE and PENDING endpoints, in list order. */
    method GetEndpointCandidates() returns (r: seq<Endpoint>)
      ensures r == Candidates(endpoints.items)
    {
      var es := endpoints.items;
      r := [];
      for k := 0 to |es|
        invariant r == Candidates(es[..k])
      {
        CandidatesSnoc(es, k);
        if es[k].status == Active || es[k].status == Pending {
          r := r + [es[k]];
        }
      }
      assert es[..|es|] == es;
    }

    /**
     * RoundRobinLoadBalancer.nextEndpoint: the cursor wraps to 0 when it
     * has reached the number of candidates, the candidate at the cursor is
     * returned and the cursor moves on. Without candidates the lookup
     * fails after the cursor has moved.
     */
    method NextRoundRobin() returns (r: Result<Endpoint, Exception>)
      modifies this`current
      ensures var cs := Candidates(endpoints.items);
        current == Pick(old(current), |cs|) + 1 &&
        r == if cs == [] then Err(IndexOutOfBounds("0")) else Ok(cs[Pick(old(current), |cs|)])
      ensures Candidates(endpoints.items) != [] ==> 1 <= current <= |Candidates(endpoints.items)|
    {
      var sized := GetEndpointCandidates();
      if current >= |sized| {
        current := 0;
      }
      var candidates := GetEndpointCandidates();
      var index := current;
      current := current + 1;
      if index >= |candidates| {
        return Err(IndexOutOfBounds("0"));
      }
      return Ok(candidates[index]);
    }

    /**
     * RandomLoadBalancer.nextEndpoint: any candidate; Random.nextInt(0)
     * rejects an empty pool. It changes nothing.
     */
    method NextRandom() returns (r: Result<Endpoint, Exception>)
      ensures Candidates(endpoints.items) == [] ==> r == Err(IllegalArgument("bound must be positive"))
      ensures Candidates(endpoints.items) != [] ==> r.Ok? && r.value in Candidates(endpoints.items)
    {
      var sized := GetEndpointCandidates();
      var size := |sized|;
      if size == 0 {
        return Err(IllegalArgument("bound must be positive"));
      }
      var random :| 0 <= random < size;
      var candidates := GetEndpointCandidates();
      return Ok(candidates[random]);
    }

    /**
     * nextEndpoint, dispatched on the subclass: round robin takes the
     * candidate at the cursor and moves the cursor on; random takes any
     * candidate and leaves the cursor alone.
     */
    method NextEndpoint() returns (r: Result<Endpoint, Exception>)
      modifies this`current
      ensures Candidates(endpoints.items) != [] <==> r.Ok?
      ensures r.Ok? ==> r.value in Candidates(endpoints.items)
      ensures strategy == RoundRobin ==>
        var cs := Candidates(endpoints.items);
        current == Pick(old(current), |cs|) + 1 &&
        r == if cs == [] then Err(IndexOutOfBounds("0")) else Ok(cs[Pick(old(current), |cs|)])
      ensures strategy == Random ==>
        current == old(current) &&
        (Candidates(endpoints.items) == [] ==> r == Err(IllegalArgument("bound must be positive")))
    {
      if strategy == RoundRobin {
        r := NextRoundRobin();
      } else {
        r := NextRandom();
      }
    }

    /**
     * One round of balance: the next candidate is tried, marked ACTIVE if
     * it answers and SUSPENDED if it fails; no other endpoint changes.
     */
    method TryNext(req: Request, execute: Transport) returns (response: Option<Response>, endpoint: Endpoint, ghost at: nat)
      requires Candidates(endpoints.items) != []
      modifies this`current, endpoints.items
      ensures at < |endpoints.items| && endpoints.items[at] == endpoint
      ensures response == Answer(execute, req, endpoint)
      ensures endpoint.status == if response.Some? then Active else Suspended
      ensures forall i :: 0 <= i < |endpoints.items| && endpoints.items[i] == endpoint ==>
        IsCandidate(old(Statuses(endpoints.items))[i])
      ensures Statuses(endpoints.items) == Marked(old(Statuses(endpoints.items)), endpoints.items, endpoint, endpoint.status)
      ensures strategy == RoundRobin ==>
        var cs := old(Candidates(endpoints.items));
        current == Pick(old(current), |cs|) + 1 && endpoint == cs[Pick(old(current), |cs|)]
      ensures strategy == Random ==> current == old(current)
    {
      ghost var es := endpoints.items;
      ghost var before := Statuses(es);
      var next := NextEndpoint();
      endpoint := next.value;
      CandidatesMembers(es, endpoint);
      at :| 0 <= at < |es| && es[at] == endpoint;
      response := execute(req, endpoint.ip, endpoint.port);
      if response.Some? {
        endpoint.SetStatus(Active);
      } else {
        endpoint.SetStatus(Suspended);
      }
      assert Statuses(es) == Marked(before, es, endpoint, endpoint.status);
    }

    /**
     * One pass of the loop in balance. With no candidate left it reports
     * that none is (`left` false) and changes nothing; otherwise it tries
     * the next candidate, the one at position k, which joins the tried ones.
     */
    method Round(req: Request, execute: Transport, ghost es: seq<Endpoint>, ghost was: seq<EndpointStatus>,
                 ghost tried: seq<Endpoint>)
      returns (left: bool, response: Option<Response>, ghost k: nat)
      requires endpoints.items == es && |was| == |es|
      requires OnlyFailuresSuspended(was, Statuses(es), Answers(execute, req, es))
      requires TriedInOrder(es, was, Statuses(es), Answers(execute, req, es), tried, Err(NoAvailableEndpoints))
      modifies this`current, es
      ensures left ==> k < |es|
      ensures !left ==>
        var answers := Answers(execute, req, es);
        response.None? && current == old(current) && Statuses(es) == old(Statuses(es)) && old(Candidates(es)) == [] &&
        Settled(was, Statuses(es), answers) && Exhausted(was, Statuses(es), answers) && AllCandidatesFail(was, answers)
      ensures left && response.None? ==>
        var answers := Answers(execute, req, es);
        OnlyFailuresSuspended(was, Statuses(es), answers) &&
        TriedInOrder(es, was, Statuses(es), answers, tried + [es[k]], Err(NoAvailableEndpoints)) &&
        CountCandidates(Statuses(es)) < old(CountCandidates(Statuses(es)))
      ensures left && response.Some? ==>
        var answers := Answers(execute, req, es);
        Settled(was, Statuses(es), answers) && Served(Statuses(es), answers, response) &&
        !AllCandidatesFail(was, answers) && TriedInOrder(es, was, Statuses(es), answers, tried + [es[k]], Ok(response))
      ensures left && strategy == RoundRobin ==>
        var cs := old(Candidates(es));
        cs != [] && es[k] == cs[Pick(old(current), |cs|)]
      ensures strategy == Random ==> current == old(current)
    {
      ghost var answers := Answers(execute, req, es);
      ghost var before := Statuses(es);
      var has := HasEndpointCandidate();
      if !has {
        NoCandidateLeft(was, before, answers);
        CandidatesEmpty(es);
        return false, None, 0;
      }
      ghost var i0 :| 0 <= i0 < |es| && IsCandidate(before[i0]);
      CandidatesMembers(es, es[i0]);
      var endpoint;
      response, endpoint, k := TryNext(req, execute);
      left := true;
      if response.Some? {
        SuccessStep(was, before, es, execute, req, k);
        TriedServes(es, was, before, execute, req, tried, k, NoAvailableEndpoints);
      } else {
        assert Statuses(es) == Marked(before, es, endpoint, endpoint.status);
        FailureStep(was, before, es, execute, req, k);
        TriedFails(es, was, before, execute, req, tried, k, NoAvailableEndpoints);
      }
    }

    /**
     * balance. A null request is answered with null and changes nothing.
     * Otherwise the candidates are tried one at a time (`tried`, in order):
     * each failure is SUSPENDED, the first success is ACTIVE and its
     * response is returned at once, and no endpoint that was not tried
     * changes. The exception is thrown only once no candidate is left, and
     * exactly when every candidate fails. Round robin tries the candidate
     * at the cursor first; random leaves the cursor alone. The list itself
     * is untouched.
     */
    method Balance(request: Option<Request>, execute: Transport) returns (r: Result<Option<Response>, Exception>, ghost tried: seq<Endpoint>)
      modifies this`current, endpoints.items
      ensures endpoints.items == old(endpoints.items)
      ensures request.None? ==>
        r == Ok(None) && current == old(current) && Statuses(endpoints.items) == old(Statuses(endpoints.items))
      ensures request.Some? ==>
        Settled(old(Statuses(endpoints.items)), Statuses(endpoints.items), Answers(execute, request.value, endpoints.items))
      ensures request.Some? && r.Ok? ==>
        Served(Statuses(endpoints.items), Answers(execute, request.value, endpoints.items), r.value)
      ensures request.Some? && r.Err? ==>
        r.error == NoAvailableEndpoints &&
        Exhausted(old(Statuses(endpoints.items)), Statuses(endpoints.items), Answers(execute, request.value, endpoints.items))
      ensures request.Some? ==>
        (r.Err? <==> AllCandidatesFail(old(Statuses(endpoints.items)), Answers(execute, request.value, endpoints.items)))
      ensures request.Some? ==>
        TriedInOrder(endpoints.items, old(Statuses(endpoints.items)), Statuses(endpoints.items),
                     Answers(execute, request.value, endpoints.items), tried, r)
      ensures request.Some? && strategy == RoundRobin ==>
        var cs := old(Candidates(endpoints.items));
        cs != [] ==> |tried| > 0 && tried[0] == cs[Pick(old(current), |cs|)]
      ensures strategy == Random ==> current == old(current)
    {
      // Round and NothingTried state each outcome in these terms; their definitions are not needed here.
      hide Settled, Served, Exhausted, AllCandidatesFail, OnlyFailuresSuspended, TriedInOrder, Marked, Answer, Answers, Candidates, CountCandidates;
      tried := [];
      if request.None? {
        return Ok(None), tried;
      }
      var req := request.value;
      ghost var es := endpoints.items;
      ghost var was := Statuses(es);
      ghost var answers := Answers(execute, req, es);
      ghost var first := Candidates(es);
      ghost var cursor := current;
      NothingTried(es, was, answers, NoAvailableEndpoints);
      while true
        invariant endpoints.items == es
        invariant OnlyFailuresSuspended(was, Statuses(es), answers)
        invariant TriedInOrder(es, was, Statuses(es), answers, tried, Err(NoAvailableEndpoints))
        invariant tried == [] ==> Candidates(es) == first && current == cursor
        invariant strategy == RoundRobin && |tried| > 0 ==> first != [] && tried[0] == first[Pick(cursor, |first|)]
        invariant strategy == Random ==> current == cursor
        decreases CountCandidates(Statuses(es))
      {
        var left, response, k := Round(req, execute, es, was, tried);
        if !left {
          return Err(NoAvailableEndpoints), tried;
        }
        if response.Some? {
          return Ok(response), tried + [es[k]];
        }
        tried := tried + [es[k]];
      }
    }
  }
}
