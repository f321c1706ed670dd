/** The two enumerations of the proxy and their Java names. */
module Enums {
  import opened Wrappers
  import opened Exceptions

  /**
   * Health of an endpoint: PENDING when created, ACTIVE after a successful
   * request or probe, SUSPENDED after a failed one; BLOCKED is declared but
   * nothing sets it.
   */
  datatype EndpointStatus = Pending | Active | Suspended | Blocked

  /** Enum.toString(). */
  function StatusName(s: EndpointStatus): string {
    match s
    case Pending => "PENDING"
    case Active => "ACTIVE"
    case Suspended => "SUSPENDED"
    case Blocked => "BLOCKED"
  }

  lemma StatusNamesDistinct(a: EndpointStatus, b: EndpointStatus)
    ensures StatusName(a) == StatusName(b) <==> a == b
  {
  }

  datatype LoadBalanceStrategy = RoundRobin | Random

  function StrategyName(s: LoadBalanceStrategy): string {
    match s
    case RoundRobin => "ROUND_ROBIN"
    case Random => "RANDOM"
  }

  /** Enum.valueOf(LoadBalanceStrategies.class, name): an exact, case-sensitive match. */
  function StrategyValueOf(name: string): (r: Result<LoadBalanceStrategy, Exception>)
    ensures r.Ok? ==> StrategyName(r.value) == name
    ensures r.Err? <==> forall s: LoadBalanceStrategy :: StrategyName(s) != name
    ensures r.Err? ==> r.error == IllegalArgument(name)
  {
    if name == "ROUND_ROBIN" then Ok(RoundRobin)
    else if name == "RANDOM" then Ok(Random)
    else Err(IllegalArgument(name))
  }

  lemma StrategyNameRoundTrip(s: LoadBalanceStrategy)
    ensures StrategyValueOf(StrategyName(s)) == Ok(s)
  {
  }
}
