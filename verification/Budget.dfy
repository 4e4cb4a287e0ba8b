/**
 The budget of a task run (src/agent/budget.rs): what a model call costs, what it is estimated to
 cost beforehand, and when it can be afforded. Amounts are real numbers.
 */
module Budget {
  datatype Pricing = Pricing(input: real, output: real, reasoning: real, cacheRead: real, cacheWrite: real) {
    /** What the pricing configuration guarantees. */
    predicate Valid() {
      input >= 0.0 && output >= 0.0 && reasoning >= 0.0 && cacheRead >= 0.0 && cacheWrite >= 0.0
    }
  }

  datatype Usage = Usage(input: nat, output: nat, reasoning: nat, cacheRead: nat, cacheWrite: nat)

  datatype Phase = Execution | Review

  function SaturatingSub(a: nat, b: nat): nat {
    if a >= b then a - b else 0
  }

  /** What a number of tokens costs, before the division by a thousand. */
  function Charge(tokens: nat, rate: real): real {
    tokens as real * rate
  }

  function EstimateFromUsage(p: Pricing, u: Usage): real {
    var uncached := SaturatingSub(SaturatingSub(u.input, u.cacheRead), u.cacheWrite);
    ( Charge(uncached, p.input) + Charge(u.output, p.output) + Charge(u.reasoning, p.reasoning)
    + Charge(u.cacheRead, p.cacheRead) + Charge(u.cacheWrite, p.cacheWrite)) / 1000.0
  }

  function Max(a: real, b: real): real {
    if a >= b then a else b
  }

  function EstimatePreflightCost(p: Pricing, inputTokens: nat, maxOutputTokens: nat): real {
    (Charge(inputTokens, p.input) + Charge(maxOutputTokens, Max(p.output, p.reasoning))) / 1000.0
  }

  /** The call used no more than was estimated for it, and its cached tokens are input tokens. */
  predicate Within(u: Usage, inputTokens: nat, maxOutputTokens: nat) {
    u.input <= inputTokens && u.output + u.reasoning <= maxOutputTokens && u.cacheRead + u.cacheWrite <= u.input
  }

  lemma ChargeMono(a: nat, b: nat, x: real, y: real)
    requires a <= b && 0.0 <= x <= y
    ensures 0.0 <= Charge(a, x) <= Charge(b, y)
  {
    assert a as real * x <= a as real * y;
    assert a as real * y <= b as real * y;
  }

  lemma ChargeAdds(a: nat, b: nat, x: real)
    ensures Charge(a + b, x) == Charge(a, x) + Charge(b, x)
  {
    assert (a + b) as real == a as real + b as real;
  }

  lemma ChargeStrict(a: nat, x: real, y: real)
    requires a > 0 && x < y
    ensures Charge(a, x) < Charge(a, y)
  {
  }

  lemma NoCharge(x: real)
    ensures Charge(0, x) == 0.0
  {
  }

  lemma CostIsNonNegative(p: Pricing, u: Usage)
    requires p.Valid()
    ensures EstimateFromUsage(p, u) >= 0.0
  {
    hide Charge;
    var uncached := SaturatingSub(SaturatingSub(u.input, u.cacheRead), u.cacheWrite);
    ChargeMono(uncached, uncached, p.input, p.input);
    ChargeMono(u.output, u.output, p.output, p.output);
    ChargeMono(u.reasoning, u.reasoning, p.reasoning, p.reasoning);
    ChargeMono(u.cacheRead, u.cacheRead, p.cacheRead, p.cacheRead);
    ChargeMono(u.cacheWrite, u.cacheWrite, p.cacheWrite, p.cacheWrite);
  }

  /** Tokens are charged per thousand: input that neither came from the cache nor went to it, output, reasoning,
      and cache reads and writes, each at its own rate. More cached tokens than input are no refund. */
  lemma UseIsChargedByKind(p: Pricing, u: Usage)
    ensures
      var uncached := u.input - u.cacheRead - u.cacheWrite;
      1000.0 * EstimateFromUsage(p, u)
      == (if uncached >= 0 then uncached else 0) as real * p.input + u.output as real * p.output
         + u.reasoning as real * p.reasoning + u.cacheRead as real * p.cacheRead + u.cacheWrite as real * p.cacheWrite
  {
  }

  lemma PreflightCovers(p: Pricing, u: Usage, inputTokens: nat, maxOutputTokens: nat)
    requires p.Valid() && p.cacheRead <= p.input && p.cacheWrite <= p.input
    requires Within(u, inputTokens, maxOutputTokens)
    ensures EstimateFromUsage(p, u) <= EstimatePreflightCost(p, inputTokens, maxOutputTokens)
  {
    hide Charge;
    var uncached := u.input - u.cacheRead - u.cacheWrite;
    ChargeMono(u.cacheRead, u.cacheRead, p.cacheRead, p.input);
    ChargeMono(u.cacheWrite, u.cacheWrite, p.cacheWrite, p.input);
    ChargeAdds(uncached, u.cacheRead, p.input);
    ChargeAdds(uncached + u.cacheRead, u.cacheWrite, p.input);
    ChargeMono(u.input, inputTokens, p.input, p.input);
    var rate := Max(p.output, p.reasoning);
    ChargeMono(u.output, u.output, p.output, rate);
    ChargeMono(u.reasoning, u.reasoning, p.reasoning, rate);
    ChargeAdds(u.output, u.reasoning, rate);
    ChargeMono(u.output + u.reasoning, maxOutputTokens, rate, rate);
  }

  /** The costliest use that stays within the estimate, when one cache rate exceeds the input rate. */
  function CachedUse(p: Pricing, inputTokens: nat, maxOutputTokens: nat): Usage {
    var read := p.cacheRead > p.input;
    Usage(inputTokens,
          if p.output >= p.reasoning then maxOutputTokens else 0,
          if p.output >= p.reasoning then 0 else maxOutputTokens,
          if read then inputTokens else 0,
          if read then 0 else inputTokens)
  }

  lemma CachedUseCostsMore(p: Pricing, inputTokens: nat, maxOutputTokens: nat)
    requires p.cacheRead > p.input || p.cacheWrite > p.input
    requires inputTokens > 0
    ensures Within(CachedUse(p, inputTokens, maxOutputTokens), inputTokens, maxOutputTokens)
    ensures EstimateFromUsage(p, CachedUse(p, inputTokens, maxOutputTokens))
          > EstimatePreflightCost(p, inputTokens, maxOutputTokens)
  {
    hide Charge;
    ChargeStrict(inputTokens, p.input, if p.cacheRead > p.input then p.cacheRead else p.cacheWrite);
    NoCharge(p.input);
    NoCharge(p.output);
    NoCharge(p.reasoning);
    NoCharge(p.cacheRead);
    NoCharge(p.cacheWrite);
  }

  /** The preflight estimate bounds the cost of every call that stays within the estimated tokens
      exactly when reading or writing the cache is never dearer than plain input. */
  lemma PreflightCoversExactly(p: Pricing, inputTokens: nat, maxOutputTokens: nat)
    requires p.Valid() && inputTokens > 0
    ensures (forall u: Usage | Within(u, inputTokens, maxOutputTokens) ::
               EstimateFromUsage(p, u) <= EstimatePreflightCost(p, inputTokens, maxOutputTokens))
        <==> p.cacheRead <= p.input && p.cacheWrite <= p.input
  {
    if p.cacheRead <= p.input && p.cacheWrite <= p.input {
      forall u: Usage | Within(u, inputTokens, maxOutputTokens)
        ensures EstimateFromUsage(p, u) <= EstimatePreflightCost(p, inputTokens, maxOutputTokens)
      {
        PreflightCovers(p, u, inputTokens, maxOutputTokens);
      }
    } else {
      CachedUseCostsMore(p, inputTokens, maxOutputTokens);
    }
  }

  /** What executions may spend in all; the rest is the reserve for reviews. */
  function ExecutionCap(budget: real, reserve: real): real {
    budget * (1.0 - reserve)
  }

  function Available(budget: real, reserve: real, spent: real, phase: Phase): real {
    match phase
    case Execution => ExecutionCap(budget, reserve) - spent
    case Review => budget - spent
  }

  class BudgetController {
    const budget: real
    const reviewReserve: real
    var spent: real

    constructor (budget: real, reviewReserve: real)
      ensures this.budget == budget && this.reviewReserve == reviewReserve && spent == 0.0
    {
      this.budget, this.reviewReserve, spent := budget, reviewReserve, 0.0;
    }

    /** A call that is afforded and costs at most its estimate leaves the reserve untouched in the
        execution phase, and the whole budget in the review phase. */
    method CanAfford(estimated: real, phase: Phase) returns (ok: bool)
      ensures ok <==> estimated <= Available(budget, reviewReserve, spent, phase)
      ensures ok <==> spent + estimated <= (if phase.Execution? then budget - budget * reviewReserve else budget)
    {
      ok := Available(budget, reviewReserve, spent, phase) >= estimated;
      assert budget * (1.0 - reviewReserve) == budget - budget * reviewReserve;
    }

    method Charge(cost: real)
      modifies this
      ensures spent == old(spent) + cost
    {
      spent := spent + cost;
    }

    /** What executions may still spend: nothing once the cap is reached, and otherwise exactly what
        takes the spending to the cap. */
    method ExecutionRemaining() returns (remaining: real)
      ensures remaining >= 0.0
      ensures remaining == 0.0 <==> spent >= ExecutionCap(budget, reviewReserve)
      ensures spent + remaining == ExecutionCap(budget, reviewReserve) <==> spent <= ExecutionCap(budget, reviewReserve)
    {
      remaining := Max(ExecutionCap(budget, reviewReserve) - spent, 0.0);
    }
  }
}
