/** Rates, durations and what flows in a duration. Callers hide `Flow` and reason with the
    lemmas, which keeps products out of their proofs. */
module Flows {

  function Lesser(x: real, y: real): real {
    if x < y then x else y
  }

  /** The amount that flows in `dt` seconds. */
  function Flow(rate: real, dt: real): real {
    dt * rate
  }

  lemma FlowIsNonNegative(rate: real, dt: real)
    requires 0.0 <= rate && 0.0 <= dt
    ensures 0.0 <= Flow(rate, dt)
  {}

  lemma FlowAddsUp(rate: real, dt: real, dt': real)
    ensures Flow(rate, dt + dt') == Flow(rate, dt) + Flow(rate, dt')
  {}

  lemma LongerFlowsMore(rate: real, dt: real, dt': real)
    requires dt <= dt' && 0.0 <= rate
    ensures Flow(rate, dt) <= Flow(rate, dt')
  {
    FlowIsNonNegative(rate, dt' - dt);
    FlowAddsUp(rate, dt, dt' - dt);
    assert dt + (dt' - dt) == dt';
  }

  lemma FasterFlowsMore(rate: real, rate': real, dt: real)
    requires rate <= rate' && 0.0 <= dt
    ensures Flow(rate, dt) <= Flow(rate', dt)
  {
    assert Flow(rate', dt) == Flow(rate, dt) + dt * (rate' - rate);
  }

  lemma TimeToFlow(rate: real, amount: real)
    requires 0.0 < rate
    ensures Flow(rate, amount / rate) == amount
  {}
}
