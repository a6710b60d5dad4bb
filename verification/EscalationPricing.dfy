/** What a call costs, what it reserves and what it can be charged (call_cost, worst_cost and the recording in
    handle, scripts/files/escalation.py). */
module EscalationPricing {
  import opened EscalationBudget
  import opened Options

  /** Allowed for the system prompt, and for an answer, in the worst case. */
  const SYSTEM_TOKENS := 200
  const RESERVE_ANSWER_TOKENS := 16384

  function CallCost(price: Price, input: int, output: int): real {
    (input as real * price.input + output as real * price.output) / 1000000.0
  }

  function WorstCost(price: Price, brief: nat): real { CallCost(price, brief + SYSTEM_TOKENS, RESERVE_ANSWER_TOKENS) }

  /** A million tokens read cost the first price, a million written the second, and costs add up. */
  lemma PricesArePerMillion(price: Price, i: int, o: int, j: int, k: int)
    ensures CallCost(price, 1_000_000, 0) == price.input && CallCost(price, 0, 1_000_000) == price.output
    ensures CallCost(price, i + j, o + k) == CallCost(price, i, o) + CallCost(price, j, k)
  {
    assert (i + j) as real * price.input == i as real * price.input + j as real * price.input;
    assert (o + k) as real * price.output == o as real * price.output + k as real * price.output;
  }

  lemma CallCostNonNegative(price: Price, input: nat, output: nat)
    requires price.Valid()
    ensures CallCost(price, input, output) >= 0.0
  {
    assert input as real * price.input >= 0.0 && output as real * price.output >= 0.0;
  }

  /** What can be recorded for a call: nothing, its worst case, or what the provider reports, which is bounded
      by nothing this side knows. */
  ghost predicate IsCharge(price: Price, worst: real, cost: real) {
    cost == 0.0 || cost == Round6(worst) || exists i: nat, o: nat :: cost == Round6(CallCost(price, i, o))
  }

  lemma FreeCallsCostNothing(price: Price, i: int, o: int)
    requires price.Valid() && !price.Charges()
    ensures CallCost(price, i, o) == 0.0
  {
    assert price.input == 0.0 && price.output == 0.0;
    assert i as real * price.input == 0.0 && o as real * price.output == 0.0;
  }

  /** An amount of money rounds to nothing up to half a micro-dollar. */
  lemma RoundsToNothingIff(x: real)
    requires x >= 0.0
    ensures Round6(x) == 0.0 <==> x <= HALF_MICRO
  {
    var y := x * 1000000.0;
    var f := y.Floor;
    assert f >= 0;
    if x <= HALF_MICRO {
      assert y <= 0.5 && f == 0;
    } else {
      assert y > 0.5;
    }
  }

  /** At a price, what the provider may report exceeds any amount. */
  lemma ChargeBeyond(price: Price, amount: real) returns (n: nat)
    requires price.Valid() && price.Charges() && amount >= 0.0
    ensures Round6(CallCost(price, n, n)) > amount
  {
    var target := (amount + 1.0) * 1000000.0;
    n := Enough(if price.input > 0.0 then price.input else price.output, target);
    TimesAtLeast(n as real, 0.0, price.input);
    TimesAtLeast(n as real, 0.0, price.output);
    AtLeastCosts(price, n, target);
  }

  lemma AtLeastCosts(price: Price, n: nat, target: real)
    requires n as real * price.input + n as real * price.output >= target
    ensures CallCost(price, n, n) >= target / 1000000.0
  {
  }

  lemma Enough(step: real, target: real) returns (n: nat)
    requires step > 0.0 && target >= 0.0
    ensures n as real * step >= target
  {
    var quotient := target / step;
    assert quotient >= 0.0;
    n := quotient.Floor + 1;
    TimesAtLeast(n as real, quotient, step);
    assert quotient * step == target;
  }

  lemma TimesAtLeast(a: real, b: real, c: real)
    requires a >= b && c >= 0.0
    ensures a * c >= b * c
  {
  }

  // ---- The machine at the broker's prices ----

  ghost predicate IsWorst(price: Price, worst: real) { exists brief: nat :: worst == WorstCost(price, brief) }

  lemma WorstIsNonNegative(price: Price, worst: real)
    requires price.Valid() && IsWorst(price, worst)
    ensures worst >= 0.0
  {
    var brief: nat :| worst == WorstCost(price, brief);
    CallCostNonNegative(price, brief + SYSTEM_TOKENS, RESERVE_ANSWER_TOKENS);
  }

  /** What the broker adds to a legal step: a call is reserved at its worst case and charged at its price. */
  ghost predicate AtPrice(cfg: Config, s: State, e: Event)
    requires Legal(s, e)
  {
    match e
    case Reserve(_, alias, worst, _) => alias in cfg.prices && IsWorst(cfg.prices[alias], worst)
    case Settle(token, row, _) =>
      var r := Find(s.pending, token);
      r.alias in cfg.prices && IsCharge(cfg.prices[r.alias], r.worst, row.cost.value)
    case _ => true
  }

  ghost predicate RunAtPrice(cfg: Config, s: State, events: seq<Event>)
    requires LegalRun(cfg, s, events)
    decreases |events|
  {
    events == [] || (AtPrice(cfg, s, events[0]) && RunAtPrice(cfg, Next(cfg, s, events[0]), events[1..]))
  }

  ghost predicate WellPriced(cfg: Config, r: Reservation) {
    r.alias in cfg.prices && IsWorst(cfg.prices[r.alias], r.worst)
  }

  /** Every reservation is a worst case. */
  ghost predicate Priced(cfg: Config, s: State) { forall r :: r in s.pending ==> WellPriced(cfg, r) }

  lemma StepKeepsPriced(cfg: Config, s: State, e: Event)
    requires WellHeld(s) && Priced(cfg, s) && Legal(s, e) && AtPrice(cfg, s, e)
    ensures Priced(cfg, Next(cfg, s, e))
  {
    if e.Settle? || e.Release? { ExceptIs(s.pending, {e.token}, e.token); }
  }

  /** So in every state the broker reaches. */
  lemma {:induction false} RunKeepsPriced(cfg: Config, s: State, events: seq<Event>)
    requires cfg.Valid() && Sound(cfg, s) && Priced(cfg, s) && LegalRun(cfg, s, events) && RunAtPrice(cfg, s, events)
    ensures Priced(cfg, Run(cfg, s, events))
    decreases |events|
  {
    if events != [] {
      StepKeeps(cfg, s, events[0]);
      StepKeepsPriced(cfg, s, events[0]);
      RunKeepsPriced(cfg, Next(cfg, s, events[0]), events[1..]);
    }
  }
}
