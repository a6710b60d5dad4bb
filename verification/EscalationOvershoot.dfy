/** How far a cap can be overshot (worst_cost and Ledger, scripts/files/escalation.py).  The documentation
    allows one call's estimation error; that is right exactly when at most one of the calls in flight arrived
    in the month of the grant and costs anything. */
module EscalationOvershoot {
  import opened EscalationBudget
  import opened EscalationPricing
  import opened Options

  /** A run in which nothing is granted. */
  predicate NoGrants(cfg: Config, s: State, events: seq<Event>)
    requires LegalRun(cfg, s, events)
    decreases |events|
  {
    events == [] || (!Granted(cfg, s, events[0]) && NoGrants(cfg, Next(cfg, s, events[0]), events[1..]))
  }

  function ExcessOf(s: State, e: Event): real
    requires Legal(s, e)
  {
    if e.Settle? && e.written != Lost then Excess(s, e.token, e.row) else 0.0
  }

  /** The largest amount by which any one call of the run exceeds its reservation. */
  function LargestExcess(cfg: Config, s: State, events: seq<Event>): (x: real)
    requires LegalRun(cfg, s, events)
    ensures x >= 0.0
    decreases |events|
  {
    if events == [] then 0.0
    else
      var first, rest := ExcessOf(s, events[0]), LargestExcess(cfg, Next(cfg, s, events[0]), events[1..]);
      if first > rest then first else rest
  }

  /** What is committed stays within both caps, half a rounding unit and one call's excess. */
  predicate WithinOneExcess(cfg: Config, s: State, events: seq<Event>)
    requires LegalRun(cfg, s, events) && s.grant.Some?
  {
    var t, p, one := Run(cfg, s, events), s.grant.value, LargestExcess(cfg, s, events);
    Committed(cfg, t, p.day) <= cfg.dayCap + HALF_MICRO + one
    && Committed(cfg, t, p.month) <= cfg.monthCap + HALF_MICRO + one
  }

  /** What the broker may do before it grants the next reservation, every call charged at its price. */
  ghost predicate Continues(cfg: Config, s: State, events: seq<Event>) {
    LegalRun(cfg, s, events) && NoGrants(cfg, s, events) && RunAtPrice(cfg, s, events)
  }

  // ---- The calls that count ----

  /** A call whose row will fall into the window, at a price. */
  predicate Counts(cfg: Config, r: Reservation, start: real) {
    r.alias in cfg.prices && cfg.prices[r.alias].Charges() && r.arrival >= start
  }

  function Counting(cfg: Config, s: State, start: real): set<Reservation> {
    set r | r in s.Live() && Counts(cfg, r, start)
  }

  predicate AtMostOneCounts(cfg: Config, s: State, start: real) {
    forall q, r :: q in Counting(cfg, s, start) && r in Counting(cfg, s, start) ==> q == r
  }

  // ---- At most one call that counts ----

  /** What one step that is no grant may add to what is committed, and what it leaves counting. */
  ghost predicate AddsAtMost(cfg: Config, s: State, e: Event, start: real)
    requires Legal(s, e)
  {
    var t := Next(cfg, s, e);
    && Counting(cfg, t, start) <= Counting(cfg, s, start)
    && (Committed(cfg, t, start) <= Committed(cfg, s, start)
        || (Committed(cfg, t, start) <= Committed(cfg, s, start) + ExcessOf(s, e)
            && Counting(cfg, s, start) - Counting(cfg, t, start) != {}))
  }

  /** A call that costs nothing, or belongs to an earlier window, adds nothing when it is recorded. */
  lemma UncountedAddsNothing(cfg: Config, r: Reservation, row: Row, start: real)
    requires cfg.Valid() && WellPriced(cfg, r) && !Counts(cfg, r, start)
    requires row.ts == Some(r.arrival) && row.cost.Some? && row.cost.value >= 0.0
    requires IsCharge(cfg.prices[r.alias], r.worst, row.cost.value)
    ensures InWindow(row, start) ==> row.cost.value <= r.worst
  {
    var price := cfg.prices[r.alias];
    if !price.Charges() {
      var brief: nat :| r.worst == WorstCost(price, brief);
      FreeCallsCostNothing(price, brief + SYSTEM_TOKENS, RESERVE_ANSWER_TOKENS);
      RoundsToNothingIff(0.0);
      forall i: nat, o: nat ensures Round6(CallCost(price, i, o)) == 0.0 { FreeCallsCostNothing(price, i, o); }
    }
  }

  lemma CountingAfterDrop(cfg: Config, s: State, t: State, token: nat, start: real)
    requires WellHeld(s) && t.Live() == Drop(s.Live(), token)
    ensures forall r :: r in Counting(cfg, t, start) <==> r in Counting(cfg, s, start) && r.token != token
  {
    ExceptDistinct(s.pending, s.stale);
    ExceptIs(s.Live(), {token}, token);
  }

  lemma CommittedAfterSettle(cfg: Config, s: State, e: Event, start: real)
    requires WellHeld(s) && Legal(s, e) && e.Settle? && e.written != Lost
    ensures Committed(cfg, Next(cfg, s, e), start)
            == Committed(cfg, s, start) - WorstOf(s.pending, e.token)
               + if InWindow(e.row, start) then e.row.cost.value else 0.0
    ensures WorstOf(s.pending, e.token) >= 0.0
  {
    HeldAfterSettle(cfg, s, e);
    SpentPush(cfg, s.rows, e.row, start, Ask);
  }

  lemma SettleAddsExcess(cfg: Config, s: State, e: Event, start: real)
    requires WellHeld(s) && Legal(s, e) && e.Settle? && e.written != Lost
    ensures Committed(cfg, Next(cfg, s, e), start) <= Committed(cfg, s, start) + ExcessOf(s, e)
  {
    CommittedAfterSettle(cfg, s, e, start);
  }

  lemma SettledCountsNoMore(cfg: Config, s: State, e: Event, start: real)
    requires WellHeld(s) && Legal(s, e) && e.Settle? && e.written != Lost
    ensures var r, after := Find(s.pending, e.token), Counting(cfg, Next(cfg, s, e), start);
            after <= Counting(cfg, s, start)
            && (Counts(cfg, r, start) ==> r in Counting(cfg, s, start) && r !in after)
  {
    AfterSettle(cfg, s, e);
    CountingAfterDrop(cfg, s, Next(cfg, s, e), e.token, start);
    ExceptIs(s.pending, s.stale, e.token);
  }

  lemma CountedSettle(cfg: Config, s: State, e: Event, start: real)
    requires WellHeld(s) && Legal(s, e) && e.Settle? && e.written != Lost
    requires Counts(cfg, Find(s.pending, e.token), start)
    ensures AddsAtMost(cfg, s, e, start)
  {
    SettleAddsExcess(cfg, s, e, start);
    SettledCountsNoMore(cfg, s, e, start);
    assert Find(s.pending, e.token) in Counting(cfg, s, start) - Counting(cfg, Next(cfg, s, e), start);
  }

  lemma UncountedSettle(cfg: Config, s: State, e: Event, start: real)
    requires cfg.Valid() && WellHeld(s) && Priced(cfg, s) && Legal(s, e) && AtPrice(cfg, s, e)
    requires e.Settle? && e.written != Lost && !Counts(cfg, Find(s.pending, e.token), start)
    ensures AddsAtMost(cfg, s, e, start)
  {
    var r := Find(s.pending, e.token);
    SettledCountsNoMore(cfg, s, e, start);
    CommittedAfterSettle(cfg, s, e, start);
    UncountedAddsNothing(cfg, r, e.row, start);
  }

  lemma ReleaseAddsNothing(cfg: Config, s: State, token: nat, start: real)
    requires WellHeld(s)
    ensures AddsAtMost(cfg, s, Release(token), start)
  {
    LiveAfter(s, token);
    LiveDrop(s, token);
    CountingAfterDrop(cfg, s, Next(cfg, s, Release(token)), token, start);
  }

  lemma StepAddsAtMost(cfg: Config, s: State, e: Event, start: real)
    requires cfg.Valid() && Sound(cfg, s) && Priced(cfg, s) && Legal(s, e) && AtPrice(cfg, s, e)
    requires !Granted(cfg, s, e)
    ensures AddsAtMost(cfg, s, e, start)
  {
    match e
    case Reserve(_, _, _, _) =>
    case Settle(_, _, written) =>
      if written != Lost {
        if Counts(cfg, Find(s.pending, e.token), start) { CountedSettle(cfg, s, e, start); }
        else { UncountedSettle(cfg, s, e, start); }
      }
    case Release(token) => ReleaseAddsNothing(cfg, s, token, start);
    case Refuse(row) => SpentPush(cfg, s.rows, row, start, Ask);
    case Restart =>
      HeldNonNegative(s.pending, 0);
      HeldExcept(s.pending, s.stale);
  }

  /** While at most one call counts in a window, what is committed there grows by one excess at most, and by
      none when no call counts. */
  lemma {:induction false} OneCallsExcess(cfg: Config, s: State, events: seq<Event>, start: real)
    requires cfg.Valid() && Sound(cfg, s) && Priced(cfg, s) && Continues(cfg, s, events)
    requires AtMostOneCounts(cfg, s, start)
    ensures Committed(cfg, Run(cfg, s, events), start)
            <= Committed(cfg, s, start) + if Counting(cfg, s, start) == {} then 0.0 else LargestExcess(cfg, s, events)
    decreases |events|
  {
    if events != [] {
      var e := events[0];
      StepAddsAtMost(cfg, s, e, start);
      StepKeeps(cfg, s, e);
      StepKeepsPriced(cfg, s, e);
      OneCallsExcess(cfg, Next(cfg, s, e), events[1..], start);
    }
  }

  // ---- Two calls that count ----

  lemma {:induction false} SpentNonNegative(cfg: Config, rows: seq<Row>, start: real)
    requires cfg.Valid()
    ensures Spent(cfg, rows, start) >= 0.0
  {
    if rows != [] { SpentNonNegative(cfg, rows[..|rows| - 1], start); }
  }

  lemma CommittedNonNegative(cfg: Config, s: State, start: real)
    requires cfg.Valid() && WellHeld(s)
    ensures Committed(cfg, s, start) >= 0.0
  {
    SpentNonNegative(cfg, s.rows, start);
    HeldExcept(s.pending, s.stale);
  }

  /** The record of a call that was answered with n tokens read and n written. */
  function Answered(cfg: Config, r: Reservation, n: nat): Event
    requires r.alias in cfg.prices
  {
    Settle(r.token, Row(Some(r.arrival), Some(r.alias), Some(Round6(CallCost(cfg.prices[r.alias], n, n))), "ok"), Done)
  }

  lemma LiveIsFound(s: State, r: Reservation)
    requires WellHeld(s) && r in s.Live()
    ensures Holds(s.pending, r.token) && Find(s.pending, r.token) == r && r.token !in s.stale && r.worst >= 0.0
  {
    ExceptIs(s.pending, s.stale, r.token);
    var i :| 0 <= i < |s.pending| && s.pending[i] == r;
    assert Holds(s.pending, r.token);
    FoundIsUnique(s.pending, i);
  }

  lemma {:induction false} FoundIsUnique(pending: seq<Reservation>, i: nat)
    requires i < |pending| && Distinct(pending)
    ensures Holds(pending, pending[i].token) && Find(pending, pending[i].token) == pending[i]
  {
    if i < |pending| - 1 { FoundIsUnique(pending[..|pending| - 1], i); }
  }

  /** What an answered call that exceeds its reservation does. */
  lemma AnsweredStep(cfg: Config, s: State, r: Reservation, n: nat, start: real)
    requires cfg.Valid() && Sound(cfg, s) && r in Counting(cfg, s, start)
    requires Round6(CallCost(cfg.prices[r.alias], n, n)) > r.worst
    ensures var e := Answered(cfg, r, n);
            && Legal(s, e) && AtPrice(cfg, s, e) && ExcessOf(s, e) == e.row.cost.value - r.worst
            && Committed(cfg, Next(cfg, s, e), start) == Committed(cfg, s, start) + ExcessOf(s, e)
            && Next(cfg, s, e).Live() == Drop(s.Live(), r.token)
  {
    LiveIsFound(s, r);
    var e := Answered(cfg, r, n);
    assert e.row.outcome[0] == 'o';
    AfterSettle(cfg, s, e);
    CommittedAfterSettle(cfg, s, e, start);
  }

  lemma OtherStaysCounting(cfg: Config, s: State, q: Reservation, r: Reservation, start: real, t: State)
    requires WellHeld(s) && q in Counting(cfg, s, start) && r in Counting(cfg, s, start) && q != r
    requires t.Live() == Drop(s.Live(), q.token)
    ensures r in Counting(cfg, t, start)
  {
    LiveIsFound(s, q);
    LiveIsFound(s, r);
    CountingAfterDrop(cfg, s, t, q.token, start);
  }

  /** Two calls that count can each exceed their reservations by more than any amount, and what is committed
      then grows by both excesses. */
  lemma TwoExceed(cfg: Config, s: State, q: Reservation, r: Reservation, amount: real, start: real)
    returns (events: seq<Event>)
    requires cfg.Valid() && Sound(cfg, s) && amount >= 0.0
    requires q in Counting(cfg, s, start) && r in Counting(cfg, s, start) && q != r
    ensures Continues(cfg, s, events)
    ensures Committed(cfg, Run(cfg, s, events), start)
            > Committed(cfg, s, start) + LargestExcess(cfg, s, events) + amount
  {
    LiveIsFound(s, q);
    LiveIsFound(s, r);
    var m := ChargeBeyond(cfg.prices[q.alias], q.worst + amount);
    var n := ChargeBeyond(cfg.prices[r.alias], r.worst + amount);
    var e, f := Answered(cfg, q, m), Answered(cfg, r, n);
    AnsweredStep(cfg, s, q, m, start);
    StepKeeps(cfg, s, e);
    var t := Next(cfg, s, e);
    OtherStaysCounting(cfg, s, q, r, start, t);
    AnsweredStep(cfg, t, r, n, start);
    events := [e, f];
    TwoSteps(cfg, s, e, f);
  }

  lemma TwoSteps(cfg: Config, s: State, e: Event, f: Event)
    requires Legal(s, e) && Legal(Next(cfg, s, e), f) && e.Settle? && f.Settle?
    requires AtPrice(cfg, s, e) && AtPrice(cfg, Next(cfg, s, e), f)
    requires ExcessOf(s, e) >= 0.0 && ExcessOf(Next(cfg, s, e), f) >= 0.0
    ensures Continues(cfg, s, [e, f]) && Run(cfg, s, [e, f]) == Next(cfg, Next(cfg, s, e), f)
    ensures var x, y := ExcessOf(s, e), ExcessOf(Next(cfg, s, e), f);
            LargestExcess(cfg, s, [e, f]) == if x > y then x else y
  {
    var t := Next(cfg, s, e);
    assert [e, f][1..] == [f] && [f][1..] == [];
    assert LegalRun(cfg, t, [f]) && NoGrants(cfg, t, [f]) && RunAtPrice(cfg, t, [f]);
    assert LargestExcess(cfg, Next(cfg, t, f), []) == 0.0;
    assert LargestExcess(cfg, t, [f]) == ExcessOf(t, f);
    assert Run(cfg, t, [f]) == Next(cfg, t, f);
  }

  // ---- Exactly when the documentation is right ----

  /** A grant at a worst case, in a state whose reservations are worst cases. */
  ghost predicate PricedGrant(cfg: Config, s: State, e: Event) {
    && cfg.Valid() && Sound(cfg, s) && Priced(cfg, s)
    && Legal(s, e) && Granted(cfg, s, e) && AtPrice(cfg, s, e)
  }

  lemma OneCallInFlight(cfg: Config, s: State, e: Event, events: seq<Event>)
    requires PricedGrant(cfg, s, e) && Continues(cfg, Next(cfg, s, e), events)
    requires AtMostOneCounts(cfg, Next(cfg, s, e), e.period.month)
    ensures WithinOneExcess(cfg, Next(cfg, s, e), events)
  {
    var t, p := Next(cfg, s, e), e.period;
    StepKeeps(cfg, s, e);
    StepKeepsPriced(cfg, s, e);
    assert Counting(cfg, t, p.day) <= Counting(cfg, t, p.month);
    OneCallsExcess(cfg, t, events, p.day);
    OneCallsExcess(cfg, t, events, p.month);
    assert WithinCap(cfg, t, p.day, cfg.dayCap) && WithinCap(cfg, t, p.month, cfg.monthCap) && t.over == 0.0;
  }

  lemma OthersInFlight(cfg: Config, s: State, e: Event) returns (events: seq<Event>)
    requires PricedGrant(cfg, s, e) && !AtMostOneCounts(cfg, Next(cfg, s, e), e.period.month)
    ensures Continues(cfg, Next(cfg, s, e), events)
    ensures Committed(cfg, Run(cfg, Next(cfg, s, e), events), e.period.month)
            > cfg.monthCap + HALF_MICRO + LargestExcess(cfg, Next(cfg, s, e), events)
  {
    var t, month := Next(cfg, s, e), e.period.month;
    StepKeeps(cfg, s, e);
    var q, r :| q in Counting(cfg, t, month) && r in Counting(cfg, t, month) && q != r;
    events := TwoExceed(cfg, t, q, r, cfg.monthCap + HALF_MICRO, month);
    CommittedNonNegative(cfg, t, month);
  }

  /** After a grant, everything that can happen before the next one stays within the caps, half a rounding
      unit and the largest excess of a single call, if and only if at most one of the calls then in flight
      arrived since the start of the grant's month and has a price above zero. */
  lemma OvershootIsOneCallsIff(cfg: Config, s: State, e: Event)
    requires PricedGrant(cfg, s, e)
    ensures (forall events :: Continues(cfg, Next(cfg, s, e), events) ==>
               WithinOneExcess(cfg, Next(cfg, s, e), events))
            <==> AtMostOneCounts(cfg, Next(cfg, s, e), e.period.month)
  {
    var t := Next(cfg, s, e);
    if AtMostOneCounts(cfg, t, e.period.month) {
      forall events | Continues(cfg, t, events) ensures WithinOneExcess(cfg, t, events) {
        OneCallInFlight(cfg, s, e, events);
      }
    } else {
      var events := OthersInFlight(cfg, s, e);
      assert Continues(cfg, t, events);
    }
  }

  /** At a price above zero the call just granted is one of them, so no other may be. */
  lemma NoOtherCounts(cfg: Config, s: State, e: Event)
    requires PricedGrant(cfg, s, e) && cfg.prices[e.alias].Charges()
    ensures AtMostOneCounts(cfg, Next(cfg, s, e), e.period.month) <==> Counting(cfg, s, e.period.month) == {}
  {
    var t, month := Next(cfg, s, e), e.period.month;
    var r := Reservation(e.token, e.alias, e.worst, e.period.now);
    LivePush(s, r);
    assert t.Live() == s.Live() + [r];
    assert Counting(cfg, t, month) == Counting(cfg, s, month) + {r};
    ExceptIs(s.pending, s.stale, e.token);
    assert forall q :: q in s.Live() ==> Holds(s.pending, q.token);
  }

  // ---- Two such calls are reached ----

  /** Two calls of these worst cases fit into an empty ledger, one after the other. */
  predicate AdmitsTwo(cfg: Config, first: real, second: real) {
    && first <= cfg.dayCap && Round6(first) + second <= cfg.dayCap
    && first <= cfg.monthCap && Round6(first) + second <= cfg.monthCap
    && (cfg.sharedCalls.Some? ==> cfg.sharedCalls.value >= 2)
  }

  function AskAt(token: nat, worst: real, p: Period): Event { Reserve(token, Ask, worst, p) }

  /** This is what the broker reserves for some ask. */
  ghost predicate IsAskWorst(cfg: Config, worst: real) { Ask in cfg.prices && IsWorst(cfg.prices[Ask], worst) }

  lemma AskIsAtPrice(cfg: Config, s: State, token: nat, worst: real, p: Period)
    requires cfg.Valid() && p.Valid() && IsAskWorst(cfg, worst) && !Holds(s.pending, token)
    ensures Legal(s, AskAt(token, worst, p)) && AtPrice(cfg, s, AskAt(token, worst, p))
  {
    WorstIsNonNegative(cfg.prices[Ask], worst);
  }

  /** The usage of an empty ledger under these reservations. */
  lemma FirstAsk(cfg: Config, first: real, p: Period)
    ensures var u := UsageOf(cfg, [], [], p); u.day == u.month == 0.0 && u.ask == u.auto == 0
    ensures var u := UsageOf(cfg, [], [Reservation(1, Ask, first, p.now)], p);
            u.day == u.month == Round6(first) && u.ask == 1 && u.auto == 0
  {
    RoundsToNothingIff(0.0);
    var held := [Reservation(1, Ask, first, p.now)];
    assert held[..0] == [];
    assert Held(held) == first && Spent(cfg, [], p.day) == Spent(cfg, [], p.month) == 0.0;
  }

  lemma FirstIsGranted(cfg: Config, p: Period, first: real, second: real) returns (s: State)
    requires cfg.Valid() && p.Valid() && IsAskWorst(cfg, first) && second >= 0.0
    requires AdmitsTwo(cfg, first, second)
    ensures PricedGrant(cfg, Start([]), AskAt(1, first, p)) && s == Next(cfg, Start([]), AskAt(1, first, p))
    ensures s.rows == [] && s.pending == s.Live() == [Reservation(1, Ask, first, p.now)]
  {
    FirstAsk(cfg, first, p);
    AskIsAtPrice(cfg, Start([]), 1, first, p);
    s := Next(cfg, Start([]), AskAt(1, first, p));
    ExceptAbsent(s.pending, {});
  }

  lemma SecondIsGranted(cfg: Config, s: State, first: real, p: Period, second: real)
    requires cfg.Valid() && p.Valid() && IsAskWorst(cfg, second) && AdmitsTwo(cfg, first, second)
    requires s.rows == [] && s.pending == [Reservation(1, Ask, first, p.now)]
    ensures Legal(s, AskAt(2, second, p)) && AtPrice(cfg, s, AskAt(2, second, p))
    ensures Granted(cfg, s, AskAt(2, second, p))
  {
    FirstAsk(cfg, first, p);
    AskIsAtPrice(cfg, s, 2, second, p);
  }

  /** Two asks granted one after the other, in the state before the second. */
  lemma TwoAreGranted(cfg: Config, p: Period, first: real, second: real) returns (s: State)
    requires cfg.Valid() && p.Valid()
    requires IsAskWorst(cfg, first) && IsAskWorst(cfg, second) && AdmitsTwo(cfg, first, second)
    ensures PricedGrant(cfg, Start([]), AskAt(1, first, p)) && s == Next(cfg, Start([]), AskAt(1, first, p))
    ensures PricedGrant(cfg, s, AskAt(2, second, p)) && s.Live() == [Reservation(1, Ask, first, p.now)]
  {
    WorstIsNonNegative(cfg.prices[Ask], second);
    s := FirstIsGranted(cfg, p, first, second);
    SecondIsGranted(cfg, s, first, p, second);
    StepKeeps(cfg, Start([]), AskAt(1, first, p));
    StepKeepsPriced(cfg, Start([]), AskAt(1, first, p));
  }

  /** A run from an empty ledger at the broker's prices that passes the monthly cap by more than the largest
      excess. */
  ghost predicate Overshoots(cfg: Config, run: seq<Event>, month: real) {
    && LegalRun(cfg, Start([]), run) && RunAtPrice(cfg, Start([]), run)
    && Committed(cfg, Run(cfg, Start([]), run), month)
       > cfg.monthCap + HALF_MICRO + LargestExcess(cfg, Start([]), run)
  }

  /** In every configuration with a price for asks that lets two of them in, the broker has such a run: both
      calls exceed. */
  lemma TwoCallsOvershootTwice(cfg: Config, p: Period, first: real, second: real) returns (run: seq<Event>)
    requires cfg.Valid() && p.Valid() && IsAskWorst(cfg, first) && IsAskWorst(cfg, second)
    requires cfg.prices[Ask].Charges() && AdmitsTwo(cfg, first, second)
    ensures Overshoots(cfg, run, p.month)
  {
    var e, f := AskAt(1, first, p), AskAt(2, second, p);
    var s := TwoAreGranted(cfg, p, first, second);
    assert s.Live()[0] in Counting(cfg, s, p.month);
    NoOtherCounts(cfg, s, f);
    var rest := OthersInFlight(cfg, s, f);
    StepThen(cfg, s, f, rest);
    StepThen(cfg, Start([]), e, [f] + rest);
    run := [e] + ([f] + rest);
  }

  lemma StepThen(cfg: Config, s: State, e: Event, rest: seq<Event>)
    requires Legal(s, e) && AtPrice(cfg, s, e) && e.Reserve?
    requires LegalRun(cfg, Next(cfg, s, e), rest) && RunAtPrice(cfg, Next(cfg, s, e), rest)
    ensures LegalRun(cfg, s, [e] + rest) && RunAtPrice(cfg, s, [e] + rest)
    ensures Run(cfg, s, [e] + rest) == Run(cfg, Next(cfg, s, e), rest)
    ensures LargestExcess(cfg, s, [e] + rest) == LargestExcess(cfg, Next(cfg, s, e), rest)
  {
    assert ([e] + rest)[1..] == rest;
  }
}
