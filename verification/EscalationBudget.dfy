/** The spending rules of the escalation broker (check_budget and Ledger.usage, reserve, release and
    settle, scripts/files/escalation.py), on values.  Money is exact, in dollars; the start of the day
    and of the month are given. */
module EscalationBudget {
  import opened Options

  datatype Alias = Ask | Auto | Hard

  /** Dollars per million input and output tokens. */
  datatype Price = Price(input: real, output: real) {
    predicate Valid() { input >= 0.0 && output >= 0.0 }

    predicate Charges() { input > 0.0 || output > 0.0 }
  }

  /** None means no call-count limit; an alias whose model has no price is missing from `prices`. */
  datatype Config = Config(monthCap: real, dayCap: real, sharedCalls: Option<nat>, autoCalls: Option<nat>,
                           hardCalls: Option<nat>, prices: map<Alias, Price>)
  {
    predicate Valid() { monthCap >= 0.0 && dayCap >= 0.0 && forall a :: a in prices ==> prices[a].Valid() }
  }

  /** A ledger row as far as the budget reads it; None is missing or unreadable. */
  datatype Row = Row(ts: Option<real>, alias: Option<Alias>, cost: Option<real>, outcome: string)

  /** The worst case of a call under way, and when its request arrived. */
  datatype Reservation = Reservation(token: nat, alias: Alias, worst: real, arrival: real)

  /** The moment of a request with the start of its day and of its month. */
  datatype Period = Period(now: real, day: real, month: real) {
    predicate Valid() { month <= day <= now }
  }

  // ---- Usage ----

  predicate Refused(r: Row) { "refused" <= r.outcome }

  /** An unreadable time stamp counts as now, so in every window. */
  predicate InWindow(r: Row, start: real) { r.ts.None? || r.ts.value >= start }

  /** An unreadable or negative cost counts as the whole day cap. */
  function CostOf(cfg: Config, r: Row): real {
    if r.cost.None? || r.cost.value < 0.0 then cfg.dayCap else r.cost.value
  }

  function Spent(cfg: Config, rows: seq<Row>, start: real): real {
    if rows == [] then 0.0
    else Spent(cfg, rows[..|rows| - 1], start)
         + if InWindow(rows[|rows| - 1], start) then CostOf(cfg, rows[|rows| - 1]) else 0.0
  }

  function CallsMade(rows: seq<Row>, start: real, alias: Alias): nat {
    if rows == [] then 0
    else CallsMade(rows[..|rows| - 1], start, alias)
         + var r := rows[|rows| - 1];
           if InWindow(r, start) && r.alias == Some(alias) && !Refused(r) then 1 else 0
  }

  function Held(pending: seq<Reservation>): real {
    if pending == [] then 0.0 else Held(pending[..|pending| - 1]) + pending[|pending| - 1].worst
  }

  function CallsHeld(pending: seq<Reservation>, alias: Alias): nat {
    if pending == [] then 0
    else CallsHeld(pending[..|pending| - 1], alias) + if pending[|pending| - 1].alias == alias then 1 else 0
  }

  /** To six decimals, ties to even. */
  function Round6(x: real): (r: real)
    ensures x - HALF_MICRO <= r <= x + HALF_MICRO
    ensures x >= 0.0 ==> r >= 0.0
  {
    var y := x * 1000000.0;
    var f := y.Floor;
    var n := if y - f as real < 0.5 || (y - f as real == 0.5 && f % 2 == 0) then f else f + 1;
    n as real / 1000000.0
  }

  const HALF_MICRO := 0.0000005

  function Micros(n: int): real { n as real / 1000000.0 }

  /** The nearest whole number of micro-dollars, and of two equally near the even one. */
  lemma Round6IsNearest(x: real) returns (n: int)
    ensures Round6(x) == Micros(n)
    ensures forall m: int :: m != n ==>
              Distance(x, Micros(n)) < Distance(x, Micros(m))
              || (Distance(x, Micros(n)) == Distance(x, Micros(m)) && n % 2 == 0)
  {
    var y := x * 1000000.0;
    var f := y.Floor;
    n := if y - f as real < 0.5 || (y - f as real == 0.5 && f % 2 == 0) then f else f + 1;
  }

  function Distance(a: real, b: real): real { if a > b then a - b else b - a }

  datatype Usage = Usage(day: real, month: real, ask: nat, auto: nat, hard: nat)

  function UsageOf(cfg: Config, rows: seq<Row>, pending: seq<Reservation>, p: Period): Usage {
    Usage(Round6(Spent(cfg, rows, p.day) + Held(pending)),
          Round6(Spent(cfg, rows, p.month) + Held(pending)),
          CallsMade(rows, p.day, Ask) + CallsHeld(pending, Ask),
          CallsMade(rows, p.day, Auto) + CallsHeld(pending, Auto),
          CallsMade(rows, p.day, Hard) + CallsHeld(pending, Hard))
  }

  datatype Reason = MonthlyCap | DailyCap | HardCalls | SharedCalls | AutoCalls

  function CheckBudget(cfg: Config, u: Usage, alias: Alias, worst: real): Option<Reason> {
    if !(u.month + worst <= cfg.monthCap) then Some(MonthlyCap)
    else if !(u.day + worst <= cfg.dayCap) then Some(DailyCap)
    else if alias == Hard then
      if cfg.hardCalls.Some? && u.hard >= cfg.hardCalls.value then Some(HardCalls) else None
    else if cfg.sharedCalls.Some? && u.ask + u.auto >= cfg.sharedCalls.value then Some(SharedCalls)
    else if alias == Auto && cfg.autoCalls.Some? && u.auto >= cfg.autoCalls.value then Some(AutoCalls)
    else None
  }

  /** The order in which the limits are checked. */
  function Place(limit: Reason): nat {
    match limit
    case MonthlyCap => 0
    case DailyCap => 1
    case HardCalls => 2
    case SharedCalls => 3
    case AutoCalls => 4
  }

  /** This limit still holds once the reservation is added to what is recorded and reserved.  The count of
      hard calls limits these alone, the shared count the two other kinds together, and automatic calls have
      a count of their own besides. */
  predicate Leaves(cfg: Config, rows: seq<Row>, pending: seq<Reservation>, r: Reservation, p: Period, limit: Reason) {
    var held := pending + [r];
    match limit
    case MonthlyCap => Round6(Spent(cfg, rows, p.month) + Held(pending)) + r.worst <= cfg.monthCap
    case DailyCap => Round6(Spent(cfg, rows, p.day) + Held(pending)) + r.worst <= cfg.dayCap
    case HardCalls =>
      r.alias == Hard && cfg.hardCalls.Some? ==>
        CallsMade(rows, p.day, Hard) + CallsHeld(held, Hard) <= cfg.hardCalls.value
    case SharedCalls =>
      r.alias != Hard && cfg.sharedCalls.Some? ==>
        CallsMade(rows, p.day, Ask) + CallsMade(rows, p.day, Auto) + CallsHeld(held, Ask) + CallsHeld(held, Auto)
        <= cfg.sharedCalls.value
    case AutoCalls =>
      r.alias == Auto && cfg.autoCalls.Some? ==>
        CallsMade(rows, p.day, Auto) + CallsHeld(held, Auto) <= cfg.autoCalls.value
  }

  /** Every limit holds with the reservation added. */
  predicate Affordable(cfg: Config, rows: seq<Row>, pending: seq<Reservation>, r: Reservation, p: Period) {
    forall limit: Reason :: Leaves(cfg, rows, pending, r, p, limit)
  }

  /** It is the first of the limits that would not hold. */
  predicate FirstBroken(cfg: Config, rows: seq<Row>, pending: seq<Reservation>, r: Reservation, p: Period,
                        reason: Reason) {
    && !Leaves(cfg, rows, pending, r, p, reason)
    && forall limit :: Place(limit) < Place(reason) ==> Leaves(cfg, rows, pending, r, p, limit)
  }

  lemma CallsHeldPush(pending: seq<Reservation>, r: Reservation, alias: Alias)
    ensures CallsHeld(pending + [r], alias) == CallsHeld(pending, alias) + if r.alias == alias then 1 else 0
  {
    assert (pending + [r])[..|pending|] == pending;
  }

  /** The check of the usage refuses exactly what would break a limit, and names the first one. */
  lemma GrantedIffAffordable(cfg: Config, rows: seq<Row>, pending: seq<Reservation>, r: Reservation, p: Period)
    ensures var reason := CheckBudget(cfg, UsageOf(cfg, rows, pending, p), r.alias, r.worst);
            && (reason.None? <==> Affordable(cfg, rows, pending, r, p))
            && (reason.Some? ==> FirstBroken(cfg, rows, pending, r, p, reason.value))
  {
    CallsHeldPush(pending, r, Ask);
    CallsHeldPush(pending, r, Auto);
    CallsHeldPush(pending, r, Hard);
    var reason := CheckBudget(cfg, UsageOf(cfg, rows, pending, p), r.alias, r.worst);
    if reason.Some? { assert !Leaves(cfg, rows, pending, r, p, reason.value); }
  }

  // ---- The ledger as a state machine ----

  function Except(pending: seq<Reservation>, tokens: set<nat>): seq<Reservation> {
    if pending == [] then []
    else
      var last := pending[|pending| - 1];
      Except(pending[..|pending| - 1], tokens) + if last.token in tokens then [] else [last]
  }

  function Drop(pending: seq<Reservation>, token: nat): seq<Reservation> { Except(pending, {token}) }

  predicate Holds(pending: seq<Reservation>, token: nat) {
    exists i :: 0 <= i < |pending| && pending[i].token == token
  }

  function Find(pending: seq<Reservation>, token: nat): (r: Reservation)
    requires Holds(pending, token)
    ensures r in pending && r.token == token
  {
    if pending[|pending| - 1].token == token then pending[|pending| - 1] else Find(pending[..|pending| - 1], token)
  }

  function WorstOf(pending: seq<Reservation>, token: nat): real
    requires Holds(pending, token)
  {
    Find(pending, token).worst
  }

  function AliasOf(pending: seq<Reservation>, token: nat): Alias
    requires Holds(pending, token)
  {
    Find(pending, token).alias
  }

  function ArrivalOf(pending: seq<Reservation>, token: nat): real
    requires Holds(pending, token)
  {
    Find(pending, token).arrival
  }

  predicate Distinct(pending: seq<Reservation>) {
    forall i, j :: 0 <= i < j < |pending| ==> pending[i].token != pending[j].token
  }

  /** How appending a row ends: the row is in the file and the append returned, the append raised before the
      row was whole, or it raised although the row had got out. */
  datatype Written = Done | Lost | Landed

  /** A restart forgets the reservations. */
  datatype Event =
    | Reserve(token: nat, alias: Alias, worst: real, period: Period)
    | Settle(token: nat, row: Row, written: Written)
    | Release(token: nat)
    | Refuse(row: Row)
    | Restart

  /** `stale` are the reservations still held although the row of their call is in the file.
      `grant` is the period of the latest granted reservation, `newest` the latest day in which one was
      granted, `inFlight` the number of live reservations right after that grant.  Since then `settled`
      calls were recorded, exceeding their reservations by `over` in all, and those among them that kept
      their reservation count `doubled` twice. */
  datatype State = State(rows: seq<Row>, pending: seq<Reservation>, stale: set<nat>, grant: Option<Period>,
                         newest: Option<real>, over: real, settled: nat, inFlight: nat, doubled: real)
  {
    /** The reservations of calls that are not recorded yet. */
    function Live(): seq<Reservation> { Except(pending, stale) }
  }

  function Start(rows: seq<Row>): State { State(rows, [], {}, None, None, 0.0, 0, 0, 0.0) }

  function Positive(x: real): real { if x > 0.0 then x else 0.0 }

  /** What the callers guarantee: tokens are fresh, a call is settled once, under its own alias and the time
      it arrived, with the finite cost it is charged, and a refusal row carries no cost. */
  predicate Legal(s: State, e: Event) {
    match e
    case Reserve(token, _, worst, period) => !Holds(s.pending, token) && worst >= 0.0 && period.Valid()
    case Settle(token, row, _) =>
      Holds(s.pending, token) && token !in s.stale && row.alias == Some(AliasOf(s.pending, token))
      && row.ts == Some(ArrivalOf(s.pending, token)) && !Refused(row) && row.cost.Some? && row.cost.value >= 0.0
    case Release(_) => true
    case Refuse(row) => Refused(row) && row.cost == Some(0.0)
    case Restart => true
  }

  predicate Granted(cfg: Config, s: State, e: Event) {
    e.Reserve? && CheckBudget(cfg, UsageOf(cfg, s.rows, s.pending, e.period), e.alias, e.worst).None?
  }

  /** By how much a call exceeds its reservation. */
  function Excess(s: State, token: nat, row: Row): real
    requires Holds(s.pending, token) && row.cost.Some?
  {
    Positive(row.cost.value - WorstOf(s.pending, token))
  }

  /** A call recorded: its row, and what it costs beyond its reservation. */
  function Charged(s: State, token: nat, row: Row): State
    requires Holds(s.pending, token) && row.cost.Some?
  {
    s.(rows := s.rows + [row], over := s.over + Excess(s, token, row), settled := s.settled + 1)
  }

  function Next(cfg: Config, s: State, e: Event): State
    requires Legal(s, e)
  {
    match e
    case Reserve(token, alias, worst, p) =>
      if !Granted(cfg, s, e) then s
      else s.(pending := s.pending + [Reservation(token, alias, worst, p.now)], grant := Some(p),
              newest := Some(if s.newest.Some? && s.newest.value > p.day then s.newest.value else p.day),
              over := 0.0, settled := 0, inFlight := |s.Live()| + 1, doubled := 0.0)
    case Settle(token, row, written) =>
      (match written
       case Done => Charged(s, token, row).(pending := Drop(s.pending, token))
       case Lost => s
       case Landed =>
         Charged(s, token, row).(stale := s.stale + {token}, doubled := s.doubled + WorstOf(s.pending, token)))
    case Release(token) => s.(pending := Drop(s.pending, token), stale := s.stale - {token})
    case Refuse(row) => s.(rows := s.rows + [row])
    case Restart => s.(pending := [], stale := {})
  }

  predicate LegalRun(cfg: Config, s: State, events: seq<Event>)
    decreases |events|
  {
    events == [] || (Legal(s, events[0]) && LegalRun(cfg, Next(cfg, s, events[0]), events[1..]))
  }

  function Run(cfg: Config, s: State, events: seq<Event>): State
    requires LegalRun(cfg, s, events)
    decreases |events|
  {
    if events == [] then s else Run(cfg, Next(cfg, s, events[0]), events[1..])
  }

  // ---- Sums ----

  /** A later window counts no more. */
  lemma {:induction false} LaterWindow(cfg: Config, rows: seq<Row>, a: real, b: real, alias: Alias)
    requires cfg.Valid() && a <= b
    ensures Spent(cfg, rows, b) <= Spent(cfg, rows, a) && CallsMade(rows, b, alias) <= CallsMade(rows, a, alias)
  {
    if rows != [] { LaterWindow(cfg, rows[..|rows| - 1], a, b, alias); }
  }

  lemma HoldsInit(pending: seq<Reservation>, token: nat)
    requires pending != []
    ensures Holds(pending, token) <==> Holds(pending[..|pending| - 1], token) || pending[|pending| - 1].token == token
  {
    var init := pending[..|pending| - 1];
    if i :| 0 <= i < |init| && init[i].token == token { assert pending[i].token == token; }
    if i :| 0 <= i < |pending| && pending[i].token == token { assert i < |init| ==> init[i].token == token; }
  }

  /** Reservations taken out leave the others as they were. */
  lemma {:induction false} ExceptIs(pending: seq<Reservation>, tokens: set<nat>, token: nat)
    requires Distinct(pending)
    ensures forall r :: r in Except(pending, tokens) <==> r in pending && r.token !in tokens
    ensures Holds(Except(pending, tokens), token) <==> Holds(pending, token) && token !in tokens
    ensures Holds(Except(pending, tokens), token) ==> Find(Except(pending, tokens), token) == Find(pending, token)
  {
    if pending != [] {
      var init, last := pending[..|pending| - 1], pending[|pending| - 1];
      ExceptIs(init, tokens, token);
      HoldsInit(pending, token);
      var w := Except(pending, tokens);
      if last.token !in tokens {
        assert w[..|w| - 1] == Except(init, tokens) && w[|w| - 1] == last;
        HoldsInit(w, token);
      } else {
        assert w == Except(init, tokens);
        if last.token == token { NoneBefore(pending); }
      }
    }
  }

  lemma NoneBefore(pending: seq<Reservation>)
    requires pending != [] && Distinct(pending)
    ensures !Holds(pending[..|pending| - 1], pending[|pending| - 1].token)
  {
  }

  lemma {:induction false} ExceptDistinct(pending: seq<Reservation>, tokens: set<nat>)
    requires Distinct(pending)
    ensures Distinct(Except(pending, tokens))
  {
    if pending != [] {
      var init, last := pending[..|pending| - 1], pending[|pending| - 1];
      ExceptDistinct(init, tokens);
      ExceptIs(init, tokens, last.token);
      NoneBefore(pending);
    }
  }

  lemma {:induction false} ExceptTwice(pending: seq<Reservation>, a: set<nat>, b: set<nat>)
    ensures Except(Except(pending, a), b) == Except(pending, a + b)
  {
    if pending != [] {
      var init, last := pending[..|pending| - 1], pending[|pending| - 1];
      ExceptTwice(init, a, b);
      var w := Except(init, a);
      if last.token !in a {
        assert (w + [last])[..|w + [last]| - 1] == w;
      } else {
        assert w + [] == w;
      }
    }
  }

  lemma {:induction false} ExceptAbsent(pending: seq<Reservation>, tokens: set<nat>)
    requires forall r :: r in pending ==> r.token !in tokens
    ensures Except(pending, tokens) == pending
  {
    if pending != [] {
      var init, last := pending[..|pending| - 1], pending[|pending| - 1];
      ExceptAbsent(init, tokens);
      assert last in pending;
      assert pending == init + [last];
    }
  }

  lemma {:induction false} HeldExcept(pending: seq<Reservation>, tokens: set<nat>)
    requires forall r :: r in pending ==> r.worst >= 0.0
    ensures 0.0 <= Held(Except(pending, tokens)) <= Held(pending)
  {
    if pending != [] {
      var init, last := pending[..|pending| - 1], pending[|pending| - 1];
      HeldExcept(init, tokens);
      var w := Except(init, tokens);
      assert last in pending && (w + [last])[..|w + [last]| - 1] == w && w + [] == w;
    }
  }

  lemma {:induction false} DropHeld(pending: seq<Reservation>, token: nat)
    requires Distinct(pending)
    ensures |Drop(pending, token)| == |pending| - if Holds(pending, token) then 1 else 0
    ensures Held(Drop(pending, token)) == Held(pending) - if Holds(pending, token) then WorstOf(pending, token) else 0.0
  {
    if pending != [] {
      var init, last := pending[..|pending| - 1], pending[|pending| - 1];
      DropHeld(init, token);
      HoldsInit(pending, token);
      NoneBefore(pending);
      DropLast(pending, token);
    }
  }

  lemma {:induction false} DropCalls(pending: seq<Reservation>, token: nat, alias: Alias)
    requires Distinct(pending)
    ensures CallsHeld(Drop(pending, token), alias)
            == CallsHeld(pending, alias) - if Holds(pending, token) && AliasOf(pending, token) == alias then 1 else 0
  {
    if pending != [] {
      var init, last := pending[..|pending| - 1], pending[|pending| - 1];
      DropCalls(init, token, alias);
      HoldsInit(pending, token);
      NoneBefore(pending);
      DropLast(pending, token);
    }
  }

  lemma DropLast(pending: seq<Reservation>, token: nat)
    requires pending != []
    ensures var (init, last) := (Drop(pending[..|pending| - 1], token), pending[|pending| - 1]);
            if last.token == token then Drop(pending, token) == init
            else Drop(pending, token) == init + [last] && Drop(pending, token)[..|Drop(pending, token)| - 1] == init
  {
  }

  lemma DropIs(pending: seq<Reservation>, token: nat)
    requires Distinct(pending)
    ensures Distinct(Drop(pending, token)) && !Holds(Drop(pending, token), token)
    ensures |Drop(pending, token)| == |pending| - if Holds(pending, token) then 1 else 0
    ensures Held(Drop(pending, token)) == Held(pending) - if Holds(pending, token) then WorstOf(pending, token) else 0.0
    ensures forall alias ::
              CallsHeld(Drop(pending, token), alias)
              == CallsHeld(pending, alias) - if Holds(pending, token) && AliasOf(pending, token) == alias then 1 else 0
  {
    ExceptDistinct(pending, {token});
    ExceptIs(pending, {token}, token);
    DropHeld(pending, token);
    forall alias
      ensures CallsHeld(Drop(pending, token), alias)
              == CallsHeld(pending, alias) - if Holds(pending, token) && AliasOf(pending, token) == alias then 1 else 0
    {
      DropCalls(pending, token, alias);
    }
  }

  /** A call that is recorded stops being live, whether its reservation is dropped or merely kept in vain. */
  lemma LiveAfter(s: State, token: nat)
    ensures Except(Drop(s.pending, token), s.stale - {token}) == Drop(s.Live(), token)
    ensures Except(s.pending, s.stale + {token}) == Drop(s.Live(), token)
  {
    ExceptTwice(s.pending, {token}, s.stale - {token});
    ExceptTwice(s.pending, s.stale, {token});
    assert {token} + (s.stale - {token}) == s.stale + {token};
  }

  // ---- Dollars: what every run keeps ----

  /** What is recorded in a window plus what the live calls reserve. */
  function Committed(cfg: Config, s: State, start: real): real { Spent(cfg, s.rows, start) + Held(s.Live()) }

  /** The same as the broker counts it, with every reservation it still holds. */
  function Counted(cfg: Config, s: State, start: real): real { Spent(cfg, s.rows, start) + Held(s.pending) }

  /** The bounds for one window: the cap, half a rounding unit, and the excess since the grant; the broker's
      own count may be higher by the reservations that were kept in vain since then. */
  predicate WithinCap(cfg: Config, s: State, start: real, cap: real) {
    && Committed(cfg, s, start) <= cap + HALF_MICRO + s.over
    && Counted(cfg, s, start) <= cap + HALF_MICRO + s.over + s.doubled
  }

  predicate WithinCaps(cfg: Config, s: State) {
    s.grant.Some? ==>
      WithinCap(cfg, s, s.grant.value.day, cfg.dayCap) && WithinCap(cfg, s, s.grant.value.month, cfg.monthCap)
  }

  predicate WellHeld(s: State) {
    && Distinct(s.pending)
    && (forall r :: r in s.pending ==> r.worst >= 0.0)
    && (forall token :: token in s.stale ==> Holds(s.pending, token))
  }

  predicate Sound(cfg: Config, s: State) {
    && WellHeld(s)
    && (s.grant.None? ==> s.pending == [])
    && (s.grant.Some? <==> s.newest.Some?)
    && (s.grant.Some? ==> s.grant.value.Valid() && s.grant.value.day <= s.newest.value)
    && s.over >= 0.0 && s.doubled >= 0.0
    && (s.grant.Some? ==> s.settled + |s.Live()| <= s.inFlight)
    && WithinCaps(cfg, s)
  }

  lemma {:induction false} HeldNonNegative(pending: seq<Reservation>, token: nat)
    requires forall r :: r in pending ==> r.worst >= 0.0
    ensures Held(pending) >= 0.0
    ensures Holds(pending, token) ==> 0.0 <= WorstOf(pending, token) <= Held(pending)
  {
    if pending != [] {
      HeldNonNegative(pending[..|pending| - 1], token);
      HoldsInit(pending, token);
      assert pending[|pending| - 1] in pending;
    }
  }

  lemma SpentPush(cfg: Config, rows: seq<Row>, row: Row, start: real, alias: Alias)
    ensures Spent(cfg, rows + [row], start)
            == Spent(cfg, rows, start) + if InWindow(row, start) then CostOf(cfg, row) else 0.0
    ensures CallsMade(rows + [row], start, alias)
            == CallsMade(rows, start, alias)
               + if InWindow(row, start) && row.alias == Some(alias) && !Refused(row) then 1 else 0
  {
    assert (rows + [row])[..|rows|] == rows;
  }

  /** What one more row adds, read off its fields: its cost in a window it does not precede, the day cap in
      place of a cost that is missing or negative, and one call of its alias unless it is a refusal. */
  lemma RowAdds(cfg: Config, rows: seq<Row>, row: Row, start: real, alias: Alias)
    ensures var counts := row.ts.None? || row.ts.value >= start;
            && Spent(cfg, rows + [row], start)
               == Spent(cfg, rows, start)
                  + (if !counts then 0.0
                     else if row.cost.Some? && row.cost.value >= 0.0 then row.cost.value
                     else cfg.dayCap)
            && CallsMade(rows + [row], start, alias)
               == CallsMade(rows, start, alias)
                  + (if counts && row.alias == Some(alias) && !("refused" <= row.outcome) then 1 else 0)
  {
    SpentPush(cfg, rows, row, start, alias);
  }

  lemma LivePush(s: State, r: Reservation)
    requires WellHeld(s) && !Holds(s.pending, r.token)
    ensures Except(s.pending + [r], s.stale) == s.Live() + [r]
    ensures Held(s.pending + [r]) == Held(s.pending) + r.worst
    ensures Held(s.Live() + [r]) == Held(s.Live()) + r.worst
    ensures forall alias ::
              CallsHeld(s.Live() + [r], alias) == CallsHeld(s.Live(), alias) + if r.alias == alias then 1 else 0
  {
    assert (s.pending + [r])[..|s.pending|] == s.pending;
    assert (s.Live() + [r])[..|s.Live()|] == s.Live();
  }

  lemma ReserveKeepsHeld(cfg: Config, s: State, e: Event)
    requires WellHeld(s) && Legal(s, e) && e.Reserve?
    ensures WellHeld(Next(cfg, s, e))
  {
    if Granted(cfg, s, e) {
      var p := s.pending + [Reservation(e.token, e.alias, e.worst, e.period.now)];
      forall i | 0 <= i < |s.pending| ensures p[i].token != e.token { }
      forall token | token in s.stale ensures Holds(p, token) {
        var i :| 0 <= i < |s.pending| && s.pending[i].token == token;
        assert p[i].token == token;
      }
    }
  }

  /** A grant is within both caps, half a rounding unit aside. */
  lemma GrantIsWithinCaps(cfg: Config, s: State, e: Event)
    requires WellHeld(s) && Legal(s, e) && Granted(cfg, s, e)
    ensures WithinCaps(cfg, Next(cfg, s, e))
  {
    var r, p := Reservation(e.token, e.alias, e.worst, e.period.now), e.period;
    LivePush(s, r);
    HeldExcept(s.pending, s.stale);
    var u := UsageOf(cfg, s.rows, s.pending, p);
    assert u.day + e.worst <= cfg.dayCap && u.month + e.worst <= cfg.monthCap;
    assert Spent(cfg, s.rows, p.day) + Held(s.pending) <= u.day + HALF_MICRO;
    assert Spent(cfg, s.rows, p.month) + Held(s.pending) <= u.month + HALF_MICRO;
  }

  lemma ReserveKeeps(cfg: Config, s: State, e: Event)
    requires cfg.Valid() && Sound(cfg, s) && Legal(s, e) && e.Reserve?
    ensures Sound(cfg, Next(cfg, s, e))
  {
    ReserveKeepsHeld(cfg, s, e);
    if Granted(cfg, s, e) {
      GrantIsWithinCaps(cfg, s, e);
      LivePush(s, Reservation(e.token, e.alias, e.worst, e.period.now));
    }
  }

  /** Dropping a reservation, live or stale. */
  lemma DropKeepsHeld(s: State, token: nat)
    requires WellHeld(s)
    ensures WellHeld(s.(pending := Drop(s.pending, token), stale := s.stale - {token}))
  {
    DropIs(s.pending, token);
    ExceptIs(s.pending, {token}, token);
    forall u | u in s.stale - {token} ensures Holds(Drop(s.pending, token), u) { ExceptIs(s.pending, {token}, u); }
  }

  lemma LiveDrop(s: State, token: nat)
    requires WellHeld(s)
    ensures var d := Drop(s.Live(), token);
            && |d| == |s.Live()| - (if Holds(s.Live(), token) then 1 else 0)
            && Held(d) == Held(s.Live()) - (if Holds(s.Live(), token) then WorstOf(s.Live(), token) else 0.0)
            && (Holds(s.Live(), token) <==> Holds(s.pending, token) && token !in s.stale)
            && (Holds(s.Live(), token) ==> WorstOf(s.Live(), token) == WorstOf(s.pending, token) >= 0.0)
  {
    ExceptDistinct(s.pending, s.stale);
    ExceptIs(s.pending, s.stale, token);
    DropIs(s.Live(), token);
    HeldNonNegative(s.pending, token);
  }

  lemma ReleaseKeepsWindow(cfg: Config, s: State, token: nat, start: real, cap: real)
    requires WellHeld(s) && WithinCap(cfg, s, start, cap)
    ensures WithinCap(cfg, Next(cfg, s, Release(token)), start, cap)
  {
    LiveAfter(s, token);
    LiveDrop(s, token);
    DropIs(s.pending, token);
    HeldNonNegative(s.pending, token);
  }

  lemma ReleaseKeepsCount(s: State, token: nat)
    requires WellHeld(s)
    ensures |Except(Drop(s.pending, token), s.stale - {token})| <= |s.Live()|
  {
    LiveAfter(s, token);
    LiveDrop(s, token);
  }

  lemma ReleaseKeeps(cfg: Config, s: State, token: nat)
    requires cfg.Valid() && Sound(cfg, s)
    ensures Sound(cfg, Next(cfg, s, Release(token)))
  {
    DropKeepsHeld(s, token);
    if s.grant.Some? {
      ReleaseKeepsCount(s, token);
      ReleaseKeepsWindow(cfg, s, token, s.grant.value.day, cfg.dayCap);
      ReleaseKeepsWindow(cfg, s, token, s.grant.value.month, cfg.monthCap);
    } else {
      DropOfNone(token);
    }
  }

  lemma DropOfNone(token: nat)
    ensures Drop([], token) == []
  {
  }

  lemma RefuseKeepsWindow(cfg: Config, s: State, row: Row, start: real, cap: real)
    requires Legal(s, Refuse(row)) && WithinCap(cfg, s, start, cap)
    ensures WithinCap(cfg, Next(cfg, s, Refuse(row)), start, cap)
  {
    SpentPush(cfg, s.rows, row, start, Ask);
  }

  lemma RefuseKeeps(cfg: Config, s: State, row: Row)
    requires cfg.Valid() && Sound(cfg, s) && Legal(s, Refuse(row))
    ensures Sound(cfg, Next(cfg, s, Refuse(row)))
  {
    if s.grant.Some? {
      RefuseKeepsWindow(cfg, s, row, s.grant.value.day, cfg.dayCap);
      RefuseKeepsWindow(cfg, s, row, s.grant.value.month, cfg.monthCap);
    }
  }

  lemma SettleKeepsHeld(cfg: Config, s: State, e: Event)
    requires WellHeld(s) && Legal(s, e) && e.Settle?
    ensures WellHeld(Next(cfg, s, e))
  {
    DropKeepsHeld(s, e.token);
    assert s.stale - {e.token} == s.stale;
  }

  /** What settling leaves held, live and in all. */
  lemma AfterSettle(cfg: Config, s: State, e: Event)
    requires WellHeld(s) && Legal(s, e) && e.Settle?
    ensures Next(cfg, s, e).Live() == if e.written == Lost then s.Live() else Drop(s.Live(), e.token)
    ensures Next(cfg, s, e).pending == if e.written == Done then Drop(s.pending, e.token) else s.pending
  {
    LiveAfter(s, e.token);
    assert s.stale - {e.token} == s.stale;
  }

  lemma HeldAfterSettle(cfg: Config, s: State, e: Event)
    requires WellHeld(s) && Legal(s, e) && e.Settle?
    ensures var t, worst := Next(cfg, s, e), WorstOf(s.pending, e.token);
            && worst >= 0.0
            && Held(t.Live()) == Held(s.Live()) - (if e.written == Lost then 0.0 else worst)
            && Held(t.pending) == Held(s.pending) - (if e.written == Done then worst else 0.0)
  {
    AfterSettle(cfg, s, e);
    LiveDrop(s, e.token);
    DropIs(s.pending, e.token);
  }

  lemma SpentAfterSettle(cfg: Config, s: State, e: Event, start: real)
    requires Legal(s, e) && e.Settle?
    ensures Spent(cfg, s.rows, start) <= Spent(cfg, Next(cfg, s, e).rows, start)
            <= Spent(cfg, s.rows, start) + if e.written == Lost then 0.0 else e.row.cost.value
  {
    SpentPush(cfg, s.rows, e.row, start, Ask);
  }

  /** The sums alone: what is spent grows by at most the cost, what is held falls by the reservation. */
  lemma WithinCapAfter(cfg: Config, s: State, t: State, start: real, cap: real, cost: real, worst: real, kept: real)
    requires WithinCap(cfg, s, start, cap) && worst >= 0.0 && cost >= 0.0 && 0.0 <= kept <= worst
    requires Spent(cfg, t.rows, start) <= Spent(cfg, s.rows, start) + cost
    requires Held(t.Live()) == Held(s.Live()) - worst && Held(t.pending) == Held(s.pending) - worst + kept
    requires t.over == s.over + Positive(cost - worst) && t.doubled == s.doubled + kept
    ensures WithinCap(cfg, t, start, cap)
  {
  }

  /** A recorded call leaves what is committed within its excess, dropped or not. */
  lemma SettleKeepsWindow(cfg: Config, s: State, e: Event, start: real, cap: real)
    requires WellHeld(s) && Legal(s, e) && e.Settle? && WithinCap(cfg, s, start, cap) && s.doubled >= 0.0
    ensures WithinCap(cfg, Next(cfg, s, e), start, cap)
  {
    if e.written != Lost {
      HeldAfterSettle(cfg, s, e);
      SpentAfterSettle(cfg, s, e, start);
      var worst := WorstOf(s.pending, e.token);
      WithinCapAfter(cfg, s, Next(cfg, s, e), start, cap, e.row.cost.value, worst,
                     if e.written == Landed then worst else 0.0);
    }
  }

  lemma SettleKeeps(cfg: Config, s: State, e: Event)
    requires cfg.Valid() && Sound(cfg, s) && Legal(s, e) && e.Settle?
    ensures Sound(cfg, Next(cfg, s, e))
  {
    SettleKeepsHeld(cfg, s, e);
    AfterSettle(cfg, s, e);
    LiveDrop(s, e.token);
    HoldsSomething(s.pending, e.token);
    SettleKeepsWindow(cfg, s, e, s.grant.value.day, cfg.dayCap);
    SettleKeepsWindow(cfg, s, e, s.grant.value.month, cfg.monthCap);
  }

  lemma HoldsSomething(pending: seq<Reservation>, token: nat)
    requires Holds(pending, token)
    ensures pending != []
  {
  }

  lemma StepKeeps(cfg: Config, s: State, e: Event)
    requires cfg.Valid() && Sound(cfg, s) && Legal(s, e)
    ensures Sound(cfg, Next(cfg, s, e))
  {
    match e
    case Reserve(_, _, _, _) => ReserveKeeps(cfg, s, e);
    case Settle(_, _, _) => SettleKeeps(cfg, s, e);
    case Release(token) => ReleaseKeeps(cfg, s, token);
    case Refuse(row) => RefuseKeeps(cfg, s, row);
    case Restart =>
      HeldNonNegative(s.pending, 0);
      HeldExcept(s.pending, s.stale);
  }

  lemma {:induction false} RunKeeps(cfg: Config, s: State, events: seq<Event>)
    requires cfg.Valid() && Sound(cfg, s) && LegalRun(cfg, s, events)
    ensures Sound(cfg, Run(cfg, s, events))
    decreases |events|
  {
    if events != [] {
      StepKeeps(cfg, s, events[0]);
      RunKeeps(cfg, Next(cfg, s, events[0]), events[1..]);
    }
  }

  /** Over whole runs, from any ledger, with any clock and any number of calls in flight: in the window of
      the latest grant and in every later one, what is recorded plus what is reserved for calls not yet
      recorded stays within the cap plus the excess of the calls recorded since that grant (plus half a
      rounding unit); at most as many calls contribute to that excess as were in flight after the grant.
      The broker's own count exceeds this by no more than the reservations that outlived their row. */
  lemma BudgetIsSafe(cfg: Config, rows: seq<Row>, events: seq<Event>, day: real, month: real)
    requires cfg.Valid() && LegalRun(cfg, Start(rows), events)
    requires var s := Run(cfg, Start(rows), events);
             s.grant.Some? && s.grant.value.day <= day && s.grant.value.month <= month
    ensures var s := Run(cfg, Start(rows), events);
            && WithinCap(cfg, s, day, cfg.dayCap) && WithinCap(cfg, s, month, cfg.monthCap)
            && s.settled + |s.Live()| <= s.inFlight
            && (s.settled == 0 ==> s.over == s.doubled == 0.0)
  {
    var s := Run(cfg, Start(rows), events);
    RunKeeps(cfg, Start(rows), events);
    LaterWindow(cfg, s.rows, s.grant.value.day, day, Ask);
    LaterWindow(cfg, s.rows, s.grant.value.month, month, Ask);
    OverNeedsSettle(cfg, Start(rows), events);
  }

  lemma {:induction false} OverNeedsSettle(cfg: Config, s: State, events: seq<Event>)
    requires LegalRun(cfg, s, events) && (s.settled == 0 ==> s.over == s.doubled == 0.0)
    ensures var t := Run(cfg, s, events); t.settled == 0 ==> t.over == t.doubled == 0.0
    decreases |events|
  {
    if events != [] { OverNeedsSettle(cfg, Next(cfg, s, events[0]), events[1..]); }
  }

  /** As long as no write raised after its row had got out, every reservation held is a live one and the two
      counts are one. */
  lemma {:induction false} CleanWritesCountOnce(cfg: Config, s: State, events: seq<Event>, start: real)
    requires LegalRun(cfg, s, events) && s.stale == {}
    requires forall e :: e in events && e.Settle? ==> e.written != Landed
    ensures var t := Run(cfg, s, events); t.Live() == t.pending && Counted(cfg, t, start) == Committed(cfg, t, start)
    decreases |events|
  {
    ExceptAbsent(s.pending, {});
    if events != [] {
      assert events[0] in events;
      CleanWritesCountOnce(cfg, Next(cfg, s, events[0]), events[1..], start);
    }
  }

  // ---- Calls per day ----

  /** Calls of one kind made or under way. */
  function CallsOf(s: State, day: real, alias: Alias): nat {
    CallsMade(s.rows, day, alias) + CallsHeld(s.Live(), alias)
  }

  /** The same as the broker counts them. */
  function CallsCounted(s: State, day: real, alias: Alias): nat {
    CallsMade(s.rows, day, alias) + CallsHeld(s.pending, alias)
  }

  predicate WithinCallLimits(cfg: Config, s: State, day: real) {
    && (cfg.hardCalls.Some? ==> CallsOf(s, day, Hard) <= cfg.hardCalls.value)
    && (cfg.sharedCalls.Some? ==> CallsOf(s, day, Ask) + CallsOf(s, day, Auto) <= cfg.sharedCalls.value)
    && (cfg.autoCalls.Some? ==> CallsOf(s, day, Auto) <= cfg.autoCalls.value)
  }

  function Later(s: State, day: real): real {
    if s.newest.Some? && s.newest.value > day then s.newest.value else day
  }

  lemma LimitsInLaterWindow(cfg: Config, s: State, a: real, b: real)
    requires cfg.Valid() && a <= b && WithinCallLimits(cfg, s, a)
    ensures WithinCallLimits(cfg, s, b)
  {
    LaterWindow(cfg, s.rows, a, b, Ask);
    LaterWindow(cfg, s.rows, a, b, Auto);
    LaterWindow(cfg, s.rows, a, b, Hard);
  }

  lemma {:induction false} CallsHeldExcept(pending: seq<Reservation>, tokens: set<nat>, alias: Alias)
    ensures CallsHeld(Except(pending, tokens), alias) <= CallsHeld(pending, alias)
  {
    if pending != [] {
      var init, last := pending[..|pending| - 1], pending[|pending| - 1];
      CallsHeldExcept(init, tokens, alias);
      CallsHeldPush(Except(init, tokens), last, alias);
      assert Except(init, tokens) + [] == Except(init, tokens);
    }
  }

  lemma CallsAfterSettle(cfg: Config, s: State, e: Event, alias: Alias)
    requires WellHeld(s) && Legal(s, e) && e.Settle?
    ensures var t, own := Next(cfg, s, e), if alias == AliasOf(s.pending, e.token) then 1 else 0;
            && CallsHeld(t.Live(), alias) == CallsHeld(s.Live(), alias) - (if e.written == Lost then 0 else own)
            && CallsHeld(t.pending, alias) == CallsHeld(s.pending, alias) - (if e.written == Done then own else 0)
  {
    AfterSettle(cfg, s, e);
    ExceptDistinct(s.pending, s.stale);
    ExceptIs(s.pending, s.stale, e.token);
    DropIs(s.Live(), e.token);
    DropIs(s.pending, e.token);
  }

  /** Recording turns one call under way into one counted row, in the day it arrived.  So does the broker's
      own count, unless the reservation outlives its row: that call it counts twice. */
  lemma SettleCountsOnce(cfg: Config, s: State, e: Event, day: real, alias: Alias)
    requires WellHeld(s) && Legal(s, e) && e.Settle?
    ensures var t, counts := Next(cfg, s, e), alias == AliasOf(s.pending, e.token);
            && CallsOf(t, day, alias)
               == CallsOf(s, day, alias) - (if counts && e.written != Lost && !InWindow(e.row, day) then 1 else 0)
            && CallsCounted(t, day, alias)
               == CallsCounted(s, day, alias)
                  - (if counts && e.written == Done && !InWindow(e.row, day) then 1 else 0)
                  + (if counts && e.written == Landed && InWindow(e.row, day) then 1 else 0)
  {
    SpentPush(cfg, s.rows, e.row, day, alias);
    CallsAfterSettle(cfg, s, e, alias);
  }

  /** Checking the limits in the request's own day is enough: no later day counts more. */
  lemma GrantKeepsLimits(cfg: Config, s: State, e: Event, day: real)
    requires cfg.Valid() && WellHeld(s) && Legal(s, e) && Granted(cfg, s, e)
    requires WithinCallLimits(cfg, s, Later(s, day))
    ensures var t := Next(cfg, s, e); WithinCallLimits(cfg, t, Later(t, day))
  {
    var t := Next(cfg, s, e);
    LivePush(s, Reservation(e.token, e.alias, e.worst, e.period.now));
    var d := Later(t, day);
    LimitsInLaterWindow(cfg, s, Later(s, day), d);
    forall a: Alias ensures CallsOf(s, d, a) <= CallsCounted(s, e.period.day, a) {
      LaterWindow(cfg, s.rows, e.period.day, d, a);
      CallsHeldExcept(s.pending, s.stale, a);
    }
    assert forall a: Alias :: CallsOf(t, d, a) == CallsOf(s, d, a) + if a == e.alias then 1 else 0;
  }

  lemma CallStep(cfg: Config, s: State, e: Event, day: real)
    requires cfg.Valid() && Sound(cfg, s) && Legal(s, e) && WithinCallLimits(cfg, s, Later(s, day))
    ensures var t := Next(cfg, s, e); WithinCallLimits(cfg, t, Later(t, day))
  {
    var d := Later(s, day);
    match e
    case Reserve(_, _, _, _) =>
      if Granted(cfg, s, e) { GrantKeepsLimits(cfg, s, e, day); }
    case Settle(_, _, _) =>
      SettleCountsOnce(cfg, s, e, d, Ask);
      SettleCountsOnce(cfg, s, e, d, Auto);
      SettleCountsOnce(cfg, s, e, d, Hard);
    case Release(token) =>
      LiveAfter(s, token);
      ExceptDistinct(s.pending, s.stale);
      DropIs(s.Live(), token);
    case Refuse(row) =>
      SpentPush(cfg, s.rows, row, d, Ask);
      SpentPush(cfg, s.rows, row, d, Auto);
      SpentPush(cfg, s.rows, row, d, Hard);
    case Restart =>
  }

  /** The call limits are never exceeded at all: once within them on some day, the calls of that day, and of
      every later one in which a call was granted, made or under way, stay within them whatever happens. */
  lemma {:induction false} CallLimitsHold(cfg: Config, s: State, events: seq<Event>, day: real)
    requires cfg.Valid() && Sound(cfg, s) && LegalRun(cfg, s, events) && WithinCallLimits(cfg, s, Later(s, day))
    ensures var t := Run(cfg, s, events); WithinCallLimits(cfg, t, Later(t, day))
    decreases |events|
  {
    if events != [] {
      StepKeeps(cfg, s, events[0]);
      CallStep(cfg, s, events[0], day);
      CallLimitsHold(cfg, Next(cfg, s, events[0]), events[1..], day);
    }
  }
}
