/** The escalation broker itself (scripts/files/escalation.py): the ledger object with its reservations, its
    file and its cache, the call with its one retry, and the recording of every call that was reserved.
    Each method below is one stretch of code between two awaits. */
module EscalationBroker {
  import opened Options
  import opened LedgerText
  import opened EscalationBudget
  import opened EscalationPricing

  /** Spending and call counts, unrounded. */
  method RowUsage(cfg: Config, rows: seq<Row>, p: Period) returns (u: Usage)
    ensures u == Usage(Spent(cfg, rows, p.day), Spent(cfg, rows, p.month), CallsMade(rows, p.day, Ask),
                       CallsMade(rows, p.day, Auto), CallsMade(rows, p.day, Hard))
  {
    u := Usage(0.0, 0.0, 0, 0, 0);
    for i := 0 to |rows|
      invariant u.day == Spent(cfg, rows[..i], p.day) && u.month == Spent(cfg, rows[..i], p.month)
      invariant u.ask == CallsMade(rows[..i], p.day, Ask) && u.auto == CallsMade(rows[..i], p.day, Auto)
      invariant u.hard == CallsMade(rows[..i], p.day, Hard)
    {
      var r := rows[i];
      assert rows[..i + 1][..i] == rows[..i];
      if InWindow(r, p.month) { u := u.(month := u.month + CostOf(cfg, r)); }
      if InWindow(r, p.day) {
        u := u.(day := u.day + CostOf(cfg, r));
        if r.alias.Some? && !Refused(r) { u := CountOne(u, r.alias.value); }
      }
    }
    assert rows[..|rows|] == rows;
  }

  function CountOne(u: Usage, alias: Alias): Usage {
    match alias
    case Ask => u.(ask := u.ask + 1)
    case Auto => u.(auto := u.auto + 1)
    case Hard => u.(hard := u.hard + 1)
  }

  method AddHeld(spent: Usage, pending: seq<Reservation>) returns (u: Usage)
    ensures u == Usage(spent.day + Held(pending), spent.month + Held(pending), spent.ask + CallsHeld(pending, Ask),
                       spent.auto + CallsHeld(pending, Auto), spent.hard + CallsHeld(pending, Hard))
  {
    u := spent;
    for i := 0 to |pending|
      invariant u.day == spent.day + Held(pending[..i]) && u.month == spent.month + Held(pending[..i])
      invariant u.ask == spent.ask + CallsHeld(pending[..i], Ask)
      invariant u.auto == spent.auto + CallsHeld(pending[..i], Auto)
      invariant u.hard == spent.hard + CallsHeld(pending[..i], Hard)
    {
      assert pending[..i + 1][..i] == pending[..i];
      u := u.(day := u.day + pending[i].worst, month := u.month + pending[i].worst);
      u := CountOne(u, pending[i].alias);
    }
    assert pending[..|pending|] == pending;
  }

  /** Whether a write that raised after `reach` characters, or did not raise, left the row in the file. */
  predicate Lands(codec: Codec<Row>, text: string, row: Row, reach: Option<nat>) {
    codec.dump(row).Some? && (reach.None? || reach.value >= |Lead(text)| + |codec.dump(row).value|)
  }

  function HowWritten(ok: bool, landed: bool): Written { if ok then Done else if landed then Landed else Lost }

  class Ledger {
    const codec: Codec<Row>
    var text: string                           // the ledger file; a missing file reads as empty
    var pending: seq<Reservation>
    var cache: Option<((nat, int), seq<Row>)>  // parsed rows, under the file's size and modification time

    ghost predicate Valid()
      reads this
    {
      && codec.RoundTrips()
      && Distinct(pending)
      && (cache.Some? ==> cache.value.0.0 <= |text|)
      && (cache.Some? && cache.value.0.0 == |text| ==> cache.value.1 == Parse(codec, text))
    }

    ghost function Recorded(): seq<Row>
      reads this
    {
      Parse(codec, text)
    }

    constructor (codec: Codec<Row>, text: string)
      requires codec.RoundTrips()
      ensures Valid() && this.codec == codec && this.text == text && pending == []
    {
      this.codec, this.text := codec, text;
      pending, cache := [], None;
    }

    /** Between reading the size and reading the file, another process may append `grown`. */
    method Rows(mtime: int, grown: string) returns (rows: seq<Row>)
      requires Valid()
      modifies this`text, this`cache
      ensures Valid() && text == old(text) + grown
      ensures rows == Recorded() || rows == old(Recorded())
    {
      var sig := (|text|, mtime);
      if cache.Some? && cache.value.0 == sig {
        rows := cache.value.1;
        text := text + grown;
        assert grown == "" ==> text == old(text);
        return;
      }
      text := text + grown;
      rows := Parse(codec, text);
      cache := Some((sig, rows));
    }

    /** `reach` is None when the write succeeds; otherwise it raises after that many characters got out.  The
        row is in the file exactly when all of it got out, whether the caller learns so or not. */
    method Append(row: Row, reach: Option<nat>) returns (ok: bool, ghost landed: bool)
      requires Valid()
      modifies this`text
      ensures Valid() && ok == (codec.dump(row).Some? && reach.None?)
      ensures landed == Lands(codec, old(text), row, reach)
      ensures Recorded() == old(Recorded()) + if landed then [row] else []
    {
      if codec.dump(row).None? {
        return false, false;
      }
      var line := codec.dump(row).value;
      var all := Addition(text, line);
      var k := if reach.Some? && reach.value < |all| then reach.value else |all|;
      WriteAddsIffWhole(codec, text, row, k);
      landed := k >= |Lead(text)| + |line|;
      assert k == 0 ==> text + all[..k] == text;
      text := text + all[..k];
      ok := reach.None?;
    }

    /** Spending and call counts of the current day and month, recorded and reserved. */
    method CurrentUsage(cfg: Config, p: Period, mtime: int) returns (u: Usage)
      requires Valid()
      modifies this`text, this`cache
      ensures Valid() && text == old(text)
      ensures u == UsageOf(cfg, Recorded(), pending, p)
    {
      var rows := Rows(mtime, "");
      var spent := RowUsage(cfg, rows, p);
      u := AddHeld(spent, pending);
      u := u.(day := Round6(u.day), month := Round6(u.month));
    }

    /** A reservation is granted exactly when every limit still holds with it, and is then held; a refusal
        names the first limit that would not hold. */
    method Reserve(cfg: Config, token: nat, alias: Alias, worst: real, p: Period, mtime: int)
      returns (reason: Option<Reason>)
      requires Valid() && !Holds(pending, token)
      modifies this
      ensures Valid() && text == old(text)
      ensures reason == CheckBudget(cfg, UsageOf(cfg, Recorded(), old(pending), p), alias, worst)
      ensures var r := Reservation(token, alias, worst, p.now);
              && (reason.None? <==> Affordable(cfg, Recorded(), old(pending), r, p))
              && (reason.Some? ==> FirstBroken(cfg, Recorded(), old(pending), r, p, reason.value))
      ensures pending == old(pending) + if reason.None? then [Reservation(token, alias, worst, p.now)] else []
    {
      var u := CurrentUsage(cfg, p, mtime);
      reason := CheckBudget(cfg, u, alias, worst);
      GrantedIffAffordable(cfg, Recorded(), pending, Reservation(token, alias, worst, p.now), p);
      if reason.None? {
        forall i | 0 <= i < |pending| ensures pending[i].token != token {}
        pending := pending + [Reservation(token, alias, worst, p.now)];
      }
    }

    method ReleaseToken(token: nat)
      requires Valid()
      modifies this`pending
      ensures Valid() && pending == Drop(old(pending), token)
    {
      DropIs(pending, token);
      pending := Drop(pending, token);
    }

    /** The row is written first and the reservation dropped after, so a write that raises keeps it held, even
        if the row got out. */
    method Settle(token: nat, row: Row, reach: Option<nat>) returns (ok: bool, ghost landed: bool)
      requires Valid()
      modifies this`text, this`pending
      ensures Valid() && ok == (codec.dump(row).Some? && reach.None?)
      ensures landed == Lands(codec, old(text), row, reach)
      ensures Recorded() == old(Recorded()) + if landed then [row] else []
      ensures pending == if ok then Drop(old(pending), token) else old(pending)
    {
      ok, landed := Append(row, reach);
      if ok {
        DropIs(pending, token);
        pending := Drop(pending, token);
      }
    }
  }

  // ---- The call ----

  /** What a successful answer may hold: no readable object, a usage that is no two whole numbers, or token
      counts, of which any may be missing. */
  datatype Body = Unreadable | BadUsage | Tokens(input: Option<int>, output: Option<int>)

  /** How one send ends.  `NeverSent` is a connect or pool failure, `Failed` any other transport error. */
  datatype Sent =
    | NeverSent(name: string)
    | Failed(name: string)
    | TimedOut
    | Answer(status: int, body: Body)
    | Unexpected
    | Cancelled

  const NEVER_SENT: set<string> := {"ConnectError", "ConnectTimeout", "PoolTimeout"}

  /** Error names identify error classes; a subclass of a never-sent class has a name of its own. */
  predicate WellNamed(s: Sent) { s.Failed? ==> s.name !in NEVER_SENT }

  /** A request that never left bills nothing, nor does an HTTP error answer; anything else may have been billed.
      The code takes every status but 200 for such an answer, other successes and redirects included. */
  predicate MayBill(s: Sent) {
    match s
    case NeverSent(_) => false
    case Answer(status, _) => status == 200
    case _ => true
  }

  datatype ErrorClass = Transport(name: string) | Http(status: int)

  datatype Reply = Ok(body: Body) | Error(status: int, class_: ErrorClass) | Unwound

  /** What the caller of the provider sees of the last send. */
  function ReplyOf(s: Sent): Reply {
    match s
    case NeverSent(name) => Error(502, Transport(name))
    case Failed(name) => Error(502, Transport(name))
    case TimedOut => Error(502, Transport("TotalTimeout"))
    case Answer(status, body) =>
      if status != 200 then Error(status, Http(status))
      else if body.Unreadable? then Error(502, Transport("bad_response"))
      else Ok(body)
    case Unexpected => Error(502, Transport("unexpected"))
    case Cancelled => Unwound
  }

  predicate Retried(s: Sent) {
    s.NeverSent? || (s.Answer? && s.status != 200 && (s.status == 429 || s.status >= 500))
  }

  /** At most two sends, of which only the last can have been billed.  The reply is that of the last send,
      unless the caller went away in the pause before a second one. */
  method Post(outcomes: seq<Sent>, goneInPause: bool) returns (reply: Reply, sent: seq<Sent>)
    requires |outcomes| == 2
    ensures 1 <= |sent| <= 2 && sent == outcomes[..|sent|]
    ensures |sent| == 2 <==> !goneInPause && (outcomes[0].NeverSent? || (outcomes[0].Answer? &&
                               (outcomes[0].status == 429 || outcomes[0].status >= 500)))
    ensures reply.Unwound? <==> sent[|sent| - 1].Cancelled? || (Retried(outcomes[0]) && goneInPause)
    ensures forall i :: 0 <= i < |sent| - 1 ==> !MayBill(sent[i])
    ensures reply == if Retried(outcomes[0]) && goneInPause then Unwound else ReplyOf(sent[|sent| - 1])
    ensures Retried(outcomes[0]) && goneInPause ==> !MayBill(sent[|sent| - 1])
  {
    reply, sent := Error(502, Transport("")), [];
    for attempt := 0 to 2
      invariant sent == outcomes[..attempt]
      invariant attempt > 0 ==> Retried(outcomes[attempt - 1]) && reply == ReplyOf(outcomes[attempt - 1])
      invariant attempt > 0 ==> Retried(outcomes[0]) && !goneInPause
    {
      var r := outcomes[attempt];
      sent := sent + [r];
      match r {
        case TimedOut => return Error(502, Transport("TotalTimeout")), sent;
        case Unexpected => return Error(502, Transport("unexpected")), sent;
        case Cancelled => return Unwound, sent;
        case NeverSent(name) => reply := Error(502, Transport(name));
        case Failed(name) => return Error(502, Transport(name)), sent;
        case Answer(status, body) =>
          if status == 200 {
            reply := if body.Unreadable? then Error(502, Transport("bad_response")) else Ok(body);
            return;
          }
          reply := Error(status, Http(status));
          if !(status == 429 || status >= 500) {
            return;
          }
      }
      if attempt == 0 && goneInPause {
        return Unwound, sent;
      }
    }
  }

  // ---- Recording ----

  /** A missing count is taken for none. */
  function Count(tokens: Option<int>): int { if tokens.Some? then tokens.value else 0 }

  predicate GoodUsage(b: Body) { b.Tokens? && Count(b.input) >= 0 && Count(b.output) >= 0 }

  function UsageCost(price: Price, b: Body): real
    requires GoodUsage(b)
  {
    CallCost(price, Count(b.input), Count(b.output))
  }

  /** What a finished call is charged. */
  function Charge(price: Price, worst: real, reply: Reply): real {
    if reply.Ok? && GoodUsage(reply.body) then Round6(UsageCost(price, reply.body))
    else if reply.Error? && (reply.class_.Http? || reply.class_.name in NEVER_SENT) then 0.0
    else Round6(worst)
  }

  /** The row for a finished call. */
  method ChargeRow(alias: Alias, ts: real, price: Price, worst: real, reply: Reply) returns (row: Row)
    requires price.Valid() && worst >= 0.0
    ensures row.ts == Some(ts) && row.alias == Some(alias) && !Refused(row)
    ensures row.cost == Some(Charge(price, worst, reply)) && row.cost.value >= 0.0
    ensures IsCharge(price, worst, row.cost.value)
  {
    match reply {
    case Unwound =>
      row := Row(Some(ts), Some(alias), Some(Round6(worst)), "error:cancelled");
    case Error(_, class_) =>
      var cost := if class_.Transport? && class_.name !in NEVER_SENT then worst else 0.0;
      row := Row(Some(ts), Some(alias), Some(if cost == 0.0 then 0.0 else Round6(cost)), "error:transport");
    case Ok(body) =>
      if !GoodUsage(body) {
        row := Row(Some(ts), Some(alias), Some(Round6(worst)), "error:transport:bad_usage");
      } else {
        CallCostNonNegative(price, Count(body.input), Count(body.output));
        row := Row(Some(ts), Some(alias), Some(Round6(UsageCost(price, body))), "ok");
      }
    }
    assert row.outcome[0] in "eo";
  }

  // ---- What is charged against what may have been billed ----

  /** The amount a call that may have been billed stands for: its reported usage, or else its worst case. */
  function Owed(price: Price, worst: real, last: Sent): real {
    if last.Answer? && GoodUsage(last.body) then UsageCost(price, last.body) else worst
  }

  /** A send that may have been billed is charged its reported usage or the worst case.  One that cannot have
      been billed is charged nothing, unless it fails under a name that does not say so. */
  lemma BilledIsCharged(price: Price, worst: real, last: Sent)
    requires WellNamed(last)
    ensures Charge(price, worst, ReplyOf(last))
            == if MayBill(last) then Round6(Owed(price, worst, last))
               else if last.Answer? || last.name in NEVER_SENT then 0.0
               else Round6(worst)
  {
  }

  /** A call that may have been billed is recorded at no cost exactly when what it stands for is at most half a
      micro-dollar. */
  lemma ZeroChargeIff(price: Price, worst: real, last: Sent)
    requires price.Valid() && worst >= 0.0 && WellNamed(last) && MayBill(last)
    ensures Charge(price, worst, ReplyOf(last)) == 0.0 <==> Owed(price, worst, last) <= HALF_MICRO
  {
    if last.Answer? && GoodUsage(last.body) {
      CallCostNonNegative(price, Count(last.body.input), Count(last.body.output));
    }
    BilledIsCharged(price, worst, last);
    RoundsToNothingIff(Owed(price, worst, last));
  }

  /** An answer without a usage is such a call, whatever was reserved for it. */
  lemma MissingUsageIsFree(price: Price, worst: real)
    requires price.Valid() && worst >= 0.0
    ensures var last := Answer(200, Tokens(None, None)); MayBill(last) && Charge(price, worst, ReplyOf(last)) == 0.0
  {
    var last := Answer(200, Tokens(None, None));
    assert CallCost(price, 0, 0) == 0.0;
    ZeroChargeIff(price, worst, last);
  }

  /** The ledger object is in the state s of the budget's state machine. */
  ghost predicate In(l: Ledger, s: State)
    reads l
  {
    l.Recorded() == s.rows && l.pending == s.pending
  }

  /** Dropping the reservation of a call that writes no row is the machine's release. */
  method ReleaseCall(l: Ledger, cfg: Config, token: nat, ghost s: State) returns (ghost t: State)
    requires l.Valid() && In(l, s)
    modifies l`pending
    ensures l.Valid() && In(l, t) && t == Next(cfg, s, Release(token)) && !Holds(l.pending, token)
  {
    DropIs(l.pending, token);
    l.ReleaseToken(token);
    t := Next(cfg, s, Release(token));
  }

  /** A request with the estimate of its tokens, and what the checks of its brief and those of the key and of
      duplicates say of it. */
  datatype Request = Request(alias: Alias, tokens: nat, badBrief: Option<string>, refused: Option<string>)

  /** The code of the first check that fails; an alias without a price fails between the two kinds. */
  function CodeOf(cfg: Config, q: Request): (code: Option<string>)
    ensures code.None? <==> q.badBrief.None? && q.alias in cfg.prices && q.refused.None?
    ensures q.badBrief.None? && q.alias !in cfg.prices ==> code == Some("unpriced")
    ensures q.badBrief.Some? ==> code == q.badBrief
  {
    if q.badBrief.Some? then q.badBrief else if q.alias !in cfg.prices then Some("unpriced") else q.refused
  }

  /** The reservation a request asks for. */
  function Claim(cfg: Config, token: nat, q: Request, p: Period): Reservation
    requires q.alias in cfg.prices
  {
    Reservation(token, q.alias, WorstCost(cfg.prices[q.alias], q.tokens), p.now)
  }

  predicate Admits(cfg: Config, rows: seq<Row>, pending: seq<Reservation>, token: nat, q: Request,
                   p: Period)
  {
    && CodeOf(cfg, q).None?
    && Affordable(cfg, rows, pending, Claim(cfg, token, q, p), p)
  }

  /** A refusal costs nothing and counts as no call. */
  function RefusalRow(cfg: Config, q: Request, ts: real): Row {
    var code := CodeOf(cfg, q);
    Row(Some(ts), Some(q.alias), Some(0.0), "refused:" + if code.Some? then code.value else "budget")
  }

  /** Everything before the call: a refusal is recorded at no cost, an admitted call holds its worst case.
      `raised` tells that the row of a refusal could not be written, or not for sure. */
  method Begin(l: Ledger, cfg: Config, token: nat, q: Request, p: Period, mtime: int, reach: Option<nat>,
               ghost s: State)
    returns (admitted: bool, raised: bool, ghost t: State)
    requires l.Valid() && cfg.Valid() && In(l, s) && !Holds(l.pending, token) && p.Valid()
    modifies l
    ensures l.Valid() && In(l, t)
    ensures admitted <==> Admits(cfg, old(l.Recorded()), old(l.pending), token, q, p)
    ensures admitted ==> var r := Claim(cfg, token, q, p);
                         && !raised && l.text == old(l.text) && l.pending == old(l.pending) + [r] && r.worst >= 0.0
                         && var e := Reserve(token, r.alias, r.worst, p);
                            Legal(s, e) && AtPrice(cfg, s, e) && Granted(cfg, s, e) && t == Next(cfg, s, e)
    ensures !admitted ==> var row := RefusalRow(cfg, q, p.now);
                          && l.pending == old(l.pending) && Legal(s, Refuse(row))
                          && raised == !(l.codec.dump(row).Some? && reach.None?)
                          && t == if Lands(l.codec, old(l.text), row, reach) then Next(cfg, s, Refuse(row)) else s
  {
    t := s;
    if CodeOf(cfg, q).None? {
      var r := Claim(cfg, token, q, p);
      CallCostNonNegative(cfg.prices[q.alias], q.tokens + SYSTEM_TOKENS, RESERVE_ANSWER_TOKENS);
      var reason := l.Reserve(cfg, token, r.alias, r.worst, p, mtime);
      if reason.None? {
        t := Next(cfg, s, Reserve(token, r.alias, r.worst, p));
        return true, false, t;
      }
    }
    var row := RefusalRow(cfg, q, p.now);
    assert Legal(s, Refuse(row));
    var ok: bool;
    ghost var landed: bool;
    ok, landed := l.Append(row, reach);
    if landed { t := Next(cfg, s, Refuse(row)); }
    return false, !ok, t;
  }

  /** The call of this reservation is under way. */
  ghost predicate UnderWay(l: Ledger, cfg: Config, r: Reservation, s: State)
    reads l
  {
    && l.Valid() && cfg.Valid() && In(l, s)
    && Holds(l.pending, r.token) && Find(l.pending, r.token) == r && r.token !in s.stale
    && r.worst >= 0.0 && r.alias in cfg.prices
  }

  /** The call is recorded by this row: the machine settles it, at the broker's prices, with the outcome the
      write had. */
  ghost predicate SettlesTo(cfg: Config, s: State, t: State, token: nat, row: Row, written: Written) {
    var e := Settle(token, row, written);
    Legal(s, e) && AtPrice(cfg, s, e) && t == Next(cfg, s, e)
  }

  /** Recording the call: its row is charged by the reply; it takes the place of the reservation unless the
      write raises, which keeps the reservation whether or not the row got out. */
  method Record(l: Ledger, cfg: Config, r: Reservation, reply: Reply, reach: Option<nat>, ghost s: State)
    returns (ok: bool, row: Row, ghost t: State)
    requires UnderWay(l, cfg, r, s)
    modifies l`text, l`pending
    ensures l.Valid() && In(l, t)
    ensures row.cost == Some(Charge(cfg.prices[r.alias], r.worst, reply)) && row.ts == Some(r.arrival)
    ensures ok == (l.codec.dump(row).Some? && reach.None?)
    ensures var landed := Lands(l.codec, old(l.text), row, reach);
            && SettlesTo(cfg, s, t, r.token, row, HowWritten(ok, landed))
            && l.Recorded() == old(l.Recorded()) + (if landed then [row] else [])
            && l.pending == if ok then Drop(old(l.pending), r.token) else old(l.pending)
  {
    row := ChargeRow(r.alias, r.arrival, cfg.prices[r.alias], r.worst, reply);
    ghost var landed: bool;
    ok, landed := l.Settle(r.token, row, reach);
    t := Next(cfg, s, Settle(r.token, row, HowWritten(ok, landed)));
  }

  /** What the record of a call says of its last send: the caller who went away in the pause is charged the
      worst case although nothing can have been billed. */
  predicate Accounts(price: Price, worst: real, last: Sent, gone: bool, cost: real) {
    && cost == (if gone then Round6(worst)
                else if MayBill(last) then Round6(Owed(price, worst, last))
                else if last.Answer? || last.name in NEVER_SENT then 0.0
                else Round6(worst))
    && (gone ==> !MayBill(last))
    && (MayBill(last) ==> (cost == 0.0 <==> Owed(price, worst, last) <= HALF_MICRO))
  }

  /** An admitted call: the sends, and the record of what they came to. */
  method MakeCall(l: Ledger, cfg: Config, r: Reservation, reach: Option<nat>, outcomes: seq<Sent>,
                  goneInPause: bool, ghost s: State)
    returns (sent: seq<Sent>, ok: bool, row: Row, ghost t: State)
    requires UnderWay(l, cfg, r, s)
    requires |outcomes| == 2 && WellNamed(outcomes[0]) && WellNamed(outcomes[1])
    modifies l`text, l`pending
    ensures l.Valid() && In(l, t)
    ensures sent == outcomes[..if Retried(outcomes[0]) && !goneInPause then 2 else 1]
    ensures forall i :: 0 <= i < |sent| - 1 ==> !MayBill(sent[i])
    ensures ok == (l.codec.dump(row).Some? && reach.None?)
    ensures var landed := Lands(l.codec, old(l.text), row, reach);
            && SettlesTo(cfg, s, t, r.token, row, HowWritten(ok, landed))
            && l.Recorded() == old(l.Recorded()) + (if landed then [row] else [])
            && l.pending == if ok then Drop(old(l.pending), r.token) else old(l.pending)
    ensures row.cost.Some? && Accounts(cfg.prices[r.alias], r.worst, sent[|sent| - 1],
                                       Retried(outcomes[0]) && goneInPause, row.cost.value)
  {
    var reply: Reply;
    reply, sent := Post(outcomes, goneInPause);
    var last, price := sent[|sent| - 1], cfg.prices[r.alias];
    BilledIsCharged(price, r.worst, last);
    if MayBill(last) { ZeroChargeIff(price, r.worst, last); }
    ok, row, t := Record(l, cfg, r, reply, reach, s);
  }

  lemma DropPushed(pending: seq<Reservation>, r: Reservation)
    requires !Holds(pending, r.token)
    ensures Drop(pending + [r], r.token) == pending
    ensures Holds(pending + [r], r.token) && Find(pending + [r], r.token) == r
  {
    var grown := pending + [r];
    assert grown[..|grown| - 1] == pending && grown[|grown| - 1] == r;
    ExceptAbsent(pending, {r.token});
  }

  /** One call from request to record.  It makes at most two sends, of which only the last can have been
      billed.  If the write of its row succeeds, the row stands in place of the reservation.  If it raises,
      the reservation stays held: with no row when the row did not get out, beside the row when it did.  A
      refused call sends nothing and holds nothing. */
  method Handle(l: Ledger, cfg: Config, token: nat, q: Request, p: Period, mtime: int, reach: Option<nat>,
                outcomes: seq<Sent>, goneInPause: bool, ghost s: State)
    returns (sent: seq<Sent>, ok: bool, row: Row, ghost t: State)
    requires l.Valid() && cfg.Valid() && In(l, s) && !Holds(l.pending, token) && token !in s.stale && p.Valid()
    requires |outcomes| == 2 && WellNamed(outcomes[0]) && WellNamed(outcomes[1])
    modifies l
    ensures l.Valid() && In(l, t)
    ensures |sent| <= 2 && forall i :: 0 <= i < |sent| - 1 ==> !MayBill(sent[i])
    ensures sent != [] <==> Admits(cfg, old(l.Recorded()), old(l.pending), token, q, p)
    ensures ok == (l.codec.dump(row).Some? && reach.None?)
    ensures l.Recorded() == old(l.Recorded()) + if Lands(l.codec, old(l.text), row, reach) then [row] else []
    ensures row.cost.Some? && row.ts == Some(p.now)
    ensures sent == [] ==> Refused(row) && row.cost.value == 0.0 && l.pending == old(l.pending)
    ensures sent != [] ==> var r := Claim(cfg, token, q, p);
                           && l.pending == old(l.pending) + (if ok then [] else [r])
                           && Accounts(cfg.prices[q.alias], r.worst, sent[|sent| - 1],
                                       Retried(outcomes[0]) && goneInPause, row.cost.value)
  {
    var admitted, raised: bool;
    admitted, raised, t := Begin(l, cfg, token, q, p, mtime, reach, s);
    if !admitted {
      return [], !raised, RefusalRow(cfg, q, p.now), t;
    }
    var r := Claim(cfg, token, q, p);
    DropPushed(s.pending, r);
    sent, ok, row, t := MakeCall(l, cfg, r, reach, outcomes, goneInPause, t);
  }
}
