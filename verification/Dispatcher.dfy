/** The label protocol of the agent-runner dispatcher (scripts/files/agent_runner_dispatch.py).  An issue's
    runner:* label is its state; the service that edits labels may apply any part of an edit and then
    report failure, so every edit is retried against what it left. */
module Dispatcher {
  import opened Options

  const READY := "runner:ready"
  const RUNNING := "runner:running"
  const DONE := "runner:done"
  const BLOCKED := "runner:blocked"
  const NEEDS_CLAUDE := "needs-claude"
  const STATES: set<string> := {READY, RUNNING, DONE, BLOCKED}

  // ---- Label edits ----

  /** An edit that failed may have removed some of `remove` and added some of `add`, and nothing else. */
  ghost predicate Partly(was: set<string>, now: set<string>, remove: set<string>, add: set<string>) {
    forall x :: (x in now ==> x in was || x in add) && (x in was ==> x in now || x in remove)
  }

  const RELABEL_TRIES := 4

  class Issue {
    var labels: set<string>

    constructor (labels: set<string>)
      ensures this.labels == labels
    {
      this.labels := labels;
    }

    /** The remote edit: all of it on success, any part of it on failure. */
    method Edit(remove: set<string>, add: set<string>) returns (ok: bool)
      requires remove !! add
      modifies this
      ensures ok ==> labels == old(labels) - remove + add
      ensures !ok ==> Partly(old(labels), labels, remove, add)
    {
      ok := *;
      if ok {
        labels := labels - remove + add;
      } else {
        var some, more :| some <= remove && more <= add;
        labels := labels - some + more;
      }
    }

    /** Reading the labels back, which may fail too. */
    method View() returns (have: Option<set<string>>)
      ensures have.Some? ==> have.value == labels
    {
      var ok: bool := *;
      have := if ok then Some(labels) else None;
    }

    method Comment() returns (ok: bool) {
      ok := *;
    }

    /** If it returns, the issue carries exactly the old labels without `remove` and with `add`, however
        many tries failed part-way; if it gives up, some part of that edit was applied and nothing else. */
    method Relabel(remove: set<string>, add: set<string>) returns (ok: bool)
      requires remove !! add
      modifies this
      ensures ok ==> labels == old(labels) - remove + add
      ensures !ok ==> Partly(old(labels), labels, remove, add)
    {
      var remaining, missing := remove, add;
      ghost var goal := labels - remove + add;
      for attempt := 1 to RELABEL_TRIES + 1
        invariant remaining <= remove && missing <= add
        invariant labels - remaining + missing == goal
        invariant Partly(old(labels), labels, remove, add)
        invariant attempt <= RELABEL_TRIES
      {
        ok := Edit(remaining, missing);
        if ok {
          return true;
        }
        if attempt == RELABEL_TRIES {
          return false;
        }
        var have := View();
        if have.Some? {
          remaining := remaining * have.value;
          missing := missing - have.value;
          if remaining == {} && missing == {} {
            assert labels - {} + {} == labels;
            return true;
          }
        }
      }
      ok := false;
    }
  }

  // ---- What a run may end in ----

  const EXIT_LANE_CLOSED := 75
  const EXIT_NOT_READY := 76

  datatype Verdict = Pass | Fail | Indeterminate | Blocked

  /** `verdict` is None when the printed block names no valid one; `clean` is true for no deviations. */
  datatype Report = Report(verdict: Option<Verdict>, clean: bool)

  /** A model task, from its claim on.  No exit code means the wall time ran out. */
  datatype AgentRun =
    | BadRef
    | CheckoutFailed
    | Exited(code: Option<int>, report: Option<Report>, swapped: bool)

  /** A script task; the first two are found before the claim. */
  datatype ScriptRun =
    | ScriptsOff
    | BadScript
    | BadScriptRef
    | BadCheckout
    | BadScriptFile
    | ScriptExited(exit: Option<int>, result: Option<Report>)

  /** Back to ready, or a final verdict with or without a call for the stronger model. */
  datatype Ending = Requeued | Refused | Final(verdict: Verdict, claude: bool)

  function AgentEnding(run: AgentRun): Ending {
    match run
    case BadRef => Final(Blocked, true)
    case CheckoutFailed => Final(Blocked, true)
    case Exited(code, report, swapped) =>
      if code == Some(EXIT_LANE_CLOSED) || code == Some(EXIT_NOT_READY) then Requeued
      else
        var readable := report.Some? && report.value.verdict.Some?;
        if code.Some? && !readable && swapped then Requeued
        else if code.None? || !readable then Final(Blocked, true)
        else Final(report.value.verdict.value,
                   !(report.value.verdict.value == Pass && report.value.clean && code == Some(0)))
  }

  /** A script's report always names a verdict, or it counts as none. */
  function ScriptEnding(run: ScriptRun): Ending {
    match run
    case ScriptExited(exit, result) =>
      if exit == Some(EXIT_NOT_READY) then Requeued
      else if result.None? || result.value.verdict.None? then Final(Blocked, true)
      else Final(result.value.verdict.value,
                 exit.None? || !(result.value.verdict.value == Pass && result.value.clean && exit == Some(0)))
    case _ => Refused
  }

  /** The labels an ending puts on a ready issue. */
  function LabelsAfter(labels: set<string>, e: Ending): set<string> {
    match e
    case Requeued => labels
    case Refused => labels - {READY} + {BLOCKED}
    case Final(verdict, claude) =>
      labels - {READY} + {if verdict == Blocked then BLOCKED else DONE} + if claude then {NEEDS_CLAUDE} else {}
  }

  // ---- What a run calls for, said by its outcome ----

  predicate Readable(report: Option<Report>) { report.Some? && report.value.verdict.Some? }

  /** A verdict of pass without deviations, from a run that exited with success. */
  predicate CleanPass(code: Option<int>, report: Option<Report>) {
    code == Some(0) && Readable(report) && report.value.verdict.value == Pass && report.value.clean
  }

  /** The lane was closed, the sandbox not ready, or the model swapped away before a verdict. */
  predicate ComesBack(run: AgentRun) {
    run.Exited? && run.code.Some?
    && (run.code.value in {EXIT_LANE_CLOSED, EXIT_NOT_READY} || (run.swapped && !Readable(run.report)))
  }

  /** Exactly one state: ready again, or done or blocked; a call for review when it is asked for; and every
      other label as it was. */
  predicate EndsAs(was: set<string>, now: set<string>, back: bool, done: bool, review: bool) {
    && (READY in now <==> back) && (DONE in now <==> done) && (BLOCKED in now <==> !back && !done)
    && RUNNING !in now && !(back && done)
    && (NEEDS_CLAUDE in now <==> NEEDS_CLAUDE in was || review)
    && now - STATES - {NEEDS_CLAUDE} == was - STATES - {NEEDS_CLAUDE}
  }

  /** A model task is done on a readable verdict other than blocked from a run that exited, and escapes
      review only by coming back or by a clean pass. */
  predicate AgentEndsAs(was: set<string>, now: set<string>, run: AgentRun) {
    var back := ComesBack(run);
    EndsAs(was, now, back,
           !back && run.Exited? && run.code.Some? && Readable(run.report) && run.report.value.verdict.value != Blocked,
           !back && !(run.Exited? && CleanPass(run.code, run.report)))
  }

  /** A script task comes back only from a sandbox that was not ready; one refused before or after its claim
      is blocked without a call for review; a report stands even when the wall time ran out. */
  predicate ScriptEndsAs(was: set<string>, now: set<string>, run: ScriptRun) {
    var ran := run.ScriptExited?;
    var back := ran && run.exit == Some(EXIT_NOT_READY);
    EndsAs(was, now, back,
           ran && !back && Readable(run.result) && run.result.value.verdict.value != Blocked,
           ran && !back && !CleanPass(run.exit, run.result))
  }

  lemma LabelsDiffer()
    ensures READY !in {RUNNING, DONE, BLOCKED, NEEDS_CLAUDE} && RUNNING !in {DONE, BLOCKED, NEEDS_CLAUDE}
    ensures DONE !in {BLOCKED, NEEDS_CLAUDE} && BLOCKED != NEEDS_CLAUDE
  {
    assert READY[7..9] == "re" && RUNNING[7..9] == "ru" && DONE[7] == 'd' && BLOCKED[7] == 'b';
    assert NEEDS_CLAUDE[0] == 'n' && READY[0] == RUNNING[0] == DONE[0] == BLOCKED[0] == 'r';
  }

  lemma FinalShows(labels: set<string>, state: string, claude: bool)
    requires READY in labels && RUNNING !in labels && DONE !in labels && BLOCKED !in labels
    requires state in {DONE, BLOCKED}
    ensures EndsAs(labels, labels - {READY} + {state} + (if claude then {NEEDS_CLAUDE} else {}), false, state == DONE,
                   claude)
  {
    LabelsDiffer();
    var now := labels - {READY} + {state} + (if claude then {NEEDS_CLAUDE} else {});
    assert forall x :: x in now <==> (x in labels && x != READY) || x == state || (claude && x == NEEDS_CLAUDE);
    assert now - STATES - {NEEDS_CLAUDE} == labels - STATES - {NEEDS_CLAUDE};
  }

  lemma EndingShows(labels: set<string>, e: Ending)
    requires labels * STATES == {READY}
    ensures EndsAs(labels, LabelsAfter(labels, e), e.Requeued?, e.Final? && e.verdict != Blocked, e.Final? && e.claude)
  {
    StatesOf(labels);
    LabelsDiffer();
    match e {
      case Requeued =>
      case Refused =>
        FinalShows(labels, BLOCKED, false);
        assert labels - {READY} + {BLOCKED} + {} == LabelsAfter(labels, e);
      case Final(verdict, claude) => FinalShows(labels, if verdict == Blocked then BLOCKED else DONE, claude);
    }
  }

  // ---- The dispatch functions: true if they return, false if they raise ----

  method Finish(issue: Issue, verdict: Verdict, claude: bool) returns (returned: bool)
    modifies issue
    ensures returned ==> issue.labels == old(issue.labels) - {RUNNING} + {if verdict == Blocked then BLOCKED else DONE}
                                         + if claude then {NEEDS_CLAUDE} else {}
  {
    var said := issue.Comment();
    if !said { return false; }
    var add := {if verdict == Blocked then BLOCKED else DONE} + if claude then {NEEDS_CLAUDE} else {};
    returned := issue.Relabel({RUNNING}, add);
  }

  method Requeue(issue: Issue) returns (returned: bool)
    modifies issue
    ensures returned ==> issue.labels == old(issue.labels) - {RUNNING} + {READY}
  {
    returned := issue.Relabel({RUNNING}, {READY});
    if returned { returned := issue.Comment(); }
  }

  /** A model task that returns leaves its issue in the state its run calls for. */
  method Dispatch(issue: Issue, run: AgentRun) returns (returned: bool)
    requires issue.labels * STATES == {READY}
    modifies issue
    ensures returned ==> issue.labels == LabelsAfter(old(issue.labels), AgentEnding(run))
    ensures returned ==> AgentEndsAs(old(issue.labels), issue.labels, run)
  {
    EndingShows(issue.labels, AgentEnding(run));
    StatesOf(issue.labels);
    returned := issue.Relabel({READY}, {RUNNING});
    if !returned { return; }
    returned := issue.Comment();
    if !returned { return; }
    match run {
      case BadRef => returned := Finish(issue, Blocked, true);
      case CheckoutFailed => returned := Finish(issue, Blocked, true);
      case Exited(code, report, swapped) =>
        if code == Some(EXIT_LANE_CLOSED) || code == Some(EXIT_NOT_READY) {
          returned := Requeue(issue);
        } else if code.Some? && (report.None? || report.value.verdict.None?) && swapped {
          returned := Requeue(issue);
        } else if code.None? {
          returned := Finish(issue, Blocked, true);
        } else if report.None? || report.value.verdict.None? {
          returned := Finish(issue, Blocked, true);
        } else {
          var verdict := report.value.verdict.value;
          returned := Finish(issue, verdict, !(verdict == Pass && report.value.clean && code == Some(0)));
        }
    }
  }

  method RefuseScript(issue: Issue, claimed: bool) returns (returned: bool)
    modifies issue
    ensures returned ==> issue.labels == old(issue.labels) - {if claimed then RUNNING else READY} + {BLOCKED}
  {
    returned := issue.Relabel({if claimed then RUNNING else READY}, {BLOCKED});
    if returned { returned := issue.Comment(); }
  }

  /** A script task that returns leaves its issue in the state its run calls for. */
  method DispatchScript(issue: Issue, run: ScriptRun) returns (returned: bool)
    requires issue.labels * STATES == {READY}
    modifies issue
    ensures returned ==> issue.labels == LabelsAfter(old(issue.labels), ScriptEnding(run))
    ensures returned ==> ScriptEndsAs(old(issue.labels), issue.labels, run)
  {
    EndingShows(issue.labels, ScriptEnding(run));
    StatesOf(issue.labels);
    if run.ScriptsOff? || run.BadScript? {
      returned := RefuseScript(issue, false);
      return;
    }
    returned := issue.Relabel({READY}, {RUNNING});
    if !returned { return; }
    returned := issue.Comment();
    if !returned { return; }
    if run.BadScriptRef? || run.BadCheckout? || run.BadScriptFile? {
      returned := RefuseScript(issue, true);
      return;
    }
    var report := if run.result.Some? && run.result.value.verdict.Some? then run.result else None;
    if run.exit == Some(EXIT_NOT_READY) {
      returned := Requeue(issue);
    } else if report.None? {
      returned := Finish(issue, Blocked, true);
    } else if run.exit.None? {
      returned := Finish(issue, report.value.verdict.value, true);
    } else {
      var verdict := report.value.verdict.value;
      returned := Finish(issue, verdict, !(verdict == Pass && report.value.clean && run.exit == Some(0)));
    }
  }

  lemma StatesOf(labels: set<string>)
    requires labels * STATES == {READY}
    ensures READY in labels && RUNNING !in labels && DONE !in labels && BLOCKED !in labels
  {
    assert READY in labels * STATES;
    assert RUNNING !in labels * STATES && DONE !in labels * STATES && BLOCKED !in labels * STATES;
  }

  /** So every ending takes an issue from ready alone to exactly one of ready, done or blocked; it is ready
      only if requeued, done only on a verdict other than blocked; and every other label is as it was. */
  lemma EndsInOneState(labels: set<string>, e: Ending)
    requires labels * STATES == {READY}
    ensures var now := LabelsAfter(labels, e);
            && (now * STATES == {READY} || now * STATES == {DONE} || now * STATES == {BLOCKED})
            && (now * STATES == {READY} <==> e.Requeued?)
            && (now * STATES == {DONE} <==> e.Final? && e.verdict != Blocked)
            && now - STATES - {NEEDS_CLAUDE} == labels - STATES - {NEEDS_CLAUDE}
  {
    StatesOf(labels);
    var now := LabelsAfter(labels, e);
    var state := match e case Requeued => READY case Refused => BLOCKED
                         case Final(v, _) => if v == Blocked then BLOCKED else DONE;
    assert NEEDS_CLAUDE !in STATES;
    assert state in now * STATES;
    forall x | x in now * STATES ensures x == state {
      assert x in labels ==> x in labels * STATES;
    }
    assert now * STATES == {state};
    assert READY != DONE && READY != BLOCKED && DONE != BLOCKED;
    assert state in {state};
  }

  /** What the queue offers: ready, and no other runner:* label.  Only such an issue is dispatched, so a
      half-applied claim is never claimed again before someone looks at it. */
  predicate Offered(labels: set<string>) {
    READY in labels && forall x :: x in labels && "runner:" <= x ==> x == READY
  }

  lemma OfferedIsReadyAlone(labels: set<string>, now: set<string>)
    requires Offered(labels)
    ensures labels * STATES == {READY}
    ensures Partly(labels, now, {READY}, {RUNNING}) && Offered(now) ==> now == labels
  {
    assert "runner:" <= READY && "runner:" <= RUNNING && "runner:" <= DONE && "runner:" <= BLOCKED;
    assert READY != RUNNING;
    if Partly(labels, now, {READY}, {RUNNING}) && Offered(now) {
      assert forall x :: x in now <==> x in labels;
    }
  }

  // ---- Choosing a task ----

  const TIER_A := "tier:a"
  const TIER_B := "tier:b"
  const TIER_C := "tier:c"

  datatype Task = Task(repo: string, number: nat, labels: seq<string>)

  function TiersOf(labels: seq<string>): seq<string> {
    if labels == [] then []
    else (if labels[0] in {TIER_A, TIER_B, TIER_C} then [labels[0]] else []) + TiersOf(labels[1..])
  }

  function TierOf(t: Task): Option<string> {
    var tiers := TiersOf(t.labels);
    if |tiers| == 1 then Some(tiers[0]) else None
  }

  predicate IsRefused(t: Task) { TierOf(t).None? || TierOf(t).value == TIER_C }

  /** Runnable, given what was answered about each repository in this cycle. */
  predicate Runnable(t: Task, halted: map<string, bool>, ready: map<string, bool>) {
    && !IsRefused(t)
    && (TierOf(t).value == TIER_B ==> t.repo in halted && !halted[t.repo])
    && t.repo in ready && ready[t.repo]
  }

  /** The tiers that exist are three distinct labels, so a runnable task carries exactly one of a and b. */
  lemma {:induction false} TiersAreTiers(labels: seq<string>)
    ensures forall x :: x in TiersOf(labels) <==> x in labels && x in {TIER_A, TIER_B, TIER_C}
  {
    if labels != [] { TiersAreTiers(labels[1..]); }
  }

  function Copies(labels: seq<string>, name: string): nat { multiset(labels)[name] }

  lemma {:induction false} TiersCounted(labels: seq<string>)
    ensures |TiersOf(labels)| == Copies(labels, TIER_A) + Copies(labels, TIER_B) + Copies(labels, TIER_C)
  {
    TiersDiffer();
    if labels != [] {
      TiersCounted(labels[1..]);
      assert labels == [labels[0]] + labels[1..];
    }
  }

  lemma TiersDiffer()
    ensures TIER_A != TIER_B && TIER_B != TIER_C && TIER_A != TIER_C
  {
    assert TIER_A[5] == 'a' && TIER_B[5] == 'b' && TIER_C[5] == 'c';
  }

  /** A task is refused unless it has one tier label in all and that is not tier c. */
  lemma RefusedIff(t: Task)
    ensures IsRefused(t) <==> Copies(t.labels, TIER_A) + Copies(t.labels, TIER_B) != 1 || Copies(t.labels, TIER_C) > 0
    ensures !IsRefused(t) ==> (TierOf(t).value == TIER_B <==> Copies(t.labels, TIER_B) == 1)
  {
    TiersDiffer();
    TiersCounted(t.labels);
    TiersAreTiers(t.labels);
    var tiers := TiersOf(t.labels);
    if |tiers| == 1 {
      assert tiers == [tiers[0]];
      assert tiers[0] in tiers && tiers[0] in t.labels;
      assert Copies(t.labels, tiers[0]) > 0;
    }
  }

  /** It is runnable when it is not refused, its repository answered that its runner is ready, and for tier b
      that it is not halted. */
  lemma RunnableIff(t: Task, halted: map<string, bool>, ready: map<string, bool>)
    ensures Runnable(t, halted, ready) <==>
              && Copies(t.labels, TIER_A) + Copies(t.labels, TIER_B) == 1 && Copies(t.labels, TIER_C) == 0
              && (Copies(t.labels, TIER_B) == 1 ==> t.repo in halted && !halted[t.repo])
              && t.repo in ready && ready[t.repo]
  {
    RefusedIff(t);
  }

  lemma RunnableIsAllowed(t: Task, halted: map<string, bool>, ready: map<string, bool>)
    requires Runnable(t, halted, ready)
    ensures TIER_C !in t.labels && (TIER_A in t.labels) != (TIER_B in t.labels)
    ensures TIER_B in t.labels ==> t.repo in halted && !halted[t.repo]
  {
    TiersAreTiers(t.labels);
    var tiers := TiersOf(t.labels);
    assert tiers == [tiers[0]];
    assert tiers[0] in tiers && tiers[0] in t.labels;
    assert TIER_A != TIER_B && TIER_B != TIER_C && TIER_A != TIER_C;
    assert forall x :: x in tiers ==> x == tiers[0];
  }

  /** Refusing a task: a comment and a label edit, either of which may raise. */
  method RefuseTier(issue: Issue) returns (ok: bool)
    modifies issue
    ensures ok ==> issue.labels == old(issue.labels) - {READY} + {BLOCKED}
    ensures !ok ==> Partly(old(issue.labels), issue.labels, {READY}, {BLOCKED})
  {
    ok := issue.Comment();
    if ok {
      assert READY != BLOCKED;
      ok := issue.Relabel({READY}, {BLOCKED});
    }
  }

  /** What a cycle asks of a repository: whether it is halted, whether its runner is ready. */
  datatype Question = IsHalted(repo: string) | IsReady(repo: string)

  /** How a cycle ends; a call to the outside that raises ends it at that task. */
  datatype Picked = Chosen(index: nat) | NothingToRun | Raised(index: nat)

  function Passed(queue: seq<Task>, picked: Picked): int {
    match picked
    case Chosen(i) => i
    case Raised(i) => i
    case NothingToRun => |queue|
  }

  /** The answers that stand in a cycle, and the questions asked for them. */
  datatype Answers = Answers(halted: map<string, bool>, ready: map<string, bool>, asked: seq<Question>)

  /** Each question was asked at most once, and what stands is what was answered at some moment. */
  ghost predicate AskedOnce(a: Answers, askHalted: (nat, string) -> Option<bool>, askReady: (nat, string) -> bool) {
    && (forall i, j :: 0 <= i < j < |a.asked| ==> a.asked[i] != a.asked[j])
    && (forall q :: q in a.asked ==> if q.IsHalted? then q.repo in a.halted else q.repo in a.ready)
    && (forall repo :: repo in a.halted ==> exists now: nat :: askHalted(now, repo) == Some(a.halted[repo]))
    && (forall repo :: repo in a.ready ==> exists now: nat :: askReady(now, repo) == a.ready[repo])
  }

  /** Passed over for a reason that no later answer in the cycle can change. */
  predicate Settled(t: Task, a: Answers) {
    IsRefused(t) || (t.repo in a.halted && a.halted[t.repo] && TierOf(t).value == TIER_B)
    || (t.repo in a.ready && !a.ready[t.repo])
  }

  predicate PassedOver(queue: seq<Task>, upTo: nat, a: Answers) {
    forall k :: 0 <= k < upTo && k < |queue| ==> Settled(queue[k], a)
  }

  method LearnHalted(a: Answers, repo: string, now: nat, askHalted: (nat, string) -> Option<bool>,
                     ghost askReady: (nat, string) -> bool, ghost queue: seq<Task>, ghost upTo: nat)
    returns (ok: bool, b: Answers)
    requires AskedOnce(a, askHalted, askReady) && PassedOver(queue, upTo, a)
    ensures AskedOnce(b, askHalted, askReady) && PassedOver(queue, upTo, b) && b.ready == a.ready
    ensures ok ==> repo in b.halted
    ensures !ok ==> b == a
  {
    if repo in a.halted {
      return true, a;
    }
    var answer := askHalted(now, repo);
    if answer.None? {
      return false, a;
    }
    AppendDistinct(a.asked, IsHalted(repo));
    return true, a.(halted := a.halted[repo := answer.value], asked := a.asked + [IsHalted(repo)]);
  }

  method LearnReady(a: Answers, repo: string, now: nat, ghost askHalted: (nat, string) -> Option<bool>,
                    askReady: (nat, string) -> bool, ghost queue: seq<Task>, ghost upTo: nat)
    returns (b: Answers)
    requires AskedOnce(a, askHalted, askReady) && PassedOver(queue, upTo, a)
    ensures AskedOnce(b, askHalted, askReady) && PassedOver(queue, upTo, b) && b.halted == a.halted
    ensures repo in b.ready
  {
    if repo in a.ready {
      return a;
    }
    AppendDistinct(a.asked, IsReady(repo));
    b := a.(ready := a.ready[repo := askReady(now, repo)], asked := a.asked + [IsReady(repo)]);
  }

  lemma AppendDistinct(asked: seq<Question>, q: Question)
    requires (forall i, j :: 0 <= i < j < |asked| ==> asked[i] != asked[j]) && q !in asked
    ensures forall i, j :: 0 <= i < j < |asked + [q]| ==> (asked + [q])[i] != (asked + [q])[j]
  {
    forall i, j | 0 <= i < j < |asked + [q]| ensures (asked + [q])[i] != (asked + [q])[j] {
      assert (asked + [q])[i] in asked;
    }
  }

  /** The issues' labels, when those of the refused ones were edited and no others. */
  ghost predicate EditedOnly(issues: seq<Issue>, was: seq<set<string>>, refused: seq<nat>)
    reads issues
  {
    |was| == |issues| &&
    forall k :: 0 <= k < |issues| ==>
      issues[k].labels == if k in refused then was[k] - {READY} + {BLOCKED} else was[k]
  }

  ghost predicate RefusedUpTo(queue: seq<Task>, refused: seq<nat>, upTo: nat) {
    forall k :: k in refused <==> 0 <= k < upTo && k < |queue| && IsRefused(queue[k])
  }

  method RefuseNext(queue: seq<Task>, issues: seq<Issue>, i: nat, refused: seq<nat>, ghost was: seq<set<string>>)
    returns (ok: bool, more: seq<nat>)
    requires i < |queue| == |issues| && forall i, j :: 0 <= i < j < |issues| ==> issues[i] != issues[j]
    requires EditedOnly(issues, was, refused) && RefusedUpTo(queue, refused, i) && IsRefused(queue[i])
    modifies issues[i]
    ensures ok ==> EditedOnly(issues, was, more) && RefusedUpTo(queue, more, i + 1)
    ensures !ok ==> more == refused && Partly(was[i], issues[i].labels, {READY}, {BLOCKED})
    ensures forall k :: 0 <= k < |issues| && k != i ==> issues[k].labels == old(issues[k].labels)
  {
    ok := RefuseTier(issues[i]);
    more := if ok then refused + [i] else refused;
  }

  /** One cycle over the queue.  `askHalted` and `askReady` are the answers the repositories would give at
      each moment, None where asking raises; `noted` tells whether the note about a halt could be left. */
  method Pick(queue: seq<Task>, issues: seq<Issue>, askHalted: (nat, string) -> Option<bool>,
              askReady: (nat, string) -> bool, noted: nat -> bool)
    returns (picked: Picked, refused: seq<nat>, a: Answers)
    requires |issues| == |queue| && forall i, j :: 0 <= i < j < |issues| ==> issues[i] != issues[j]
    modifies issues
    ensures AskedOnce(a, askHalted, askReady)
    ensures picked.Chosen? ==> picked.index < |queue| && Runnable(queue[picked.index], a.halted, a.ready)
    ensures picked.Raised? ==> picked.index < |queue|
    ensures forall i :: 0 <= i < Passed(queue, picked) ==> Settled(queue[i], a)
    ensures forall i :: 0 <= i < Passed(queue, picked) ==> !Runnable(queue[i], a.halted, a.ready)
    ensures forall i :: i in refused <==> 0 <= i < Passed(queue, picked) && IsRefused(queue[i])
    ensures forall k :: 0 <= k < |queue| && k in refused ==>
              issues[k].labels == old(issues[k].labels) - {READY} + {BLOCKED}
    ensures forall k :: 0 <= k < |queue| && k !in refused && picked != Raised(k) ==>
              issues[k].labels == old(issues[k].labels)
    ensures picked.Raised? ==>
              Partly(old(issues[picked.index].labels), issues[picked.index].labels, {READY}, {BLOCKED})
  {
    refused, a := [], Answers(map[], map[], []);
    ghost var was := seq(|issues|, k requires 0 <= k < |issues| reads issues => issues[k].labels);
    for i := 0 to |queue|
      invariant AskedOnce(a, askHalted, askReady) && PassedOver(queue, i, a)
      invariant RefusedUpTo(queue, refused, i) && EditedOnly(issues, was, refused)
    {
      var task := queue[i];
      var tier := TierOf(task);
      if tier.None? || tier.value == TIER_C {
        var ok: bool;
        ok, refused := RefuseNext(queue, issues, i, refused, was);
        if !ok {
          return Raised(i), refused, a;
        }
        continue;
      }
      if tier.value == TIER_B {
        var ok: bool;
        ok, a := LearnHalted(a, task.repo, i, askHalted, askReady, queue, i);
        if !ok || (a.halted[task.repo] && !noted(i)) {
          return Raised(i), refused, a;
        }
        if a.halted[task.repo] {
          continue;
        }
      }
      a := LearnReady(a, task.repo, i, askHalted, askReady, queue, i);
      if !a.ready[task.repo] {
        continue;
      }
      return Chosen(i), refused, a;
    }
    picked := NothingToRun;
  }
}
