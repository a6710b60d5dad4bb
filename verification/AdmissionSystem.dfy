/** Chat admission as a transition system: any number of requests, two gates, and a capacity that changes
    under them. A step is what runs between two awaits; every interleaving of steps is a run. */
module AdmissionSystem {
  import opened Options

  type Id = nat

  datatype Kind = Owner | Scoped

  /** Where the acquiring task, and later the release of what it acquired, has got to. */
  datatype Phase =
    | Fresh
      /** Waiting for the lane; asleep since a look that saw this capacity, unless notified. */
    | AtLane(seen: Option<nat>)
      /** Waiting for the chat gate, a scoped request with a lane slot in hand. */
    | AtChat(asleep: bool)
    | Granted
    | GivingChat
    | GivingLane
    | Done

  /** The response stream that asked for the slot. */
  datatype Stream = Queued | Streaming | Ended

  /** One request, with a tally of the slots it took and gave back. */
  datatype Request = Request(kind: Kind, phase: Phase, stream: Stream, cancelled: bool,
                             chatTaken: nat, chatGiven: nat, laneTaken: nat, laneGiven: nat)

  datatype State = State(cap: int, reserve: nat, chatInUse: int, laneInUse: int, reqs: map<Id, Request>) {
    function LaneCap(): nat { if cap > reserve then cap - reserve else 0 }
  }

  datatype Event =
    | Arrive(id: Id, kind: Kind)
    | TryLane(id: Id)
    | TryChat(id: Id)
    | DeliverCancel(id: Id)
    | Begin(id: Id)
    | SeeRefusal(id: Id)
    | Abandon(id: Id)
    | Finish(id: Id)
    | GiveChat(id: Id)
    | GiveLane(id: Id)
    | Resize(slots: int)

  // ---- Steps ----

  predicate MayTryLane(r: Request) { r.kind.Scoped? && (r.phase.Fresh? || r.phase.AtLane?) && !r.cancelled }

  predicate MayTryChat(r: Request) {
    !r.cancelled && (if r.phase.AtChat? then !r.phase.asleep else r.kind.Owner? && r.phase.Fresh?)
  }

  predicate Waiting(r: Request) { r.phase.Fresh? || r.phase.AtLane? || r.phase.AtChat? }

  predicate Enabled(s: State, e: Event) {
    match e
    case Arrive(id, _) => id !in s.reqs
    case Resize(_) => true
    case TryLane(id) => id in s.reqs && MayTryLane(s.reqs[id])
    case TryChat(id) => id in s.reqs && MayTryChat(s.reqs[id])
    case DeliverCancel(id) => id in s.reqs && s.reqs[id].cancelled && Waiting(s.reqs[id])
    case Begin(id) => id in s.reqs && s.reqs[id].stream.Queued? && s.reqs[id].phase.Granted?
    case SeeRefusal(id) => id in s.reqs && s.reqs[id].stream.Queued? && s.reqs[id].phase.Done?
    case Abandon(id) => id in s.reqs && s.reqs[id].stream.Queued?
    case Finish(id) => id in s.reqs && s.reqs[id].stream.Streaming?
    case GiveChat(id) => id in s.reqs && s.reqs[id].phase.GivingChat?
    case GiveLane(id) => id in s.reqs && s.reqs[id].phase.GivingLane?
  }

  /** notify_all on the chat gate's condition. */
  function WakeChat(reqs: map<Id, Request>): map<Id, Request> {
    map id | id in reqs :: if reqs[id].phase.AtChat? then reqs[id].(phase := AtChat(false)) else reqs[id]
  }

  /** notify_all on the lane's condition. */
  function WakeLane(reqs: map<Id, Request>): map<Id, Request> {
    map id | id in reqs :: if reqs[id].phase.AtLane? then reqs[id].(phase := AtLane(None)) else reqs[id]
  }

  function With(s: State, id: Id, r: Request): State { s.(reqs := s.reqs[id := r]) }

  /** One pass of the lane's waiting loop. */
  function LaneStep(s: State, id: Id, r: Request): State {
    if s.laneInUse < s.LaneCap() then
      With(s, id, r.(phase := AtChat(false), laneTaken := r.laneTaken + 1)).(laneInUse := s.laneInUse + 1)
    else if s.LaneCap() == 0 then With(s, id, r.(phase := Done))
    else With(s, id, r.(phase := AtLane(Some(s.LaneCap()))))
  }

  /** One pass of the chat gate's waiting loop, with the look back at the lane that follows a grant. */
  function ChatStep(s: State, id: Id, r: Request): State {
    if s.chatInUse < s.cap then
      var over := r.kind.Scoped? && s.laneInUse > s.LaneCap();
      With(s, id, r.(phase := if over then GivingChat else Granted, chatTaken := r.chatTaken + 1))
      .(chatInUse := s.chatInUse + 1)
    else With(s, id, r.(phase := AtChat(true)))
  }

  function Next(s: State, e: Event): State
    requires Enabled(s, e)
  {
    match e
    case Arrive(id, kind) => With(s, id, Request(kind, Fresh, Queued, false, 0, 0, 0, 0))
    case Resize(slots) => s.(cap := if slots < 1 then 1 else slots, reqs := WakeChat(s.reqs))
    case TryLane(id) => LaneStep(s, id, s.reqs[id])
    case TryChat(id) => ChatStep(s, id, s.reqs[id])
    case DeliverCancel(id) =>
      var r := s.reqs[id];
      With(s, id, r.(phase := if r.kind.Scoped? && r.phase.AtChat? then GivingLane else Done))
    case Begin(id) => With(s, id, s.reqs[id].(stream := Streaming))
    case SeeRefusal(id) => With(s, id, s.reqs[id].(stream := Ended))
    case Abandon(id) =>
      var r := s.reqs[id];
      With(s, id, if r.phase.Granted? then r.(stream := Ended, phase := GivingChat)
                  else r.(stream := Ended, cancelled := true))
    case Finish(id) => With(s, id, s.reqs[id].(stream := Ended, phase := GivingChat))
    case GiveChat(id) =>
      s.(chatInUse := s.chatInUse - 1, reqs := WakeChat(s.reqs[id := ChatGivenBack(s.reqs[id])]))
    case GiveLane(id) =>
      s.(laneInUse := s.laneInUse - 1, reqs := WakeLane(s.reqs[id := LaneGivenBack(s.reqs[id])]))
  }

  function ChatGivenBack(r: Request): Request {
    r.(phase := if r.kind.Scoped? then GivingLane else Done, chatGiven := r.chatGiven + 1)
  }

  function LaneGivenBack(r: Request): Request { r.(phase := Done, laneGiven := r.laneGiven + 1) }

  // ---- Who holds what ----

  predicate HoldsChat(r: Request) { r.phase.Granted? || r.phase.GivingChat? }

  predicate HoldsLane(r: Request) {
    r.kind.Scoped? && (r.phase.AtChat? || r.phase.Granted? || r.phase.GivingChat? || r.phase.GivingLane?)
  }

  function ChatHolders(reqs: map<Id, Request>): set<Id> { set id | id in reqs && HoldsChat(reqs[id]) }

  function LaneHolders(reqs: map<Id, Request>): set<Id> { set id | id in reqs && HoldsLane(reqs[id]) }

  function OwnersIn(s: State): set<Id> { set id | id in ChatHolders(s.reqs) && s.reqs[id].kind.Owner? }

  function ScopedIn(s: State): set<Id> { set id | id in ChatHolders(s.reqs) && s.reqs[id].kind.Scoped? }

  // ---- What every run keeps ----

  ghost predicate RequestOk(s: State, r: Request) {
    && (r.kind.Owner? ==> !r.phase.AtLane? && !r.phase.GivingLane?)
    && r.chatTaken <= 1 && r.chatTaken - r.chatGiven == (if HoldsChat(r) then 1 else 0)
    && r.laneTaken <= 1 && r.laneTaken - r.laneGiven == (if HoldsLane(r) then 1 else 0)
    && (r.phase.Fresh? || r.phase.AtLane? ==> r.chatTaken == r.laneTaken == 0)
    && (r.phase.AtChat? ==> r.chatTaken == 0)
    && (r.phase.AtChat? && r.phase.asleep ==> s.chatInUse >= s.cap)
    && (r.phase.AtLane? && r.phase.seen.Some? ==> s.laneInUse >= r.phase.seen.value >= 1)
    && (r.stream.Streaming? ==> r.phase.Granted?)
    && (r.stream.Ended? ==> !r.phase.Granted?)
    && (r.stream.Ended? && Waiting(r) ==> r.cancelled)
    && (r.cancelled ==> r.stream.Ended?)
  }

  ghost predicate Sound(s: State) {
    && s.cap >= 1
    && s.chatInUse == |ChatHolders(s.reqs)|
    && s.laneInUse == |LaneHolders(s.reqs)|
    && forall id :: id in s.reqs ==> RequestOk(s, s.reqs[id])
  }

  predicate Initial(s: State) { s.cap >= 1 && s.chatInUse == s.laneInUse == 0 && s.reqs == map[] }

  lemma InitialIsSound(s: State)
    requires Initial(s)
    ensures Sound(s)
  {
    assert ChatHolders(s.reqs) == {} && LaneHolders(s.reqs) == {};
  }

  function AsCount(b: bool): int { if b then 1 else 0 }

  /** How one request's change shows in how many hold what. */
  lemma ChatHoldersAfter(reqs: map<Id, Request>, id: Id, r: Request)
    ensures |ChatHolders(reqs[id := r])|
            == |ChatHolders(reqs)| - AsCount(id in reqs && HoldsChat(reqs[id])) + AsCount(HoldsChat(r))
  {
    var rest := ChatHolders(reqs) - {id};
    assert ChatHolders(reqs[id := r]) == if HoldsChat(r) then rest + {id} else rest;
    assert ChatHolders(reqs) == if id in reqs && HoldsChat(reqs[id]) then rest + {id} else rest;
  }

  lemma LaneHoldersAfter(reqs: map<Id, Request>, id: Id, r: Request)
    ensures |LaneHolders(reqs[id := r])|
            == |LaneHolders(reqs)| - AsCount(id in reqs && HoldsLane(reqs[id])) + AsCount(HoldsLane(r))
  {
    var rest := LaneHolders(reqs) - {id};
    assert LaneHolders(reqs[id := r]) == if HoldsLane(r) then rest + {id} else rest;
    assert LaneHolders(reqs) == if id in reqs && HoldsLane(reqs[id]) then rest + {id} else rest;
  }

  lemma WakingKeepsHolders(reqs: map<Id, Request>)
    ensures ChatHolders(WakeChat(reqs)) == ChatHolders(WakeLane(reqs)) == ChatHolders(reqs)
    ensures LaneHolders(WakeChat(reqs)) == LaneHolders(WakeLane(reqs)) == LaneHolders(reqs)
  {
  }

  /** A step that changes one request and takes what it newly holds. */
  lemma TakingKeepsSound(s: State, t: State, id: Id, r: Request)
    requires Sound(s) && t.reqs == s.reqs[id := r] && t.cap == s.cap
    requires t.chatInUse - s.chatInUse == AsCount(HoldsChat(r)) - AsCount(id in s.reqs && HoldsChat(s.reqs[id]))
    requires t.laneInUse - s.laneInUse == AsCount(HoldsLane(r)) - AsCount(id in s.reqs && HoldsLane(s.reqs[id]))
    requires t.chatInUse >= s.chatInUse && t.laneInUse >= s.laneInUse && RequestOk(t, r)
    ensures Sound(t)
  {
    ChatHoldersAfter(s.reqs, id, r);
    LaneHoldersAfter(s.reqs, id, r);
    forall other | other in t.reqs ensures RequestOk(t, t.reqs[other]) {
      assert other != id ==> RequestOk(s, s.reqs[other]);
    }
  }

  lemma ResizeKeepsSound(s: State, slots: int)
    requires Sound(s)
    ensures Sound(Next(s, Resize(slots)))
  {
    WakingKeepsHolders(s.reqs);
    var t := Next(s, Resize(slots));
    forall id | id in t.reqs ensures RequestOk(t, t.reqs[id]) { assert RequestOk(s, s.reqs[id]); }
  }

  lemma OkAfterGivingBack(s: State, e: Event, other: Id)
    requires Sound(s) && Enabled(s, e) && (e.GiveChat? || e.GiveLane?) && other in s.reqs
    ensures other in Next(s, e).reqs && RequestOk(Next(s, e), Next(s, e).reqs[other])
  {
    assert RequestOk(s, s.reqs[other]);
  }

  lemma GiveChatKeepsSound(s: State, id: Id)
    requires Sound(s) && Enabled(s, GiveChat(id))
    ensures Sound(Next(s, GiveChat(id)))
  {
    var t := Next(s, GiveChat(id));
    var reqs := s.reqs[id := ChatGivenBack(s.reqs[id])];
    ChatHoldersAfter(s.reqs, id, ChatGivenBack(s.reqs[id]));
    LaneHoldersAfter(s.reqs, id, ChatGivenBack(s.reqs[id]));
    WakingKeepsHolders(reqs);
    assert RequestOk(s, s.reqs[id]);
    assert t.reqs == WakeChat(reqs) && t.laneInUse == |LaneHolders(reqs)| && t.chatInUse == |ChatHolders(reqs)|;
    forall other | other in t.reqs ensures RequestOk(t, t.reqs[other]) {
      OkAfterGivingBack(s, GiveChat(id), other);
    }
  }

  lemma GiveLaneKeepsSound(s: State, id: Id)
    requires Sound(s) && Enabled(s, GiveLane(id))
    ensures Sound(Next(s, GiveLane(id)))
  {
    var t := Next(s, GiveLane(id));
    var reqs := s.reqs[id := LaneGivenBack(s.reqs[id])];
    ChatHoldersAfter(s.reqs, id, LaneGivenBack(s.reqs[id]));
    LaneHoldersAfter(s.reqs, id, LaneGivenBack(s.reqs[id]));
    WakingKeepsHolders(reqs);
    assert RequestOk(s, s.reqs[id]);
    assert t.reqs == WakeLane(reqs) && t.laneInUse == |LaneHolders(reqs)| && t.chatInUse == |ChatHolders(reqs)|;
    forall other | other in t.reqs ensures RequestOk(t, t.reqs[other]) {
      OkAfterGivingBack(s, GiveLane(id), other);
    }
  }

  lemma ArriveKeepsSound(s: State, id: Id, kind: Kind)
    requires Sound(s) && Enabled(s, Arrive(id, kind))
    ensures Sound(Next(s, Arrive(id, kind)))
  {
    TakingKeepsSound(s, Next(s, Arrive(id, kind)), id, Request(kind, Fresh, Queued, false, 0, 0, 0, 0));
  }

  lemma TryKeepsSound(s: State, e: Event)
    requires Sound(s) && Enabled(s, e) && (e.TryLane? || e.TryChat?)
    ensures Sound(Next(s, e))
  {
    assert RequestOk(s, s.reqs[e.id]);
    TakingKeepsSound(s, Next(s, e), e.id, Next(s, e).reqs[e.id]);
  }

  lemma StreamStepKeepsSound(s: State, e: Event)
    requires Sound(s) && Enabled(s, e)
    requires e.DeliverCancel? || e.Begin? || e.SeeRefusal? || e.Abandon? || e.Finish?
    ensures Sound(Next(s, e))
  {
    assert RequestOk(s, s.reqs[e.id]);
    TakingKeepsSound(s, Next(s, e), e.id, Next(s, e).reqs[e.id]);
  }

  lemma StepKeepsSound(s: State, e: Event)
    requires Sound(s) && Enabled(s, e)
    ensures Sound(Next(s, e))
  {
    match e {
      case Arrive(id, kind) => ArriveKeepsSound(s, id, kind);
      case Resize(slots) => ResizeKeepsSound(s, slots);
      case GiveChat(id) => GiveChatKeepsSound(s, id);
      case GiveLane(id) => GiveLaneKeepsSound(s, id);
      case TryLane(_) => TryKeepsSound(s, e);
      case TryChat(_) => TryKeepsSound(s, e);
      case _ => StreamStepKeepsSound(s, e);
    }
  }

  // ---- Runs ----

  ghost predicate Legal(s: State, run: seq<Event>)
    decreases |run|
  {
    run != [] ==> Enabled(s, run[0]) && Legal(Next(s, run[0]), run[1..])
  }

  function After(s: State, run: seq<Event>): State
    requires Legal(s, run)
    decreases |run|
  {
    if run == [] then s else After(Next(s, run[0]), run[1..])
  }

  lemma {:induction false} RunKeepsSound(s: State, run: seq<Event>)
    requires Sound(s) && Legal(s, run)
    ensures Sound(After(s, run))
    decreases |run|
  {
    if run != [] {
      StepKeepsSound(s, run[0]);
      RunKeepsSound(Next(s, run[0]), run[1..]);
    }
  }

  // ---- The reserved lane keeps the owner's slots ----

  /** The chat gate is held by owners and scoped requests, and the scoped ones hold lane slots too. */
  lemma ScopedWithinLane(s: State)
    requires Sound(s)
    ensures s.chatInUse == |OwnersIn(s)| + |ScopedIn(s)|
    ensures |ScopedIn(s)| <= s.laneInUse
  {
    assert ChatHolders(s.reqs) == OwnersIn(s) + ScopedIn(s) && OwnersIn(s) !! ScopedIn(s);
    SubsetIsSmaller(ScopedIn(s), LaneHolders(s.reqs));
  }

  lemma {:induction false} SubsetIsSmaller(a: set<Id>, b: set<Id>)
    requires a <= b
    ensures |a| <= |b|
  {
    assert b == a + (b - a);
  }

  /** In every state of every run in which the lane is within its capacity, a full chat gate is full of
      owners up to the reserve. */
  lemma OwnersHoldTheReserve(s: State, run: seq<Event>)
    requires Initial(s) && Legal(s, run)
    ensures var t := After(s, run);
            t.laneInUse <= t.LaneCap() && t.chatInUse >= t.cap
            ==> |OwnersIn(t)| >= if t.cap < t.reserve then t.cap else t.reserve
  {
    InitialIsSound(s);
    RunKeepsSound(s, run);
    ScopedWithinLane(After(s, run));
  }

  /** So an owner while fewer than the reserve are in is served without waiting. */
  lemma OwnerIsServedAtOnce(s: State, id: Id)
    requires Sound(s) && s.laneInUse <= s.LaneCap()
    requires |OwnersIn(s)| < s.cap && |OwnersIn(s)| < s.reserve
    requires Enabled(s, TryChat(id)) && s.reqs[id].kind.Owner?
    ensures Next(s, TryChat(id)).reqs[id].phase.Granted?
  {
    ScopedWithinLane(s);
  }

  // ---- What a look comes to ----

  /** A look at the lane takes a slot exactly while fewer are in use than the capacity leaves after the
      reserve; it is refused exactly when the reserve leaves none at all, and else goes to sleep. */
  lemma LaneLookIff(s: State, id: Id)
    requires Sound(s) && Enabled(s, TryLane(id))
    ensures var t := Next(s, TryLane(id));
            && (t.reqs[id].phase.AtChat? <==> s.laneInUse < s.cap - s.reserve)
            && (t.reqs[id].phase.Done? <==> s.cap <= s.reserve)
            && (t.reqs[id].phase.AtLane? <==> 0 < s.cap - s.reserve <= s.laneInUse)
            && t.laneInUse == s.laneInUse + AsCount(s.laneInUse < s.cap - s.reserve)
  {
    assert s.laneInUse == |LaneHolders(s.reqs)|;
  }

  /** A look at the chat gate lets in exactly while a slot is free and, for a scoped request, the lane is
      within what the reserve leaves; with a slot free and the lane beyond that, both slots go back. */
  lemma ChatLookIff(s: State, id: Id)
    requires Sound(s) && Enabled(s, TryChat(id))
    ensures var t, scoped := Next(s, TryChat(id)), s.reqs[id].kind.Scoped?;
            && (t.reqs[id].phase.Granted? <==>
                  s.chatInUse < s.cap && (scoped ==> s.laneInUse <= s.cap - s.reserve))
            && (t.reqs[id].phase.GivingChat? <==>
                  s.chatInUse < s.cap && scoped && s.laneInUse > s.cap - s.reserve)
            && (t.reqs[id].phase == AtChat(true) <==> s.chatInUse >= s.cap)
            && t.chatInUse == s.chatInUse + AsCount(s.chatInUse < s.cap)
  {
    assert RequestOk(s, s.reqs[id]);
    if s.reqs[id].kind.Scoped? { assert id in LaneHolders(s.reqs); }
  }

  /** In every reachable state with room in the lane and a free chat slot, a scoped request that arrives is
      let in by its two looks. */
  lemma ScopedIsServedAtOnce(s: State, run: seq<Event>, id: Id)
    requires Initial(s) && Legal(s, run)
    requires var t := After(s, run);
             id !in t.reqs && |LaneHolders(t.reqs)| < t.cap - t.reserve && |ChatHolders(t.reqs)| < t.cap
    ensures var t, looks := After(s, run), [Arrive(id, Scoped), TryLane(id), TryChat(id)];
            Legal(t, looks) && id in After(t, looks).reqs && After(t, looks).reqs[id].phase.Granted?
  {
    InitialIsSound(s);
    RunKeepsSound(s, run);
    var t := After(s, run);
    var t1 := Next(t, Arrive(id, Scoped));
    StepKeepsSound(t, Arrive(id, Scoped));
    LaneLookIff(t1, id);
    var t2 := Next(t1, TryLane(id));
    StepKeepsSound(t1, TryLane(id));
    ChatLookIff(t2, id);
    ThreeSteps(t, Arrive(id, Scoped), TryLane(id), TryChat(id));
  }

  lemma ThreeSteps(s: State, a: Event, b: Event, c: Event)
    requires Enabled(s, a) && Enabled(Next(s, a), b) && Enabled(Next(Next(s, a), b), c)
    ensures Legal(s, [a, b, c]) && After(s, [a, b, c]) == Next(Next(Next(s, a), b), c)
  {
    var s1, s2 := Next(s, a), Next(Next(s, a), b);
    assert [a, b, c][1..] == [b, c] && [b, c][1..] == [c] && [c][1..] == [];
    assert Legal(Next(s2, c), []);
    assert Legal(s2, [c]);
    assert Legal(s1, [b, c]);
    assert After(s2, [c]) == Next(s2, c);
    assert After(s1, [b, c]) == Next(s2, c);
  }

  /** A scoped request is let in only while the lane is within its capacity at that instant. */
  lemma ScopedGrantIsWithinLane(s: State, e: Event, id: Id)
    requires Sound(s) && Enabled(s, e) && id in s.reqs && s.reqs[id].kind.Scoped?
    requires id in Next(s, e).reqs && !s.reqs[id].phase.Granted? && Next(s, e).reqs[id].phase.Granted?
    ensures e == TryChat(id) && s.chatInUse < s.cap && s.laneInUse <= s.LaneCap()
    ensures |ScopedIn(Next(s, e))| <= Next(s, e).LaneCap()
  {
    OnlyChatStepsGrant(s, e, id);
    StepKeepsSound(s, e);
    ScopedWithinLane(Next(s, e));
  }

  lemma OnlyChatStepsGrant(s: State, e: Event, id: Id)
    requires Enabled(s, e) && id in s.reqs && id in Next(s, e).reqs
    requires !s.reqs[id].phase.Granted? && Next(s, e).reqs[id].phase.Granted?
    ensures e == TryChat(id)
  {
  }

  /** Only a smaller chat layout can put the lane over its capacity, and exactly one smaller than what the
      lane holds. */
  lemma OnlyShrinkOverfillsLane(s: State, e: Event)
    requires Sound(s) && Enabled(s, e) && s.laneInUse <= s.LaneCap()
    ensures Next(s, e).laneInUse > Next(s, e).LaneCap()
            <==> e.Resize? && s.laneInUse > 0
                 && s.laneInUse > (if e.slots < 1 then 1 else e.slots) - s.reserve
  {
  }

  /** The lane over its capacity refuses: no scoped request gets in, and those that reach the chat gate
      give both slots back. */
  lemma OverfilledLaneAdmitsNone(s: State, id: Id)
    requires Sound(s) && s.laneInUse > s.LaneCap() && Enabled(s, TryChat(id))
    requires id in s.reqs && s.reqs[id].kind.Scoped? && s.chatInUse < s.cap
    ensures Legal(s, [TryChat(id), GiveChat(id), GiveLane(id)])
    ensures var t := After(s, [TryChat(id), GiveChat(id), GiveLane(id)]);
            id in t.reqs && t.reqs[id].phase.Done? && t.chatInUse == s.chatInUse && t.laneInUse == s.laneInUse - 1
  {
    ThreeSteps(s, TryChat(id), GiveChat(id), GiveLane(id));
  }

  // ---- Shrinking is graceful, and nobody sleeps through a free slot ----

  /** A step that is no refresh never adds to a full gate. */
  lemma FullGatesOnlyFall(s: State, e: Event)
    requires Sound(s) && Enabled(s, e) && !e.Resize?
    ensures Next(s, e).cap == s.cap && Next(s, e).reserve == s.reserve
    ensures Next(s, e).chatInUse <= (if s.chatInUse >= s.cap then s.chatInUse else s.chatInUse + 1)
    ensures Next(s, e).laneInUse <= (if s.laneInUse >= s.LaneCap() then s.laneInUse else s.laneInUse + 1)
  {
  }

  /** While no refresh changes the capacity, neither gate ever holds more than it did or than it may. */
  lemma {:induction false} OverfullOnlyFalls(s: State, run: seq<Event>)
    requires Sound(s) && Legal(s, run) && forall e :: e in run ==> !e.Resize?
    ensures After(s, run).cap == s.cap
    ensures After(s, run).chatInUse <= (if s.chatInUse > s.cap then s.chatInUse else s.cap)
    ensures After(s, run).laneInUse <= (if s.laneInUse > s.LaneCap() then s.laneInUse else s.LaneCap())
    decreases |run|
  {
    if run != [] {
      assert run[0] in run;
      StepKeepsSound(s, run[0]);
      FullGatesOnlyFall(s, run[0]);
      OverfullOnlyFalls(Next(s, run[0]), run[1..]);
    }
  }

  /** A request asleep at the chat gate, not notified, has nothing to take. */
  lemma NoLostWakeUp(s: State, run: seq<Event>, id: Id)
    requires Initial(s) && Legal(s, run) && id in After(s, run).reqs
    requires After(s, run).reqs[id].phase == AtChat(true)
    ensures After(s, run).chatInUse >= After(s, run).cap >= 1
  {
    InitialIsSound(s);
    RunKeepsSound(s, run);
    assert RequestOk(After(s, run), After(s, run).reqs[id]);
  }

  predicate SleepsAtLane(s: State, id: Id) {
    id in s.reqs && s.reqs[id].phase.AtLane? && s.reqs[id].phase.seen.Some?
  }

  /** Someone sleeps at the lane, not notified, beside a free slot of it. */
  ghost predicate Stranded(s: State) { s.laneInUse < s.LaneCap() && exists id :: SleepsAtLane(s, id) }

  /** Only a larger chat layout strands a lane sleeper, and exactly one that leaves room in the lane while
      someone sleeps there: the refresh notifies the chat gate's waiters alone. */
  lemma OnlyGrowthStrands(s: State, e: Event)
    requires Sound(s) && Enabled(s, e) && !Stranded(s)
    ensures Stranded(Next(s, e))
            <==> e.Resize? && (exists id :: SleepsAtLane(s, id))
                 && (if e.slots < 1 then 1 else e.slots) - s.reserve > s.laneInUse
  {
    var t := Next(s, e);
    if e.Resize? {
      forall id ensures SleepsAtLane(t, id) <==> SleepsAtLane(s, id) { }
    } else if Stranded(t) {
      OthersDoNotStrand(s, e);
    }
  }

  lemma OthersDoNotStrand(s: State, e: Event)
    requires Sound(s) && Enabled(s, e) && !Stranded(s) && !e.Resize?
    ensures !Stranded(Next(s, e))
  {
    var t := Next(s, e);
    forall id | SleepsAtLane(t, id) ensures t.laneInUse >= t.LaneCap() {
      if SleepsAtLane(s, id) {
        assert s.laneInUse >= s.LaneCap();
      } else {
        assert e == TryLane(id);
      }
    }
  }

  /** A stranded sleeper saw a lane that was full for it, and its next look, at most a poll later, takes the
      free slot. */
  lemma LanePollIsNeeded(s: State, id: Id)
    requires Sound(s) && Stranded(s) && SleepsAtLane(s, id) && !s.reqs[id].cancelled
    ensures s.reqs[id].phase.seen.value <= s.laneInUse < s.LaneCap()
    ensures Enabled(s, TryLane(id)) && Next(s, TryLane(id)).reqs[id].phase.AtChat?
  {
    assert RequestOk(s, s.reqs[id]);
  }

  // ---- No slot leaks, none is returned twice ----

  function Sending(s: State): set<Id> { set id | id in s.reqs && s.reqs[id].stream.Streaming? }

  /** A stream that is sending holds its chat slot. */
  lemma StreamsHoldSlots(s: State, run: seq<Event>)
    requires Initial(s) && Legal(s, run)
    ensures |Sending(After(s, run))| <= After(s, run).chatInUse
  {
    InitialIsSound(s);
    RunKeepsSound(s, run);
    var t := After(s, run);
    forall id | id in Sending(t) ensures HoldsChat(t.reqs[id]) {
      assert RequestOk(t, t.reqs[id]);
    }
    SubsetIsSmaller(Sending(t), ChatHolders(t.reqs));
  }

  /** What still has to happen to a request whose stream has ended. */
  function Rank(r: Request): nat {
    match r.phase
    case GivingChat => 2
    case GivingLane => 1
    case Done => 0
    case _ => 3
  }

  predicate CleanUp(e: Event) { e.DeliverCancel? || e.GiveChat? || e.GiveLane? }

  /** Once a stream has ended, a clean-up step of its request is possible until it is done. */
  lemma EndedRequestCanFinish(s: State, id: Id)
    requires Sound(s) && id in s.reqs && s.reqs[id].stream.Ended? && !s.reqs[id].phase.Done?
    ensures exists e :: CleanUp(e) && e.id == id && Enabled(s, e)
  {
    var r := s.reqs[id];
    assert RequestOk(s, r);
    var e := if Waiting(r) then DeliverCancel(id) else if r.phase.GivingChat? then GiveChat(id) else GiveLane(id);
    assert CleanUp(e) && e.id == id && Enabled(s, e);
  }

  /** Such a step brings it nearer, and no step of anything takes it back. */
  lemma EndedRequestFinishes(s: State, id: Id, e: Event)
    requires Sound(s) && id in s.reqs && s.reqs[id].stream.Ended? && Enabled(s, e)
    ensures id in Next(s, e).reqs && Next(s, e).reqs[id].stream.Ended?
    ensures Rank(Next(s, e).reqs[id]) <= Rank(s.reqs[id])
    ensures CleanUp(e) && e.id == id ==> Rank(Next(s, e).reqs[id]) < Rank(s.reqs[id])
  {
    assert RequestOk(s, s.reqs[id]);
  }

  /** Every request that is done has given back exactly the slots it took, each taken at most once; when
      every stream has ended and no clean-up is left to do, both gates are empty. */
  lemma NoSlotLeaks(s: State, run: seq<Event>)
    requires Initial(s) && Legal(s, run)
    ensures var t := After(s, run);
            forall id :: id in t.reqs && t.reqs[id].phase.Done? ==>
              && t.reqs[id].chatTaken == t.reqs[id].chatGiven <= 1
              && t.reqs[id].laneTaken == t.reqs[id].laneGiven <= 1
    ensures var t := After(s, run);
            (forall id :: id in t.reqs ==> t.reqs[id].stream.Ended?) && (forall e :: CleanUp(e) ==> !Enabled(t, e))
            ==> t.chatInUse == 0 && t.laneInUse == 0
  {
    InitialIsSound(s);
    RunKeepsSound(s, run);
    var t := After(s, run);
    forall id | id in t.reqs ensures RequestOk(t, t.reqs[id]) { }
    if (forall id :: id in t.reqs ==> t.reqs[id].stream.Ended?) && (forall e :: CleanUp(e) ==> !Enabled(t, e)) {
      forall id | id in t.reqs ensures t.reqs[id].phase.Done? {
        if !t.reqs[id].phase.Done? { EndedRequestCanFinish(t, id); }
      }
      assert ChatHolders(t.reqs) == {} && LaneHolders(t.reqs) == {};
    }
  }
}
