/** The two gates of stream_admission.py and workforce_lane.py, one method for each stretch of code that
    runs without an await. Each is shown to be a step of the transition system. */
module AdmissionGates {
  import opened AdmissionSystem
  import opened Options

  function AtLeastOne(capacity: int): int { if capacity < 1 then 1 else capacity }

  class AdmissionGate {
    var cap: int
    var inUse: int
    /** The waiters on the condition that have not been notified. */
    var asleep: set<Id>

    ghost predicate Valid()
      reads this
    {
      cap >= 1 && (asleep != {} ==> inUse >= cap)
    }

    constructor (capacity: int)
      ensures Valid() && cap == AtLeastOne(capacity) && inUse == 0 && asleep == {}
    {
      cap := AtLeastOne(capacity);
      inUse := 0;
      asleep := {};
    }

    /** One look at the predicate of `acquire`. */
    method TryAcquire(who: Id) returns (granted: bool)
      requires Valid()
      modifies this
      ensures Valid() && cap == old(cap)
      ensures granted <==> old(inUse) < cap
      ensures granted ==> inUse == old(inUse) + 1 && asleep == old(asleep) - {who}
      ensures !granted ==> inUse == old(inUse) && asleep == old(asleep) + {who}
    {
      if inUse < cap {
        inUse := inUse + 1;
        asleep := asleep - {who};
        return true;
      }
      asleep := asleep + {who};
      return false;
    }

    /** A waiter cancelled while it waits takes no wake-up with it. */
    method Leave(who: Id)
      requires Valid()
      modifies this`asleep
      ensures Valid() && asleep == old(asleep) - {who}
    {
      asleep := asleep - {who};
    }

    method Release()
      requires Valid()
      modifies this`inUse, this`asleep
      ensures Valid() && inUse == old(inUse) - 1 && asleep == {}
    {
      inUse := inUse - 1;
      asleep := {};
    }

    method SetCapacity(capacity: int)
      requires Valid()
      modifies this`cap, this`asleep
      ensures Valid() && cap == AtLeastOne(capacity) && asleep == {}
    {
      cap := AtLeastOne(capacity);
      asleep := {};
    }

    /** One refresh from the server's slot count; a count that could not be read, or below one, changes
        nothing, and neither does the same count again. */
    method RefreshCapacityOnce(slots: Option<int>) returns (now: Option<int>)
      requires Valid()
      modifies this`cap, this`asleep
      ensures Valid() && now == (if slots.Some? && slots.value >= 1 then slots else None)
      ensures cap == if now.Some? then now.value else old(cap)
      ensures asleep == if cap != old(cap) then {} else old(asleep)
    {
      if slots.None? || slots.value < 1 {
        return None;
      }
      if slots.value != cap {
        SetCapacity(slots.value);
      }
      return slots;
    }
  }

  datatype Look = Taken | Closed | Asleep

  class ReservedLane {
    const chat: AdmissionGate
    const reserve: nat
    var inUse: int
    var asleep: set<Id>

    constructor (chat: AdmissionGate, reserve: int)
      ensures this.chat == chat && this.reserve == (if reserve < 0 then 0 else reserve)
      ensures inUse == 0 && asleep == {}
    {
      this.chat := chat;
      this.reserve := if reserve < 0 then 0 else reserve;
      inUse := 0;
      asleep := {};
    }

    function Capacity(): nat
      reads this, chat
    {
      if chat.cap > reserve then chat.cap - reserve else 0
    }

    /** One pass of the loop of `acquire`. */
    method TryAcquire(who: Id) returns (look: Look)
      modifies this
      ensures look == if old(inUse) < Capacity() then Taken else if Capacity() == 0 then Closed else Asleep
      ensures inUse == old(inUse) + (if look.Taken? then 1 else 0)
      ensures asleep == if look.Asleep? then old(asleep) + {who} else old(asleep) - {who}
    {
      asleep := asleep - {who};
      if inUse >= Capacity() {
        if Capacity() == 0 {
          return Closed;
        }
        asleep := asleep + {who};
        return Asleep;
      }
      inUse := inUse + 1;
      return Taken;
    }

    method Leave(who: Id)
      modifies this`asleep
      ensures asleep == old(asleep) - {who}
    {
      asleep := asleep - {who};
    }

    method Release()
      modifies this
      ensures inUse == old(inUse) - 1 && asleep == {}
    {
      inUse := inUse - 1;
      asleep := {};
    }
  }

  // ---- The gates move as the transition system says ----

  function SleepersAtChat(s: State): set<Id> { set id | id in s.reqs && s.reqs[id].phase == AtChat(true) }

  function SleepersAtLane(s: State): set<Id> {
    set id | id in s.reqs && s.reqs[id].phase.AtLane? && s.reqs[id].phase.seen.Some?
  }

  /** Both slots given back, the chat slot first. */
  ghost function Returned(s: State, who: Id): State
    requires Enabled(s, GiveChat(who))
  {
    var u := Next(s, GiveChat(who));
    if s.reqs[who].kind.Scoped? then Next(u, GiveLane(who)) else u
  }

  /** The pair a scoped request goes through, lane first; an owner's goes to the chat gate alone. */
  class LaneThenChat {
    const lane: ReservedLane
    const chat: AdmissionGate

    constructor (lane: ReservedLane)
      ensures this.lane == lane && this.chat == lane.chat
    {
      this.lane := lane;
      this.chat := lane.chat;
    }

    ghost predicate Mirrors(s: State)
      reads this, chat, lane
    {
      && lane.chat == chat && chat.Valid()
      && chat.cap == s.cap && chat.inUse == s.chatInUse && chat.asleep == SleepersAtChat(s)
      && lane.reserve == s.reserve && lane.inUse == s.laneInUse && lane.asleep == SleepersAtLane(s)
    }

    method TryLane(who: Id, ghost s: State) returns (look: Look)
      requires Mirrors(s) && Enabled(s, AdmissionSystem.TryLane(who))
      modifies lane
      ensures Mirrors(Next(s, AdmissionSystem.TryLane(who)))
      ensures var phase := Next(s, AdmissionSystem.TryLane(who)).reqs[who].phase;
              (look.Taken? <==> phase.AtChat?) && (look.Closed? <==> phase.Done?)
      ensures look.Taken? <==> old(lane.inUse) < (if chat.cap > lane.reserve then chat.cap - lane.reserve else 0)
    {
      look := lane.TryAcquire(who);
    }

    /** The chat gate for a request that has its lane slot, or needs none; Closed sends a scoped request
        whose slot came after the layout shrank to give both back. */
    method TryChat(who: Id, scoped: bool, ghost s: State) returns (look: Look)
      requires Mirrors(s) && Enabled(s, AdmissionSystem.TryChat(who)) && scoped == s.reqs[who].kind.Scoped?
      modifies chat
      ensures Mirrors(Next(s, AdmissionSystem.TryChat(who)))
      ensures var phase := Next(s, AdmissionSystem.TryChat(who)).reqs[who].phase;
              (look.Taken? <==> phase.Granted?) && (look.Closed? <==> phase.GivingChat?)
      ensures look.Taken? <==> old(chat.inUse) < chat.cap
                               && (scoped ==> lane.inUse <= 0 || lane.inUse <= chat.cap - lane.reserve)
    {
      var granted := chat.TryAcquire(who);
      if !granted {
        return Asleep;
      }
      if scoped && lane.inUse > lane.Capacity() {
        return Closed;
      }
      return Taken;
    }

    method GiveLaneBack(who: Id, ghost s: State)
      requires Mirrors(s) && Enabled(s, GiveLane(who))
      modifies lane
      ensures Mirrors(Next(s, GiveLane(who)))
    {
      lane.Release();
    }

    method GiveChatBack(who: Id, ghost s: State)
      requires Mirrors(s) && Enabled(s, GiveChat(who))
      modifies chat
      ensures Mirrors(Next(s, GiveChat(who)))
    {
      chat.Release();
    }

    method LeaveChat(who: Id, ghost s: State)
      requires Mirrors(s) && Enabled(s, DeliverCancel(who)) && s.reqs[who].phase.AtChat?
      modifies chat`asleep
      ensures Mirrors(Next(s, DeliverCancel(who)))
    {
      chat.Leave(who);
    }

    method LeaveLane(who: Id, ghost s: State)
      requires Mirrors(s) && Enabled(s, DeliverCancel(who)) && !s.reqs[who].phase.AtChat?
      modifies lane`asleep
      ensures Mirrors(Next(s, DeliverCancel(who)))
    {
      lane.Leave(who);
    }

    /** A cancel that reaches the acquire: a waiter leaves, and a lane slot in hand goes back. */
    method Cancel(who: Id, scoped: bool, atChat: bool, ghost s: State) returns (ghost t: State)
      requires Mirrors(s) && Sound(s) && Enabled(s, DeliverCancel(who))
      requires scoped == s.reqs[who].kind.Scoped? && atChat == s.reqs[who].phase.AtChat?
      modifies chat, lane
      ensures t == (var u := Next(s, DeliverCancel(who)); if scoped && atChat then Next(u, GiveLane(who)) else u)
      ensures Mirrors(t) && t.reqs[who].phase.Done?
    {
      if atChat { LeaveChat(who, s); } else { LeaveLane(who, s); }
      t := Next(s, DeliverCancel(who));
      if scoped && atChat {
        GiveLaneBack(who, t);
        t := Next(t, GiveLane(who));
      }
    }

    /** Release in reverse order. */
    method Release(who: Id, scoped: bool, ghost s: State) returns (ghost t: State)
      requires Mirrors(s) && Enabled(s, GiveChat(who)) && scoped == s.reqs[who].kind.Scoped?
      modifies chat, lane
      ensures t == Returned(s, who)
      ensures Mirrors(t) && t.reqs[who].phase.Done?
    {
      GiveChatBack(who, s);
      t := Next(s, GiveChat(who));
      if scoped {
        GiveLaneBack(who, t);
        t := Next(t, GiveLane(who));
      }
    }

    lemma EndingMovesNoGate(who: Id, e: Event, s: State)
      requires Mirrors(s) && Sound(s) && Enabled(s, e) && (e == Finish(who) || e == Abandon(who))
      ensures Mirrors(Next(s, e))
    {
      assert RequestOk(s, s.reqs[who]);
    }

    /** How a stream ends, finished or given up: a slot that was taken, even in the instant of giving up,
        goes back; otherwise the acquire is cancelled. */
    method EndStream(who: Id, scoped: bool, streaming: bool, granted: bool, ghost s: State)
      returns (cancel: bool, ghost t: State)
      requires Mirrors(s) && Sound(s) && who in s.reqs && !s.reqs[who].stream.Ended?
      requires streaming == s.reqs[who].stream.Streaming? && granted == s.reqs[who].phase.Granted?
      requires scoped == s.reqs[who].kind.Scoped?
      modifies chat, lane
      ensures cancel <==> !granted
      ensures Mirrors(t)
      ensures t == if cancel then Next(s, Abandon(who))
                   else Returned(Next(s, if streaming then Finish(who) else Abandon(who)), who)
    {
      assert RequestOk(s, s.reqs[who]);
      ghost var e := if streaming then Finish(who) else Abandon(who);
      EndingMovesNoGate(who, e, s);
      t := Next(s, e);
      var acquired := streaming;
      cancel := false;
      if !acquired {
        if granted { acquired := true; } else { cancel := true; }
      }
      if acquired {
        t := Release(who, scoped, t);
      }
    }

    method Refresh(slots: Option<int>, ghost s: State) returns (now: Option<int>)
      requires Mirrors(s)
      modifies chat
      ensures Mirrors(if now.Some? && now.value != s.cap then Next(s, Resize(now.value)) else s)
    {
      now := chat.RefreshCapacityOnce(slots);
    }
  }
}
