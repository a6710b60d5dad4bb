/** The incremental SSE reader of tool_loop_stream and its tool-call accumulator
    (scripts/files/router-app.py): text arrives in arbitrary pieces, events end at a blank line, and
    tool calls arrive as fragments keyed by index. */
module StreamParser {
  import opened Options
  import opened Text

  // ---- Splitting text into events ----

  predicate BreakAt(s: string, i: nat) {
    i + 1 < |s| && s[i] == '\n' && s[i + 1] == '\n'
  }

  /** The first blank line, if any: where "\n\n" first occurs. */
  function FirstBreak(s: string): (r: Option<nat>)
    ensures r.Some? ==> BreakAt(s, r.value) && forall i: nat :: BreakAt(s, i) ==> r.value <= i
    ensures r.None? ==> forall i: nat :: !BreakAt(s, i)
  {
    if BreakAt(s, 0) then Some(0)
    else if s == [] then None
    else
      var r := FirstBreak(s[1..]);
      assert forall i: nat :: 0 < i && BreakAt(s, i) ==> BreakAt(s[1..], i - 1);
      if r.None? then None else Some(r.value + 1)
  }

  /** The complete events of a text ... */
  function Events(s: string): seq<string>
    decreases |s|
  {
    var b := FirstBreak(s);
    if b.None? then [] else [s[..b.value]] + Events(s[b.value + 2..])
  }

  /** ... and what is left over, still waiting for its blank line. */
  function Remainder(s: string): string
    decreases |s|
  {
    var b := FirstBreak(s);
    if b.None? then s else Remainder(s[b.value + 2..])
  }

  function Terminated(events: seq<string>): string {
    if events == [] then "" else events[0] + "\n\n" + Terminated(events[1..])
  }

  /** No text is lost or invented. */
  lemma {:induction false} SplitLosesNothing(s: string)
    ensures Terminated(Events(s)) + Remainder(s) == s
    decreases |s|
  {
    var b := FirstBreak(s);
    if b.Some? {
      var e, rest := s[..b.value], s[b.value + 2..];
      SplitLosesNothing(rest);
      TerminatedCons(e, Events(rest));
      Rejoin(s, b.value, Terminated(Events(rest)), Remainder(rest));
    }
  }

  lemma TerminatedCons(e: string, events: seq<string>)
    ensures Terminated([e] + events) == e + "\n\n" + Terminated(events)
  {
    assert ([e] + events)[1..] == events;
  }

  lemma Rejoin(s: string, i: nat, a: string, b: string)
    requires BreakAt(s, i) && a + b == s[i + 2..]
    ensures s[..i] + "\n\n" + a + b == s
  {
    assert s[i..i + 2] == "\n\n";
    assert s[..i] + "\n\n" + (a + b) == s;
  }

  /** Each event ends at its first blank line, and none is left behind. */
  lemma {:induction false} EventsAreWhole(s: string)
    ensures FirstBreak(Remainder(s)).None?
    ensures forall e :: e in Events(s) ==> FirstBreak(e + "\n\n") == Some(|e|)
    decreases |s|
  {
    if FirstBreak(s).Some? {
      FirstEvent(s);
      EventsAreWhole(s[FirstBreak(s).value + 2..]);
    }
  }

  lemma FirstEvent(s: string)
    requires FirstBreak(s).Some?
    ensures var e := s[..FirstBreak(s).value]; FirstBreak(e + "\n\n") == Some(|e|)
  {
    var e := s[..FirstBreak(s).value];
    var t := e + "\n\n";
    assert BreakAt(t, |e|);
    assert forall i: nat :: i < |e| && BreakAt(t, i) ==> BreakAt(s, i);
  }

  /** Text after a blank line cannot move it. */
  lemma BreakInPrefix(x: string, y: string)
    requires FirstBreak(x).Some?
    ensures FirstBreak(x + y) == FirstBreak(x)
  {
    var b := FirstBreak(x).value;
    assert BreakAt(x + y, b);
    assert forall i: nat :: i < b && BreakAt(x + y, i) ==> BreakAt(x, i);
  }

  /** Splitting may stop anywhere and resume with the leftover. */
  lemma {:induction false} SplitResumes(x: string, y: string)
    ensures Events(x + y) == Events(x) + Events(Remainder(x) + y)
    ensures Remainder(x + y) == Remainder(Remainder(x) + y)
    decreases |x|
  {
    var b := FirstBreak(x);
    if b.Some? {
      BreakInPrefix(x, y);
      var e, rest := x[..b.value], x[b.value + 2..];
      assert (x + y)[b.value + 2..] == rest + y && (x + y)[..b.value] == e;
      SplitResumes(rest, y);
      assert [e] + (Events(rest) + Events(Remainder(rest) + y)) == [e] + Events(rest) + Events(Remainder(rest) + y);
    } else {
      assert [] + Events(x + y) == Events(x + y);
    }
  }

  // ---- Tool calls, assembled from fragments ----

  /** One delta: a missing or empty id, name or argument fragment is "". */
  datatype CallDelta = CallDelta(index: int, id: string, name: string, arguments: string)

  datatype Call = Call(index: int, id: string, name: string, arguments: string)

  /** The accumulator's dictionary, in insertion order. */
  type Calls = seq<Call>

  function Slot(cs: Calls, index: int): (r: Option<nat>)
    ensures r.Some? ==> r.value < |cs| && cs[r.value].index == index
    ensures r.None? ==> forall i :: 0 <= i < |cs| ==> cs[i].index != index
  {
    if cs == [] then None
    else if cs[|cs| - 1].index == index then Some(|cs| - 1)
    else Slot(cs[..|cs| - 1], index)
  }

  function Or(new_: string, old_: string): string { if new_ != "" then new_ else old_ }

  function FeedOne(cs: Calls, d: CallDelta): Calls {
    var slot := Slot(cs, d.index);
    if slot.None? then cs + [Call(d.index, d.id, d.name, d.arguments)]
    else
      var c := cs[slot.value];
      cs[slot.value := Call(d.index, Or(d.id, c.id), Or(d.name, c.name), c.arguments + d.arguments)]
  }

  function Feed(cs: Calls, ds: seq<CallDelta>): Calls {
    if ds == [] then cs else FeedOne(Feed(cs, ds[..|ds| - 1]), ds[|ds| - 1])
  }

  lemma {:induction false} FeedConcat(cs: Calls, a: seq<CallDelta>, b: seq<CallDelta>)
    ensures Feed(cs, a + b) == Feed(Feed(cs, a), b)
    decreases |b|
  {
    if b == [] {
      assert a + b == a;
    } else {
      assert (a + b)[..|a + b| - 1] == a + b[..|b| - 1];
      FeedConcat(cs, a, b[..|b| - 1]);
    }
  }

  class ToolCallAccumulator {
    var calls: Calls

    constructor ()
      ensures calls == []
    {
      calls := [];
    }

    method FeedDeltas(deltas: seq<CallDelta>)
      modifies this
      ensures calls == Feed(old(calls), deltas)
    {
      for i := 0 to |deltas|
        invariant calls == Feed(old(calls), deltas[..i])
      {
        var tc := deltas[i];
        var slot := Slot(calls, tc.index);
        ghost var before := calls;
        if slot.None? {
          SlotOfNew(calls, tc.index);
          calls := calls + [Call(tc.index, "", "", "")];
          slot := Slot(calls, tc.index);
        }
        var cur := calls[slot.value];
        if tc.id != "" { cur := cur.(id := tc.id); }
        if tc.name != "" { cur := cur.(name := tc.name); }
        if tc.arguments != "" { cur := cur.(arguments := cur.arguments + tc.arguments); }
        calls := calls[slot.value := cur];
        FeedOneAppends(before, tc);
        assert deltas[..i + 1][..i] == deltas[..i];
      }
      assert deltas[..|deltas|] == deltas;
    }
  }

  /** Entering an empty call first and updating it in place is what FeedOne does in one go. */
  lemma FeedOneAppends(cs: Calls, d: CallDelta)
    ensures var slot := Slot(cs, d.index);
            var entered := if slot.None? then cs + [Call(d.index, "", "", "")] else cs;
            var k := if slot.None? then |cs| else slot.value;
            var c := entered[k];
            FeedOne(cs, d) == entered[k := Call(c.index, Or(d.id, c.id), Or(d.name, c.name), c.arguments + d.arguments)]
            && c.arguments + "" == c.arguments
  {
    assert "" + d.arguments == d.arguments;
  }

  lemma SlotOfNew(cs: Calls, index: int)
    ensures Slot(cs + [Call(index, "", "", "")], index) == Some(|cs|)
  {
  }

  // What the fragments of one index amount to, whatever surrounds them.

  function ArgumentsOf(ds: seq<CallDelta>, index: int): string {
    if ds == [] then ""
    else ArgumentsOf(ds[..|ds| - 1], index) + if ds[|ds| - 1].index == index then ds[|ds| - 1].arguments else ""
  }

  function IdOf(ds: seq<CallDelta>, index: int): string {
    if ds == [] then ""
    else if ds[|ds| - 1].index == index && ds[|ds| - 1].id != "" then ds[|ds| - 1].id
    else IdOf(ds[..|ds| - 1], index)
  }

  function NameOf(ds: seq<CallDelta>, index: int): string {
    if ds == [] then ""
    else if ds[|ds| - 1].index == index && ds[|ds| - 1].name != "" then ds[|ds| - 1].name
    else NameOf(ds[..|ds| - 1], index)
  }

  /** The distinct indices in the order they first appear. */
  function FirstSeen(ds: seq<CallDelta>): seq<int> {
    if ds == [] then []
    else
      var seen, i := FirstSeen(ds[..|ds| - 1]), ds[|ds| - 1].index;
      if i in seen then seen else seen + [i]
  }

  function Assembled(ds: seq<CallDelta>, index: int): Call {
    Call(index, IdOf(ds, index), NameOf(ds, index), ArgumentsOf(ds, index))
  }

  /** From empty, the calls are per index, in first-seen order, all argument fragments concatenated and
      the last non-empty id and name. */
  lemma {:induction false} AccumulatorIsExact(ds: seq<CallDelta>)
    ensures |Feed([], ds)| == |FirstSeen(ds)|
    ensures forall k :: 0 <= k < |FirstSeen(ds)| ==> Feed([], ds)[k] == Assembled(ds, FirstSeen(ds)[k])
    decreases |ds|
  {
    if ds != [] {
      var init, d := ds[..|ds| - 1], ds[|ds| - 1];
      AccumulatorIsExact(init);
      FirstSeenIs(init);
      FeedOneExact(Feed([], init), ds);
    }
  }

  lemma FeedOneExact(cs: Calls, ds: seq<CallDelta>)
    requires ds != []
    requires var seen := FirstSeen(ds[..|ds| - 1]);
             && |cs| == |seen|
             && (forall k :: 0 <= k < |seen| ==> cs[k] == Assembled(ds[..|ds| - 1], seen[k]))
             && (forall j, k :: 0 <= j < k < |seen| ==> seen[j] != seen[k])
             && forall i :: i !in seen ==> Assembled(ds[..|ds| - 1], i) == Call(i, "", "", "")
    ensures var new_ := FeedOne(cs, ds[|ds| - 1]);
            && |new_| == |FirstSeen(ds)|
            && forall k :: 0 <= k < |new_| ==> new_[k] == Assembled(ds, FirstSeen(ds)[k])
  {
    var init, d := ds[..|ds| - 1], ds[|ds| - 1];
    var seen, slot := FirstSeen(init), Slot(cs, d.index);
    assert forall k :: 0 <= k < |seen| ==> cs[k].index == seen[k];
    assert slot.Some? <==> d.index in seen;
    if slot.Some? { assert cs[slot.value].index == seen[slot.value]; }
    AssembledStep(ds, d.index);
    FeedOneAppends(cs, d);
    forall k | 0 <= k < |FirstSeen(ds)| ensures FeedOne(cs, d)[k] == Assembled(ds, FirstSeen(ds)[k]) {
      AssembledStep(ds, FirstSeen(ds)[k]);
    }
  }

  /** First-seen indices are distinct, and an index outside them has no fragments. */
  lemma {:induction false} FirstSeenIs(ds: seq<CallDelta>)
    ensures forall j, k :: 0 <= j < k < |FirstSeen(ds)| ==> FirstSeen(ds)[j] != FirstSeen(ds)[k]
    ensures forall i :: i in FirstSeen(ds) <==> exists n :: 0 <= n < |ds| && ds[n].index == i
    ensures forall i :: i !in FirstSeen(ds) ==> Assembled(ds, i) == Call(i, "", "", "")
    decreases |ds|
  {
    if ds != [] {
      var init, d := ds[..|ds| - 1], ds[|ds| - 1];
      FirstSeenIs(init);
      forall i | i !in FirstSeen(ds) ensures Assembled(ds, i) == Call(i, "", "", "") {
        assert Assembled(init, i) == Call(i, "", "", "");
      }
      forall i ensures i in FirstSeen(ds) <==> exists n :: 0 <= n < |ds| && ds[n].index == i {
        if i == d.index { assert ds[|ds| - 1].index == i; }
        if n :| 0 <= n < |init| && init[n].index == i { assert ds[n].index == i; }
        if n :| 0 <= n < |ds| && ds[n].index == i { if n < |init| { assert init[n].index == i; } }
      }
    }
  }

  lemma AssembledStep(ds: seq<CallDelta>, index: int)
    requires ds != []
    ensures var c, d := Assembled(ds[..|ds| - 1], index), ds[|ds| - 1];
            Assembled(ds, index) == if d.index != index then c
                                    else Call(index, Or(d.id, c.id), Or(d.name, c.name), c.arguments + d.arguments)
  {
    assert ArgumentsOf(ds[..|ds| - 1], index) + "" == ArgumentsOf(ds[..|ds| - 1], index);
  }

  // ---- The reading loop ----

  /** A decoded data line: one choice's finish reason ("" if absent), tool-call deltas and content. */
  datatype Chunk = NoChoices | Choice(finish: string, toolCalls: seq<CallDelta>, content: Option<string>)

  /** What one iteration of the tool loop carries: finish reason ("" while unset), calls, the assistant
      content and the content deltas sent on to the client. */
  datatype Reading = Reading(finish: string, calls: Calls, content: string, sent: seq<string>)

  predicate IsSpace(c: char) {
    c in "\t\n\U{000B}\U{000C}\r\U{001C}\U{001D}\U{001E}\U{001F} \U{0085}\U{00A0}\U{1680}"
    || c in "\U{2028}\U{2029}\U{202F}\U{205F}\U{3000}"
    || '\U{2000}' <= c <= '\U{200A}'
  }

  function Strip(s: string): string
    decreases |s|
  {
    if s == [] then s
    else if IsSpace(s[0]) then Strip(s[1..])
    else if IsSpace(s[|s| - 1]) then Strip(s[..|s| - 1])
    else s
  }

  /** What is left between i and j is the text without the space at both ends. */
  ghost predicate Trims(s: string, i: nat, j: nat) {
    && i <= j <= |s| && Strip(s) == s[i..j]
    && (forall k :: 0 <= k < i || j <= k < |s| ==> IsSpace(s[k]))
    && (i < j ==> !IsSpace(s[i]) && !IsSpace(s[j - 1]))
  }

  lemma TrimsFront(s: string, i: nat, j: nat)
    requires s != [] && IsSpace(s[0]) && Trims(s[1..], i, j)
    ensures Trims(s, i + 1, j + 1)
  {
    assert Strip(s) == Strip(s[1..]) == s[i + 1..j + 1];
    forall k | 0 < k < i + 1 || j + 1 <= k < |s| ensures IsSpace(s[k]) { assert s[k] == s[1..][k - 1]; }
  }

  lemma TrimsBack(s: string, i: nat, j: nat)
    requires s != [] && !IsSpace(s[0]) && IsSpace(s[|s| - 1]) && Trims(s[..|s| - 1], i, j)
    ensures Trims(s, i, j)
  {
    var init := s[..|s| - 1];
    assert Strip(s) == Strip(init) == s[i..j];
    forall k | 0 <= k < i || j <= k < |s| - 1 ensures IsSpace(s[k]) { assert s[k] == init[k]; }
  }

  lemma TrimsNone(s: string)
    requires s == [] || (!IsSpace(s[0]) && !IsSpace(s[|s| - 1]))
    ensures Trims(s, 0, |s|)
  {
    assert Strip(s) == s == s[0..|s|];
  }

  /** Stripping takes off the space at both ends and nothing else. */
  lemma {:induction false} StripIs(s: string) returns (i: nat, j: nat)
    ensures Trims(s, i, j)
    decreases |s|
  {
    if s == [] || (!IsSpace(s[0]) && !IsSpace(s[|s| - 1])) {
      i, j := 0, |s|;
      TrimsNone(s);
    } else if IsSpace(s[0]) {
      i, j := StripIs(s[1..]);
      TrimsFront(s, i, j);
      i, j := i + 1, j + 1;
    } else {
      i, j := StripIs(s[..|s| - 1]);
      TrimsBack(s, i, j);
    }
  }

  function OnLine(decode: string -> Option<Chunk>, r: Reading, line: string): Reading {
    if !("data: " <= line) then r
    else
      var data := Strip(line[6..]);
      if data == "[DONE]" then r.(finish := if r.finish != "" then r.finish else "stop")
      else
        match decode(data)
        case None => r
        case Some(NoChoices) => r
        case Some(Choice(finish, toolCalls, content)) =>
          Reading(if finish != "" then finish else r.finish,
                  Feed(r.calls, toolCalls),
                  if content.Some? then r.content + content.value else r.content,
                  if content.Some? then r.sent + [content.value] else r.sent)
  }

  function OnLines(decode: string -> Option<Chunk>, r: Reading, lines: seq<string>): Reading {
    if lines == [] then r else OnLine(decode, OnLines(decode, r, lines[..|lines| - 1]), lines[|lines| - 1])
  }

  function OnEvents(decode: string -> Option<Chunk>, r: Reading, events: seq<string>): Reading {
    if events == [] then r
    else OnLines(decode, OnEvents(decode, r, events[..|events| - 1]), Split(events[|events| - 1], '\n'))
  }

  lemma {:induction false} OnEventsConcat(decode: string -> Option<Chunk>, r: Reading, a: seq<string>, b: seq<string>)
    ensures OnEvents(decode, r, a + b) == OnEvents(decode, OnEvents(decode, r, a), b)
    decreases |b|
  {
    if b == [] {
      assert a + b == a;
    } else {
      assert (a + b)[..|a + b| - 1] == a + b[..|b| - 1];
      OnEventsConcat(decode, r, a, b[..|b| - 1]);
    }
  }

  function Concat(chunks: seq<string>): string {
    if chunks == [] then "" else Concat(chunks[..|chunks| - 1]) + chunks[|chunks| - 1]
  }

  const START := Reading("", [], "", [])

  method ReadEvent(decode: string -> Option<Chunk>, before: Reading, event: string) returns (r: Reading)
    ensures r == OnEvents(decode, before, [event])
  {
    r := before;
    var lines := Split(event, '\n');
    for k := 0 to |lines|
      invariant r == OnLines(decode, before, lines[..k])
    {
      assert lines[..k + 1][..k] == lines[..k];
      r := OnLine(decode, r, lines[k]);
    }
    assert lines[..|lines|] == lines;
    assert [event][..0] == [];
  }

  lemma OneMoreEvent(held: string, taken: seq<string>, buf: string, cut: nat)
    requires FirstBreak(buf) == Some(cut)
    requires Events(held) == taken + Events(buf) && Remainder(held) == Remainder(buf)
    ensures Events(held) == taken + [buf[..cut]] + Events(buf[cut + 2..])
    ensures Remainder(held) == Remainder(buf[cut + 2..])
  {
    assert taken + ([buf[..cut]] + Events(buf[cut + 2..])) == taken + [buf[..cut]] + Events(buf[cut + 2..]);
  }

  /** The buffer loop: take complete events off the front until none is left. */
  method Drain(decode: string -> Option<Chunk>, before: Reading, held: string) returns (r: Reading, buf: string)
    ensures r == OnEvents(decode, before, Events(held)) && buf == Remainder(held)
  {
    r, buf := before, held;
    ghost var taken: seq<string> := [];
    var cut := FirstBreak(buf);
    while cut.Some?
      invariant cut == FirstBreak(buf)
      invariant Events(held) == taken + Events(buf) && Remainder(held) == Remainder(buf)
      invariant r == OnEvents(decode, before, taken)
      decreases |buf|
    {
      var event := buf[..cut.value];
      OneMoreEvent(held, taken, buf, cut.value);
      r := ReadEvent(decode, r, event);
      OnEventsConcat(decode, before, taken, [event]);
      taken := taken + [event];
      buf := buf[cut.value + 2..];
      cut := FirstBreak(buf);
    }
    assert taken + [] == taken;
  }

  /** Reading a response that the network cut into `chunks`: the outcome is that of splitting the whole
      text once, so any two ways of cutting one text are read alike. */
  method ReadStream(decode: string -> Option<Chunk>, chunks: seq<string>) returns (r: Reading, buf: string)
    ensures r == OnEvents(decode, START, Events(Concat(chunks)))
    ensures buf == Remainder(Concat(chunks))
  {
    r, buf := START, "";
    for i := 0 to |chunks|
      invariant r == OnEvents(decode, START, Events(Concat(chunks[..i])))
      invariant buf == Remainder(Concat(chunks[..i]))
    {
      ghost var text := Concat(chunks[..i]);
      SplitResumes(text, chunks[i]);
      OnEventsConcat(decode, START, Events(text), Events(buf + chunks[i]));
      assert chunks[..i + 1][..i] == chunks[..i];
      r, buf := Drain(decode, r, buf + chunks[i]);
    }
    assert chunks[..|chunks|] == chunks;
  }

  // ---- What a whole response amounts to ----

  /** The choice a line carries, if it is a data line that decodes to one. */
  function ChoiceOn(decode: string -> Option<Chunk>, line: string): Option<Chunk> {
    if !("data: " <= line) || Strip(line[6..]) == "[DONE]" then None
    else
      var chunk := decode(Strip(line[6..]));
      if chunk.Some? && chunk.value.Choice? then chunk else None
  }

  /** Every line of every event, in order. */
  function AllLines(events: seq<string>): seq<string> {
    if events == [] then [] else AllLines(events[..|events| - 1]) + Split(events[|events| - 1], '\n')
  }

  function AllDeltas(decode: string -> Option<Chunk>, lines: seq<string>): seq<CallDelta> {
    if lines == [] then []
    else
      var c := ChoiceOn(decode, lines[|lines| - 1]);
      AllDeltas(decode, lines[..|lines| - 1]) + if c.Some? then c.value.toolCalls else []
  }

  function AllContent(decode: string -> Option<Chunk>, lines: seq<string>): seq<string> {
    if lines == [] then []
    else
      var c := ChoiceOn(decode, lines[|lines| - 1]);
      AllContent(decode, lines[..|lines| - 1])
      + if c.Some? && c.value.content.Some? then [c.value.content.value] else []
  }

  /** The data of a line that announces the end of the stream. */
  predicate IsDone(line: string) { "data: " <= line && Strip(line[6..]) == "[DONE]" }

  predicate AnyDone(lines: seq<string>) { exists line :: line in lines && IsDone(line) }

  function AllFinishes(decode: string -> Option<Chunk>, lines: seq<string>): seq<string> {
    if lines == [] then []
    else
      var c := ChoiceOn(decode, lines[|lines| - 1]);
      AllFinishes(decode, lines[..|lines| - 1])
      + if c.Some? && c.value.finish != "" then [c.value.finish] else []
  }

  /** The last reason any choice gave; without one, "stop" if the stream announced its end, else none. */
  function FinishOf(finishes: seq<string>, done: bool): string {
    if finishes != [] then finishes[|finishes| - 1] else if done then "stop" else ""
  }

  lemma {:induction false} OnLinesConcat(decode: string -> Option<Chunk>, r: Reading, a: seq<string>, b: seq<string>)
    ensures OnLines(decode, r, a + b) == OnLines(decode, OnLines(decode, r, a), b)
    decreases |b|
  {
    if b == [] {
      assert a + b == a;
    } else {
      assert (a + b)[..|a + b| - 1] == a + b[..|b| - 1];
      OnLinesConcat(decode, r, a, b[..|b| - 1]);
    }
  }

  lemma {:induction false} EventsAreLines(decode: string -> Option<Chunk>, r: Reading, events: seq<string>)
    ensures OnEvents(decode, r, events) == OnLines(decode, r, AllLines(events))
    decreases |events|
  {
    if events != [] {
      var before := events[..|events| - 1];
      EventsAreLines(decode, r, before);
      OnLinesConcat(decode, r, AllLines(before), Split(events[|events| - 1], '\n'));
    }
  }

  lemma LineAmountsTo(decode: string -> Option<Chunk>, r: Reading, line: string)
    ensures var c, t := ChoiceOn(decode, line), OnLine(decode, r, line);
            && t.calls == (if c.Some? then Feed(r.calls, c.value.toolCalls) else r.calls)
            && t.sent == r.sent + (if c.Some? && c.value.content.Some? then [c.value.content.value] else [])
            && t.content == r.content + (if c.Some? && c.value.content.Some? then c.value.content.value else "")
  {
    assert r.sent + [] == r.sent && r.content + "" == r.content;
  }

  lemma {:induction false} CallsAmountTo(decode: string -> Option<Chunk>, lines: seq<string>)
    ensures OnLines(decode, START, lines).calls == Feed([], AllDeltas(decode, lines))
    decreases |lines|
  {
    if lines != [] {
      var before, last := lines[..|lines| - 1], lines[|lines| - 1];
      CallsAmountTo(decode, before);
      LineAmountsTo(decode, OnLines(decode, START, before), last);
      var c := ChoiceOn(decode, last);
      FeedConcat([], AllDeltas(decode, before), if c.Some? then c.value.toolCalls else []);
    }
  }

  lemma {:induction false} ContentAmountsTo(decode: string -> Option<Chunk>, lines: seq<string>)
    ensures var r := OnLines(decode, START, lines);
            r.sent == AllContent(decode, lines) && r.content == Concat(AllContent(decode, lines))
    decreases |lines|
  {
    if lines != [] {
      var before, last := lines[..|lines| - 1], lines[|lines| - 1];
      ContentAmountsTo(decode, before);
      LineAmountsTo(decode, OnLines(decode, START, before), last);
      var sent, c := AllContent(decode, before), ChoiceOn(decode, last);
      if c.Some? && c.value.content.Some? {
        var grown := sent + [c.value.content.value];
        assert grown[..|grown| - 1] == sent;
      } else {
        assert sent + [] == sent && Concat(sent) + "" == Concat(sent);
      }
    }
  }

  lemma LineFinishes(decode: string -> Option<Chunk>, r: Reading, line: string)
    ensures var c := ChoiceOn(decode, line);
            OnLine(decode, r, line).finish
            == if c.Some? && c.value.finish != "" then c.value.finish
               else if IsDone(line) && r.finish == "" then "stop"
               else r.finish
  {
  }

  lemma {:induction false} FinishAmountsTo(decode: string -> Option<Chunk>, lines: seq<string>)
    ensures OnLines(decode, START, lines).finish
            == FinishOf(AllFinishes(decode, lines), AnyDone(lines))
    ensures "" !in AllFinishes(decode, lines)
    decreases |lines|
  {
    if lines != [] {
      var before, last := lines[..|lines| - 1], lines[|lines| - 1];
      FinishAmountsTo(decode, before);
      LineFinishes(decode, OnLines(decode, START, before), last);
      AnyDoneGrows(lines);
      FinishGrows(AllFinishes(decode, before), if ChoiceOn(decode, last).Some? then ChoiceOn(decode, last).value.finish
                                               else "");
    }
  }

  lemma AnyDoneGrows(lines: seq<string>)
    requires lines != []
    ensures AnyDone(lines) <==> AnyDone(lines[..|lines| - 1]) || IsDone(lines[|lines| - 1])
  {
    assert lines == lines[..|lines| - 1] + [lines[|lines| - 1]];
  }

  lemma FinishGrows(finishes: seq<string>, finish: string)
    requires "" !in finishes
    ensures finishes != [] ==> finishes[|finishes| - 1] != ""
    ensures finish != "" ==> "" !in finishes + [finish]
    ensures finishes + [] == finishes
  {
    if finishes != [] { assert finishes[|finishes| - 1] in finishes; }
  }

  /** From the network's pieces to the result: every tool call is the assembly of its own fragments over
      the whole text, the content kept is the content sent, complete and in order, and the finish reason is
      the last one given, or "stop" for a stream that gave none and announced its end. */
  lemma ResponseAmountsTo(decode: string -> Option<Chunk>, chunks: seq<string>)
    ensures var r := OnEvents(decode, START, Events(Concat(chunks)));
            var lines := AllLines(Events(Concat(chunks)));
            var deltas := AllDeltas(decode, lines);
            && |r.calls| == |FirstSeen(deltas)|
            && (forall k :: 0 <= k < |r.calls| ==> r.calls[k] == Assembled(deltas, FirstSeen(deltas)[k]))
            && r.sent == AllContent(decode, lines) && r.content == Concat(r.sent)
            && r.finish == FinishOf(AllFinishes(decode, lines), AnyDone(lines))
  {
    var events := Events(Concat(chunks));
    EventsAreLines(decode, START, events);
    CallsAmountTo(decode, AllLines(events));
    ContentAmountsTo(decode, AllLines(events));
    FinishAmountsTo(decode, AllLines(events));
    AccumulatorIsExact(AllDeltas(decode, AllLines(events)));
  }
}
