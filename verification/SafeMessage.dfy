/** The broker's message filter (_safe_message, scripts/files/escalation.py): a client resends a failed
    call whenever the error text contains one of a few digit runs or phrases, and a resent call is billed
    again, so no message may contain one. */
module SafeMessage {
  import opened Options

  // ---- Forbidden digit runs ----

  /** 408, 409, 429, 500, 502, 503, 504 or 524. */
  predicate IsRun(a: char, b: char, c: char) {
    || (a == '4' && b == '0' && c in "89")
    || (a == '4' && b == '2' && c == '9')
    || (a == '5' && b == '0' && c in "0234")
    || (a == '5' && b == '2' && c == '4')
  }

  /** Read as texts, the runs are these eight. */
  lemma RunsAreThese(a: char, b: char, c: char)
    ensures IsRun(a, b, c) <==> [a, b, c] in ["408", "409", "429", "500", "502", "503", "504", "524"]
  {
    assert forall s :: s == [a, b, c] ==> |s| == 3 && s[0] == a && s[1] == b && s[2] == c;
  }

  predicate RunAt(s: string, i: nat) {
    i + 2 < |s| && IsRun(s[i], s[i + 1], s[i + 2])
  }

  function FirstRun(s: string): (r: Option<nat>)
    ensures r.Some? ==> RunAt(s, r.value) && forall i: nat :: RunAt(s, i) ==> r.value <= i
    ensures r.None? ==> forall i: nat :: !RunAt(s, i)
  {
    if s == [] then None
    else if RunAt(s, 0) then Some(0)
    else
      var r := FirstRun(s[1..]);
      assert forall i: nat :: 0 < i && RunAt(s, i) ==> RunAt(s[1..], i - 1);
      if r.None? then None else Some(r.value + 1)
  }

  function Runs(s: string): nat {
    if s == [] then 0 else (if RunAt(s, 0) then 1 else 0) + Runs(s[1..])
  }

  /** One pass: an apostrophe after the first digit of every run, wherever runs overlap. */
  function GuardDigits(s: string): string {
    if s == [] then [] else [s[0]] + (if RunAt(s, 0) then "'" else "") + GuardDigits(s[1..])
  }

  function Guarded(s: string, m: nat): string
    requires m < |s|
  {
    s[..m + 1] + "'" + s[m + 1..]
  }

  /** Breaking the leftmost run removes exactly one run and leaves the one-pass result as it was. */
  lemma {:induction false} BreakOne(s: string, m: nat)
    requires RunAt(s, m) && forall i: nat :: RunAt(s, i) ==> m <= i
    ensures Runs(Guarded(s, m)) + 1 == Runs(s)
    ensures GuardDigits(Guarded(s, m)) == GuardDigits(s)
    decreases m
  {
    var t := Guarded(s, m);
    if m == 0 {
      var u := "'" + s[1..];
      assert t[1..] == u && u[1..] == s[1..];
      assert !RunAt(t, 0) && !RunAt(u, 0);
      assert "'" + "" + GuardDigits(s[1..]) == "'" + GuardDigits(s[1..]);
      assert GuardDigits(u) == "'" + GuardDigits(s[1..]);
      assert [s[0]] + "" + ("'" + GuardDigits(s[1..])) == [s[0]] + "'" + GuardDigits(s[1..]);
    } else {
      assert !RunAt(s, 0) && !RunAt(t, 0);
      assert forall i: nat :: RunAt(s[1..], i) ==> RunAt(s, i + 1);
      assert RunAt(s[1..], m - 1);
      BreakOne(s[1..], m - 1);
      assert t[1..] == Guarded(s[1..], m - 1);
    }
  }

  lemma {:induction false} NoRunsNothingToDo(s: string)
    requires forall i: nat :: !RunAt(s, i)
    ensures GuardDigits(s) == s
  {
    if s != [] {
      assert forall i: nat :: RunAt(s[1..], i) ==> RunAt(s, i + 1);
      NoRunsNothingToDo(s[1..]);
      assert !RunAt(s, 0);
    }
  }

  lemma {:induction false} GuardedHasNoRun(s: string)
    ensures forall i: nat :: !RunAt(GuardDigits(s), i)
    decreases Runs(s)
  {
    var m := FirstRun(s);
    if m.Some? {
      BreakOne(s, m.value);
      GuardedHasNoRun(Guarded(s, m.value));
    } else {
      NoRunsNothingToDo(s);
    }
  }

  /** Which characters of the guarded text were inserted. */
  function Inserted(s: string): seq<bool> {
    if s == [] then [] else [false] + (if RunAt(s, 0) then [true] else []) + Inserted(s[1..])
  }

  function Erase(s: string, marks: seq<bool>): string
    requires |s| == |marks|
  {
    if s == [] then [] else (if marks[0] then "" else [s[0]]) + Erase(s[1..], marks[1..])
  }

  lemma {:induction false} MarkedAreApostrophes(s: string)
    ensures |Inserted(s)| == |GuardDigits(s)|
    ensures forall i :: 0 <= i < |Inserted(s)| && Inserted(s)[i] ==> GuardDigits(s)[i] == '\''
  {
    if s != [] { MarkedAreApostrophes(s[1..]); }
  }

  lemma {:induction false} ErasedIsTheText(s: string)
    requires |Inserted(s)| == |GuardDigits(s)|
    ensures Erase(GuardDigits(s), Inserted(s)) == s
  {
    if s != [] {
      MarkedAreApostrophes(s[1..]);
      ErasedIsTheText(s[1..]);
      var g, marks := GuardDigits(s[1..]), Inserted(s[1..]);
      if RunAt(s, 0) {
        EraseFirst('\'', g, true, marks);
        EraseFirst(s[0], ['\''] + g, false, [true] + marks);
        assert GuardDigits(s) == [s[0]] + (['\''] + g) && Inserted(s) == [false] + ([true] + marks);
      } else {
        EraseFirst(s[0], g, false, marks);
        assert GuardDigits(s) == [s[0]] + g && Inserted(s) == [false] + marks;
      }
    }
  }

  lemma EraseFirst(c: char, g: string, mark: bool, marks: seq<bool>)
    requires |g| == |marks|
    ensures Erase([c] + g, [mark] + marks) == (if mark then "" else [c]) + Erase(g, marks)
  {
    assert ([c] + g)[1..] == g && ([mark] + marks)[1..] == marks;
  }

  /** Only apostrophes are inserted, and without them the text is unchanged. */
  lemma OnlyApostrophes(s: string)
    ensures |Inserted(s)| == |GuardDigits(s)|
    ensures Erase(GuardDigits(s), Inserted(s)) == s
    ensures forall i :: 0 <= i < |Inserted(s)| && Inserted(s)[i] ==> GuardDigits(s)[i] == '\''
  {
    MarkedAreApostrophes(s);
    ErasedIsTheText(s);
  }

  // ---- Forbidden phrases ----

  const PHRASES: seq<string> := ["rate limit", "service unavailable", "try again"]

  /** Case-insensitive matching of the letters the phrases use, as the regular-expression engine folds
      them: ASCII capitals, the dotted and dotless i, and the long s. */
  function Fold(c: char): char {
    if 'A' <= c <= 'Z' then c - 'A' + 'a'
    else if c == '\U{0130}' || c == '\U{0131}' then 'i'
    else if c == '\U{017F}' then 's'
    else c
  }

  predicate Starts(s: string, phrase: string)
    decreases |phrase|
  {
    phrase == [] || (s != [] && Fold(s[0]) == phrase[0] && Starts(s[1..], phrase[1..]))
  }

  function PhraseLength(s: string): (n: nat)
    ensures n > 0 <==> exists k :: 0 <= k < |PHRASES| && Starts(s, PHRASES[k])
    ensures n > 0 ==> n in {10, 19, 9} && n <= |s|
  {
    StartsLength(s, PHRASES[0]);
    StartsLength(s, PHRASES[1]);
    StartsLength(s, PHRASES[2]);
    assert |PHRASES[0]| == 10 && |PHRASES[1]| == 19 && |PHRASES[2]| == 9;
    if Starts(s, PHRASES[0]) then 10 else if Starts(s, PHRASES[1]) then 19 else if Starts(s, PHRASES[2]) then 9 else 0
  }

  lemma {:induction false} StartsLength(s: string, phrase: string)
    ensures Starts(s, phrase) ==> |phrase| <= |s|
    decreases |phrase|
  {
    if phrase != [] && s != [] { StartsLength(s[1..], phrase[1..]); }
  }

  /** Every phrase, leftmost first, becomes "[...]". */
  function DropPhrases(s: string): string
    decreases |s|
  {
    if s == [] then []
    else if PhraseLength(s) > 0 then "[...]" + DropPhrases(s[PhraseLength(s)..])
    else [s[0]] + DropPhrases(s[1..])
  }

  /** No phrase starts anywhere in s. */
  predicate NoPhrase(s: string) {
    s == [] || (PhraseLength(s) == 0 && NoPhrase(s[1..]))
  }

  predicate Plain(phrase: string) {
    forall i :: 0 <= i < |phrase| ==> phrase[i] !in "[.]'"
  }

  lemma PhrasesArePlain()
    ensures forall k :: 0 <= k < |PHRASES| ==> Plain(PHRASES[k]) && PHRASES[k] != []
  {
  }

  lemma {:induction false} DropAddsNoPhrase(s: string, phrase: string)
    requires Plain(phrase) && Starts(DropPhrases(s), phrase)
    ensures Starts(s, phrase)
    decreases |phrase|
  {
    if phrase != [] {
      assert phrase[0] !in "[.]'";
      var d := DropPhrases(s);
      assert PhraseLength(s) == 0;
      assert d[1..] == DropPhrases(s[1..]);
      DropAddsNoPhrase(s[1..], phrase[1..]);
    }
  }

  lemma NoneStarts(s: string)
    requires s != [] && s[0] in "[.]"
    ensures PhraseLength(s) == 0
  {
    PhrasesArePlain();
    forall k | 0 <= k < |PHRASES| ensures !Starts(s, PHRASES[k]) { assert PHRASES[k][0] !in "[.]'"; }
  }

  lemma {:induction false} DroppedHasNoPhrase(s: string)
    ensures NoPhrase(DropPhrases(s))
    decreases |s|
  {
    if s != [] {
      var d := DropPhrases(s);
      if PhraseLength(s) > 0 {
        var rest := DropPhrases(s[PhraseLength(s)..]);
        DroppedHasNoPhrase(s[PhraseLength(s)..]);
        BracketHasNoPhrase(rest);
      } else {
        DroppedHasNoPhrase(s[1..]);
        assert d[1..] == DropPhrases(s[1..]);
        PhrasesArePlain();
        forall k | 0 <= k < |PHRASES| ensures !Starts(d, PHRASES[k]) {
          if Starts(d, PHRASES[k]) { DropAddsNoPhrase(s, PHRASES[k]); }
        }
      }
    }
  }

  lemma InFront(c: char, s: string)
    requires c in "[.]" && NoPhrase(s)
    ensures NoPhrase([c] + s)
  {
    NoneStarts([c] + s);
    assert ([c] + s)[1..] == s;
  }

  lemma BracketHasNoPhrase(rest: string)
    requires NoPhrase(rest)
    ensures NoPhrase("[...]" + rest)
  {
    var s1 := [']'] + rest;
    var s2 := ['.'] + s1;
    var s3 := ['.'] + s2;
    var s4 := ['.'] + s3;
    InFront(']', rest);
    InFront('.', s1);
    InFront('.', s2);
    InFront('.', s3);
    InFront('[', s4);
    assert "[...]" + rest == ['['] + s4;
  }

  lemma {:induction false} NoPhraseNothingToDo(s: string)
    requires NoPhrase(s)
    ensures DropPhrases(s) == s
  {
    if s != [] { NoPhraseNothingToDo(s[1..]); }
  }

  lemma {:induction false} GuardAddsNoPhrase(s: string, phrase: string)
    requires Plain(phrase) && Starts(GuardDigits(s), phrase)
    ensures Starts(s, phrase)
    decreases |phrase|
  {
    if phrase != [] {
      var g := GuardDigits(s);
      var tail := phrase[1..];
      if RunAt(s, 0) {
        assert g[1..] == "'" + GuardDigits(s[1..]);
        assert |phrase| == 1;
      } else {
        assert g[1..] == GuardDigits(s[1..]);
        GuardAddsNoPhrase(s[1..], tail);
      }
    }
  }

  lemma {:induction false} GuardKeepsNoPhrase(s: string)
    requires NoPhrase(s)
    ensures NoPhrase(GuardDigits(s))
  {
    if s != [] {
      GuardKeepsNoPhrase(s[1..]);
      var g, rest := GuardDigits(s), GuardDigits(s[1..]);
      PhrasesArePlain();
      forall k | 0 <= k < |PHRASES| ensures !Starts(g, PHRASES[k]) {
        if Starts(g, PHRASES[k]) { GuardAddsNoPhrase(s, PHRASES[k]); }
      }
      if RunAt(s, 0) {
        var u := "'" + rest;
        assert g[1..] == u && u[1..] == rest;
        forall k | 0 <= k < |PHRASES| ensures !Starts(u, PHRASES[k]) { assert PHRASES[k][0] !in "[.]'"; }
      } else {
        assert g[1..] == rest;
      }
    }
  }

  // ---- The filter ----

  function Safe(text: string): string { GuardDigits(DropPhrases(text)) }

  /** The filter's output triggers no resend, differs from the phrase-free text only by apostrophes inside
      digit runs, and passing it through again changes nothing. */
  lemma SafeIsSafe(text: string)
    ensures NoPhrase(Safe(text)) && forall i: nat :: !RunAt(Safe(text), i)
    ensures |Inserted(DropPhrases(text))| == |Safe(text)|
    ensures Erase(Safe(text), Inserted(DropPhrases(text))) == DropPhrases(text)
    ensures Safe(Safe(text)) == Safe(text)
    ensures NoPhrase(text) && (forall i: nat :: !RunAt(text, i)) ==> Safe(text) == text
  {
    var d := DropPhrases(text);
    DroppedHasNoPhrase(text);
    GuardKeepsNoPhrase(d);
    GuardedHasNoRun(d);
    OnlyApostrophes(d);
    NoPhraseNothingToDo(Safe(text));
    NoRunsNothingToDo(Safe(text));
    if NoPhrase(text) { NoPhraseNothingToDo(text); }
    if forall i: nat :: !RunAt(d, i) { NoRunsNothingToDo(d); }
  }

  /** The repeated search-and-insert loop ends, and computes the one-pass filter. */
  method SafeMessage(message: string) returns (text: string)
    ensures text == Safe(message)
  {
    text := DropPhrases(message);
    var m := FirstRun(text);
    while m.Some?
      invariant m == FirstRun(text)
      invariant GuardDigits(text) == Safe(message)
      decreases Runs(text)
    {
      BreakOne(text, m.value);
      text := text[..m.value + 1] + "'" + text[m.value + 1..];
      m := FirstRun(text);
    }
    NoRunsNothingToDo(text);
  }
}
