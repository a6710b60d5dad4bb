/** The escalation ledger as a text file (Ledger.rows and Ledger.append, scripts/files/escalation.py):
    one JSON row per line, appended in place, where a crash may leave a torn last line. */
module LedgerText {
  import opened Options

  /** The JSON library, as far as the ledger depends on it: `dump` is None when it refuses the row (a NaN),
      `load` is None when a line is no JSON object, as a row cut short never is. */
  datatype Codec<!R(!new)> = Codec(dump: R -> Option<string>, load: string -> Option<R>) {
    ghost predicate RoundTrips()
    {
      && load("") == None
      && forall r: R :: dump(r).Some? ==>
           && load(dump(r).value) == Some(r) && '\n' !in dump(r).value && '\r' !in dump(r).value
           && forall k :: 0 <= k < |dump(r).value| ==> load(dump(r).value[..k]) == None
    }
  }

  // ---- Reading ----

  /** Where the first line ends, as (length of the line, length with its terminator): universal newlines,
      so "\n", "\r" and "\r\n" all terminate. */
  function LineEnd(s: string): (r: (nat, nat))
    ensures r.0 <= r.1 <= |s| && (s != "" ==> r.1 > 0)
  {
    if s == "" then (0, 0)
    else if s[0] == '\n' then (0, 1)
    else if s[0] == '\r' then (0, if |s| > 1 && s[1] == '\n' then 2 else 1)
    else var r := LineEnd(s[1..]); (r.0 + 1, r.1 + 1)
  }

  function Lines(s: string): seq<string>
    decreases |s|
  {
    if s == "" then [] else [s[..LineEnd(s).0]] + Lines(s[LineEnd(s).1..])
  }

  function Load<R(!new)>(codec: Codec<R>, lines: seq<string>): seq<R> {
    if lines == [] then []
    else
      var r := codec.load(lines[0]);
      (if r.Some? then [r.value] else []) + Load(codec, lines[1..])
  }

  /** The rows of a file: unreadable lines are skipped. */
  function Parse<R(!new)>(codec: Codec<R>, s: string): seq<R> {
    Load(codec, Lines(s))
  }

  // ---- Writing ----

  predicate Torn(s: string) { s != "" && s[|s| - 1] != '\n' }

  /** A torn last line is closed first, never glued to. */
  function Lead(s: string): string { if Torn(s) then "\n" else "" }

  /** What append writes, in one go. */
  function Addition(s: string, line: string): string { Lead(s) + line + "\n" }

  function Appended(s: string, line: string): string { s + Addition(s, line) }

  lemma {:induction false} LineEndConcat(s: string, t: string)
    requires s != "" && !Torn(s)
    ensures LineEnd(s + t) == LineEnd(s) && !Torn(s[LineEnd(s).1..])
    decreases |s|
  {
    if s[0] != '\n' && s[0] != '\r' {
      assert (s + t)[1..] == s[1..] + t;
      LineEndConcat(s[1..], t);
      assert s[LineEnd(s).1..] == s[1..][LineEnd(s[1..]).1..];
    }
  }

  lemma {:induction false} LinesConcat(s: string, t: string)
    requires !Torn(s)
    ensures Lines(s + t) == Lines(s) + Lines(t)
    decreases |s|
  {
    if s == "" {
      assert s + t == t;
    } else {
      LineEndConcat(s, t);
      var (a, b) := LineEnd(s);
      assert (s + t)[..a] == s[..a] && (s + t)[b..] == s[b..] + t;
      LinesConcat(s[b..], t);
      assert [s[..a]] + (Lines(s[b..]) + Lines(t)) == [s[..a]] + Lines(s[b..]) + Lines(t);
    }
  }

  lemma {:induction false} LineEndTorn(s: string)
    requires Torn(s)
    ensures var (a, b) := LineEnd(s);
            LineEnd(s + "\n") == (a, if b == |s| then b + 1 else b)
    decreases |s|
  {
    if s[0] != '\r' {
      assert (s + "\n")[1..] == s[1..] + "\n";
      if |s| > 1 { LineEndTorn(s[1..]); } else { assert s[1..] + "\n" == "\n"; }
    }
  }

  /** Closing a torn line changes no line. */
  lemma {:induction false} LinesTorn(s: string)
    requires Torn(s)
    ensures Lines(s + "\n") == Lines(s)
    decreases |s|
  {
    LineEndTorn(s);
    var (a, b) := LineEnd(s);
    assert (s + "\n")[..a] == s[..a];
    if b < |s| {
      assert (s + "\n")[b..] == s[b..] + "\n";
      LinesTorn(s[b..]);
    } else {
      assert (s + "\n")[b + 1..] == "" && s[b..] == "";
    }
  }

  lemma {:induction false} OneLine(line: string)
    requires '\n' !in line && '\r' !in line
    ensures LineEnd(line + "\n") == (|line|, |line| + 1)
    decreases |line|
  {
    if line != "" {
      assert (line + "\n")[1..] == line[1..] + "\n";
      OneLine(line[1..]);
    } else {
      assert line + "\n" == "\n";
    }
  }

  lemma {:induction false} LoadConcat<R(!new)>(codec: Codec<R>, a: seq<string>, b: seq<string>)
    ensures Load(codec, a + b) == Load(codec, a) + Load(codec, b)
  {
    if a == [] {
      assert a + b == b;
    } else {
      LoadConcat(codec, a[1..], b);
      assert (a + b)[0] == a[0] && (a + b)[1..] == a[1..] + b;
      var r := codec.load(a[0]);
      var first := if r.Some? then [r.value] else [];
      assert first + (Load(codec, a[1..]) + Load(codec, b)) == first + Load(codec, a[1..]) + Load(codec, b);
    }
  }

  /** Whatever the file held, torn line included, appending a row adds exactly that row. */
  lemma AppendAddsOneRow<R(!new)>(codec: Codec<R>, s: string, row: R)
    requires codec.RoundTrips() && codec.dump(row).Some?
    ensures Parse(codec, Appended(s, codec.dump(row).value)) == Parse(codec, s) + [row]
    ensures !Torn(Appended(s, codec.dump(row).value)) && |Appended(s, codec.dump(row).value)| > |s|
  {
    var line := codec.dump(row).value;
    var closed := s + Lead(s);
    assert Appended(s, line) == closed + (line + "\n");
    assert !Torn(closed);
    if Torn(s) { LinesTorn(s); } else { assert closed == s; }
    LinesConcat(closed, line + "\n");
    OneLine(line);
    assert (line + "\n")[..|line|] == line && (line + "\n")[|line| + 1..] == "";
    assert Lines(line + "\n") == [line];
    assert Lines(closed) == Lines(s);
    LoadConcat(codec, Lines(closed), [line]);
    assert [line][1..] == [];
    assert Load(codec, [line]) == [row];
  }

  /** A write that stops short of the whole row adds none, and disturbs none. */
  lemma TornAddsNothing<R(!new)>(codec: Codec<R>, s: string, row: R, k: nat)
    requires codec.RoundTrips() && codec.dump(row).Some? && k < |codec.dump(row).value|
    ensures Parse(codec, s + Lead(s) + codec.dump(row).value[..k]) == Parse(codec, s)
    ensures Torn(s) ==> Parse(codec, s + "\n") == Parse(codec, s)
  {
    var cut := codec.dump(row).value[..k];
    var closed := s + Lead(s);
    if Torn(s) { LinesTorn(s); } else { assert closed == s; }
    LinesConcat(closed, cut);
    if cut == "" {
      assert Lines(closed) + [] == Lines(closed);
    } else {
      WholeLine(cut);
      assert cut[..|cut|] == cut && cut[|cut|..] == "";
      assert Lines(cut) == [cut];
      LoadConcat(codec, Lines(closed), [cut]);
      assert [cut][1..] == [];
      assert Load(codec, Lines(closed)) + [] == Load(codec, Lines(closed));
    }
  }

  /** A row that got out without its newline is there. */
  lemma UnendedRowIsThere<R(!new)>(codec: Codec<R>, s: string, row: R)
    requires codec.RoundTrips() && codec.dump(row).Some?
    ensures Parse(codec, s + Lead(s) + codec.dump(row).value) == Parse(codec, s) + [row]
  {
    var line, closed := codec.dump(row).value, s + Lead(s);
    if Torn(s) { LinesTorn(s); } else { assert closed == s; }
    LinesConcat(closed, line);
    WholeLine(line);
    assert line != "";
    assert line[..|line|] == line && line[|line|..] == "";
    assert Lines(line) == [line];
    LoadConcat(codec, Lines(closed), [line]);
    assert [line][1..] == [];
  }

  /** A write that stopped after k characters has put the row into the file exactly when all of the row got
      out, with or without its newline; in no case does it disturb another. */
  lemma WriteAddsIffWhole<R(!new)>(codec: Codec<R>, s: string, row: R, k: nat)
    requires codec.RoundTrips() && codec.dump(row).Some? && k <= |Addition(s, codec.dump(row).value)|
    ensures Parse(codec, s + Addition(s, codec.dump(row).value)[..k])
            == Parse(codec, s) + if k >= |Lead(s)| + |codec.dump(row).value| then [row] else []
  {
    var line, lead := codec.dump(row).value, Lead(s);
    var all := Addition(s, line);
    if k < |lead| {
      assert s + all[..k] == s && Parse(codec, s) + [] == Parse(codec, s);
    } else if k < |lead| + |line| {
      assert s + all[..k] == s + lead + line[..k - |lead|];
      TornAddsNothing(codec, s, row, k - |lead|);
      assert Parse(codec, s) + [] == Parse(codec, s);
    } else if k == |lead| + |line| {
      assert s + all[..k] == s + lead + line;
      UnendedRowIsThere(codec, s, row);
    } else {
      assert all[..k] == all;
      AppendAddsOneRow(codec, s, row);
    }
  }

  lemma {:induction false} WholeLine(line: string)
    requires '\n' !in line && '\r' !in line
    ensures LineEnd(line) == (|line|, |line|)
    decreases |line|
  {
    if line != "" { WholeLine(line[1..]); }
  }
}
