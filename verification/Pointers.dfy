/** JSON pointers: the escaping of vcfspec/credentials.py, the decoding and the subtree gating of
    vcfspec/api.py (sections 3 and 4 of RFC 6901). */
module Pointers {
  import opened Text

  type Position = seq<string>

  function EscapeSegment(segment: string): string {
    Replace(Replace(segment, "~", "~0"), "/", "~1")
  }

  function UnescapeSegment(segment: string): string {
    Replace(Replace(segment, "~1", "/"), "~0", "~")
  }

  /** The pointer of a position, one escaped segment at a time. */
  function Pointer(p: Position): string {
    if p == [] then "" else Pointer(p[..|p| - 1]) + "/" + EscapeSegment(p[|p| - 1])
  }

  function NonEmpty(parts: seq<string>): seq<string> {
    if parts == [] then []
    else (if parts[0] == "" then [] else [parts[0]]) + NonEmpty(parts[1..])
  }

  function UnescapeAll(parts: seq<string>): Position {
    if parts == [] then [] else [UnescapeSegment(parts[0])] + UnescapeAll(parts[1..])
  }

  function Segments(pointer: string): Position {
    UnescapeAll(NonEmpty(Split(pointer, '/')))
  }

  // ---- Escaping, one character at a time ----

  function EscapedChar(c: char): string {
    if c == '~' then "~0" else if c == '/' then "~1" else [c]
  }

  function EscapedChars(s: string): string {
    if s == [] then [] else EscapedChar(s[0]) + EscapedChars(s[1..])
  }

  lemma EscapeTilde(s: string)
    requires s != [] && s[0] == '~'
    ensures EscapeSegment(s) == "~0" + EscapeSegment(s[1..])
  {
    var t := Replace(s[1..], "~", "~0");
    assert s[..1] == "~";
    assert Replace(s, "~", "~0") == "~0" + t;
    assert ("~0" + t)[1..] == "0" + t && ("0" + t)[1..] == t;
    assert Replace("0" + t, "/", "~1") == "0" + Replace(t, "/", "~1");
  }

  lemma EscapeOther(s: string)
    requires s != [] && s[0] != '~'
    ensures EscapeSegment(s) == (if s[0] == '/' then "~1" else [s[0]]) + EscapeSegment(s[1..])
  {
    var t := Replace(s[1..], "~", "~0");
    assert s[..1] != "~";
    assert Replace(s, "~", "~0") == [s[0]] + t;
    assert ([s[0]] + t)[1..] == t && ([s[0]] + t)[..1] == [s[0]];
  }

  /** The tilde first, then the slash: together they escape each character by itself. */
  lemma {:induction false} EscapeIsPerChar(s: string)
    ensures EscapeSegment(s) == EscapedChars(s)
  {
    if s != [] {
      EscapeIsPerChar(s[1..]);
      if s[0] == '~' { EscapeTilde(s); } else { EscapeOther(s); }
    }
  }

  lemma UnescapeTilde(e: string)
    ensures UnescapeSegment("~0" + e) == "~" + UnescapeSegment(e)
  {
    var t := Replace(e, "~1", "/");
    var x := "~0" + e;
    assert x[..2] == "~0" && x[1..] == "0" + e;
    ReplaceSkip("0" + e, "~1", "/");
    assert Replace(x, "~1", "/") == "~" + ("0" + t);
    var y := "~0" + t;
    assert "~" + ("0" + t) == y && y[..2] == "~0" && y[2..] == t;
  }

  lemma UnescapeSlash(e: string)
    ensures UnescapeSegment("~1" + e) == "/" + UnescapeSegment(e)
  {
    var x := "~1" + e;
    assert x[..2] == "~1" && x[2..] == e;
    assert Replace(x, "~1", "/") == "/" + Replace(e, "~1", "/");
    ReplaceSkip("/" + Replace(e, "~1", "/"), "~0", "~");
  }

  lemma UnescapeOther(c: char, e: string)
    requires c != '~'
    ensures UnescapeSegment([c] + e) == [c] + UnescapeSegment(e)
  {
    ReplaceSkip([c] + e, "~1", "/");
    ReplaceSkip([c] + Replace(e, "~1", "/"), "~0", "~");
  }

  /** The slash first, then the tilde: a literal "~1" survives as "~01" and comes back. */
  lemma {:induction false} UnescapeEscape(s: string)
    ensures UnescapeSegment(EscapeSegment(s)) == s
  {
    EscapeIsPerChar(s);
    if s != [] {
      UnescapeEscape(s[1..]);
      EscapeIsPerChar(s[1..]);
      var e := EscapedChars(s[1..]);
      if s[0] == '~' { UnescapeTilde(e); } else if s[0] == '/' { UnescapeSlash(e); } else { UnescapeOther(s[0], e); }
      assert [s[0]] + s[1..] == s;
    }
  }

  lemma ReplaceSkip(s: string, what: string, with: string)
    requires s != [] && what != [] && s[0] != what[0]
    ensures Replace(s, what, with) == [s[0]] + Replace(s[1..], what, with)
  {
    if |s| < |what| {
      assert Replace(s[1..], what, with) == s[1..];
      assert s == [s[0]] + s[1..];
    } else {
      assert s[..|what|][0] == s[0];
    }
  }

  lemma {:induction false} EscapedShape(s: string)
    ensures '/' !in EscapedChars(s) && (EscapedChars(s) == "" <==> s == "")
  {
    if s != [] { EscapedShape(s[1..]); }
  }

  // ---- Pointers and positions ----

  function EscapeAll(p: Position): seq<string> {
    if p == [] then [] else EscapeAll(p[..|p| - 1]) + [EscapeSegment(p[|p| - 1])]
  }

  /** Splitting a pointer gives back an empty first part and then exactly the escaped segments. */
  lemma {:induction false} SplitPointer(p: Position)
    ensures Split(Pointer(p), '/') == [""] + EscapeAll(p)
    decreases |p|
  {
    if p != [] {
      var q, e := p[..|p| - 1], EscapeSegment(p[|p| - 1]);
      EscapeIsPerChar(p[|p| - 1]);
      EscapedShape(p[|p| - 1]);
      SplitPointer(q);
      SplitNone(e, '/');
      SplitJoin(Pointer(q), e, '/');
      assert "/" == ['/'];
      assert [""] + EscapeAll(q) + [e] == [""] + EscapeAll(p);
    }
  }

  lemma {:induction false} DecodeEscaped(p: Position)
    ensures UnescapeAll(NonEmpty(EscapeAll(p))) == NonEmpty(p)
    decreases |p|
  {
    if p != [] {
      var q, s := p[..|p| - 1], p[|p| - 1];
      DecodeEscaped(q);
      EscapeIsPerChar(s);
      EscapedShape(s);
      UnescapeEscape(s);
      NonEmptyConcat(EscapeAll(q), [EscapeSegment(s)]);
      NonEmptyConcat(q, [s]);
      assert q + [s] == p;
      UnescapeConcat(NonEmpty(EscapeAll(q)), NonEmpty([EscapeSegment(s)]));
    }
  }

  lemma {:induction false} NonEmptyConcat(a: seq<string>, b: seq<string>)
    ensures NonEmpty(a + b) == NonEmpty(a) + NonEmpty(b)
  {
    if a == [] {
      assert a + b == b;
    } else {
      NonEmptyConcat(a[1..], b);
      assert (a + b)[0] == a[0] && (a + b)[1..] == a[1..] + b;
      var head: seq<string> := if a[0] == "" then [] else [a[0]];
      assert head + (NonEmpty(a[1..]) + NonEmpty(b)) == head + NonEmpty(a[1..]) + NonEmpty(b);
    }
  }

  lemma {:induction false} UnescapeConcat(a: seq<string>, b: seq<string>)
    ensures UnescapeAll(a + b) == UnescapeAll(a) + UnescapeAll(b)
  {
    if a == [] {
      assert a + b == b;
    } else {
      UnescapeConcat(a[1..], b);
      assert (a + b)[1..] == a[1..] + b;
    }
  }

  lemma {:induction false} NonEmptyId(p: Position)
    ensures NonEmpty(p) == p <==> "" !in p
    ensures |NonEmpty(p)| <= |p|
  {
    if p != [] {
      NonEmptyId(p[1..]);
      if p[0] != "" {
        assert [p[0]] + p[1..] == p;
        assert NonEmpty(p)[1..] == NonEmpty(p[1..]);
      }
    }
  }

  /** Decoding a pointer gives back its position without the empty segments; so it gives back the
      position itself exactly when no segment is empty. */
  lemma SegmentsOfPointer(p: Position)
    ensures Segments(Pointer(p)) == NonEmpty(p)
    ensures Segments(Pointer(p)) == p <==> "" !in p
  {
    SplitPointer(p);
    var parts := [""] + EscapeAll(p);
    assert parts[0] == "" && parts[1..] == EscapeAll(p);
    assert NonEmpty(parts) == NonEmpty(EscapeAll(p));
    DecodeEscaped(p);
    NonEmptyId(p);
  }

  /** Distinct positions have distinct pointers, empty segments included. */
  lemma PointerInjective(p: Position, q: Position)
    requires Pointer(p) == Pointer(q)
    ensures p == q
  {
    SplitPointer(p);
    SplitPointer(q);
    assert ([""] + EscapeAll(p))[1..] == EscapeAll(p);
    assert ([""] + EscapeAll(q))[1..] == EscapeAll(q);
    EscapeAllInjective(p, q);
  }

  lemma {:induction false} EscapeAllInjective(p: Position, q: Position)
    requires EscapeAll(p) == EscapeAll(q)
    ensures p == q
    decreases |p|
  {
    if p == [] || q == [] {
      assert |EscapeAll(p)| == |EscapeAll(q)|;
    } else {
      assert EscapeAll(p)[..|EscapeAll(p)| - 1] == EscapeAll(p[..|p| - 1]);
      assert EscapeAll(q)[..|EscapeAll(q)| - 1] == EscapeAll(q[..|q| - 1]);
      EscapeAllInjective(p[..|p| - 1], q[..|q| - 1]);
      UnescapeEscape(p[|p| - 1]);
      UnescapeEscape(q[|q| - 1]);
      assert p == p[..|p| - 1] + [p[|p| - 1]] && q == q[..|q| - 1] + [q[|q| - 1]];
    }
  }

  // ---- Gating: findings below a failed subtree are dropped ----

  datatype Finding = Finding(code: string, path: string)

  const GATING_CODES: set<string> := {"VCF-INV-SCHEMA", "VCF-SCHEMA"}

  function SubtreeBlocked(findings: seq<Finding>): set<string> {
    set f | f in findings && f.code in GATING_CODES && f.path !in {"/", ""} :: f.path
  }

  predicate IsBlocked(pointer: string, blocked: set<string>) {
    exists entry :: entry in blocked && Segments(entry) != [] && Segments(entry) <= Segments(pointer)
  }

  function FilterBlocked(findings: seq<Finding>, blocked: set<string>): seq<Finding> {
    if findings == [] then []
    else (if blocked != {} && IsBlocked(findings[0].path, blocked) then [] else [findings[0]])
         + FilterBlocked(findings[1..], blocked)
  }

  /** Pointer gating is position gating, up to empty segments, which decoding drops: a finding is
      blocked exactly when a gating finding sits at or above it, and not at the root. */
  lemma BlockedIffBelow(schema: seq<Finding>, at: Position, below: seq<Position>)
    requires |below| == |schema|
    requires forall i :: 0 <= i < |schema| ==> schema[i].path == Pointer(below[i])
    ensures IsBlocked(Pointer(at), SubtreeBlocked(schema))
            <==> exists i :: 0 <= i < |schema| && schema[i].code in GATING_CODES
                             && NonEmpty(below[i]) != [] && NonEmpty(below[i]) <= NonEmpty(at)
  {
    SegmentsOfPointer(at);
    var blocked := SubtreeBlocked(schema);
    forall i | 0 <= i < |schema| ensures Segments(schema[i].path) == NonEmpty(below[i]) {
      SegmentsOfPointer(below[i]);
    }
    if IsBlocked(Pointer(at), blocked) {
      var entry :| entry in blocked && Segments(entry) != [] && Segments(entry) <= Segments(Pointer(at));
      GatingFinding(schema, entry);
    }
    if i :| 0 <= i < |schema| && schema[i].code in GATING_CODES
            && NonEmpty(below[i]) != [] && NonEmpty(below[i]) <= NonEmpty(at) {
      RootPointers(below[i]);
      assert schema[i].path in blocked;
    }
  }

  lemma GatingFinding(schema: seq<Finding>, entry: string)
    requires entry in SubtreeBlocked(schema)
    ensures exists i :: 0 <= i < |schema| && schema[i].code in GATING_CODES && schema[i].path == entry
  {
    var f :| f in schema && f.code in GATING_CODES && f.path == entry;
    var i :| 0 <= i < |schema| && schema[i] == f;
  }

  /** The rules' findings that remain are those with no gating finding at or above their position, as often
      as they were. */
  lemma FilterDropsOnlyBelow(findings: seq<Finding>, k: nat, at: Position, schema: seq<Finding>, below: seq<Position>)
    requires k < |findings| && findings[k].path == Pointer(at)
    requires |below| == |schema|
    requires forall i :: 0 <= i < |schema| ==> schema[i].path == Pointer(below[i])
    ensures var gated := exists i :: 0 <= i < |schema| && schema[i].code in GATING_CODES
                                     && NonEmpty(below[i]) != [] && NonEmpty(below[i]) <= NonEmpty(at);
            multiset(FilterBlocked(findings, SubtreeBlocked(schema)))[findings[k]]
            == if gated then 0 else multiset(findings)[findings[k]]
  {
    BlockedIffBelow(schema, at, below);
    FilterCounts(findings, SubtreeBlocked(schema), findings[k]);
  }

  lemma {:induction false} FilterCounts(findings: seq<Finding>, blocked: set<string>, f: Finding)
    ensures multiset(FilterBlocked(findings, blocked))[f]
            == if IsBlocked(f.path, blocked) then 0 else multiset(findings)[f]
  {
    if findings != [] {
      var rest := findings[1..];
      FilterCounts(rest, blocked, f);
      assert findings == [findings[0]] + rest;
      CountFirst(findings[0], rest, f);
      CountFirst(findings[0], FilterBlocked(rest, blocked), f);
    }
  }

  lemma CountFirst(first: Finding, rest: seq<Finding>, f: Finding)
    ensures multiset([first] + rest)[f] == multiset(rest)[f] + if f == first then 1 else 0
  {
    assert multiset([first] + rest) == multiset{first} + multiset(rest);
  }

  /** What remains keeps its order. */
  lemma {:induction false} FilterKeepsOrder(a: seq<Finding>, b: seq<Finding>, blocked: set<string>)
    ensures FilterBlocked(a + b, blocked) == FilterBlocked(a, blocked) + FilterBlocked(b, blocked)
  {
    if a == [] {
      assert a + b == b;
    } else {
      assert (a + b)[0] == a[0] && (a + b)[1..] == a[1..] + b;
      FilterKeepsOrder(a[1..], b, blocked);
    }
  }

  lemma RootPointers(p: Position)
    requires NonEmpty(p) != []
    ensures Pointer(p) !in {"/", ""}
  {
    SegmentsOfPointer(p);
    assert Segments("") == [] by { SegmentsOfPointer([]); }
    assert Segments("/") == [] by {
      SegmentsOfPointer([""]);
      assert Pointer([""]) == "/" by { assert Pointer([""][..0]) == ""; assert EscapeSegment("") == ""; }
    }
  }

  /** A key that merely starts like a blocked one is untouched: the comparison is by segment. */
  lemma SiblingNotBlocked(p: Position, key: string, sibling: string, schema: Finding)
    requires "" !in p && key != "" && sibling != "" && key != sibling
    requires schema.path == Pointer(p + [key])
    ensures !IsBlocked(Pointer(p + [sibling]), SubtreeBlocked([schema]))
  {
    BlockedIffBelow([schema], p + [sibling], [p + [key]]);
    NonEmptyId(p + [key]);
    NonEmptyId(p + [sibling]);
    assert (p + [key])[|p|] == key && (p + [sibling])[|p|] == sibling;
  }
}
