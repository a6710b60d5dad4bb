/** The structural walk of credentials.py: which positions of a document must hold a reference and do not. */
module Credentials {
  import opened JsonValues
  import DiffMask
  import Pointers

  datatype Step = Key(name: string) | Index(i: nat)

  /** The two patterns, left open: what a reference is, and which names look like secrets. */
  datatype Patterns = Patterns(isReference: string -> bool, isCredentialKey: string -> bool)

  predicate IsReference(v: Json, p: Patterns) { v.Str? && p.isReference(v.s) }

  predicate IsCredentialLeaf(name: string, v: Json, inCredentials: bool, p: Patterns) {
    if inCredentials then DiffMask.Lower(name) != "username" && !IsReference(v, p)
    else p.isCredentialKey(name) && (v.Str? || v.Num? || v.Bool?) && !IsReference(v, p)
  }

  predicate Inside(name: string, inCredentials: bool) {
    inCredentials || DiffMask.Lower(name) == DiffMask.CREDENTIALS
  }

  function Shifted(step: Step, positions: set<seq<Step>>): set<seq<Step>> {
    set q | q in positions :: [step] + q
  }

  /** What the walk reports below a value. */
  function Reported(node: Json, inCredentials: bool, p: Patterns): set<seq<Step>>
    decreases node, 2
  {
    match node
    case Obj(m) => ReportedAmong(node, m.Keys, inCredentials, p)
    case Arr(items) => ReportedUpTo(node, |items|, inCredentials, p)
    case _ => {}
  }

  function ReportedAmong(node: Json, keys: set<string>, inCredentials: bool, p: Patterns): set<seq<Step>>
    requires node.Obj? && keys <= node.fields.Keys
    decreases node, 1
  {
    set k, q | k in keys && q in ReportedEntry(node, k, inCredentials, p) :: q
  }

  function ReportedUpTo(node: Json, n: nat, inCredentials: bool, p: Patterns): set<seq<Step>>
    requires node.Arr? && n <= |node.items|
    decreases node, 1
  {
    set i, q | 0 <= i < n && q in Shifted(Index(i), Reported(node.items[i], inCredentials, p)) :: q
  }

  function ReportedEntry(node: Json, k: string, inCredentials: bool, p: Patterns): set<seq<Step>>
    requires node.Obj? && k in node.fields
    decreases node, 0
  {
    var v := node.fields[k];
    if IsCredentialLeaf(k, v, inCredentials, p) then {[Key(k)]}
    else Shifted(Key(k), Reported(v, Inside(k, inCredentials), p))
  }

  /** The position is an entry of a mapping that must hold a reference and does not. */
  predicate Violates(node: Json, at: seq<Step>, inCredentials: bool, p: Patterns)
    decreases |at|
  {
    if at == [] then false
    else
      match at[0]
      case Key(k) =>
        node.Obj? && k in node.fields &&
        (if |at| == 1 then IsCredentialLeaf(k, node.fields[k], inCredentials, p)
         else Violates(node.fields[k], at[1..], Inside(k, inCredentials), p))
      case Index(i) => node.Arr? && i < |node.items| && Violates(node.items[i], at[1..], inCredentials, p)
  }

  /** The value a position's first step leads to, and whether that is inside credentials. */
  predicate Leads(node: Json, step: Step) {
    match step
    case Key(k) => node.Obj? && k in node.fields
    case Index(i) => node.Arr? && i < |node.items|
  }

  function Child(node: Json, step: Step): Json
    requires Leads(node, step)
  {
    match step
    case Key(k) => node.fields[k]
    case Index(i) => node.items[i]
  }

  function StillInside(step: Step, inCredentials: bool): bool {
    match step
    case Key(k) => Inside(k, inCredentials)
    case Index(_) => inCredentials
  }

  predicate StopsAt(node: Json, step: Step, inCredentials: bool, p: Patterns) {
    step.Key? && node.Obj? && step.name in node.fields
    && IsCredentialLeaf(step.name, node.fields[step.name], inCredentials, p)
  }

  /** Below an entry that does not violate, the violations are those of its value. */
  lemma ViolationsBelow(node: Json, at: seq<Step>, i: nat, inCredentials: bool, p: Patterns)
    requires 0 < i <= |at| && Leads(node, at[0]) && !StopsAt(node, at[0], inCredentials, p)
    ensures Violates(node, at[..i], inCredentials, p)
            <==> Violates(Child(node, at[0]), at[1..][..i - 1], StillInside(at[0], inCredentials), p)
  {
    assert at[..i][1..] == at[1..][..i - 1] && at[..i][0] == at[0];
  }

  lemma ShiftedHas(step: Step, positions: set<seq<Step>>, at: seq<Step>)
    ensures at in Shifted(step, positions) <==> at != [] && at[0] == step && at[1..] in positions
  {
    if at != [] { assert at == [at[0]] + at[1..]; }
    forall q ensures ([step] + q)[1..] == q { }
  }

  lemma ReportedBelow(node: Json, at: seq<Step>, inCredentials: bool, p: Patterns)
    ensures at in Reported(node, inCredentials, p) <==>
            at != [] && Leads(node, at[0])
            && (if StopsAt(node, at[0], inCredentials, p) then |at| == 1
                else at[1..] in Reported(Child(node, at[0]), StillInside(at[0], inCredentials), p))
  {
    assert |at| == 1 ==> at == [at[0]];
    match node {
      case Obj(m) =>
        forall k | k in m
          ensures at in ReportedEntry(node, k, inCredentials, p) <==>
                  at != [] && at[0] == Key(k)
                  && (if StopsAt(node, Key(k), inCredentials, p) then |at| == 1
                      else at[1..] in Reported(m[k], Inside(k, inCredentials), p))
        {
          ShiftedHas(Key(k), Reported(m[k], Inside(k, inCredentials), p), at);
        }
      case Arr(items) =>
        forall i | 0 <= i < |items| {
          ShiftedHas(Index(i), Reported(items[i], inCredentials, p), at);
        }
      case _ =>
    }
  }

  /** The outermost violation on the way to a position, if the position is one. */
  ghost predicate Outermost(node: Json, at: seq<Step>, inCredentials: bool, p: Patterns) {
    && Violates(node, at, inCredentials, p)
    && forall i :: 0 <= i < |at| ==> !Violates(node, at[..i], inCredentials, p)
  }

  /** The walk reports exactly the outermost violations: a container that is reported is not looked into. */
  lemma {:induction false} ReportsOutermostViolations(node: Json, at: seq<Step>, inCredentials: bool, p: Patterns)
    ensures at in Reported(node, inCredentials, p) <==> Outermost(node, at, inCredentials, p)
    decreases |at|
  {
    ReportedBelow(node, at, inCredentials, p);
    if at != [] && Leads(node, at[0]) {
      var rest := at[1..];
      assert at[..|at|] == at && rest[..|rest|] == rest;
      if StopsAt(node, at[0], inCredentials, p) {
        assert Violates(node, at[..1], inCredentials, p);
      } else {
        var (child, inside) := (Child(node, at[0]), StillInside(at[0], inCredentials));
        ReportsOutermostViolations(child, rest, inside, p);
        ViolationsBelow(node, at, |at|, inCredentials, p);
        forall i | 0 <= i < |rest|
          ensures Violates(child, rest[..i], inside, p) <==> Violates(node, at[..i + 1], inCredentials, p)
        {
          ViolationsBelow(node, at, i + 1, inCredentials, p);
        }
        assert at[..0] == [];
        forall i | 0 < i < |at|
          ensures Violates(node, at[..i], inCredentials, p) <==> Violates(child, rest[..i - 1], inside, p)
        {
          ViolationsBelow(node, at, i, inCredentials, p);
        }
      }
    }
  }

  ghost predicate Clean(doc: Json, p: Patterns) { forall at: seq<Step> :: !Violates(doc, at, false, p) }

  /** A document passes exactly when no entry anywhere violates: every entry inside credentials but the
      user name is a reference, and so is every scalar under a name that looks like a secret. */
  lemma CleanIffNothingViolates(doc: Json, p: Patterns)
    ensures Reported(doc, false, p) == {} <==> Clean(doc, p)
  {
    var reported := Reported(doc, false, p);
    if reported != {} {
      var at :| at in reported;
      ReportsOutermostViolations(doc, at, false, p);
      assert Violates(doc, at, false, p) && !Clean(doc, p);
    } else {
      forall at ensures !Violates(doc, at, false, p) {
        if Violates(doc, at, false, p) { ViolationIsReported(doc, at, p); }
      }
    }
  }

  lemma ViolationIsReported(doc: Json, at: seq<Step>, p: Patterns)
    requires Violates(doc, at, false, p)
    ensures Reported(doc, false, p) != {}
  {
    assert at[..|at|] == at;
    var first := OutermostExists(doc, at, |at|, false, p);
    ReportsOutermostViolations(doc, first, false, p);
  }

  lemma {:induction false} OutermostExists(doc: Json, at: seq<Step>, k: nat, inCredentials: bool, p: Patterns)
    returns (first: seq<Step>)
    requires k <= |at| && Violates(doc, at[..k], inCredentials, p)
    ensures Outermost(doc, first, inCredentials, p)
  {
    if i :| 0 <= i < k && Violates(doc, at[..i], inCredentials, p) {
      first := OutermostExists(doc, at, i, inCredentials, p);
    } else {
      first := at[..k];
      forall i | 0 <= i < k ensures first[..i] == at[..i] { }
    }
  }

  // ---- The pointers it reports them by ----

  function Decimal(n: nat): string {
    if n < 10 then ['0' + n as char] else Decimal(n / 10) + ['0' + (n % 10) as char]
  }

  lemma {:induction false} DecimalTells(a: nat, b: nat)
    requires Decimal(a) == Decimal(b)
    ensures a == b
  {
    var (s, t) := (Decimal(a), Decimal(b));
    assert s[|s| - 1] == t[|t| - 1];
    if a >= 10 && b >= 10 {
      assert s[..|s| - 1] == Decimal(a / 10) && t[..|t| - 1] == Decimal(b / 10);
      DecimalTells(a / 10, b / 10);
    }
  }

  lemma {:induction false} DecimalIsDigits(n: nat)
    ensures Decimal(n) != "" && forall c :: c in Decimal(n) ==> '0' <= c <= '9'
  {
    if n >= 10 { DecimalIsDigits(n / 10); }
  }

  function TextOfStep(step: Step): string {
    match step
    case Key(k) => k
    case Index(i) => Decimal(i)
  }

  function Texts(at: seq<Step>): Pointers.Position {
    seq(|at|, i requires 0 <= i < |at| => TextOfStep(at[i]))
  }

  predicate Reaches(node: Json, at: seq<Step>)
    decreases |at|
  {
    at != [] ==> Leads(node, at[0]) && Reaches(Child(node, at[0]), at[1..])
  }

  lemma {:induction false} ViolationsAreReached(node: Json, at: seq<Step>, inCredentials: bool, p: Patterns)
    requires Violates(node, at, inCredentials, p)
    ensures Reaches(node, at)
    decreases |at|
  {
    if |at| > 1 { ViolationsAreReached(Child(node, at[0]), at[1..], StillInside(at[0], inCredentials), p); }
  }

  function ValueAt(node: Json, at: seq<Step>): Json
    requires Reaches(node, at)
    decreases |at|
  {
    if at == [] then node else ValueAt(Child(node, at[0]), at[1..])
  }

  /** Some name on the way is that of a credentials block. */
  predicate UnderCredentials(at: seq<Step>) {
    exists i :: 0 <= i < |at| && at[i].Key? && DiffMask.Lower(at[i].name) == "credentials"
  }

  /** An entry that is no reference although it should be one: under credentials every entry but the user
      name, elsewhere a scalar under a name that looks like a secret. */
  predicate LacksReference(name: string, v: Json, under: bool, p: Patterns) {
    && !(v.Str? && p.isReference(v.s))
    && (if under then DiffMask.Lower(name) != "username"
        else p.isCredentialKey(name) && !v.Null? && !v.Arr? && !v.Obj?)
  }

  /** A position violates exactly when it is such an entry, by its own name and the names above it. */
  lemma ViolatesIff(doc: Json, at: seq<Step>, p: Patterns)
    ensures Violates(doc, at, false, p) <==>
              at != [] && Reaches(doc, at)
              && var last := |at| - 1;
                 at[last].Key? && LacksReference(at[last].name, ValueAt(doc, at), UnderCredentials(at[..last]), p)
  {
    ViolatesBelowIff(doc, at, false, p);
  }

  lemma {:induction false} ViolatesBelowIff(node: Json, at: seq<Step>, inCredentials: bool, p: Patterns)
    ensures Violates(node, at, inCredentials, p) <==>
              at != [] && Reaches(node, at)
              && var last := |at| - 1;
                 at[last].Key?
                 && LacksReference(at[last].name, ValueAt(node, at), inCredentials || UnderCredentials(at[..last]), p)
    decreases |at|
  {
    if |at| == 1 {
      OneStepViolates(node, at[0], inCredentials, p);
      assert at == [at[0]] && at[..0] == [];
    } else if at != [] && Leads(node, at[0]) {
      var rest := at[1..];
      ViolatesBelowIff(Child(node, at[0]), rest, StillInside(at[0], inCredentials), p);
      UnderCons(at[0], rest[..|rest| - 1]);
      assert at[..|at| - 1] == [at[0]] + rest[..|rest| - 1] && rest[|rest| - 1] == at[|at| - 1];
    }
  }

  lemma OneStepViolates(node: Json, step: Step, inCredentials: bool, p: Patterns)
    ensures Violates(node, [step], inCredentials, p) <==>
              Reaches(node, [step]) && step.Key?
              && LacksReference(step.name, ValueAt(node, [step]), inCredentials, p)
  {
    assert [step][1..] == [];
  }

  lemma UnderCons(step: Step, rest: seq<Step>)
    ensures UnderCredentials([step] + rest) <==>
              (step.Key? && DiffMask.Lower(step.name) == "credentials") || UnderCredentials(rest)
  {
    var all := [step] + rest;
    if i :| 0 <= i < |rest| && rest[i].Key? && DiffMask.Lower(rest[i].name) == "credentials" {
      assert all[i + 1] == rest[i];
    }
    if i :| 0 <= i < |all| && all[i].Key? && DiffMask.Lower(all[i].name) == "credentials" {
      if i > 0 { assert rest[i - 1] == all[i]; } else { assert all[0] == step; }
    }
    assert all[0] == step;
  }

  /** Within one document, positions that differ have pointers that differ. */
  lemma {:induction false} PointersTellPositions(node: Json, a: seq<Step>, b: seq<Step>)
    requires Reaches(node, a) && Reaches(node, b) && Pointers.Pointer(Texts(a)) == Pointers.Pointer(Texts(b))
    ensures a == b
  {
    Pointers.PointerInjective(Texts(a), Texts(b));
    TextsTellPositions(node, a, b);
  }

  lemma {:induction false} TextsTellPositions(node: Json, a: seq<Step>, b: seq<Step>)
    requires Reaches(node, a) && Reaches(node, b) && Texts(a) == Texts(b)
    ensures a == b
    decreases |a|
  {
    assert |Texts(a)| == |a| && |Texts(b)| == |b|;
    if a != [] {
      assert Texts(a)[0] == TextOfStep(a[0]) && Texts(b)[0] == TextOfStep(b[0]);
      if a[0].Index? { DecimalTells(a[0].i, b[0].i); }
      assert Texts(a)[1..] == Texts(a[1..]) && Texts(b)[1..] == Texts(b[1..]);
      TextsTellPositions(Child(node, a[0]), a[1..], b[1..]);
      assert a == [a[0]] + a[1..] && b == [b[0]] + b[1..];
    }
  }

  // ---- The walk as it runs ----

  /** The pointers of positions below `at`. */
  ghost function PointersOf(at: seq<Step>, positions: set<seq<Step>>): set<string> {
    set q | q in positions :: Pointers.Pointer(Texts(at + q))
  }

  lemma PointerOfChild(at: seq<Step>, step: Step)
    ensures Pointers.Pointer(Texts(at + [step]))
            == Pointers.Pointer(Texts(at)) + "/" + Pointers.EscapeSegment(TextOfStep(step))
    ensures step.Index? ==> Pointers.EscapeSegment(TextOfStep(step)) == TextOfStep(step)
  {
    var t := Texts(at + [step]);
    assert t[..|t| - 1] == Texts(at) && t[|t| - 1] == TextOfStep(step);
    if step.Index? {
      DecimalIsDigits(step.i);
      Pointers.EscapeIsPerChar(TextOfStep(step));
      DigitsEscapeToThemselves(TextOfStep(step));
    }
  }

  lemma {:induction false} DigitsEscapeToThemselves(s: string)
    requires forall c :: c in s ==> '0' <= c <= '9'
    ensures Pointers.EscapedChars(s) == s
  {
    if s != [] {
      assert s[0] in s && forall c :: c in s[1..] ==> c in s;
      DigitsEscapeToThemselves(s[1..]);
    }
  }

  lemma PointersOfShifted(at: seq<Step>, step: Step, positions: set<seq<Step>>)
    ensures PointersOf(at, Shifted(step, positions)) == PointersOf(at + [step], positions)
  {
    forall q ensures at + ([step] + q) == at + [step] + q { }
    forall x | x in PointersOf(at + [step], positions) ensures x in PointersOf(at, Shifted(step, positions)) {
      var q :| q in positions && x == Pointers.Pointer(Texts(at + [step] + q));
      assert [step] + q in Shifted(step, positions);
    }
  }

  lemma PointersOfUnion(at: seq<Step>, a: set<seq<Step>>, b: set<seq<Step>>)
    ensures PointersOf(at, a + b) == PointersOf(at, a) + PointersOf(at, b)
  {
  }

  lemma OneMoreField(node: Json, keys: set<string>, k: string, inCredentials: bool, p: Patterns, at: seq<Step>)
    requires node.Obj? && keys <= node.fields.Keys && k in node.fields
    ensures PointersOf(at, ReportedAmong(node, keys + {k}, inCredentials, p))
            == PointersOf(at, ReportedAmong(node, keys, inCredentials, p))
               + PointersOf(at, ReportedEntry(node, k, inCredentials, p))
  {
    var (a, b) := (ReportedAmong(node, keys, inCredentials, p), ReportedEntry(node, k, inCredentials, p));
    assert ReportedAmong(node, keys + {k}, inCredentials, p) == a + b;
    PointersOfUnion(at, a, b);
  }

  lemma OneMoreItem(node: Json, n: nat, inCredentials: bool, p: Patterns, at: seq<Step>)
    requires node.Arr? && n < |node.items|
    ensures PointersOf(at, ReportedUpTo(node, n + 1, inCredentials, p))
            == PointersOf(at, ReportedUpTo(node, n, inCredentials, p))
               + PointersOf(at + [Index(n)], Reported(node.items[n], inCredentials, p))
  {
    var (a, below) := (ReportedUpTo(node, n, inCredentials, p), Reported(node.items[n], inCredentials, p));
    assert ReportedUpTo(node, n + 1, inCredentials, p) == a + Shifted(Index(n), below);
    PointersOfUnion(at, a, Shifted(Index(n), below));
    PointersOfShifted(at, Index(n), below);
  }

  lemma PointersOfEntry(node: Json, k: string, inCredentials: bool, p: Patterns, at: seq<Step>)
    requires node.Obj? && k in node.fields
    ensures PointersOf(at, ReportedEntry(node, k, inCredentials, p))
            == if IsCredentialLeaf(k, node.fields[k], inCredentials, p) then {Pointers.Pointer(Texts(at + [Key(k)]))}
               else PointersOf(at + [Key(k)], Reported(node.fields[k], Inside(k, inCredentials), p))
  {
    PointersOfShifted(at, Key(k), Reported(node.fields[k], Inside(k, inCredentials), p));
  }

  class Findings {
    var found: set<string>

    constructor ()
      ensures found == {}
    {
      found := {};
    }

    /** Adds the pointer of everything the walk reports below `node`, which stands at `pointer`. */
    method Walk(node: Json, pointer: string, inCredentials: bool, p: Patterns, ghost at: seq<Step>)
      requires pointer == Pointers.Pointer(Texts(at))
      modifies this
      ensures found == old(found) + PointersOf(at, Reported(node, inCredentials, p))
      decreases node, 1
    {
      match node {
        case Obj(_) => WalkEntries(node, pointer, inCredentials, p, at);
        case Arr(_) => WalkItems(node, pointer, inCredentials, p, at);
        case _ =>
      }
    }

    method WalkItems(node: Json, pointer: string, inCredentials: bool, p: Patterns, ghost at: seq<Step>)
      requires node.Arr? && pointer == Pointers.Pointer(Texts(at))
      modifies this
      ensures found == old(found) + PointersOf(at, Reported(node, inCredentials, p))
      decreases node, 0, 1
    {
      ghost var base := found;
      for i := 0 to |node.items|
        invariant found == base + PointersOf(at, ReportedUpTo(node, i, inCredentials, p))
      {
        ghost var before := PointersOf(at, ReportedUpTo(node, i, inCredentials, p));
        ghost var more := PointersOf(at + [Index(i)], Reported(node.items[i], inCredentials, p));
        WalkItem(node, i, pointer, inCredentials, p, at);
        assert found == base + (before + more);
        OneMoreItem(node, i, inCredentials, p, at);
      }
    }

    method WalkItem(node: Json, i: nat, pointer: string, inCredentials: bool, p: Patterns, ghost at: seq<Step>)
      requires node.Arr? && i < |node.items| && pointer == Pointers.Pointer(Texts(at))
      modifies this
      ensures found == old(found) + PointersOf(at + [Index(i)], Reported(node.items[i], inCredentials, p))
      decreases node, 0, 0
    {
      PointerOfChild(at, Index(i));
      Walk(node.items[i], pointer + "/" + Decimal(i), inCredentials, p, at + [Index(i)]);
    }

    method WalkEntry(node: Json, k: string, pointer: string, inCredentials: bool, p: Patterns, ghost at: seq<Step>)
      requires node.Obj? && k in node.fields && pointer == Pointers.Pointer(Texts(at))
      modifies this
      ensures found == old(found) + PointersOf(at, ReportedEntry(node, k, inCredentials, p))
      decreases node, 0, 0
    {
      var child := pointer + "/" + Pointers.EscapeSegment(k);
      PointerOfChild(at, Key(k));
      PointersOfEntry(node, k, inCredentials, p, at);
      if IsCredentialLeaf(k, node.fields[k], inCredentials, p) {
        found := found + {child};
      } else {
        Walk(node.fields[k], child, Inside(k, inCredentials), p, at + [Key(k)]);
      }
    }

    method WalkEntries(node: Json, pointer: string, inCredentials: bool, p: Patterns, ghost at: seq<Step>)
      requires node.Obj? && pointer == Pointers.Pointer(Texts(at))
      modifies this
      ensures found == old(found) + PointersOf(at, Reported(node, inCredentials, p))
      decreases node, 0, 1
    {
      var left := node.fields.Keys;
      ghost var seen: set<string> := {};
      while left != {}
        invariant left + seen == node.fields.Keys
        invariant found == old(found) + PointersOf(at, ReportedAmong(node, seen, inCredentials, p))
      {
        var k :| k in left;
        OneMoreField(node, seen, k, inCredentials, p, at);
        WalkEntry(node, k, pointer, inCredentials, p, at);
        left, seen := left - {k}, seen + {k};
      }
      assert seen == node.fields.Keys;
    }
  }

  lemma ReportedPointersDiffer(doc: Json, p: Patterns, a: seq<Step>, b: seq<Step>)
    requires a in Reported(doc, false, p) && b in Reported(doc, false, p)
    requires Pointers.Pointer(Texts([] + a)) == Pointers.Pointer(Texts([] + b))
    ensures a == b
  {
    ReportsOutermostViolations(doc, a, false, p);
    ReportsOutermostViolations(doc, b, false, p);
    ViolationsAreReached(doc, a, false, p);
    ViolationsAreReached(doc, b, false, p);
    assert [] + a == a && [] + b == b;
    PointersTellPositions(doc, a, b);
  }

  ghost predicate PointersDiffer(positions: set<seq<Step>>) {
    forall a, b :: a in positions && b in positions && a != b ==>
      Pointers.Pointer(Texts([] + a)) != Pointers.Pointer(Texts([] + b))
  }

  lemma {:induction false} DifferentPointersCount(positions: set<seq<Step>>)
    requires PointersDiffer(positions)
    ensures |PointersOf([], positions)| == |positions|
    decreases |positions|
  {
    if positions == {} {
      assert PointersOf([], positions) == {};
    } else {
      var a :| a in positions;
      var rest := positions - {a};
      DifferentPointersCount(rest);
      var own := Pointers.Pointer(Texts([] + a));
      assert own !in PointersOf([], rest);
      assert PointersOf([], positions) == PointersOf([], rest) + {own};
    }
  }

  /** No finding hides another: there are as many pointers as positions reported. */
  lemma EveryFindingCounts(doc: Json, p: Patterns)
    ensures |PointersOf([], Reported(doc, false, p))| == |Reported(doc, false, p)|
  {
    forall a, b | a in Reported(doc, false, p) && b in Reported(doc, false, p) && a != b
      ensures Pointers.Pointer(Texts([] + a)) != Pointers.Pointer(Texts([] + b))
    {
      if Pointers.Pointer(Texts([] + a)) == Pointers.Pointer(Texts([] + b)) { ReportedPointersDiffer(doc, p, a, b); }
    }
    DifferentPointersCount(Reported(doc, false, p));
  }

  /** The findings of a document, as a set; the code lists them in the order of their pointers. */
  method CredentialFindings(doc: Json, p: Patterns) returns (pointers: set<string>)
    ensures pointers == PointersOf([], Reported(doc, false, p))
    ensures |pointers| == |Reported(doc, false, p)| && (pointers == {} <==> Clean(doc, p))
  {
    var findings := new Findings();
    findings.Walk(doc, "", false, p, []);
    pointers := findings.found;
    CleanIffNothingViolates(doc, p);
    EveryFindingCounts(doc, p);
  }
}
