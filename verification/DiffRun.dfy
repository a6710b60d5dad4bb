/** The diff of mcp_server.py as it runs: sharing one budget, and stopping as soon as the budget is spent. */
module DiffRun {
  import opened DiffEngine
  import opened JsonValues
  import opened Options

  // ---- Lists of changes, put together ----

  lemma {:induction false} TotalCostConcat(a: seq<Change>, b: seq<Change>)
    ensures TotalCost(a + b) == TotalCost(a) + TotalCost(b)
  {
    if b == [] {
      assert a + b == a;
    } else {
      assert (a + b)[..|a + b| - 1] == a + b[..|b| - 1];
      TotalCostConcat(a, b[..|b| - 1]);
    }
  }

  lemma BelowNothing(cs: seq<Change>)
    ensures Below([], cs) == cs
  {
    forall i | 0 <= i < |cs| ensures Below([], cs)[i] == cs[i] { assert [] + cs[i].path == cs[i].path; }
  }

  lemma BelowConcat(path: seq<string>, a: seq<Change>, b: seq<Change>)
    ensures Below(path, a + b) == Below(path, a) + Below(path, b)
  {
  }

  lemma BelowPrefixed(path: seq<string>, segment: string, cs: seq<Change>)
    ensures Below(path, Prefixed(segment, cs)) == Below(path + [segment], cs)
  {
    forall i | 0 <= i < |cs|
      ensures Below(path, Prefixed(segment, cs))[i] == Below(path + [segment], cs)[i]
    {
      assert path + ([segment] + cs[i].path) == path + [segment] + cs[i].path;
    }
  }

  lemma OverStep(l: Json, r: Json, key: string, names: seq<Name>, i: nat, path: seq<string>)
    requires i < |names|
    ensures Below(path, Over(l, r, key, names[..i + 1]))
            == Below(path, Over(l, r, key, names[..i]))
               + Below(path + [TextOf(names[i])], Between(l, r, key, names[i]))
  {
    var upto := names[..i + 1];
    assert upto[..|upto| - 1] == names[..i] && upto[|upto| - 1] == names[i];
    var segment := TextOf(names[i]);
    var part := Between(l, r, key, names[i]);
    BelowConcat(path, Over(l, r, key, names[..i]), Prefixed(segment, part));
    BelowPrefixed(path, segment, part);
  }

  lemma {:induction false} OverGrows(l: Json, r: Json, key: string, names: seq<Name>, i: nat, path: seq<string>)
    requires i <= |names|
    ensures Below(path, Over(l, r, key, names[..i])) <= Below(path, Over(l, r, key, names))
    decreases |names| - i
  {
    if i == |names| {
      assert names[..i] == names;
    } else {
      OverStep(l, r, key, names, i, path);
      OverGrows(l, r, key, names, i + 1, path);
    }
  }

  // ---- What a budget has let through ----

  lemma FitsAfter(changes: nat, chars: nat, a: seq<Change>, b: seq<Change>, changesA: nat, charsA: nat)
    requires Fits(a, changes, chars) == |a| && changesA == changes + |a| && charsA == chars + TotalCost(a)
    ensures Fits(a + b, changes, chars) == |a| + Fits(b, changesA, charsA)
  {
    FitsConcat(a, b, changes, chars);
  }

  lemma KeptThenKept(changes: nat, chars: nat, a: seq<Change>, b: seq<Change>, out: seq<Change>,
                     changesA: nat, charsA: nat)
    requires LetThrough(changes, chars, a, a) && changesA == changes + |a| && charsA == chars + TotalCost(a)
    requires LetThrough(changesA, charsA, b, out)
    ensures LetThrough(changes, chars, a + b, a + out)
  {
    FitsAfter(changes, chars, a, b, changesA, charsA);
    assert (a + b)[..|a + out|] == a + b[..|out|];
  }

  lemma CutIsFinal(changes: nat, chars: nat, a: seq<Change>, all: seq<Change>, out: seq<Change>)
    requires LetThrough(changes, chars, a, out) && |out| < |a| && a <= all
    ensures LetThrough(changes, chars, all, out) && |out| < |all|
  {
    var rest := all[|a|..];
    assert all == a + rest;
    FitsConcat(a, rest, changes, chars);
  }

  function Got(part: Option<Json>): Json { if part.Some? then part.value else Null }

  lemma BetweenIsDiffOfParts(l: Json, r: Json, key: string, n: Name)
    ensures Between(l, r, key, n) == AllChanges(Got(Part(l, key, n)), Got(Part(r, key, n)))
  {
  }

  // ---- The run ----

  method Emit(path: seq<string>, left: Json, right: Json, budget: ChangeBudget) returns (out: seq<Change>)
    requires budget.Valid() && !budget.truncated
    modifies budget
    ensures budget.Valid()
    ensures budget.Accounts(old(budget.changes), old(budget.chars), [Change(path, left, right)], out)
  {
    var ok := budget.Take(ChangeCost(path));
    assert [Change(path, left, right)][1..] == [];
    if !ok {
      return [];
    }
    out := [Change(path, left, right)];
    assert out[..|out| - 1] == [];
  }

  predicate Container(j: Json) { j.Obj? || j.Arr? }

  /** The changes between two values at `path`: as many of all of them as the budget lets through. */
  method Diff(left: Json, right: Json, path: seq<string>, budget: ChangeBudget) returns (out: seq<Change>)
    requires budget.Valid()
    modifies budget
    ensures budget.Valid()
    ensures old(budget.truncated) ==> out == [] && unchanged(budget)
    ensures !old(budget.truncated) ==>
              budget.Accounts(old(budget.changes), old(budget.chars), Below(path, AllChanges(left, right)), out)
    decreases Container(left), left, 1
  {
    if budget.truncated {
      return [];
    }
    if left.Obj? && right.Obj? {
      out := DiffParts(left, right, "", path, budget);
    } else if left.Arr? && right.Arr? {
      var key := if ListKey(left.items).Some? then ListKey(left.items) else ListKey(right.items);
      if key.Some? {
        out := DiffParts(left, right, key.value, path, budget);
      } else {
        out := DiffWhole(left, right, path, budget);
      }
    } else {
      out := DiffWhole(left, right, path, budget);
    }
  }

  method DiffWhole(left: Json, right: Json, path: seq<string>, budget: ChangeBudget) returns (out: seq<Change>)
    requires budget.Valid() && !budget.truncated
    modifies budget
    ensures budget.Valid()
    ensures budget.Accounts(old(budget.changes), old(budget.chars), Below(path, Leaf(left, right)), out)
  {
    if !PyEq(left, right) {
      out := Emit(path, left, right, budget);
      assert path + [] == path;
      assert Below(path, Leaf(left, right)) == [Change(path, left, right)];
    } else {
      out := [];
    }
  }

  method DiffParts(left: Json, right: Json, key: string, path: seq<string>, budget: ChangeBudget)
    returns (out: seq<Change>)
    requires Container(left)
    requires budget.Valid() && !budget.truncated
    modifies budget
    ensures budget.Valid()
    ensures budget.Accounts(old(budget.changes), old(budget.chars),
                         Below(path, Over(left, right, key, AllNames(left, right, key))), out)
    decreases Container(left), left, 0, 1
  {
    var names := AllNames(left, right, key);
    ghost var changes0, chars0 := budget.changes, budget.chars;
    out := [];
    var i := 0;
    while i < |names| && !budget.truncated
      invariant i <= |names| && budget.Valid()
      invariant budget.Accounts(changes0, chars0, Below(path, Over(left, right, key, names[..i])), out)
    {
      var changed := DiffPart(left, right, key, names, i, path, budget, changes0, chars0, out);
      out := out + changed;
      i := i + 1;
    }
    OverGrows(left, right, key, names, i, path);
    if budget.truncated {
      CutIsFinal(changes0, chars0, Below(path, Over(left, right, key, names[..i])),
                 Below(path, Over(left, right, key, names)), out);
    } else {
      assert names[..i] == names;
    }
  }

  method DiffPart(left: Json, right: Json, key: string, names: seq<Name>, i: nat, path: seq<string>,
                  budget: ChangeBudget, ghost changes0: nat, ghost chars0: nat, ghost before: seq<Change>)
    returns (changed: seq<Change>)
    requires Container(left) && i < |names|
    requires budget.Valid() && !budget.truncated
    requires budget.Accounts(changes0, chars0, Below(path, Over(left, right, key, names[..i])), before)
    modifies budget
    ensures budget.Valid()
    ensures budget.Accounts(changes0, chars0, Below(path, Over(left, right, key, names[..i + 1])), before + changed)
    decreases Container(left), left, 0, 0
  {
    var n := names[i];
    ghost var changesA, charsA := budget.changes, budget.chars;
    ghost var part := Below(path + [TextOf(n)], Between(left, right, key, n));
    assert before == Below(path, Over(left, right, key, names[..i]));
    OverStep(left, right, key, names, i, path);
    BetweenIsDiffOfParts(left, right, key, n);
    changed := Diff(Got(Part(left, key, n)), Got(Part(right, key, n)), path + [TextOf(n)], budget);
    KeptThenKept(changes0, chars0, before, part, changed, changesA, charsA);
    TotalCostConcat(before, changed);
  }

  /** A whole diff: what it reports is a prefix of all changes, within both limits, and `valid` says
      truthfully whether that is all of them. */
  method DiffDocuments(left: Json, right: Json) returns (changes: seq<Change>, valid: bool)
    ensures changes <= AllChanges(left, right)
    ensures valid <==> changes == AllChanges(left, right)
    ensures |changes| <= MAX_CHANGES && TotalCost(changes) <= MAX_CHANGE_CHARS
    ensures !valid ==> var one := AllChanges(left, right)[..|changes| + 1];
                       |one| > MAX_CHANGES || TotalCost(one) > MAX_CHANGE_CHARS
  {
    var budget := new ChangeBudget();
    changes := Diff(left, right, [], budget);
    valid := !budget.truncated;
    ghost var all := AllChanges(left, right);
    BelowNothing(all);
    FitsIsWithin(all, 0, 0);
    if !valid {
      FitsIsLongest(all, 0, 0);
    }
  }
}
