/** The structural diff of mcp_server.py, and the budget that bounds what it may emit. */
module DiffEngine {
  import opened JsonValues
  import opened Options

  /** A changed position, as the names on the way down, with the value on either side; Null is absent. */
  datatype Change = Change(path: seq<string>, left: Json, right: Json)

  // ---- Equality as Python has it ----

  /** True and False are the numbers 1 and 0. */
  function Canon(j: Json): Json {
    match j
    case Bool(b) => Num(if b then 1.0 else 0.0)
    case Arr(items) => Arr(seq(|items|, i requires 0 <= i < |items| => Canon(items[i])))
    case Obj(m) => Obj(map k | k in m :: Canon(m[k]))
    case _ => j
  }

  predicate PyEq(a: Json, b: Json) { Canon(a) == Canon(b) }

  // ---- Names of parts ----

  /** A list item without the key has the name None. */
  type Name = Option<string>

  function TextOf(n: Name): string { if n.Some? then n.value else "None" }

  predicate StringLeq(a: string, b: string) {
    a == "" || (b != "" && (a[0] < b[0] || (a[0] == b[0] && StringLeq(a[1..], b[1..]))))
  }

  predicate NameLeq(a: Name, b: Name) {
    StringLeq(TextOf(a), TextOf(b)) && (TextOf(a) == TextOf(b) ==> a == b || a.None?)
  }

  lemma {:induction false} StringOrder(a: string, b: string, c: string)
    ensures StringLeq(a, b) || StringLeq(b, a)
    ensures StringLeq(a, b) && StringLeq(b, a) ==> a == b
    ensures StringLeq(a, b) && StringLeq(b, c) ==> StringLeq(a, c)
  {
    if a != "" && b != "" {
      StringOrder(a[1..], b[1..], if c != "" then c[1..] else "");
      assert a == [a[0]] + a[1..] && b == [b[0]] + b[1..];
    }
  }

  lemma NameOrder(a: Name, b: Name, c: Name)
    ensures NameLeq(a, b) || NameLeq(b, a)
    ensures NameLeq(a, b) && NameLeq(b, a) ==> a == b
    ensures NameLeq(a, b) && NameLeq(b, c) ==> NameLeq(a, c)
  {
    StringOrder(TextOf(a), TextOf(b), TextOf(c));
    StringOrder(TextOf(b), TextOf(c), TextOf(a));
  }

  predicate IsLeast(n: Name, names: set<Name>) { n in names && forall x :: x in names ==> NameLeq(n, x) }

  lemma {:induction false} LeastExists(names: set<Name>)
    requires names != {}
    ensures exists n :: IsLeast(n, names)
    ensures forall a, b :: IsLeast(a, names) && IsLeast(b, names) ==> a == b
    decreases |names|
  {
    var x :| x in names;
    NameOrder(x, x, x);
    if names == {x} {
      assert IsLeast(x, names);
    } else {
      var rest := names - {x};
      assert names == rest + {x};
      LeastExists(rest);
      var m :| IsLeast(m, rest);
      NameOrder(x, m, m);
      if NameLeq(x, m) {
        forall y | y in names ensures NameLeq(x, y) { NameOrder(x, m, y); }
        assert IsLeast(x, names);
      } else {
        assert IsLeast(m, names);
      }
    }
    forall a, b | IsLeast(a, names) && IsLeast(b, names) ensures a == b { NameOrder(a, b, b); }
  }

  function Least(names: set<Name>): (n: Name)
    requires names != {}
    ensures IsLeast(n, names)
  {
    LeastExists(names);
    var n :| IsLeast(n, names);
    n
  }

  /** The names in order, each once. */
  function Sorted(names: set<Name>): (r: seq<Name>)
    ensures forall n :: n in r <==> n in names
    ensures forall i, j :: 0 <= i < j < |r| ==> r[i] != r[j]
    decreases |names|
  {
    if names == {} then [] else
      var n := Least(names);
      assert names == (names - {n}) + {n};
      [n] + Sorted(names - {n})
  }

  // ---- Parts of a value ----

  /** The field a list item is named by: the first of three candidates it has. */
  function ItemKey(item: Json): Option<string> {
    if !item.Obj? then None
    else if "name" in item.fields then Some("name")
    else if "hostname" in item.fields then Some("hostname")
    else if "networkType" in item.fields then Some("networkType")
    else None
  }

  function ListKey(items: seq<Json>): Option<string> {
    if items == [] then None else ItemKey(items[0])
  }

  function NameUnder(item: Json, key: string): Name {
    if item.Obj? && key in item.fields && item.fields[key].Str? then Some(item.fields[key].s) else None
  }

  /** The last mapping in the list with that name wins. */
  function FindLast(items: seq<Json>, key: string, n: Name): (r: Option<nat>)
    ensures r.Some? ==> r.value < |items| && items[r.value].Obj? && NameUnder(items[r.value], key) == n
    ensures r.None? ==> forall i :: 0 <= i < |items| && items[i].Obj? ==> NameUnder(items[i], key) != n
  {
    if items == [] then None
    else
      var last := |items| - 1;
      if items[last].Obj? && NameUnder(items[last], key) == n then Some(last) else FindLast(items[..last], key, n)
  }

  lemma {:induction false} FindLastIsLast(items: seq<Json>, key: string, n: Name, i: nat)
    requires FindLast(items, key, n).Some? && FindLast(items, key, n).value < i < |items| && items[i].Obj?
    ensures NameUnder(items[i], key) != n
  {
    if i < |items| - 1 { FindLastIsLast(items[..|items| - 1], key, n, i); }
  }

  function Part(j: Json, key: string, n: Name): (r: Option<Json>)
    ensures r.Some? ==> r.value < j
  {
    match j
    case Obj(m) => if n.Some? && n.value in m then Some(m[n.value]) else None
    case Arr(items) =>
      var i := FindLast(items, key, n);
      if i.Some? then Some(items[i.value]) else None
    case _ => None
  }

  function PartNames(j: Json, key: string): (names: set<Name>)
    ensures forall n :: n in names <==> Part(j, key, n).Some?
  {
    match j
    case Obj(m) => set k | k in m :: Some(k)
    case Arr(items) => set i | 0 <= i < |items| && items[i].Obj? :: NameUnder(items[i], key)
    case _ => {}
  }

  // ---- The unbounded diff ----

  function Leaf(l: Json, r: Json): seq<Change> {
    if PyEq(l, r) then [] else [Change([], l, r)]
  }

  function Prefixed(segment: string, cs: seq<Change>): seq<Change> {
    seq(|cs|, i requires 0 <= i < |cs| => cs[i].(path := [segment] + cs[i].path))
  }

  /** How two values are compared part by part: mappings by key, lists by the key of either side. */
  function PartKey(l: Json, r: Json): Option<string> {
    if l.Obj? && r.Obj? then Some("")
    else if l.Arr? && r.Arr? then (if ListKey(l.items).Some? then ListKey(l.items) else ListKey(r.items))
    else None
  }

  function AllNames(l: Json, r: Json, key: string): seq<Name> {
    Sorted(PartNames(l, key) + PartNames(r, key))
  }

  /** Every change between two values, in the order the diff walks them. */
  function AllChanges(l: Json, r: Json): seq<Change>
    decreases l, 2, 0
  {
    if PartKey(l, r).Some? then Over(l, r, PartKey(l, r).value, AllNames(l, r, PartKey(l, r).value)) else Leaf(l, r)
  }

  function Over(l: Json, r: Json, key: string, names: seq<Name>): seq<Change>
    decreases l, 1, |names|
  {
    if names == [] then []
    else
      var last := |names| - 1;
      Over(l, r, key, names[..last]) + Prefixed(TextOf(names[last]), Between(l, r, key, names[last]))
  }

  function Between(l: Json, r: Json, key: string, n: Name): seq<Change>
    decreases l, 0, 0
  {
    match (Part(l, key, n), Part(r, key, n))
    case (Some(a), Some(b)) => AllChanges(a, b)
    case (Some(a), None) => Leaf(a, Null)
    case (None, Some(b)) => Leaf(Null, b)
    case (None, None) => []
  }

  // ---- Costs ----

  const MAX_CHANGES := 10_000
  const MAX_CHANGE_CHARS := 1_000_000

  function Render(path: seq<string>): string {
    if path == [] then "" else Render(path[..|path| - 1]) + "/" + path[|path| - 1]
  }

  function ChangeCost(path: seq<string>): nat { |Render(path)| + 32 }

  /** A list of changes seen from a position further up. */
  function Below(path: seq<string>, cs: seq<Change>): seq<Change> {
    seq(|cs|, i requires 0 <= i < |cs| => cs[i].(path := path + cs[i].path))
  }

  function TotalCost(cs: seq<Change>): nat {
    if cs == [] then 0 else TotalCost(cs[..|cs| - 1]) + ChangeCost(cs[|cs| - 1].path)
  }

  /** How many changes fit, in order, after `changes` of them with `chars` characters: up to the first that
      does not. */
  function Fits(cs: seq<Change>, changes: nat, chars: nat): (k: nat)
    ensures k <= |cs|
  {
    if cs == [] || changes >= MAX_CHANGES || chars + ChangeCost(cs[0].path) > MAX_CHANGE_CHARS then 0
    else 1 + Fits(cs[1..], changes + 1, chars + ChangeCost(cs[0].path))
  }

  predicate LetThrough(changes: nat, chars: nat, all: seq<Change>, out: seq<Change>) {
    |out| == Fits(all, changes, chars) && out == all[..|out|]
  }

  lemma {:induction false} TotalCostCons(cs: seq<Change>)
    requires cs != []
    ensures TotalCost(cs) == ChangeCost(cs[0].path) + TotalCost(cs[1..])
  {
    if |cs| > 1 {
      var init := cs[..|cs| - 1];
      TotalCostCons(init);
      assert init[1..] == cs[1..][..|cs[1..]| - 1];
    } else {
      assert cs[..0] == [] && cs[1..] == [];
    }
  }

  lemma {:induction false} FitsConcat(a: seq<Change>, b: seq<Change>, changes: nat, chars: nat)
    ensures var k := Fits(a, changes, chars);
            Fits(a + b, changes, chars)
            == if k < |a| then k else |a| + Fits(b, changes + |a|, chars + TotalCost(a))
    decreases |a|
  {
    if a == [] {
      assert a + b == b;
    } else {
      assert (a + b)[0] == a[0] && (a + b)[1..] == a[1..] + b;
      TotalCostCons(a);
      FitsConcat(a[1..], b, changes + 1, chars + ChangeCost(a[0].path));
    }
  }

  lemma TotalCostOfTake(cs: seq<Change>, k: nat)
    requires 0 < k <= |cs|
    ensures TotalCost(cs[..k]) == ChangeCost(cs[0].path) + TotalCost(cs[1..][..k - 1])
  {
    TotalCostCons(cs[..k]);
    assert cs[..k][1..] == cs[1..][..k - 1];
  }

  /** What fits is within both limits. */
  lemma {:induction false} FitsIsWithin(cs: seq<Change>, changes: nat, chars: nat)
    requires changes <= MAX_CHANGES && chars <= MAX_CHANGE_CHARS
    ensures changes + Fits(cs, changes, chars) <= MAX_CHANGES
    ensures chars + TotalCost(cs[..Fits(cs, changes, chars)]) <= MAX_CHANGE_CHARS
    decreases |cs|
  {
    var k := Fits(cs, changes, chars);
    if k > 0 {
      FitsIsWithin(cs[1..], changes + 1, chars + ChangeCost(cs[0].path));
      TotalCostOfTake(cs, k);
    } else {
      assert cs[..0] == [];
    }
  }

  /** One change more would be over a limit: what fits is the longest prefix that does. */
  lemma {:induction false} FitsIsLongest(cs: seq<Change>, changes: nat, chars: nat)
    requires changes <= MAX_CHANGES && chars <= MAX_CHANGE_CHARS
    requires Fits(cs, changes, chars) < |cs|
    ensures var k := Fits(cs, changes, chars) + 1;
            changes + k > MAX_CHANGES || chars + TotalCost(cs[..k]) > MAX_CHANGE_CHARS
    decreases |cs|
  {
    var k := Fits(cs, changes, chars);
    TotalCostOfTake(cs, k + 1);
    if k > 0 {
      FitsIsLongest(cs[1..], changes + 1, chars + ChangeCost(cs[0].path));
    } else {
      assert cs[1..][..0] == [];
    }
  }

  // ---- The budgeted diff ----

  class ChangeBudget {
    var changes: nat
    var chars: nat
    var truncated: bool

    ghost predicate Valid()
      reads this
    {
      changes <= MAX_CHANGES && chars <= MAX_CHANGE_CHARS
    }

    constructor ()
      ensures Valid() && changes == 0 && chars == 0 && !truncated
    {
      changes, chars, truncated := 0, 0, false;
    }

    method Take(cost: nat) returns (ok: bool)
      requires Valid()
      modifies this
      ensures Valid()
      ensures ok == !(old(changes) >= MAX_CHANGES || old(chars) + cost > MAX_CHANGE_CHARS)
      ensures ok ==> changes == old(changes) + 1 && chars == old(chars) + cost && truncated == old(truncated)
      ensures !ok ==> changes == old(changes) && chars == old(chars) && truncated
    {
      if changes >= MAX_CHANGES || chars + cost > MAX_CHANGE_CHARS {
        truncated := true;
        return false;
      }
      changes := changes + 1;
      chars := chars + cost;
      return true;
    }

    /** `out` is what fits of `all` after the given counts, the budget has counted exactly that, and it is
        truncated just when something did not fit. */
    ghost predicate Accounts(changes0: nat, chars0: nat, all: seq<Change>, out: seq<Change>)
      reads this
    {
      && LetThrough(changes0, chars0, all, out)
      && changes == changes0 + |out| && chars == chars0 + TotalCost(out)
      && (truncated <==> |out| < |all|)
    }
  }
}
