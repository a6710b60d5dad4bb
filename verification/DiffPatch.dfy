/** A diff read as a patch: applied to the left value, every change gives the right one. */
module DiffPatch {
  import opened DiffEngine
  import opened JsonValues
  import opened Options

  // ---- Applying changes ----

  /** The changes under one segment, seen from there. */
  function Under(segment: string, cs: seq<Change>): seq<Change> {
    if cs == [] then []
    else (if cs[0].path != [] && cs[0].path[0] == segment then [cs[0].(path := cs[0].path[1..])] else [])
         + Under(segment, cs[1..])
  }

  /** The new value of the position itself, when a change names it; Null removes it. */
  function Whole(cs: seq<Change>): Option<Json> {
    if cs == [] then None
    else if cs[0].path == [] then Some(cs[0].right)
    else Whole(cs[1..])
  }

  function Heads(cs: seq<Change>): set<string> {
    set i | 0 <= i < |cs| && cs[i].path != [] :: cs[i].path[0]
  }

  function Present(items: seq<Json>): seq<Json> {
    if items == [] then []
    else (if items[0].Null? then [] else [items[0]]) + Present(items[1..])
  }

  predicate Adds(c: Change, taken: set<string>) {
    |c.path| == 1 && c.path[0] !in taken && !c.right.Null?
  }

  function Added(cs: seq<Change>, taken: set<string>): seq<Json> {
    if cs == [] then []
    else (if Adds(cs[0], taken) then [cs[0].right] else []) + Added(cs[1..], taken)
  }

  function KeyOf(items: seq<Json>): string { if ListKey(items).Some? then ListKey(items).value else "" }

  function Segment(item: Json, key: string): string { TextOf(NameUnder(item, key)) }

  /** The document with every change made: a field or a named item changed, removed or added. */
  function Patched(doc: Json, cs: seq<Change>): Json
    decreases doc, 1
  {
    if cs == [] then doc
    else if Whole(cs).Some? then Whole(cs).value
    else
      match doc
      case Obj(m) =>
        Obj(map k | k in m.Keys + Heads(cs) && !FieldAfter(doc, k, cs).Null? :: FieldAfter(doc, k, cs))
      case Arr(items) =>
        Arr(Present(ItemsAfter(doc, cs)) + Added(cs, set x | x in items :: Segment(x, KeyOf(items))))
      case _ => doc
  }

  function FieldAfter(doc: Json, k: string, cs: seq<Change>): Json
    requires doc.Obj?
    decreases doc, 0
  {
    if k in doc.fields then Patched(doc.fields[k], Under(k, cs))
    else if Whole(Under(k, cs)).Some? then Whole(Under(k, cs)).value
    else Null
  }

  function ItemsAfter(doc: Json, cs: seq<Change>): (r: seq<Json>)
    requires doc.Arr?
    ensures |r| == |doc.items|
    decreases doc, 0
  {
    seq(|doc.items|, i requires 0 <= i < |doc.items| =>
      Patched(doc.items[i], Under(Segment(doc.items[i], KeyOf(doc.items)), cs)))
  }

  // ---- Which documents ----

  /** Every item is a mapping named, by that key, with a text no other item has. */
  ghost predicate Keyed(items: seq<Json>, key: string) {
    && (forall x :: x in items ==> ItemKey(x) == Some(key) && x.fields[key].Str?)
    && (forall i, j :: 0 <= i < j < |items| ==> NameUnder(items[i], key) != NameUnder(items[j], key))
  }

  /** No nulls, and every list either without a key or keyed throughout. */
  ghost predicate Good(j: Json) {
    match j
    case Null => false
    case Obj(m) => forall k :: k in m ==> Good(m[k])
    case Arr(items) =>
      ListKey(items).Some? ==> Keyed(items, ListKey(items).value) && forall x :: x in items ==> Good(x)
    case _ => true
  }

  /** Lists that meet are keyed alike, or one is empty. */
  ghost predicate Compatible(l: Json, r: Json) {
    PartKey(l, r).Some? ==>
      var key := PartKey(l, r).value;
      && (l.Arr? && l.items != [] && r.items != [] ==> ListKey(l.items) == ListKey(r.items))
      && (forall n :: Part(l, key, n).Some? && Part(r, key, n).Some?
                      ==> Compatible(Part(l, key, n).value, Part(r, key, n).value))
  }

  /** Equal, up to the order of keyed lists: as many items, each with a partner on the other side.  Between
      lists whose items have distinct names the partners pair off. */
  ghost predicate Same(a: Json, b: Json)
    decreases a, 1
  {
    if a.Obj? && b.Obj? then
      a.fields.Keys == b.fields.Keys && forall k :: k in a.fields ==> Same(a.fields[k], b.fields[k])
    else if a.Arr? && b.Arr? && PartKey(a, b).Some? then
      && |a.items| == |b.items|
      && (forall x :: x in a.items ==> IsAmong(x, b.items)) && (forall y :: y in b.items ==> Covers(a, y))
    else PyEq(a, b)
  }

  ghost predicate IsAmong(x: Json, ys: seq<Json>)
    decreases x, 2
  {
    exists y :: y in ys && Same(x, y)
  }

  ghost predicate Covers(a: Json, y: Json)
    requires a.Arr?
    decreases a, 0
  {
    exists x :: x in a.items && Same(x, y)
  }

  lemma {:induction false} SameAsItself(j: Json)
    requires Good(j)
    ensures Same(j, j)
  {
    match j {
      case Obj(m) =>
        forall k | k in m ensures Same(m[k], m[k]) { SameAsItself(m[k]); }
      case Arr(items) =>
        if ListKey(items).Some? {
          forall x | x in items ensures IsAmong(x, items) { SameAsItself(x); }
          forall x | x in items ensures Covers(j, x) { SameAsItself(x); }
        }
      case _ =>
    }
  }

  // ---- Reading a list of changes ----

  lemma {:induction false} UnderConcat(segment: string, a: seq<Change>, b: seq<Change>)
    ensures Under(segment, a + b) == Under(segment, a) + Under(segment, b)
  {
    if a == [] {
      assert a + b == b;
    } else {
      assert (a + b)[0] == a[0] && (a + b)[1..] == a[1..] + b;
      UnderConcat(segment, a[1..], b);
    }
  }

  lemma {:induction false} UnderPrefixed(segment: string, other: string, cs: seq<Change>)
    ensures Under(segment, Prefixed(other, cs)) == if segment == other then cs else []
  {
    if cs != [] {
      var p := Prefixed(other, cs);
      assert p[0].path[1..] == cs[0].path;
      assert p[1..] == Prefixed(other, cs[1..]);
      UnderPrefixed(segment, other, cs[1..]);
    }
  }

  lemma {:induction false} WholeNone(cs: seq<Change>)
    requires forall c :: c in cs ==> c.path != []
    ensures Whole(cs) == None
  {
    if cs != [] { WholeNone(cs[1..]); }
  }

  lemma {:induction false} PresentHas(items: seq<Json>, x: Json)
    ensures x in Present(items) <==> x in items && !x.Null?
  {
    if items != [] { PresentHas(items[1..], x); }
  }

  lemma {:induction false} AddedHas(cs: seq<Change>, taken: set<string>, x: Json)
    ensures x in Added(cs, taken) <==> exists c :: c in cs && Adds(c, taken) && c.right == x
  {
    if cs != [] { AddedHas(cs[1..], taken, x); }
  }

  // ---- What the changes between two values say of each part ----

  ghost predicate AreTexts(names: seq<Name>) {
    && (forall n :: n in names ==> n.Some?)
    && (forall i, j :: 0 <= i < j < |names| ==> names[i] != names[j])
  }

  lemma {:induction false} UnderOver(l: Json, r: Json, key: string, names: seq<Name>, segment: string)
    requires AreTexts(names)
    ensures Under(segment, Over(l, r, key, names))
            == if Some(segment) in names then Between(l, r, key, Some(segment)) else []
  {
    if names != [] {
      var k := |names| - 1;
      var n := names[k];
      UnderOver(l, r, key, names[..k], segment);
      UnderConcat(segment, Over(l, r, key, names[..k]), Prefixed(TextOf(n), Between(l, r, key, n)));
      UnderPrefixed(segment, TextOf(n), Between(l, r, key, n));
      LastOrBefore(names, Some(segment));
    }
  }

  lemma LastOrBefore(names: seq<Name>, n: Name)
    requires names != [] && forall i, j :: 0 <= i < j < |names| ==> names[i] != names[j]
    ensures n in names <==> n in names[..|names| - 1] || n == names[|names| - 1]
    ensures n == names[|names| - 1] ==> n !in names[..|names| - 1]
  {
  }

  lemma {:induction false} OverHas(l: Json, r: Json, key: string, names: seq<Name>, c: Change)
    ensures c in Over(l, r, key, names) <==>
            c.path != [] && exists n :: n in names && TextOf(n) == c.path[0]
                                        && c.(path := c.path[1..]) in Between(l, r, key, n)
  {
    if names != [] {
      var k := |names| - 1;
      OverHas(l, r, key, names[..k], c);
      PrefixedHas(TextOf(names[k]), Between(l, r, key, names[k]), c);
    }
  }

  lemma PrefixedHas(segment: string, cs: seq<Change>, c: Change)
    ensures c in Prefixed(segment, cs) <==> c.path != [] && c.path[0] == segment && c.(path := c.path[1..]) in cs
  {
    forall i | 0 <= i < |cs| ensures Prefixed(segment, cs)[i].path[1..] == cs[i].path { }
    if c.path != [] && c.path[0] == segment && c.(path := c.path[1..]) in cs {
      var i :| 0 <= i < |cs| && cs[i] == c.(path := c.path[1..]);
      assert c.path == [segment] + cs[i].path;
      assert Prefixed(segment, cs)[i] == c;
    }
  }

  // ---- The parts of good documents ----

  lemma PartOfItem(items: seq<Json>, key: string, x: Json)
    requires Keyed(items, key) && x in items
    ensures NameUnder(x, key).Some? && Part(Arr(items), key, NameUnder(x, key)) == Some(x)
  {
    var n := NameUnder(x, key);
    var i :| 0 <= i < |items| && items[i] == x;
    var f := FindLast(items, key, n);
    assert items[i].Obj? && NameUnder(items[i], key) == n;
    assert forall j :: 0 <= j < |items| && NameUnder(items[j], key) == n ==> j == i;
  }

  /** The lists of a part-by-part comparison are keyed by the key it uses. */
  lemma PartsAreKeyed(l: Json, r: Json)
    requires Good(l) && Good(r) && Compatible(l, r) && PartKey(l, r).Some? && l.Arr?
    ensures r.Arr? && Keyed(l.items, PartKey(l, r).value) && Keyed(r.items, PartKey(l, r).value)
    ensures l.items != [] ==> KeyOf(l.items) == PartKey(l, r).value
  {
  }

  lemma PartsAreGood(j: Json, key: string, n: Name)
    requires Good(j) && (j.Arr? ==> Keyed(j.items, key)) && Part(j, key, n).Some?
    ensures n.Some? && Good(Part(j, key, n).value)
  {
    if j.Arr? {
      assert ListKey(j.items).Some?;
      var x := j.items[FindLast(j.items, key, n).value];
      assert x in j.items;
    }
  }

  lemma NamesAreTexts(l: Json, r: Json)
    requires Good(l) && Good(r) && Compatible(l, r) && PartKey(l, r).Some?
    ensures AreTexts(AllNames(l, r, PartKey(l, r).value))
  {
    var key := PartKey(l, r).value;
    if l.Arr? { PartsAreKeyed(l, r); }
    forall n | n in AllNames(l, r, key) ensures n.Some? {
      if Part(l, key, n).Some? { PartsAreGood(l, key, n); } else { PartsAreGood(r, key, n); }
    }
  }

  lemma NoRootChange(l: Json, r: Json, key: string, names: seq<Name>)
    ensures Whole(Over(l, r, key, names)) == None
  {
    forall c | c in Over(l, r, key, names) ensures c.path != [] { OverHas(l, r, key, names, c); }
    WholeNone(Over(l, r, key, names));
  }

  // ---- The diff is a patch ----

  /** What the diff proves for the parts that are on both sides. */
  ghost predicate PartsArePatched(l: Json, r: Json) {
    PartKey(l, r).Some? ==>
      var key := PartKey(l, r).value;
      forall n :: Part(l, key, n).Some? && Part(r, key, n).Some?
        ==> Same(Patched(Part(l, key, n).value, Between(l, r, key, n)), Part(r, key, n).value)
  }

  lemma NullIsOnlyNull(b: Json)
    requires Same(Null, b)
    ensures b.Null?
  {
  }

  lemma GoneOrNew(a: Json)
    requires !a.Null?
    ensures Patched(a, Leaf(a, Null)) == Null
    ensures Leaf(Null, a) == [Change([], Null, a)] && Whole(Leaf(Null, a)) == Some(a)
  {
  }

  /** What becomes of one part: changed, removed, or added. */
  lemma PartIsPatched(l: Json, r: Json, key: string, n: Name)
    requires Good(l) && Good(r) && Compatible(l, r) && PartKey(l, r) == Some(key) && PartsArePatched(l, r)
    ensures var (a, b, cs) := (Part(l, key, n), Part(r, key, n), Between(l, r, key, n));
            && (a.Some? && b.Some? ==> !Patched(a.value, cs).Null? && Same(Patched(a.value, cs), b.value))
            && (a.Some? && b.None? ==> Patched(a.value, cs).Null?)
            && (a.None? && b.Some? ==> cs == [Change([], Null, b.value)] && Good(b.value))
            && (a.None? && b.None? ==> cs == [])
  {
    var (a, b) := (Part(l, key, n), Part(r, key, n));
    if l.Arr? { PartsAreKeyed(l, r); }
    if b.Some? { PartsAreGood(r, key, n); }
    if a.Some? { PartsAreGood(l, key, n); }
    if a.Some? && b.Some? {
      if Patched(a.value, Between(l, r, key, n)).Null? { NullIsOnlyNull(b.value); }
    } else if a.Some? {
      GoneOrNew(a.value);
    } else if b.Some? {
      GoneOrNew(b.value);
    }
  }

  lemma FieldIsPatched(l: Json, r: Json, k: string)
    requires l.Obj? && r.Obj? && Good(l) && Good(r) && Compatible(l, r) && PartsArePatched(l, r)
    ensures var after := FieldAfter(l, k, Over(l, r, "", AllNames(l, r, "")));
            if k in r.fields then !after.Null? && Same(after, r.fields[k]) else after.Null?
  {
    var names := AllNames(l, r, "");
    var n: Name := Some(k);
    NamesAreTexts(l, r);
    UnderOver(l, r, "", names, k);
    PartIsPatched(l, r, "", n);
    assert k in r.fields ==> Part(r, "", n) == Some(r.fields[k]);
    assert k in l.fields ==> Part(l, "", n) == Some(l.fields[k]);
    assert Under(k, Over(l, r, "", names)) == Between(l, r, "", n);
    if k !in l.fields && k in r.fields { SameAsItself(r.fields[k]); }
  }

  lemma FieldsArePatched(l: Json, r: Json)
    requires l.Obj? && r.Obj? && Good(l) && Good(r) && Compatible(l, r) && PartsArePatched(l, r)
    ensures Same(Patched(l, AllChanges(l, r)), r)
  {
    var cs := Over(l, r, "", AllNames(l, r, ""));
    NoRootChange(l, r, "", AllNames(l, r, ""));
    forall k ensures if k in r.fields then !FieldAfter(l, k, cs).Null? && Same(FieldAfter(l, k, cs), r.fields[k])
                     else FieldAfter(l, k, cs).Null?
    {
      FieldIsPatched(l, r, k);
    }
    forall k | k in r.fields && k !in l.fields ensures k in Heads(cs) { NewFieldHasHead(cs, k); }
    if cs == [] {
      forall k | k in l.fields ensures FieldAfter(l, k, cs) == l.fields[k] { }
    }
  }

  lemma {:induction false} NewFieldHasHead(cs: seq<Change>, k: string)
    requires Under(k, cs) != []
    ensures k in Heads(cs)
  {
    if !(cs[0].path != [] && cs[0].path[0] == k) {
      NewFieldHasHead(cs[1..], k);
      var i :| 0 <= i < |cs[1..]| && cs[1..][i].path != [] && cs[1..][i].path[0] == k;
      assert cs[i + 1] == cs[1..][i];
    }
  }


  /** The items of a patched list, before it is known whether there is any change at all. */
  function ResultItems(l: Json, cs: seq<Change>): seq<Json>
    requires l.Arr?
  {
    Present(ItemsAfter(l, cs)) + Added(cs, Taken(l))
  }

  /** An item of the left list, patched by the changes under its name. */
  lemma ItemAfter(l: Json, r: Json, i: nat)
    requires l.Arr? && Good(l) && Good(r) && Compatible(l, r) && PartKey(l, r).Some? && PartsArePatched(l, r)
    requires i < |l.items|
    ensures var key := PartKey(l, r).value;
            var n := NameUnder(l.items[i], key);
            var after := ItemsAfter(l, Over(l, r, key, AllNames(l, r, key)))[i];
            && (Part(r, key, n).Some? ==> !after.Null? && Same(after, Part(r, key, n).value))
            && (Part(r, key, n).None? ==> after.Null?)
  {
    var key := PartKey(l, r).value;
    var names := AllNames(l, r, key);
    PartsAreKeyed(l, r);
    NamesAreTexts(l, r);
    var x := l.items[i];
    assert x in l.items;
    PartOfItem(l.items, key, x);
    var n := NameUnder(x, key);
    UnderOver(l, r, key, names, n.value);
    assert n in names;
    PartIsPatched(l, r, key, n);
  }

  lemma NamedItemIsTaken(items: seq<Json>, key: string, n: Name)
    requires Part(Arr(items), key, n).Some?
    ensures TextOf(n) in set x | x in items :: Segment(x, key)
  {
    var x := items[FindLast(items, key, n).value];
    assert x in items && Segment(x, key) == TextOf(n);
  }

  lemma ResultHasPartner(l: Json, r: Json, x: Json)
    requires l.Arr? && Good(l) && Good(r) && Compatible(l, r) && PartKey(l, r).Some? && PartsArePatched(l, r)
    requires var key := PartKey(l, r).value; x in ResultItems(l, Over(l, r, key, AllNames(l, r, key)))
    ensures r.Arr? && IsAmong(x, r.items)
  {
    var key := PartKey(l, r).value;
    var cs := Over(l, r, key, AllNames(l, r, key));
    PresentHas(ItemsAfter(l, cs), x);
    if x in ItemsAfter(l, cs) && !x.Null? {
      var i :| 0 <= i < |l.items| && ItemsAfter(l, cs)[i] == x;
      ItemAfter(l, r, i);
      var n := NameUnder(l.items[i], key);
      assert r.items[FindLast(r.items, key, n).value] in r.items;
    } else {
      NamesAreTexts(l, r);
      AddedApart(l, r, AllNames(l, r, key));
      PartsAreGood(r, key, NameUnder(x, key));
      SameAsItself(x);
    }
  }

  lemma NewItemIsAdded(l: Json, r: Json, y: Json)
    requires l.Arr? && Good(l) && Good(r) && Compatible(l, r) && PartKey(l, r).Some? && PartsArePatched(l, r)
    requires r.Arr? && y in r.items && Part(l, PartKey(l, r).value, NameUnder(y, PartKey(l, r).value)).None?
    ensures var key := PartKey(l, r).value;
            y in Added(Over(l, r, key, AllNames(l, r, key)), Taken(l))
  {
    var key := PartKey(l, r).value;
    var names := AllNames(l, r, key);
    PartsAreKeyed(l, r);
    PartOfItem(r.items, key, y);
    var n := NameUnder(y, key);
    PartIsPatched(l, r, key, n);
    assert n in names;
    NotTaken(l, key, n);
    ReportedIsAdded(l, r, key, names, n, y, Taken(l));
  }

  lemma NotTaken(l: Json, key: string, n: Name)
    requires l.Arr? && Keyed(l.items, key) && n.Some? && Part(l, key, n).None?
    requires l.items != [] ==> KeyOf(l.items) == key
    ensures n.value !in Taken(l)
  {
    forall x | x in l.items ensures Segment(x, KeyOf(l.items)) != n.value { PartOfItem(l.items, key, x); }
  }

  lemma ReportedIsAdded(l: Json, r: Json, key: string, names: seq<Name>, n: Name, y: Json, taken: set<string>)
    requires n.Some? && n in names && n.value !in taken && !y.Null?
    requires Between(l, r, key, n) == [Change([], Null, y)]
    ensures y in Added(Over(l, r, key, names), taken)
  {
    var c := Change([n.value], Null, y);
    PrefixedHas(n.value, Between(l, r, key, n), c);
    assert c.(path := c.path[1..]) == Between(l, r, key, n)[0];
    OverHas(l, r, key, names, c);
    AddedHas(Over(l, r, key, names), taken, y);
  }

  lemma RightHasPartner(l: Json, r: Json, y: Json)
    requires l.Arr? && Good(l) && Good(r) && Compatible(l, r) && PartKey(l, r).Some? && PartsArePatched(l, r)
    requires r.Arr? && y in r.items
    ensures var key := PartKey(l, r).value;
            Covers(Arr(ResultItems(l, Over(l, r, key, AllNames(l, r, key)))), y)
  {
    var key := PartKey(l, r).value;
    var names := AllNames(l, r, key);
    var cs := Over(l, r, key, names);
    PartsAreKeyed(l, r);
    NamesAreTexts(l, r);
    PartOfItem(r.items, key, y);
    var n := NameUnder(y, key);
    assert n in names;
    if Part(l, key, n).Some? {
      var i := FindLast(l.items, key, n).value;
      ItemAfter(l, r, i);
      PresentHas(ItemsAfter(l, cs), ItemsAfter(l, cs)[i]);
    } else {
      NewItemIsAdded(l, r, y);
      SameAsItself(y);
    }
  }

  lemma {:induction false} PresentAll(items: seq<Json>)
    requires forall x :: x in items ==> !x.Null?
    ensures Present(items) == items
  {
    if items != [] { PresentAll(items[1..]); }
  }

  lemma PatchedList(l: Json, r: Json)
    requires l.Arr? && Good(l) && Good(r) && Compatible(l, r) && PartKey(l, r).Some?
    ensures var key := PartKey(l, r).value;
            var cs := Over(l, r, key, AllNames(l, r, key));
            Patched(l, AllChanges(l, r)) == Arr(ResultItems(l, cs))
  {
    var key := PartKey(l, r).value;
    var cs := Over(l, r, key, AllNames(l, r, key));
    NoRootChange(l, r, key, AllNames(l, r, key));
    PartsAreKeyed(l, r);
    if cs == [] {
      assert ItemsAfter(l, cs) == l.items;
      PresentAll(l.items);
    }
  }

  lemma SameItemsShareTheirName(x: Json, y: Json, key: string)
    requires Same(x, y) && y.Obj? && key in y.fields && y.fields[key].Str?
    ensures NameUnder(x, key) == NameUnder(y, key)
  {
    assert x.Obj? && Same(x.fields[key], y.fields[key]);
  }

  // ---- A patched list has no item twice ----

  predicate Apart(items: seq<Json>, key: string) {
    forall i, j :: 0 <= i < j < |items| ==> NameUnder(items[i], key) != NameUnder(items[j], key)
  }

  function NamesIn(items: seq<Json>, key: string): set<Name> { set x | x in items :: NameUnder(x, key) }

  lemma NamesCons(items: seq<Json>, key: string)
    requires items != []
    ensures NamesIn(items, key) == {NameUnder(items[0], key)} + NamesIn(items[1..], key)
  {
    assert items == [items[0]] + items[1..];
  }

  lemma FirstIsNew(items: seq<Json>, key: string)
    requires items != [] && Apart(items, key)
    ensures NameUnder(items[0], key) !in NamesIn(items[1..], key) && Apart(items[1..], key)
  {
    forall x | x in items[1..] ensures NameUnder(x, key) != NameUnder(items[0], key) {
      var i :| 0 <= i < |items[1..]| && items[1..][i] == x;
      assert items[i + 1] == x;
    }
  }

  lemma {:induction false} NamesCount(items: seq<Json>, key: string)
    requires Apart(items, key)
    ensures |NamesIn(items, key)| == |items|
  {
    if items == [] {
      assert NamesIn(items, key) == {};
    } else {
      FirstIsNew(items, key);
      NamesCount(items[1..], key);
      NamesCons(items, key);
    }
  }

  lemma {:induction false} PresentApart(items: seq<Json>, names: seq<Name>, key: string)
    requires |items| == |names| && forall i, j :: 0 <= i < j < |names| ==> names[i] != names[j]
    requires forall i :: 0 <= i < |items| && !items[i].Null? ==> NameUnder(items[i], key) == names[i]
    ensures Apart(Present(items), key)
    ensures forall x :: x in Present(items) ==> NameUnder(x, key) in names
  {
    if items != [] {
      var rest := Present(items[1..]);
      PresentApart(items[1..], names[1..], key);
      forall x | x in rest ensures NameUnder(x, key) != names[0] && NameUnder(x, key) in names {
        var i :| 0 <= i < |names[1..]| && names[1..][i] == NameUnder(x, key);
        assert names[i + 1] == NameUnder(x, key);
      }
      if !items[0].Null? { ApartCons(items[0], rest, key); }
    }
  }

  lemma ApartCons(x: Json, rest: seq<Json>, key: string)
    requires Apart(rest, key) && forall y :: y in rest ==> NameUnder(y, key) != NameUnder(x, key)
    ensures Apart([x] + rest, key)
  {
    var all := [x] + rest;
    forall i, j | 0 <= i < j < |all| ensures NameUnder(all[i], key) != NameUnder(all[j], key) {
      assert all[j] in rest;
    }
  }

  lemma ApartConcat(a: seq<Json>, b: seq<Json>, key: string)
    requires Apart(a, key) && Apart(b, key)
    requires forall x, y :: x in a && y in b ==> NameUnder(x, key) != NameUnder(y, key)
    ensures Apart(a + b, key)
  {
    var all := a + b;
    forall i, j | 0 <= i < j < |all| ensures NameUnder(all[i], key) != NameUnder(all[j], key) {
      if i < |a| <= j { assert all[i] in a && all[j] in b; }
    }
  }

  lemma {:induction false} AddedConcat(a: seq<Change>, b: seq<Change>, taken: set<string>)
    ensures Added(a + b, taken) == Added(a, taken) + Added(b, taken)
  {
    if a == [] {
      assert a + b == b;
    } else {
      assert (a + b)[0] == a[0] && (a + b)[1..] == a[1..] + b;
      AddedConcat(a[1..], b, taken);
    }
  }

  lemma {:induction false} AddedNone(cs: seq<Change>, taken: set<string>)
    requires forall c :: c in cs ==> !Adds(c, taken)
    ensures Added(cs, taken) == []
  {
    if cs != [] {
      assert cs[0] in cs;
      AddedNone(cs[1..], taken);
    }
  }

  function Taken(l: Json): set<string>
    requires l.Arr?
  {
    set x | x in l.items :: Segment(x, KeyOf(l.items))
  }

  /** Under one name at most one item is added, and only if the left list had none of that name. */
  lemma AddedUnder(l: Json, r: Json, n: Name)
    requires l.Arr? && Good(l) && Good(r) && Compatible(l, r) && PartKey(l, r).Some? && PartsArePatched(l, r)
    requires n.Some?
    ensures var key := PartKey(l, r).value;
            var added := Added(Prefixed(TextOf(n), Between(l, r, key, n)), Taken(l));
            |added| <= 1 && forall x :: x in added ==>
                              NameUnder(x, key) == n && Part(l, key, n).None? && Part(r, key, n) == Some(x)
  {
    var key := PartKey(l, r).value;
    var cs := Prefixed(TextOf(n), Between(l, r, key, n));
    PartsAreKeyed(l, r);
    PartIsPatched(l, r, key, n);
    if Part(l, key, n).Some? {
      NamedItemIsTaken(l.items, key, n);
      AddedNone(cs, Taken(l));
    } else if Part(r, key, n).Some? {
      assert cs == [cs[0]] && cs[0].right == Part(r, key, n).value;
      assert cs[1..] == [];
    } else {
      assert cs == [];
    }
  }

  lemma {:induction false} AddedApart(l: Json, r: Json, names: seq<Name>)
    requires l.Arr? && Good(l) && Good(r) && Compatible(l, r) && PartKey(l, r).Some? && PartsArePatched(l, r)
    requires AreTexts(names)
    ensures var key := PartKey(l, r).value;
            var added := Added(Over(l, r, key, names), Taken(l));
            && Apart(added, key)
            && forall x :: x in added ==>
                 var n := NameUnder(x, key);
                 n in names && Part(l, key, n).None? && Part(r, key, n) == Some(x)
  {
    if names != [] {
      var key := PartKey(l, r).value;
      var k := |names| - 1;
      var n := names[k];
      AddedApart(l, r, names[..k]);
      AddedUnder(l, r, n);
      var before := Added(Over(l, r, key, names[..k]), Taken(l));
      var last := Added(Prefixed(TextOf(n), Between(l, r, key, n)), Taken(l));
      AddedConcat(Over(l, r, key, names[..k]), Prefixed(TextOf(n), Between(l, r, key, n)), Taken(l));
      ApartConcat(before, last, key);
    }
  }

  /** An item the same as one of a keyed list has that one's name. */
  lemma PartnerName(items: seq<Json>, key: string, x: Json, y: Json)
    requires Keyed(items, key) && y in items && Same(x, y)
    ensures NameUnder(x, key) == NameUnder(y, key)
  {
    SameItemsShareTheirName(x, y, key);
  }

  /** The name of a patched item is that of the item it was. */
  lemma PatchedKeepsName(l: Json, r: Json, i: nat)
    requires l.Arr? && Good(l) && Good(r) && Compatible(l, r) && PartKey(l, r).Some? && PartsArePatched(l, r)
    requires i < |l.items|
    ensures var key := PartKey(l, r).value;
            var after := ItemsAfter(l, Over(l, r, key, AllNames(l, r, key)))[i];
            after.Null? || NameUnder(after, key) == NameUnder(l.items[i], key)
  {
    var key := PartKey(l, r).value;
    var n := NameUnder(l.items[i], key);
    PartsAreKeyed(l, r);
    ItemAfter(l, r, i);
    if Part(r, key, n).Some? {
      var y := r.items[FindLast(r.items, key, n).value];
      PartnerName(r.items, key, ItemsAfter(l, Over(l, r, key, AllNames(l, r, key)))[i], y);
    }
  }

  lemma ResultApart(l: Json, r: Json)
    requires l.Arr? && Good(l) && Good(r) && Compatible(l, r) && PartKey(l, r).Some? && PartsArePatched(l, r)
    ensures var key := PartKey(l, r).value; Apart(ResultItems(l, Over(l, r, key, AllNames(l, r, key))), key)
  {
    var key := PartKey(l, r).value;
    var cs := Over(l, r, key, AllNames(l, r, key));
    var names := seq(|l.items|, i requires 0 <= i < |l.items| => NameUnder(l.items[i], key));
    PartsAreKeyed(l, r);
    NamesAreTexts(l, r);
    AddedApart(l, r, AllNames(l, r, key));
    forall i | 0 <= i < |l.items| { PatchedKeepsName(l, r, i); }
    PresentApart(ItemsAfter(l, cs), names, key);
    forall x | x in Present(ItemsAfter(l, cs)) ensures Part(l, key, NameUnder(x, key)).Some? {
      var i :| 0 <= i < |names| && names[i] == NameUnder(x, key);
      assert l.items[i] in l.items;
      PartOfItem(l.items, key, l.items[i]);
    }
    ApartConcat(Present(ItemsAfter(l, cs)), Added(cs, Taken(l)), key);
  }

  lemma ResultNameIsThere(l: Json, r: Json, x: Json)
    requires l.Arr? && Good(l) && Good(r) && Compatible(l, r) && PartKey(l, r).Some? && PartsArePatched(l, r)
    requires var key := PartKey(l, r).value; x in ResultItems(l, Over(l, r, key, AllNames(l, r, key)))
    ensures r.Arr? && NameUnder(x, PartKey(l, r).value) in NamesIn(r.items, PartKey(l, r).value)
  {
    PartsAreKeyed(l, r);
    ResultHasPartner(l, r, x);
    var y :| y in r.items && Same(x, y);
    PartnerName(r.items, PartKey(l, r).value, x, y);
  }

  lemma RightNameIsThere(l: Json, r: Json, y: Json)
    requires l.Arr? && Good(l) && Good(r) && Compatible(l, r) && PartKey(l, r).Some? && PartsArePatched(l, r)
    requires r.Arr? && y in r.items
    ensures var key := PartKey(l, r).value;
            NameUnder(y, key) in NamesIn(ResultItems(l, Over(l, r, key, AllNames(l, r, key))), key)
  {
    var key := PartKey(l, r).value;
    var result := ResultItems(l, Over(l, r, key, AllNames(l, r, key)));
    PartsAreKeyed(l, r);
    RightHasPartner(l, r, y);
    var x :| x in Arr(result).items && Same(x, y);
    PartnerName(r.items, key, x, y);
  }

  lemma ResultNames(l: Json, r: Json)
    requires l.Arr? && Good(l) && Good(r) && Compatible(l, r) && PartKey(l, r).Some? && PartsArePatched(l, r)
    ensures var key := PartKey(l, r).value;
            r.Arr? && NamesIn(ResultItems(l, Over(l, r, key, AllNames(l, r, key))), key) == NamesIn(r.items, key)
  {
    var key := PartKey(l, r).value;
    var result := ResultItems(l, Over(l, r, key, AllNames(l, r, key)));
    PartsAreKeyed(l, r);
    forall x | x in result { ResultNameIsThere(l, r, x); }
    forall y | y in r.items { RightNameIsThere(l, r, y); }
  }

  lemma ResultLength(l: Json, r: Json)
    requires l.Arr? && Good(l) && Good(r) && Compatible(l, r) && PartKey(l, r).Some? && PartsArePatched(l, r)
    ensures var key := PartKey(l, r).value;
            r.Arr? && |ResultItems(l, Over(l, r, key, AllNames(l, r, key)))| == |r.items|
  {
    var key := PartKey(l, r).value;
    PartsAreKeyed(l, r);
    ResultApart(l, r);
    ResultNames(l, r);
    NamesCount(ResultItems(l, Over(l, r, key, AllNames(l, r, key))), key);
    NamesCount(r.items, key);
  }

  lemma ItemsArePatched(l: Json, r: Json)
    requires l.Arr? && Good(l) && Good(r) && Compatible(l, r) && PartKey(l, r).Some? && PartsArePatched(l, r)
    ensures Same(Patched(l, AllChanges(l, r)), r)
  {
    var key := PartKey(l, r).value;
    var result := ResultItems(l, Over(l, r, key, AllNames(l, r, key)));
    PatchedList(l, r);
    forall x | x in result ensures IsAmong(x, r.items) { ResultHasPartner(l, r, x); }
    forall y | y in r.items ensures Covers(Arr(result), y) { RightHasPartner(l, r, y); }
    ResultLength(l, r);
    SameLists(result, r.items);
  }

  lemma SameLists(a: seq<Json>, b: seq<Json>)
    requires Good(Arr(b)) && (b != [] ==> ListKey(b).Some?) && |a| == |b|
    requires forall x :: x in a ==> IsAmong(x, b)
    requires forall y :: y in b ==> Covers(Arr(a), y)
    ensures Same(Arr(a), Arr(b))
  {
    assert a == [] || a[0] in a;
  }

  /** Between good documents whose lists are keyed alike, the changes are a patch: made to the left
      document, they give the right one, up to the order of keyed lists. */
  lemma {:induction false} DiffIsPatch(l: Json, r: Json)
    requires Good(l) && Good(r) && Compatible(l, r)
    ensures Same(Patched(l, AllChanges(l, r)), r)
    decreases l
  {
    if PartKey(l, r).None? {
      SameAsItself(r);
      PatchedLeaf(l, r);
    } else {
      var key := PartKey(l, r).value;
      if l.Arr? { PartsAreKeyed(l, r); }
      forall n | Part(l, key, n).Some? && Part(r, key, n).Some?
        ensures Same(Patched(Part(l, key, n).value, Between(l, r, key, n)), Part(r, key, n).value)
      {
        PartsAreGood(l, key, n);
        PartsAreGood(r, key, n);
        DiffIsPatch(Part(l, key, n).value, Part(r, key, n).value);
      }
      if l.Obj? { FieldsArePatched(l, r); } else { ItemsArePatched(l, r); }
    }
  }

  lemma PatchedLeaf(l: Json, r: Json)
    requires PartKey(l, r).None?
    ensures Patched(l, Leaf(l, r)) == r || (Patched(l, Leaf(l, r)) == l && PyEq(l, r))
  {
  }

  // ---- No change means equal ----

  lemma {:induction false} OverNothing(l: Json, r: Json, key: string, names: seq<Name>)
    requires forall n :: n in names ==> Between(l, r, key, n) == []
    ensures Over(l, r, key, names) == []
  {
    if names != [] { OverNothing(l, r, key, names[..|names| - 1]); }
  }

  lemma PartnersAreParts(l: seq<Json>, r: seq<Json>, key: string, x: Json, y: Json)
    requires Keyed(l, key) && Keyed(r, key) && x in l && y in r && Same(x, y)
    ensures Part(Arr(r), key, NameUnder(x, key)) == Some(y) && Part(Arr(l), key, NameUnder(y, key)) == Some(x)
  {
    PartnerName(r, key, x, y);
    PartOfItem(l, key, x);
    PartOfItem(r, key, y);
  }

  lemma SameListsShareTheirParts(l: Json, r: Json, key: string, n: Name)
    requires l.Arr? && r.Arr? && Keyed(l.items, key) && Keyed(r.items, key)
    requires PartKey(l, r) == Some(key) && Same(l, r)
    ensures Part(l, key, n).Some? <==> Part(r, key, n).Some?
    ensures Part(l, key, n).Some? ==> Same(Part(l, key, n).value, Part(r, key, n).value)
  {
    if Part(l, key, n).Some? {
      var x := Part(l, key, n).value;
      assert IsAmong(x, r.items);
      var y :| y in r.items && Same(x, y);
      PartnersAreParts(l.items, r.items, key, x, y);
    } else if Part(r, key, n).Some? {
      var y := Part(r, key, n).value;
      assert Covers(l, y);
      var x :| x in l.items && Same(x, y);
      PartnersAreParts(l.items, r.items, key, x, y);
    }
  }

  lemma {:induction false} SameHasNoChanges(l: Json, r: Json)
    requires Good(l) && Good(r) && Compatible(l, r) && Same(l, r)
    ensures AllChanges(l, r) == []
    decreases l
  {
    if PartKey(l, r).Some? {
      var key := PartKey(l, r).value;
      var names := AllNames(l, r, key);
      if l.Arr? { PartsAreKeyed(l, r); }
      forall n | n in names ensures Between(l, r, key, n) == [] {
        if l.Arr? { SameListsShareTheirParts(l, r, key, n); }
        PartsAreGood(l, key, n);
        PartsAreGood(r, key, n);
        SameHasNoChanges(Part(l, key, n).value, Part(r, key, n).value);
      }
      OverNothing(l, r, key, names);
    }
  }

  /** Between such documents the diff is empty exactly when they are equal. */
  lemma NoChangesIffSame(l: Json, r: Json)
    requires Good(l) && Good(r) && Compatible(l, r)
    ensures AllChanges(l, r) == [] <==> Same(l, r)
  {
    DiffIsPatch(l, r);
    if Same(l, r) { SameHasNoChanges(l, r); }
  }

  /** The sides differ, and have no parts that could be compared instead. */
  predicate IsDeepest(left: Json, right: Json) { !PyEq(left, right) && PartKey(left, right).None? }

  /** Every reported change is one, as deep as it can be told. */
  lemma {:induction false} ChangesAreDeepest(l: Json, r: Json, c: Change)
    requires c in AllChanges(l, r)
    ensures IsDeepest(c.left, c.right)
    decreases l, 1
  {
    if PartKey(l, r).Some? {
      var key := PartKey(l, r).value;
      OverHas(l, r, key, AllNames(l, r, key), c);
      var d := c.(path := c.path[1..]);
      var n :| n in AllNames(l, r, key) && TextOf(n) == c.path[0] && d in Between(l, r, key, n);
      DeepestBetween(l, r, key, n, d);
    }
  }

  lemma {:induction false} DeepestBetween(l: Json, r: Json, key: string, n: Name, c: Change)
    requires c in Between(l, r, key, n)
    ensures IsDeepest(c.left, c.right)
    decreases l, 0
  {
    if Part(l, key, n).Some? && Part(r, key, n).Some? {
      ChangesAreDeepest(Part(l, key, n).value, Part(r, key, n).value, c);
    }
  }

  // ---- The diff the other way round ----

  /** The same changes with their sides exchanged. */
  function Flipped(cs: seq<Change>): seq<Change> {
    seq(|cs|, i requires 0 <= i < |cs| => Change(cs[i].path, cs[i].right, cs[i].left))
  }

  lemma FlippedConcat(a: seq<Change>, b: seq<Change>)
    ensures Flipped(a + b) == Flipped(a) + Flipped(b)
  {
  }

  lemma FlippedPrefixed(segment: string, cs: seq<Change>)
    ensures Flipped(Prefixed(segment, cs)) == Prefixed(segment, Flipped(cs))
  {
  }

  lemma {:induction false} OverFlips(l: Json, r: Json, key: string, names: seq<Name>)
    requires forall n :: n in names ==> Between(r, l, key, n) == Flipped(Between(l, r, key, n))
    ensures Over(r, l, key, names) == Flipped(Over(l, r, key, names))
  {
    if names != [] {
      var last := |names| - 1;
      OverFlips(l, r, key, names[..last]);
      FlippedConcat(Over(l, r, key, names[..last]), Prefixed(TextOf(names[last]), Between(l, r, key, names[last])));
      FlippedPrefixed(TextOf(names[last]), Between(l, r, key, names[last]));
    }
  }

  /** Lists keyed alike have one diff, whichever side is called left. */
  lemma {:induction false} DiffFlips(l: Json, r: Json)
    requires Compatible(l, r)
    ensures AllChanges(r, l) == Flipped(AllChanges(l, r)) && Compatible(r, l)
    decreases l, 1
  {
    assert PartKey(l, r) == PartKey(r, l);
    if PartKey(l, r).Some? {
      var key := PartKey(l, r).value;
      forall n ensures Between(r, l, key, n) == Flipped(Between(l, r, key, n)) { BetweenFlips(l, r, key, n); }
      forall n | Part(r, key, n).Some? && Part(l, key, n).Some?
        ensures Compatible(Part(r, key, n).value, Part(l, key, n).value)
      {
        DiffFlips(Part(l, key, n).value, Part(r, key, n).value);
      }
      assert PartNames(l, key) + PartNames(r, key) == PartNames(r, key) + PartNames(l, key);
      OverFlips(l, r, key, AllNames(l, r, key));
    }
  }

  lemma {:induction false} BetweenFlips(l: Json, r: Json, key: string, n: Name)
    requires Compatible(l, r) && PartKey(l, r) == Some(key)
    ensures Between(r, l, key, n) == Flipped(Between(l, r, key, n))
    decreases l, 0
  {
    if Part(l, key, n).Some? && Part(r, key, n).Some? { DiffFlips(Part(l, key, n).value, Part(r, key, n).value); }
  }

  /** So the changes can be undone: with their sides exchanged they lead from the right document back to the
      left one. */
  lemma DiffIsUndone(l: Json, r: Json)
    requires Good(l) && Good(r) && Compatible(l, r)
    ensures Same(Patched(r, Flipped(AllChanges(l, r))), l)
  {
    DiffFlips(l, r);
    DiffIsPatch(r, l);
  }

  // ---- Where the diff is not a patch ----

  lemma {:induction false} NothingChangesFromItself(j: Json)
    ensures AllChanges(j, j) == []
  {
    if PartKey(j, j).Some? {
      var key := PartKey(j, j).value;
      var names := AllNames(j, j, key);
      forall n | n in names ensures Between(j, j, key, n) == [] {
        NothingChangesFromItself(Part(j, key, n).value);
      }
      OverNothing(j, j, key, names);
    }
  }

  lemma OnlyThePart(x: Json, y: Json, key: string, n: Name)
    requires y.Obj? && !x.Obj?
    ensures Part(Arr([x, y]), key, n) == Part(Arr([y]), key, n) == if n == NameUnder(y, key) then Some(y) else None
  {
    assert [x, y][..1] == [x] && [y][..0] == [] && [x][..0] == [];
    assert FindLast([x], key, n) == None;
    assert FindLast([y], key, n) == if n == NameUnder(y, key) then Some(0) else None;
    assert FindLast([x, y], key, n) == if n == NameUnder(y, key) then Some(1) else None;
  }

  lemma NothingReported(x: Json, y: Json)
    requires ItemKey(y).Some? && !x.Obj?
    ensures AllChanges(Arr([x, y]), Arr([y])) == []
  {
    var (l, r, key) := (Arr([x, y]), Arr([y]), ItemKey(y).value);
    assert ListKey(l.items) == None && ListKey(r.items) == Some(key);
    forall n | n in AllNames(l, r, key) ensures Between(l, r, key, n) == [] {
      OnlyThePart(x, y, key, n);
      NothingChangesFromItself(y);
    }
    OverNothing(l, r, key, AllNames(l, r, key));
  }

  /** A plain list against a keyed one: what is not a mapping is lost without a change to say so. */
  lemma PlainAgainstKeyed(x: Json, y: Json)
    requires ItemKey(y).Some? && !x.Obj?
    ensures AllChanges(Arr([x, y]), Arr([y])) == []
    ensures !Same(Arr([x, y]), Arr([y]))
  {
    NothingReported(x, y);
    assert PartKey(Arr([x, y]), Arr([y])).Some?;
  }
}
