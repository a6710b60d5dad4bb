/** Literal values inside schemas, as in an enum: the translation of vendor_schema.py rewrites them like
    schemas, and here is which it leaves alone. */
module SchemaLiterals {
  import opened JsonValues
  import opened Text
  import opened SchemaTranslation

  /** Nothing in it is a key that is dropped, a boolean exclusive bound, or a reference to a component. */
  ghost predicate Untouched(v: Json) {
    match v
    case Arr(items) => forall i :: 0 <= i < |items| ==> Untouched(items[i])
    case Obj(m) =>
      forall k :: k in m ==>
        && k !in DROPPED && !(IsExclusive(k) && m[k].Bool?)
        && if k == "$ref" && m[k].Str? then !Contains(m[k].s, COMPONENTS) else Untouched(m[k])
    case _ => true
  }

  lemma {:induction false} UntouchedIsTranslatable(v: Json)
    requires Untouched(v)
    ensures Translatable(v)
  {
    match v {
      case Arr(items) => forall i | 0 <= i < |items| { UntouchedIsTranslatable(items[i]); }
      case Obj(m) =>
        forall k | k in m && k !in DROPPED ensures Translatable(m[k]) {
          if !(k == "$ref" && m[k].Str?) { UntouchedIsTranslatable(m[k]); }
        }
      case _ =>
    }
  }

  /** Replacing by something shorter shortens. */
  lemma {:induction false} ReplaceShortens(s: string)
    ensures |Replace(s, COMPONENTS, DEFS)| <= |s|
    ensures Contains(s, COMPONENTS) ==> |Replace(s, COMPONENTS, DEFS)| < |s|
    decreases |s|
  {
    if |s| >= |COMPONENTS| {
      if s[..|COMPONENTS|] == COMPONENTS {
        ReplaceShortens(s[|COMPONENTS|..]);
      } else {
        ReplaceShortens(s[1..]);
        if Contains(s, COMPONENTS) { ContainsLater(s); }
      }
    }
  }

  lemma ContainsLater(s: string)
    requires Contains(s, COMPONENTS) && |s| >= |COMPONENTS| && s[..|COMPONENTS|] != COMPONENTS
    ensures Contains(s[1..], COMPONENTS)
  {
    var i: nat :| OccursAt(s, COMPONENTS, i);
    assert i > 0;
    assert s[1..][i - 1..i - 1 + |COMPONENTS|] == s[i..i + |COMPONENTS|];
    assert OccursAt(s[1..], COMPONENTS, i - 1);
  }

  lemma RefUntouchedIff(s: string)
    ensures Replace(s, COMPONENTS, DEFS) == s <==> !Contains(s, COMPONENTS)
  {
    if Contains(s, COMPONENTS) { ReplaceShortens(s); } else { ReplaceAbsent(s, COMPONENTS, DEFS); }
  }

  /** A field that is left alone survives as it is. */
  lemma FieldStays(v: Json, k: string)
    requires Translatable(v) && v.Obj? && k in v.fields && k !in DROPPED
    requires forall x :: x in v.fields ==> x !in DROPPED && !(IsExclusive(x) && v.fields[x].Bool?)
    ensures k in ToDraft(v).fields
    ensures ToDraft(v).fields[k]
            == if k == "$ref" && v.fields[k].Str? then Str(Replace(v.fields[k].s, COMPONENTS, DEFS))
               else ToDraft(v.fields[k])
  {
    DraftFields(v, k);
    assert !IsTrue(v.fields, "nullable") by { assert "nullable" in DROPPED; }
    assert IsExclusive("exclusiveMinimum") && IsExclusive("exclusiveMaximum");
    assert !Replaced(v.fields, k) && !TakesNull(v.fields, k);
  }

  /** A translation that changes nothing dropped nothing and moved no bound. */
  lemma NothingDropped(v: Json, k: string)
    requires Translatable(v) && v.Obj? && k in v.fields && ToDraft(v) == v
    ensures k !in DROPPED && !(IsExclusive(k) && v.fields[k].Bool?)
  {
    DraftFields(v, k);
    if BoundOf(k) in v.fields { DraftFields(v, BoundOf(k)); }
  }

  /** Exactly these values does the translation leave as they are. */
  lemma {:induction false} UntouchedIff(v: Json)
    requires Translatable(v)
    ensures Untouched(v) <==> ToDraft(v) == v
  {
    match v {
      case Arr(items) =>
        forall i | 0 <= i < |items| ensures Untouched(items[i]) <==> ToDraft(items[i]) == items[i] {
          UntouchedIff(items[i]);
        }
        ItemsStayIff(v);
      case Obj(m) =>
        forall k | k in m && k !in DROPPED { UntouchedIff(m[k]); }
        if Untouched(v) { UntouchedStays(v); }
        if ToDraft(v) == v { StaysUntouched(v); }
      case _ =>
    }
  }

  lemma ItemsStayIff(v: Json)
    requires Translatable(v) && v.Arr?
    ensures ToDraft(v) == v <==> forall i :: 0 <= i < |v.items| ==> ToDraft(v.items[i]) == v.items[i]
  {
    assert |ToDraft(v).items| == |v.items|;
    assert forall i :: 0 <= i < |v.items| ==> ToDraft(v).items[i] == ToDraft(v.items[i]);
    if forall i :: 0 <= i < |v.items| ==> ToDraft(v.items[i]) == v.items[i] { assert ToDraft(v).items == v.items; }
  }

  lemma UntouchedStays(v: Json)
    requires Translatable(v) && v.Obj? && Untouched(v)
    requires forall k :: k in v.fields && k !in DROPPED ==>
               (Untouched(v.fields[k]) <==> ToDraft(v.fields[k]) == v.fields[k])
    ensures ToDraft(v) == v
  {
    var d := ToDraft(v).fields;
    forall k | k in v.fields ensures k in d && d[k] == v.fields[k] {
      FieldStays(v, k);
      if k == "$ref" && v.fields[k].Str? { RefUntouchedIff(v.fields[k].s); }
    }
    forall k | k in d ensures k in v.fields { DraftFields(v, k); }
    assert d == v.fields;
  }

  lemma StaysUntouched(v: Json)
    requires Translatable(v) && v.Obj? && ToDraft(v) == v
    requires forall k :: k in v.fields && k !in DROPPED ==>
               (Untouched(v.fields[k]) <==> ToDraft(v.fields[k]) == v.fields[k])
    ensures Untouched(v)
  {
    forall k | k in v.fields ensures k !in DROPPED && !(IsExclusive(k) && v.fields[k].Bool?) { NothingDropped(v, k); }
    forall k | k in v.fields
      ensures if k == "$ref" && v.fields[k].Str? then !Contains(v.fields[k].s, COMPONENTS) else Untouched(v.fields[k])
    {
      FieldStays(v, k);
      if k == "$ref" && v.fields[k].Str? { RefUntouchedIff(v.fields[k].s); }
    }
  }

  /** Literal values of scalars, as in an ordinary enum, are never rewritten. */
  lemma ScalarsUntouched(items: seq<Json>)
    requires forall v :: v in items ==> !v.Obj? && !v.Arr?
    ensures Untouched(Arr(items)) && Translatable(Arr(items)) && ToDraft(Arr(items)) == Arr(items)
  {
    forall i | 0 <= i < |items| ensures Untouched(items[i]) { assert items[i] in items; }
    UntouchedIsTranslatable(Arr(items));
    UntouchedIff(Arr(items));
  }

  // ---- The translation only ever lightens a value ----

  ghost function Sum(keys: set<string>, c: string -> nat): nat {
    if keys == {} then 0 else
      var k := SomeKey(keys);
      c(k) + Sum(keys - {k}, c)
  }

  /** Some key; which one does not matter. */
  ghost function SomeKey(keys: set<string>): (k: string)
    requires keys != {}
    ensures k in keys
  {
    var k :| k in keys;
    k
  }

  lemma {:induction false} SumRemove(keys: set<string>, c: string -> nat, k: string)
    requires k in keys
    ensures Sum(keys, c) == c(k) + Sum(keys - {k}, c)
    decreases |keys|
  {
    var p := SomeKey(keys);
    if p != k {
      SumRemove(keys - {p}, c, k);
      SumRemove(keys - {k}, c, p);
      assert keys - {p} - {k} == keys - {k} - {p};
    }
  }

  /** The terms go one to one to terms no smaller. */
  ghost predicate Injects(a: set<string>, ca: string -> nat, b: set<string>, cb: string -> nat, g: string -> string) {
    && (forall k :: k in a ==> g(k) in b && ca(k) <= cb(g(k)))
    && (forall k, l :: k in a && l in a && g(k) == g(l) ==> k == l)
  }

  /** Such terms add up to no more ... */
  lemma {:induction false} SumInject(a: set<string>, ca: string -> nat, b: set<string>, cb: string -> nat,
                                     g: string -> string)
    requires Injects(a, ca, b, cb, g)
    ensures Sum(a, ca) <= Sum(b, cb)
    decreases |a|
  {
    if a != {} {
      var k := SomeKey(a);
      SumRemove(b, cb, g(k));
      SumInject(a - {k}, ca, b - {g(k)}, cb, g);
    }
  }

  /** ... and to strictly less if a term is missed or grew. */
  lemma SumInjectStrict(a: set<string>, ca: string -> nat, b: set<string>, cb: string -> nat,
                        g: string -> string, x: string)
    requires Injects(a, ca, b, cb, g)
    requires x in b && cb(x) > 0 && forall k :: k in a && g(k) == x ==> ca(k) < cb(x)
    ensures Sum(a, ca) < Sum(b, cb)
  {
    SumRemove(b, cb, x);
    if k :| k in a && g(k) == x {
      SumRemove(a, ca, k);
      SumInject(a - {k}, ca, b - {x}, cb, g);
    } else {
      SumInject(a, ca, b - {x}, cb, g);
    }
  }

  /** How many keys a value has at all depths, and how long its references are. */
  ghost function Weight(j: Json): nat
    decreases j, 3
  {
    match j
    case Arr(items) => ItemsWeight(j, |items|)
    case Obj(m) => Sum(m.Keys, Weights(j))
    case _ => 0
  }

  ghost function Weights(j: Json): string -> nat
    requires j.Obj?
    decreases j, 2
  {
    k => if k in j.fields then FieldWeight(j, k) else 0
  }

  ghost function ItemsWeight(j: Json, n: nat): nat
    requires j.Arr? && n <= |j.items|
    decreases j, 1, n
  {
    if n == 0 then 0 else ItemsWeight(j, n - 1) + Weight(j.items[n - 1])
  }

  ghost function FieldWeight(j: Json, k: string): nat
    requires j.Obj? && k in j.fields
    decreases j, 1, 0
  {
    1 + if k == "$ref" && j.fields[k].Str? then |j.fields[k].s| else Weight(j.fields[k])
  }

  /** Where the weight of a surviving field came from: a strict bound carries what the inclusive one held. */
  function Source(m: map<string, Json>, k: string): string {
    if k in m && IsExclusive(k) && m[k].Bool? then BoundOf(k) else k
  }

  lemma SourceIs(v: Json, k: string)
    requires Translatable(v) && v.Obj? && k in ToDraft(v).fields
    ensures k in v.fields && Source(v.fields, k) in v.fields && k !in DROPPED
    ensures forall l :: l in ToDraft(v).fields && Source(v.fields, k) == Source(v.fields, l) ==> k == l
  {
    DraftFields(v, k);
    forall l | l in ToDraft(v).fields && Source(v.fields, k) == Source(v.fields, l) ensures k == l {
      DraftFields(v, l);
    }
  }

  lemma NullWeighsNothing(kind: Json)
    requires kind.Str? || kind.Arr?
    ensures Weight(WithNull(kind)) == Weight(kind)
  {
    var w := WithNull(kind);
    if kind.Str? {
      assert ItemsWeight(w, 2) == ItemsWeight(w, 1) + Weight(w.items[1]);
      assert ItemsWeight(w, 1) == ItemsWeight(w, 0) + Weight(w.items[0]);
    } else {
      SameItemsWeigh(kind, w, |kind.items|);
      assert ItemsWeight(w, |w.items|) == ItemsWeight(w, |kind.items|) + Weight(Str("null"));
    }
  }

  lemma {:induction false} SameItemsWeigh(a: Json, b: Json, n: nat)
    requires a.Arr? && b.Arr? && n <= |a.items| && n <= |b.items| && a.items[..n] == b.items[..n]
    ensures ItemsWeight(a, n) == ItemsWeight(b, n)
  {
    if n > 0 {
      assert a.items[n - 1] == a.items[..n][n - 1] == b.items[..n][n - 1] == b.items[n - 1];
      assert a.items[..n - 1] == a.items[..n][..n - 1] == b.items[..n][..n - 1] == b.items[..n - 1];
      SameItemsWeigh(a, b, n - 1);
    }
  }

  ghost predicate Lightened(v: Json)
    requires Translatable(v)
  {
    Weight(ToDraft(v)) <= Weight(v) && (!Untouched(v) ==> Weight(ToDraft(v)) < Weight(v))
  }

  /** The translation makes no value heavier, and every value lighter that it does not leave alone. */
  lemma {:induction false} TranslationLightens(v: Json)
    requires Translatable(v)
    ensures Lightened(v)
    decreases v, 3
  {
    match v {
      case Arr(items) =>
        forall i | 0 <= i < |items| ensures Lightened(items[i]) { TranslationLightens(items[i]); }
        ItemsLighten(v, |items|);
        if i :| 0 <= i < |items| && !Untouched(items[i]) { TouchedItemsLighten(v, |items|, i); }
      case Obj(m) =>
        forall k | k in m && k !in DROPPED ensures Lightened(m[k]) { TranslationLightens(m[k]); }
        FieldsLighten(v);
      case _ =>
    }
  }

  lemma ItemLightens(v: Json, n: nat)
    requires Translatable(v) && v.Arr? && 0 < n <= |v.items| && Lightened(v.items[n - 1])
    ensures |ToDraft(v).items| == |v.items|
    ensures var (d, last) := (ItemsWeight(ToDraft(v), n) - ItemsWeight(ToDraft(v), n - 1), v.items[n - 1]);
            d <= Weight(last) && (!Untouched(last) ==> d < Weight(last))
    ensures ItemsWeight(v, n) == ItemsWeight(v, n - 1) + Weight(v.items[n - 1])
  {
    assert ToDraft(v).items[n - 1] == ToDraft(v.items[n - 1]);
  }

  lemma {:induction false} ItemsLighten(v: Json, n: nat)
    requires Translatable(v) && v.Arr? && n <= |v.items|
    requires forall i :: 0 <= i < |v.items| ==> Lightened(v.items[i])
    ensures |ToDraft(v).items| == |v.items| && ItemsWeight(ToDraft(v), n) <= ItemsWeight(v, n)
  {
    if n > 0 {
      ItemsLighten(v, n - 1);
      ItemLightens(v, n);
    }
  }

  lemma {:induction false} TouchedItemsLighten(v: Json, n: nat, i: nat)
    requires Translatable(v) && v.Arr? && i < n <= |v.items| && !Untouched(v.items[i])
    requires forall i :: 0 <= i < |v.items| ==> Lightened(v.items[i])
    ensures |ToDraft(v).items| == |v.items| && ItemsWeight(ToDraft(v), n) < ItemsWeight(v, n)
  {
    ItemLightens(v, n);
    if i == n - 1 { ItemsLighten(v, n - 1); } else { TouchedItemsLighten(v, n - 1, i); }
  }

  /** One field against its source. */
  lemma FieldLightens(v: Json, k: string)
    requires Translatable(v) && v.Obj? && k in ToDraft(v).fields
    requires forall x :: x in v.fields && x !in DROPPED ==> Lightened(v.fields[x])
    ensures k in v.fields && Source(v.fields, k) in v.fields
    ensures FieldWeight(ToDraft(v), k) <= FieldWeight(v, Source(v.fields, k))
    ensures Source(v.fields, k) == k && (if k == "$ref" && v.fields[k].Str? then Contains(v.fields[k].s, COMPONENTS)
                                         else !Untouched(v.fields[k]))
            ==> FieldWeight(ToDraft(v), k) < FieldWeight(v, k)
  {
    SourceIs(v, k);
    DraftFields(v, k);
    var m := v.fields;
    if k == "$ref" && m[k].Str? {
      ReplaceShortens(m[k].s);
      assert ToDraft(v).fields[k] == Str(Replace(m[k].s, COMPONENTS, DEFS));
    } else if IsExclusive(k) && m[k].Bool? {
      assert ToDraft(v).fields[k] == m[BoundOf(k)] && k != "$ref" && BoundOf(k) != "$ref";
    } else {
      var d := ToDraft(m[k]);
      if TakesNull(m, k) { NullWeighsNothing(d); }
      assert k == "$ref" ==> !d.Str?;
      assert Weight(ToDraft(v).fields[k]) == Weight(d);
    }
  }

  lemma FieldsLighten(v: Json)
    requires Translatable(v) && v.Obj?
    requires forall x :: x in v.fields && x !in DROPPED ==> Lightened(v.fields[x])
    ensures Lightened(v)
  {
    var g := k => Source(v.fields, k);
    FieldsHaveSources(v, g);
    SumInject(ToDraft(v).fields.Keys, Weights(ToDraft(v)), v.fields.Keys, Weights(v), g);
    if !Untouched(v) { TouchedLightens(v, g); }
  }

  lemma FieldsHaveSources(v: Json, g: string -> string)
    requires Translatable(v) && v.Obj? && forall k :: g(k) == Source(v.fields, k)
    requires forall x :: x in v.fields && x !in DROPPED ==> Lightened(v.fields[x])
    ensures Injects(ToDraft(v).fields.Keys, Weights(ToDraft(v)), v.fields.Keys, Weights(v), g)
  {
    forall k | k in ToDraft(v).fields.Keys
      ensures g(k) in v.fields.Keys && Weights(ToDraft(v))(k) <= Weights(v)(g(k))
    {
      SourceIs(v, k);
      FieldLightens(v, k);
    }
    forall k, l | k in ToDraft(v).fields.Keys && l in ToDraft(v).fields.Keys && g(k) == g(l) ensures k == l {
      SourceIs(v, k);
    }
  }

  lemma TouchedLightens(v: Json, g: string -> string)
    requires Translatable(v) && v.Obj? && !Untouched(v) && forall k :: g(k) == Source(v.fields, k)
    requires forall x :: x in v.fields && x !in DROPPED ==> Lightened(v.fields[x])
    ensures Weight(ToDraft(v)) < Weight(v)
  {
    FieldsHaveSources(v, g);
    var x := Touched(v);
    assert Weights(v)(x) == FieldWeight(v, x) > 0;
    forall k | k in ToDraft(v).fields.Keys && g(k) == x ensures Weights(ToDraft(v))(k) < Weights(v)(x) {
      SourceIs(v, k);
      FieldLightens(v, k);
    }
    SumInjectStrict(ToDraft(v).fields.Keys, Weights(ToDraft(v)), v.fields.Keys, Weights(v), g, x);
  }

  /** A field by which a value is touched: dropped, moved, or changed. */
  lemma Touched(v: Json) returns (x: string)
    requires v.Obj? && !Untouched(v)
    ensures x in v.fields
    ensures forall k :: k in v.fields && Source(v.fields, k) == x && k !in DROPPED ==>
              k == x && (if k == "$ref" && v.fields[k].Str? then Contains(v.fields[k].s, COMPONENTS)
                         else !Untouched(v.fields[k]))
  {
    var m := v.fields;
    if x0 :| x0 in m && (x0 in DROPPED || (IsExclusive(x0) && m[x0].Bool?)) {
      x := x0;
    } else {
      x :| x in m && if x == "$ref" && m[x].Str? then Contains(m[x].s, COMPONENTS) else !Untouched(m[x]);
    }
  }

  // ---- Lists of literals ----

  lemma {:induction false} HeaviestTouched(items: seq<Json>) returns (v: Json)
    requires exists u :: u in items && !Untouched(u)
    ensures v in items && !Untouched(v)
    ensures forall u :: u in items && !Untouched(u) ==> Weight(u) <= Weight(v)
  {
    var u :| u in items && !Untouched(u);
    if w :| w in items[1..] && !Untouched(w) {
      v := HeaviestTouched(items[1..]);
      if !Untouched(items[0]) && Weight(items[0]) > Weight(v) { v := items[0]; }
    } else {
      v := items[0];
    }
    assert items == [items[0]] + items[1..];
  }

  /** A list holds the same values after the translation exactly when it leaves every one of them alone. */
  lemma SameValuesIff(items: seq<Json>)
    requires Translatable(Arr(items))
    ensures (forall v :: v in items <==> v in ToDraft(Arr(items)).items) <==> forall v :: v in items ==> Untouched(v)
  {
    var out := ToDraft(Arr(items)).items;
    assert |out| == |items| && forall i :: 0 <= i < |items| ==> out[i] == ToDraft(items[i]);
    if forall v :: v in items ==> Untouched(v) {
      forall i | 0 <= i < |items| ensures out[i] == items[i] { UntouchedIff(items[i]); }
      assert out == items;
    } else {
      var v := HeaviestTouched(items);
      if v in out {
        var i :| 0 <= i < |out| && out[i] == v;
        assert items[i] in items;
        TranslationLightens(items[i]);
        UntouchedIff(items[i]);
      }
    }
  }
}
