/** Which schemas are vendored (collect, vendor_schema.py): those reachable from the root through `$ref`,
    and that the bundle made of them is complete and means what the document meant. */
module SchemaClosure {
  import opened JsonValues
  import opened Options
  import opened Text
  import opened SchemaTranslation
  import opened SchemaMeaning

  // ---- References ----

  function RefsAt(j: Json, key: string): set<string>
    requires j.Obj? && key in j.fields
    decreases j, 0
  {
    if key == "$ref" && j.fields[key].Str? then {j.fields[key].s} else RefStrings(j.fields[key])
  }

  /** Every `$ref` string anywhere in a value. */
  function RefStrings(j: Json): set<string>
    decreases j, 1
  {
    match j
    case Arr(items) => set i, r | 0 <= i < |items| && r in RefStrings(items[i]) :: r
    case Obj(m) => set k, r | k in m && r in RefsAt(j, k) :: r
    case _ => {}
  }

  /** The part of a reference after its last slash. */
  function LastSegment(ref: string): string {
    if '/' !in ref then ref else LastSegment(ref[1..])
  }

  /** The names iter_refs yields. */
  function Refs(j: Json): set<string> {
    set r | r in RefStrings(j) :: LastSegment(r)
  }

  // ---- Reachability ----

  ghost predicate IsPath(schemas: map<string, Json>, p: seq<string>) {
    p != [] && forall i :: 0 <= i < |p| - 1 ==> p[i] in schemas && p[i + 1] in Refs(schemas[p[i]])
  }

  ghost predicate Reachable(schemas: map<string, Json>, root: string, name: string) {
    exists p :: IsPath(schemas, p) && p[0] == root && p[|p| - 1] == name
  }

  lemma ReachesItself(schemas: map<string, Json>, root: string)
    ensures Reachable(schemas, root, root)
  {
    assert IsPath(schemas, [root]);
    assert [root][0] == root && [root][|[root]| - 1] == root;
  }

  /** Reachable from a reference of the root is reachable from the root. */
  lemma ReachesOn(schemas: map<string, Json>, root: string, ref: string, name: string)
    requires root in schemas && ref in Refs(schemas[root]) && Reachable(schemas, ref, name)
    ensures Reachable(schemas, root, name)
  {
    var p :| IsPath(schemas, p) && p[0] == ref && p[|p| - 1] == name;
    var q := [root] + p;
    forall i | 0 <= i < |q| - 1 ensures q[i] in schemas && q[i + 1] in Refs(schemas[q[i]]) {
      if i > 0 { assert q[i] == p[i - 1] && q[i + 1] == p[(i - 1) + 1]; }
    }
    assert IsPath(schemas, q) && q[0] == root && q[|q| - 1] == name;
  }

  // ---- The depth-first walk over shared sets ----

  class Walk {
    const schemas: map<string, Json>
    var seen: set<string>
    var missing: set<string>

    constructor (schemas: map<string, Json>)
      ensures this.schemas == schemas && seen == {} && missing == {}
    {
      this.schemas := schemas;
      seen, missing := {}, {};
    }

    /** Both sets only hold names of their kind. */
    ghost predicate Classified()
      reads this
    {
      seen <= schemas.Keys && missing !! schemas.Keys
    }

    /** Every schema entered since `before` has all its references entered as well. */
    ghost predicate ClosedSince(before: set<string>)
      reads this
    {
      forall n, r :: n in seen && n !in before && n in schemas && r in Refs(schemas[n]) ==> r in seen || r in missing
    }

    method Collect(name: string)
      requires Classified()
      modifies this
      ensures Classified() && old(seen) <= seen && old(missing) <= missing
      ensures name in seen || name in missing
      ensures ClosedSince(old(seen))
      ensures forall n :: n in seen - old(seen) || n in missing - old(missing) ==> Reachable(schemas, name, n)
      decreases schemas.Keys - seen
    {
      if name in seen {
        return;
      }
      ReachesItself(schemas, name);
      if name !in schemas {
        missing := missing + {name};
        return;
      }
      seen := seen + {name};
      var refs := Refs(schemas[name]);
      var rest := refs;
      while rest != {}
        invariant rest <= refs && Classified() && old(seen) + {name} <= seen && old(missing) <= missing
        invariant forall r :: r in refs - rest ==> r in seen || r in missing
        invariant ClosedSince(old(seen) + {name})
        invariant forall n :: n in seen - old(seen) || n in missing - old(missing) ==> Reachable(schemas, name, n)
        decreases |rest|
      {
        var ref :| ref in rest;
        rest := rest - {ref};
        ghost var seenBefore, missingBefore := seen, missing;
        Collect(ref);
        forall n | n in seen - old(seen) || n in missing - old(missing) ensures Reachable(schemas, name, n) {
          if n in seen - seenBefore || n in missing - missingBefore { ReachesOn(schemas, name, ref, n); }
        }
      }
    }

    /** From empty sets: exactly the defined and the undefined names reachable from the root. */
    method CollectAll(root: string)
      requires seen == {} && missing == {}
      modifies this
      ensures forall n :: n in seen <==> n in schemas && Reachable(schemas, root, n)
      ensures forall n :: n in missing <==> n !in schemas && Reachable(schemas, root, n)
    {
      Collect(root);
      forall n | Reachable(schemas, root, n) ensures n in seen || n in missing {
        var p :| IsPath(schemas, p) && p[0] == root && p[|p| - 1] == n;
        ClosedUnderPaths(schemas, seen, missing, p);
      }
    }
  }

  lemma {:induction false} ClosedUnderPaths(schemas: map<string, Json>, seen: set<string>, missing: set<string>,
                                           p: seq<string>)
    requires missing !! schemas.Keys && IsPath(schemas, p) && (p[0] in seen || p[0] in missing)
    requires forall n, r :: n in seen && n in schemas && r in Refs(schemas[n]) ==> r in seen || r in missing
    ensures p[|p| - 1] in seen || p[|p| - 1] in missing
    decreases |p|
  {
    if |p| > 1 {
      assert p[0 + 1] in Refs(schemas[p[0]]);
      var q := p[1..];
      forall i | 0 <= i < |q| - 1 ensures q[i] in schemas && q[i + 1] in Refs(schemas[q[i]]) {
        assert p[(i + 1) + 1] in Refs(schemas[p[i + 1]]);
      }
      ClosedUnderPaths(schemas, seen, missing, q);
    }
  }

  // ---- The references that are left in the bundle ----

  /** No bound that is moved to an exclusive keyword is a container, so none smuggles a reference past the
      rewriting. */
  ghost predicate ScalarBounds(j: Json) {
    match j
    case Arr(items) => forall i :: 0 <= i < |items| ==> ScalarBounds(items[i])
    case Obj(m) =>
      && (forall k :: k in m ==> ScalarBounds(m[k]))
      && forall k :: k in m && IsExclusive(k) && m[k].Bool? && BoundOf(k) in m ==>
           !m[BoundOf(k)].Arr? && !m[BoundOf(k)].Obj?
    case _ => true
  }

  function Rewritten(ref: string): string { Replace(ref, COMPONENTS, DEFS) }

  /** The references that the translation does not drop with the key they stand under. */
  function LeftRefsAt(j: Json, key: string): set<string>
    requires j.Obj? && key in j.fields
    decreases j, 0
  {
    if !Survives(j.fields, key) || (IsExclusive(key) && j.fields[key].Bool?) then {}
    else if key == "$ref" && j.fields[key].Str? then {j.fields[key].s}
    else LeftRefs(j.fields[key])
  }

  function LeftRefs(j: Json): set<string>
    decreases j, 1
  {
    match j
    case Arr(items) => set i, r | 0 <= i < |items| && r in LeftRefs(items[i]) :: r
    case Obj(m) => set k, r | k in m && r in LeftRefsAt(j, k) :: r
    case _ => {}
  }

  lemma {:induction false} LeftRefsAreRefs(j: Json, q: string)
    requires q in LeftRefs(j)
    ensures q in RefStrings(j)
  {
    match j
    case Arr(items) =>
      var i :| 0 <= i < |items| && q in LeftRefs(items[i]);
      LeftRefsAreRefs(items[i], q);
    case Obj(m) =>
      var k :| k in m && q in LeftRefsAt(j, k);
      if !(k == "$ref" && m[k].Str?) { LeftRefsAreRefs(m[k], q); }
      assert q in RefsAt(j, k);
    case _ =>
  }

  /** The references in the translation are the rewritings of those that are left. */
  lemma {:induction false} RefsAreRewritten(j: Json, r: string)
    requires Translatable(j) && ScalarBounds(j)
    ensures r in RefStrings(ToDraft(j)) <==> exists q :: q in LeftRefs(j) && r == Rewritten(q)
    decreases j
  {
    match j
    case Arr(items) => ItemRefsAreRewritten(j, r);
    case Obj(m) => FieldRefsAreRewritten(j, r);
    case _ =>
  }

  lemma ItemRefsAreRewritten(j: Json, r: string)
    requires Translatable(j) && ScalarBounds(j) && j.Arr?
    ensures r in RefStrings(ToDraft(j)) <==> exists q :: q in LeftRefs(j) && r == Rewritten(q)
    decreases j, 0
  {
    forall i | 0 <= i < |j.items|
      ensures r in RefStrings(ToDraft(j).items[i]) <==> exists q :: q in LeftRefs(j.items[i]) && r == Rewritten(q)
    {
      RefsAreRewritten(j.items[i], r);
    }
    if r in RefStrings(ToDraft(j)) {
      var i :| 0 <= i < |j.items| && r in RefStrings(ToDraft(j).items[i]);
      var q :| q in LeftRefs(j.items[i]) && r == Rewritten(q);
      assert q in LeftRefs(j);
    }
  }

  lemma FieldRefsAreRewritten(j: Json, r: string)
    requires Translatable(j) && ScalarBounds(j) && j.Obj?
    ensures r in RefStrings(ToDraft(j)) <==> exists q :: q in LeftRefs(j) && r == Rewritten(q)
    decreases j, 0
  {
    if k :| k in ToDraft(j).fields && r in RefsAt(ToDraft(j), k) {
      DraftFields(j, k);
      RefsAtRewritten(j, k, r);
      var q :| q in LeftRefsAt(j, k) && r == Rewritten(q);
      assert q in LeftRefs(j);
    }
    if q :| q in LeftRefs(j) && r == Rewritten(q) {
      var k :| k in j.fields && q in LeftRefsAt(j, k);
      DraftFields(j, k);
      RefsAtRewritten(j, k, r);
      assert r in RefsAt(ToDraft(j), k);
    }
  }

  lemma ExclusiveHasNoRefs(j: Json, k: string)
    requires Translatable(j) && ScalarBounds(j) && j.Obj? && k in j.fields && Survives(j.fields, k)
    requires IsExclusive(k) && j.fields[k].Bool? && k in ToDraft(j).fields
    ensures RefsAt(ToDraft(j), k) == {}
  {
    DraftFields(j, k);
    assert k != "type" && k != "$ref" && DraftField(j, k) == j.fields[BoundOf(k)];
    assert RefStrings(j.fields[BoundOf(k)]) == {};
  }

  lemma RefsAtRewritten(j: Json, k: string, r: string)
    requires Translatable(j) && ScalarBounds(j) && j.Obj? && k in j.fields && Survives(j.fields, k)
    requires k in ToDraft(j).fields
    ensures r in RefsAt(ToDraft(j), k) <==> exists q :: q in LeftRefsAt(j, k) && r == Rewritten(q)
    decreases j, 0, 0
  {
    var m := j.fields;
    DraftFields(j, k);
    if k == "$ref" && m[k].Str? {
      assert EnteredValue(j, k) == Str(Rewritten(m[k].s));
      assert k != "type" && LeftRefsAt(j, k) == {m[k].s};
      assert RefsAt(ToDraft(j), k) == {Rewritten(m[k].s)};
    } else if IsExclusive(k) && m[k].Bool? {
      ExclusiveHasNoRefs(j, k);
    } else {
      var v := ToDraft(m[k]);
      if TakesNull(m, k) { NullHasNoRefs(v, r); }
      assert k == "$ref" ==> !v.Str?;
      assert LeftRefsAt(j, k) == LeftRefs(m[k]);
      RefsAreRewritten(m[k], r);
    }
  }

  lemma NullHasNoRefs(kind: Json, r: string)
    requires kind.Str? || kind.Arr?
    ensures r in RefStrings(WithNull(kind)) <==> r in RefStrings(kind)
  {
    var ks := WithNull(kind).items;
    assert ks[|ks| - 1] == Str("null") && RefStrings(Str("null")) == {};
    if kind.Str? {
      assert |ks| == 2 && ks[0] == kind;
    } else {
      assert forall i :: 0 <= i < |kind.items| ==> ks[i] == kind.items[i];
    }
  }

  /** A reference to a component, by a name without slashes. */
  ghost predicate ToComponent(ref: string, names: set<string>) {
    COMPONENTS <= ref && ref[|COMPONENTS|..] in names && '/' !in ref[|COMPONENTS|..]
  }

  lemma {:induction false} LastSegmentIs(a: string, name: string)
    requires '/' !in name
    ensures LastSegment(a + ['/'] + name) == name
    decreases |a|
  {
    var r := a + ['/'] + name;
    assert r[|a|] == '/';
    if a == [] {
      assert r[1..] == name;
    } else {
      assert r[1..] == a[1..] + ['/'] + name;
      LastSegmentIs(a[1..], name);
    }
  }

  lemma ComponentChars(s: string, i: nat)
    requires OccursAt(s, COMPONENTS, i)
    ensures i + |COMPONENTS| <= |s| && s[i] == '#' && s[i + 1] == '/' && s[i + 2] == 'c'
  {
    var w := s[i..i + |COMPONENTS|];
    assert w[0] == s[i] && w[1] == s[i + 1] && w[2] == s[i + 2];
  }

  lemma ToComponentIs(ref: string, names: set<string>)
    requires ToComponent(ref, names)
    ensures LastSegment(ref) == ref[|COMPONENTS|..]
    ensures Rewritten(ref) == DEFS + LastSegment(ref)
    ensures LocalRef(names, ref)
  {
    var name := ref[|COMPONENTS|..];
    var a := COMPONENTS[..|COMPONENTS| - 1];
    assert COMPONENTS == a + ['/'];
    assert ref == a + ['/'] + name;
    LastSegmentIs(a, name);
    forall i: nat ensures !OccursAt(name, COMPONENTS, i) {
      if OccursAt(name, COMPONENTS, i) { ComponentChars(name, i); }
    }
    LocalRefTarget(names, ref);
  }

  // ---- Which references resolve after the rewriting ----

  lemma StartsRewritten(s: string)
    requires |s| >= |COMPONENTS| && s[..|COMPONENTS|] == COMPONENTS
    ensures |Rewritten(s)| >= 2 && Rewritten(s)[0] == '#' && '/' in Rewritten(s)
  {
    assert Rewritten(s)[1] == '/';
  }

  lemma {:induction false} NoSlashUntouched(s: string)
    requires '/' !in Rewritten(s)
    ensures Rewritten(s) == s
    decreases |s|
  {
    if |s| >= |COMPONENTS| && s[..|COMPONENTS|] == COMPONENTS {
      StartsRewritten(s);
    } else if |s| >= |COMPONENTS| {
      assert Rewritten(s) == [s[0]] + Rewritten(s[1..]);
      assert forall i :: 0 <= i < |Rewritten(s[1..])| ==> Rewritten(s[1..])[i] == Rewritten(s)[i + 1];
      NoSlashUntouched(s[1..]);
    }
  }

  lemma Peel(s: string, c: char, t: string)
    requires Rewritten(s) == [c] + t && c != '#'
    ensures s != "" && s[0] == c && Rewritten(s[1..]) == t
  {
    assert Rewritten(s)[0] == c && Rewritten(s)[1..] == t;
    if |s| >= |COMPONENTS| && s[..|COMPONENTS|] == COMPONENTS {
      StartsRewritten(s);
    } else if |s| < |COMPONENTS| {
      assert Rewritten(s) == s;
      assert Rewritten(s[1..]) == s[1..];
    }
  }

  /** After the rewriting a reference resolves to a slash-free name exactly when it named that component, or
      was already written for the bundle. */
  lemma ResolvesIff(ref: string, name: string)
    requires '/' !in name
    ensures Rewritten(ref) == DEFS + name <==> ref == COMPONENTS + name || ref == DEFS + name
  {
    if ref == COMPONENTS + name {
      assert ref[|COMPONENTS|..] == name;
      ToComponentIs(ref, {name});
    }
    if ref == DEFS + name {
      assert ref[2] == '$' && forall k :: 1 <= k < 8 ==> ref[k] == DEFS[k] && DEFS[k] != '#';
      assert forall k :: 8 <= k < |ref| ==> ref[k] == name[k - 8];
      forall i: nat ensures !OccursAt(ref, COMPONENTS, i) {
        if OccursAt(ref, COMPONENTS, i) { ComponentChars(ref, i); }
      }
      ReplaceAbsent(ref, COMPONENTS, DEFS);
    }
    if Rewritten(ref) == DEFS + name {
      if |ref| >= |COMPONENTS| && ref[..|COMPONENTS|] == COMPONENTS {
        var rest := ref[|COMPONENTS|..];
        assert Rewritten(ref) == DEFS + Rewritten(rest);
        assert Rewritten(rest) == Rewritten(ref)[|DEFS|..] == name;
        NoSlashUntouched(rest);
        assert ref == COMPONENTS + rest;
      } else {
        AlreadyRewritten(ref, name);
      }
    }
  }

  lemma AlreadyRewritten(ref: string, name: string)
    requires '/' !in name && Rewritten(ref) == DEFS + name
    requires !(|ref| >= |COMPONENTS| && ref[..|COMPONENTS|] == COMPONENTS)
    ensures ref == DEFS + name
  {
    assert ref != "";
    assert Rewritten(ref) == [ref[0]] + Rewritten(ref[1..]) by {
      if |ref| < |COMPONENTS| { assert Rewritten(ref[1..]) == ref[1..]; }
    }
    assert Rewritten(ref[1..]) == Rewritten(ref)[1..] == "/$defs/" + name;
    PeelAll(ref[1..], "/$defs/", name);
    assert ref[0] == Rewritten(ref)[0] == '#';
    assert ref == ['#'] + ref[1..];
    assert ['#'] + ("/$defs/" + name) == DEFS + name;
  }

  /** Text before the name that cannot start a component reference was there before. */
  lemma {:induction false} PeelAll(s: string, front: string, name: string)
    requires '/' !in name && '#' !in front && Rewritten(s) == front + name
    ensures s == front + name
    decreases |front|
  {
    if front == "" {
      assert front + name == name;
      NoSlashUntouched(s);
    } else {
      assert front + name == [front[0]] + (front[1..] + name);
      Peel(s, front[0], front[1..] + name);
      PeelAll(s[1..], front[1..], name);
      assert s == [s[0]] + s[1..];
    }
  }

  // ---- The vendored bundle ----

  /** The definitions of the bundle: the translation of every schema the root reaches. */
  ghost predicate IsBundle(schemas: map<string, Json>, root: string, defs: map<string, Json>) {
    && (forall n :: n in defs <==> Reachable(schemas, root, n))
    && (forall n :: n in defs ==> n in schemas && Translatable(schemas[n]) && defs[n] == ToDraft(schemas[n]))
  }

  /** The bundle, or None when a reference leads to no schema. */
  method Vendor(schemas: map<string, Json>, root: string) returns (defs: Option<map<string, Json>>)
    requires forall n :: n in schemas && Reachable(schemas, root, n) ==> Translatable(schemas[n])
    ensures defs.None? <==> exists n :: Reachable(schemas, root, n) && n !in schemas
    ensures defs.Some? ==> IsBundle(schemas, root, defs.value)
  {
    var walk := new Walk(schemas);
    walk.CollectAll(root);
    if walk.missing != {} {
      ghost var n :| n in walk.missing;
      assert Reachable(schemas, root, n) && n !in schemas;
      return None;
    }
    return Some(map n | n in walk.seen :: ToDraft(schemas[n]));
  }

  lemma {:induction false} LastSegmentHasNoSlash(ref: string)
    ensures '/' !in LastSegment(ref)
  {
    if '/' in ref { LastSegmentHasNoSlash(ref[1..]); }
  }

  /** A reference of the bundle resolves when it points at one of its definitions. */
  ghost predicate Resolves(defs: map<string, Json>, r: string) {
    exists n :: n in defs && '/' !in n && r == DEFS + n
  }

  predicate NamesASchema(q: string) { q == COMPONENTS + LastSegment(q) || q == DEFS + LastSegment(q) }

  lemma ResolvesIfNames(schemas: map<string, Json>, root: string, defs: map<string, Json>, n: string, q: string)
    requires IsBundle(schemas, root, defs) && n in defs && q in RefStrings(schemas[n])
    ensures Resolves(defs, Rewritten(q)) <==> NamesASchema(q)
  {
    var name := LastSegment(q);
    LastSegmentHasNoSlash(q);
    ResolvesIff(q, name);
    assert name in Refs(schemas[n]);
    ReachesNext(schemas, root, n, name);
    if Resolves(defs, Rewritten(q)) {
      var other :| other in defs && '/' !in other && Rewritten(q) == DEFS + other;
      ResolvesIff(q, other);
      NamedLast(q, other);
    }
  }

  lemma NamedLast(q: string, name: string)
    requires '/' !in name && (q == COMPONENTS + name || q == DEFS + name)
    ensures LastSegment(q) == name
  {
    var (c, d) := (COMPONENTS[..|COMPONENTS| - 1], DEFS[..|DEFS| - 1]);
    assert COMPONENTS == c + ['/'] && DEFS == d + ['/'];
    LastSegmentIs(c, name);
    LastSegmentIs(d, name);
  }

  ghost predicate AllResolve(defs: map<string, Json>) {
    forall n, r :: n in defs && r in RefStrings(defs[n]) ==> Resolves(defs, r)
  }

  ghost predicate AllNameSchemas(schemas: map<string, Json>, defs: map<string, Json>)
    requires defs.Keys <= schemas.Keys
  {
    forall n, q :: n in defs && q in LeftRefs(schemas[n]) ==> NamesASchema(q)
  }

  lemma NamedOnesResolve(schemas: map<string, Json>, root: string, defs: map<string, Json>, n: string, r: string)
    requires IsBundle(schemas, root, defs) && AllNameSchemas(schemas, defs)
    requires n in defs && ScalarBounds(schemas[n]) && r in RefStrings(defs[n])
    ensures Resolves(defs, r)
  {
    RefsAreRewritten(schemas[n], r);
    var q :| q in LeftRefs(schemas[n]) && r == Rewritten(q);
    LeftRefsAreRefs(schemas[n], q);
    ResolvesIfNames(schemas, root, defs, n, q);
  }

  lemma ResolvedOnesName(schemas: map<string, Json>, root: string, defs: map<string, Json>, n: string, q: string)
    requires IsBundle(schemas, root, defs) && AllResolve(defs)
    requires n in defs && ScalarBounds(schemas[n]) && q in LeftRefs(schemas[n])
    ensures NamesASchema(q)
  {
    RefsAreRewritten(schemas[n], Rewritten(q));
    assert Rewritten(q) in RefStrings(defs[n]);
    LeftRefsAreRefs(schemas[n], q);
    ResolvesIfNames(schemas, root, defs, n, q);
  }

  /** With nothing missing, every reference of the bundle resolves exactly when every reference that is left
      in a reachable schema names a component schema, or is already in the form of the bundle. */
  lemma BundleIsComplete(schemas: map<string, Json>, root: string, defs: map<string, Json>)
    requires IsBundle(schemas, root, defs) && forall n :: n in defs ==> ScalarBounds(schemas[n])
    ensures AllResolve(defs) <==> AllNameSchemas(schemas, defs)
  {
    if AllNameSchemas(schemas, defs) {
      forall n, r | n in defs && r in RefStrings(defs[n]) ensures Resolves(defs, r) {
        NamedOnesResolve(schemas, root, defs, n, r);
      }
    }
    if AllResolve(defs) {
      forall n, q | n in defs && q in LeftRefs(schemas[n]) ensures NamesASchema(q) {
        ResolvedOnesName(schemas, root, defs, n, q);
      }
    }
  }

  /** The set of names may shrink to those actually referenced. */
  lemma {:induction false} FaithfulNarrow(all: set<string>, seen: set<string>, s: Json)
    requires Faithful(all, s) && Refs(s) <= seen
    requires forall r :: r in RefStrings(s) ==> ToComponent(r, all)
    ensures Faithful(seen, s)
    decreases s
  {
    if s.Obj? {
      var m := s.fields;
      if IsRef(m) {
        assert m["$ref"].s in RefsAt(s, "$ref");
        assert m["$ref"].s in RefStrings(s);
        ToComponentIs(m["$ref"].s, all);
        assert LastSegment(m["$ref"].s) in Refs(s);
      }
      forall k | k in m && k in SCHEMA_KEYS ensures Faithful(seen, m[k]) {
        SubRefs(s, k);
        FaithfulNarrow(all, seen, m[k]);
      }
      forall k, a | k in m && k in SCHEMA_LISTS && m[k].Arr? && 0 <= a < |m[k].items|
        ensures Faithful(seen, m[k].items[a])
      {
        SubRefs(s, k);
        assert RefStrings(m[k].items[a]) <= RefStrings(m[k]);
        FaithfulNarrow(all, seen, m[k].items[a]);
      }
      if "properties" in m && m["properties"].Obj? {
        forall p | p in m["properties"].fields ensures Faithful(seen, m["properties"].fields[p]) {
          SubRefs(s, "properties");
          SubRefs(m["properties"], p);
          FaithfulNarrow(all, seen, m["properties"].fields[p]);
        }
      }
    }
  }

  lemma SubRefs(s: Json, k: string)
    requires s.Obj? && k in s.fields
    requires !(k == "$ref" && s.fields[k].Str?)
    ensures RefStrings(s.fields[k]) <= RefStrings(s)
    ensures Refs(s.fields[k]) <= Refs(s)
  {
    forall r | r in RefStrings(s.fields[k]) ensures r in RefStrings(s) { assert r in RefsAt(s, k); }
  }

  /** What may be vendored without a change of meaning: schemas within the conditions, whose references all
      name components. */
  ghost predicate Vendorable(env: Env, draft: Env, root: string) {
    && env.dialect.OpenApi? && draft.dialect.Draft2020? && env.plain == draft.plain
    && IsBundle(env.schemas, root, draft.schemas)
    && forall n :: n in draft.schemas ==>
         && Faithful(env.schemas.Keys, env.schemas[n])
         && forall r :: r in RefStrings(env.schemas[n]) ==> ToComponent(r, env.schemas.Keys)
  }

  /** What main vendors: the root is valid for the same instances in the bundle as in the document, to every
      depth of reference. */
  lemma VendoredMeansTheSame(env: Env, draft: Env, root: string, fuel: nat, inst: Json)
    requires Vendorable(env, draft, root)
    ensures Valid(env, fuel, Obj(map["$ref" := Str(COMPONENTS + root)]), inst)
            <==> Valid(draft, fuel, Obj(map["$ref" := Str(DEFS + root)]), inst)
  {
    var seen := draft.schemas.Keys;
    forall n | n in seen ensures Faithful(seen, env.schemas[n]) {
      forall r | r in Refs(env.schemas[n]) ensures r in seen {
        ReachesNext(env.schemas, root, n, r);
      }
      FaithfulNarrow(env.schemas.Keys, seen, env.schemas[n]);
    }
    ReachesItself(env.schemas, root);
    RootKept(env, draft, root, fuel, inst);
  }

  /** So the root accepts the same instances. */
  lemma VendoredAcceptsTheSame(env: Env, draft: Env, root: string, inst: Json)
    requires Vendorable(env, draft, root)
    ensures Accepts(env, Obj(map["$ref" := Str(COMPONENTS + root)]), inst)
            <==> Accepts(draft, Obj(map["$ref" := Str(DEFS + root)]), inst)
  {
    var s, d := Obj(map["$ref" := Str(COMPONENTS + root)]), Obj(map["$ref" := Str(DEFS + root)]);
    forall fuel: nat ensures Valid(env, fuel, s, inst) <==> Valid(draft, fuel, d, inst) {
      VendoredMeansTheSame(env, draft, root, fuel, inst);
    }
    AcceptAlike(env, s, draft, d, inst);
  }

  lemma RootKept(env: Env, draft: Env, root: string, fuel: nat, inst: Json)
    requires Bundled(env, draft) && root in draft.schemas
    ensures Valid(env, fuel, Obj(map["$ref" := Str(COMPONENTS + root)]), inst)
            <==> Valid(draft, fuel, Obj(map["$ref" := Str(DEFS + root)]), inst)
  {
    if fuel > 0 { MeaningKept(env, draft, fuel - 1, env.schemas[root], inst); }
    ComponentRoot(env, root, fuel, inst);
    DraftRoot(draft, root, fuel, inst);
  }

  /** A lone reference is what it names, one level down. */
  lemma ComponentRoot(env: Env, root: string, fuel: nat, inst: Json)
    requires env.dialect.OpenApi? && root in env.schemas
    ensures Valid(env, fuel, Obj(map["$ref" := Str(COMPONENTS + root)]), inst)
            <==> (fuel > 0 ==> Valid(env, fuel - 1, env.schemas[root], inst))
  {
    assert (COMPONENTS + root)[|COMPONENTS|..] == root;
  }

  lemma DraftRoot(draft: Env, root: string, fuel: nat, inst: Json)
    requires draft.dialect.Draft2020? && root in draft.schemas
    ensures Valid(draft, fuel, Obj(map["$ref" := Str(DEFS + root)]), inst)
            <==> (fuel > 0 ==> Valid(draft, fuel - 1, draft.schemas[root], inst))
  {
    assert (DEFS + root)[|DEFS|..] == root;
    NotAssertion();
    NoAssertions(draft, fuel, Obj(map["$ref" := Str(DEFS + root)]), inst);
  }

  lemma NotAssertion()
    ensures !IsAssertion("$ref")
  {
  }

  lemma ReachesNext(schemas: map<string, Json>, root: string, n: string, r: string)
    requires n in schemas && Reachable(schemas, root, n) && r in Refs(schemas[n])
    ensures Reachable(schemas, root, r)
  {
    var p :| IsPath(schemas, p) && p[0] == root && p[|p| - 1] == n;
    var q := p + [r];
    forall i | 0 <= i < |q| - 1 ensures q[i] in schemas && q[i + 1] in Refs(schemas[q[i]]) {
      if i < |p| - 1 { assert q[i] == p[i] && q[i + 1] == p[i + 1]; }
    }
    assert IsPath(schemas, q) && q[0] == root && q[|q| - 1] == r;
  }
}
