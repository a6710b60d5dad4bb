/** What a schema accepts, in both dialects, and that the translation keeps it.

    The OpenAPI 3.0.1 reading: exclusive bounds are flags beside the inclusive ones, `nullable: true`
    beside a type adds null to it, and the siblings of a `$ref` are ignored.  The draft 2020-12 reading
    follows sections 6.1.1 and 6.2.2 to 6.2.5 of JSON Schema Validation and section 8.2.3.1 of JSON Schema
    Core, where the siblings of a `$ref` apply too. */
module SchemaMeaning {
  import opened JsonValues
  import opened Options
  import opened Text
  import opened SchemaLiterals
  import opened SchemaTranslation

  datatype Dialect = OpenApi | Draft2020

  /** `plain` gives the meaning of the keywords whose values are no schemas. */
  datatype Env = Env(dialect: Dialect, schemas: map<string, Json>, plain: (string, Json, Json) -> bool)

  const PLAIN: set<string> := {"required", "minLength", "maxLength", "pattern", "multipleOf", "minItems",
    "maxItems", "uniqueItems", "minProperties", "maxProperties", "format"}

  // ---- Keywords that look at the instance alone ----

  predicate IsType(name: string, inst: Json) {
    match inst
    case Null => name == "null"
    case Bool(_) => name == "boolean"
    case Num(n) => name == "number" || (name == "integer" && n.Floor as real == n)
    case Str(_) => name == "string"
    case Arr(_) => name == "array"
    case Obj(_) => name == "object"
  }

  predicate HasType(kind: Json, inst: Json) {
    match kind
    case Str(name) => IsType(name, inst)
    case Arr(kinds) => exists a :: 0 <= a < |kinds| && kinds[a].Str? && IsType(kinds[a].s, inst)
    case _ => true
  }

  predicate TypeOk(d: Dialect, m: map<string, Json>, inst: Json) {
    "type" in m ==> HasType(m["type"], inst) || (d.OpenApi? && IsTrue(m, "nullable") && inst.Null?)
  }

  predicate EnumOk(m: map<string, Json>, inst: Json) {
    "enum" in m && m["enum"].Arr? ==> inst in m["enum"].items
  }

  predicate LowerOk(d: Dialect, m: map<string, Json>, x: real) {
    && ("minimum" in m && m["minimum"].Num? ==>
          if d.OpenApi? && IsTrue(m, "exclusiveMinimum") then x > m["minimum"].n else x >= m["minimum"].n)
    && (d.Draft2020? && "exclusiveMinimum" in m && m["exclusiveMinimum"].Num? ==> x > m["exclusiveMinimum"].n)
  }

  predicate UpperOk(d: Dialect, m: map<string, Json>, x: real) {
    && ("maximum" in m && m["maximum"].Num? ==>
          if d.OpenApi? && IsTrue(m, "exclusiveMaximum") then x < m["maximum"].n else x <= m["maximum"].n)
    && (d.Draft2020? && "exclusiveMaximum" in m && m["exclusiveMaximum"].Num? ==> x < m["exclusiveMaximum"].n)
  }

  predicate PlainOk(env: Env, m: map<string, Json>, inst: Json) {
    forall k :: k in m && k in PLAIN ==> env.plain(k, m[k], inst)
  }

  predicate LeafOk(env: Env, m: map<string, Json>, inst: Json) {
    && TypeOk(env.dialect, m, inst)
    && EnumOk(m, inst)
    && (inst.Num? ==> LowerOk(env.dialect, m, inst.n) && UpperOk(env.dialect, m, inst.n))
    && PlainOk(env, m, inst)
  }

  // ---- Keywords that apply schemas ----

  function RefTarget(env: Env, ref: string): Option<Json> {
    var prefix := if env.dialect.OpenApi? then COMPONENTS else DEFS;
    if prefix <= ref && ref[|prefix|..] in env.schemas then Some(env.schemas[ref[|prefix|..]]) else None
  }

  predicate IsRef(m: map<string, Json>) { "$ref" in m && m["$ref"].Str? }

  /** References may be cyclic: `fuel` counts how many are followed, and those beyond it are taken to hold. */
  ghost predicate Valid(env: Env, fuel: nat, s: Json, inst: Json)
    decreases fuel, s, 4
  {
    match s
    case Bool(b) => b
    case Obj(m) =>
      if IsRef(m) then
        var target := RefTarget(env, m["$ref"].s);
        && target.Some? && (fuel > 0 ==> Valid(env, fuel - 1, target.value, inst))
        && (env.dialect.OpenApi? || Keywords(env, fuel, s, inst))
      else Keywords(env, fuel, s, inst)
    case _ => true
  }

  ghost predicate Keywords(env: Env, fuel: nat, s: Json, inst: Json)
    requires s.Obj?
    decreases fuel, s, 3
  {
    && LeafOk(env, s.fields, inst)
    && PropertiesOk(env, fuel, s, inst)
    && AdditionalOk(env, fuel, s, inst)
    && ItemsOk(env, fuel, s, inst)
    && ("not" in s.fields ==> !Valid(env, fuel, s.fields["not"], inst))
    && AllOfOk(env, fuel, s, inst)
    && AnyOfOk(env, fuel, s, inst)
    && OneOfOk(env, fuel, s, inst)
  }

  ghost predicate PropertiesOk(env: Env, fuel: nat, s: Json, inst: Json)
    requires s.Obj?
    decreases fuel, s, 2
  {
    "properties" in s.fields && s.fields["properties"].Obj? && inst.Obj? ==>
      forall k :: k in s.fields["properties"].fields && k in inst.fields ==>
        Valid(env, fuel, s.fields["properties"].fields[k], inst.fields[k])
  }

  predicate Declared(m: map<string, Json>, k: string) {
    "properties" in m && m["properties"].Obj? && k in m["properties"].fields
  }

  ghost predicate AdditionalOk(env: Env, fuel: nat, s: Json, inst: Json)
    requires s.Obj?
    decreases fuel, s, 2
  {
    "additionalProperties" in s.fields && inst.Obj? ==>
      forall k :: k in inst.fields && !Declared(s.fields, k) ==>
        Valid(env, fuel, s.fields["additionalProperties"], inst.fields[k])
  }

  ghost predicate ItemsOk(env: Env, fuel: nat, s: Json, inst: Json)
    requires s.Obj?
    decreases fuel, s, 2
  {
    "items" in s.fields && inst.Arr? ==>
      forall a :: 0 <= a < |inst.items| ==> Valid(env, fuel, s.fields["items"], inst.items[a])
  }

  ghost predicate AllOfOk(env: Env, fuel: nat, s: Json, inst: Json)
    requires s.Obj?
    decreases fuel, s, 2
  {
    "allOf" in s.fields && s.fields["allOf"].Arr? ==>
      forall a :: 0 <= a < |s.fields["allOf"].items| ==> Valid(env, fuel, s.fields["allOf"].items[a], inst)
  }

  ghost predicate AnyOfOk(env: Env, fuel: nat, s: Json, inst: Json)
    requires s.Obj?
    decreases fuel, s, 2
  {
    "anyOf" in s.fields && s.fields["anyOf"].Arr? ==>
      exists a :: 0 <= a < |s.fields["anyOf"].items| && Valid(env, fuel, s.fields["anyOf"].items[a], inst)
  }

  ghost predicate OneOfOk(env: Env, fuel: nat, s: Json, inst: Json)
    requires s.Obj?
    decreases fuel, s, 2
  {
    "oneOf" in s.fields && s.fields["oneOf"].Arr? ==>
      var items := s.fields["oneOf"].items;
      && (exists a :: 0 <= a < |items| && Valid(env, fuel, items[a], inst))
      && (forall a, b :: 0 <= a < b < |items| ==>
            !(Valid(env, fuel, items[a], inst) && Valid(env, fuel, items[b], inst)))
  }

  ghost predicate AcceptsFrom(env: Env, depth: nat, s: Json, inst: Json) {
    forall fuel: nat :: fuel >= depth ==> Valid(env, fuel, s, inst)
  }

  /** A schema accepts an instance when it is valid to every depth from some depth on. */
  ghost predicate Accepts(env: Env, s: Json, inst: Json) { exists depth :: AcceptsFrom(env, depth, s, inst) }

  lemma AcceptAlike(env: Env, s: Json, draft: Env, t: Json, inst: Json)
    requires forall fuel: nat :: Valid(env, fuel, s, inst) <==> Valid(draft, fuel, t, inst)
    ensures Accepts(env, s, inst) <==> Accepts(draft, t, inst)
  {
    if depth :| AcceptsFrom(env, depth, s, inst) { assert AcceptsFrom(draft, depth, t, inst); }
    if depth :| AcceptsFrom(draft, depth, t, inst) { assert AcceptsFrom(env, depth, s, inst); }
  }

  // ---- Where the translation is faithful ----

  const SCHEMA_KEYS: set<string> := {"additionalProperties", "items", "not"}
  const SCHEMA_LISTS: set<string> := {"allOf", "anyOf", "oneOf"}
  const LEAF_KEYS: set<string> := {"type", "enum", "minimum", "maximum", "exclusiveMinimum", "exclusiveMaximum"}

  predicate IsAssertion(k: string) {
    k in PLAIN || k in LEAF_KEYS || k in SCHEMA_KEYS || k in SCHEMA_LISTS || k == "properties"
  }

  /** A reference to one of the named component schemas. */
  ghost predicate LocalRef(names: set<string>, ref: string) {
    COMPONENTS <= ref && ref[|COMPONENTS|..] in names && !Contains(ref[|COMPONENTS|..], COMPONENTS)
  }

  /** The conditions on one schema object: a reference stands alone, properties are objects not named like a
      dropped key, exclusive bounds are flags, and the values of enum and of plain keywords hold nothing
      that the translation would rewrite. */
  ghost predicate NodeOk(names: set<string>, m: map<string, Json>) {
    && (IsRef(m) ==> LocalRef(names, m["$ref"].s) && forall k :: k in m ==> !IsAssertion(k))
    && (forall k :: k in m && IsExclusive(k) ==> m[k].Bool?)
    && (forall k :: k in m && (k in PLAIN || k == "enum") ==> Untouched(m[k]))
    && ("properties" in m && m["properties"].Obj? ==>
          forall p :: p in m["properties"].fields ==> p !in DROPPED && m["properties"].fields[p].Obj?)
  }

  ghost predicate Faithful(names: set<string>, s: Json)
    decreases s
  {
    s.Obj? ==>
      && NodeOk(names, s.fields)
      && (forall k :: k in s.fields && k in SCHEMA_KEYS ==> Faithful(names, s.fields[k]))
      && (forall k :: k in s.fields && k in SCHEMA_LISTS && s.fields[k].Arr? ==>
            forall a :: 0 <= a < |s.fields[k].items| ==> Faithful(names, s.fields[k].items[a]))
      && ("properties" in s.fields && s.fields["properties"].Obj? ==>
            forall p :: p in s.fields["properties"].fields ==> Faithful(names, s.fields["properties"].fields[p]))
  }

  // ---- Keyword by keyword ----

  predicate Ordinary(k: string) {
    k !in DROPPED && !IsExclusive(k) && k !in {"minimum", "maximum", "type", "$ref"}
  }

  lemma OrdinaryField(s: Json, k: string)
    requires Translatable(s) && s.Obj? && Ordinary(k)
    ensures k in s.fields <==> k in ToDraft(s).fields
    ensures k in s.fields ==> Translatable(s.fields[k]) && ToDraft(s).fields[k] == ToDraft(s.fields[k])
  {
    DraftFields(s, k);
    if k in s.fields {
      assert Entered(s.fields, k) && !Replaced(s.fields, k) && !TakesNull(s.fields, k);
      assert DraftField(s, k) == EnteredValue(s, k);
    }
  }

  lemma OrdinaryKeys()
    ensures forall k :: k in PLAIN || k in SCHEMA_KEYS || k in SCHEMA_LISTS ==> Ordinary(k)
    ensures Ordinary("enum") && Ordinary("properties")
  {
  }

  lemma TypeKept(s: Json, inst: Json)
    requires Translatable(s) && s.Obj?
    ensures TypeOk(OpenApi, s.fields, inst) <==> TypeOk(Draft2020, ToDraft(s).fields, inst)
  {
    var m, draft := s.fields, ToDraft(s).fields;
    if "type" in m {
      assert Survives(m, "type") && draft["type"] == DraftField(s, "type");
      assert EnteredValue(s, "type") == ToDraft(m["type"]);
      HasTypeKept(m["type"], inst);
      if IsTrue(m, "nullable") { HasTypeWithNull(ToDraft(m["type"]), inst); }
    } else {
      assert "type" !in draft;
    }
  }

  lemma HasTypeKept(kind: Json, inst: Json)
    requires Translatable(kind)
    ensures HasType(kind, inst) <==> HasType(ToDraft(kind), inst)
  {
    if kind.Arr? {
      assert |ToDraft(kind).items| == |kind.items|;
      assert forall a :: 0 <= a < |kind.items| ==> ToDraft(kind).items[a] == ToDraft(kind.items[a]);
    }
  }

  lemma HasTypeWithNull(kind: Json, inst: Json)
    requires kind.Str? || kind.Arr?
    ensures HasType(WithNull(kind), inst) <==> HasType(kind, inst) || inst.Null?
  {
    var ks := WithNull(kind).items;
    assert ks[|ks| - 1] == Str("null");
    if kind.Str? { assert ks[0] == kind; }
    else { assert forall a :: 0 <= a < |kind.items| ==> ks[a] == kind.items[a]; }
  }

  lemma EnumKept(names: set<string>, s: Json, inst: Json)
    requires Translatable(s) && s.Obj? && NodeOk(names, s.fields)
    ensures EnumOk(s.fields, inst) <==> EnumOk(ToDraft(s).fields, inst)
  {
    OrdinaryKeys();
    OrdinaryField(s, "enum");
    if "enum" in s.fields { UntouchedIff(s.fields["enum"]); }
  }

  lemma LowerKept(names: set<string>, s: Json, x: real)
    requires Translatable(s) && s.Obj? && NodeOk(names, s.fields)
    ensures LowerOk(OpenApi, s.fields, x) <==> LowerOk(Draft2020, ToDraft(s).fields, x)
  {
    BoundFields(s, "minimum", "exclusiveMinimum");
    assert IsExclusive("exclusiveMinimum");
  }

  lemma UpperKept(names: set<string>, s: Json, x: real)
    requires Translatable(s) && s.Obj? && NodeOk(names, s.fields)
    ensures UpperOk(OpenApi, s.fields, x) <==> UpperOk(Draft2020, ToDraft(s).fields, x)
  {
    BoundFields(s, "maximum", "exclusiveMaximum");
    assert IsExclusive("exclusiveMaximum");
  }

  lemma BoundFields(s: Json, low: string, flag: string)
    requires Translatable(s) && s.Obj?
    requires (low == "minimum" && flag == "exclusiveMinimum") || (low == "maximum" && flag == "exclusiveMaximum")
    ensures low in ToDraft(s).fields <==> low in s.fields && !IsTrue(s.fields, flag)
    ensures low in ToDraft(s).fields ==> ToDraft(s).fields[low] == ToDraft(s.fields[low])
    ensures flag in s.fields && s.fields[flag].Bool? ==>
              && (flag in ToDraft(s).fields <==> IsTrue(s.fields, flag) && low in s.fields && s.fields[low] != Null)
              && (flag in ToDraft(s).fields ==> ToDraft(s).fields[flag] == s.fields[low])
    ensures flag !in s.fields ==> flag !in ToDraft(s).fields
    ensures low in s.fields ==> Translatable(s.fields[low])
  {
    assert BoundOf(flag) == low && IsExclusive(flag) && !IsExclusive(low) && low != "$ref" && flag != "$ref";
    assert low != "type" && flag != "type";
    assert low !in DROPPED && flag !in DROPPED;
    DraftFields(s, low);
    DraftFields(s, flag);
    if low in s.fields { assert Entered(s.fields, low); }
  }

  lemma PlainKept(names: set<string>, env: Env, draftEnv: Env, s: Json, inst: Json)
    requires Translatable(s) && s.Obj? && NodeOk(names, s.fields) && env.plain == draftEnv.plain
    ensures PlainOk(env, s.fields, inst) <==> PlainOk(draftEnv, ToDraft(s).fields, inst)
  {
    OrdinaryKeys();
    forall k | k in PLAIN
      ensures k in s.fields <==> k in ToDraft(s).fields
      ensures k in s.fields ==> ToDraft(s).fields[k] == s.fields[k]
    {
      OrdinaryField(s, k);
      if k in s.fields { UntouchedIff(s.fields[k]); }
    }
  }

  lemma PropertyFields(props: Json, p: string)
    requires Translatable(props) && props.Obj?
    requires forall q :: q in props.fields ==> q !in DROPPED && props.fields[q].Obj?
    ensures p in props.fields <==> p in ToDraft(props).fields
    ensures p in props.fields ==> Translatable(props.fields[p]) && ToDraft(props).fields[p] == ToDraft(props.fields[p])
  {
    DraftFields(props, p);
    if p in props.fields {
      assert Entered(props.fields, p) && !Replaced(props.fields, p) && !TakesNull(props.fields, p);
      assert DraftField(props, p) == EnteredValue(props, p);
    }
  }

  // ---- Meaning is kept ----

  /** The bundle holds the translation of every named schema, and each of these is within the conditions. */
  ghost predicate Bundled(env: Env, draft: Env) {
    && env.dialect.OpenApi? && draft.dialect.Draft2020? && env.plain == draft.plain
    && forall n :: n in draft.schemas ==>
         n in env.schemas && Translatable(env.schemas[n]) && Faithful(draft.schemas.Keys, env.schemas[n])
         && draft.schemas[n] == ToDraft(env.schemas[n])
  }

  ghost predicate InScope(env: Env, draft: Env, s: Json) {
    Bundled(env, draft) && Translatable(s) && Faithful(draft.schemas.Keys, s)
  }

  /** An instance is valid under a schema, read as OpenAPI 3.0.1, exactly when it is valid under the
      translated schema, read as draft 2020-12, to every depth of reference. */
  lemma {:induction false} MeaningKept(env: Env, draft: Env, fuel: nat, s: Json, inst: Json)
    requires InScope(env, draft, s)
    ensures Valid(env, fuel, s, inst) <==> Valid(draft, fuel, ToDraft(s), inst)
    decreases fuel, s, 4
  {
    if s.Obj? {
      DraftFields(s, "$ref");
      if IsRef(s.fields) {
        RefMeaningKept(env, draft, fuel, s, inst);
      } else {
        NotRefKept(s);
        KeywordsKept(env, draft, fuel, s, inst);
      }
    }
  }

  /** So both schemas accept the same instances. */
  lemma AcceptanceKept(env: Env, draft: Env, s: Json, inst: Json)
    requires InScope(env, draft, s)
    ensures Accepts(env, s, inst) <==> Accepts(draft, ToDraft(s), inst)
  {
    forall fuel: nat ensures Valid(env, fuel, s, inst) <==> Valid(draft, fuel, ToDraft(s), inst) {
      MeaningKept(env, draft, fuel, s, inst);
    }
    AcceptAlike(env, s, draft, ToDraft(s), inst);
  }

  lemma NotRefKept(s: Json)
    requires Translatable(s) && s.Obj? && !IsRef(s.fields)
    ensures !IsRef(ToDraft(s).fields)
  {
    DraftFields(s, "$ref");
    if "$ref" in s.fields {
      assert Entered(s.fields, "$ref") && !Replaced(s.fields, "$ref") && !TakesNull(s.fields, "$ref");
      assert !IsExclusive("$ref");
    }
  }

  lemma LocalRefTarget(names: set<string>, ref: string)
    requires LocalRef(names, ref)
    ensures Replace(ref, COMPONENTS, DEFS) == DEFS + ref[|COMPONENTS|..]
    ensures DEFS <= Replace(ref, COMPONENTS, DEFS)
            && Replace(ref, COMPONENTS, DEFS)[|DEFS|..] == ref[|COMPONENTS|..]
  {
    var name := ref[|COMPONENTS|..];
    assert ref[..|COMPONENTS|] == COMPONENTS;
    ReplaceAbsent(name, COMPONENTS, DEFS);
  }

  /** A reference and its translation lead to a schema and its translation. */
  lemma RefTargets(env: Env, draft: Env, s: Json) returns (name: string)
    requires InScope(env, draft, s) && s.Obj? && IsRef(s.fields)
    ensures IsRef(ToDraft(s).fields) && name in draft.schemas && name in env.schemas
    ensures RefTarget(env, s.fields["$ref"].s) == Some(env.schemas[name])
    ensures RefTarget(draft, ToDraft(s).fields["$ref"].s) == Some(draft.schemas[name])
  {
    LocalRefTarget(draft.schemas.Keys, s.fields["$ref"].s);
    RefField(s);
    name := s.fields["$ref"].s[|COMPONENTS|..];
  }

  lemma NamedKept(env: Env, draft: Env, fuel: nat, name: string, inst: Json)
    requires Bundled(env, draft) && name in draft.schemas
    ensures name in env.schemas
    ensures Valid(env, fuel, env.schemas[name], inst) <==> Valid(draft, fuel, draft.schemas[name], inst)
    decreases fuel, env.schemas[name], 5
  {
    MeaningKept(env, draft, fuel, env.schemas[name], inst);
  }

  lemma RefMeans(env: Env, fuel: nat, s: Json, target: Json, inst: Json)
    requires s.Obj? && IsRef(s.fields) && RefTarget(env, s.fields["$ref"].s) == Some(target)
    ensures Valid(env, fuel, s, inst)
            <==> (fuel > 0 ==> Valid(env, fuel - 1, target, inst))
                 && (env.dialect.OpenApi? || Keywords(env, fuel, s, inst))
  {
  }

  lemma RefKept(env: Env, draft: Env, fuel: nat, s: Json, d: Json, name: string, inst: Json)
    requires s.Obj? && IsRef(s.fields) && d.Obj? && IsRef(d.fields) && name in env.schemas && name in draft.schemas
    requires RefTarget(env, s.fields["$ref"].s) == Some(env.schemas[name]) && env.dialect.OpenApi?
    requires RefTarget(draft, d.fields["$ref"].s) == Some(draft.schemas[name]) && Keywords(draft, fuel, d, inst)
    requires fuel > 0 ==>
               (Valid(env, fuel - 1, env.schemas[name], inst) <==> Valid(draft, fuel - 1, draft.schemas[name], inst))
    ensures Valid(env, fuel, s, inst) <==> Valid(draft, fuel, d, inst)
  {
    RefMeans(env, fuel, s, env.schemas[name], inst);
    RefMeans(draft, fuel, d, draft.schemas[name], inst);
  }

  lemma RefMeaningKept(env: Env, draft: Env, fuel: nat, s: Json, inst: Json)
    requires InScope(env, draft, s) && s.Obj? && IsRef(s.fields)
    ensures Valid(env, fuel, s, inst) <==> Valid(draft, fuel, ToDraft(s), inst)
    decreases fuel, s, 3
  {
    var name := RefTargets(env, draft, s);
    if fuel > 0 { NamedKept(env, draft, fuel - 1, name, inst); }
    RefStaysBare(env, draft, fuel, s, inst);
    RefKept(env, draft, fuel, s, ToDraft(s), name, inst);
  }

  lemma RefStaysBare(env: Env, draft: Env, fuel: nat, s: Json, inst: Json)
    requires InScope(env, draft, s) && s.Obj? && IsRef(s.fields)
    ensures ToDraft(s).Obj? && Keywords(draft, fuel, ToDraft(s), inst)
  {
    RefField(s);
    forall k | k in ToDraft(s).fields ensures !IsAssertion(k) { DraftFields(s, k); }
    NoAssertions(draft, fuel, ToDraft(s), inst);
  }

  lemma RefField(s: Json)
    requires Translatable(s) && s.Obj? && IsRef(s.fields)
    ensures IsRef(ToDraft(s).fields)
    ensures ToDraft(s).fields["$ref"].s == Replace(s.fields["$ref"].s, COMPONENTS, DEFS)
  {
    DraftFields(s, "$ref");
    assert !IsExclusive("$ref") && "$ref" !in DROPPED;
    assert Entered(s.fields, "$ref") && !Replaced(s.fields, "$ref") && !TakesNull(s.fields, "$ref");
  }

  lemma NoAssertions(env: Env, fuel: nat, s: Json, inst: Json)
    requires s.Obj? && forall k :: k in s.fields ==> !IsAssertion(k)
    ensures Keywords(env, fuel, s, inst)
  {
    assert IsAssertion("type") && IsAssertion("enum") && IsAssertion("minimum") && IsAssertion("maximum");
    assert IsAssertion("exclusiveMinimum") && IsAssertion("exclusiveMaximum") && IsAssertion("properties");
    assert IsAssertion("additionalProperties") && IsAssertion("items") && IsAssertion("not");
    assert IsAssertion("allOf") && IsAssertion("anyOf") && IsAssertion("oneOf");
    assert forall k :: k in PLAIN ==> IsAssertion(k);
  }

  lemma LeafKept(env: Env, draft: Env, s: Json, inst: Json)
    requires InScope(env, draft, s) && s.Obj?
    ensures LeafOk(env, s.fields, inst) <==> LeafOk(draft, ToDraft(s).fields, inst)
  {
    var names := draft.schemas.Keys;
    TypeKept(s, inst);
    EnumKept(names, s, inst);
    if inst.Num? { LowerKept(names, s, inst.n); UpperKept(names, s, inst.n); }
    PlainKept(names, env, draft, s, inst);
  }

  lemma KeywordsKept(env: Env, draft: Env, fuel: nat, s: Json, inst: Json)
    requires InScope(env, draft, s) && s.Obj?
    ensures Keywords(env, fuel, s, inst) <==> Keywords(draft, fuel, ToDraft(s), inst)
    decreases fuel, s, 3
  {
    LeafKept(env, draft, s, inst);
    PropertiesKept(env, draft, fuel, s, inst);
    AdditionalKept(env, draft, fuel, s, inst);
    ItemsKept(env, draft, fuel, s, inst);
    NotKept(env, draft, fuel, s, inst);
    AllOfKept(env, draft, fuel, s, inst);
    AnyOfKept(env, draft, fuel, s, inst);
    OneOfKept(env, draft, fuel, s, inst);
  }

  lemma PropertiesKept(env: Env, draft: Env, fuel: nat, s: Json, inst: Json)
    requires InScope(env, draft, s) && s.Obj?
    ensures PropertiesOk(env, fuel, s, inst) <==> PropertiesOk(draft, fuel, ToDraft(s), inst)
    decreases fuel, s, 2
  {
    OrdinaryKeys();
    OrdinaryField(s, "properties");
    if "properties" in s.fields && s.fields["properties"].Obj? && inst.Obj? {
      var props := s.fields["properties"];
      forall p | p in props.fields && p in inst.fields
        ensures p in ToDraft(props).fields
        ensures Valid(env, fuel, props.fields[p], inst.fields[p])
                <==> Valid(draft, fuel, ToDraft(props).fields[p], inst.fields[p])
      {
        PropertyFields(props, p);
        MeaningKept(env, draft, fuel, props.fields[p], inst.fields[p]);
      }
      forall p | p in ToDraft(props).fields ensures p in props.fields { PropertyFields(props, p); }
    }
  }

  lemma AdditionalKept(env: Env, draft: Env, fuel: nat, s: Json, inst: Json)
    requires InScope(env, draft, s) && s.Obj?
    ensures AdditionalOk(env, fuel, s, inst) <==> AdditionalOk(draft, fuel, ToDraft(s), inst)
    decreases fuel, s, 2
  {
    OrdinaryKeys();
    var key := "additionalProperties";
    assert key in SCHEMA_KEYS;
    OrdinaryField(s, key);
    OrdinaryField(s, "properties");
    if key in s.fields && inst.Obj? {
      forall k | k in inst.fields
        ensures Declared(s.fields, k) <==> Declared(ToDraft(s).fields, k)
        ensures Valid(env, fuel, s.fields[key], inst.fields[k])
                <==> Valid(draft, fuel, ToDraft(s).fields[key], inst.fields[k])
      {
        if "properties" in s.fields && s.fields["properties"].Obj? { PropertyFields(s.fields["properties"], k); }
        MeaningKept(env, draft, fuel, s.fields[key], inst.fields[k]);
      }
    }
  }

  lemma ItemsKept(env: Env, draft: Env, fuel: nat, s: Json, inst: Json)
    requires InScope(env, draft, s) && s.Obj?
    ensures ItemsOk(env, fuel, s, inst) <==> ItemsOk(draft, fuel, ToDraft(s), inst)
    decreases fuel, s, 2
  {
    OrdinaryKeys();
    assert "items" in SCHEMA_KEYS;
    OrdinaryField(s, "items");
    if "items" in s.fields && inst.Arr? {
      forall a | 0 <= a < |inst.items|
        ensures Valid(env, fuel, s.fields["items"], inst.items[a])
                <==> Valid(draft, fuel, ToDraft(s).fields["items"], inst.items[a])
      {
        MeaningKept(env, draft, fuel, s.fields["items"], inst.items[a]);
      }
    }
  }

  lemma NotKept(env: Env, draft: Env, fuel: nat, s: Json, inst: Json)
    requires InScope(env, draft, s) && s.Obj?
    ensures "not" in s.fields <==> "not" in ToDraft(s).fields
    ensures "not" in s.fields ==>
              (Valid(env, fuel, s.fields["not"], inst) <==> Valid(draft, fuel, ToDraft(s).fields["not"], inst))
    decreases fuel, s, 2
  {
    OrdinaryKeys();
    assert "not" in SCHEMA_KEYS;
    OrdinaryField(s, "not");
    if "not" in s.fields { MeaningKept(env, draft, fuel, s.fields["not"], inst); }
  }

  /** A list of schemas, member by member. */
  lemma ListKept(env: Env, draft: Env, fuel: nat, s: Json, key: string, inst: Json)
    requires InScope(env, draft, s) && s.Obj? && key in SCHEMA_LISTS
    ensures key in s.fields <==> key in ToDraft(s).fields
    ensures key in s.fields ==> (s.fields[key].Arr? <==> ToDraft(s).fields[key].Arr?)
    ensures key in s.fields && s.fields[key].Arr? ==>
              && |ToDraft(s).fields[key].items| == |s.fields[key].items|
              && forall a :: 0 <= a < |s.fields[key].items| ==>
                   (Valid(env, fuel, s.fields[key].items[a], inst)
                    <==> Valid(draft, fuel, ToDraft(s).fields[key].items[a], inst))
    decreases fuel, s, 1
  {
    OrdinaryKeys();
    OrdinaryField(s, key);
    if key in s.fields && s.fields[key].Arr? {
      var items := s.fields[key].items;
      forall a | 0 <= a < |items|
        ensures Valid(env, fuel, items[a], inst) <==> Valid(draft, fuel, ToDraft(s).fields[key].items[a], inst)
      {
        assert ToDraft(s).fields[key].items[a] == ToDraft(items[a]);
        MeaningKept(env, draft, fuel, items[a], inst);
      }
    }
  }

  lemma AllOfKept(env: Env, draft: Env, fuel: nat, s: Json, inst: Json)
    requires InScope(env, draft, s) && s.Obj?
    ensures AllOfOk(env, fuel, s, inst) <==> AllOfOk(draft, fuel, ToDraft(s), inst)
    decreases fuel, s, 2
  {
    ListKept(env, draft, fuel, s, "allOf", inst);
  }

  lemma AnyOfKept(env: Env, draft: Env, fuel: nat, s: Json, inst: Json)
    requires InScope(env, draft, s) && s.Obj?
    ensures AnyOfOk(env, fuel, s, inst) <==> AnyOfOk(draft, fuel, ToDraft(s), inst)
    decreases fuel, s, 2
  {
    ListKept(env, draft, fuel, s, "anyOf", inst);
  }

  lemma OneOfKept(env: Env, draft: Env, fuel: nat, s: Json, inst: Json)
    requires InScope(env, draft, s) && s.Obj?
    ensures OneOfOk(env, fuel, s, inst) <==> OneOfOk(draft, fuel, ToDraft(s), inst)
    decreases fuel, s, 2
  {
    ListKept(env, draft, fuel, s, "oneOf", inst);
  }
}
