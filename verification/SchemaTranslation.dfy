/** The dialect translation of vendor_schema.py: OpenAPI 3.0.1 schema objects to JSON Schema draft 2020-12. */
module SchemaTranslation {
  import opened JsonValues
  import opened Text

  /** Keys that are left out wherever they occur. */
  const DROPPED: set<string> := {"discriminator", "example", "xml", "externalDocs", "nullable"}

  const COMPONENTS := "#/components/schemas/"
  const DEFS := "#/$defs/"

  predicate IsTrue(m: map<string, Json>, key: string) { key in m && m[key] == Bool(true) }

  predicate IsExclusive(key: string) { key in {"exclusiveMinimum", "exclusiveMaximum"} }

  function BoundOf(key: string): string { if key == "exclusiveMinimum" then "minimum" else "maximum" }

  /** The code raises on an object that is nullable and whose type is neither a name nor a list. */
  predicate Translatable(j: Json) {
    match j
    case Arr(items) => forall i :: 0 <= i < |items| ==> Translatable(items[i])
    case Obj(m) =>
      && (IsTrue(m, "nullable") && "type" in m ==> m["type"].Str? || m["type"].Arr?)
      && forall k :: k in m && k !in DROPPED ==> Translatable(m[k])
    case _ => true
  }

  /** What one pass over the items enters for a key: a boolean exclusive bound is entered when it is true
      and there is a bound to carry. */
  predicate Entered(m: map<string, Json>, key: string)
    requires key in m
  {
    && key !in DROPPED
    && (IsExclusive(key) && m[key].Bool? ==> m[key].b && BoundOf(key) in m && m[BoundOf(key)] != Null)
  }

  function EnteredValue(j: Json, key: string): (r: Json)
    requires Translatable(j) && j.Obj? && key in j.fields && Entered(j.fields, key)
    ensures !IsExclusive(key) ==> (r.Str? <==> j.fields[key].Str?) && (r.Arr? <==> j.fields[key].Arr?)
    decreases j, 0
  {
    var m := j.fields;
    if key == "$ref" && m[key].Str? then Str(Replace(m[key].s, COMPONENTS, DEFS))
    else if IsExclusive(key) && m[key].Bool? then m[BoundOf(key)]
    else ToDraft(m[key])
  }

  /** The inclusive bound that a strict one replaces does not survive. */
  predicate Replaced(m: map<string, Json>, key: string) {
    || (key == "minimum" && IsTrue(m, "exclusiveMinimum"))
    || (key == "maximum" && IsTrue(m, "exclusiveMaximum"))
  }

  predicate TakesNull(m: map<string, Json>, key: string) { key == "type" && IsTrue(m, "nullable") }

  predicate Survives(m: map<string, Json>, key: string)
    requires key in m
  {
    Entered(m, key) && !Replaced(m, key)
  }

  function WithNull(kind: Json): Json
    requires kind.Str? || kind.Arr?
  {
    if kind.Str? then Arr([kind, Str("null")]) else Arr(kind.items + [Str("null")])
  }

  function DraftField(j: Json, key: string): Json
    requires Translatable(j) && j.Obj? && key in j.fields && Survives(j.fields, key)
    decreases j, 1
  {
    if TakesNull(j.fields, key) then WithNull(EnteredValue(j, key)) else EnteredValue(j, key)
  }

  function ToDraft(j: Json): (r: Json)
    requires Translatable(j)
    ensures r.Str? <==> j.Str?
    ensures r.Arr? <==> j.Arr?
    ensures r.Obj? <==> j.Obj?
    ensures !j.Arr? && !j.Obj? ==> r == j
    decreases j, 2
  {
    match j
    case Arr(items) => Arr(seq(|items|, i requires 0 <= i < |items| => ToDraft(items[i])))
    case Obj(m) => Obj(map k | k in m && Survives(m, k) :: DraftField(j, k))
    case _ => j
  }

  lemma DraftFields(j: Json, key: string)
    requires Translatable(j) && j.Obj?
    ensures key in ToDraft(j).fields <==> key in j.fields && Survives(j.fields, key)
    ensures key in ToDraft(j).fields ==> ToDraft(j).fields[key] == DraftField(j, key)
  {
  }

  // ---- The loop over a node's items ----

  ghost predicate EnteredSoFar(j: Json, done: set<string>, out: map<string, Json>)
    requires Translatable(j) && j.Obj?
  {
    && (forall k :: k in out <==> k in done && k in j.fields && Entered(j.fields, k))
    && (forall k :: k in out ==> k in j.fields && Entered(j.fields, k) && out[k] == EnteredValue(j, k))
  }

  /** The translation as the code runs it, visiting the items of an object in any order. */
  method Translate(node: Json) returns (r: Json)
    requires Translatable(node)
    ensures r == ToDraft(node)
    decreases node, 1
  {
    match node {
      case Arr(items) =>
        var out: seq<Json> := [];
        for i := 0 to |items|
          invariant |out| == i && forall k :: 0 <= k < i ==> out[k] == ToDraft(items[k])
        {
          var item := Translate(items[i]);
          out := out + [item];
        }
        r := Arr(out);
        assert out == ToDraft(node).items;
      case Obj(m) =>
        var entered := TranslateItems(node);
        var out := Adjust(node, entered);
        r := Obj(out);
      case _ => r := node;
    }
  }

  /** The adjustments after the pass: null joins the type, and a strict bound replaces the inclusive one. */
  method Adjust(node: Json, entered: map<string, Json>) returns (out: map<string, Json>)
    requires Translatable(node) && node.Obj? && EnteredSoFar(node, node.fields.Keys, entered)
    ensures Obj(out) == ToDraft(node)
  {
    var m := node.fields;
    out := entered;
    if IsTrue(m, "nullable") && "type" in out {
      assert out["type"] == EnteredValue(node, "type");
      out := out["type" := WithNull(out["type"])];
    }
    if IsTrue(m, "exclusiveMinimum") && "minimum" in out {
      out := out - {"minimum"};
    }
    if IsTrue(m, "exclusiveMaximum") && "maximum" in out {
      out := out - {"maximum"};
    }
    AdjustedIsDraft(node, entered, out);
  }

  lemma AdjustedIsDraft(node: Json, entered: map<string, Json>, out: map<string, Json>)
    requires Translatable(node) && node.Obj? && EnteredSoFar(node, node.fields.Keys, entered)
    requires forall k :: k in out <==> k in entered && !Replaced(node.fields, k)
    requires forall k :: k in out && TakesNull(node.fields, k) ==> entered[k].Str? || entered[k].Arr?
    requires forall k :: k in out ==>
               out[k] == if TakesNull(node.fields, k) then WithNull(entered[k]) else entered[k]
    ensures Obj(out) == ToDraft(node)
  {
    assert out == ToDraft(node).fields;
  }

  /** One more item of the pass. */
  lemma EnteredOneMore(node: Json, done: set<string>, key: string, out: map<string, Json>, next: map<string, Json>)
    requires Translatable(node) && node.Obj? && key in node.fields && key !in done && EnteredSoFar(node, done, out)
    requires next == if Entered(node.fields, key) then out[key := EnteredValue(node, key)] else out
    ensures EnteredSoFar(node, done + {key}, next)
  {
  }

  method TranslateItems(node: Json) returns (out: map<string, Json>)
    requires Translatable(node) && node.Obj?
    ensures EnteredSoFar(node, node.fields.Keys, out)
    decreases node, 0, 1
  {
    out := map[];
    var rest := node.fields.Keys;
    while rest != {}
      invariant rest <= node.fields.Keys && EnteredSoFar(node, node.fields.Keys - rest, out)
      decreases |rest|
    {
      var key :| key in rest;
      var next := TranslateItem(node, key, out);
      EnteredOneMore(node, node.fields.Keys - rest, key, out, next);
      assert node.fields.Keys - rest + {key} == node.fields.Keys - (rest - {key});
      out, rest := next, rest - {key};
    }
    assert node.fields.Keys - {} == node.fields.Keys;
  }

  /** One pass through the loop's body. */
  method TranslateItem(node: Json, key: string, out: map<string, Json>) returns (next: map<string, Json>)
    requires Translatable(node) && node.Obj? && key in node.fields
    ensures next == if Entered(node.fields, key) then out[key := EnteredValue(node, key)] else out
    decreases node, 0, 0
  {
    var m := node.fields;
    var value := m[key];
    if key in {"discriminator", "example", "xml", "externalDocs"} {
      return out;
    }
    if key == "nullable" {
      return out;
    }
    if key == "$ref" && value.Str? {
      return out[key := Str(Replace(value.s, COMPONENTS, DEFS))];
    }
    if IsExclusive(key) && value.Bool? {
      var bound := BoundOf(key);
      if value.b && bound in m && m[bound] != Null {
        return out[key := m[bound]];
      }
      return out;
    }
    var v := Translate(value);
    return out[key := v];
  }
}
