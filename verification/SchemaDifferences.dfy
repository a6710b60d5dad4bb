/** Where the translation of vendor_schema.py does change what a schema means, and exactly when. */
module SchemaDifferences {
  import opened JsonValues
  import opened Options
  import opened SchemaLiterals
  import opened SchemaMeaning
  import opened SchemaTranslation
  import opened Text

  /** Property names are treated like keywords: a property survives exactly when it is not named like a
      dropped key. */
  lemma PropertiesSurvive(props: Json)
    requires Translatable(props) && props.Obj?
    requires forall q :: q in props.fields ==> props.fields[q].Obj?
    ensures ToDraft(props).fields.Keys == props.fields.Keys - DROPPED
  {
    forall p ensures p in ToDraft(props).fields <==> p in props.fields && p !in DROPPED {
      DraftFields(props, p);
    }
  }

  /** The schema of one property. */
  function OneProperty(name: string, sub: Json): Json { Obj(map["properties" := Obj(map[name := sub])]) }

  lemma OnePropertyMeans(env: Env, fuel: nat, name: string, sub: Json, inst: Json)
    ensures Valid(env, fuel, OneProperty(name, sub), inst)
            <==> (inst.Obj? && name in inst.fields ==> Valid(env, fuel, sub, inst.fields[name]))
  {
    var s := OneProperty(name, sub);
    assert s.fields["properties"].fields[name] == sub;
    assert PropertiesOk(env, fuel, s, inst)
      <==> (inst.Obj? && name in inst.fields ==> Valid(env, fuel, sub, inst.fields[name]));
    OnlyProperties(env, fuel, s, inst);
  }

  lemma OnePropertyDropped(name: string, sub: Json)
    requires name in DROPPED
    ensures Translatable(OneProperty(name, sub)) && ToDraft(OneProperty(name, sub)).fields.Keys == {"properties"}
    ensures ToDraft(OneProperty(name, sub)).fields["properties"] == Obj(map[])
  {
    var s := OneProperty(name, sub);
    var props := s.fields["properties"];
    assert Translatable(props) && Translatable(s);
    OrdinaryKeys();
    OrdinaryField(s, "properties");
    forall k | k in ToDraft(s).fields ensures k == "properties" { DraftFields(s, k); }
    forall k ensures k !in ToDraft(props).fields { DraftFields(props, k); }
    assert ToDraft(props).fields == map[];
  }

  lemma DroppedAcceptsAll(draft: Env, fuel: nat, name: string, sub: Json, inst: Json)
    requires name in DROPPED && Translatable(OneProperty(name, sub))
    ensures Valid(draft, fuel, ToDraft(OneProperty(name, sub)), inst)
  {
    OnePropertyDropped(name, sub);
    OnlyProperties(draft, fuel, ToDraft(OneProperty(name, sub)), inst);
  }

  /** So a property called, say, "example" or "nullable" is no longer checked at all, and that changes the
      meaning exactly when there is something to reject. */
  lemma DroppedPropertyChangesMeaning(env: Env, draft: Env, fuel: nat, name: string, sub: Json)
    requires name in DROPPED
    ensures Translatable(OneProperty(name, sub))
    ensures (forall inst :: Valid(env, fuel, OneProperty(name, sub), inst)
                            <==> Valid(draft, fuel, ToDraft(OneProperty(name, sub)), inst))
            <==> forall v :: Valid(env, fuel, sub, v)
  {
    OnePropertyDropped(name, sub);
    var s := OneProperty(name, sub);
    forall inst ensures Valid(draft, fuel, ToDraft(s), inst) { DroppedAcceptsAll(draft, fuel, name, sub, inst); }
    if v :| !Valid(env, fuel, sub, v) {
      var inst := Obj(map[name := v]);
      OnePropertyMeans(env, fuel, name, sub, inst);
      assert !Valid(env, fuel, s, inst);
    } else {
      forall inst ensures Valid(env, fuel, s, inst) { OnePropertyMeans(env, fuel, name, sub, inst); }
    }
  }

  lemma OnlyProperties(env: Env, fuel: nat, s: Json, inst: Json)
    requires s.Obj? && s.fields.Keys == {"properties"} && s.fields["properties"].Obj?
    ensures Valid(env, fuel, s, inst) <==> PropertiesOk(env, fuel, s, inst)
  {
    assert "properties" !in PLAIN;
    assert !IsRef(s.fields);
    assert "additionalProperties" !in s.fields && "items" !in s.fields && "not" !in s.fields;
    assert "allOf" !in s.fields && "anyOf" !in s.fields && "oneOf" !in s.fields;
    assert LeafOk(env, s.fields, inst);
    assert AdditionalOk(env, fuel, s, inst) && ItemsOk(env, fuel, s, inst);
    assert AllOfOk(env, fuel, s, inst) && AnyOfOk(env, fuel, s, inst) && OneOfOk(env, fuel, s, inst);
  }

  /** An enum means the same after the translation exactly when every one of its literals is untouched by it. */
  lemma EnumKeptIff(items: seq<Json>)
    requires Translatable(Arr(items))
    ensures var s := Obj(map["enum" := Arr(items)]);
            && Translatable(s)
            && ((forall inst :: EnumOk(s.fields, inst) <==> EnumOk(ToDraft(s).fields, inst))
                <==> forall v :: v in items ==> Untouched(v))
  {
    var s := Obj(map["enum" := Arr(items)]);
    assert s.fields["enum"] == Arr(items) && Translatable(s);
    OrdinaryKeys();
    OrdinaryField(s, "enum");
    assert forall inst :: EnumOk(s.fields, inst) <==> inst in items;
    assert forall inst :: EnumOk(ToDraft(s).fields, inst) <==> inst in ToDraft(Arr(items)).items;
    SameValuesIff(items);
  }

  /** Siblings of a reference are ignored before the translation and enforced after it: the output accepts
      what the input accepts and the siblings accept too. */
  lemma SiblingsStartToCount(env: Env, draft: Env, fuel: nat, s: Json, inst: Json)
    requires Bundled(env, draft) && Translatable(s) && s.Obj? && IsRef(s.fields)
    requires LocalRef(draft.schemas.Keys, s.fields["$ref"].s)
    ensures Valid(draft, fuel, ToDraft(s), inst)
            <==> Valid(env, fuel, s, inst) && Keywords(draft, fuel, ToDraft(s), inst)
  {
    var ref := s.fields["$ref"].s;
    var name := ref[|COMPONENTS|..];
    LocalRefTarget(draft.schemas.Keys, ref);
    RefField(s);
    assert RefTarget(env, ref) == Some(env.schemas[name]);
    assert RefTarget(draft, ToDraft(s).fields["$ref"].s) == Some(draft.schemas[name]);
    if fuel > 0 { MeaningKept(env, draft, fuel - 1, env.schemas[name], inst); }
  }
}
