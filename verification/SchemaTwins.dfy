/** Two schemas, each with its own definitions, that accept the same values because their
    parts do: what rewriting a schema part by part comes down to. */
module SchemaTwins {
  import opened Wrappers
  import opened Schema
  import opened SchemaMeaning
  import opened SchemaValidation

  /** Definitions with their surroundings, and a ranking of them. */
  datatype Setting = Setting(env: Env, rank: Rank)

  ghost predicate Founded(a: Setting) {
    Ranked(a.env, a.rank)
  }

  ghost predicate Accepts(a: Setting, schema: Value, v: Value)
    requires Founded(a)
  {
    Conforms(a.env, a.rank, schema, v)
  }

  /** One schema accepts the value as the other does. */
  ghost predicate Alike(a: Setting, s: Value, b: Setting, s': Value, v: Value)
    requires Founded(a) && Founded(b)
  {
    Accepts(a, s, v) == Accepts(b, s', v)
  }

  // ----- const, enum and type --------------------------------------------------------------

  const SCHEMA_KEYS: set<string> := {"allOf", "anyOf", "oneOf", "properties", "items", "additionalProperties"}

  predicate TwinProperties(ps: Option<map<string, Value>>, ps': Option<map<string, Value>>) {
    && ps'.Some? == ps.Some?
    && (ps.Some? ==>
          ps'.value.Keys == ps.value.Keys && forall p :: p in ps.value ==> ps'.value[p].Obj? == ps.value[p].Obj?)
  }

  predicate TwinSubschema(m: map<string, Value>, m': map<string, Value>, k: string)
    requires m'.Keys == m.Keys
  {
    k in m ==> m'[k].Obj? == m[k].Obj? && (!m[k].Obj? ==> m'[k] == m[k])
  }

  /** The same keywords, with equal values except where the value holds schemas, and there
      schemas in the same places. */
  predicate AreTwins(m: map<string, Value>, m': map<string, Value>) {
    && m'.Keys == m.Keys
    && (forall k :: k in m && k !in SCHEMA_KEYS ==> m'[k] == m[k])
    && TwinSubschema(m, m', "items") && TwinSubschema(m, m', "additionalProperties")
    && TwinProperties(Properties(m), Properties(m'))
  }

  /** Every item of an array meets the `items` schemas alike. */
  ghost predicate ItemsAlike(a: Setting, m: map<string, Value>, b: Setting, m': map<string, Value>, v: Value)
    requires Founded(a) && Founded(b) && AreTwins(m, m') && v.Arr?
  {
    "items" in m && m["items"].Obj? ==>
      forall i :: 0 <= i < |v.items| ==> Alike(a, m["items"], b, m'["items"], v.items[i])
  }

  /** Every member of an object meets the schemas that apply to it alike. */
  ghost predicate MembersAlike(a: Setting, m: map<string, Value>, b: Setting, m': map<string, Value>, v: Value)
    requires Founded(a) && Founded(b) && AreTwins(m, m') && v.Obj?
  {
    && (Properties(m).Some? ==>
          var ps, ps' := Properties(m).value, Properties(m').value;
          forall k :: k in ps && k in v.fields ==> Alike(a, ps[k], b, ps'[k], v.fields[k]))
    && ("additionalProperties" in m && m["additionalProperties"].Obj? ==>
          forall k :: k in v.fields ==>
            Alike(a, m["additionalProperties"], b, m'["additionalProperties"], v.fields[k]))
  }

  ghost predicate PartsAlike(a: Setting, m: map<string, Value>, b: Setting, m': map<string, Value>, v: Value)
    requires Founded(a) && Founded(b) && AreTwins(m, m')
  {
    (v.Arr? ==> ItemsAlike(a, m, b, m', v)) && (v.Obj? ==> MembersAlike(a, m, b, m', v))
  }

  lemma TwinGet(m: map<string, Value>, m': map<string, Value>, k: string)
    requires AreTwins(m, m') && k !in SCHEMA_KEYS
    ensures (k in m' <==> k in m) && Get(m', k) == Get(m, k)
  {
    hide TwinProperties, Properties;
  }

  lemma TwinLimits(a: Env, b: Env, m: map<string, Value>, m': map<string, Value>)
    requires AreTwins(m, m') && b.rt == a.rt
    ensures TypeName(b, m') == TypeName(a, m)
    ensures forall n :: BoundsOk(b, m', n) == BoundsOk(a, m, n)
    ensures forall n :: SizeOk(b, m', "minLength", "maxLength", n) == SizeOk(a, m, "minLength", "maxLength", n)
    ensures forall n :: SizeOk(b, m', "minItems", "maxItems", n) == SizeOk(a, m, "minItems", "maxItems", n)
    ensures forall s :: PatternOk(b, m', s) == PatternOk(a, m, s)
  {
    hide AreTwins;
    TwinGet(m, m', "type");
    TwinGet(m, m', "minimum");
    TwinGet(m, m', "maximum");
    TwinGet(m, m', "pattern");
    TwinSize(a, b, m, m', "minLength", "maxLength");
    TwinSize(a, b, m, m', "minItems", "maxItems");
  }

  lemma TwinSize(a: Env, b: Env, m: map<string, Value>, m': map<string, Value>, low: string, high: string)
    requires AreTwins(m, m') && b.rt == a.rt && low !in SCHEMA_KEYS && high !in SCHEMA_KEYS
    ensures forall n :: SizeOk(b, m', low, high, n) == SizeOk(a, m, low, high, n)
  {
    hide AreTwins;
    TwinGet(m, m', low);
    TwinGet(m, m', high);
  }

  lemma ArrayAlike(a: Setting, m: map<string, Value>, b: Setting, m': map<string, Value>, v: Value)
    requires Founded(a) && Founded(b) && AreTwins(m, m') && v.Arr? && ItemsAlike(a, m, b, m', v)
    requires "items" in m && m["items"].Obj?
    ensures EachOk(b.env, b.rank, Obj(m'), v) == EachOk(a.env, a.rank, Obj(m), v)
  {
    hide Conforms, Ranked, TwinProperties;
    assert forall i :: 0 <= i < |v.items| ==> Alike(a, m["items"], b, m'["items"], v.items[i]);
  }

  lemma KnownAlike(a: Setting, m: map<string, Value>, b: Setting, m': map<string, Value>, v: Value)
    requires Founded(a) && Founded(b) && AreTwins(m, m') && v.Obj? && MembersAlike(a, m, b, m', v)
    requires Properties(m).Some?
    ensures KnownOk(b.env, b.rank, Obj(m'), v) == KnownOk(a.env, a.rank, Obj(m), v)
  {
    hide Conforms, Ranked, Properties;
  }

  lemma OthersAlike(a: Setting, m: map<string, Value>, b: Setting, m': map<string, Value>, v: Value)
    requires Founded(a) && Founded(b) && AreTwins(m, m') && v.Obj? && MembersAlike(a, m, b, m', v)
    requires Properties(m).Some? && "additionalProperties" in m && m["additionalProperties"].Obj?
    ensures OthersOk(b.env, b.rank, Obj(m'), v) == OthersOk(a.env, a.rank, Obj(m), v)
  {
    hide Conforms, Ranked, Properties;
  }

  lemma ObjectAlike(a: Setting, m: map<string, Value>, b: Setting, m': map<string, Value>, v: Value)
    requires Founded(a) && Founded(b) && AreTwins(m, m') && v.Obj? && MembersAlike(a, m, b, m', v)
    requires b.env.rt == a.env.rt
    ensures ObjectOk(b.env, b.rank, Obj(m'), v) == ObjectOk(a.env, a.rank, Obj(m), v)
  {
    hide Conforms, Ranked, Properties, KnownOk, OthersOk, Alike, MembersAlike;
    TwinGet(m, m', "required");
    if Properties(m).Some? {
      KnownAlike(a, m, b, m', v);
      if "additionalProperties" in m && m["additionalProperties"].Obj? {
        OthersAlike(a, m, b, m', v);
      }
    }
  }

  lemma TypeAlike(a: Setting, m: map<string, Value>, b: Setting, m': map<string, Value>, v: Value)
    requires Founded(a) && Founded(b) && AreTwins(m, m') && PartsAlike(a, m, b, m', v) && b.env.rt == a.env.rt
    ensures TypeOk(b.env, b.rank, Obj(m'), v) == TypeOk(a.env, a.rank, Obj(m), v)
  {
    hide Ranked, EachOk, ObjectOk, MembersAlike, ItemsAlike, TwinProperties, TypeName, BoundsOk, SizeOk, PatternOk;
    TwinLimits(a.env, b.env, m, m');
    TwinGet(m, m', "type");
    if v.Obj? {
      ObjectAlike(a, m, b, m', v);
    }
    if v.Arr? && "items" in m && m["items"].Obj? {
      ArrayAlike(a, m, b, m', v);
    }
  }

  /** Twins whose parts accept alike accept alike. */
  lemma PlainAlike(a: Setting, m: map<string, Value>, b: Setting, m': map<string, Value>, v: Value)
    requires Founded(a) && Founded(b) && IsPlain(m) && AreTwins(m, m') && PartsAlike(a, m, b, m', v)
    requires b.env.rt == a.env.rt
    ensures Alike(a, Obj(m), b, Obj(m'), v)
  {
    hide Ranked, TypeOk, PartsAlike, AreTwins;
    TypeAlike(a, m, b, m', v);
    TwinGet(m, m', "const");
    TwinGet(m, m', "enum");
    PlainTwin(m, m');
  }

  lemma PlainTwin(m: map<string, Value>, m': map<string, Value>)
    requires AreTwins(m, m') && IsPlain(m)
    ensures IsPlain(m')
  {
    hide TwinProperties;
  }

  // ----- compositions ------------------------------------------------------------------------

  /** Lists of as many branches, with schemas in the same places. */
  predicate TwinLists(list: Value, list': Value) {
    var es, es' := Elements(list), Elements(list');
    && es'.Some? == es.Some?
    && (es.Some? ==> |es'.value| == |es.value|)
    && (es.Some? ==> forall i :: 0 <= i < |es.value| ==> es'.value[i].Obj? == es.value[i].Obj?)
  }

  ghost predicate BranchesAlike(a: Setting, list: Value, b: Setting, list': Value, v: Value)
    requires Founded(a) && Founded(b) && TwinLists(list, list')
  {
    list.Arr? ==>
      forall i :: 0 <= i < |list.items| && list.items[i].Obj? ==>
        Alike(a, list.items[i], b, Elements(list').value[i], v)
  }

  lemma FlagsAlike(a: Setting, m: map<string, Value>, b: Setting, m': map<string, Value>, key: string, v: Value)
    requires Founded(a) && Founded(b) && IsComposition(m, key) && IsComposition(m', key)
    requires TwinLists(m[key], m'[key]) && BranchesAlike(a, m[key], b, m'[key], v) && Elements(m[key]).Some?
    ensures Flags(b.env, b.rank, m', key, v) == Flags(a.env, a.rank, m, key, v)
  {
    hide Ranked, Conforms, IsComposition;
    CompositionLevel(a.env, a.rank, m, key);
    CompositionLevel(b.env, b.rank, m', key);
  }

  /** Compositions by the same keyword whose branches accept alike accept alike. */
  lemma CompositionAlike(a: Setting, m: map<string, Value>, b: Setting, m': map<string, Value>, key: string, v: Value)
    requires Founded(a) && Founded(b) && IsComposition(m, key) && m'.Keys == m.Keys
    requires TwinLists(m[key], m'[key]) && BranchesAlike(a, m[key], b, m'[key], v)
    ensures Alike(a, Obj(m), b, Obj(m'), v)
  {
    hide Ranked, Conforms, Elements, Combined, BranchesAlike, Flags;
    assert IsComposition(m', key);
    if Elements(m[key]).Some? {
      FlagsAlike(a, m, b, m', key, v);
      CompositionMeans(a.env, a.rank, m, key, v);
      CompositionMeans(b.env, b.rank, m', key, v);
    } else {
      NoBranches(a.env, a.rank, m, key, v, 1);
      NoBranches(b.env, b.rank, m', key, v, 1);
    }
  }
}
