/** Two rewritings of schemas that leave the accepted values as they are: replacing
    references by what they stand for, and reordering the branches of a composition. */
module SchemaRewriting {
  import opened Wrappers
  import opened Schema
  import opened SchemaMeaning
  import opened SchemaValidation
  import opened SchemaTwins

  // ----- references throughout a schema -------------------------------------------------------

  /** Every reference anywhere in the schema names a definition of rank below `bound`. */
  ghost predicate RefsBelow(env: Env, rank: Rank, bound: nat, schema: Value)
    decreases schema, 1
  {
    match schema
    case Obj(m) =>
      if "$ref" in m then
        Resolve(env, m["$ref"]).Some? ==> RankOf(rank, Resolve(env, m["$ref"]).value) < bound
      else forall k :: k in m ==> FieldBelow(env, rank, bound, k, m[k])
    case _ => true
  }

  ghost predicate FieldBelow(env: Env, rank: Rank, bound: nat, k: string, x: Value)
    decreases x, 2
  {
    match x
    case Arr(items) =>
      k in {"allOf", "anyOf", "oneOf"} ==> forall i :: 0 <= i < |items| ==> RefsBelow(env, rank, bound, items[i])
    case Obj(fs) =>
      && (k == "properties" ==> forall p :: p in fs ==> RefsBelow(env, rank, bound, fs[p]))
      && (k in {"items", "additionalProperties"} ==> RefsBelow(env, rank, bound, x))
    case _ => true
  }

  /** Definitions are objects, as `build_protocol_spec` sees to, and each refers, anywhere,
      only to definitions of smaller rank. */
  ghost predicate Acyclic(env: Env, rank: Rank) {
    forall name :: name in env.defs ==> env.defs[name].Obj? && RefsBelow(env, rank, RankOf(rank, name), env.defs[name])
  }

  /** The schema with every resolvable reference replaced by its inlined definition. */
  ghost function Inline(env: Env, rank: Rank, bound: nat, schema: Value): Value
    requires Acyclic(env, rank) && RefsBelow(env, rank, bound, schema)
    decreases bound, schema, 1
  {
    match schema
    case Obj(m) =>
      if "$ref" in m then
        (match Resolve(env, m["$ref"])
         case None => schema
         case Some(name) => Inline(env, rank, RankOf(rank, name), env.defs[name]))
      else Obj(map k | k in m :: InlineField(env, rank, bound, k, m[k]))
    case _ => schema
  }

  ghost function InlineField(env: Env, rank: Rank, bound: nat, k: string, x: Value): Value
    requires Acyclic(env, rank) && FieldBelow(env, rank, bound, k, x)
    decreases bound, x, 2
  {
    match x
    case Arr(items) =>
      if k in {"allOf", "anyOf", "oneOf"} then
        Arr(seq(|items|, i requires 0 <= i < |items| => Inline(env, rank, bound, items[i])))
      else x
    case Obj(fs) =>
      if k == "properties" then Obj(map p | p in fs :: Inline(env, rank, bound, fs[p]))
      else if k in {"items", "additionalProperties"} then Inline(env, rank, bound, x)
      else x
    case _ => x
  }

  /** The same surroundings with no definitions at all. */
  function Bare(env: Env): Env {
    env.(defs := map[])
  }

  lemma {:induction false} InlineKeepsKind(env: Env, rank: Rank, bound: nat, schema: Value)
    requires Acyclic(env, rank) && RefsBelow(env, rank, bound, schema)
    ensures Inline(env, rank, bound, schema).Obj? == schema.Obj?
    ensures !schema.Obj? ==> Inline(env, rank, bound, schema) == schema
    decreases bound
  {
    hide InlineField, FieldBelow;
    if schema.Obj? && "$ref" in schema.fields {
      var name := Resolve(env, schema.fields["$ref"]);
      if name.Some? {
        InlineKeepsKind(env, rank, RankOf(rank, name.value), env.defs[name.value]);
      }
    }
  }

  // ----- acyclic everywhere is acyclic where it matters ---------------------------------------

  lemma {:induction false} LevelBelow(env: Env, rank: Rank, bound: nat, schema: Value)
    requires RefsBelow(env, rank, bound, schema)
    ensures Level(env, rank, schema) <= bound
    decreases schema, 1, 0
  {
    if schema.Obj? && "$ref" !in schema.fields {
      var m := schema.fields;
      if "allOf" in m { BranchesBelow(env, rank, bound, "allOf", m["allOf"]); }
      else if "anyOf" in m { BranchesBelow(env, rank, bound, "anyOf", m["anyOf"]); }
      else if "oneOf" in m { BranchesBelow(env, rank, bound, "oneOf", m["oneOf"]); }
    }
  }

  lemma {:induction false} BranchesBelow(env: Env, rank: Rank, bound: nat, key: string, list: Value)
    requires key in {"allOf", "anyOf", "oneOf"} && FieldBelow(env, rank, bound, key, list)
    ensures LevelOfBranches(env, rank, list) <= bound
    decreases list, 1, 0
  {
    hide Level, RefsBelow;
    if list.Arr? {
      BranchesBelowUpTo(env, rank, bound, list, |list.items|);
    }
  }

  lemma {:induction false} BranchesBelowUpTo(env: Env, rank: Rank, bound: nat, list: Value, n: nat)
    requires list.Arr? && n <= |list.items|
    requires forall i :: 0 <= i < |list.items| ==> RefsBelow(env, rank, bound, list.items[i])
    ensures LevelOfItems(env, rank, list, n) <= bound
    decreases list, 0, n
  {
    hide Level, RefsBelow;
    if n > 0 {
      BranchesBelowUpTo(env, rank, bound, list, n - 1);
      LevelBelow(env, rank, bound, list.items[n - 1]);
    }
  }

  lemma AcyclicIsRanked(env: Env, rank: Rank)
    requires Acyclic(env, rank)
    ensures Ranked(env, rank)
  {
    hide Level, RefsBelow;
    forall name | name in env.defs
      ensures Level(env, rank, env.defs[name]) <= RankOf(rank, name)
    {
      LevelBelow(env, rank, RankOf(rank, name), env.defs[name]);
    }
  }

  // ----- inlining ---------------------------------------------------------------------------------

  /** The inlined schema, without any definitions, accepts exactly what the schema
      accepts with them. */
  ghost predicate InlinedAlike(env: Env, rank: Rank, bound: nat, schema: Value, v: Value)
    requires Acyclic(env, rank) && Ranked(env, rank) && RefsBelow(env, rank, bound, schema)
  {
    BareIsRanked(env);
    Alike(Setting(env, rank), schema, Setting(Bare(env), map[]), Inline(env, rank, bound, schema), v)
  }

  lemma BareIsRanked(env: Env)
    ensures Ranked(Bare(env), map[])
  {
  }

  lemma RefAlike(env: Env, rank: Rank, bound: nat, m: map<string, Value>, v: Value)
    requires Acyclic(env, rank) && Ranked(env, rank) && RefsBelow(env, rank, bound, Obj(m)) && "$ref" in m
    requires Resolve(env, m["$ref"]).Some? ==>
               var name := Resolve(env, m["$ref"]).value; InlinedAlike(env, rank, RankOf(rank, name), env.defs[name], v)
    ensures InlinedAlike(env, rank, bound, Obj(m), v)
  {
    hide FieldBelow, InlineField;
  }

  /** The fields of an inlined schema. */
  ghost function InlineFields(env: Env, rank: Rank, bound: nat, m: map<string, Value>): (r: map<string, Value>)
    requires Acyclic(env, rank) && RefsBelow(env, rank, bound, Obj(m)) && "$ref" !in m
    ensures r.Keys == m.Keys && forall k :: k in m ==> r[k] == InlineField(env, rank, bound, k, m[k])
    ensures Inline(env, rank, bound, Obj(m)) == Obj(r)
  {
    map k | k in m :: InlineField(env, rank, bound, k, m[k])
  }

  lemma InlineElements(env: Env, rank: Rank, bound: nat, key: string, list: Value)
    requires Acyclic(env, rank) && key in {"allOf", "anyOf", "oneOf"} && FieldBelow(env, rank, bound, key, list)
    ensures var es, es' := Elements(list), Elements(InlineField(env, rank, bound, key, list));
            && es'.Some? == es.Some?
            && (es.Some? ==> |es'.value| == |es.value|)
            && (es.Some? ==> forall i :: 0 <= i < |es.value| ==> es'.value[i].Obj? == es.value[i].Obj?)
            && (list.Arr? ==> forall i :: 0 <= i < |es.value| ==> es'.value[i] == Inline(env, rank, bound, es.value[i]))
  {
    hide Inline, RefsBelow, Acyclic;
    if list.Arr? {
      forall i | 0 <= i < |list.items|
        ensures Inline(env, rank, bound, list.items[i]).Obj? == list.items[i].Obj?
      {
        InlineKeepsKind(env, rank, bound, list.items[i]);
      }
    }
  }

  lemma InlinedComposition(env: Env, rank: Rank, bound: nat, m: map<string, Value>, key: string, v: Value)
    requires Acyclic(env, rank) && Ranked(env, rank) && IsComposition(m, key) && RefsBelow(env, rank, bound, Obj(m))
    requires m[key].Arr? ==> forall i :: 0 <= i < |m[key].items| && m[key].items[i].Obj? ==>
               RefsBelow(env, rank, bound, m[key].items[i]) && InlinedAlike(env, rank, bound, m[key].items[i], v)
    ensures InlinedAlike(env, rank, bound, Obj(m), v)
  {
    hide Acyclic, Ranked, Inline, InlineField, Conforms, Alike;
    var m' := InlineFields(env, rank, bound, m);
    BareIsRanked(env);
    InlineElements(env, rank, bound, key, m[key]);
    CompositionAlike(Setting(env, rank), m, Setting(Bare(env), map[]), m', key, v);
  }

  /** Inlining leaves every keyword alone that holds no schema. */
  lemma PlainFieldsKept(env: Env, rank: Rank, bound: nat, m: map<string, Value>, k: string)
    requires Acyclic(env, rank) && RefsBelow(env, rank, bound, Obj(m)) && "$ref" !in m
    requires k !in {"allOf", "anyOf", "oneOf", "properties", "items", "additionalProperties"}
    ensures var m' := InlineFields(env, rank, bound, m); (k in m' <==> k in m) && Get(m', k) == Get(m, k)
  {
    hide Acyclic, Inline, RefsBelow;
  }

  lemma PropertiesInlined(env: Env, rank: Rank, bound: nat, m: map<string, Value>)
    requires Acyclic(env, rank) && RefsBelow(env, rank, bound, Obj(m)) && "$ref" !in m
    ensures var ps, ps' := Properties(m), Properties(InlineFields(env, rank, bound, m));
            && ps'.Some? == ps.Some?
            && (ps.Some? ==>
                 && ps'.value.Keys == ps.value.Keys
                 && forall p :: p in ps.value ==>
                      && RefsBelow(env, rank, bound, ps.value[p])
                      && ps'.value[p] == Inline(env, rank, bound, ps.value[p])
                      && ps'.value[p].Obj? == ps.value[p].Obj?)
  {
    hide Acyclic, Inline;
    var m' := InlineFields(env, rank, bound, m);
    var ps, ps' := Get(m, "properties"), Get(m', "properties");
    if ps.Obj? && Truthy(ps) {
      assert FieldBelow(env, rank, bound, "properties", ps);
      assert ps' == InlineField(env, rank, bound, "properties", ps);
      assert ps'.Obj? && ps'.fields.Keys == ps.fields.Keys;
      forall p | p in ps.fields
        ensures ps'.fields[p].Obj? == ps.fields[p].Obj?
      {
        InlineKeepsKind(env, rank, bound, ps.fields[p]);
      }
    }
  }

  /** `items` and `additionalProperties` are inlined when they are schemas. */
  lemma SubschemaInlined(env: Env, rank: Rank, bound: nat, m: map<string, Value>, k: string)
    requires Acyclic(env, rank) && RefsBelow(env, rank, bound, Obj(m)) && "$ref" !in m
    requires k in {"items", "additionalProperties"}
    ensures var m' := InlineFields(env, rank, bound, m);
            && (k in m' <==> k in m)
            && (k in m && !m[k].Obj? ==> m'[k] == m[k])
            && (k in m && m[k].Obj? ==>
                  RefsBelow(env, rank, bound, m[k]) && m'[k] == Inline(env, rank, bound, m[k]) && m'[k].Obj?)
  {
    hide Acyclic, Inline;
    if k in m && m[k].Obj? {
      assert FieldBelow(env, rank, bound, k, m[k]);
      InlineKeepsKind(env, rank, bound, m[k]);
    }
  }

  lemma InlinedTwins(env: Env, rank: Rank, bound: nat, m: map<string, Value>)
    requires Acyclic(env, rank) && RefsBelow(env, rank, bound, Obj(m)) && "$ref" !in m
    ensures AreTwins(m, InlineFields(env, rank, bound, m))
  {
    hide Acyclic, Inline, InlineField, RefsBelow, Properties;
    forall k | k in m && k !in SCHEMA_KEYS ensures InlineFields(env, rank, bound, m)[k] == m[k] {
      PlainFieldsKept(env, rank, bound, m, k);
    }
    SubschemaInlined(env, rank, bound, m, "items");
    SubschemaInlined(env, rank, bound, m, "additionalProperties");
    PropertiesInlined(env, rank, bound, m);
  }

  /** Replacing every reference by what it stands for, throughout an acyclic schema,
      leaves the accepted values unchanged, and needs no definitions any more. */
  lemma {:induction false} InlineMeans(env: Env, rank: Rank, bound: nat, schema: Value, v: Value)
    requires Acyclic(env, rank) && Ranked(env, rank) && RefsBelow(env, rank, bound, schema)
    ensures InlinedAlike(env, rank, bound, schema, v)
    decreases v, Level(env, rank, schema), schema, 1
  {
    hide Inline, InlineField, Conforms, Alike, AreTwins, PartsAlike;
    if !schema.Obj? {
      NotASchemaAlike(env, rank, bound, schema, v);
      return;
    }
    var m := schema.fields;
    if "$ref" in m {
      if Resolve(env, m["$ref"]).Some? {
        var name := Resolve(env, m["$ref"]).value;
        InlineMeans(env, rank, RankOf(rank, name), env.defs[name], v);
      }
      RefAlike(env, rank, bound, m, v);
    } else if IsPlain(m) {
      InlinedTwins(env, rank, bound, m);
      BareIsRanked(env);
      MembersMean(env, rank, bound, m, v);
      PlainAlike(Setting(env, rank), m, Setting(Bare(env), map[]), InlineFields(env, rank, bound, m), v);
    } else {
      var key := if "allOf" in m then "allOf" else if "anyOf" in m then "anyOf" else "oneOf";
      BranchesMean(env, rank, bound, m, key, v);
      InlinedComposition(env, rank, bound, m, key, v);
    }
  }

  lemma NotASchemaAlike(env: Env, rank: Rank, bound: nat, schema: Value, v: Value)
    requires Acyclic(env, rank) && Ranked(env, rank) && RefsBelow(env, rank, bound, schema) && !schema.Obj?
    ensures InlinedAlike(env, rank, bound, schema, v)
  {
  }

  lemma {:induction false} BranchesMean(env: Env, rank: Rank, bound: nat, m: map<string, Value>, key: string, v: Value)
    requires Acyclic(env, rank) && Ranked(env, rank) && RefsBelow(env, rank, bound, Obj(m)) && IsComposition(m, key)
    ensures m[key].Arr? ==> forall i :: 0 <= i < |m[key].items| && m[key].items[i].Obj? ==>
               RefsBelow(env, rank, bound, m[key].items[i]) && InlinedAlike(env, rank, bound, m[key].items[i], v)
    decreases v, Level(env, rank, Obj(m)), Obj(m), 0
  {
    hide Inline, InlineField, Conforms, InlinedAlike, Acyclic, Ranked;
    var list := m[key];
    if list.Arr? {
      assert FieldBelow(env, rank, bound, key, list);
      CompositionLevel(env, rank, m, key);
      forall i | 0 <= i < |list.items| && list.items[i].Obj?
        ensures RefsBelow(env, rank, bound, list.items[i]) && InlinedAlike(env, rank, bound, list.items[i], v)
      {
        BranchLevel(env, rank, list, |list.items|, i);
        InlineMeans(env, rank, bound, list.items[i], v);
      }
    }
  }

  lemma {:induction false} MembersMean(env: Env, rank: Rank, bound: nat, m: map<string, Value>, v: Value)
    requires Acyclic(env, rank) && Ranked(env, rank) && RefsBelow(env, rank, bound, Obj(m)) && IsPlain(m)
    requires AreTwins(m, InlineFields(env, rank, bound, m)) && Ranked(Bare(env), map[])
    ensures PartsAlike(Setting(env, rank), m, Setting(Bare(env), map[]), InlineFields(env, rank, bound, m), v)
    decreases v, Level(env, rank, Obj(m)), Obj(m), 0
  {
    hide Inline, InlineField, Conforms, Alike, Acyclic, Ranked, RefsBelow, Properties, Level, AreTwins;
    SubschemaInlined(env, rank, bound, m, "items");
    SubschemaInlined(env, rank, bound, m, "additionalProperties");
    PropertiesInlined(env, rank, bound, m);
    if v.Arr? && "items" in m && m["items"].Obj? {
      forall i | 0 <= i < |v.items| ensures InlinedAlike(env, rank, bound, m["items"], v.items[i]) {
        InlineMeans(env, rank, bound, m["items"], v.items[i]);
      }
    }
    if v.Obj? {
      if Properties(m).Some? {
        var ps := Properties(m).value;
        forall k | k in ps && k in v.fields ensures InlinedAlike(env, rank, bound, ps[k], v.fields[k]) {
          InlineMeans(env, rank, bound, ps[k], v.fields[k]);
        }
      }
      if "additionalProperties" in m && m["additionalProperties"].Obj? {
        forall k | k in v.fields ensures InlinedAlike(env, rank, bound, m["additionalProperties"], v.fields[k]) {
          InlineMeans(env, rank, bound, m["additionalProperties"], v.fields[k]);
        }
      }
    }
  }

  ghost predicate AlikeFrom(env: Env, schema: Value, inlined: Value, v: Value, enough: nat) {
    forall depth: nat :: depth >= enough ==>
      Validate(Bare(env), depth, inlined, v) == Validate(env, depth, schema, v) != Overflow
  }

  /** So with enough stack the validator gives the same verdict on both. */
  lemma InlineKeepsVerdicts(env: Env, rank: Rank, bound: nat, schema: Value, v: Value)
    requires LawfulRuntime(env.rt) && Acyclic(env, rank) && RefsBelow(env, rank, bound, schema)
    ensures exists enough: nat :: AlikeFrom(env, schema, Inline(env, rank, bound, schema), v, enough)
  {
    hide Validate, Conforms, Inline, RefsBelow;
    AcyclicIsRanked(env, rank);
    BareIsRanked(env);
    InlineMeans(env, rank, bound, schema, v);
    var one := ValidateDecides(env, rank, schema, v);
    var two := ValidateDecides(Bare(env), map[], Inline(env, rank, bound, schema), v);
    assert AlikeFrom(env, schema, Inline(env, rank, bound, schema), v, Max(one, two));
  }

  // ----- reordering ---------------------------------------------------------------------------------

  function Kept(items: seq<Value>, good: set<Value>): seq<Value> {
    if items == [] then [] else (if items[0] in good then [items[0]] else []) + Kept(items[1..], good)
  }

  function Marks(items: seq<Value>, good: set<Value>): (flags: seq<bool>)
    ensures |flags| == |items| && forall i :: 0 <= i < |items| ==> flags[i] == (items[i] in good)
  {
    seq(|items|, i requires 0 <= i < |items| => items[i] in good)
  }

  lemma {:induction false} KeptCount(items: seq<Value>, good: set<Value>, x: Value)
    ensures multiset(Kept(items, good))[x] == if x in good then multiset(items)[x] else 0
  {
    if items != [] {
      KeptCount(items[1..], good, x);
      assert items == [items[0]] + items[1..];
    }
  }

  lemma {:induction false} KeptTally(items: seq<Value>, good: set<Value>)
    ensures Tally(Marks(items, good)) == |Kept(items, good)|
  {
    if items != [] {
      KeptTally(items[1..], good);
      var flags := Marks(items, good);
      assert flags[1..] == Marks(items[1..], good);
    }
  }

  /** As many items are good whatever their order. */
  lemma SameTally(one: seq<Value>, two: seq<Value>, good: set<Value>)
    requires multiset(one) == multiset(two)
    ensures Tally(Marks(one, good)) == Tally(Marks(two, good))
  {
    var kept, kept' := Kept(one, good), Kept(two, good);
    forall x ensures multiset(kept)[x] == multiset(kept')[x] {
      KeptCount(one, good, x);
      KeptCount(two, good, x);
    }
    assert multiset(kept) == multiset(kept');
    assert |kept| == |multiset(kept)| == |multiset(kept')| == |kept'|;
    KeptTally(one, good);
    KeptTally(two, good);
  }

  lemma MarksAll(items: seq<Value>, good: set<Value>)
    ensures (forall i :: 0 <= i < |items| ==> Marks(items, good)[i]) <==> forall x :: x in multiset(items) ==> x in good
  {
    assert forall x :: x in items <==> x in multiset(items);
    if forall i :: 0 <= i < |items| ==> Marks(items, good)[i] {
      forall x | x in multiset(items) ensures x in good {
        var i :| 0 <= i < |items| && items[i] == x;
        assert Marks(items, good)[i];
      }
    }
  }

  lemma SameCombination(key: string, one: seq<Value>, two: seq<Value>, good: set<Value>)
    requires multiset(one) == multiset(two)
    ensures Combined(key, Marks(one, good)) == Combined(key, Marks(two, good))
  {
    hide ExactlyOne, Tally;
    SameTally(one, two, good);
    TallyZero(Marks(one, good));
    TallyZero(Marks(two, good));
    TallyOne(Marks(one, good));
    TallyOne(Marks(two, good));
    MarksAll(one, good);
    MarksAll(two, good);
  }

  /** The branches that are schemas and accept `v`. */
  ghost function GoodBranches(env: Env, rank: Rank, items: seq<Value>, v: Value): set<Value>
    requires Ranked(env, rank)
  {
    set x | x in items && x.Obj? && Conforms(env, rank, x, v)
  }

  lemma FlagsByValue(env: Env, rank: Rank, m: map<string, Value>, key: string, v: Value)
    requires Ranked(env, rank) && IsComposition(m, key) && m[key].Arr?
    ensures var items := m[key].items;
            Flags(env, rank, m, key, v) == Marks(items, GoodBranches(env, rank, items, v))
  {
    hide Ranked, Conforms, IsComposition;
    CompositionLevel(env, rank, m, key);
  }

  /** The order of the branches of `allOf`, `anyOf` or `oneOf` does not matter. */
  lemma ReorderMeans(env: Env, rank: Rank, m: map<string, Value>, key: string, items: seq<Value>, v: Value)
    requires Ranked(env, rank) && key in {"allOf", "anyOf", "oneOf"} && key in m && m[key].Arr?
    requires multiset(items) == multiset(m[key].items)
    ensures Conforms(env, rank, Obj(m[key := Arr(items)]), v) == Conforms(env, rank, Obj(m), v)
  {
    if IsComposition(m, key) {
      ReorderedComposition(env, rank, m, key, items, v);
    } else {
      ReorderedElsewhere(env, rank, m, key, items, v);
    }
  }

  lemma ReorderedComposition(env: Env, rank: Rank, m: map<string, Value>, key: string, items: seq<Value>, v: Value)
    requires Ranked(env, rank) && IsComposition(m, key) && m[key].Arr?
    requires multiset(items) == multiset(m[key].items)
    ensures Conforms(env, rank, Obj(m[key := Arr(items)]), v) == Conforms(env, rank, Obj(m), v)
  {
    hide Ranked, Conforms, Flags, Combined, Marks;
    var m' := m[key := Arr(items)];
    assert forall x :: x in items <==> x in multiset(items);
    assert forall x :: x in m[key].items <==> x in multiset(m[key].items);
    assert GoodBranches(env, rank, items, v) == GoodBranches(env, rank, m[key].items, v);
    FlagsByValue(env, rank, m, key, v);
    FlagsByValue(env, rank, m', key, v);
    SameCombination(key, items, m[key].items, GoodBranches(env, rank, items, v));
    CompositionMeans(env, rank, m, key, v);
    CompositionMeans(env, rank, m', key, v);
  }

  /** A list that an earlier keyword keeps from being looked at. */
  lemma ReorderedElsewhere(env: Env, rank: Rank, m: map<string, Value>, key: string, items: seq<Value>, v: Value)
    requires Ranked(env, rank) && key in {"allOf", "anyOf", "oneOf"} && key in m && m[key].Arr?
    requires !IsComposition(m, key)
    ensures Conforms(env, rank, Obj(m[key := Arr(items)]), v) == Conforms(env, rank, Obj(m), v)
  {
    hide Ranked;
    var m' := m[key := Arr(items)];
    if "$ref" !in m {
      var first := if "allOf" in m then "allOf" else "anyOf";
      assert IsComposition(m, first) && IsComposition(m', first) && first != key && m'[first] == m[first];
      SameList(env, rank, m, m', first, v);
    }
  }

  lemma SameList(env: Env, rank: Rank, m: map<string, Value>, m': map<string, Value>, key: string, v: Value)
    requires Ranked(env, rank) && IsComposition(m, key) && IsComposition(m', key) && m'[key] == m[key]
    ensures Conforms(env, rank, Obj(m'), v) == Conforms(env, rank, Obj(m), v)
  {
    hide Ranked, Conforms, Level, LevelOfBranches, Combined;
    if Elements(m[key]).Some? {
      CompositionMeans(env, rank, m, key, v);
      CompositionMeans(env, rank, m', key, v);
      SameFlags(env, rank, m, m', key, v);
    } else {
      NoBranches(env, rank, m, key, v, 1);
      NoBranches(env, rank, m', key, v, 1);
    }
  }

  lemma SameFlags(env: Env, rank: Rank, m: map<string, Value>, m': map<string, Value>, key: string, v: Value)
    requires Ranked(env, rank) && IsComposition(m, key) && IsComposition(m', key) && m'[key] == m[key]
    requires Elements(m[key]).Some?
    ensures Flags(env, rank, m', key, v) == Flags(env, rank, m, key, v)
  {
    hide Ranked, Conforms, IsComposition;
    CompositionLevel(env, rank, m, key);
    CompositionLevel(env, rank, m', key);
  }
}
