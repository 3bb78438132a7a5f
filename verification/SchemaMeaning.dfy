/** What a schema means, and that the validator decides exactly that. */
module SchemaMeaning {
  import opened Wrappers
  import opened Schema
  import Text

  // ----- leaves of the meaning, by themselves -------------------------------------------------

  /** Python's `==`, case by case: numbers by value whatever their kind, lists by position,
      dictionaries by key. */
  predicate Equal(a: Value, b: Value) {
    match a
    case Null => b.Null?
    case Str(s) => b == a
    case Arr(xs) => b.Arr? && |b.items| == |xs| && forall i :: 0 <= i < |xs| ==> Equal(xs[i], b.items[i])
    case Obj(m) => b.Obj? && b.fields.Keys == m.Keys && forall k :: k in m ==> Equal(m[k], b.fields[k])
    case _ => (b.Bool? || b.Int? || b.Float?) && Number(a) == Number(b)
  }

  function Number(v: Value): real
    requires v.Bool? || v.Int? || v.Float?
  {
    match v
    case Bool(b) => if b then 1.0 else 0.0
    case Int(i) => i as real
    case Float(r) => r
  }

  /** Having the same canonical form is being equal. */
  lemma {:induction false} SameIsEqual(a: Value, b: Value)
    ensures Same(a, b) <==> Equal(a, b)
  {
    match a
    case Arr(xs) =>
      if b.Arr? {
        forall i | 0 <= i < |xs| && i < |b.items| ensures Same(xs[i], b.items[i]) <==> Equal(xs[i], b.items[i]) {
          SameIsEqual(xs[i], b.items[i]);
        }
        SameItems(xs, b.items);
      }
    case Obj(m) =>
      if b.Obj? {
        forall k | k in m && k in b.fields ensures Same(m[k], b.fields[k]) <==> Equal(m[k], b.fields[k]) {
          SameIsEqual(m[k], b.fields[k]);
        }
        SameFields(m, b.fields);
      }
    case _ =>
  }

  lemma SameItems(xs: seq<Value>, ys: seq<Value>)
    ensures Same(Arr(xs), Arr(ys)) <==> |xs| == |ys| && forall i :: 0 <= i < |xs| ==> Same(xs[i], ys[i])
  {
    var cx, cy := Canon(Arr(xs)).items, Canon(Arr(ys)).items;
    assert |cx| == |xs| && |cy| == |ys|;
    assert forall i :: 0 <= i < |xs| ==> cx[i] == Canon(xs[i]);
    assert forall i :: 0 <= i < |ys| ==> cy[i] == Canon(ys[i]);
  }

  lemma SameFields(m: map<string, Value>, n: map<string, Value>)
    ensures Same(Obj(m), Obj(n)) <==> m.Keys == n.Keys && forall k :: k in m ==> Same(m[k], n[k])
  {
    var cm, cn := Canon(Obj(m)).fields, Canon(Obj(n)).fields;
    assert cm.Keys == m.Keys && cn.Keys == n.Keys;
    assert forall k :: k in m ==> cm[k] == Canon(m[k]);
    assert forall k :: k in n ==> cn[k] == Canon(n[k]);
  }

  lemma {:induction false} AfterSlashAppend(before: string, name: string)
    requires '/' !in name
    ensures AfterSlash(before + "/" + name) == name
  {
    var s := before + "/" + name;
    if name != "" {
      assert s[..|s| - 1] == before + "/" + name[..|name| - 1];
      AfterSlashAppend(before, name[..|name| - 1]);
    }
  }

  lemma {:induction false} NoSlash(name: string)
    requires '/' !in name
    ensures AfterSlash(name) == name
  {
    if name != "" {
      NoSlash(name[..|name| - 1]);
    }
  }

  lemma ResolveStripped(env: Env, t: string, name: string)
    requires LawfulRuntime(env.rt) && Text.IsStripped(t) && t != ""
    requires name == if "#/" <= t then AfterSlash(t[2..]) else t
    ensures Resolve(env, Str(t)) == if name in env.defs then Some(name) else None
  {
    hide Text.Strip, Text.IsStripped, AfterSlash;
    Text.StripFixes(t);
  }

  lemma StrippedAround(before: string, name: string)
    requires Text.IsStripped(name) && name != "" && "#/" <= before
    ensures Text.IsStripped(before + name) && "#/" <= before + name && (before + name)[2..] == before[2..] + name
  {
    var s := before + name;
    assert s[0] == '#' && s[|s| - 1] == name[|name| - 1];
  }

  /** The documented forms of a reference: `#/<any path>/name`, `#/name`, and a plain
      name, which may then hold slashes. A name that is not defined resolves to nothing. */
  lemma ReferenceForms(env: Env, path: string, name: string)
    requires LawfulRuntime(env.rt) && name != "" && Text.IsStripped(name)
    ensures var found := if name in env.defs then Some(name) else None;
            && ('/' !in name ==> Resolve(env, Str("#/" + path + "/" + name)) == found)
            && ('/' !in name ==> Resolve(env, Str("#/" + name)) == found)
            && (!("#/" <= name) ==> Resolve(env, Str(name)) == found)
  {
    hide Resolve, AfterSlash, Text.IsStripped, LawfulRuntime;
    if '/' !in name {
      var before := "#/" + path + "/";
      StrippedAround(before, name);
      assert before[2..] == path + "/";
      AfterSlashAppend(path, name);
      ResolveStripped(env, before + name, name);
      StrippedAround("#/", name);
      assert "#/"[2..] + name == name;
      NoSlash(name);
      ResolveStripped(env, "#/" + name, name);
    }
    if !("#/" <= name) {
      ResolveStripped(env, name, name);
    }
  }

  // ----- acyclic references -----------------------------------------------------------------

  type Rank = map<string, nat>

  function RankOf(rank: Rank, name: string): nat {
    if name in rank then rank[name] else 0
  }

  function Max(a: nat, b: nat): nat {
    if a > b then a else b
  }

  /** One more than the greatest rank of a definition the schema reaches through `$ref`
      and composition alone, without going through `properties`, `items` or
      `additionalProperties`. */
  function Level(env: Env, rank: Rank, schema: Value): nat
    decreases schema, 1, 0
  {
    match schema
    case Obj(m) =>
      if "$ref" in m then
        (match Resolve(env, m["$ref"]) case None => 0 case Some(name) => 1 + RankOf(rank, name))
      else if "allOf" in m then LevelOfBranches(env, rank, m["allOf"])
      else if "anyOf" in m then LevelOfBranches(env, rank, m["anyOf"])
      else if "oneOf" in m then LevelOfBranches(env, rank, m["oneOf"])
      else 0
    case _ => 0
  }

  function LevelOfBranches(env: Env, rank: Rank, list: Value): nat
    decreases list, 1, 0
  {
    match list
    case Arr(items) => LevelOfItems(env, rank, list, |items|)
    case _ => 0
  }

  function LevelOfItems(env: Env, rank: Rank, list: Value, n: nat): nat
    requires list.Arr? && n <= |list.items|
    decreases list, 0, n
  {
    if n == 0 then 0 else Max(LevelOfItems(env, rank, list, n - 1), Level(env, rank, list.items[n - 1]))
  }

  lemma {:induction false} BranchLevel(env: Env, rank: Rank, list: Value, n: nat, i: nat)
    requires list.Arr? && i < n <= |list.items|
    ensures Level(env, rank, list.items[i]) <= LevelOfItems(env, rank, list, n)
    decreases n
  {
    if i < n - 1 {
      BranchLevel(env, rank, list, n - 1, i);
    }
  }

  /** No definition reaches itself through references and composition alone: each
      reaches only definitions of smaller rank. */
  ghost predicate Ranked(env: Env, rank: Rank) {
    forall name :: name in env.defs ==> Level(env, rank, env.defs[name]) <= RankOf(rank, name)
  }

  // ----- the declarative meaning ----------------------------------------------------------------

  /** Exactly one index satisfies the flag. */
  predicate ExactlyOne(flags: seq<bool>) {
    exists i :: 0 <= i < |flags| && flags[i] && forall j :: 0 <= j < |flags| && flags[j] ==> j == i
  }

  /** Whether `schema` accepts `v`. A reference means its definition; else `allOf` means
      every branch, else `anyOf` some branch, else `oneOf` exactly one, else the value
      must meet `const`, `enum` and `type` together. */
  ghost predicate Conforms(env: Env, rank: Rank, schema: Value, v: Value)
    requires Ranked(env, rank)
    decreases v, Level(env, rank, schema), schema, 3
  {
    match schema
    case Null => true
    case Obj(m) =>
      if "$ref" in m then
        var name := Resolve(env, m["$ref"]);
        name.Some? && Conforms(env, rank, env.defs[name.value], v)
      else if "allOf" in m then
        var es := Elements(m["allOf"]);
        es.Some? && forall i :: 0 <= i < |es.value| ==>
          es.value[i].Obj? && BranchOk(env, rank, schema, m["allOf"], i, v)
      else if "anyOf" in m then
        var es := Elements(m["anyOf"]);
        es.Some? && exists i :: 0 <= i < |es.value| && es.value[i].Obj? && BranchOk(env, rank, schema, m["anyOf"], i, v)
      else if "oneOf" in m then
        var es := Elements(m["oneOf"]);
        es.Some? && ExactlyOne(seq(|es.value|, i requires 0 <= i < |es.value| =>
                                 es.value[i].Obj? && BranchOk(env, rank, schema, m["oneOf"], i, v)))
      else ConstOk(m, v) && EnumOk(m, v) && TypeOk(env, rank, schema, v)
    case _ => false
  }

  /** Branch `i` of a composition accepts `v`. */
  ghost predicate BranchOk(env: Env, rank: Rank, schema: Value, list: Value, i: nat, v: Value)
    requires Ranked(env, rank) && list < schema
    requires Elements(list).Some? && i < |Elements(list).value| && Elements(list).value[i].Obj?
    requires LevelOfBranches(env, rank, list) <= Level(env, rank, schema)
    decreases v, Level(env, rank, schema), schema, 0
  {
    BranchLevel(env, rank, list, |list.items|, i);
    Conforms(env, rank, list.items[i], v)
  }

  ghost predicate TypeOk(env: Env, rank: Rank, schema: Value, v: Value)
    requires Ranked(env, rank) && schema.Obj?
    decreases v, Level(env, rank, schema), schema, 2
  {
    var m := schema.fields;
    Get(m, "type").Null?
    || match TypeName(env, m)
       case "null" => v.Null?
       case "boolean" => v.Bool?
       case "integer" => v.Int? && BoundsOk(env, m, NumberOf(v))
       case "number" => (v.Int? || v.Float?) && BoundsOk(env, m, NumberOf(v))
       case "string" => v.Str? && SizeOk(env, m, "minLength", "maxLength", |v.s|) && PatternOk(env, m, v.s)
       case "array" =>
         && v.Arr? && SizeOk(env, m, "minItems", "maxItems", |v.items|)
         && (Get(m, "items").Null? || (m["items"].Obj? && EachOk(env, rank, schema, v)))
       case "object" => v.Obj? && ObjectOk(env, rank, schema, v)
       case _ => false
  }

  /** The schema accepts every item of the array. */
  ghost predicate EachOk(env: Env, rank: Rank, schema: Value, v: Value)
    requires Ranked(env, rank) && schema.Obj? && "items" in schema.fields && v.Arr?
    decreases v, Level(env, rank, schema), schema, 0
  {
    forall i :: 0 <= i < |v.items| ==> Conforms(env, rank, schema.fields["items"], v.items[i])
  }

  /** Required keys are present, known properties conform, and the others are allowed. */
  ghost predicate ObjectOk(env: Env, rank: Rank, schema: Value, v: Value)
    requires Ranked(env, rank) && schema.Obj? && v.Obj?
    decreases v, Level(env, rank, schema), schema, 1
  {
    var m := schema.fields;
    var props := Properties(m);
    && props.Some? && RequiredOk(env, m, v.fields)
    && KnownOk(env, rank, schema, v)
    && ("additionalProperties" in m ==>
          match m["additionalProperties"]
          case Null => true
          case Bool(b) => b || forall k :: k in v.fields ==> k in props.value
          case Obj(_) => OthersOk(env, rank, schema, v)
          case _ => false)
  }

  ghost predicate KnownOk(env: Env, rank: Rank, schema: Value, v: Value)
    requires Ranked(env, rank) && schema.Obj? && Properties(schema.fields).Some? && v.Obj?
    decreases v, Level(env, rank, schema), schema, 0
  {
    var props := Properties(schema.fields).value;
    forall k :: k in props && k in v.fields ==> props[k].Obj? && Conforms(env, rank, props[k], v.fields[k])
  }

  ghost predicate OthersOk(env: Env, rank: Rank, schema: Value, v: Value)
    requires Ranked(env, rank) && schema.Obj? && Properties(schema.fields).Some? && v.Obj?
    requires "additionalProperties" in schema.fields
    decreases v, Level(env, rank, schema), schema, 0
  {
    forall k :: k in v.fields && k !in Properties(schema.fields).value ==>
      Conforms(env, rank, schema.fields["additionalProperties"], v.fields[k])
  }
}
