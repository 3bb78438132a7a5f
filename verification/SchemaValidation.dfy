/** The validator decides the declarative meaning, given enough stack, and never
    answers otherwise. */
module SchemaValidation {
  import opened Wrappers
  import opened Schema
  import opened SchemaMeaning

  // ----- the loops ---------------------------------------------------------------------------

  /** Calls with `depth` left decide the branches that are schemas as the flags say. */
  predicate BranchesAre(env: Env, depth: nat, es: seq<Value>, v: Value, flags: seq<bool>) {
    && |flags| == |es|
    && forall i :: 0 <= i < |es| ==>
         if es[i].Obj? then Validate(env, depth, es[i], v) == Check(flags[i]) else !flags[i]
  }

  lemma TailBranches(env: Env, depth: nat, es: seq<Value>, v: Value, flags: seq<bool>)
    requires BranchesAre(env, depth, es, v, flags) && es != []
    ensures BranchesAre(env, depth, es[1..], v, flags[1..])
  {
    hide Validate;
  }

  lemma {:induction false} AllOfLoop(env: Env, depth: nat, es: seq<Value>, v: Value, flags: seq<bool>)
    requires BranchesAre(env, depth, es, v, flags)
    ensures AllOf(env, depth, es, v) == Check(forall i :: 0 <= i < |flags| ==> flags[i])
    decreases |es|
  {
    hide Validate;
    if es != [] {
      TailBranches(env, depth, es, v, flags);
      AllOfLoop(env, depth, es[1..], v, flags[1..]);
      assert forall i :: 1 <= i < |flags| ==> flags[i] == flags[1..][i - 1];
      assert (forall i :: 0 <= i < |flags| ==> flags[i])
        <==> flags[0] && forall i :: 0 <= i < |flags[1..]| ==> flags[1..][i];
    }
  }

  lemma {:induction false} AnyOfLoop(env: Env, depth: nat, es: seq<Value>, v: Value, flags: seq<bool>)
    requires BranchesAre(env, depth, es, v, flags)
    ensures AnyOf(env, depth, es, v) == Check(exists i :: 0 <= i < |flags| && flags[i])
    decreases |es|
  {
    hide Validate;
    if es != [] {
      TailBranches(env, depth, es, v, flags);
      AnyOfLoop(env, depth, es[1..], v, flags[1..]);
      assert forall i :: 1 <= i < |flags| ==> flags[i] == flags[1..][i - 1];
      assert (exists i :: 0 <= i < |flags| && flags[i])
        <==> flags[0] || exists i :: 0 <= i < |flags[1..]| && flags[1..][i];
    }
  }

  function Tally(flags: seq<bool>): nat {
    if flags == [] then 0 else (if flags[0] then 1 else 0) + Tally(flags[1..])
  }

  lemma {:induction false} OneOfLoop(env: Env, depth: nat, es: seq<Value>, v: Value, flags: seq<bool>, matches: nat)
    requires BranchesAre(env, depth, es, v, flags)
    ensures OneOf(env, depth, es, v, matches) == Check(matches + Tally(flags) == 1)
    decreases |es|
  {
    hide Validate;
    if es != [] {
      TailBranches(env, depth, es, v, flags);
      OneOfLoop(env, depth, es[1..], v, flags[1..], matches + if flags[0] then 1 else 0);
    }
  }

  lemma {:induction false} TallyZero(flags: seq<bool>)
    ensures Tally(flags) == 0 <==> forall i :: 0 <= i < |flags| ==> !flags[i]
  {
    if flags != [] {
      TallyZero(flags[1..]);
      assert forall i :: 1 <= i < |flags| ==> flags[i] == flags[1..][i - 1];
      if forall i :: 0 <= i < |flags[1..]| ==> !flags[1..][i] {
      }
    }
  }

  /** Counting to one is finding exactly one. */
  lemma {:induction false} TallyOne(flags: seq<bool>)
    ensures Tally(flags) == 1 <==> ExactlyOne(flags)
  {
    if flags != [] {
      var rest := flags[1..];
      TallyOne(rest);
      TallyZero(rest);
      assert forall i :: 1 <= i < |flags| ==> flags[i] == rest[i - 1];
      assert forall i :: 0 <= i < |rest| ==> rest[i] == flags[i + 1];
      if flags[0] && Tally(rest) == 0 {
        assert forall j :: 0 <= j < |flags| && flags[j] ==> j == 0;
      }
      if !flags[0] && ExactlyOne(rest) {
        var i :| 0 <= i < |rest| && rest[i] && forall j :: 0 <= j < |rest| && rest[j] ==> j == i;
        assert flags[i + 1] && forall j :: 0 <= j < |flags| && flags[j] ==> j == i + 1;
      }
      if ExactlyOne(flags) {
        var i :| 0 <= i < |flags| && flags[i] && forall j :: 0 <= j < |flags| && flags[j] ==> j == i;
        if i > 0 {
          assert rest[i - 1] && forall j :: 0 <= j < |rest| && rest[j] ==> j == i - 1;
        }
      }
    }
  }

  lemma {:induction false} EachLoop(env: Env, depth: nat, schema: Value, vs: seq<Value>, flags: seq<bool>)
    requires |flags| == |vs| && forall i :: 0 <= i < |vs| ==> Validate(env, depth, schema, vs[i]) == Check(flags[i])
    ensures Each(env, depth, schema, vs) == Check(forall i :: 0 <= i < |flags| ==> flags[i])
    decreases |vs|
  {
    hide Validate;
    if vs != [] {
      EachLoop(env, depth, schema, vs[1..], flags[1..]);
      assert forall i :: 1 <= i < |flags| ==> flags[i] == flags[1..][i - 1];
      assert (forall i :: 0 <= i < |flags| ==> flags[i])
        <==> flags[0] && forall i :: 0 <= i < |flags[1..]| ==> flags[1..][i];
    }
  }

  /** The known properties among `keys` that a call decides to accept. */
  lemma {:induction false} KnownLoop(env: Env, depth: nat, props: map<string, Value>, keys: seq<string>,
                                     o: map<string, Value>, good: set<string>)
    requires forall k :: k in props && k in o && props[k].Obj? ==>
        Validate(env, depth, props[k], o[k]) == Check(k in good)
    ensures Known(env, depth, props, keys, o)
         == Check(forall k :: k in keys && k in props && k in o ==> props[k].Obj? && k in good)
    decreases |keys|
  {
    hide Validate;
    if keys != [] {
      KnownLoop(env, depth, props, keys[1..], o, good);
      assert forall k :: k in keys <==> k == keys[0] || k in keys[1..];
    }
  }

  lemma {:induction false} OthersLoop(env: Env, depth: nat, schema: Value, props: map<string, Value>, keys: seq<string>,
                                      o: map<string, Value>, good: set<string>)
    requires forall k :: k in o && k !in props ==> Validate(env, depth, schema, o[k]) == Check(k in good)
    ensures Others(env, depth, schema, props, keys, o)
         == Check(forall k :: k in keys && k in o && k !in props ==> k in good)
    decreases |keys|
  {
    hide Validate;
    if keys != [] {
      OthersLoop(env, depth, schema, props, keys[1..], o, good);
      assert forall k :: k in keys <==> k == keys[0] || k in keys[1..];
    }
  }

  // ----- enough stack -------------------------------------------------------------------------

  /** From `enough` calls on, the validator's verdict on `v` is its meaning. */
  ghost predicate Decides(env: Env, rank: Rank, schema: Value, v: Value, enough: nat)
    requires Ranked(env, rank)
  {
    forall depth: nat :: depth >= enough ==> Validate(env, depth, schema, v) == Check(Conforms(env, rank, schema, v))
  }

  lemma {:induction false} BranchesDecide(env: Env, rank: Rank, schema: Value, list: Value, n: nat, v: Value)
    returns (enough: nat)
    requires LawfulRuntime(env.rt) && Ranked(env, rank) && list.Arr? && n <= |list.items| && list < schema
    requires LevelOfBranches(env, rank, list) <= Level(env, rank, schema)
    ensures forall i :: 0 <= i < n && list.items[i].Obj? ==> Decides(env, rank, list.items[i], v, enough)
    decreases v, Level(env, rank, schema), schema, 1, n
  {
    hide Validate, Conforms, LawfulRuntime, Ranked;
    enough := 0;
    if n > 0 {
      var before := BranchesDecide(env, rank, schema, list, n - 1, v);
      enough := before;
      BranchLevel(env, rank, list, |list.items|, n - 1);
      var last := ValidateDecides(env, rank, list.items[n - 1], v);
      enough := Max(before, last);
    }
  }

  lemma {:induction false} ItemsDecide(env: Env, rank: Rank, schema: Value, items: Value, v: Value, n: nat)
    returns (enough: nat)
    requires LawfulRuntime(env.rt) && Ranked(env, rank) && v.Arr? && n <= |v.items|
    ensures forall i :: 0 <= i < n ==> Decides(env, rank, items, v.items[i], enough)
    decreases v, Level(env, rank, schema), schema, 0, n
  {
    hide Validate, Conforms, LawfulRuntime, Ranked;
    enough := 0;
    if n > 0 {
      var before := ItemsDecide(env, rank, schema, items, v, n - 1);
      var last := ValidateDecides(env, rank, items, v.items[n - 1]);
      enough := Max(before, last);
    }
  }

  /** Each member of the object named by `keys` is decided against the schema `pick`
      gives for it. */
  lemma {:induction false} MembersDecide(env: Env, rank: Rank, schema: Value, pick: map<string, Value>, v: Value,
                                         keys: set<string>)
    returns (enough: nat)
    requires LawfulRuntime(env.rt) && Ranked(env, rank) && v.Obj?
    requires forall k :: k in keys ==> k in pick && k in v.fields
    ensures forall k :: k in keys ==> Decides(env, rank, pick[k], v.fields[k], enough)
    decreases v, Level(env, rank, schema), schema, 0, |keys|
  {
    hide Validate, Conforms, LawfulRuntime, Ranked;
    enough := 0;
    if keys != {} {
      var k :| k in keys;
      var before := MembersDecide(env, rank, schema, pick, v, keys - {k});
      var here := ValidateDecides(env, rank, pick[k], v.fields[k]);
      enough := Max(before, here);
      assert keys == (keys - {k}) + {k};
    }
  }

  lemma RefDecides(env: Env, rank: Rank, m: map<string, Value>, v: Value, below: nat)
    requires Ranked(env, rank) && "$ref" in m
    requires Resolve(env, m["$ref"]).Some? ==> Decides(env, rank, env.defs[Resolve(env, m["$ref"]).value], v, below)
    ensures Decides(env, rank, Obj(m), v, below + 1)
  {
  }

  /** The composition keyword that speaks for the schema, if any. */
  predicate IsComposition(m: map<string, Value>, key: string) {
    && "$ref" !in m && key in m
    && (key == "allOf" || (key == "anyOf" && "allOf" !in m) || (key == "oneOf" && "allOf" !in m && "anyOf" !in m))
  }

  lemma CompositionLevel(env: Env, rank: Rank, m: map<string, Value>, key: string)
    requires IsComposition(m, key)
    ensures m[key] < Obj(m) && LevelOfBranches(env, rank, m[key]) <= Level(env, rank, Obj(m))
  {
  }

  /** Which branches are schemas that accept `v`. */
  ghost function Flags(env: Env, rank: Rank, m: map<string, Value>, key: string, v: Value): (flags: seq<bool>)
    requires Ranked(env, rank) && IsComposition(m, key) && Elements(m[key]).Some?
  {
    CompositionLevel(env, rank, m, key);
    var es := Elements(m[key]).value;
    seq(|es|, i requires 0 <= i < |es| => es[i].Obj? && BranchOk(env, rank, Obj(m), m[key], i, v))
  }

  ghost predicate BranchesDecided(env: Env, rank: Rank, list: Value, v: Value, below: nat)
    requires Ranked(env, rank)
  {
    list.Arr? ==> forall i :: 0 <= i < |list.items| && list.items[i].Obj? ==>
      Decides(env, rank, list.items[i], v, below)
  }

  lemma FlagsAre(env: Env, rank: Rank, m: map<string, Value>, key: string, v: Value, below: nat, depth: nat)
    requires Ranked(env, rank) && IsComposition(m, key) && Elements(m[key]).Some?
    requires BranchesDecided(env, rank, m[key], v, below) && depth >= below
    ensures BranchesAre(env, depth, Elements(m[key]).value, v, Flags(env, rank, m, key, v))
  {
    hide Validate, Conforms, Ranked, Level, LevelOfBranches, IsComposition;
    CompositionLevel(env, rank, m, key);
  }

  /** The three compositions, in terms of the branches that accept. */
  predicate Combined(key: string, flags: seq<bool>) {
    if key == "allOf" then (forall i :: 0 <= i < |flags| ==> flags[i])
    else if key == "anyOf" then (exists i :: 0 <= i < |flags| && flags[i])
    else ExactlyOne(flags)
  }

  lemma CompositionMeans(env: Env, rank: Rank, m: map<string, Value>, key: string, v: Value)
    requires Ranked(env, rank) && IsComposition(m, key) && Elements(m[key]).Some?
    ensures Conforms(env, rank, Obj(m), v) == Combined(key, Flags(env, rank, m, key, v))
  {
    hide BranchOk, Ranked, Level, LevelOfBranches, Elements, ExactlyOne;
    CompositionLevel(env, rank, m, key);
    var es, flags := Elements(m[key]).value, Flags(env, rank, m, key, v);
    assert forall i :: 0 <= i < |es| ==> flags[i] == (es[i].Obj? && BranchOk(env, rank, Obj(m), m[key], i, v));
  }

  lemma CompositionVerdict(env: Env, m: map<string, Value>, key: string, v: Value, depth: nat, flags: seq<bool>)
    requires IsComposition(m, key) && Elements(m[key]).Some? && depth > 0
    requires BranchesAre(env, depth - 1, Elements(m[key]).value, v, flags)
    ensures Validate(env, depth, Obj(m), v) == Check(Combined(key, flags))
  {
    hide BranchesAre, AllOf, AnyOf, OneOf, ExactlyOne, Elements, Tally, ByType;
    var es := Elements(m[key]).value;
    AllOfLoop(env, depth - 1, es, v, flags);
    AnyOfLoop(env, depth - 1, es, v, flags);
    OneOfLoop(env, depth - 1, es, v, flags, 0);
    TallyOne(flags);
  }

  lemma NoBranches(env: Env, rank: Rank, m: map<string, Value>, key: string, v: Value, depth: nat)
    requires Ranked(env, rank) && IsComposition(m, key) && Elements(m[key]).None? && depth > 0
    ensures Validate(env, depth, Obj(m), v) == Reject && !Conforms(env, rank, Obj(m), v)
  {
    hide Ranked, Level, LevelOfBranches, Elements, AllOf, AnyOf, OneOf, ByType;
  }

  /** A composition is decided once its branches are. */
  lemma ListDecides(env: Env, rank: Rank, m: map<string, Value>, key: string, v: Value, below: nat)
    requires Ranked(env, rank) && IsComposition(m, key) && BranchesDecided(env, rank, m[key], v, below)
    ensures Decides(env, rank, Obj(m), v, below + 1)
  {
    hide Ranked, BranchesDecided, Validate, Conforms, BranchesAre, Combined, Flags, Elements;
    forall depth: nat | depth >= below + 1
      ensures Validate(env, depth, Obj(m), v) == Check(Conforms(env, rank, Obj(m), v))
    {
      if Elements(m[key]).Some? {
        FlagsAre(env, rank, m, key, v, below, depth - 1);
        CompositionVerdict(env, m, key, v, depth, Flags(env, rank, m, key, v));
        CompositionMeans(env, rank, m, key, v);
      } else {
        NoBranches(env, rank, m, key, v, depth);
      }
    }
  }

  lemma ArrayMeans(env: Env, rank: Rank, m: map<string, Value>, v: Value, depth: nat, below: nat)
    requires Ranked(env, rank) && v.Arr? && "items" in m && depth >= below
    requires forall i :: 0 <= i < |v.items| ==> Decides(env, rank, m["items"], v.items[i], below)
    ensures Each(env, depth, m["items"], v.items) == Check(EachOk(env, rank, Obj(m), v))
  {
    hide Validate, Conforms, Ranked;
    var flags := seq(|v.items|, i requires 0 <= i < |v.items| => Conforms(env, rank, m["items"], v.items[i]));
    EachLoop(env, depth, m["items"], v.items, flags);
    assert (forall i :: 0 <= i < |flags| ==> flags[i])
      <==> forall i :: 0 <= i < |v.items| ==> Conforms(env, rank, m["items"], v.items[i]);
  }

  lemma KnownMeans(env: Env, rank: Rank, m: map<string, Value>, v: Value, depth: nat, below: nat)
    requires LawfulRuntime(env.rt) && Ranked(env, rank) && v.Obj? && Properties(m).Some? && depth >= below
    requires var props := Properties(m).value;
             forall k :: k in props && k in v.fields && props[k].Obj? ==>
                 Decides(env, rank, props[k], v.fields[k], below)
    ensures var props := Properties(m).value;
            Known(env, depth, props, env.rt.order(props), v.fields) == Check(KnownOk(env, rank, Obj(m), v))
  {
    hide Validate, Conforms, Ranked, Properties;
    var props, o := Properties(m).value, v.fields;
    var good := set k | k in props && k in o && Conforms(env, rank, props[k], o[k]);
    KnownLoop(env, depth, props, env.rt.order(props), o, good);
  }

  lemma OthersMeans(env: Env, rank: Rank, m: map<string, Value>, v: Value, depth: nat, below: nat)
    requires LawfulRuntime(env.rt) && Ranked(env, rank) && v.Obj? && Properties(m).Some? && depth >= below
    requires "additionalProperties" in m
    requires forall k :: k in v.fields && k !in Properties(m).value ==>
               Decides(env, rank, m["additionalProperties"], v.fields[k], below)
    ensures Others(env, depth, m["additionalProperties"], Properties(m).value, env.rt.order(v.fields), v.fields)
         == Check(OthersOk(env, rank, Obj(m), v))
  {
    hide Validate, Conforms, Ranked, Properties;
    var props, o, addl := Properties(m).value, v.fields, m["additionalProperties"];
    var good := set k | k in o && Conforms(env, rank, addl, o[k]);
    OthersLoop(env, depth, addl, props, env.rt.order(o), o, good);
  }

  /** Every member of the object that a schema applies to is decided. */
  ghost predicate MembersDecided(env: Env, rank: Rank, m: map<string, Value>, v: Value, below: nat)
    requires Ranked(env, rank) && v.Obj? && Properties(m).Some?
  {
    var props := Properties(m).value;
    && (forall k :: k in props && k in v.fields && props[k].Obj? ==> Decides(env, rank, props[k], v.fields[k], below))
    && ("additionalProperties" in m && m["additionalProperties"].Obj? ==>
          forall k :: k in v.fields && k !in props ==>
              Decides(env, rank, m["additionalProperties"], v.fields[k], below))
  }

  lemma ObjectMeans(env: Env, rank: Rank, m: map<string, Value>, v: Value, depth: nat, below: nat)
    requires LawfulRuntime(env.rt) && Ranked(env, rank) && v.Obj? && depth >= below
    requires Properties(m).Some? ==> MembersDecided(env, rank, m, v, below)
    ensures OfObject(env, depth, m, v.fields) == Check(ObjectOk(env, rank, Obj(m), v))
  {
    hide Validate, Conforms, Ranked, Properties, Known, Others, KnownOk, OthersOk, Decides;
    if Properties(m).Some? {
      KnownMeans(env, rank, m, v, depth, below);
      if "additionalProperties" in m && m["additionalProperties"].Obj? {
        OthersMeans(env, rank, m, v, depth, below);
      }
    }
  }

  /** No `$ref` and no composition: `const`, `enum` and `type` speak. */
  predicate IsPlain(m: map<string, Value>) {
    "$ref" !in m && "allOf" !in m && "anyOf" !in m && "oneOf" !in m
  }

  lemma PlainDecides(env: Env, rank: Rank, m: map<string, Value>, v: Value, below: nat)
    requires LawfulRuntime(env.rt) && Ranked(env, rank) && IsPlain(m)
    requires v.Arr? && "items" in m ==> forall i :: 0 <= i < |v.items| ==>
        Decides(env, rank, m["items"], v.items[i], below)
    requires v.Obj? && Properties(m).Some? ==> MembersDecided(env, rank, m, v, below)
    ensures Decides(env, rank, Obj(m), v, below + 1)
  {
    forall depth: nat | depth >= below + 1
      ensures Validate(env, depth, Obj(m), v) == Check(Conforms(env, rank, Obj(m), v))
    {
      PlainAt(env, rank, m, v, below, depth);
    }
  }

  lemma PlainAt(env: Env, rank: Rank, m: map<string, Value>, v: Value, below: nat, depth: nat)
    requires LawfulRuntime(env.rt) && Ranked(env, rank) && IsPlain(m) && depth >= below + 1
    requires v.Arr? && "items" in m ==> forall i :: 0 <= i < |v.items| ==>
        Decides(env, rank, m["items"], v.items[i], below)
    requires v.Obj? && Properties(m).Some? ==> MembersDecided(env, rank, m, v, below)
    ensures Validate(env, depth, Obj(m), v) == Check(Conforms(env, rank, Obj(m), v))
  {
    hide Decides, MembersDecided, Each, EachOk, OfObject, ObjectOk, Ranked;
    hide LawfulRuntime, BoundsOk, SizeOk, PatternOk, ConstOk, EnumOk, TypeName;
    if v.Arr? && "items" in m {
      ArrayMeans(env, rank, m, v, depth - 1, below);
    }
    if v.Obj? {
      ObjectMeans(env, rank, m, v, depth - 1, below);
    }
  }

  /** For definitions that reach each other acyclically outside of properties, items
      and additional properties, the validator terminates within some stack depth, and
      from that depth on its verdict is the schema's meaning. */
  lemma {:induction false} ValidateDecides(env: Env, rank: Rank, schema: Value, v: Value) returns (enough: nat)
    requires LawfulRuntime(env.rt) && Ranked(env, rank)
    ensures Decides(env, rank, schema, v, enough)
    decreases v, Level(env, rank, schema), schema, 2, 0
  {
    hide Validate, Conforms, LawfulRuntime, MembersDecided, Decides;
    if !schema.Obj? {
      NotASchema(env, rank, schema, v);
      return 1;
    }
    var m := schema.fields;
    if "$ref" in m {
      var name := Resolve(env, m["$ref"]);
      var below := 0;
      if name.Some? {
        below := ValidateDecides(env, rank, env.defs[name.value], v);
      }
      RefDecides(env, rank, m, v, below);
      return below + 1;
    }
    if "allOf" in m || "anyOf" in m || "oneOf" in m {
      var key := if "allOf" in m then "allOf" else if "anyOf" in m then "anyOf" else "oneOf";
      var below := 0;
      if m[key].Arr? {
        below := BranchesDecide(env, rank, schema, m[key], |m[key].items|, v);
      }
      ListDecides(env, rank, m, key, v, below);
      return below + 1;
    }
    var below := 0;
    if v.Arr? && "items" in m {
      below := ItemsDecide(env, rank, schema, m["items"], v, |v.items|);
    } else if v.Obj? && Properties(m).Some? {
      below := ObjectDecides(env, rank, schema, v);
    }
    PlainDecides(env, rank, m, v, below);
    enough := below + 1;
  }

  lemma NotASchema(env: Env, rank: Rank, schema: Value, v: Value)
    requires Ranked(env, rank) && !schema.Obj?
    ensures Decides(env, rank, schema, v, 1)
  {
  }

  lemma {:induction false} ObjectDecides(env: Env, rank: Rank, schema: Value, v: Value) returns (enough: nat)
    requires LawfulRuntime(env.rt) && Ranked(env, rank) && schema.Obj? && v.Obj? && Properties(schema.fields).Some?
    ensures MembersDecided(env, rank, schema.fields, v, enough)
    decreases v, Level(env, rank, schema), schema, 1, 0
  {
    hide Validate, Conforms, LawfulRuntime, Ranked, Properties;
    var m := schema.fields;
    var props := Properties(m).value;
    var known := MembersDecide(env, rank, schema, props, v, props.Keys * v.fields.Keys);
    enough := known;
    if "additionalProperties" in m {
      var keys := v.fields.Keys - props.Keys;
      var others := MembersDecide(env, rank, schema, map k | k in keys :: m["additionalProperties"], v, keys);
      enough := Max(known, others);
      assert forall k :: k in keys ==>
               (map k' | k' in keys :: m["additionalProperties"])[k] == m["additionalProperties"];
    }
  }

  // ----- every stack depth ------------------------------------------------------------------

  /** A verdict other than overflow stays the same with more stack. */
  ghost predicate Steady(env: Env, depth: nat) {
    forall schema, v :: Validate(env, depth, schema, v) != Overflow ==>
      Validate(env, depth + 1, schema, v) == Validate(env, depth, schema, v)
  }

  lemma {:induction false} SteadyAllOf(env: Env, depth: nat, es: seq<Value>, v: Value)
    requires Steady(env, depth) && AllOf(env, depth, es, v) != Overflow
    ensures AllOf(env, depth + 1, es, v) == AllOf(env, depth, es, v)
    decreases |es|
  {
    hide Validate;
    if es != [] && es[0].Obj? && Validate(env, depth, es[0], v) == Accept {
      SteadyAllOf(env, depth, es[1..], v);
    }
  }

  lemma {:induction false} SteadyAnyOf(env: Env, depth: nat, es: seq<Value>, v: Value)
    requires Steady(env, depth) && AnyOf(env, depth, es, v) != Overflow
    ensures AnyOf(env, depth + 1, es, v) == AnyOf(env, depth, es, v)
    decreases |es|
  {
    hide Validate;
    if es != [] && !(es[0].Obj? && Validate(env, depth, es[0], v) == Accept) {
      SteadyAnyOf(env, depth, es[1..], v);
    }
  }

  lemma {:induction false} SteadyOneOf(env: Env, depth: nat, es: seq<Value>, v: Value, matches: nat)
    requires Steady(env, depth) && OneOf(env, depth, es, v, matches) != Overflow
    ensures OneOf(env, depth + 1, es, v, matches) == OneOf(env, depth, es, v, matches)
    decreases |es|
  {
    hide Validate;
    if es != [] {
      SteadyOneOf(env, depth, es[1..], v,
                  matches + if es[0].Obj? && Validate(env, depth, es[0], v) == Accept then 1 else 0);
    }
  }

  lemma {:induction false} SteadyEach(env: Env, depth: nat, schema: Value, vs: seq<Value>)
    requires Steady(env, depth)
    ensures Each(env, depth, schema, vs) != Overflow ==>
              Each(env, depth + 1, schema, vs) == Each(env, depth, schema, vs)
    decreases |vs|
  {
    hide Validate;
    if vs != [] {
      SteadyEach(env, depth, schema, vs[1..]);
    }
  }

  lemma {:induction false} SteadyMembers(env: Env, depth: nat, schema: Value, props: map<string, Value>,
                                         keys: seq<string>,
                                         o: map<string, Value>)
    requires Steady(env, depth)
    ensures Known(env, depth, props, keys, o) != Overflow ==>
              Known(env, depth + 1, props, keys, o) == Known(env, depth, props, keys, o)
    ensures Others(env, depth, schema, props, keys, o) != Overflow ==>
              Others(env, depth + 1, schema, props, keys, o) == Others(env, depth, schema, props, keys, o)
    decreases |keys|
  {
    hide Validate;
    if keys != [] {
      SteadyMembers(env, depth, schema, props, keys[1..], o);
    }
  }

  lemma SteadyObject(env: Env, depth: nat, m: map<string, Value>, o: map<string, Value>)
    requires Steady(env, depth)
    ensures OfObject(env, depth, m, o) != Overflow ==> OfObject(env, depth + 1, m, o) == OfObject(env, depth, m, o)
  {
    hide Validate, Steady, Each, Known, Others, Properties;
    if Properties(m).Some? {
      var props := Properties(m).value;
      SteadyMembers(env, depth, Null, props, env.rt.order(props), o);
      if "additionalProperties" in m {
        SteadyMembers(env, depth, m["additionalProperties"], props, env.rt.order(o), o);
      }
    }
  }

  lemma SteadyType(env: Env, depth: nat, m: map<string, Value>, v: Value)
    requires Steady(env, depth)
    ensures ByType(env, depth, m, v) != Overflow ==> ByType(env, depth + 1, m, v) == ByType(env, depth, m, v)
  {
    hide Validate, Steady, Each, OfObject, TypeName, BoundsOk, SizeOk, PatternOk;
    if v.Arr? && "items" in m {
      SteadyEach(env, depth, m["items"], v.items);
    }
    if v.Obj? {
      SteadyObject(env, depth, m, v.fields);
    }
  }

  lemma SteadyComposition(env: Env, depth: nat, m: map<string, Value>, key: string, v: Value)
    requires Steady(env, depth) && IsComposition(m, key) && Validate(env, depth + 1, Obj(m), v) != Overflow
    ensures Validate(env, depth + 2, Obj(m), v) == Validate(env, depth + 1, Obj(m), v)
  {
    hide Steady, AllOf, AnyOf, OneOf, ByType, Elements, ConstOk, EnumOk;
    if Elements(m[key]).Some? {
      var es := Elements(m[key]).value;
      match key {
        case "allOf" => SteadyAllOf(env, depth, es, v);
        case "anyOf" => SteadyAnyOf(env, depth, es, v);
        case _ => SteadyOneOf(env, depth, es, v, 0);
      }
    }
  }

  lemma SteadyStep(env: Env, depth: nat, schema: Value, v: Value)
    requires Steady(env, depth) && Validate(env, depth + 1, schema, v) != Overflow
    ensures Validate(env, depth + 2, schema, v) == Validate(env, depth + 1, schema, v)
  {
    hide ByType, AllOf, AnyOf, OneOf, ConstOk, EnumOk, Elements;
    if schema.Obj? {
      var m := schema.fields;
      if IsPlain(m) {
        SteadyType(env, depth, m, v);
      } else if "$ref" !in m {
        var key := if "allOf" in m then "allOf" else if "anyOf" in m then "anyOf" else "oneOf";
        SteadyComposition(env, depth, m, key, v);
      }
    }
  }

  lemma {:induction false} AlwaysSteady(env: Env, depth: nat)
    ensures Steady(env, depth)
  {
    if depth > 0 {
      AlwaysSteady(env, depth - 1);
      forall schema, v | Validate(env, depth, schema, v) != Overflow
        ensures Validate(env, depth + 1, schema, v) == Validate(env, depth, schema, v)
      {
        SteadyStep(env, depth - 1, schema, v);
      }
    }
  }

  /** More stack never changes a verdict other than overflow. */
  lemma {:induction false} MoreStack(env: Env, depth: nat, more: nat, schema: Value, v: Value)
    requires depth <= more && Validate(env, depth, schema, v) != Overflow
    ensures Validate(env, more, schema, v) == Validate(env, depth, schema, v)
    decreases more - depth
  {
    hide Validate;
    if depth < more {
      AlwaysSteady(env, depth);
      MoreStack(env, depth + 1, more, schema, v);
    }
  }

  /** At every stack depth the validator either overflows or gives the schema's meaning;
      and it gives it from some depth on. */
  lemma ValidatorIsRight(env: Env, rank: Rank, schema: Value, v: Value)
    requires LawfulRuntime(env.rt) && Ranked(env, rank)
    ensures forall depth :: Validate(env, depth, schema, v) in {Overflow, Check(Conforms(env, rank, schema, v))}
    ensures exists enough: nat :: Decides(env, rank, schema, v, enough)
  {
    hide Validate, Conforms, LawfulRuntime, Ranked;
    var enough := ValidateDecides(env, rank, schema, v);
    forall depth: nat
      ensures Validate(env, depth, schema, v) in {Overflow, Check(Conforms(env, rank, schema, v))}
    {
      if Validate(env, depth, schema, v) != Overflow {
        MoreStack(env, depth, Max(depth, enough), schema, v);
      }
    }
  }

  // ----- outside the condition ----------------------------------------------------------------

  /** The schema is certain to be followed into one of the names: by its reference, or by
      the first branch of its composition. */
  predicate LeadsInto(env: Env, names: set<string>, schema: Value)
    decreases schema
  {
    match schema
    case Obj(m) =>
      if "$ref" in m then Resolve(env, m["$ref"]).Some? && Resolve(env, m["$ref"]).value in names
      else if "allOf" in m then FirstLeadsInto(env, names, m["allOf"])
      else if "anyOf" in m then FirstLeadsInto(env, names, m["anyOf"])
      else "oneOf" in m && FirstLeadsInto(env, names, m["oneOf"])
    case _ => false
  }

  predicate FirstLeadsInto(env: Env, names: set<string>, list: Value)
    decreases list
  {
    list.Arr? && list.items != [] && LeadsInto(env, names, list.items[0])
  }

  /** Definitions that lead into each other: every cycle of references is one, of any
      length. */
  predicate IsTrap(env: Env, names: set<string>) {
    forall name :: name in names ==> name in env.defs && LeadsInto(env, names, env.defs[name])
  }

  /** The condition matters: a schema that leads into a cycle of definitions overflows at
      every depth, whatever the value. */
  lemma {:induction false} CycleOverflows(env: Env, depth: nat, names: set<string>, schema: Value, v: Value)
    requires IsTrap(env, names) && LeadsInto(env, names, schema)
    ensures Validate(env, depth, schema, v) == Overflow
    decreases depth
  {
    if depth > 0 {
      var m := schema.fields;
      if "$ref" in m {
        var name := Resolve(env, m["$ref"]).value;
        CycleOverflows(env, depth - 1, names, env.defs[name], v);
      } else {
        var key := if "allOf" in m then "allOf" else if "anyOf" in m then "anyOf" else "oneOf";
        CycleOverflows(env, depth - 1, names, m[key].items[0], v);
        FirstBranchOverflows(env, m, key, v, depth);
      }
    }
  }

  lemma FirstBranchOverflows(env: Env, m: map<string, Value>, key: string, v: Value, depth: nat)
    requires IsComposition(m, key) && m[key].Arr? && m[key].items != [] && m[key].items[0].Obj? && depth > 0
    requires Validate(env, depth - 1, m[key].items[0], v) == Overflow
    ensures Validate(env, depth, Obj(m), v) == Overflow
  {
    hide ByType, ConstOk, EnumOk;
    var es := m[key].items;
    assert AllOf(env, depth - 1, es, v) == Overflow;
    assert AnyOf(env, depth - 1, es, v) == Overflow;
    assert OneOf(env, depth - 1, es, v, 0) == Overflow;
  }

  /** Each definition of the cycle is a reference to the next, the last to the first. */
  predicate IsReferenceCycle(env: Env, cycle: seq<string>) {
    forall i :: 0 <= i < |cycle| ==>
      && cycle[i] in env.defs && env.defs[cycle[i]].Obj? && "$ref" in env.defs[cycle[i]].fields
      && Resolve(env, env.defs[cycle[i]].fields["$ref"]) == Some(cycle[if i + 1 < |cycle| then i + 1 else 0])
  }

  /** In particular every cycle of references, the shortest being one to itself. */
  lemma ReferenceCycleOverflows(env: Env, depth: nat, cycle: seq<string>, i: nat, v: Value)
    requires IsReferenceCycle(env, cycle) && i < |cycle|
    ensures Validate(env, depth, env.defs[cycle[i]], v) == Overflow
  {
    hide Validate, Resolve;
    var names := set name | name in cycle;
    forall name | name in names ensures name in env.defs && LeadsInto(env, names, env.defs[name]) {
      var j :| 0 <= j < |cycle| && cycle[j] == name;
      assert cycle[if j + 1 < |cycle| then j + 1 else 0] in cycle;
    }
    CycleOverflows(env, depth, names, env.defs[cycle[i]], v);
  }

  /** A string where a list of schemas belongs is taken as a list of characters: `allOf`
      then accepts every value if the string is empty and none otherwise, and `anyOf` and
      `oneOf` accept none. */
  lemma StringForBranches(env: Env, depth: nat, m: map<string, Value>, key: string, v: Value)
    requires IsComposition(m, key) && m[key].Str? && depth > 0
    ensures Validate(env, depth, Obj(m), v) == Check(key == "allOf" && m[key].s == "")
  {
    hide ByType, ConstOk, EnumOk;
    var s := m[key].s;
    var es := Elements(m[key]).value;
    var flags := seq(|s|, i => false);
    assert BranchesAre(env, depth - 1, es, v, flags);
    CompositionVerdict(env, m, key, v, depth, flags);
    assert Combined(key, flags) == (key == "allOf" && s == "");
  }
}
