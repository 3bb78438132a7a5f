/** How much stack is enough: a bound from the heights of the value and the schemas and
    from the ranks of the definitions. */
module SchemaBounds {
  import opened Wrappers
  import opened Schema
  import opened SchemaMeaning
  import opened SchemaValidation

  /** The value nests at most `n` deep; schemas are values too. */
  ghost predicate HeightWithin(v: Value, n: nat)
    decreases v
  {
    match v
    case Arr(items) => n > 0 && forall i :: 0 <= i < |items| ==> HeightWithin(items[i], n - 1)
    case Obj(fields) => n > 0 && forall k :: k in fields ==> HeightWithin(fields[k], n - 1)
    case _ => true
  }

  lemma {:induction false} HigherStill(v: Value, n: nat, more: nat)
    requires HeightWithin(v, n) && n <= more
    ensures HeightWithin(v, more)
    decreases v
  {
    match v
    case Arr(items) =>
      forall i | 0 <= i < |items| ensures HeightWithin(items[i], more - 1) {
        HigherStill(items[i], n - 1, more - 1);
      }
    case Obj(fields) =>
      forall k | k in fields ensures HeightWithin(fields[k], more - 1) {
        HigherStill(fields[k], n - 1, more - 1);
      }
    case _ =>
  }

  /** Every rank is at most `ranks`, and every definition nests at most `height` deep. */
  ghost predicate Bounded(env: Env, rank: Rank, ranks: nat, height: nat) {
    forall name :: name in env.defs ==> RankOf(rank, name) <= ranks && HeightWithin(env.defs[name], height)
  }

  /** Enough for one level of the value: a step for each level of schemas nested in each
      other, once for each rank on the way. */
  function PerLevel(ranks: nat, height: nat): (n: nat)
    ensures n > 0
  {
    Times(ranks + 2, height + 1)
  }

  /** Multiplication as repeated addition. */
  function Times(n: nat, k: nat): (p: nat)
    ensures n > 0 && k > 0 ==> p >= k
  {
    if n == 0 then 0 else k + Times(n - 1, k)
  }

  /** The bound: for a value of height `v` and a schema of level `level` and height `s`. */
  function Enough(ranks: nat, height: nat, v: nat, level: nat, s: nat): nat {
    Times(v, PerLevel(ranks, height)) + Times(level, height + 1) + s + 1
  }

  lemma {:induction false} TimesGrows(m: nat, n: nat, k: nat)
    requires m <= n
    ensures Times(m, k) <= Times(n, k)
    decreases n
  {
    if m < n {
      TimesGrows(m, n - 1, k);
    }
  }

  lemma {:induction false} TimesIsProduct(n: nat, k: nat)
    ensures Times(n, k) == n * k
  {
    if n > 0 {
      TimesIsProduct(n - 1, k);
      assert n * k == (n - 1) * k + k;
    }
  }

  /** Following a reference to a definition of smaller rank. */
  lemma EnoughForRef(ranks: nat, height: nat, v: nat, level: nat, s: nat, level': nat)
    requires level' < level
    ensures Enough(ranks, height, v, level', height) + 1 <= Enough(ranks, height, v, level, s)
  {
    TimesGrows(level' + 1, level, height + 1);
  }

  /** Going into a branch. */
  lemma EnoughForBranch(ranks: nat, height: nat, v: nat, level: nat, s: nat, level': nat)
    requires level' <= level && s > 0
    ensures Enough(ranks, height, v, level', s - 1) + 1 <= Enough(ranks, height, v, level, s)
  {
    TimesGrows(level', level, height + 1);
  }

  /** Going into an item or member of the value. */
  lemma EnoughForPart(ranks: nat, height: nat, v: nat, level: nat, s: nat, level': nat)
    requires level' <= ranks + 1 && v > 0 && 0 < s <= height
    ensures Enough(ranks, height, v - 1, level', s - 1) + 1 <= Enough(ranks, height, v, level, s)
  {
    TimesGrows(level', ranks + 1, height + 1);
    assert PerLevel(ranks, height) == height + 1 + Times(ranks + 1, height + 1);
  }

  lemma {:induction false} LevelBounded(env: Env, rank: Rank, ranks: nat, height: nat, schema: Value)
    requires Bounded(env, rank, ranks, height)
    ensures Level(env, rank, schema) <= ranks + 1
    decreases schema, 1, 0
  {
    if schema.Obj? && "$ref" !in schema.fields {
      var m := schema.fields;
      if "allOf" in m { ListBounded(env, rank, ranks, height, m["allOf"]); }
      else if "anyOf" in m { ListBounded(env, rank, ranks, height, m["anyOf"]); }
      else if "oneOf" in m { ListBounded(env, rank, ranks, height, m["oneOf"]); }
    }
  }

  lemma {:induction false} ListBounded(env: Env, rank: Rank, ranks: nat, height: nat, list: Value)
    requires Bounded(env, rank, ranks, height)
    ensures LevelOfBranches(env, rank, list) <= ranks + 1
    decreases list, 1, 0
  {
    hide Level;
    if list.Arr? {
      ItemsBounded(env, rank, ranks, height, list, |list.items|);
    }
  }

  lemma {:induction false} ItemsBounded(env: Env, rank: Rank, ranks: nat, height: nat, list: Value, n: nat)
    requires Bounded(env, rank, ranks, height) && list.Arr? && n <= |list.items|
    ensures LevelOfItems(env, rank, list, n) <= ranks + 1
    decreases list, 0, n
  {
    hide Level, Bounded;
    if n > 0 {
      ItemsBounded(env, rank, ranks, height, list, n - 1);
      LevelBounded(env, rank, ranks, height, list.items[n - 1]);
    }
  }

  lemma DecidesWithMore(env: Env, rank: Rank, schema: Value, v: Value, enough: nat, more: nat)
    requires Ranked(env, rank) && Decides(env, rank, schema, v, enough) && enough <= more
    ensures Decides(env, rank, schema, v, more)
  {
    hide Validate, Conforms, Ranked;
  }

  /** The heights that a step needs. */
  ghost predicate Fits(env: Env, rank: Rank, ranks: nat, height: nat, schema: Value, v: Value, s: nat, h: nat) {
    && LawfulRuntime(env.rt) && Ranked(env, rank) && Bounded(env, rank, ranks, height)
    && HeightWithin(schema, s) && s <= height && HeightWithin(v, h)
  }

  /** The validator ends within this much stack, and from there on its verdict is the
      schema's meaning. */
  lemma {:induction false} DecidesWithin(env: Env, rank: Rank, ranks: nat, height: nat, schema: Value, v: Value,
                                         s: nat, h: nat)
    requires Fits(env, rank, ranks, height, schema, v, s, h)
    ensures Decides(env, rank, schema, v, Enough(ranks, height, h, Level(env, rank, schema), s))
    decreases h, Level(env, rank, schema), s
  {
    hide Validate, Conforms, LawfulRuntime, MembersDecided, Decides, BranchesDecided, Enough, Bounded, Properties;
    var enough := Enough(ranks, height, h, Level(env, rank, schema), s);
    EnoughIsPositive(ranks, height, h, Level(env, rank, schema), s);
    if !schema.Obj? {
      NotASchema(env, rank, schema, v);
      DecidesWithMore(env, rank, schema, v, 1, enough);
      return;
    }
    var m := schema.fields;
    if "$ref" in m {
      var name := Resolve(env, m["$ref"]);
      if name.Some? {
        DefFits(env, rank, ranks, height, schema, v, s, h, name.value);
        DecidesWithin(env, rank, ranks, height, env.defs[name.value], v, height, h);
        var level := Level(env, rank, env.defs[name.value]);
        EnoughForRef(ranks, height, h, Level(env, rank, schema), s, level);
        DecidesWithMore(env, rank, env.defs[name.value], v, Enough(ranks, height, h, level, height), enough - 1);
      }
      RefDecides(env, rank, m, v, enough - 1);
    } else if !IsPlain(m) {
      var key := if "allOf" in m then "allOf" else if "anyOf" in m then "anyOf" else "oneOf";
      BranchesWithin(env, rank, ranks, height, m, key, v, s, h);
      ListDecides(env, rank, m, key, v, enough - 1);
    } else {
      PartsWithin(env, rank, ranks, height, m, v, s, h);
      PlainDecides(env, rank, m, v, enough - 1);
    }
  }

  lemma EnoughIsPositive(ranks: nat, height: nat, v: nat, level: nat, s: nat)
    ensures Enough(ranks, height, v, level, s) >= 1
  {
  }

  lemma DefFits(env: Env, rank: Rank, ranks: nat, height: nat, schema: Value, v: Value, s: nat, h: nat, name: string)
    requires Fits(env, rank, ranks, height, schema, v, s, h) && name in env.defs
    requires schema.Obj? && "$ref" in schema.fields && Resolve(env, schema.fields["$ref"]) == Some(name)
    ensures Fits(env, rank, ranks, height, env.defs[name], v, height, h)
    ensures Level(env, rank, env.defs[name]) < Level(env, rank, schema)
  {
    hide HeightWithin, LawfulRuntime;
    assert Level(env, rank, env.defs[name]) <= RankOf(rank, name);
  }

  lemma {:induction false} BranchesWithin(env: Env, rank: Rank, ranks: nat, height: nat, m: map<string, Value>,
                                          key: string,
                                          v: Value, s: nat, h: nat)
    requires Fits(env, rank, ranks, height, Obj(m), v, s, h) && IsComposition(m, key)
    ensures Enough(ranks, height, h, Level(env, rank, Obj(m)), s) >= 1
    ensures BranchesDecided(env, rank, m[key], v, Enough(ranks, height, h, Level(env, rank, Obj(m)), s) - 1)
    decreases h, Level(env, rank, Obj(m)), s, 0
  {
    hide Validate, Conforms, LawfulRuntime, Decides, Enough, Bounded, Ranked;
    var list, level := m[key], Level(env, rank, Obj(m));
    EnoughIsPositive(ranks, height, h, level, s);
    if list.Arr? {
      CompositionLevel(env, rank, m, key);
      forall i | 0 <= i < |list.items| && list.items[i].Obj?
        ensures Decides(env, rank, list.items[i], v, Enough(ranks, height, h, level, s) - 1)
      {
        BranchFits(list, s - 1, i);
        BranchLevel(env, rank, list, |list.items|, i);
        var level' := Level(env, rank, list.items[i]);
        ListLevel(env, rank, list);
        DecidesWithin(env, rank, ranks, height, list.items[i], v, s - 1, h);
        EnoughForBranch(ranks, height, h, level, s, level');
        DecidesWithMore(env, rank, list.items[i], v, Enough(ranks, height, h, level', s - 1),
                        Enough(ranks, height, h, level, s) - 1);
      }
    }
  }

  lemma ListLevel(env: Env, rank: Rank, list: Value)
    requires list.Arr?
    ensures LevelOfBranches(env, rank, list) == LevelOfItems(env, rank, list, |list.items|)
  {
  }

  lemma BranchFits(list: Value, s: nat, i: nat)
    requires HeightWithin(list, s) && list.Arr? && i < |list.items|
    ensures HeightWithin(list.items[i], s)
  {
    HigherStill(list.items[i], s - 1, s);
  }

  /** A part of the value against a subschema. */
  lemma {:induction false} PartWithin(env: Env, rank: Rank, ranks: nat, height: nat, m: map<string, Value>, v: Value,
                                      s: nat, h: nat,
                                      sub: Value, part: Value)
    requires Fits(env, rank, ranks, height, Obj(m), v, s, h) && h > 0 && s > 0
    requires HeightWithin(sub, s - 1) && HeightWithin(part, h - 1)
    ensures Enough(ranks, height, h, Level(env, rank, Obj(m)), s) >= 1
    ensures Decides(env, rank, sub, part, Enough(ranks, height, h, Level(env, rank, Obj(m)), s) - 1)
    decreases h, Level(env, rank, Obj(m)), s, 0
  {
    hide Validate, Conforms, LawfulRuntime, Decides, Enough, Bounded, Ranked, HeightWithin, Level;
    var level, level' := Level(env, rank, Obj(m)), Level(env, rank, sub);
    EnoughIsPositive(ranks, height, h, level, s);
    DecidesWithin(env, rank, ranks, height, sub, part, s - 1, h - 1);
    LevelBounded(env, rank, ranks, height, sub);
    EnoughForPart(ranks, height, h, level, s, level');
    DecidesWithMore(env, rank, sub, part, Enough(ranks, height, h - 1, level', s - 1),
                    Enough(ranks, height, h, level, s) - 1);
  }

  lemma PropertyFits(m: map<string, Value>, s: nat, k: string)
    requires HeightWithin(Obj(m), s) && Properties(m).Some? && k in Properties(m).value
    ensures s > 0 && HeightWithin(Properties(m).value[k], s - 1)
  {
    assert HeightWithin(m["properties"], s - 1);
    HigherStill(Properties(m).value[k], s - 2, s - 1);
  }

  lemma {:induction false} PartsWithin(env: Env, rank: Rank, ranks: nat, height: nat, m: map<string, Value>, v: Value,
                                       s: nat, h: nat)
    requires Fits(env, rank, ranks, height, Obj(m), v, s, h)
    ensures Enough(ranks, height, h, Level(env, rank, Obj(m)), s) >= 1
    ensures var below := Enough(ranks, height, h, Level(env, rank, Obj(m)), s) - 1;
            && (v.Arr? && "items" in m ==>
                  forall i :: 0 <= i < |v.items| ==> Decides(env, rank, m["items"], v.items[i], below))
            && (v.Obj? && Properties(m).Some? ==> MembersDecided(env, rank, m, v, below))
    decreases h, Level(env, rank, Obj(m)), s, 1
  {
    hide Validate, Conforms, LawfulRuntime, Decides, Enough, Bounded, Ranked, Properties, Level;
    var below := Enough(ranks, height, h, Level(env, rank, Obj(m)), s) - 1;
    EnoughIsPositive(ranks, height, h, Level(env, rank, Obj(m)), s);
    if v.Arr? && "items" in m {
      forall i | 0 <= i < |v.items| ensures Decides(env, rank, m["items"], v.items[i], below) {
        PartWithin(env, rank, ranks, height, m, v, s, h, m["items"], v.items[i]);
      }
    }
    if v.Obj? && Properties(m).Some? {
      var props := Properties(m).value;
      forall k | k in props && k in v.fields && props[k].Obj? ensures Decides(env, rank, props[k], v.fields[k], below) {
        PropertyFits(m, s, k);
        PartWithin(env, rank, ranks, height, m, v, s, h, props[k], v.fields[k]);
      }
      if "additionalProperties" in m {
        var others := m["additionalProperties"];
        forall k | k in v.fields ensures Decides(env, rank, others, v.fields[k], below) {
          PartWithin(env, rank, ranks, height, m, v, s, h, others, v.fields[k]);
        }
      }
    }
  }

  /** With schemas, definitions included, of height at most `height`, ranks of at most
      `ranks` and a value of height `h`, no more than
      `(h + 1) * (ranks + 2) * (height + 1)` calls are ever nested. */
  lemma DepthIsEnough(env: Env, rank: Rank, ranks: nat, height: nat, schema: Value, v: Value, h: nat, depth: nat)
    requires Fits(env, rank, ranks, height, schema, v, height, h)
    requires depth >= (h + 1) * ((ranks + 2) * (height + 1))
    ensures Validate(env, depth, schema, v) == Check(Conforms(env, rank, schema, v))
  {
    hide Validate, Conforms, HeightWithin, Ranked, LawfulRuntime, Bounded, Times;
    DecidesWithin(env, rank, ranks, height, schema, v, height, h);
    LevelBounded(env, rank, ranks, height, schema);
    TimesGrows(Level(env, rank, schema), ranks + 1, height + 1);
    TimesUp(ranks + 1, height + 1);
    TimesUp(h, PerLevel(ranks, height));
    TimesIsProduct(ranks + 2, height + 1);
    TimesIsProduct(h + 1, PerLevel(ranks, height));
  }

  lemma TimesUp(n: nat, k: nat)
    ensures Times(n + 1, k) == k + Times(n, k)
  {
  }

  // ----- there are always such bounds -----------------------------------------------------------

  lemma {:induction false} SomeHeight(v: Value) returns (n: nat)
    ensures HeightWithin(v, n)
    decreases v, 1, 0
  {
    n := 0;
    match v
    case Arr(items) =>
      var below := ItemsHeight(v, |items|);
      n := below + 1;
    case Obj(fields) =>
      var below := MembersHeight(v, fields.Keys);
      n := below + 1;
    case _ =>
  }

  lemma {:induction false} ItemsHeight(v: Value, k: nat) returns (n: nat)
    requires v.Arr? && k <= |v.items|
    ensures forall i :: 0 <= i < k ==> HeightWithin(v.items[i], n)
    decreases v, 0, k
  {
    hide HeightWithin;
    n := 0;
    if k > 0 {
      var before := ItemsHeight(v, k - 1);
      var last := SomeHeight(v.items[k - 1]);
      n := Max(before, last);
      forall i | 0 <= i < k ensures HeightWithin(v.items[i], n) {
        HigherStill(v.items[i], if i < k - 1 then before else last, n);
      }
    }
  }

  lemma {:induction false} MembersHeight(v: Value, keys: set<string>) returns (n: nat)
    requires v.Obj? && keys <= v.fields.Keys
    ensures forall k :: k in keys ==> HeightWithin(v.fields[k], n)
    decreases v, 0, |keys|
  {
    hide HeightWithin;
    n := 0;
    if keys != {} {
      var k :| k in keys;
      var before := MembersHeight(v, keys - {k});
      var here := SomeHeight(v.fields[k]);
      n := Max(before, here);
      forall k' | k' in keys ensures HeightWithin(v.fields[k'], n) {
        HigherStill(v.fields[k'], if k' == k then here else before, n);
      }
    }
  }

  lemma {:induction false} SomeRank(rank: Rank, names: set<string>) returns (n: nat)
    ensures forall name :: name in names ==> RankOf(rank, name) <= n
    decreases |names|
  {
    n := 0;
    if names != {} {
      var name :| name in names;
      var before := SomeRank(rank, names - {name});
      n := Max(before, RankOf(rank, name));
    }
  }

  /** Every schema, value and set of definitions has bounds, so the validator always ends on
      acyclic definitions. */
  lemma BoundsExist(env: Env, rank: Rank, schema: Value, v: Value) returns (ranks: nat, height: nat, h: nat)
    requires LawfulRuntime(env.rt) && Ranked(env, rank)
    ensures Fits(env, rank, ranks, height, schema, v, height, h)
  {
    hide HeightWithin, LawfulRuntime, Ranked;
    h := SomeHeight(v);
    ranks := SomeRank(rank, env.defs.Keys);
    var one := SomeHeight(schema);
    var two := MembersHeight(Obj(env.defs), env.defs.Keys);
    height := Max(one, two);
    HigherStill(schema, one, height);
    forall name | name in env.defs ensures RankOf(rank, name) <= ranks && HeightWithin(env.defs[name], height) {
      HigherStill(env.defs[name], two, height);
    }
  }
}
