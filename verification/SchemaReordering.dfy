/** Reordering the branches of compositions anywhere, in a schema and in its definitions. */
module SchemaReordering {
  import opened Schema
  import opened SchemaMeaning
  import opened SchemaValidation
  import opened SchemaTwins
  import opened SchemaRewriting

  // ----- what a reordering is ------------------------------------------------------------------

  /** `s'` is `s` with the branches of its compositions in another order, at any depth. */
  ghost predicate IsReordering(s: Value, s': Value)
    decreases s, 1
  {
    match s
    case Obj(m) =>
      s'.Obj? && s'.fields.Keys == m.Keys
      && if "$ref" in m then s'.fields["$ref"] == m["$ref"]
         else forall k :: k in m ==> FieldReordered(k, m[k], s'.fields[k])
    case _ => s' == s
  }

  ghost predicate FieldReordered(k: string, x: Value, x': Value)
    decreases x, 2
  {
    match x
    case Arr(_) =>
      if k in {"allOf", "anyOf", "oneOf"} then x'.Arr? && exists mid :: IsBetween(x, mid, x'.items) else x' == x
    case Obj(fs) =>
      if k == "properties" then
        x'.Obj? && x'.fields.Keys == fs.Keys && forall p :: p in fs ==> IsReordering(fs[p], x'.fields[p])
      else if k in {"items", "additionalProperties"} then IsReordering(x, x')
      else x' == x
    case _ => x' == x
  }

  /** The branches of `list`, each reordered itself, in their place; and in any order. */
  ghost predicate IsBetween(list: Value, mid: seq<Value>, items': seq<Value>)
    requires list.Arr?
    decreases list, 0
  {
    && |mid| == |list.items| && multiset(mid) == multiset(items')
    && forall i :: 0 <= i < |mid| ==> IsReordering(list.items[i], mid[i])
  }

  /** The same definitions, each reordered. */
  ghost predicate DefsReordered(a: Env, b: Env) {
    && b.rt == a.rt && b.defs.Keys == a.defs.Keys
    && forall name :: name in a.defs ==> IsReordering(a.defs[name], b.defs[name])
  }

  lemma SameKind(s: Value, s': Value)
    requires IsReordering(s, s')
    ensures s'.Obj? == s.Obj?
  {
  }

  // ----- rankings carry over -------------------------------------------------------------------

  lemma {:induction false} LevelNoHigher(a: Env, b: Env, rank: Rank, s: Value, s': Value)
    requires DefsReordered(a, b) && IsReordering(s, s')
    ensures Level(b, rank, s') <= Level(a, rank, s)
    decreases s
  {
    hide DefsReordered, FieldReordered;
    if s.Obj? {
      var m, m' := s.fields, s'.fields;
      if "$ref" in m {
        SameResolve(a, b, m["$ref"]);
      } else if !IsPlain(m) {
        var key := Composed(m);
        CompositionReordered(m, m', key);
        if m[key].Arr? {
          var mid: seq<Value> :| IsBetween(m[key], mid, m'[key].items);
          BranchesNoHigher(a, b, rank, m[key], mid, m'[key].items, |m'[key].items|);
        }
      }
    }
  }

  /** The keyword that speaks for a composition. */
  function Composed(m: map<string, Value>): (key: string)
    requires !IsPlain(m) && "$ref" !in m
    ensures IsComposition(m, key)
  {
    if "allOf" in m then "allOf" else if "anyOf" in m then "anyOf" else "oneOf"
  }

  lemma SameResolve(a: Env, b: Env, ref: Value)
    requires DefsReordered(a, b)
    ensures Resolve(b, ref) == Resolve(a, ref)
  {
    hide IsReordering;
  }

  lemma CompositionReordered(m: map<string, Value>, m': map<string, Value>, key: string)
    requires IsReordering(Obj(m), Obj(m')) && IsComposition(m, key)
    ensures IsComposition(m', key)
    ensures if m[key].Arr? then m'[key].Arr? && exists mid :: IsBetween(m[key], mid, m'[key].items)
            else !m'[key].Arr? && TwinLists(m[key], m'[key])
  {
    hide IsBetween;
    assert FieldReordered(key, m[key], m'[key]);
    if m[key].Obj? {
      assert m'[key] == m[key];
    }
  }

  lemma {:induction false} BranchesNoHigher(a: Env, b: Env, rank: Rank, list: Value, mid: seq<Value>,
                                            items': seq<Value>, n: nat)
    requires DefsReordered(a, b) && list.Arr? && IsBetween(list, mid, items') && n <= |items'|
    ensures LevelOfItems(b, rank, Arr(items'), n) <= LevelOfBranches(a, rank, list)
    decreases list, n
  {
    hide DefsReordered, Level, IsReordering;
    if n > 0 {
      BranchesNoHigher(a, b, rank, list, mid, items', n - 1);
      assert items'[n - 1] in multiset(items');
      assert items'[n - 1] in mid;
      var i :| 0 <= i < |mid| && mid[i] == items'[n - 1];
      LevelNoHigher(a, b, rank, list.items[i], mid[i]);
      BranchLevel(a, rank, list, |list.items|, i);
    }
  }

  lemma StillRanked(a: Env, b: Env, rank: Rank)
    requires DefsReordered(a, b) && Ranked(a, rank)
    ensures Ranked(b, rank)
  {
    hide IsReordering, Level;
    forall name | name in b.defs ensures Level(b, rank, b.defs[name]) <= RankOf(rank, name) {
      LevelNoHigher(a, b, rank, a.defs[name], b.defs[name]);
    }
  }

  // ----- the meaning stays -----------------------------------------------------------------------

  /** Reordering branches anywhere in an acyclic schema and its definitions leaves the
      accepted values unchanged. */
  lemma {:induction false} ReorderThroughout(a: Setting, b: Setting, s: Value, s': Value, v: Value)
    requires Founded(a) && Founded(b) && b.rank == a.rank && DefsReordered(a.env, b.env) && IsReordering(s, s')
    ensures Alike(a, s, b, s', v)
    decreases v, Level(a.env, a.rank, s), s, 1
  {
    hide Conforms, DefsReordered, FieldReordered, Alike, AreTwins, PartsAlike;
    if !s.Obj? {
      NotASchemaAlike(a, b, s, v);
      return;
    }
    var m, m' := s.fields, s'.fields;
    if "$ref" in m {
      SameResolve(a.env, b.env, m["$ref"]);
      if Resolve(a.env, m["$ref"]).Some? {
        var name := Resolve(a.env, m["$ref"]).value;
        DefReordered(a.env, b.env, name);
        ReorderThroughout(a, b, a.env.defs[name], b.env.defs[name], v);
      }
      RefAlike(a, m, b, m', v);
    } else if IsPlain(m) {
      ReorderedTwins(m, m');
      PartsReordered(a, m, b, m', v);
      SameSurroundings(a.env, b.env);
      PlainAlike(a, m, b, m', v);
    } else {
      ReorderedComposition(a, m, b, m', Composed(m), v);
    }
  }

  lemma NotASchemaAlike(a: Setting, b: Setting, s: Value, v: Value)
    requires Founded(a) && Founded(b) && !s.Obj?
    ensures Alike(a, s, b, s, v)
  {
  }

  lemma SameSurroundings(a: Env, b: Env)
    requires DefsReordered(a, b)
    ensures b.rt == a.rt
  {
  }

  lemma DefReordered(a: Env, b: Env, name: string)
    requires DefsReordered(a, b) && name in a.defs
    ensures name in b.defs && IsReordering(a.defs[name], b.defs[name])
  {
    hide IsReordering;
  }

  lemma RefAlike(a: Setting, m: map<string, Value>, b: Setting, m': map<string, Value>, v: Value)
    requires Founded(a) && Founded(b) && "$ref" in m && "$ref" in m' && m'["$ref"] == m["$ref"]
    requires Resolve(b.env, m["$ref"]) == Resolve(a.env, m["$ref"])
    requires Resolve(a.env, m["$ref"]).Some? ==>
               var name := Resolve(a.env, m["$ref"]).value; Alike(a, a.env.defs[name], b, b.env.defs[name], v)
    ensures Alike(a, Obj(m), b, Obj(m'), v)
  {
  }

  lemma ReorderedTwins(m: map<string, Value>, m': map<string, Value>)
    requires IsReordering(Obj(m), Obj(m')) && "$ref" !in m
    ensures AreTwins(m, m')
  {
    hide IsBetween, Properties;
    assert forall k :: k in m ==> FieldReordered(k, m[k], m'[k]);
    forall k | k in m && k !in SCHEMA_KEYS ensures m'[k] == m[k] {
      assert FieldReordered(k, m[k], m'[k]);
    }
    SubschemaReordered(m, m', "items");
    SubschemaReordered(m, m', "additionalProperties");
    PropertiesReordered(m, m');
  }

  lemma SubschemaReordered(m: map<string, Value>, m': map<string, Value>, k: string)
    requires IsReordering(Obj(m), Obj(m')) && "$ref" !in m && k in {"items", "additionalProperties"}
    ensures TwinSubschema(m, m', k)
    ensures k in m && m[k].Obj? ==> IsReordering(m[k], m'[k])
  {
    hide IsBetween;
    if k in m {
      assert FieldReordered(k, m[k], m'[k]);
      if m[k].Obj? {
        SameKind(m[k], m'[k]);
      }
    }
  }

  lemma PropertiesReordered(m: map<string, Value>, m': map<string, Value>)
    requires IsReordering(Obj(m), Obj(m')) && "$ref" !in m
    ensures TwinProperties(Properties(m), Properties(m'))
    ensures Properties(m).Some? ==>
              forall p :: p in Properties(m).value ==> IsReordering(Properties(m).value[p], Properties(m').value[p])
  {
    hide IsBetween;
    if "properties" in m {
      var ps, ps' := m["properties"], m'["properties"];
      assert FieldReordered("properties", ps, ps');
      if ps.Obj? {
        assert ps'.Obj? && ps'.fields.Keys == ps.fields.Keys;
        assert ps.fields == map[] <==> ps'.fields == map[] by {
          assert ps.fields == map[] <==> ps.fields.Keys == {};
          assert ps'.fields == map[] <==> ps'.fields.Keys == {};
        }
        forall p | p in ps.fields ensures ps'.fields[p].Obj? == ps.fields[p].Obj? {
          SameKind(ps.fields[p], ps'.fields[p]);
        }
      }
    }
  }

  lemma {:induction false} PartsReordered(a: Setting, m: map<string, Value>, b: Setting, m': map<string, Value>,
                                          v: Value)
    requires Founded(a) && Founded(b) && b.rank == a.rank && DefsReordered(a.env, b.env)
    requires IsReordering(Obj(m), Obj(m')) && "$ref" !in m && AreTwins(m, m')
    ensures PartsAlike(a, m, b, m', v)
    decreases v, Level(a.env, a.rank, Obj(m)), Obj(m), 0
  {
    hide Conforms, Ranked, DefsReordered, FieldReordered, Alike, Properties, Level, IsReordering;
    SubschemaReordered(m, m', "items");
    SubschemaReordered(m, m', "additionalProperties");
    PropertiesReordered(m, m');
    if v.Arr? && "items" in m && m["items"].Obj? {
      forall i | 0 <= i < |v.items| ensures Alike(a, m["items"], b, m'["items"], v.items[i]) {
        ReorderThroughout(a, b, m["items"], m'["items"], v.items[i]);
      }
    }
    if v.Obj? {
      if Properties(m).Some? {
        var ps, ps' := Properties(m).value, Properties(m').value;
        forall k | k in ps && k in v.fields ensures Alike(a, ps[k], b, ps'[k], v.fields[k]) {
          ReorderThroughout(a, b, ps[k], ps'[k], v.fields[k]);
        }
      }
      if "additionalProperties" in m && m["additionalProperties"].Obj? {
        forall k | k in v.fields
          ensures Alike(a, m["additionalProperties"], b, m'["additionalProperties"], v.fields[k])
        {
          ReorderThroughout(a, b, m["additionalProperties"], m'["additionalProperties"], v.fields[k]);
        }
      }
    }
  }

  /** First each branch in its place, then the places. */
  lemma {:induction false} ReorderedComposition(a: Setting, m: map<string, Value>, b: Setting, m': map<string, Value>,
                                                key: string, v: Value)
    requires Founded(a) && Founded(b) && b.rank == a.rank && DefsReordered(a.env, b.env)
    requires IsReordering(Obj(m), Obj(m')) && IsComposition(m, key)
    ensures Alike(a, Obj(m), b, Obj(m'), v)
    decreases v, Level(a.env, a.rank, Obj(m)), Obj(m), 0
  {
    hide Conforms, Ranked, DefsReordered, IsReordering, Level, LevelOfBranches;
    CompositionReordered(m, m', key);
    if m[key].Arr? {
      var list := m[key];
      var mid: seq<Value> :| IsBetween(list, mid, m'[key].items);
      var between := m'[key := Arr(mid)];
      CompositionLevel(a.env, a.rank, m, key);
      forall i | 0 <= i < |list.items|
        ensures list.items[i].Obj? == mid[i].Obj? && Alike(a, list.items[i], b, mid[i], v)
      {
        SameKind(list.items[i], mid[i]);
        BranchLevel(a.env, a.rank, list, |list.items|, i);
        LevelOfList(a.env, a.rank, list);
        ReorderThroughout(a, b, list.items[i], mid[i], v);
      }
      SameKeys(m, m');
      CompositionAlike(a, m, b, between, key, v);
      ReorderMeans(b.env, b.rank, between, key, m'[key].items, v);
      assert between[key := Arr(m'[key].items)] == m';
    } else {
      SameKeys(m, m');
      CompositionAlike(a, m, b, m', key, v);
    }
  }

  lemma SameKeys(m: map<string, Value>, m': map<string, Value>)
    requires IsReordering(Obj(m), Obj(m'))
    ensures m'.Keys == m.Keys
  {
  }

  lemma LevelOfList(env: Env, rank: Rank, list: Value)
    requires list.Arr?
    ensures LevelOfBranches(env, rank, list) == LevelOfItems(env, rank, list, |list.items|)
  {
  }

  /** So with enough stack the validator gives the same verdict, never overflow. */
  lemma ReorderKeepsVerdicts(a: Env, b: Env, rank: Rank, s: Value, s': Value, v: Value)
    requires LawfulRuntime(a.rt) && Ranked(a, rank) && DefsReordered(a, b) && IsReordering(s, s')
    ensures exists enough: nat :: SameFrom(a, s, b, s', v, enough)
  {
    hide Validate, Conforms, IsReordering;
    StillRanked(a, b, rank);
    SameSurroundings(a, b);
    ReorderThroughout(Setting(a, rank), Setting(b, rank), s, s', v);
    var one := ValidateDecides(a, rank, s, v);
    var two := ValidateDecides(b, rank, s', v);
    assert SameFrom(a, s, b, s', v, Max(one, two));
  }

  ghost predicate SameFrom(a: Env, s: Value, b: Env, s': Value, v: Value, enough: nat) {
    forall depth: nat :: depth >= enough ==> Validate(b, depth, s', v) == Validate(a, depth, s, v) != Overflow
  }
}
