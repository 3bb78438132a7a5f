/** The payload validator of the custom protocol builder. Schemas are themselves JSON
    values, so malformed ones are judged as the code judges them. */
module Schema {
  import opened Wrappers
  import Text

  datatype Value =
    | Null
    | Bool(b: bool)
    | Int(i: int)
    | Float(r: real)
    | Str(s: string)
    | Arr(items: seq<Value>)
    | Obj(fields: map<string, Value>)

  /** What the validator takes from its surroundings: `str`, `int` and `float` of a
      value, regular-expression search (None for a bad pattern), and the order in which
      a dictionary lists its keys. */
  datatype Runtime = Runtime(
    text: Value -> string,
    toInt: Value -> Option<int>,
    toFloat: Value -> Option<real>,
    search: (string, string) -> Option<bool>,
    order: map<string, Value> -> seq<string>)

  /** Strings print as themselves, and a dictionary lists exactly its keys. */
  ghost predicate LawfulRuntime(rt: Runtime) {
    && (forall s :: rt.text(Str(s)) == s)
    && (forall m, k :: k in rt.order(m) <==> k in m)
  }

  datatype Env = Env(defs: map<string, Value>, rt: Runtime)

  // ----- equality, references, lists -------------------------------------------------------

  /** Python's `==` on JSON values: booleans and integers are numbers, dictionaries have
      no order. Values are equal when their canonical forms are. */
  function Canon(v: Value): Value {
    match v
    case Bool(b) => Float(if b then 1.0 else 0.0)
    case Int(i) => Float(i as real)
    case Arr(items) => Arr(seq(|items|, i requires 0 <= i < |items| => Canon(items[i])))
    case Obj(fields) => Obj(map k | k in fields :: Canon(fields[k]))
    case _ => v
  }

  predicate Same(a: Value, b: Value) {
    Canon(a) == Canon(b)
  }

  predicate Truthy(v: Value) {
    match v
    case Null => false
    case Bool(b) => b
    case Int(i) => i != 0
    case Float(r) => r != 0.0
    case Str(s) => s != ""
    case Arr(items) => items != []
    case Obj(fields) => fields != map[]
  }

  /** The part of `s` after its last slash. */
  function AfterSlash(s: string): string {
    if s == "" || s[|s| - 1] == '/' then "" else AfterSlash(s[..|s| - 1]) + [s[|s| - 1]]
  }

  /** The definition a `$ref` names, as `_resolve_ref` finds it. */
  function Resolve(env: Env, ref: Value): (r: Option<string>)
    ensures r.Some? ==> r.value in env.defs
  {
    var t := Text.Strip(env.rt.text(ref));
    if t == "" then None else
    var name := if "#/" <= t then AfterSlash(t[2..]) else t;
    if name in env.defs then Some(name) else None
  }

  /** What iterating over a list of schemas gives: a string is a sequence too, of
      characters that are no schemas. */
  function Elements(v: Value): (r: Option<seq<Value>>)
    ensures r.Some? ==> forall i :: 0 <= i < |r.value| && r.value[i].Obj? ==> r.value[i] < v
  {
    match v
    case Arr(items) => Some(items)
    case Str(s) => Some(seq(|s|, i requires 0 <= i < |s| => Str([s[i]])))
    case _ => None
  }

  function Get(m: map<string, Value>, k: string): (v: Value)
    ensures k in m ==> v == m[k]
  {
    if k in m then m[k] else Null
  }

  // ----- the checks that look at one value only ---------------------------------------------

  predicate ConstOk(m: map<string, Value>, v: Value) {
    "const" in m ==> Same(v, m["const"])
  }

  predicate EnumOk(m: map<string, Value>, v: Value) {
    "enum" in m ==> m["enum"].Arr? && exists i :: 0 <= i < |m["enum"].items| && Same(v, m["enum"].items[i])
  }

  function TypeName(env: Env, m: map<string, Value>): string {
    Text.Lower(Text.Strip(env.rt.text(Get(m, "type"))))
  }

  function NumberOf(v: Value): real
    requires v.Int? || v.Float?
  {
    if v.Int? then v.i as real else v.r
  }

  predicate BoundsOk(env: Env, m: map<string, Value>, n: real) {
    && ("minimum" in m ==> var lo := env.rt.toFloat(m["minimum"]); lo.Some? && lo.value <= n)
    && ("maximum" in m ==> var hi := env.rt.toFloat(m["maximum"]); hi.Some? && n <= hi.value)
  }

  predicate SizeOk(env: Env, m: map<string, Value>, low: string, high: string, size: nat) {
    && (low in m ==> var lo := env.rt.toInt(m[low]); lo.Some? && lo.value <= size)
    && (high in m ==> var hi := env.rt.toInt(m[high]); hi.Some? && size <= hi.value)
  }

  predicate PatternOk(env: Env, m: map<string, Value>, s: string) {
    "pattern" in m ==> env.rt.search(env.rt.text(m["pattern"]), s) == Some(true)
  }

  function Properties(m: map<string, Value>): Option<map<string, Value>> {
    var p := Get(m, "properties");
    if !Truthy(p) then Some(map[]) else if p.Obj? then Some(p.fields) else None
  }

  predicate RequiredOk(env: Env, m: map<string, Value>, o: map<string, Value>) {
    var r := Get(m, "required");
    Truthy(r) ==> r.Arr? && forall i :: 0 <= i < |r.items| ==> env.rt.text(r.items[i]) in o
  }

  // ----- the validator ------------------------------------------------------------------------

  /** The third verdict is Python's recursion limit. */
  datatype Verdict = Accept | Reject | Overflow

  function Check(ok: bool): Verdict {
    if ok then Accept else Reject
  }

  function Then(first: Verdict, second: Verdict): Verdict {
    if first == Accept then second else first
  }

  /** `validate_payload` with `depth` calls left before the recursion limit. */
  function Validate(env: Env, depth: nat, schema: Value, v: Value): Verdict
    decreases depth, 2, 0
  {
    if depth == 0 then Overflow else
    match schema
    case Null => Accept
    case Obj(m) =>
      if "$ref" in m then
        (match Resolve(env, m["$ref"])
         case None => Reject
         case Some(name) => Validate(env, depth - 1, env.defs[name], v))
      else if "allOf" in m then
        (match Elements(m["allOf"]) case None => Reject case Some(es) => AllOf(env, depth - 1, es, v))
      else if "anyOf" in m then
        (match Elements(m["anyOf"]) case None => Reject case Some(es) => AnyOf(env, depth - 1, es, v))
      else if "oneOf" in m then
        (match Elements(m["oneOf"]) case None => Reject case Some(es) => OneOf(env, depth - 1, es, v, 0))
      else if !ConstOk(m, v) || !EnumOk(m, v) then Reject
      else ByType(env, depth - 1, m, v)
    case _ => Reject
  }

  /** The `allOf` loop. */
  function AllOf(env: Env, depth: nat, es: seq<Value>, v: Value): Verdict
    decreases depth, 3, |es|
  {
    if es == [] then Accept
    else if !es[0].Obj? then Reject
    else Then(Validate(env, depth, es[0], v), AllOf(env, depth, es[1..], v))
  }

  /** The `anyOf` loop. */
  function AnyOf(env: Env, depth: nat, es: seq<Value>, v: Value): Verdict
    decreases depth, 3, |es|
  {
    if es == [] then Reject
    else if !es[0].Obj? then AnyOf(env, depth, es[1..], v)
    else
      var r := Validate(env, depth, es[0], v);
      if r == Reject then AnyOf(env, depth, es[1..], v) else r
  }

  /** The `oneOf` loop, with the matches counted so far. */
  function OneOf(env: Env, depth: nat, es: seq<Value>, v: Value, matches: nat): Verdict
    decreases depth, 3, |es|
  {
    if es == [] then Check(matches == 1)
    else if !es[0].Obj? then OneOf(env, depth, es[1..], v, matches)
    else
      var r := Validate(env, depth, es[0], v);
      if r == Overflow then Overflow else OneOf(env, depth, es[1..], v, matches + if r == Accept then 1 else 0)
  }

  /** The `type` dispatch; no type accepts anything. */
  function ByType(env: Env, depth: nat, m: map<string, Value>, v: Value): Verdict
    decreases depth, 4, 0
  {
    if Get(m, "type").Null? then Accept else
    var t := TypeName(env, m);
    if t == "null" then Check(v.Null?)
    else if t == "boolean" then Check(v.Bool?)
    else if t == "integer" then Check(v.Int? && BoundsOk(env, m, NumberOf(v)))
    else if t == "number" then Check((v.Int? || v.Float?) && BoundsOk(env, m, NumberOf(v)))
    else if t == "string" then
      Check(v.Str? && SizeOk(env, m, "minLength", "maxLength", |v.s|) && PatternOk(env, m, v.s))
    else if t == "array" then
      if !v.Arr? || !SizeOk(env, m, "minItems", "maxItems", |v.items|) then Reject
      else if Get(m, "items").Null? then Accept
      else if !m["items"].Obj? then Reject
      else Each(env, depth, m["items"], v.items)
    else if t == "object" then
      if !v.Obj? then Reject else OfObject(env, depth, m, v.fields)
    else Reject
  }

  /** The loop of `_validate_array`. */
  function Each(env: Env, depth: nat, schema: Value, vs: seq<Value>): Verdict
    decreases depth, 3, |vs|
  {
    if vs == [] then Accept
    else Then(Validate(env, depth, schema, vs[0]), Each(env, depth, schema, vs[1..]))
  }

  /** `_validate_object`. */
  function OfObject(env: Env, depth: nat, m: map<string, Value>, o: map<string, Value>): Verdict
    decreases depth, 3, 1
  {
    match Properties(m)
    case None => Reject
    case Some(props) =>
      if !RequiredOk(env, m, o) then Reject
      else Then(Known(env, depth, props, env.rt.order(props), o), Additional(env, depth, m, props, o))
  }

  /** The loop over the known properties. */
  function Known(env: Env, depth: nat, props: map<string, Value>, keys: seq<string>, o: map<string, Value>): Verdict
    decreases depth, 3, 0, |keys|
  {
    if keys == [] then Accept
    else
      var k := keys[0];
      var here := if k !in props || k !in o then Accept
                  else if !props[k].Obj? then Reject
                  else Validate(env, depth, props[k], o[k]);
      Then(here, Known(env, depth, props, keys[1..], o))
  }

  /** The three forms of `additionalProperties`. */
  function Additional(env: Env, depth: nat, m: map<string, Value>, props: map<string, Value>,
                      o: map<string, Value>): Verdict
    decreases depth, 3, 0
  {
    if "additionalProperties" !in m then Accept else
    match m["additionalProperties"]
    case Null => Accept
    case Bool(b) => Check(b || forall k :: k in o ==> k in props)
    case Obj(_) => Others(env, depth, m["additionalProperties"], props, env.rt.order(o), o)
    case _ => Reject
  }

  function Others(env: Env, depth: nat, schema: Value, props: map<string, Value>, keys: seq<string>,
                  o: map<string, Value>): Verdict
    decreases depth, 2, 1, |keys|
  {
    if keys == [] then Accept
    else
      var k := keys[0];
      var here := if k in props || k !in o then Accept else Validate(env, depth, schema, o[k]);
      Then(here, Others(env, depth, schema, props, keys[1..], o))
  }
}
