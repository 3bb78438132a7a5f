/** The oneOf loop as it counts, and a client that validates on both sides of a
    connector. */
module SchemaClient {
  import opened Wrappers
  import Text
  import opened Schema
  import opened SchemaMeaning
  import opened SchemaValidation

  /** The `oneOf` loop. */
  method CountMatches(env: Env, depth: nat, es: seq<Value>, v: Value) returns (verdict: Verdict)
    ensures verdict == OneOf(env, depth, es, v, 0)
  {
    var matches, i := 0, 0;
    while i < |es|
      invariant 0 <= i <= |es|
      invariant OneOf(env, depth, es, v, 0) == OneOf(env, depth, es[i..], v, matches)
    {
      if es[i].Obj? {
        var r := Validate(env, depth, es[i], v);
        if r == Overflow {
          return Overflow;
        }
        if r == Accept {
          matches := matches + 1;
        }
      }
      assert es[i..][1..] == es[i + 1..];
      i := i + 1;
    }
    return if matches != 1 then Reject else Accept;
  }

  /** What a schema means does not depend on the ranks that show it well-founded. */
  lemma AnyRanking(env: Env, rank: Rank, rank': Rank, schema: Value, v: Value)
    requires LawfulRuntime(env.rt) && Ranked(env, rank) && Ranked(env, rank')
    ensures Conforms(env, rank, schema, v) == Conforms(env, rank', schema, v)
  {
    hide Validate, Conforms, LawfulRuntime, Ranked;
    var one := ValidateDecides(env, rank, schema, v);
    var two := ValidateDecides(env, rank', schema, v);
    assert Check(Conforms(env, rank, schema, v)) == Validate(env, Max(one, two), schema,
                                                             v) == Check(Conforms(env, rank', schema, v));
  }

  // ----- the client -----------------------------------------------------------------------------

  /** A missing schema is Null. */
  datatype Operation = Operation(input: Value, output: Value, timeout: Option<real>)

  datatype Outcome =
    | Returned(result: Value)
    | UnknownOperation
    | BadInput(verdict: Verdict)
    | ConnectorFailed
    | BadOutput(verdict: Verdict)

  datatype Sent = Sent(operation: string, payload: Value, identity: Value, timeout: Option<real>)

  /** A connector, with the calls it has received. Its answers come from outside; None
      is an exception. */
  class Connector {
    var calls: seq<Sent>

    method Call(sent: Sent, answer: Option<Value>) returns (r: Option<Value>)
      modifies this
      ensures calls == old(calls) + [sent] && r == answer
    {
      calls := calls + [sent];
      r := answer;
    }
  }

  function PayloadOf(payload: Value): Value {
    if payload.Null? then Obj(map[]) else payload
  }

  function EffectiveTimeout(timeout: Option<real>, op: Operation): (t: Option<real>)
    ensures timeout.Some? ==> t == timeout
    ensures t.None? <==> timeout.None? && op.timeout.None?
  {
    if timeout.Some? then timeout else op.timeout
  }

  class Client {
    const env: Env
    const operations: map<string, Operation>
    const connector: Connector

    constructor (env: Env, operations: map<string, Operation>, connector: Connector)
      ensures this.env == env && this.operations == operations && this.connector == connector
    {
      this.env, this.operations, this.connector := env, operations, connector;
    }

    /** The connector sees a call exactly when the operation is known and its input valid,
        and sees it once, with the caller's timeout or else the operation's; the caller
        sees only validated results. */
    method Call(operation: string, payload: Value, identity: Value, timeout: Option<real>, validateOutput: bool,
                depth: nat, answer: Option<Value>)
      returns (r: Outcome)
      modifies connector
      ensures var op, input := Text.Strip(operation), PayloadOf(payload);
              var sent := op in operations && Validate(env, depth, operations[op].input, input) == Accept;
              && connector.calls == old(connector.calls) + (if sent then
                   [Sent(op, input, identity, EffectiveTimeout(timeout, operations[op]))] else [])
              && (r.UnknownOperation? <==> op !in operations)
              && (r.BadInput? <==> op in operations && !sent)
              && (r.BadInput? ==> r.verdict == Validate(env, depth, operations[op].input, input))
              && (r.ConnectorFailed? <==> sent && answer.None?)
              && (r.Returned? ==> sent && answer == Some(r.result))
              && (r.BadOutput? ==> sent && answer.Some? && validateOutput
                                   && r.verdict == Validate(env, depth, operations[op].output, answer.value) != Accept)
              && (r.Returned? && validateOutput ==> Validate(env, depth, operations[op].output, r.result) == Accept)
    {
      var op := Text.Strip(operation);
      if op !in operations {
        return UnknownOperation;
      }
      var input := if payload.Null? then Obj(map[]) else payload;
      var verdict := Validate(env, depth, operations[op].input, if input.Null? then Obj(map[]) else input);
      if verdict != Accept {
        return BadInput(verdict);
      }
      var limit := if timeout.Some? then timeout else operations[op].timeout;
      var result := connector.Call(Sent(op, input, identity, limit), answer);
      if result.None? {
        return ConnectorFailed;
      }
      if validateOutput {
        verdict := Validate(env, depth, operations[op].output, result.value);
        if verdict != Accept {
          return BadOutput(verdict);
        }
      }
      return Returned(result.value);
    }
  }
}
