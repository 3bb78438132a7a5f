/** Approval grants, the decision on a task, and the in-memory and durable stores. */
module Approvals {
  import opened Wrappers
  import Text

  // ----- identifiers -------------------------------------------------------------------------

  /** `str.isalnum` on one character; its tables are not part of this model. */
  type Alnum = char -> bool

  predicate LawfulAlnum(alnum: Alnum) {
    forall c :: alnum(c) ==> !Text.IsSpace(c)
  }

  const MAX_ID := 160

  predicate IsIdChar(alnum: Alnum, c: char) {
    alnum(c) || c == '-' || c == '_' || c == '.'
  }

  predicate AllIdChars(alnum: Alnum, s: string) {
    forall i :: 0 <= i < |s| ==> IsIdChar(alnum, s[i])
  }

  /** `_bounded_id`: blank unless every character is allowed, cut at 160. */
  function BoundedId(alnum: Alnum, value: string): string {
    var text := Text.Strip(value);
    if !AllIdChars(alnum, text) then "" else if |text| > MAX_ID then text[..MAX_ID] else text
  }

  predicate IsStrictChar(c: char) {
    'a' <= c <= 'z' || 'A' <= c <= 'Z' || '0' <= c <= '9' || c == '_' || c == '-'
  }

  /** What `_strict_approval_id` accepts once stripped. */
  predicate IsStrictId(s: string) {
    s != "" && |s| <= MAX_ID && forall i :: 0 <= i < |s| ==> IsStrictChar(s[i])
  }

  /** A bounded id needs no stripping and is bounded already. */
  lemma BoundedIdStable(alnum: Alnum, value: string)
    requires LawfulAlnum(alnum)
    ensures var b := BoundedId(alnum, value);
            && Text.Strip(b) == b && BoundedId(alnum, b) == b
            && |b| <= MAX_ID && AllIdChars(alnum, b)
  {
    var b := BoundedId(alnum, value);
    assert b != "" ==> IsIdChar(alnum, b[0]) && IsIdChar(alnum, b[|b| - 1]);
    Text.StripFixes(b);
  }

  // ----- grants -------------------------------------------------------------------------------

  /** The fields of a grant and its scope that decisions read. */
  datatype Grant = Grant(
    id: string, taskId: string, scopeCorrelation: string, correlation: string,
    capabilities: set<string>, workers: set<string>, maxRisk: string,
    maxRuntime: Option<int>, maxMemory: Option<int>, maxCpu: Option<int>, maxUnits: Option<int>,
    expiresAt: Option<int>, singleUse: bool, consumedAt: int, consumedBy: string, revoked: bool)

  function Positive(n: Option<int>): Option<int> {
    if n.Some? && n.value > 0 then n else None
  }

  function RiskRank(level: string): nat {
    var t := Text.Lower(Text.Strip(level));
    if t == "low" then 1 else if t == "medium" then 2 else 3
  }

  function RiskLevel(level: string): string {
    var t := Text.Lower(Text.Strip(level));
    if t == "low" || t == "medium" || t == "high" then t else "low"
  }

  function Cleaned(items: set<string>): set<string> {
    set s | s in items && Text.Strip(s) != "" :: Text.Strip(s)
  }

  /** What constructing a grant makes of its fields; None for an unsafe id. */
  function Construct(g: Grant): Option<Grant> {
    var id := Text.Strip(g.id);
    if !IsStrictId(id) then None
    else Some(Grant(
      id, Text.Strip(g.taskId), Text.Strip(g.scopeCorrelation), Text.Strip(g.correlation),
      Cleaned(g.capabilities), Cleaned(g.workers), RiskLevel(g.maxRisk),
      Positive(g.maxRuntime), Positive(g.maxMemory), Positive(g.maxCpu), Positive(g.maxUnits),
      Positive(g.expiresAt), g.singleUse, g.consumedAt, Text.Strip(g.consumedBy), g.revoked))
  }

  /** A grant as its constructor leaves it. */
  predicate IsGrant(g: Grant) {
    Construct(g) == Some(g)
  }

  lemma LevelsStay(level: string)
    ensures RiskLevel(RiskLevel(level)) == RiskLevel(level)
  {
    var t := RiskLevel(level);
    assert t == "low" || t == "medium" || t == "high";
    Text.StripFixes(t);
    assert Text.Lower(t) == t;
  }

  lemma CleanedStays(items: set<string>)
    ensures Cleaned(Cleaned(items)) == Cleaned(items)
  {
    forall s | s in Cleaned(items)
      ensures Text.Strip(s) == s && s != ""
    {
      var raw :| raw in items && Text.Strip(raw) != "" && s == Text.Strip(raw);
      Text.StripTwice(raw);
    }
  }

  /** Construction is idempotent, so `replace` changes nothing but the fields given. */
  lemma ConstructTwice(g: Grant)
    requires Construct(g).Some?
    ensures IsGrant(Construct(g).value)
  {
    hide Text.Strip, Cleaned, RiskLevel;
    Text.StripTwice(g.id);
    Text.StripTwice(g.taskId);
    Text.StripTwice(g.scopeCorrelation);
    Text.StripTwice(g.correlation);
    Text.StripTwice(g.consumedBy);
    CleanedStays(g.capabilities);
    CleanedStays(g.workers);
    LevelsStay(g.maxRisk);
  }

  // ----- decisions -----------------------------------------------------------------------------

  /** The fields of a task envelope that decisions read. */
  datatype Envelope = Envelope(
    taskId: string, function_: string, traceId: string, approvalId: string, risk: string,
    runtime: int, memory: int, cpu: int, units: int)

  /** An envelope as its constructor leaves it: its task id is a clean id. */
  predicate IsEnvelope(alnum: Alnum, e: Envelope) {
    && e.taskId != "" && |e.taskId| <= MAX_ID && AllIdChars(alnum, e.taskId)
    && Text.Strip(e.function_) == e.function_ && Text.Strip(e.traceId) == e.traceId
    && Text.Strip(e.approvalId) == e.approvalId
  }

  datatype Reason =
    | MissingApproval | UnsafeId | Revoked | Expired | AlreadyConsumed | NoCapabilities
    | TaskMismatch | CorrelationMismatch | CapabilityMismatch | WorkerMismatch
    | RiskExceeds | BudgetExceeds | PersistenceFailed
    | ScopeValid | Consumed | Reusable

  datatype Outcome = Outcome(allowed: bool, reason: Reason, consumed: bool)

  function Denied(reason: Reason): Outcome {
    Outcome(false, reason, false)
  }

  predicate Over(limit: Option<int>, requested: int) {
    limit.Some? && requested > limit.value
  }

  function Expected(g: Grant): string {
    if g.scopeCorrelation != "" then g.scopeCorrelation else g.correlation
  }

  function TaskRisk(e: Envelope): string {
    var t := Text.Lower(Text.Strip(e.risk));
    if t == "" then "low" else t
  }

  /** `_evaluate_grant` at clock reading `now`. */
  function Evaluate(e: Envelope, worker: string, g: Grant, now: int): (r: Outcome)
    ensures !r.consumed
  {
    if g.revoked then Denied(Revoked)
    else if g.expiresAt.Some? && g.expiresAt.value <= now then Denied(Expired)
    else if g.singleUse && g.consumedAt > 0 then Denied(AlreadyConsumed)
    else if g.capabilities == {} then Denied(NoCapabilities)
    else if g.taskId != "" && g.taskId != e.taskId then Denied(TaskMismatch)
    else if Expected(g) != "" && Expected(g) != e.traceId then Denied(CorrelationMismatch)
    else if e.function_ !in g.capabilities then Denied(CapabilityMismatch)
    else if g.workers != {} && worker !in g.workers then Denied(WorkerMismatch)
    else if RiskRank(TaskRisk(e)) > RiskRank(g.maxRisk) then Denied(RiskExceeds)
    else if || Over(g.maxRuntime, e.runtime) || Over(g.maxMemory, e.memory)
            || Over(g.maxCpu, e.cpu) || Over(g.maxUnits, e.units)
    then Denied(BudgetExceeds)
    else Outcome(true, ScopeValid, false)
  }

  function Used(g: Grant, at: int, task: string): Grant {
    g.(consumedAt := at, consumedBy := task)
  }

  // ----- the in-memory store -----------------------------------------------------------------------

  type Grants = map<string, Grant>

  function MemoryAuthorize(m: Grants, e: Envelope, worker: string, now: int): Outcome {
    if e.approvalId == "" || e.approvalId !in m then Denied(MissingApproval)
    else Evaluate(e, worker, m[e.approvalId], now)
  }

  /** `consume` reads the clock up to three times: in `authorize`, in its own
      evaluation, and for the stamp. */
  function MemoryConsume(m: Grants, e: Envelope, worker: string, first: int, second: int, stamp: int)
    : (Outcome, Grants)
  {
    var d := MemoryAuthorize(m, e, worker, first);
    if !d.allowed then (d, m) else
    var g := m[e.approvalId];
    var d' := Evaluate(e, worker, g, second);
    if !d'.allowed then (d', m)
    else if !g.singleUse then (Outcome(true, Reusable, false), m)
    else (Outcome(true, Consumed, true), m[g.id := Used(g, stamp, e.taskId)])
  }

  class InMemoryApprovalStore {
    var grants: Grants

    constructor ()
      ensures grants == map[]
    {
      grants := map[];
    }

    method Add(g: Grant)
      modifies this
      ensures grants == old(grants)[g.id := g]
    {
      grants := grants[g.id := g];
    }

    method Authorize(e: Envelope, worker: string, now: int) returns (r: Outcome)
      ensures r == MemoryAuthorize(grants, e, worker, now)
    {
      if e.approvalId == "" { return Denied(MissingApproval); }
      if e.approvalId !in grants { return Denied(MissingApproval); }
      r := Evaluate(e, worker, grants[e.approvalId], now);
    }

    method Consume(e: Envelope, worker: string, first: int, second: int, stamp: int) returns (r: Outcome)
      modifies this
      ensures (r, grants) == MemoryConsume(old(grants), e, worker, first, second, stamp)
    {
      hide Evaluate;
      r := Authorize(e, worker, first);
      if !r.allowed { return; }
      MissingIsDenied(grants, e, worker, first);
      var g := grants[e.approvalId];
      r := Evaluate(e, worker, g, second);
      if !r.allowed { return; }
      if !g.singleUse { return Outcome(true, Reusable, false); }
      EvaluateAllows(e, worker, g, second);
      if g.consumedAt > 0 { return Denied(AlreadyConsumed); }
      grants := grants[g.id := Used(g, stamp, e.taskId)];
      r := Outcome(true, Consumed, true);
    }
  }

  lemma MissingIsDenied(m: Grants, e: Envelope, worker: string, now: int)
    requires MemoryAuthorize(m, e, worker, now).allowed
    ensures e.approvalId != "" && e.approvalId in m
  {
  }

  /** What a grant permits, condition by condition. */
  predicate Permits(g: Grant, e: Envelope, worker: string, now: int) {
    && !g.revoked && (g.expiresAt.Some? ==> now < g.expiresAt.value) && !(g.singleUse && g.consumedAt > 0)
    && e.function_ in g.capabilities && (g.workers == {} || worker in g.workers)
    && g.taskId in {"", e.taskId} && Expected(g) in {"", e.traceId}
    && RiskRank(TaskRisk(e)) <= RiskRank(g.maxRisk)
    && (g.maxRuntime.Some? ==> e.runtime <= g.maxRuntime.value)
    && (g.maxMemory.Some? ==> e.memory <= g.maxMemory.value)
    && (g.maxCpu.Some? ==> e.cpu <= g.maxCpu.value)
    && (g.maxUnits.Some? ==> e.units <= g.maxUnits.value)
  }

  /** The chain of denials allows exactly what the grant permits. */
  lemma EvaluateAllows(e: Envelope, worker: string, g: Grant, now: int)
    ensures Evaluate(e, worker, g, now).allowed <==> Permits(g, e, worker, now)
    ensures Permits(g, e, worker, now) ==> Evaluate(e, worker, g, now) == Outcome(true, ScopeValid, false)
  {
    hide RiskRank, TaskRisk, Expected;
  }

  // ----- the durable store ---------------------------------------------------------------------------

  /** `_approval_grant_payload`: the ids are bounded on the way to the file. */
  function ToPayload(alnum: Alnum, g: Grant): Grant {
    g.(taskId := BoundedId(alnum, g.taskId),
       scopeCorrelation := BoundedId(alnum, g.scopeCorrelation),
       correlation := BoundedId(alnum, g.correlation),
       consumedBy := BoundedId(alnum, g.consumedBy))
  }

  /** `_approval_grant_from_payload`: the file's fields go through the constructor. */
  function FromPayload(p: Grant): Option<Grant> {
    Construct(p)
  }

  /** What is read back after writing: the grant with its ids bounded, nothing else changed. */
  lemma PayloadReadsBack(alnum: Alnum, g: Grant)
    requires LawfulAlnum(alnum) && IsGrant(g)
    ensures FromPayload(ToPayload(alnum, g)) == Some(ToPayload(alnum, g))
    ensures ToPayload(alnum, ToPayload(alnum, g)) == ToPayload(alnum, g)
  {
    hide Text.Strip, Cleaned, RiskLevel, BoundedId;
    BoundedIdStable(alnum, g.taskId);
    BoundedIdStable(alnum, g.scopeCorrelation);
    BoundedIdStable(alnum, g.correlation);
    BoundedIdStable(alnum, g.consumedBy);
  }

  /** The JSON files by approval id. */
  type Files = map<string, Grant>

  /** `get`: an unsafe id is an error, a missing file is no grant. */
  function DurableGet(f: Files, id: string): Result<Grant, Reason> {
    if !IsStrictId(Text.Strip(id)) then Err(UnsafeId)
    else if Text.Strip(id) !in f then Err(MissingApproval)
    else
      match FromPayload(f[Text.Strip(id)])
      case None => Err(UnsafeId)
      case Some(g) => Ok(g)
  }

  function DurableAuthorize(f: Files, e: Envelope, worker: string, now: int): Outcome {
    if e.approvalId == "" then Denied(MissingApproval) else
    match DurableGet(f, e.approvalId)
    case Err(reason) => Denied(reason)
    case Ok(g) => Evaluate(e, worker, g, now)
  }

  /** `add`: None when the write fails and its exception propagates. */
  function DurableAdd(alnum: Alnum, f: Files, g: Grant, writes: bool): Option<Files> {
    if writes then Some(f[g.id := ToPayload(alnum, g)]) else None
  }

  /** `consume`: a failed write denies and leaves the file as it was. */
  function DurableConsume(alnum: Alnum, f: Files, e: Envelope, worker: string, now: int, stamp: int, writes: bool)
    : (Outcome, Files)
  {
    var d := DurableAuthorize(f, e, worker, now);
    if !d.allowed then (d, f) else
    match DurableGet(f, e.approvalId)
    case Err(reason) => (Denied(reason), f)
    case Ok(g) =>
      if !g.singleUse then (Outcome(true, Reusable, false), f)
      else if !writes then (Denied(PersistenceFailed), f)
      else (Outcome(true, Consumed, true), f[g.id := ToPayload(alnum, Used(g, stamp, e.taskId))])
  }

  class LocalJsonApprovalStore {
    var files: Files

    constructor ()
      ensures files == map[]
    {
      files := map[];
    }

    method WriteGrant(alnum: Alnum, g: Grant, writes: bool) returns (ok: bool)
      modifies this
      ensures ok == writes
      ensures files == if writes then old(files)[g.id := ToPayload(alnum, g)] else old(files)
    {
      ok := writes;
      if writes {
        files := files[g.id := ToPayload(alnum, g)];
      }
    }

    method Add(alnum: Alnum, g: Grant, writes: bool) returns (ok: bool)
      modifies this
      ensures match DurableAdd(alnum, old(files), g, writes)
              case None => !ok && files == old(files)
              case Some(f) => ok && files == f
    {
      ok := WriteGrant(alnum, g, writes);
    }

    method Consume(alnum: Alnum, e: Envelope, worker: string, now: int, stamp: int, writes: bool) returns (r: Outcome)
      modifies this
      ensures (r, files) == DurableConsume(alnum, old(files), e, worker, now, stamp, writes)
    {
      hide Evaluate, DurableGet;
      if e.approvalId == "" { return Denied(MissingApproval); }
      var got := DurableGet(files, e.approvalId);
      if got.Err? { return Denied(got.error); }
      var g := got.value;
      r := Evaluate(e, worker, g, now);
      if !r.allowed { return; }
      if !g.singleUse { return Outcome(true, Reusable, false); }
      var ok := WriteGrant(alnum, Used(g, stamp, e.taskId), writes);
      if !ok { return Denied(PersistenceFailed); }
      r := Outcome(true, Consumed, true);
    }
  }
}
