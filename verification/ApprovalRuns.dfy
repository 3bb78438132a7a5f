/** What every run of the approval stores keeps, and when the durable store behaves
    as the in-memory one. */
module ApprovalRuns {
  import opened Wrappers
  import opened Approvals
  import Text

  // ----- both stores as one state machine -------------------------------------------------

  datatype Store = Memory(grants: Grants) | Durable(files: Files)

  /** An operation with its clock readings and whether a file write succeeds. `second` is
      the reading that only the in-memory store makes. */
  datatype Op =
    | Add(grant: Grant, writes: bool)
    | Authorize(e: Envelope, worker: string, now: int)
    | Consume(e: Envelope, worker: string, now: int, second: int, stamp: int, writes: bool)

  /** The outcome, if the operation has one and does not raise, and the new store. */
  function Step(alnum: Alnum, s: Store, op: Op): (Option<Outcome>, Store) {
    match op
    case Add(g, writes) =>
      (match s
       case Memory(m) => (None, Memory(m[g.id := g]))
       case Durable(f) =>
         var f' := DurableAdd(alnum, f, g, writes);
         (None, if f'.Some? then Durable(f'.value) else s))
    case Authorize(e, w, now) =>
      (Some(if s.Memory? then MemoryAuthorize(s.grants, e, w, now) else DurableAuthorize(s.files, e, w, now)), s)
    case Consume(e, w, now, second, stamp, writes) =>
      match s
      case Memory(m) => var (d, m') := MemoryConsume(m, e, w, now, second, stamp); (Some(d), Memory(m'))
      case Durable(f) => var (d, f') := DurableConsume(alnum, f, e, w, now, stamp, writes); (Some(d), Durable(f'))
  }

  /** Every grant is stored under its own id, as its constructor leaves it. */
  predicate Keyed(m: map<string, Grant>) {
    forall id :: id in m ==> IsStrictId(id) && m[id].id == id && IsGrant(m[id])
  }

  function Stored(s: Store): map<string, Grant> {
    match s
    case Memory(m) => m
    case Durable(f) => f
  }

  predicate LegalOp(op: Op) {
    match op
    case Add(g, _) => IsGrant(g)
    case Authorize(e, _, _) => Text.Strip(e.approvalId) == e.approvalId
    case Consume(e, _, _, _, _, _) => Text.Strip(e.approvalId) == e.approvalId && Text.Strip(e.taskId) == e.taskId
  }

  lemma GetKeyed(f: Files, id: string)
    requires Keyed(f) && Text.Strip(id) == id
    ensures DurableGet(f, id) == if !IsStrictId(id) then Err(UnsafeId)
                                 else if id in f then Ok(f[id]) else Err(MissingApproval)
  {
  }

  lemma UsedIsGrant(g: Grant, at: int, task: string)
    requires IsGrant(g) && Text.Strip(task) == task
    ensures IsGrant(Used(g, at, task))
  {
    hide Text.Strip, Cleaned, RiskLevel;
  }

  /** Every operation keeps the stores keyed. */
  lemma StepKeyed(alnum: Alnum, s: Store, op: Op)
    requires LawfulAlnum(alnum) && Keyed(Stored(s)) && LegalOp(op)
    ensures Keyed(Stored(Step(alnum, s, op).1))
  {
    hide Text.Strip, Evaluate, Construct, BoundedId, IsGrant;
    match op
    case Add(g, _) =>
      GrantIdStrict(g);
      PayloadIsGrant(alnum, g);
    case Authorize(_, _, _) =>
    case Consume(e, w, now, _, stamp, _) =>
      var m := Stored(s);
      if s.Durable? { GetKeyed(m, e.approvalId); }
      if e.approvalId in m {
        var used := Used(m[e.approvalId], stamp, e.taskId);
        UsedIsGrant(m[e.approvalId], stamp, e.taskId);
        PayloadIsGrant(alnum, used);
      }
  }

  lemma GrantIdStrict(g: Grant)
    requires IsGrant(g)
    ensures IsStrictId(g.id)
  {
  }

  lemma PayloadIsGrant(alnum: Alnum, g: Grant)
    requires LawfulAlnum(alnum) && IsGrant(g)
    ensures IsGrant(ToPayload(alnum, g)) && ToPayload(alnum, g).id == g.id
  {
    PayloadReadsBack(alnum, g);
  }

  // ----- at most one consumption -----------------------------------------------------------

  predicate Spent(s: Store, id: string) {
    id in Stored(s) && Stored(s)[id].singleUse && Stored(s)[id].consumedAt > 0
  }

  predicate AddsId(op: Op, id: string) {
    op.Add? && op.grant.id == id
  }

  /** The operation reports the grant `id` consumed. */
  predicate Consumes(alnum: Alnum, s: Store, op: Op, id: string) {
    op.Consume? && op.e.approvalId == id && Step(alnum, s, op).0.Some? && Step(alnum, s, op).0.value.consumed
  }

  /** A consumption spends its grant, which was not spent before; and only an add of
      the same id changes that a grant is spent. */
  lemma SpendingStep(alnum: Alnum, s: Store, op: Op, id: string)
    requires LawfulAlnum(alnum) && Keyed(Stored(s)) && LegalOp(op)
    requires !AddsId(op, id) && (op.Consume? ==> op.stamp > 0)
    ensures Consumes(alnum, s, op, id) ==> !Spent(s, id) && Spent(Step(alnum, s, op).1, id)
    ensures Spent(s, id) ==> Spent(Step(alnum, s, op).1, id)
  {
    hide Text.Strip, Construct, BoundedId, IsGrant, TaskRisk, RiskRank, Over;
    if op.Consume? && s.Durable? {
      GetKeyed(s.files, op.e.approvalId);
    }
  }

  function Consumptions(alnum: Alnum, s: Store, ops: seq<Op>, id: string): nat
    decreases |ops|
  {
    if ops == [] then 0
    else (if Consumes(alnum, s, ops[0], id) then 1 else 0)
         + Consumptions(alnum, Step(alnum, s, ops[0]).1, ops[1..], id)
  }

  /** Over every run with a positive clock and no add of `id`, on either store and
      whatever writes fail, the grant is consumed at most once, and never if spent. */
  lemma {:induction false} AtMostOnce(alnum: Alnum, s: Store, ops: seq<Op>, id: string)
    requires LawfulAlnum(alnum) && Keyed(Stored(s))
    requires forall i :: 0 <= i < |ops| ==>
               LegalOp(ops[i]) && !AddsId(ops[i], id) && (ops[i].Consume? ==> ops[i].stamp > 0)
    ensures Consumptions(alnum, s, ops, id) <= if Spent(s, id) then 0 else 1
    decreases |ops|
  {
    hide Step, Keyed, LegalOp, Spent, Consumes;
    if ops != [] {
      SpendingStep(alnum, s, ops[0], id);
      StepKeyed(alnum, s, ops[0]);
      AtMostOnce(alnum, Step(alnum, s, ops[0]).1, ops[1..], id);
    }
  }

  /** The clock must be positive: once a grant is consumed at reading `stamp`, any later
      request for it, at any readings, consumes it again exactly when `stamp` is zero or
      negative and the grant as it was before permits the request at both readings. */
  lemma ConsumedAgain(m: Grants, op: Op, again: Op)
    requires Keyed(m) && op.Consume? && again.Consume? && again.e.approvalId == op.e.approvalId
    requires MemoryConsume(m, op.e, op.worker, op.now, op.second, op.stamp).0.consumed
    ensures var m' := MemoryConsume(m, op.e, op.worker, op.now, op.second, op.stamp).1;
            var g := m[op.e.approvalId];
            MemoryConsume(m', again.e, again.worker, again.now, again.second, again.stamp).0.consumed
            <==> && op.stamp <= 0
                 && Permits(g, again.e, again.worker, again.now) && Permits(g, again.e, again.worker, again.second)
  {
    hide IsGrant, Evaluate, Permits;
    var g := m[op.e.approvalId];
    ConsumedUnused(op.e, op.worker, g, op.second);
    UsedPermits(g, op.stamp, op.e.taskId, again.e, again.worker, again.now);
    UsedPermits(g, op.stamp, op.e.taskId, again.e, again.worker, again.second);
  }

  /** The same for the durable store, whose write must succeed as well. */
  lemma DurableConsumedAgain(alnum: Alnum, f: Files, op: Op, again: Op)
    requires LawfulAlnum(alnum) && Keyed(f) && op.Consume? && again.Consume? && LegalOp(op)
    requires again.e.approvalId == op.e.approvalId
    requires DurableConsume(alnum, f, op.e, op.worker, op.now, op.stamp, op.writes).0.consumed
    ensures op.e.approvalId in f
    ensures var f' := DurableConsume(alnum, f, op.e, op.worker, op.now, op.stamp, op.writes).1;
            var g := ToPayload(alnum, f[op.e.approvalId]);
            DurableConsume(alnum, f', again.e, again.worker, again.now, again.stamp, again.writes).0.consumed
            <==> op.stamp <= 0 && again.writes && Permits(g, again.e, again.worker, again.now)
  {
    hide IsGrant, Evaluate, Permits, Construct, BoundedId, ToPayload, Text.Strip, IsStrictId;
    GetKeyed(f, op.e.approvalId);
    var g := f[op.e.approvalId];
    ConsumedUnused(op.e, op.worker, g, op.now);
    UsedPayload(alnum, g, op.stamp, op.e.taskId);
    StepKeyed(alnum, Durable(f), op);
    GetKeyed(DurableConsume(alnum, f, op.e, op.worker, op.now, op.stamp, op.writes).1, op.e.approvalId);
    UsedPermits(ToPayload(alnum, g), op.stamp, BoundedId(alnum, op.e.taskId), again.e, again.worker, again.now);
  }

  /** Using a grant and writing it is writing it and using it. */
  lemma UsedPayload(alnum: Alnum, g: Grant, at: int, task: string)
    ensures ToPayload(alnum, Used(g, at, task)) == Used(ToPayload(alnum, g), at, BoundedId(alnum, task))
    ensures ToPayload(alnum, g).singleUse == g.singleUse && ToPayload(alnum, g).consumedAt == g.consumedAt
  {
  }

  lemma ConsumedUnused(e: Envelope, worker: string, g: Grant, now: int)
    requires Evaluate(e, worker, g, now).allowed && g.singleUse
    ensures g.consumedAt <= 0
  {
    EvaluateAllows(e, worker, g, now);
  }

  /** Using a grant changes what it permits only if the stamp is positive. */
  lemma UsedPermits(g: Grant, stamp: int, task: string, e: Envelope, worker: string, now: int)
    requires g.singleUse && g.consumedAt <= 0
    ensures Evaluate(e, worker, Used(g, stamp, task), now).allowed <==> stamp <= 0 && Permits(g, e, worker, now)
  {
    hide RiskRank, TaskRisk;
    EvaluateAllows(e, worker, Used(g, stamp, task), now);
  }

  /** Authorizing changes nothing; a failed write changes nothing and denies; a revoked
      or expired grant is never allowed. */
  lemma SafeSteps(alnum: Alnum, s: Store, op: Op)
    requires Keyed(Stored(s)) && LegalOp(op)
    ensures op.Authorize? ==> Step(alnum, s, op).1 == s
    ensures s.Durable? && !op.Authorize? && !op.writes ==>
              var (r, s') := Step(alnum, s, op);
              s' == s && (r.Some? ==> !r.value.consumed)
    ensures var r := Step(alnum, s, op).0;
            !op.Add? && r.Some? && r.value.allowed ==>
              && op.e.approvalId in Stored(s)
              && var g := Stored(s)[op.e.approvalId];
                 && !g.revoked
                 && (g.expiresAt.Some? ==> op.now < g.expiresAt.value)
  {
    hide Text.Strip, Construct, BoundedId, IsGrant, TaskRisk, RiskRank, Over;
    if s.Durable? && !op.Add? {
      GetKeyed(s.files, op.e.approvalId);
    }
  }

  // ----- what bounding the ids does to decisions -------------------------------------------

  /** Writing the grant to its file keeps the ids that decisions compare. */
  predicate IdsSurvive(alnum: Alnum, g: Grant) {
    && BoundedId(alnum, g.taskId) == g.taskId
    && Expected(ToPayload(alnum, g)) == Expected(g)
  }

  /** Denied before any id is compared, at every clock reading. */
  predicate Dead(g: Grant) {
    g.revoked || (g.singleUse && g.consumedAt > 0) || g.capabilities == {}
  }

  lemma SurvivorsDecideAlike(alnum: Alnum, g: Grant, e: Envelope, worker: string, now: int)
    requires Dead(g) || IdsSurvive(alnum, g)
    ensures Evaluate(e, worker, ToPayload(alnum, g), now) == Evaluate(e, worker, g, now)
  {
    hide BoundedId, TaskRisk, RiskRank, Over;
  }

  /** An envelope for which only a task id and a trace id matter. */
  function Probe(taskId: string, traceId: string): Envelope {
    Envelope(taskId, "", traceId, "", "", 0, 0, 0, 0)
  }

  lemma DashIsId(alnum: Alnum)
    ensures IsEnvelope(alnum, Probe("-", ""))
  {
    Text.StripFixes("-");
    Text.StripFixes("");
  }

  /** A grant whose task id does not survive is decided differently for a task that
      carries what is left of the id. */
  lemma LostTaskId(alnum: Alnum, g: Grant) returns (e: Envelope)
    requires LawfulAlnum(alnum) && !Dead(g) && (g.expiresAt.Some? ==> g.expiresAt.value > 0)
    requires BoundedId(alnum, g.taskId) != g.taskId && Text.Strip(g.taskId) == g.taskId
    ensures IsEnvelope(alnum, e)
    ensures Evaluate(e, "", ToPayload(alnum, g), 0).reason != Evaluate(e, "", g, 0).reason
  {
    hide TaskRisk, RiskRank, Over, Text.Strip;
    DashIsId(alnum);
    Text.StripFixes("");
    BoundedIdStable(alnum, g.taskId);
    var left := BoundedId(alnum, g.taskId);
    e := Probe(if left == "" then "-" else left, "");
  }

  lemma BlankId(alnum: Alnum)
    ensures BoundedId(alnum, "") == ""
  {
    Text.StripFixes("");
  }

  /** A grant whose expected correlation does not survive is decided differently for a
      task with another trace id. */
  lemma LostCorrelation(alnum: Alnum, g: Grant) returns (e: Envelope)
    requires LawfulAlnum(alnum) && !Dead(g) && (g.expiresAt.Some? ==> g.expiresAt.value > 0)
    requires BoundedId(alnum, g.taskId) == g.taskId
    requires Expected(ToPayload(alnum, g)) != Expected(g)
    ensures IsEnvelope(alnum, e)
    ensures Evaluate(e, "", ToPayload(alnum, g), 0).reason != Evaluate(e, "", g, 0).reason
  {
    hide TaskRisk, RiskRank, Over, Text.Strip, BoundedId;
    DashIsId(alnum);
    Text.StripFixes("");
    Text.StripFixes("-");
    BoundedIdStable(alnum, g.taskId);
    BoundedIdStable(alnum, g.scopeCorrelation);
    BoundedIdStable(alnum, g.correlation);
    BlankId(alnum);
    var left := Expected(ToPayload(alnum, g));
    var task := if g.taskId == "" then "-" else g.taskId;
    e := Probe(task, if left != "" then left else if Expected(g) == "-" then "" else "-");
  }

  lemma FreshAtZero(g: Grant)
    requires IsGrant(g)
    ensures g.expiresAt.Some? ==> g.expiresAt.value > 0
    ensures Text.Strip(g.taskId) == g.taskId
  {
  }

  predicate DecidesAlike(alnum: Alnum, g: Grant, e: Envelope, worker: string, now: int) {
    Evaluate(e, worker, ToPayload(alnum, g), now).reason == Evaluate(e, worker, g, now).reason
  }

  /** A grant read back from its file decides every task at every time as the original
      does, if and only if it is dead or its ids survive. */
  lemma DurableDecidesAlike(alnum: Alnum, g: Grant)
    requires LawfulAlnum(alnum) && IsGrant(g)
    ensures (forall e, worker, now :: IsEnvelope(alnum, e) ==> DecidesAlike(alnum, g, e, worker, now))
            <==> Dead(g) || IdsSurvive(alnum, g)
  {
    hide Evaluate, BoundedId, IsGrant;
    if Dead(g) || IdsSurvive(alnum, g) {
      forall e, worker, now | IsEnvelope(alnum, e)
        ensures DecidesAlike(alnum, g, e, worker, now)
      {
        SurvivorsDecideAlike(alnum, g, e, worker, now);
      }
    } else {
      FreshAtZero(g);
      var e;
      if BoundedId(alnum, g.taskId) != g.taskId {
        e := LostTaskId(alnum, g);
      } else {
        e := LostCorrelation(alnum, g);
      }
      assert !DecidesAlike(alnum, g, e, "", 0);
    }
  }

  /** Ids of at most 160 allowed characters survive. */
  lemma CleanIdsSurvive(alnum: Alnum, g: Grant)
    requires IsGrant(g)
    requires |g.taskId| <= MAX_ID && |g.scopeCorrelation| <= MAX_ID && |g.correlation| <= MAX_ID
    requires AllIdChars(alnum, g.taskId) && AllIdChars(alnum, g.scopeCorrelation) && AllIdChars(alnum, g.correlation)
    ensures IdsSurvive(alnum, g)
  {
  }

  // ----- refinement over runs ------------------------------------------------------------------

  /** The files hold the grants of the memory, with their ids bounded. */
  ghost predicate Mirrors(alnum: Alnum, m: Grants, f: Files) {
    && Keyed(m) && Keyed(f)
    && m.Keys == f.Keys
    && forall id :: id in m ==> f[id] == ToPayload(alnum, m[id]) && (Dead(m[id]) || IdsSurvive(alnum, m[id]))
  }

  /** A grant that survives is added, ids in envelopes are blank or safe, writes succeed,
      and the in-memory store reads the same time twice. */
  predicate Comparable(alnum: Alnum, op: Op) {
    && LegalOp(op)
    && match op
       case Add(g, writes) => writes && IdsSurvive(alnum, g)
       case Authorize(e, _, _) => e.approvalId == "" || IsStrictId(e.approvalId)
       case Consume(e, _, now, second, _,
                    writes) => second == now && writes && (e.approvalId == "" || IsStrictId(e.approvalId))
  }

  lemma UsedMirrors(alnum: Alnum, g: Grant, at: int, task: string)
    requires LawfulAlnum(alnum)
    ensures ToPayload(alnum, Used(ToPayload(alnum, g), at, task)) == ToPayload(alnum, Used(g, at, task))
    ensures IdsSurvive(alnum, g) ==> IdsSurvive(alnum, Used(g, at, task))
  {
    hide Text.Strip, BoundedId;
    BoundedIdStable(alnum, g.taskId);
    BoundedIdStable(alnum, g.scopeCorrelation);
    BoundedIdStable(alnum, g.correlation);
  }

  lemma AuthorizeRefines(alnum: Alnum, m: Grants, f: Files, e: Envelope, worker: string, now: int)
    requires Mirrors(alnum, m, f) && Text.Strip(e.approvalId) == e.approvalId
    requires e.approvalId == "" || IsStrictId(e.approvalId)
    ensures DurableAuthorize(f, e, worker, now) == MemoryAuthorize(m, e, worker, now)
    ensures MemoryAuthorize(m, e, worker, now).allowed ==>
              && e.approvalId in m && IdsSurvive(alnum, m[e.approvalId])
              && DurableGet(f, e.approvalId) == Ok(ToPayload(alnum, m[e.approvalId]))
  {
    hide Text.Strip, Construct, BoundedId, IsGrant, Evaluate, ToPayload, IdsSurvive, DurableGet, IsStrictId;
    if e.approvalId != "" {
      GetKeyed(f, e.approvalId);
      if e.approvalId in m {
        var g := m[e.approvalId];
        SurvivorsDecideAlike(alnum, g, e, worker, now);
        if Dead(g) { DeadIsDenied(e, worker, g, now); }
      }
    }
  }

  lemma MirrorsUpdate(alnum: Alnum, m: Grants, f: Files, g: Grant)
    requires Mirrors(alnum, m, f) && IdsSurvive(alnum, g)
    requires Keyed(m[g.id := g]) && Keyed(f[g.id := ToPayload(alnum, g)])
    ensures Mirrors(alnum, m[g.id := g], f[g.id := ToPayload(alnum, g)])
  {
    hide IsGrant, ToPayload, IdsSurvive, Keyed;
  }

  /** One operation: the same outcome, and the stores still mirror each other. */
  lemma StepRefines(alnum: Alnum, m: Grants, f: Files, op: Op)
    requires LawfulAlnum(alnum) && Mirrors(alnum, m, f) && Comparable(alnum, op)
    ensures var (r, s) := Step(alnum, Memory(m), op);
            var (r', s') := Step(alnum, Durable(f), op);
            r == r' && s.Memory? && s'.Durable? && Mirrors(alnum, s.grants, s'.files)
  {
    hide Text.Strip, IsGrant, Evaluate, ToPayload, IdsSurvive, DurableGet, IsStrictId, Mirrors;
    MirrorsKeyed(alnum, m, f);
    StepKeyed(alnum, Memory(m), op);
    StepKeyed(alnum, Durable(f), op);
    match op
    case Add(g, _) => MirrorsUpdate(alnum, m, f, g);
    case Authorize(e, w, now) => AuthorizeRefines(alnum, m, f, e, w, now);
    case Consume(e, w, now, _, stamp, _) =>
      AuthorizeRefines(alnum, m, f, e, w, now);
      if MemoryAuthorize(m, e, w, now).allowed {
        var g := m[e.approvalId];
        PayloadFlags(alnum, g, stamp, e.taskId);
        UsedMirrors(alnum, g, stamp, e.taskId);
        if g.singleUse {
          MirrorsUpdate(alnum, m, f, Used(g, stamp, e.taskId));
        }
      }
  }

  lemma MirrorsKeyed(alnum: Alnum, m: Grants, f: Files)
    requires Mirrors(alnum, m, f)
    ensures Keyed(m) && Keyed(f)
  {
  }

  lemma PayloadFlags(alnum: Alnum, g: Grant, at: int, task: string)
    ensures ToPayload(alnum, g).id == g.id && ToPayload(alnum, g).singleUse == g.singleUse
    ensures Used(ToPayload(alnum, g), at, task).id == g.id && Used(g, at, task).id == g.id
  {
  }

  lemma DeadIsDenied(e: Envelope, worker: string, g: Grant, now: int)
    requires Dead(g)
    ensures !Evaluate(e, worker, g, now).allowed
  {
  }

  function Outcomes(alnum: Alnum, s: Store, ops: seq<Op>): seq<Option<Outcome>>
    decreases |ops|
  {
    if ops == [] then []
    else [Step(alnum, s, ops[0]).0] + Outcomes(alnum, Step(alnum, s, ops[0]).1, ops[1..])
  }

  /** Every run of comparable operations has the same outcomes on both stores: allowed,
      reason and consumed. */
  lemma {:induction false} DurableRefinesMemory(alnum: Alnum, m: Grants, f: Files, ops: seq<Op>)
    requires LawfulAlnum(alnum) && Mirrors(alnum, m, f)
    requires forall i :: 0 <= i < |ops| ==> Comparable(alnum, ops[i])
    ensures Outcomes(alnum, Memory(m), ops) == Outcomes(alnum, Durable(f), ops)
    decreases |ops|
  {
    hide Step, Comparable, Mirrors;
    if ops != [] {
      StepRefines(alnum, m, f, ops[0]);
      DurableRefinesMemory(alnum, Step(alnum, Memory(m), ops[0]).1.grants,
                           Step(alnum, Durable(f), ops[0]).1.files, ops[1..]);
    }
  }

  /** An unsafe id is denied by both stores, with different reasons. */
  lemma UnsafeIdReasons(m: Grants, f: Files, e: Envelope, worker: string, now: int)
    requires Keyed(m) && Keyed(f) && Text.Strip(e.approvalId) == e.approvalId
    requires e.approvalId != "" && !IsStrictId(e.approvalId)
    ensures MemoryAuthorize(m, e, worker, now) == Denied(MissingApproval)
    ensures DurableAuthorize(f, e, worker, now) == Denied(UnsafeId)
  {
  }

  /** Stores that mirror each other authorize alike, reason and all, exactly for blank and
      safe ids. */
  lemma AuthorizeAlikeExactly(alnum: Alnum, m: Grants, f: Files, e: Envelope, worker: string, now: int)
    requires Mirrors(alnum, m, f) && Text.Strip(e.approvalId) == e.approvalId
    ensures DurableAuthorize(f, e, worker, now) == MemoryAuthorize(m, e, worker, now)
            <==> e.approvalId == "" || IsStrictId(e.approvalId)
  {
    hide DurableAuthorize, MemoryAuthorize, Mirrors, IsStrictId;
    if e.approvalId == "" || IsStrictId(e.approvalId) {
      AuthorizeRefines(alnum, m, f, e, worker, now);
    } else {
      MirrorsKeyed(alnum, m, f);
      UnsafeIdReasons(m, f, e, worker, now);
    }
  }

  /** Grants with ids of at most 160 allowed characters, safe ids in envelopes, equal clock
      readings and no failed write. */
  predicate IsClean(alnum: Alnum, op: Op) {
    && LegalOp(op)
    && match op
       case Add(g, writes) =>
         && writes && |g.taskId| <= MAX_ID && |g.scopeCorrelation| <= MAX_ID && |g.correlation| <= MAX_ID
         && AllIdChars(alnum, g.taskId) && AllIdChars(alnum, g.scopeCorrelation) && AllIdChars(alnum, g.correlation)
       case Authorize(e, _, _) => e.approvalId == "" || IsStrictId(e.approvalId)
       case Consume(e, _, now, second, _,
                    writes) => second == now && writes && (e.approvalId == "" || IsStrictId(e.approvalId))
  }

  /** From empty stores, every run of clean operations has the same outcomes on both. */
  lemma CleanRunsAlike(alnum: Alnum, ops: seq<Op>)
    requires LawfulAlnum(alnum) && forall i :: 0 <= i < |ops| ==> IsClean(alnum, ops[i])
    ensures Outcomes(alnum, Memory(map[]), ops) == Outcomes(alnum, Durable(map[]), ops)
  {
    hide Outcomes, IsGrant, IdsSurvive;
    forall i | 0 <= i < |ops| ensures Comparable(alnum, ops[i]) {
      if ops[i].Add? {
        CleanIdsSurvive(alnum, ops[i].grant);
      }
    }
    DurableRefinesMemory(alnum, map[], map[], ops);
  }

  /** The in-memory store reads the clock twice before it decides, the durable one
      once. With the durable reading equal to the first, they decide alike unless the
      grant is allowed at the first reading and expires before the second. */
  lemma TickBetweenReadings(m: Grants, e: Envelope, worker: string, first: int, second: int, stamp: int)
    requires first <= second
    ensures MemoryConsume(m, e, worker, first, second, stamp) == MemoryConsume(m, e, worker, first, first, stamp)
            <==> !(&& MemoryAuthorize(m, e, worker, first).allowed
                   && m[e.approvalId].expiresAt.Some? && m[e.approvalId].expiresAt.value <= second)
  {
    hide TaskRisk, RiskRank, Over;
  }
}
